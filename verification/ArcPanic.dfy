/** When the verifier slices a results header that is not there. */
module ArcPanic {
  import opened Ascii
  import opened ArcText
  import opened ArcTags
  import opened Arc
  import opened ArcExact
  import L = Lists

  // ---- what the collected set says of the fields ----------------------------------------------

  /** A field of that name in that instance. */
  predicate Among(fields: seq<string>, name: string, instance: int) {
    exists h :: h in fields && IsOne(h, name, instance)
  }

  predicate IsOne(h: string, name: string, instance: int) {
    Lower(HeaderName(h)) == Lower(name) && InstanceOf(h) == instance
  }

  lemma AmongSnoc(fields: seq<string>, h: string, name: string, instance: int)
    ensures Among(fields + [h], name, instance) <==> Among(fields, name, instance) || IsOne(h, name, instance)
  {
    var all := fields + [h];
    if Among(fields, name, instance) {
      var x :| x in fields && IsOne(x, name, instance);
      assert x in all;
    }
    if IsOne(h, name, instance) { assert h in all; }
  }

  /** What one field adds to the set. */
  lemma TakeMeaning(found: ArcSet, h: string, instance: int)
    requires h != ""
    ensures var after := Take(found, h, instance);
            && (after.aar == "" <==> found.aar == "" && !IsOne(h, AAR, instance))
            && (after.ams == "" <==> found.ams == "" && !IsOne(h, AMS, instance))
            && (after.seal == "" <==> found.seal == "" && !IsOne(h, AS, instance))
  {
    NamesDiffer();
  }

  ghost predicate AllText(fields: seq<string>) {
    forall i :: 0 <= i < |fields| ==> fields[i] != ""
  }

  lemma CollectSnoc(fields: seq<string>, h: string, instance: int)
    ensures Collect(fields + [h], instance) == Take(Collect(fields, instance), h, instance)
  {
    assert (fields + [h])[..|fields|] == fields;
  }

  /** The set tells which headers of the instance are among the fields. */
  ghost predicate Tells(found: ArcSet, fields: seq<string>, instance: int) {
    && (found.aar == "" <==> !Among(fields, AAR, instance))
    && (found.ams == "" <==> !Among(fields, AMS, instance))
    && (found.seal == "" <==> !Among(fields, AS, instance))
  }

  lemma TellsMore(found: ArcSet, fields: seq<string>, h: string, instance: int)
    requires Tells(found, fields, instance) && h != ""
    ensures Tells(Take(found, h, instance), fields + [h], instance)
  {
    TakeMeaning(found, h, instance);
    AmongSnoc(fields, h, AAR, instance);
    AmongSnoc(fields, h, AMS, instance);
    AmongSnoc(fields, h, AS, instance);
  }

  lemma {:induction false} CollectTells(fields: seq<string>, instance: int)
    requires AllText(fields)
    ensures Tells(Collect(fields, instance), fields, instance)
    decreases |fields|
  {
    if fields == [] {
      NothingTold(instance);
    } else {
      var before, h := fields[..|fields| - 1], fields[|fields| - 1];
      CollectTells(before, instance);
      L.FrontLast(fields);
      CollectTellsMore(before, h, fields, instance);
    }
  }

  lemma NothingTold(instance: int)
    ensures Tells(Collect([], instance), [], instance)
  {
  }

  lemma CollectTellsMore(before: seq<string>, h: string, fields: seq<string>, instance: int)
    requires h != "" && Tells(Collect(before, instance), before, instance) && fields == before + [h]
    ensures Tells(Collect(fields, instance), fields, instance)
  {
    TellsMore(Collect(before, instance), before, h, instance);
    CollectSnoc(before, h, instance);
  }

  lemma {:induction false} GatheredIsText(lines: seq<string>, cur: string)
    ensures AllText(Gather(lines, cur))
    decreases |lines|
  {
    if lines != [] {
      GatheredIsText(lines[1..], if lines[0] == "" then cur else if Continues(lines[0]) then cur + "\n" + lines[0]
                     else lines[0]);
    }
  }

  // ---- exactly when ---------------------------------------------------------------------------

  /** The verifier panics if and only if seal and signature of the highest instance are there, the body
      hash and the message signature are right, and no field is a results header of that instance. */
  lemma PanicsIff(raw: string, c: Crypto)
    ensures var fields := SplitHeaders(SplitMessage(raw).0);
            var n, e := Highest(fields), Examine(raw);
            Verify(raw, c) == Panics <==>
              && Among(fields, AS, n) && Among(fields, AMS, n) && !Among(fields, AAR, n)
              && e.bh == c.hash(e.hashed.body) && c.verify(e.hashed.message, e.sigs.0)
  {
    var fields := SplitHeaders(SplitMessage(raw).0);
    GatheredIsText(SplitLines(SplitMessage(raw).0), "");
    CollectTells(fields, Highest(fields));
    FoundIs(raw);
    JudgePanics(Examine(raw), c);
  }

  lemma FoundIs(raw: string)
    ensures var fields := SplitHeaders(SplitMessage(raw).0); Examine(raw).found == Collect(fields, Highest(fields))
  {
  }

  lemma JudgePanics(e: Evidence, c: Crypto)
    ensures Judge(e, c) == Panics <==>
              && e.found.seal != "" && e.found.ams != "" && e.found.aar == ""
              && e.bh == c.hash(e.hashed.body) && c.verify(e.hashed.message, e.sigs.0)
  {
  }

  // ---- every sealed message, its results header taken away ------------------------------------

  /** Seal and signature alone in front. */
  function Top(seal: string, ams: string): string {
    FoldHeader(seal) + CRLF + (FoldHeader(ams) + CRLF)
  }

  lemma TwoMore(seal: string, ams: string, rest: string)
    requires Flat(seal) && StartsField(seal) && Flat(ams) && StartsField(ams) && StartsField(rest)
    ensures var front := Top(seal, ams);
            && FindBlank(front + rest) == Shift(FindBlank(rest), |front|)
            && SplitHeaders(front + rest) == [Refolded(seal), Refolded(ams)] + SplitHeaders(rest)
  {
    var a, m := FoldHeader(seal) + CRLF, FoldHeader(ams) + CRLF;
    OneMore(ams, rest);
    OneMore(seal, m + rest);
    TwoInFront(a, m, rest);
    TwoFields(Refolded(seal), Refolded(ams), SplitHeaders(rest));
  }

  lemma TwoInFront(a: string, m: string, rest: string)
    ensures a + (m + rest) == a + m + rest
  {
  }

  lemma TwoFields(x: string, y: string, rest: seq<string>)
    ensures [x] + ([y] + rest) == [x, y] + rest
  {
  }

  lemma TopSplits(seal: string, ams: string, raw: string, headers: string, body: string)
    requires Flat(seal) && StartsField(seal) && Flat(ams) && StartsField(ams)
    requires SplitMessage(raw) == (headers, body) && StartsField(headers)
    ensures var text := Top(seal, ams) + (headers + CRLF + body);
            && SplitMessage(text).1 == body
            && SplitHeaders(SplitMessage(text).0) == [Refolded(seal), Refolded(ams)] + SplitHeaders(headers)
  {
    var again := headers + CRLF + body;
    BehindStarts(headers, body);
    TwoMore(seal, ams, again);
    TwoMore(seal, ams, headers);
    SplitBehind(Top(seal, ams), raw, headers, body, again);
  }

  lemma TwoFound(seal: string, ams: string)
    requires HeaderName(seal) == AS && HeaderName(ams) == AMS && InstanceOf(seal) == 1 && InstanceOf(ams) == 1
    ensures Highest([seal, ams]) == 1 && Collect([seal, ams], 1) == ArcSet("", ams, seal)
  {
    NamesDiffer();
    var two, one := [seal, ams], [seal];
    assert two[..1] == one && one[..0] == [];
    assert Highest(one) == 1 && Collect(one, 1) == ArcSet("", "", seal);
  }

  lemma FindSkipsTwo(seal: string, ams: string, fields: seq<string>, want: string)
    requires HeaderName(seal) == AS && HeaderName(ams) == AMS && want in SIGNED
    ensures Find([seal, ams] + fields, want) == Find(fields, want)
  {
    NotSigned(seal, want);
    NotSigned(ams, want);
    FindCons(ams, fields, want);
    FindCons(seal, [ams] + fields, want);
    TwoFields(seal, ams, fields);
  }

  lemma {:induction false} ListSkipsTwo(seal: string, ams: string, fields: seq<string>, wants: seq<string>)
    requires HeaderName(seal) == AS && HeaderName(ams) == AMS && forall w :: w in wants ==> w in SIGNED
    ensures CanonicalList([seal, ams] + fields, wants) == CanonicalList(fields, wants)
    decreases |wants|
  {
    if wants != [] {
      ListSkipsTwo(seal, ams, fields, wants[..|wants| - 1]);
      FindSkipsTwo(seal, ams, fields, wants[|wants| - 1]);
    }
  }

  /** What the verifier makes of seal, signature and the old fields: all but the results. */
  lemma TopExamined(o: Options, bh: string, sig: string, sealSig: string, hs: seq<string>, fields: seq<string>,
                    body: string)
    requires Clean(o) && Base64(bh) && Base64(sig) && Base64(sealSig) && forall h :: h in hs ==> !IsArc(h)
    requires fields == [Refolded(SealHeader(o, sealSig)), Refolded(MessageHeader(o, bh, sig))] + hs
    ensures var e := Evaluate(fields, body);
            && e.found.aar == "" && e.found.ams != "" && e.found.seal != "" && e.bh == bh && e.sigs.0 == sig
            && e.hashed.body == CanonicalBody(body)
            && e.hashed.message == MessageInput(hs, SIGNED, StripB(MessageHeader(o, bh, "")))
  {
    var seal, ams := Refolded(SealHeader(o, sealSig)), Refolded(MessageHeader(o, bh, sig));
    MessageIs(o, bh, sig);
    SealIs(o, sealSig);
    OthersNotCollected([seal, ams], hs, 1);
    TwoFound(seal, ams);
    ListSkipsTwo(seal, ams, hs, SIGNED);
    MessageReadBack(o, bh, sig);
    SignedAreWords();
    JoinSplits(SIGNED);
  }

  /** A sealed message whose results header is taken away makes the verifier panic: the message
      signature covers no ARC field, so everything before the seal still holds. */
  lemma WithoutResultsPanics(raw: string, o: Options, c: Crypto)
    requires Honest(c) && Clean(o) && StartsField(SplitMessage(raw).0) && Seal(raw, o, c).Sealed?
    ensures var s := Seal(raw, o, c);
            var (headers, body) := SplitMessage(raw);
            var top := Top(SealHeader(o, s.sigs.1), MessageHeader(o, c.hash(s.hashed.body), s.sigs.0));
            && s.text == top + (FoldHeader(ResultsText(o)) + CRLF) + (headers + CRLF + body)
            && Verify(top + (headers + CRLF + body), c) == Panics
  {
    var s := Seal(raw, o, c);
    var (headers, body) := SplitMessage(raw);
    var bh, sig, sealSig := c.hash(CanonicalBody(body)), s.sigs.0, s.sigs.1;
    var seal, ams := SealHeader(o, sealSig), MessageHeader(o, bh, sig);
    Instance(o, bh, sig, sealSig);
    InFront(FoldHeader(seal) + CRLF, FoldHeader(ams) + CRLF, FoldHeader(ResultsText(o)) + CRLF, headers + CRLF + body);
    TopSplits(seal, ams, raw, headers, body);
    var text := Top(seal, ams) + (headers + CRLF + body);
    TopExamined(o, bh, sig, sealSig, SplitHeaders(headers), SplitHeaders(SplitMessage(text).0), body);
    SealSigned(raw, o, c);
  }
}
