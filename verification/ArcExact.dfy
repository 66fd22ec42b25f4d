/** Sealing and verifying agree: the verifier rebuilds, byte for byte, what the sealer hashed. */
module ArcExact {
  import opened Ascii
  import opened ArcText
  import opened ArcTags
  import opened Arc

  // ---- one header, before and after folding ---------------------------------------------------

  /** A name that can be read back in front of a colon. */
  predicate FieldName(name: string) {
    name != "" && Solid(name) && ':' !in name && ';' !in name
  }

  predicate NameOk(name: string) {
    FieldName(name) && Flat(name) && !IsWsp(name[0])
  }

  lemma NameIs(name: string, value: string)
    requires FieldName(name)
    ensures HeaderName(name + ":" + value) == name && ValueOf(name + ":" + value) == value
  {
    ColonIs(name, value);
    SolidStays(name);
    var h := name + ":" + value;
    assert h[..|name|] == name && h[|name| + 1..] == value;
  }

  lemma ColAfter(a: string, col: nat)
    requires ';' !in a && Flat(a)
    ensures FoldCol(a, col) == col + |a|
    decreases |a|
  {
    if a != "" { ColAfter(a[1..], col + 1); }
  }

  lemma FoldBehind(front: string, value: string)
    requires front != "" && ';' !in front && Flat(front)
    ensures Refolded(front + value) == front + Fold(value, |front|, " \t")
  {
    FoldConcat(front, value, 0, " \t");
    FoldPlain(front, 0, " \t");
    ColAfter(front, 0);
  }

  lemma RefoldedIs(name: string, value: string) returns (folded: string)
    requires NameOk(name)
    ensures folded == Fold(value, |name| + 1, " \t") && Refolded(name + ":" + value) == name + ":" + folded
    ensures HeaderName(name + ":" + folded) == name && ValueOf(name + ":" + folded) == folded
    ensures Flat(value) ==> Flat(folded)
  {
    FoldBehind(name + ":", value);
    folded := Fold(value, |name| + 1, " \t");
    NameIs(name, folded);
    if Flat(value) { FoldFlat(value, |name| + 1); }
  }

  /** Folding does not change what is hashed of a header whose breaks stand before white space. */
  lemma CanonicalRefolded(name: string, value: string)
    requires NameOk(name) && BreaksSpaced(value, |name| + 1) && Flat(value)
    ensures CanonicalOf(Refolded(name + ":" + value)) == CanonicalOf(name + ":" + value)
    ensures HeaderName(Refolded(name + ":" + value)) == name && Refolded(name + ":" + value) != ""
  {
    var folded := RefoldedIs(name, value);
    NameIs(name, value);
    UnfoldFlat(value);
    UnfoldFlat(folded);
    FoldHarmlessIff(value, |name| + 1, false);
  }

  lemma SpacedConcat(a: string, b: string)
    requires Spaced(b) && ';' !in a && b != "" && IsWsp(b[0])
    ensures Spaced(a + ";" + b)
  {
    var s := a + ";" + b;
    forall i | 0 <= i < |s| - 1 && s[i] == ';' ensures IsWsp(s[i + 1]) {
      if i > |a| {
        assert b[i - |a| - 1] == ';' && s[i + 1] == b[i - |a|];
      } else {
        assert i == |a| && s[i + 1] == b[0];
      }
    }
  }

  lemma {:induction false} TagsSpaced(tags: seq<Tag>)
    requires TagsOk(tags)
    ensures var s := TagsText(tags); Spaced(s) && s != "" && s[0] == ' '
  {
    TagTextPlain(tags[0]);
    if |tags| > 1 {
      TagsSpaced(tags[1..]);
      SpacedConcat(TagText(tags[0]), TagsText(tags[1..]));
    }
  }

  /** All there is to know about one tagged header of the instance. */
  lemma TaggedHeader(name: string, tags: seq<Tag>, sig: string)
    requires NameOk(name) && TagsOk(tags) && OneTag(sig)
    ensures var h := HeaderText(name, tags + [Tag("b", sig)]);
            && Flat(h) && StartsField(h) && CanonicalOf(Refolded(h)) == CanonicalOf(h)
            && HeaderName(Refolded(h)) == name && Refolded(h) != ""
            && StripB(Refolded(h)) == Refolded(HeaderText(name, tags + [Tag("b", "")]))
  {
    var all := tags + [Tag("b", sig)];
    assert TagsOk(all);
    TagsSpaced(all);
    TagsEndOk(all);
    StripRefolded(name, tags, sig);
    SpacedHeader(name, TagsText(all));
  }

  lemma SpacedHeader(name: string, value: string)
    requires NameOk(name) && Spaced(value) && Flat(value)
    ensures var h := name + ":" + value;
            && Flat(h) && StartsField(h) && CanonicalOf(Refolded(h)) == CanonicalOf(h)
            && HeaderName(Refolded(h)) == name && Refolded(h) != ""
  {
    SpacedBreaks(value, |name| + 1);
    CanonicalRefolded(name, value);
    StartsWithName(name, value);
  }

  lemma StartsWithName(name: string, value: string)
    requires FieldName(name) && !IsWsp(name[0])
    ensures StartsField(name + ":" + value)
  {
    var h := name + ":" + value;
    assert h[0] == name[0];
    assert CRLF[0] == '\r';
  }

  lemma FindTag(name: string, tags: seq<Tag>, tag: string, value: string)
    requires FieldName(name) && TagsOk(tags) && IsName(tag) && Lookup(tags, tag) == Value(value) && Solid(value)
    ensures ExtractTag(Refolded(HeaderText(name, tags)), tag) == value
  {
    ExtractRefolded(name, TagsText(tags), tag);
    ExtractWritten(name, tags, tag, value);
  }

  // ---- the three headers ----------------------------------------------------------------------

  lemma {:induction false} DecimalIsTag(n: int)
    ensures OneTag(Decimal(n))
    decreases if n < 0 then 1 - n else n
  {
    if n < 0 { DecimalIsTag(-n); } else if n >= 10 { DecimalIsTag(n / 10); }
  }

  predicate IsHeaderWord(s: string) {
    s != "" && Solid(s) && OneTag(s) && ':' !in s
  }

  lemma {:induction false} JoinIsTag(names: seq<string>)
    requires forall i :: 0 <= i < |names| ==> IsHeaderWord(names[i])
    ensures OneTag(JoinColon(names)) && Solid(JoinColon(names))
  {
    if |names| == 1 {
      assert IsHeaderWord(names[0]);
    } else if |names| > 1 {
      assert IsHeaderWord(names[0]);
      JoinIsTag(names[1..]);
    }
  }

  predicate IsLetter(c: char) {
    'a' <= c <= 'z' || 'A' <= c <= 'Z' || c == '-'
  }

  lemma LettersAreWords(s: string)
    requires s != "" && forall i :: 0 <= i < |s| ==> IsLetter(s[i])
    ensures IsHeaderWord(s) && NameOk(s)
  {
  }

  lemma SignedAreWords()
    ensures forall i :: 0 <= i < |SIGNED| ==> IsHeaderWord(SIGNED[i])
  {
    forall i | 0 <= i < |SIGNED| ensures IsHeaderWord(SIGNED[i]) {
      LettersAreWords(SIGNED[i]);
    }
  }

  lemma MessageTagsOk(o: Options, bh: string)
    requires Clean(o) && Base64(bh)
    ensures TagsOk(MessageTags(o, bh))
  {
    DecimalIsTag(o.now);
    SignedAreWords();
    JoinIsTag(SIGNED);
    PlainTagsOk(o);
    TagIsOk("h", JoinColon(SIGNED));
    TagIsOk("bh", bh);
  }

  lemma PlainTagsOk(o: Options)
    requires Clean(o)
    ensures TagOk(Tag("i", "1")) && TagOk(Tag("a", "rsa-sha256")) && TagOk(Tag("c", "relaxed/relaxed"))
    ensures TagOk(Tag("cv", "none")) && TagOk(Tag("d", o.domain)) && TagOk(Tag("s", o.selector))
    ensures TagOk(Tag("t", Decimal(o.now)))
  {
    DecimalIsTag(o.now);
    TagIsOk("d", o.domain);
    TagIsOk("s", o.selector);
    TagIsOk("t", Decimal(o.now));
    FixedTagsOk();
  }

  lemma FixedTagsOk()
    ensures TagOk(Tag("i", "1")) && TagOk(Tag("a", "rsa-sha256")) && TagOk(Tag("c", "relaxed/relaxed"))
    ensures TagOk(Tag("cv", "none"))
  {
    PlainIsOk("i", "1");
    PlainIsOk("a", "rsa-sha256");
    PlainIsOk("c", "relaxed/relaxed");
    PlainIsOk("cv", "none");
  }

  lemma PlainIsOk(name: string, value: string)
    requires IsName(name) && forall i :: 0 <= i < |value| ==> '-' <= value[i] <= '9' || 'a' <= value[i] <= 'z'
    ensures TagOk(Tag(name, value))
  {
  }

  lemma TagIsOk(name: string, value: string)
    requires IsName(name) && OneTag(value)
    ensures TagOk(Tag(name, value))
  {
  }

  lemma SealTagsOk(o: Options)
    requires Clean(o)
    ensures TagsOk(SealTags(o))
  {
    PlainTagsOk(o);
  }

  /** The first tag of that name. */
  lemma {:induction false} LookupAt(tags: seq<Tag>, k: nat, tag: string)
    requires k < |tags| && (forall i :: 0 <= i < k ==> tags[i].name != tag) && tags[k].name == tag
    ensures Lookup(tags, tag) == Value(tags[k].value)
    decreases k
  {
    if k > 0 { LookupAt(tags[1..], k - 1, tag); }
  }

  /** The message signature header, read back: instance, body hash, field list and signature. */
  lemma MessageReadBack(o: Options, bh: string, sig: string)
    requires Clean(o) && Base64(bh) && Base64(sig)
    ensures var h := Refolded(MessageHeader(o, bh, sig));
            && ExtractTag(h, "i") == "1" && ExtractTag(h, "bh") == bh && ExtractTag(h, "b") == sig
            && ExtractTag(h, "h") == JoinColon(SIGNED)
  {
    MessageTagsOk(o, bh);
    var tags := MessageTags(o, bh) + [Tag("b", sig)];
    assert TagsOk(tags);
    LookupAt(tags, 0, "i");
    LookupAt(tags, 6, "h");
    LookupAt(tags, 7, "bh");
    LookupAt(tags, 8, "b");
    SignedAreWords();
    JoinIsTag(SIGNED);
    MessageNameOk();
    FindTag(AMS, tags, "i", "1");
    FindTag(AMS, tags, "h", JoinColon(SIGNED));
    FindTag(AMS, tags, "bh", bh);
    FindTag(AMS, tags, "b", sig);
  }

  lemma SealReadBack(o: Options, sig: string)
    requires Clean(o) && Base64(sig)
    ensures var h := Refolded(SealHeader(o, sig)); ExtractTag(h, "i") == "1" && ExtractTag(h, "b") == sig
  {
    SealTagsOk(o);
    var tags := SealTags(o) + [Tag("b", sig)];
    assert TagsOk(tags);
    LookupAt(tags, 0, "i");
    LookupAt(tags, 6, "b");
    SealNameOk();
    FindTag(AS, tags, "i", "1");
    FindTag(AS, tags, "b", sig);
  }

  lemma SealNameOk()
    ensures NameOk(AS)
  {
    LettersAreWords(AS);
  }

  lemma MessageNameOk()
    ensures NameOk(AMS)
  {
    LettersAreWords(AMS);
  }

  lemma ResultsNameOk()
    ensures NameOk(AAR)
  {
    LettersAreWords(AAR);
  }

  /** The results header, read back. */
  lemma ResultsReadBack(o: Options)
    requires Clean(o)
    ensures var h := ResultsText(o);
            && Flat(h) && StartsField(h) && HeaderName(Refolded(h)) == AAR && Refolded(h) != ""
            && ExtractTag(Refolded(h), "i") == "1"
  {
    var auth := TrimSpace(o.authResults);
    ResultsGlue(AAR, auth);
    ResultsNameOk();
    InstanceReadBack(AAR, " " + auth, ResultsText(o));
  }

  /** A header whose first tag is the instance. */
  lemma InstanceReadBack(name: string, rest: string, h: string)
    requires NameOk(name) && Flat(rest) && h == name + ":" + (" i=1" + ";" + rest)
    ensures Flat(h) && StartsField(h) && HeaderName(Refolded(h)) == name && Refolded(h) != ""
    ensures ExtractTag(Refolded(h), "i") == "1"
  {
    FirstIsInstance(rest);
    var value := " i=1" + ";" + rest;
    assert Flat(" i=1" + ";");
    FirstReadBack(name, value, h, "1");
  }

  lemma FirstReadBack(name: string, value: string, h: string, v: string)
    requires NameOk(name) && Flat(value) && h == name + ":" + value
    requires FirstTag(Segments(value), "i") == Value(v) && TrimSpace(v) == v
    ensures Flat(h) && StartsField(h) && HeaderName(Refolded(h)) == name && Refolded(h) != ""
    ensures ExtractTag(Refolded(h), "i") == v
  {
    var _ := RefoldedIs(name, value);
    StartsWithName(name, value);
    ExtractRefolded(name, value, "i");
    AfterColonIs(name, value);
  }

  lemma {:induction false} TrimmedEnds(s: string)
    ensures var t := SkipSpaceEnd(s); t == "" || !IsSpace(t[|t| - 1])
  {
    if s != "" && IsSpace(s[|s| - 1]) { TrimmedEnds(s[..|s| - 1]); }
  }

  /** Canonical text that starts with one space and ends in none. */
  lemma TrimOne(c: string)
    requires |c| >= 2 && c[0] == ' ' && !IsWsp(c[1]) && !IsWsp(c[|c| - 1])
    ensures TrimWspLeft(TrimWspRight(c)) == c[1..]
  {
    assert TrimWspRight(c) == c;
    assert TrimWspLeft(c[1..]) == c[1..];
  }

  lemma LeadCollapses(rest: string)
    ensures Collapse(" i=1" + rest, false) == " i=1" + Collapse(rest, false)
  {
    var t := ['1'] + rest;
    var u := ['='] + t;
    var v := ['i'] + u;
    Spelled(rest);
    CollapseCons(' ', v, false);
    CollapseCons('i', u, true);
    CollapseCons('=', t, false);
    CollapseCons('1', rest, false);
    Spelled(Collapse(rest, false));
  }

  lemma Spelled(rest: string)
    ensures " i=1" + rest == [' '] + (['i'] + (['='] + (['1'] + rest)))
  {
  }

  lemma ValueTrimmed(rest: string, c: string)
    requires rest != "" && !IsWsp(rest[|rest| - 1]) && c == Collapse(" i=1" + rest, false)
    ensures c == " i=1" + Collapse(rest, false) && TrimWspLeft(TrimWspRight(c)) == c[1..]
  {
    LeadCollapses(rest);
    CollapseEnds(rest, false);
    TrimOne(c);
  }

  lemma FoldLead(rest: string, col: nat)
    requires col + 4 <= LIMIT
    ensures Fold(" i=1" + rest, col, " \t") == " i=1" + Fold(rest, col + 4, " \t")
  {
    FoldConcat(" i=1", rest, col, " \t");
    FoldPlain(" i=1", col, " \t");
    ColAfter(" i=1", col);
  }

  /** The results header hashes the same after folding if and only if no break falls before text. */
  lemma ResultsExactIff(o: Options)
    requires Clean(o)
    ensures CanonicalOf(Refolded(ResultsText(o))) == CanonicalOf(ResultsText(o)) <==> Unbroken(o)
  {
    ResultsNameOk();
    TrimmedEnds(SkipSpace(o.authResults));
    NamedExactIff(AAR, TrimSpace(o.authResults));
  }

  lemma NamedExactIff(name: string, auth: string)
    requires NameOk(name) && |name| + 5 <= LIMIT && Flat(auth) && (auth == "" || !IsSpace(auth[|auth| - 1]))
    ensures var h := name + ": i=1; " + auth;
            CanonicalOf(Refolded(h)) == CanonicalOf(h) <==> BreaksSpaced(" i=1; " + auth, |name| + 1)
  {
    var rest := "; " + auth;
    var value := " i=1" + rest;
    ResultsGlue(name, auth);
    ValueGlue(auth);
    if auth == "" {
      ShortRest(name);
      CanonicalRefolded(name, value);
    } else {
      assert rest[|rest| - 1] == auth[|auth| - 1];
      HeaderExactIff(name, rest, value);
    }
  }

  lemma HeaderExactIff(name: string, rest: string, value: string)
    requires NameOk(name) && |name| + 5 <= LIMIT && rest != "" && !IsWsp(rest[|rest| - 1]) && value == " i=1" + rest
      && Flat(value)
    ensures CanonicalOf(Refolded(name + ":" + value)) == CanonicalOf(name + ":" + value)
      <==> BreaksSpaced(value, |name| + 1)
  {
    var folded := RefoldedIs(name, value);
    NameIs(name, value);
    ValueExactIff(name, rest, value, folded);
  }

  lemma {:induction false} ValueExactIff(name: string, rest: string, value: string, folded: string)
    requires |name| + 5 <= LIMIT && rest != "" && !IsWsp(rest[|rest| - 1])
    requires value == " i=1" + rest && folded == Fold(value, |name| + 1, " \t") && Flat(value) && Flat(folded)
    ensures CanonicalHeader(name, folded) == CanonicalHeader(name, value) <==> BreaksSpaced(value, |name| + 1)
  {
    UnfoldFlat(value);
    UnfoldFlat(folded);
    FoldHarmlessIff(value, |name| + 1, false);
    FoldLead(rest, |name| + 1);
    FoldEnds(rest, |name| + 5);
    var tail, c, d := Fold(rest, |name| + 5, " \t"), Collapse(value, false), Collapse(folded, false);
    ValueTrimmed(rest, c);
    ValueTrimmed(tail, d);
    SameBehind(Lower(TrimSpace(name)) + ":", d, c);
  }

  lemma ValueGlue(auth: string)
    ensures " i=1; " + auth == " i=1" + ("; " + auth) && " i=1" + ("; " + auth) == " i=1" + ";" + (" " + auth)
  {
    assert " i=1; " == " i=1" + "; " && "; " == ";" + " ";
  }

  lemma ShortRest(name: string)
    ensures BreaksSpaced(" i=1" + ("; " + ""), |name| + 1)
  {
    var h := " i=1" + ("; " + "");
    assert Spaced(h);
    SpacedBreaks(h, |name| + 1);
  }

  lemma SameBehind(p: string, a: string, b: string)
    requires |a| >= 1 && |b| >= 1 && a[0] == b[0]
    ensures p + a[1..] + CRLF == p + b[1..] + CRLF <==> a == b
  {
    assert a == [a[0]] + a[1..] && b == [b[0]] + b[1..];
    var x, y := p + a[1..] + CRLF, p + b[1..] + CRLF;
    assert x[|p|..|x| - 2] == a[1..] && y[|p|..|y| - 2] == b[1..];
  }

  lemma ResultsGlue(name: string, auth: string)
    ensures name + ": i=1; " + auth == name + ":" + (" i=1" + ";" + (" " + auth))
  {
    assert ": i=1; " == ":" + " i=1" + ";" + " ";
  }

  lemma FirstIsInstance(rest: string)
    ensures FirstTag(Segments(" i=1" + ";" + rest), "i") == Value("1") && TrimSpace("1") == "1"
  {
    var tail := [';'] + rest;
    assert " i=1" + ";" + rest == " i=1" + tail;
    SegmentsPlain(" i=1", tail);
    SegmentsSemi(rest);
    var t := Tag("i", "1");
    assert " i=1" + "" == " i=1" && TagText(t) == " i=1";
    TagOfTag(t, "i");
    SolidStays("1");
  }

  // ---- finding the instance -------------------------------------------------------------------

  lemma OneIsOne(h: string)
    requires ExtractTag(h, "i") == "1"
    ensures InstanceOf(h) == 1
  {
    assert "1"[..0] == "";
    assert Number("1") == 10 * Number("") + 1;
  }

  lemma CollectSkips(fields: seq<string>, h: string, instance: int)
    requires !IsArc(h)
    ensures Collect(fields + [h], instance) == Collect(fields, instance) && Highest(fields + [h]) == Highest(fields)
  {
    assert (fields + [h])[..|fields|] == fields;
  }

  lemma FieldsEnd(front: seq<string>, fields: seq<string>)
    requires fields != []
    ensures front + fields == front + fields[..|fields| - 1] + [fields[|fields| - 1]]
  {
  }

  /** Fields of other names are no part of an instance. */
  lemma {:induction false} OthersNotCollected(front: seq<string>, fields: seq<string>, instance: int)
    requires forall h :: h in fields ==> !IsArc(h)
    ensures Collect(front + fields, instance) == Collect(front, instance) && Highest(front + fields) == Highest(front)
    decreases |fields|
  {
    if fields == [] {
      assert front + fields == front;
    } else {
      var last, before := fields[|fields| - 1], fields[..|fields| - 1];
      OthersNotCollected(front, before, instance);
      CollectSkips(front + before, last, instance);
      FieldsEnd(front, fields);
    }
  }

  lemma NamesDiffer()
    ensures Lower(AAR) != Lower(AMS) && Lower(AAR) != Lower(AS) && Lower(AMS) != Lower(AS)
  {
    assert |Lower(AAR)| == 26 && |Lower(AMS)| == 21 && |Lower(AS)| == 8;
  }

  lemma InstanceFound(seal: string, ams: string, aar: string)
    requires HeaderName(seal) == AS && HeaderName(ams) == AMS && HeaderName(aar) == AAR
    requires InstanceOf(seal) == 1 && InstanceOf(ams) == 1 && InstanceOf(aar) == 1
    ensures Highest([seal, ams, aar]) == 1 && Collect([seal, ams, aar], 1) == ArcSet(aar, ams, seal)
  {
    NamesDiffer();
    var three, two, one := [seal, ams, aar], [seal, ams], [seal];
    assert three[..2] == two && two[..1] == one && one[..0] == [];
    assert Highest(one) == 1 && Collect(one, 1) == ArcSet("", "", seal);
    assert Highest(two) == 1 && Collect(two, 1) == ArcSet("", ams, seal);
  }

  // ---- the signed fields ----------------------------------------------------------------------

  lemma NotSigned(h: string, want: string)
    requires (HeaderName(h) == AAR || HeaderName(h) == AMS || HeaderName(h) == AS) && want in SIGNED
    ensures Lower(HeaderName(h)) != Lower(want)
  {
    assert |Lower(HeaderName(h))| != |Lower(want)|;
  }

  lemma FindSkips(seal: string, ams: string, aar: string, fields: seq<string>, want: string)
    requires HeaderName(seal) == AS && HeaderName(ams) == AMS && HeaderName(aar) == AAR && want in SIGNED
    ensures Find([seal, ams, aar] + fields, want) == Find(fields, want)
  {
    NotSigned(seal, want);
    NotSigned(ams, want);
    NotSigned(aar, want);
    FindCons(aar, fields, want);
    FindCons(ams, [aar] + fields, want);
    FindCons(seal, [ams] + ([aar] + fields), want);
    assert [seal, ams, aar] + fields == [seal] + ([ams] + ([aar] + fields));
  }

  lemma FindCons(h: string, fields: seq<string>, want: string)
    requires Lower(HeaderName(h)) != Lower(want)
    ensures Find([h] + fields, want) == Find(fields, want)
  {
    assert ([h] + fields)[1..] == fields;
  }

  lemma {:induction false} ListSkips(seal: string, ams: string, aar: string, fields: seq<string>, wants: seq<string>)
    requires HeaderName(seal) == AS && HeaderName(ams) == AMS && HeaderName(aar) == AAR
    requires forall w :: w in wants ==> w in SIGNED
    ensures CanonicalList([seal, ams, aar] + fields, wants) == CanonicalList(fields, wants)
    decreases |wants|
  {
    if wants != [] {
      ListSkips(seal, ams, aar, fields, wants[..|wants| - 1]);
      FindSkips(seal, ams, aar, fields, wants[|wants| - 1]);
    }
  }

  lemma {:induction false} SplitColonsPlain(a: string, b: string)
    requires ':' !in a
    ensures SplitColons(a + b) == [a + SplitColons(b)[0]] + SplitColons(b)[1..]
  {
    var ab := a + b;
    if a == "" {
      assert ab == b && "" + SplitColons(b)[0] == SplitColons(b)[0];
    } else {
      assert ab[1..] == a[1..] + b;
      SplitColonsPlain(a[1..], b);
      assert [a[0]] + (a[1..] + SplitColons(b)[0]) == a + SplitColons(b)[0];
    }
  }

  lemma {:induction false} JoinSplits(names: seq<string>)
    requires names != [] && forall i :: 0 <= i < |names| ==> IsHeaderWord(names[i])
    ensures SplitColonList(JoinColon(names)) == names
  {
    var n := names[0];
    assert IsHeaderWord(n);
    if |names| == 1 {
      SplitColonsPlain(n, "");
      TrimCons(n, []);
      assert n + "" == n && [n] + [] == [n];
      assert names == [n];
    } else {
      var more := JoinColon(names[1..]);
      JoinSplits(names[1..]);
      var tail := [':'] + more;
      assert tail[1..] == more && n + ":" + more == n + tail;
      SplitColonsPlain(n, tail);
      TrimCons(n, SplitColons(more));
      assert SplitColons(tail) == [""] + SplitColons(more) && n + "" == n;
      assert SplitColons(n + tail) == [n] + SplitColons(more);
      assert [n] + names[1..] == names;
    }
  }

  lemma TrimCons(n: string, parts: seq<string>)
    requires IsHeaderWord(n)
    ensures TrimAll([n] + parts) == [n] + TrimAll(parts)
  {
    SolidStays(n);
    assert ([n] + parts)[1..] == parts;
  }

  // ---- the message ----------------------------------------------------------------------------

  lemma BehindStarts(headers: string, body: string)
    requires StartsField(headers)
    ensures StartsField(headers + CRLF + body)
  {
    var s := headers + CRLF + body;
    assert s[0] == headers[0];
    assert |headers| == 1 ==> s[1] == '\r';
    assert |headers| >= 2 ==> s[..2] == headers[..2];
  }

  /** One header more in front: the blank line moves along, and one field comes first. */
  lemma OneMore(h: string, rest: string)
    requires Flat(h) && StartsField(h) && StartsField(rest)
    ensures var text := FoldHeader(h) + CRLF;
            && FindBlank(text + rest) == Shift(FindBlank(rest), |text|) && StartsField(text + rest)
            && SplitHeaders(text + rest) == [Refolded(h)] + SplitHeaders(rest)
  {
    FoldedHasNoBlank(h, 0, rest);
    FoldedIsOneField(h, rest);
    FoldedStarts(h, rest);
  }

  lemma FoldedStarts(h: string, rest: string)
    requires Flat(h) && StartsField(h)
    ensures StartsField(FoldHeader(h) + CRLF + rest)
  {
    assert FoldHeader(h)[0] == h[0];
    assert (FoldHeader(h) + CRLF + rest)[0] == h[0];
    assert CRLF[0] == '\r';
  }

  /** The sealed text splits into the instance, the old fields and the old body. */
  lemma SealedSplits(seal: string, ams: string, aar: string, raw: string, headers: string, body: string, text: string)
    requires Flat(seal) && StartsField(seal) && Flat(ams) && StartsField(ams) && Flat(aar) && StartsField(aar)
    requires SplitMessage(raw) == (headers, body) && StartsField(headers)
    requires text == Prepended(seal, ams, aar, headers, body)
    ensures SplitMessage(text).1 == body
    ensures SplitHeaders(SplitMessage(text).0) == [Refolded(seal), Refolded(ams), Refolded(aar)] + SplitHeaders(headers)
  {
    var again := headers + CRLF + body;
    BehindStarts(headers, body);
    ThreeMore(seal, ams, aar, again);
    ThreeMore(seal, ams, aar, headers);
    SplitBehind(Front(seal, ams, aar), raw, headers, body, again);
    InFront(FoldHeader(seal) + CRLF, FoldHeader(ams) + CRLF, FoldHeader(aar) + CRLF, again);
  }

  function Front(seal: string, ams: string, aar: string): string {
    FoldHeader(seal) + CRLF + (FoldHeader(ams) + CRLF) + (FoldHeader(aar) + CRLF)
  }

  lemma ThreeMore(seal: string, ams: string, aar: string, rest: string)
    requires Flat(seal) && StartsField(seal) && Flat(ams) && StartsField(ams) && Flat(aar) && StartsField(aar)
      && StartsField(rest)
    ensures var front := Front(seal, ams, aar);
            && FindBlank(front + rest) == Shift(FindBlank(rest), |front|)
            && SplitHeaders(front + rest) == [Refolded(seal), Refolded(ams), Refolded(aar)] + SplitHeaders(rest)
  {
    var a, m, r := FoldHeader(seal) + CRLF, FoldHeader(ams) + CRLF, FoldHeader(aar) + CRLF;
    OneMore(aar, rest);
    OneMore(ams, r + rest);
    OneMore(seal, m + (r + rest));
    InFront(a, m, r, rest);
    ThreeFields(Refolded(seal), Refolded(ams), Refolded(aar), SplitHeaders(rest));
  }

  lemma ThreeFields(x: string, y: string, z: string, rest: seq<string>)
    ensures [x] + ([y] + ([z] + rest)) == [x, y, z] + rest
  {
  }

  lemma InFront(a: string, m: string, r: string, rest: string)
    ensures a + (m + (r + rest)) == a + m + r + rest
  {
  }

  lemma Instance(o: Options, bh: string, sig: string, sealSig: string)
    requires Clean(o) && Base64(bh) && Base64(sig) && Base64(sealSig)
    ensures Flat(ResultsText(o)) && StartsField(ResultsText(o))
    ensures Flat(MessageHeader(o, bh, sig)) && StartsField(MessageHeader(o, bh, sig))
    ensures Flat(SealHeader(o, sealSig)) && StartsField(SealHeader(o, sealSig))
  {
    MessageIs(o, bh, sig);
    SealIs(o, sealSig);
    ResultsReadBack(o);
  }

  lemma MessageIs(o: Options, bh: string, sig: string)
    requires Clean(o) && Base64(bh) && Base64(sig)
    ensures var h := MessageHeader(o, bh, sig);
            && Flat(h) && StartsField(h) && CanonicalOf(Refolded(h)) == CanonicalOf(h)
            && HeaderName(Refolded(h)) == AMS && Refolded(h) != "" && InstanceOf(Refolded(h)) == 1
            && CanonicalOf(StripB(Refolded(h))) == CanonicalOf(StripB(MessageHeader(o, bh, "")))
  {
    var tags := MessageTags(o, bh);
    MessageTagsOk(o, bh);
    MessageNameOk();
    TaggedHeader(AMS, tags, sig);
    TaggedHeader(AMS, tags, "");
    StripUnsigned(AMS, tags);
    MessageReadBack(o, bh, sig);
    OneIsOne(Refolded(MessageHeader(o, bh, sig)));
  }

  lemma SealIs(o: Options, sig: string)
    requires Clean(o) && Base64(sig)
    ensures var h := SealHeader(o, sig);
            && Flat(h) && StartsField(h) && HeaderName(Refolded(h)) == AS && Refolded(h) != ""
              && InstanceOf(Refolded(h)) == 1
            && CanonicalOf(StripB(Refolded(h))) == CanonicalOf(SealHeader(o, ""))
  {
    SealTagsOk(o);
    SealNameOk();
    TaggedHeader(AS, SealTags(o), sig);
    TaggedHeader(AS, SealTags(o), "");
    SealReadBack(o, sig);
    OneIsOne(Refolded(SealHeader(o, sig)));
  }

  /** An unsigned header has nothing to empty. */
  lemma StripUnsigned(name: string, tags: seq<Tag>)
    requires TagsOk(tags)
    ensures StripB(HeaderText(name, tags + [Tag("b", "")])) == HeaderText(name, tags + [Tag("b", "")])
  {
    var base := HeaderText(name, tags);
    SignedIs(name, tags, "");
    StripLast(base, " ", "");
    UnsignedGlue(base);
  }

  lemma UnsignedGlue(base: string)
    ensures base + ("; b=" + "") == base + ";" + " " + "b=" + "" && base + ";" + " " + "b=" == base + ("; b=" + "")
  {
    assert "; b=" + "" == ";" + " " + "b=";
  }

  /** What the verifier makes of the instance and the old fields. */
  lemma ExamineIs(o: Options, bh: string, sig: string, sealSig: string, hs: seq<string>, fields: seq<string>)
    requires Clean(o) && Base64(bh) && Base64(sig) && Base64(sealSig) && forall h :: h in hs ==> !IsArc(h)
    requires fields
      == [Refolded(SealHeader(o, sealSig)), Refolded(MessageHeader(o, bh, sig)), Refolded(ResultsText(o))] + hs
    ensures Collect(fields, Highest(fields))
         == ArcSet(Refolded(ResultsText(o)), Refolded(MessageHeader(o, bh, sig)), Refolded(SealHeader(o, sealSig)))
    ensures CanonicalList(fields, SIGNED) == CanonicalList(hs, SIGNED)
  {
    var seal, ams, aar := Refolded(SealHeader(o, sealSig)), Refolded(MessageHeader(o, bh, sig)),
      Refolded(ResultsText(o));
    MessageIs(o, bh, sig);
    SealIs(o, sealSig);
    ResultsReadBack(o);
    OneIsOne(aar);
    OthersNotCollected([seal, ams, aar], hs, 1);
    InstanceFound(seal, ams, aar);
    ListSkips(seal, ams, aar, hs, SIGNED);
  }

  lemma InputsAgree(o: Options, bh: string, sig: string, sealSig: string, hs: seq<string>, fields: seq<string>,
                    body: string)
    requires Clean(o) && Base64(bh) && Base64(sig) && Base64(sealSig) && forall h :: h in hs ==> !IsArc(h)
    requires fields
      == [Refolded(SealHeader(o, sealSig)), Refolded(MessageHeader(o, bh, sig)), Refolded(ResultsText(o))] + hs
    ensures var e := Evaluate(fields, body);
            && e.found == ArcSet(Refolded(ResultsText(o)), Refolded(MessageHeader(o, bh, sig)),
                                 Refolded(SealHeader(o, sealSig)))
            && e.bh == bh && e.sigs == (sig, sealSig) && e.hashed.body == CanonicalBody(body)
            && e.hashed.message == MessageInput(hs, SIGNED, StripB(MessageHeader(o, bh, "")))
            && e.hashed.seal == SetInput(Refolded(ResultsText(o)), MessageHeader(o, bh, sig), SealHeader(o, ""))
  {
    ExamineIs(o, bh, sig, sealSig, hs, fields);
    MessageReadBack(o, bh, sig);
    SealReadBack(o, sealSig);
    MessageIs(o, bh, sig);
    SealIs(o, sealSig);
    ResultsReadBack(o);
    SignedAreWords();
    JoinSplits(SIGNED);
  }

  lemma SetExactIff(o: Options, ams: string, unsigned: string)
    requires Clean(o)
    ensures SetInput(Refolded(ResultsText(o)), ams, unsigned) == SetInput(ResultsText(o), ams, unsigned)
      <==> Unbroken(o)
  {
    ResultsExactIff(o);
    CancelBehind(CanonicalOf(Refolded(ResultsText(o))), CanonicalOf(ResultsText(o)), CanonicalOf(ams),
                 TrimBreaks(CanonicalOf(unsigned)));
  }

  lemma CancelBehind(a: string, b: string, x: string, y: string)
    ensures a + x + y == b + x + y <==> a == b
  {
    var p, q := a + x + y, b + x + y;
    assert |p| == |q| ==> |a| == |b|;
    assert p[..|a|] == a && q[..|b|] == b;
  }

  /** Whatever the message: the body and the signed fields are rebuilt byte for byte, the tags give
      back the body hash and both signatures, and the sealed set is rebuilt byte for byte if and only
      if no fold of the results header fell before text. */
  lemma SealExactIff(raw: string, o: Options, c: Crypto)
    requires Honest(c) && Clean(o) && StartsField(SplitMessage(raw).0) && Seal(raw, o, c).Sealed?
    ensures var s := Seal(raw, o, c);
            var e := Examine(s.text);
            && e.hashed.body == s.hashed.body && e.hashed.message == s.hashed.message
            && e.bh == c.hash(s.hashed.body) && e.sigs == s.sigs
            && e.found.aar != "" && e.found.ams != "" && e.found.seal != ""
            && (e.hashed.seal == s.hashed.seal <==> Unbroken(o))
  {
    var s := Seal(raw, o, c);
    var (headers, body) := SplitMessage(raw);
    var bh, sig, sealSig := c.hash(CanonicalBody(body)), s.sigs.0, s.sigs.1;
    Instance(o, bh, sig, sealSig);
    var hs, fields := SplitHeaders(headers), SplitHeaders(SplitMessage(s.text).0);
    SealedSplits(SealHeader(o, sealSig), MessageHeader(o, bh, sig), ResultsText(o), raw, headers, body, s.text);
    InputsAgree(o, bh, sig, sealSig, hs, fields, body);
    SetExactIff(o, MessageHeader(o, bh, sig), SealHeader(o, ""));
    MessageIs(o, bh, sig);
    SealIs(o, sealSig);
    ResultsReadBack(o);
  }

  /** So a sealed message verifies. */
  lemma SealVerifies(raw: string, o: Options, c: Crypto)
    requires Honest(c) && Clean(o) && Unbroken(o) && StartsField(SplitMessage(raw).0) && Seal(raw, o, c).Sealed?
    ensures Verify(Seal(raw, o, c).text, c) == Accepted
  {
    SealExactIff(raw, o, c);
    SealSigned(raw, o, c);
  }

  lemma SealSigned(raw: string, o: Options, c: Crypto)
    requires Seal(raw, o, c).Sealed?
    ensures var s := Seal(raw, o, c);
            c.sign(s.hashed.message) == Signature(s.sigs.0) && c.sign(s.hashed.seal) == Signature(s.sigs.1)
  {
  }

  /** Results with white space after every semicolon are never broken badly. */
  lemma SpacedIsUnbroken(o: Options)
    requires Spaced(TrimSpace(o.authResults))
    ensures Unbroken(o)
  {
    var auth := TrimSpace(o.authResults);
    var h := " i=1; " + auth;
    forall i | 0 <= i < |h| - 1 && h[i] == ';' ensures IsWsp(h[i + 1]) {
      if i >= 6 { assert auth[i - 6] == ';' && h[i + 1] == auth[i - 5]; }
    }
    SpacedBreaks(h, |AAR| + 1);
  }

  lemma {:induction false} BreaksBehind(a: string, b: string, col: nat)
    requires ';' !in a && Flat(a)
    ensures BreaksSpaced(a + b, col) == BreaksSpaced(b, col + |a|)
    decreases |a|
  {
    var ab := a + b;
    if a == "" {
      assert ab == b;
    } else {
      assert ab[1..] == a[1..] + b;
      BreaksBehind(a[1..], b, col + 1);
    }
  }

  /** Not all results qualify: sixty letters and a semicolon with text right behind it do not. */
  lemma BrokenExample(o: Options, letters: string)
    requires |letters| == 60 && (forall i :: 0 <= i < 60 ==> 'a' <= letters[i] <= 'z')
      && TrimSpace(o.authResults) == letters + ";b"
    ensures !Unbroken(o)
  {
    var auth := letters + ";b";
    ValueGlue(auth);
    var tail := [';'] + ([' '] + auth);
    assert "; " + auth == tail && tail[1..] == [' '] + auth;
    BreaksBehind(" i=1", tail, |AAR| + 1);
    assert [' '] + auth == ([' '] + letters) + ";b";
    BreaksBehind([' '] + letters, ";b", |AAR| + 6);
  }
}
