/** What a seal says and what it signs, spelt out. */
module ArcSpelt {
  import opened Ascii
  import opened ArcText
  import opened ArcTags
  import opened Arc
  import opened ArcExact
  import opened ArcPanic
  import opened ArcRelaxed
  import L = Lists

  // ---- the three headers ----------------------------------------------------------------------

  lemma TagsCons(t: Tag, rest: seq<Tag>)
    requires rest != []
    ensures TagsText([t] + rest) == " " + t.name + "=" + t.value + ";" + TagsText(rest)
  {
    L.HeadTail(t, rest);
  }

  lemma TagsOne(t: Tag)
    ensures TagsText([t]) == " " + t.name + "=" + t.value
  {
  }

  /** From:To:Cc:Subject:Date:Message-Id. */
  const NAMES := "From" + ":" + ("To" + ":" + ("Cc" + ":" + ("Subject" + ":" + ("Date" + ":" + "Message-Id"))))

  /** The value of the message signature, and of the seal. */
  function MessageValue(domain: string, selector: string, time: string, bh: string, sig: string): string {
    " i=1;" + (" a=rsa-sha256;" + (" c=relaxed/relaxed;" + (" d=" + domain + ";" + (" s=" + selector + ";"
      + (" t=" + time + ";" + (" h=" + NAMES + ";" + (" bh=" + bh + ";" + (" b=" + sig))))))))
  }

  function SealValue(domain: string, selector: string, time: string, sig: string): string {
    " i=1;" + (" a=rsa-sha256;" + (" cv=none;" + (" d=" + domain + ";" + (" s=" + selector + ";"
      + (" t=" + time + ";" + (" b=" + sig))))))
  }

  lemma Tags4(a: Tag, b: Tag, c: Tag, d: Tag, rest: seq<Tag>, text: string)
    requires rest != [] && text == TagsText(rest)
    ensures TagsText([a, b, c, d] + rest)
         == " " + a.name + "=" + a.value + ";" + (" " + b.name + "=" + b.value + ";"
            + (" " + c.name + "=" + c.value + ";" + (" " + d.name + "=" + d.value + ";" + text)))
  {
    assert [a, b, c, d] + rest == [a] + ([b] + ([c] + ([d] + rest)));
    TagsCons(d, rest);
    TagsCons(c, [d] + rest);
    TagsCons(b, [c] + ([d] + rest));
    TagsCons(a, [b] + ([c] + ([d] + rest)));
  }

  lemma Tags2(a: Tag, b: Tag, rest: seq<Tag>, text: string)
    requires rest != [] && text == TagsText(rest)
    ensures TagsText([a, b] + rest) == " " + a.name + "=" + a.value + ";" + (" " + b.name + "=" + b.value + ";" + text)
  {
    assert [a, b] + rest == [a] + ([b] + rest);
    TagsCons(b, rest);
    TagsCons(a, [b] + rest);
  }

  lemma Literals()
    ensures " " + "i" + "=" + "1" + ";" == " i=1;" && " " + "a" + "=" + "rsa-sha256" + ";" == " a=rsa-sha256;"
    ensures " " + "c" + "=" + "relaxed/relaxed" + ";" == " c=relaxed/relaxed;"
    ensures " " + "cv" + "=" + "none" + ";" == " cv=none;"
    ensures " " + "d" + "=" == " d=" && " " + "s" + "=" == " s=" && " " + "t" + "=" == " t="
    ensures " " + "bh" + "=" == " bh=" && " " + "b" + "=" == " b=" && " " + "h" + "=" == " h="
  {
  }

  lemma ColonCons(x: string, rest: seq<string>)
    requires rest != []
    ensures JoinColon([x] + rest) == x + ":" + JoinColon(rest)
  {
    L.HeadTail(x, rest);
  }

  lemma SixColons(a: string, b: string, c: string, d: string, e: string, f: string)
    ensures JoinColon([a, b, c, d, e, f]) == a + ":" + (b + ":" + (c + ":" + (d + ":" + (e + ":" + f))))
  {
    assert [a, b, c, d, e, f] == [a] + ([b] + ([c] + ([d] + ([e] + [f]))));
    ColonCons(e, [f]);
    ColonCons(d, [e] + [f]);
    ColonCons(c, [d] + ([e] + [f]));
    ColonCons(b, [c] + ([d] + ([e] + [f])));
    ColonCons(a, [b] + ([c] + ([d] + ([e] + [f]))));
  }

  lemma SignedNames()
    ensures JoinColon(SIGNED) == NAMES
  {
    SixColons("From", "To", "Cc", "Subject", "Date", "Message-Id");
  }

  lemma MessageTail(time: string, bh: string, sig: string)
    ensures TagsText([Tag("t", time), Tag("h", JoinColon(SIGNED)), Tag("bh", bh), Tag("b", sig)])
         == " t=" + time + ";" + (" h=" + NAMES + ";" + (" bh=" + bh + ";" + (" b=" + sig)))
  {
    Literals();
    SignedNames();
    TagsOne(Tag("b", sig));
    Tags2(Tag("h", JoinColon(SIGNED)), Tag("bh", bh), [Tag("b", sig)], " b=" + sig);
    var rest := [Tag("h", JoinColon(SIGNED)), Tag("bh", bh)] + [Tag("b", sig)];
    TagsCons(Tag("t", time), rest);
    assert [Tag("t", time), Tag("h", JoinColon(SIGNED)), Tag("bh", bh), Tag("b", sig)] == [Tag("t", time)] + rest;
  }

  lemma MessageSpelt(o: Options, bh: string, sig: string)
    ensures MessageHeader(o, bh, sig)
         == "ARC-Message-Signature" + ":" + MessageValue(o.domain, o.selector, Decimal(o.now), bh, sig)
  {
    var time := Decimal(o.now);
    var tail := [Tag("t", time), Tag("h", JoinColon(SIGNED)), Tag("bh", bh), Tag("b", sig)];
    var i, a, c, d, s := Tag("i", "1"), Tag("a", "rsa-sha256"), Tag("c", "relaxed/relaxed"), Tag("d", o.domain),
      Tag("s", o.selector);
    Literals();
    MessageTail(time, bh, sig);
    TagsCons(s, tail);
    Tags4(i, a, c, d, [s] + tail, TagsText([s] + tail));
    assert MessageTags(o, bh) + [Tag("b", sig)] == [i, a, c, d] + ([s] + tail);
  }

  lemma SealSpelt(o: Options, sig: string)
    ensures SealHeader(o, sig) == "ARC-Seal" + ":" + SealValue(o.domain, o.selector, Decimal(o.now), sig)
  {
    var time := Decimal(o.now);
    var i, a, c, d := Tag("i", "1"), Tag("a", "rsa-sha256"), Tag("cv", "none"), Tag("d", o.domain);
    var s, t, b := Tag("s", o.selector), Tag("t", time), Tag("b", sig);
    Literals();
    TagsOne(b);
    Tags2(s, t, [b], " b=" + sig);
    Tags4(i, a, c, d, [s, t] + [b], TagsText([s, t] + [b]));
    assert SealTags(o) + [b] == [i, a, c, d] + ([s, t] + [b]);
  }

  lemma ResultsSpelt(o: Options) returns (before: string, core: string, behind: string)
    ensures o.authResults == before + core + behind && (core != "" ==> !White(core[0]) && !White(core[|core| - 1]))
    ensures (forall i :: 0 <= i < |before| ==> White(before[i])) && (forall i :: 0 <= i < |behind| ==> White(behind[i]))
    ensures ResultsText(o) == "ARC-Authentication-Results" + ": i=1; " + core
  {
    before, behind := Trimmed(o.authResults);
    core := TrimSpace(o.authResults);
  }

  /** Decimal digits, without leading zeros, of that value. */
  lemma {:induction false} DecimalMeaning(n: int)
    requires n >= 0
    ensures var s := Decimal(n);
            && s != "" && (forall i :: 0 <= i < |s| ==> '0' <= s[i] <= '9') && Number(s) == n
              && (|s| > 1 ==> s[0] != '0')
    decreases n
  {
    if n >= 10 {
      DecimalMeaning(n / 10);
      var s, front := Decimal(n), Decimal(n / 10);
      assert s[..|s| - 1] == front && s[0] == front[0];
    } else {
      assert Decimal(n)[..0] == "";
    }
  }

  // ---- the signed fields ----------------------------------------------------------------------

  /** A field is named as it is written before its first colon, whatever the case. */
  lemma FieldIs(name: string, value: string, want: string)
    requires name != "" && ':' !in name && forall i :: 0 <= i < |name| ==> !White(name[i])
    ensures HeaderName(name + ":" + value) == name && ValueOf(name + ":" + value) == value
    ensures Lower(HeaderName(name + ":" + value)) == Lower(want) <==> SameButCase(name, want)
  {
    ColonIs(name, value);
    forall i | 0 <= i < |name| ensures !IsSpace(name[i]) { WhiteIs(name[i]); }
    SolidStays(name);
    var h := name + ":" + value;
    assert h[..|name|] == name && h[|name| + 1..] == value;
    LowerSameIff(name, want);
  }

  /** Of several fields of one name the first is signed; of none, nothing. */
  lemma {:induction false} FirstIsSigned(a: seq<string>, h: string, b: seq<string>, want: string)
    requires forall x :: x in a ==> !SameButCase(HeaderName(x), want)
    requires SameButCase(HeaderName(h), want)
    ensures Find(a + [h] + b, want) == CanonicalHeader(HeaderName(h), ValueOf(h))
  {
    var all := a + [h] + b;
    if a == [] {
      assert all[0] == h;
      LowerSameIff(HeaderName(h), want);
    } else {
      assert all[0] == a[0] && all[1..] == a[1..] + [h] + b && a[0] in a;
      LowerSameIff(HeaderName(a[0]), want);
      FirstIsSigned(a[1..], h, b, want);
    }
  }

  lemma {:induction false} NoneIsSigned(fields: seq<string>, want: string)
    requires forall x :: x in fields ==> !SameButCase(HeaderName(x), want)
    ensures Find(fields, want) == ""
  {
    if fields != [] {
      LowerSameIff(HeaderName(fields[0]), want);
      NoneIsSigned(fields[1..], want);
    }
  }

  lemma ListCons(fields: seq<string>, wants: seq<string>, want: string)
    ensures CanonicalList(fields, wants + [want]) == CanonicalList(fields, wants) + Find(fields, want)
  {
    assert (wants + [want])[..|wants|] == wants;
  }

  lemma ListSpelt(fields: seq<string>)
    ensures CanonicalList(fields, SIGNED)
         == Find(fields, "From") + Find(fields, "To") + Find(fields, "Cc") + Find(fields, "Subject")
            + Find(fields, "Date") + Find(fields, "Message-Id")
  {
    assert SIGNED == [] + ["From"] + ["To"] + ["Cc"] + ["Subject"] + ["Date"] + ["Message-Id"];
    ListCons(fields, [], "From");
    ListCons(fields, [] + ["From"], "To");
    ListCons(fields, [] + ["From"] + ["To"], "Cc");
    ListCons(fields, [] + ["From"] + ["To"] + ["Cc"], "Subject");
    ListCons(fields, [] + ["From"] + ["To"] + ["Cc"] + ["Subject"], "Date");
    ListCons(fields, [] + ["From"] + ["To"] + ["Cc"] + ["Subject"] + ["Date"], "Message-Id");
    L.EmptyConcat("", Find(fields, "From"));
  }

  // ---- the whole ------------------------------------------------------------------------------

  /** A header of the instance in relaxed form, its small name given. */
  lemma InstanceRelaxed(name: string, small: string, value: string)
    requires name != "" && ':' !in name && (forall i :: 0 <= i < |name| ==> !White(name[i])) && small == Lower(name)
    requires Flat(value)
    ensures CanonicalOf(name + ":" + value) == small + ":" + Join(Words(value)) + "\r\n"
  {
    FieldIs(name, value, name);
    UnfoldFlat(value);
    ValueRelaxed(value);
    forall i | 0 <= i < |name| ensures !IsSpace(name[i]) { WhiteIs(name[i]); }
    SolidStays(name);
  }

  lemma BreakTaken(s: string)
    requires s != "" && s[|s| - 1] != '\r' && s[|s| - 1] != '\n'
    ensures TrimBreaks(s + "\r\n") == s
  {
    var all := s + "\r\n";
    var less := s + "\r";
    assert all[|all| - 1] == '\n' && all[..|all| - 1] == less;
    assert less[|less| - 1] == '\r' && less[..|less| - 1] == s;
    assert TrimBreaks(s) == s;
    assert TrimBreaks(less) == TrimBreaks(s);
  }

  lemma SmallMessage()
    ensures Lower("ARC-Message-Signature") == "arc-message-signature" && NameOk("ARC-Message-Signature")
  {
    LettersAreWords("ARC-Message-Signature");
  }

  lemma SmallSeal()
    ensures Lower("ARC-Seal") == "arc-seal" && NameOk("ARC-Seal")
  {
    LettersAreWords("ARC-Seal");
  }

  lemma SmallResults()
    ensures Lower("ARC-Authentication-Results") == "arc-authentication-results" && NameOk("ARC-Authentication-Results")
  {
    LettersAreWords("ARC-Authentication-Results");
  }

  lemma OkIsPlain(name: string)
    requires NameOk(name)
    ensures name != "" && ':' !in name && forall i :: 0 <= i < |name| ==> !White(name[i])
  {
    forall i | 0 <= i < |name| ensures !White(name[i]) { WhiteIs(name[i]); }
  }

  lemma MessageRelaxed(value: string)
    requires Flat(value)
    ensures CanonicalOf("ARC-Message-Signature" + ":" + value)
      == "arc-message-signature" + ":" + Join(Words(value)) + "\r\n"
  {
    SmallMessage();
    OkIsPlain("ARC-Message-Signature");
    InstanceRelaxed("ARC-Message-Signature", "arc-message-signature", value);
  }

  lemma SealRelaxed(value: string)
    requires Flat(value)
    ensures CanonicalOf("ARC-Seal" + ":" + value) == "arc-seal" + ":" + Join(Words(value)) + "\r\n"
  {
    SmallSeal();
    OkIsPlain("ARC-Seal");
    InstanceRelaxed("ARC-Seal", "arc-seal", value);
  }

  lemma ResultsRelaxed(value: string)
    requires Flat(value)
    ensures CanonicalOf("ARC-Authentication-Results" + ":" + value)
         == "arc-authentication-results" + ":" + Join(Words(value)) + "\r\n"
  {
    SmallResults();
    OkIsPlain("ARC-Authentication-Results");
    InstanceRelaxed("ARC-Authentication-Results", "arc-authentication-results", value);
  }

  lemma Unsigned(name: string, value: string)
    requires name != "" && Flat(value)
    ensures TrimBreaks(name + ":" + Join(Words(value)) + "\r\n") == name + ":" + Join(Words(value))
  {
    var text := name + ":" + Join(Words(value));
    ValueRelaxed(value);
    UnfoldFlat(value);
    JoinedFlat(value);
    BreakTaken(text);
  }

  lemma {:induction false} WordsFlat(s: string)
    requires Flat(s)
    ensures forall i :: 0 <= i < |Words(s)| ==> Flat(Words(s)[i])
  {
    if s != "" { WordsFlat(s[1..]); }
  }

  lemma {:induction false} JoinFlat(ws: seq<string>)
    requires forall i :: 0 <= i < |ws| ==> Flat(ws[i])
    ensures Flat(Join(ws))
  {
    if |ws| > 1 { JoinFlat(ws[1..]); }
  }

  lemma JoinedFlat(value: string)
    requires Flat(value)
    ensures Flat(Join(Words(value)))
  {
    WordsFlat(value);
    JoinFlat(Words(value));
  }

  /** The first field of each of six names, and the header itself, unsigned. */
  function SignedMessage(fields: seq<string>, value: string): string {
    Find(fields, "From") + Find(fields, "To") + Find(fields, "Cc") + Find(fields, "Subject") + Find(fields, "Date")
    + Find(fields, "Message-Id") + ("arc-message-signature" + ":" + Join(Words(value)))
  }

  /** The three headers, the seal itself unsigned. */
  function SignedSet(results: string, message: string, seal: string): string {
    "arc-authentication-results" + ":" + Join(Words(results)) + "\r\n"
    + ("arc-message-signature" + ":" + Join(Words(message)) + "\r\n")
    + ("arc-seal" + ":" + Join(Words(seal)))
  }

  lemma MessageInputIs(fields: seq<string>, o: Options, bh: string)
    requires Clean(o) && Base64(bh)
    ensures MessageInput(fields, SIGNED, StripB(MessageHeader(o, bh, "")))
         == SignedMessage(fields, MessageValue(o.domain, o.selector, Decimal(o.now), bh, ""))
  {
    ListSpelt(fields);
    MessageUnsigned(o, bh);
  }

  lemma SetInputIs(o: Options, bh: string, sig: string)
    requires Clean(o) && Base64(bh) && Base64(sig)
    ensures SetInput(ResultsText(o), MessageHeader(o, bh, sig), SealHeader(o, ""))
         == SignedSet(" i=1; " + TrimSpace(o.authResults), MessageValue(o.domain, o.selector, Decimal(o.now), bh, sig),
                      SealValue(o.domain, o.selector, Decimal(o.now), ""))
  {
    MessageSigned(o, bh, sig);
    ResultsSigned(o);
    SealUnsigned(o);
  }

  lemma {:induction false} SealedWith(raw: string, o: Options, c: Crypto, headers: string, body: string)
    requires Seal(raw, o, c).Sealed? && SplitMessage(raw) == (headers, body)
    ensures Seal(raw, o, c) == SealWith(headers, body, o, c)
  {
  }

  lemma {:induction false} SealedIs(headers: string, body: string, o: Options, c: Crypto)
    requires SealWith(headers, body, o, c).Sealed?
    ensures var s := SealWith(headers, body, o, c);
            var bh := c.hash(s.hashed.body);
            && s.hashed.body == CanonicalBody(body)
            && s.hashed.message == MessageInput(SplitHeaders(headers), SIGNED, StripB(MessageHeader(o, bh, "")))
            && s.hashed.seal == SetInput(ResultsText(o), MessageHeader(o, bh, s.sigs.0), SealHeader(o, ""))
            && c.sign(s.hashed.message) == Signature(s.sigs.0) && c.sign(s.hashed.seal) == Signature(s.sigs.1)
  {
  }

  /** What is signed, for every message that is sealed: the hash is that of the relaxed body; the message
      signature covers the first field of each of six names, and its own header unsigned; the seal covers
      the three headers, itself unsigned. */
  lemma SealSigns(raw: string, o: Options, c: Crypto)
    requires Clean(o) && Honest(c) && Seal(raw, o, c).Sealed?
    ensures var s, time := Seal(raw, o, c), Decimal(o.now);
            var bh := c.hash(s.hashed.body);
            var results, message := " i=1; " + TrimSpace(o.authResults),
              MessageValue(o.domain, o.selector, time, bh, s.sigs.0);
            && s.hashed.body == CanonicalBody(SplitMessage(raw).1)
            && s.hashed.message == SignedMessage(SplitHeaders(SplitMessage(raw).0),
                                                 MessageValue(o.domain, o.selector, time, bh, ""))
            && s.hashed.seal == SignedSet(results, message, SealValue(o.domain, o.selector, time, ""))
            && c.sign(s.hashed.message) == Signature(s.sigs.0) && c.sign(s.hashed.seal) == Signature(s.sigs.1)
  {
    var s := Seal(raw, o, c);
    var (headers, body) := SplitMessage(raw);
    SealedWith(raw, o, c, headers, body);
    SealedIs(headers, body, o, c);
    MessageInputIs(SplitHeaders(SplitMessage(raw).0), o, c.hash(s.hashed.body));
    SetInputIs(o, c.hash(s.hashed.body), s.sigs.0);
  }

  lemma FlatBehind(name: string, value: string)
    requires Flat(name + ":" + value)
    ensures Flat(value)
  {
    var h := name + ":" + value;
    forall i | 0 <= i < |value| ensures value[i] != '\r' && value[i] != '\n' {
      assert value[i] == h[|name| + 1 + i] && h[|name| + 1 + i] in h;
    }
  }

  lemma MessageIsFlat(o: Options, bh: string, sig: string)
    requires Clean(o) && Base64(bh) && OneTag(sig)
    ensures Flat(MessageValue(o.domain, o.selector, Decimal(o.now), bh, sig))
  {
    MessageTagsOk(o, bh);
    SmallMessage();
    TaggedHeader(AMS, MessageTags(o, bh), sig);
    MessageSpelt(o, bh, sig);
    FlatBehind(AMS, MessageValue(o.domain, o.selector, Decimal(o.now), bh, sig));
  }

  lemma SealIsFlat(o: Options, sig: string)
    requires Clean(o) && OneTag(sig)
    ensures Flat(SealValue(o.domain, o.selector, Decimal(o.now), sig))
  {
    SealTagsOk(o);
    SmallSeal();
    TaggedHeader(AS, SealTags(o), sig);
    SealSpelt(o, sig);
    FlatBehind(AS, SealValue(o.domain, o.selector, Decimal(o.now), sig));
  }

  lemma MessageUnsigned(o: Options, bh: string)
    requires Clean(o) && Base64(bh)
    ensures TrimBreaks(CanonicalOf(StripB(MessageHeader(o, bh, ""))))
         == "arc-message-signature" + ":" + Join(Words(MessageValue(o.domain, o.selector, Decimal(o.now), bh, "")))
  {
    var value := MessageValue(o.domain, o.selector, Decimal(o.now), bh, "");
    MessageTagsOk(o, bh);
    StripUnsigned(AMS, MessageTags(o, bh));
    MessageSpelt(o, bh, "");
    MessageIsFlat(o, bh, "");
    MessageRelaxed(value);
    Unsigned("arc-message-signature", value);
  }

  lemma SealUnsigned(o: Options)
    requires Clean(o)
    ensures TrimBreaks(CanonicalOf(SealHeader(o, "")))
         == "arc-seal" + ":" + Join(Words(SealValue(o.domain, o.selector, Decimal(o.now), "")))
  {
    var value := SealValue(o.domain, o.selector, Decimal(o.now), "");
    SealSpelt(o, "");
    SealIsFlat(o, "");
    SealRelaxed(value);
    Unsigned("arc-seal", value);
  }

  lemma MessageSigned(o: Options, bh: string, sig: string)
    requires Clean(o) && Base64(bh) && Base64(sig)
    ensures CanonicalOf(MessageHeader(o, bh, sig))
         == "arc-message-signature" + ":" + Join(Words(MessageValue(o.domain, o.selector, Decimal(o.now), bh, sig)))
           + "\r\n"
  {
    MessageSpelt(o, bh, sig);
    MessageIsFlat(o, bh, sig);
    MessageRelaxed(MessageValue(o.domain, o.selector, Decimal(o.now), bh, sig));
  }

  lemma ResultsSigned(o: Options)
    requires Clean(o)
    ensures CanonicalOf(ResultsText(o))
         == "arc-authentication-results" + ":" + Join(Words(" i=1; " + TrimSpace(o.authResults))) + "\r\n"
  {
    ResultsColon(o);
    assert Flat(" i=1; ");
    ResultsRelaxed(" i=1; " + TrimSpace(o.authResults));
  }

  lemma ResultsColon(o: Options)
    ensures ResultsText(o) == "ARC-Authentication-Results" + ":" + (" i=1; " + TrimSpace(o.authResults))
  {
    assert ": i=1; " == ":" + " i=1; ";
  }

  /** What is sent. */
  lemma SealSends(raw: string, o: Options, c: Crypto)
    requires Seal(raw, o, c).Sealed?
    ensures var (headers, body) := SplitMessage(raw);
            var s, time := Seal(raw, o, c), Decimal(o.now);
            s.text == FoldHeader("ARC-Seal" + ":" + SealValue(o.domain, o.selector, time, s.sigs.1)) + "\r\n"
                      + (FoldHeader("ARC-Message-Signature" + ":"
                                    + MessageValue(o.domain, o.selector, time, c.hash(s.hashed.body), s.sigs.0))
                                      + "\r\n"
                         + (FoldHeader("ARC-Authentication-Results" + ":" + (" i=1; " + TrimSpace(o.authResults)))
                            + "\r\n"
                            + (headers + "\r\n" + body)))
  {
    var s := Seal(raw, o, c);
    MessageSpelt(o, c.hash(s.hashed.body), s.sigs.0);
    SealSpelt(o, s.sigs.1);
    ResultsColon(o);
  }

  /** When a message is not sealed. */
  lemma RefusedIff(raw: string, o: Options, c: Crypto)
    ensures var fields := SplitHeaders(SplitMessage(raw).0);
            var chain := exists h :: h in fields && (Lower(HeaderName(h)) == "arc-authentication-results"
                           || Lower(HeaderName(h)) == "arc-message-signature" || Lower(HeaderName(h)) == "arc-seal");
            && (Seal(raw, o, c) == NoKey <==> !o.hasKey)
            && (Seal(raw, o, c) == NoIdentity <==> o.hasKey && (o.domain == "" || o.selector == ""))
            && (Seal(raw, o, c) == PriorChain <==> o.hasKey && o.domain != "" && o.selector != "" && chain)
  {
    SmallMessage();
    SmallSeal();
    SmallResults();
    var fields := SplitHeaders(SplitMessage(raw).0);
    if h :| h in fields && IsArc(h) {
      assert h in fields;
    }
  }

  // ---- verifying ------------------------------------------------------------------------------

  /** The verifier accepts if and only if the three headers of the highest instance are there, the body
      hash is right, and both signatures are. */
  lemma AcceptedIff(raw: string, c: Crypto)
    ensures var fields := SplitHeaders(SplitMessage(raw).0);
            var n, e := Highest(fields), Examine(raw);
            Verify(raw, c) == Accepted <==>
              && Among(fields, AS, n) && Among(fields, AMS, n) && Among(fields, AAR, n)
              && e.bh == c.hash(e.hashed.body) && c.verify(e.hashed.message, e.sigs.0)
                && c.verify(e.hashed.seal, e.sigs.1)
  {
    var fields := SplitHeaders(SplitMessage(raw).0);
    GatheredIsText(SplitLines(SplitMessage(raw).0), "");
    CollectTells(fields, Highest(fields));
  }

  // ---- folding --------------------------------------------------------------------------------

  /** Nothing is broken before column 77. */
  lemma {:induction false} ShortStays(h: string, col: nat, sep: string)
    requires '\n' !in h && forall i :: 0 <= i < |h| && h[i] == ';' ==> i + col <= 76 || i == |h| - 1
    ensures Fold(h, col, sep) == h
    decreases |h|
  {
    if h != "" {
      ShortStays(h[1..], col + 1, sep);
      assert h == [h[0]] + h[1..];
    }
  }

  /** The first semicolon past it ends a line; the next starts with a tab, which counts, in place of a space. */
  lemma {:induction false} FirstBreak(a: string, b: string, col: nat, sep: string)
    requires '\n' !in a && (forall i :: 0 <= i < |a| && a[i] == ';' ==> i + col <= 76) && |a| + col > 76 && b != ""
    ensures Fold(a + ";" + b, col, sep) == a + (";" + sep + Fold(if b[0] == ' ' then b[1..] else b, 1, sep))
    decreases |a|
  {
    var all := a + ";" + b;
    if a == "" {
      assert all[0] == ';' && all[1] == b[0] && all[1..] == b && all[2..] == b[1..];
      L.EmptyConcat(a, ";" + sep + Fold(AfterFold(all), 1, sep));
    } else {
      assert all[0] == a[0] && all[1..] == a[1..] + ";" + b;
      FirstBreak(a[1..], b, col + 1, sep);
      assert [a[0]] + a[1..] == a;
      L.Assoc([a[0]], a[1..], ";" + sep + Fold(if b[0] == ' ' then b[1..] else b, 1, sep));
    }
  }
}
