/** Sealing a message with a first ARC instance, and checking that seal (section 5.1 of RFC 8617). */
module Arc {
  import opened Ascii
  import opened ArcText
  import opened ArcTags

  const AAR := "ARC-Authentication-Results"
  const AMS := "ARC-Message-Signature"
  const AS := "ARC-Seal"

  const SIGNED := ["From", "To", "Cc", "Subject", "Date", "Message-Id"]

  datatype Options = Options(hasKey: bool, domain: string, selector: string, authResults: string, now: int)

  datatype Signed = Signature(text: string) | CannotSign

  /** SHA-256 and RSA over base64 text, as given functions. */
  datatype Crypto = Crypto(hash: string -> string, sign: string -> Signed, verify: (string, string) -> bool)

  // ---- what both sides compute ----------------------------------------------------------------

  function ValueOf(h: string): string {
    if |HeaderName(h)| + 1 <= |h| then h[|HeaderName(h)| + 1..] else ""
  }

  function CanonicalOf(h: string): string {
    CanonicalHeader(HeaderName(h), ValueOf(h))
  }

  function TrimBreaks(s: string): string {
    if s != "" && s[|s| - 1] in "\r\n" then TrimBreaks(s[..|s| - 1]) else s
  }

  /** The first field of that name, or nothing. */
  function Find(fields: seq<string>, want: string): string {
    if fields == [] then ""
    else if Lower(HeaderName(fields[0])) == Lower(want) then CanonicalOf(fields[0])
    else Find(fields[1..], want)
  }

  function CanonicalList(fields: seq<string>, wants: seq<string>): string {
    if wants == [] then "" else CanonicalList(fields, wants[..|wants| - 1]) + Find(fields, wants[|wants| - 1])
  }

  /** The input of the message signature: the listed fields, then the unsigned header itself. */
  function MessageInput(fields: seq<string>, wants: seq<string>, unsigned: string): string {
    CanonicalList(fields, wants) + TrimBreaks(CanonicalOf(unsigned))
  }

  /** The input of the seal: the three headers of the instance, the seal itself unsigned. */
  function SetInput(aar: string, ams: string, unsigned: string): string {
    CanonicalOf(aar) + CanonicalOf(ams) + TrimBreaks(CanonicalOf(unsigned))
  }

  predicate IsArc(h: string) {
    var name := Lower(HeaderName(h));
    name == Lower(AAR) || name == Lower(AMS) || name == Lower(AS)
  }

  /** Everything that is hashed for one instance. */
  datatype Hashed = Hashed(body: string, message: string, seal: string)

  // ---- sealing --------------------------------------------------------------------------------

  function Decimal(n: int): string
    decreases if n < 0 then 1 - n else n
  {
    if n < 0 then "-" + Decimal(-n)
    else if n < 10 then [Digit(n)]
    else Decimal(n / 10) + [Digit(n % 10)]
  }

  function Digit(n: nat): char
    requires n < 10
  {
    '0' + n as char
  }

  function JoinColon(names: seq<string>): string {
    if names == [] then "" else if |names| == 1 then names[0] else names[0] + ":" + JoinColon(names[1..])
  }

  function MessageTags(o: Options, bh: string): seq<Tag> {
    [Tag("i", "1"), Tag("a", "rsa-sha256"), Tag("c", "relaxed/relaxed"), Tag("d", o.domain), Tag("s", o.selector),
     Tag("t", Decimal(o.now)), Tag("h", JoinColon(SIGNED)), Tag("bh", bh)]
  }

  function SealTags(o: Options): seq<Tag> {
    [Tag("i", "1"), Tag("a", "rsa-sha256"), Tag("cv", "none"), Tag("d", o.domain), Tag("s", o.selector),
     Tag("t", Decimal(o.now))]
  }

  function ResultsText(o: Options): string {
    AAR + ": i=1; " + TrimSpace(o.authResults)
  }

  /** A header of the instance, its signature empty or in place. */
  function MessageHeader(o: Options, bh: string, sig: string): string {
    HeaderText(AMS, MessageTags(o, bh) + [Tag("b", sig)])
  }

  function SealHeader(o: Options, sig: string): string {
    HeaderText(AS, SealTags(o) + [Tag("b", sig)])
  }

  datatype Outcome =
    | Sealed(text: string, hashed: Hashed, sigs: (string, string))
    | NoKey | NoIdentity | PriorChain | EmptyMessage | SignFailed

  predicate Chained(fields: seq<string>) {
    exists h :: h in fields && IsArc(h)
  }

  predicate Sealable(headers: string, o: Options) {
    o.hasKey && o.domain != "" && o.selector != "" && !Chained(SplitHeaders(headers)) && headers != ""
  }

  function Refusal(headers: string, o: Options): (r: Outcome)
    ensures !r.Sealed?
  {
    if !o.hasKey then NoKey
    else if o.domain == "" || o.selector == "" then NoIdentity
    else if Chained(SplitHeaders(headers)) then PriorChain
    else EmptyMessage
  }

  function Seal(raw: string, o: Options, c: Crypto): Outcome {
    var (headers, body) := SplitMessage(raw);
    if Sealable(headers, o) then SealWith(headers, body, o, c) else Refusal(headers, o)
  }

  function SealWith(headers: string, body: string, o: Options, c: Crypto): Outcome {
    var bodyInput := CanonicalBody(body);
    var bh := c.hash(bodyInput);
    var messageInput := MessageInput(SplitHeaders(headers), SIGNED, StripB(MessageHeader(o, bh, "")));
    match c.sign(messageInput)
    case CannotSign => SignFailed
    case Signature(sig) =>
      var sealInput := SetInput(ResultsText(o), MessageHeader(o, bh, sig), SealHeader(o, ""));
      match c.sign(sealInput)
      case CannotSign => SignFailed
      case Signature(sealSig) =>
        Sealed(Prepended(SealHeader(o, sealSig), MessageHeader(o, bh, sig), ResultsText(o), headers, body),
               Hashed(bodyInput, messageInput, sealInput), (sig, sealSig))
  }

  /** The instance goes on top, seal first. */
  function Prepended(seal: string, ams: string, aar: string, headers: string, body: string): string {
    FoldHeader(seal) + CRLF + (FoldHeader(ams) + CRLF + (FoldHeader(aar) + CRLF + (headers + CRLF + body)))
  }

  // ---- verifying ------------------------------------------------------------------------------

  /** strconv.Atoi, with zero for text that is no number, on values that fit. */
  function Atoi(s: string): int {
    if s != "" && s[0] == '-' then -Digits(s[1..]) else if s != "" && s[0] == '+' then Digits(s[1..]) else Digits(s)
  }

  function Digits(s: string): int {
    if s != "" && forall i :: 0 <= i < |s| ==> '0' <= s[i] <= '9' then Number(s) else 0
  }

  function Number(s: string): int
    requires forall i :: 0 <= i < |s| ==> '0' <= s[i] <= '9'
  {
    if s == "" then 0 else 10 * Number(s[..|s| - 1]) + (s[|s| - 1] as int - '0' as int)
  }

  function InstanceOf(h: string): int {
    Atoi(ExtractTag(h, "i"))
  }

  function Highest(fields: seq<string>): int {
    if fields == [] then 0 else
    var max, h := Highest(fields[..|fields| - 1]), fields[|fields| - 1];
    if IsArc(h) && InstanceOf(h) > max then InstanceOf(h) else max
  }

  datatype ArcSet = ArcSet(aar: string, ams: string, seal: string)

  function Take(found: ArcSet, h: string, instance: int): ArcSet {
    var name := Lower(HeaderName(h));
    if InstanceOf(h) != instance then found
    else if name == Lower(AAR) then found.(aar := h)
    else if name == Lower(AMS) then found.(ams := h)
    else if name == Lower(AS) then found.(seal := h)
    else found
  }

  function Collect(fields: seq<string>, instance: int): ArcSet {
    if fields == [] then ArcSet("", "", "")
      else Take(Collect(fields[..|fields| - 1], instance), fields[|fields| - 1], instance)
  }

  function SplitColons(s: string): (r: seq<string>)
    ensures r != []
  {
    if s == "" then [""]
    else if s[0] == ':' then [""] + SplitColons(s[1..])
    else var more := SplitColons(s[1..]); [[s[0]] + more[0]] + more[1..]
  }

  function TrimAll(parts: seq<string>): seq<string> {
    if parts == [] then [] else (if TrimSpace(parts[0]) == "" then [] else [TrimSpace(parts[0])]) + TrimAll(parts[1..])
  }

  function SplitColonList(s: string): seq<string> {
    TrimAll(SplitColons(s))
  }

  datatype Verdict = Accepted | NoInstance | BodyChanged | MessageRefused | SealRefused | Panics

  /** What the verifier reads from the text: the hashed inputs, and the hash and signatures written there. */
  datatype Evidence = Evidence(found: ArcSet, hashed: Hashed, bh: string, sigs: (string, string))

  function Examine(raw: string): Evidence {
    var (headers, body) := SplitMessage(raw);
    Evaluate(SplitHeaders(headers), body)
  }

  function Evaluate(fields: seq<string>, body: string): Evidence {
    var found := Collect(fields, Highest(fields));
    Evidence(found,
             Hashed(CanonicalBody(body),
                    MessageInput(fields, SplitColonList(ExtractTag(found.ams, "h")), StripB(found.ams)),
                    SetInput(found.aar, found.ams, StripB(found.seal))),
             ExtractTag(found.ams, "bh"), (ExtractTag(found.ams, "b"), ExtractTag(found.seal, "b")))
  }

  function Verify(raw: string, c: Crypto): Verdict {
    Judge(Examine(raw), c)
  }

  function Judge(e: Evidence, c: Crypto): Verdict {
    if e.found.ams == "" || e.found.seal == "" then NoInstance
    else if e.bh != c.hash(e.hashed.body) then BodyChanged
    else if !c.verify(e.hashed.message, e.sigs.0) then MessageRefused
    else if e.found.aar == "" then Panics
    else if !c.verify(e.hashed.seal, e.sigs.1) then SealRefused
    else Accepted
  }

  // ---- what sealing needs ---------------------------------------------------------------------

  predicate OneTag(s: string) {
    ';' !in s && Flat(s)
  }

  /** Domain and selector fit in a tag, and the results on a line. */
  predicate Clean(o: Options) {
    OneTag(o.domain) && OneTag(o.selector) && Flat(TrimSpace(o.authResults))
  }

  /** Folding breaks the results header only before white space. */
  predicate Unbroken(o: Options) {
    BreaksSpaced(" i=1; " + TrimSpace(o.authResults), |AAR| + 1)
  }

  /** Base64 text. */
  predicate Base64(s: string) {
    Solid(s) && OneTag(s)
  }

  ghost predicate Honest(c: Crypto) {
    && (forall x :: Base64(c.hash(x)))
    && (forall x :: c.sign(x).Signature? ==> Base64(c.sign(x).text) && c.verify(x, c.sign(x).text))
  }

  // ---- the loops ------------------------------------------------------------------------------

  method HasChain(raw: string) returns (yes: bool)
    ensures yes <==> exists h :: h in SplitHeaders(SplitMessage(raw).0) && IsArc(h)
  {
    var fields := HeaderFields(SplitMessage(raw).0);
    yes := AnyArc(fields);
  }

  method AnyArc(fields: seq<string>) returns (yes: bool)
    ensures yes <==> exists h :: h in fields && IsArc(h)
  {
    for i := 0 to |fields|
      invariant forall j :: 0 <= j < i ==> !IsArc(fields[j])
    {
      if IsArc(fields[i]) { return true; }
    }
    yes := false;
  }

  method CanonicalHeaderList(headers: string, wants: seq<string>) returns (b: string)
    ensures b == CanonicalList(SplitHeaders(headers), wants)
  {
    b := "";
    var fields := HeaderFields(headers);
    for i := 0 to |wants|
      invariant b == CanonicalList(fields, wants[..i])
    {
      var j := 0;
      while j < |fields| && Lower(HeaderName(fields[j])) != Lower(wants[i])
        invariant 0 <= j <= |fields| && Find(fields[j..], wants[i]) == Find(fields, wants[i])
      {
        assert fields[j..][1..] == fields[j + 1..];
        j := j + 1;
      }
      assert wants[..i + 1][..i] == wants[..i];
      if j < |fields| { b := b + CanonicalOf(fields[j]); }
    }
    assert wants[..|wants|] == wants;
  }

  method HighestInstance(fields: seq<string>) returns (max: int)
    ensures max == Highest(fields)
  {
    max := 0;
    for i := 0 to |fields|
      invariant max == Highest(fields[..i])
    {
      assert fields[..i + 1][..i] == fields[..i];
      if IsArc(fields[i]) {
        var n := InstanceOf(fields[i]);
        if n > max { max := n; }
      }
    }
    assert fields[..|fields|] == fields;
  }

  method CollectSet(fields: seq<string>, instance: int) returns (found: ArcSet)
    ensures found == Collect(fields, instance)
  {
    found := ArcSet("", "", "");
    for i := 0 to |fields|
      invariant found == Collect(fields[..i], instance)
    {
      assert fields[..i + 1][..i] == fields[..i];
      found := Take(found, fields[i], instance);
    }
    assert fields[..|fields|] == fields;
  }

  /** The whole pass: three headers built, two inputs signed, the instance prepended. */
  method SealMessage(raw: string, o: Options, c: Crypto) returns (r: Outcome)
    ensures r == Seal(raw, o, c)
  {
    if !o.hasKey { return NoKey; }
    if o.domain == "" || o.selector == "" { return NoIdentity; }
    var chained := HasChain(raw);
    if chained { return PriorChain; }
    var (headers, body) := SplitMessage(raw);
    if headers == "" { return EmptyMessage; }
    var bodyInput := CanonicalizeBody(body);
    var bh := c.hash(bodyInput);
    var listed := CanonicalHeaderList(headers, SIGNED);
    var messageInput := listed + TrimBreaks(CanonicalOf(StripB(MessageHeader(o, bh, ""))));
    var sig := c.sign(messageInput);
    if sig.CannotSign? { return SignFailed; }
    var ams, aar := MessageHeader(o, bh, sig.text), ResultsText(o);
    var sealInput := SetInput(aar, ams, SealHeader(o, ""));
    var sealSig := c.sign(sealInput);
    if sealSig.CannotSign? { return SignFailed; }
    var top := FoldText(SealHeader(o, sealSig.text));
    var second := FoldText(ams);
    var third := FoldText(aar);
    r := Sealed(top + CRLF + (second + CRLF + (third + CRLF + (headers + CRLF + body))),
                Hashed(bodyInput, messageInput, sealInput), (sig.text, sealSig.text));
  }

  method VerifyLastInstance(raw: string, c: Crypto) returns (v: Verdict)
    ensures v == Verify(raw, c)
  {
    var (headers, body) := SplitMessage(raw);
    var fields := HeaderFields(headers);
    var highest := HighestInstance(fields);
    var found := CollectSet(fields, highest);
    if found.ams == "" || found.seal == "" { return NoInstance; }
    var bodyInput := CanonicalizeBody(body);
    if ExtractTag(found.ams, "bh") != c.hash(bodyInput) { return BodyChanged; }
    var listed := CanonicalHeaderList(headers, SplitColonList(ExtractTag(found.ams, "h")));
    if !c.verify(listed + TrimBreaks(CanonicalOf(StripB(found.ams))),
                 ExtractTag(found.ams, "b")) { return MessageRefused; }
    if found.aar == "" { return Panics; }
    if !c.verify(SetInput(found.aar, found.ams, StripB(found.seal)),
                 ExtractTag(found.seal, "b")) { return SealRefused; }
    v := Accepted;
  }
}
