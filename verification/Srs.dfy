/** The Sender Rewriting Scheme: wrapping an envelope sender so that bounces come back here.

    The keyed hash is a parameter: all that is used of it is that its four characters are base32. */
module Srs {
  import opened Delivery

  datatype Error = ShortSecret | NoForwarder | NotAnAddress | NotSrs | Malformed | HashMismatch | BadTimestamp | TooOld
  datatype Result<T> = Ok(value: T) | Err(error: Error)

  /** A secret of some length, and hmacShort keyed by it. */
  datatype Secret = Secret(length: nat, mac: string -> string)

  ghost predicate MacFits(secret: Secret) {
    forall payload :: |secret.mac(payload)| == 4 && '=' !in secret.mac(payload)
  }

  const PREFIX := "SRS0"
  const DAY: nat := 86400

  datatype Address = Address(local: string, domain: string)

  /** Splits at the last '@'; both sides must be non-empty. */
  function SplitAddr(address: string): (r: Result<Address>)
    ensures r.Ok? ==>
      address == r.value.local + "@" + r.value.domain && r.value.local != "" && r.value.domain != ""
        && '@' !in r.value.domain
  {
    var n := AfterAt(address);
    if n <= 1 || n == |address| then Err(NotAnAddress) else Ok(Address(address[..n - 1], address[n..]))
  }

  function IndexOf(s: string, c: char): (i: nat)
    ensures i <= |s| && c !in s[..i] && (i < |s| ==> s[i] == c)
  {
    if s == "" || s[0] == c then 0 else 1 + IndexOf(s[1..], c)
  }

  /** The two sides of the first '='; nothing on the right when there is none. */
  function Before(s: string): string {
    s[..IndexOf(s, '=')]
  }

  function After(s: string): string {
    var i := IndexOf(s, '=');
    if i == |s| then "" else s[i + 1..]
  }

  /** At most n parts, the last one unsplit. */
  function SplitN(s: string, n: nat): seq<string> {
    var i := IndexOf(s, '=');
    if n <= 1 || i == |s| then [s] else [s[..i]] + SplitN(s[i + 1..], n - 1)
  }

  // ---- timestamps -----------------------------------------------------------------------------

  const TABLE := "ABCDEFGHIJKLMNOPQRSTUVWXYZ234567"

  function TableChar(v: nat): char {
    TABLE[v % 32]
  }

  function CharValue(c: char): Result<nat> {
    if 'A' <= c <= 'Z' then Ok((c - 'A') as nat)
    else if '2' <= c <= '7' then Ok((c - '2') as nat + 26)
    else Err(BadTimestamp)
  }

  /** The low ten bits of the day number, taken from its sixteen-bit truncation. */
  function Timestamp(now: nat): string {
    var day := ((now / DAY) % 65536) % 1024;
    [TableChar(day / 32), TableChar(day % 32)]
  }

  /** Seconds since the midnight of the latest day with this stamp. */
  function DecodeAge(tt: string, now: nat): Result<int> {
    if |tt| != 2 then Err(BadTimestamp) else
    var hi, lo := CharValue(tt[0]), CharValue(tt[1]);
    if hi.Err? || lo.Err? then Err(BadTimestamp) else
    var day, today := 32 * hi.value + lo.value, now / DAY;
    Ok(now - (today - (today - day) % 1024) * DAY)
  }

  // ---- encode and decode ----------------------------------------------------------------------

  function Encode(secret: Secret, sender: string, forwarder: string, now: nat): Result<string> {
    if secret.length < 16 then Err(ShortSecret)
    else if forwarder == "" then Err(NoForwarder)
    else match SplitAddr(sender)
      case Err(e) => Err(e)
      case Ok(a) =>
        Ok(EncodedLocal(secret, a, now) + "@" + forwarder)
  }

  function Payload(tt: string, domain: string, local: string): string {
    tt + "=" + (domain + "=" + local)
  }

  /** SRS0=HHHH=TT=domain=local */
  function EncodedLocal(secret: Secret, a: Address, now: nat): string {
    var payload := Payload(Timestamp(now), a.domain, a.local);
    PREFIX + "=" + (secret.mac(payload) + "=" + payload)
  }

  function Decode(secret: Secret, address: string, maxAge: int, now: nat): Result<string> {
    if secret.length < 16 then Err(ShortSecret) else
    match SplitAddr(address)
    case Err(e) => Err(e)
    case Ok(a) => if PREFIX + "=" <= a.local then DecodeParts(secret, SplitN(a.local[5..], 4), maxAge, now)
      else Err(NotSrs)
  }

  function DecodeParts(secret: Secret, parts: seq<string>, maxAge: int, now: nat): Result<string> {
    if |parts| != 4 then Err(Malformed) else
    var hash, tt, domain, local := parts[0], parts[1], parts[2], parts[3];
    if hash != secret.mac(Payload(tt, domain, local)) then Err(HashMismatch)
    else Aged(DecodeAge(tt, now), maxAge, local + "@" + domain)
  }

  /** The age limit; none when maxAge is not positive. */
  function Aged(r: Result<int>, maxAge: int, back: string): Result<string> {
    if maxAge > 0 && r.Err? then Err(r.error) else if maxAge > 0 && r.value > maxAge then Err(TooOld) else Ok(back)
  }

  // ---- splitting what was joined --------------------------------------------------------------

  lemma SplitJoined(a: string, b: string)
    requires a != "" && b != "" && '@' !in b
    ensures SplitAddr(a + "@" + b) == Ok(Address(a, b))
  {
    AfterAtJoin(a, b);
    var s := a + "@" + b;
    assert s[..|a|] == a && s[|a| + 1..] == b;
  }

  lemma IndexOfFirst(a: string, rest: string)
    requires '=' !in a
    ensures IndexOf(a + "=" + rest, '=') == |a|
  {
    var s := a + "=" + rest;
    var i := IndexOf(s, '=');
    assert s[|a|] == '=';
    assert forall k :: 0 <= k < |a| ==> s[k] == a[k];
    assert forall k :: 0 <= k < i ==> s[k] == s[..i][k];
  }

  lemma SplitOff(a: string, rest: string, n: nat)
    requires '=' !in a && n >= 2
    ensures SplitN(a + "=" + rest, n) == [a] + SplitN(rest, n - 1)
  {
    IndexOfFirst(a, rest);
    var s := a + "=" + rest;
    assert s[..|a|] == a && s[|a| + 1..] == rest;
  }

  lemma TimestampPlain(now: nat)
    ensures |Timestamp(now)| == 2 && '=' !in Timestamp(now)
  {
    var day := ((now / DAY) % 65536) % 1024;
    assert forall v: nat :: v < 32 ==> TABLE[v] != '=';
    assert Timestamp(now)[0] == TABLE[(day / 32) % 32];
  }

  lemma CutAndJoin(s: string)
    requires '=' in s
    ensures s == Before(s) + "=" + After(s) && SplitN(s, 2) == [Before(s), After(s)]
  {
    var i := IndexOf(s, '=');
    assert s[..|s|] == s;
    assert SplitN(s, 2) == [s[..i]] + SplitN(s[i + 1..], 1);
  }

  /** What Decode sees of an encoded address. */
  lemma Parts(h: string, tt: string, rest: string)
    requires '=' !in h && '=' !in tt && '=' in rest
    ensures SplitN(h + "=" + (tt + "=" + rest), 4) == [h, tt, Before(rest), After(rest)]
  {
    SplitOff(h, tt + "=" + rest, 4);
    SplitOff(tt, rest, 3);
    CutAndJoin(rest);
  }

  /** Decoding an encoded address with a plain forwarder: everything but the age is settled. */
  lemma DecodeEncoded(secret: Secret, a: Address, forwarder: string, sent: nat, maxAge: int, now: nat)
    requires MacFits(secret) && secret.length >= 16 && a.local != "" && a.domain != "" && '@' !in a.domain
    requires forwarder != "" && '@' !in forwarder
    ensures var rest := a.domain + "=" + a.local;
            && Encode(secret, a.local + "@" + a.domain, forwarder, sent)
              == Ok(EncodedLocal(secret, a, sent) + "@" + forwarder)
            && Decode(secret, EncodedLocal(secret, a, sent) + "@" + forwarder, maxAge, now)
               == Aged(DecodeAge(Timestamp(sent), now), maxAge, After(rest) + "@" + Before(rest))
  {
    SplitJoined(a.local, a.domain);
    var tt, rest := Timestamp(sent), a.domain + "=" + a.local;
    var local := EncodedLocal(secret, a, sent);
    SplitJoined(local, forwarder);
    EncodedParts(secret, a, sent);
    var parts := [secret.mac(Payload(tt, a.domain, a.local)), tt, Before(rest), After(rest)];
    assert DecodeParts(secret, parts, maxAge, now)
      == Aged(DecodeAge(tt, now), maxAge, After(rest) + "@" + Before(rest));
  }

  lemma EncodedParts(secret: Secret, a: Address, sent: nat)
    requires MacFits(secret)
    ensures var tt, rest, local := Timestamp(sent), a.domain + "=" + a.local, EncodedLocal(secret, a, sent);
            && PREFIX + "=" <= local
            && SplitN(local[5..], 4) == [secret.mac(Payload(tt, a.domain, a.local)), tt, Before(rest), After(rest)]
            && Payload(tt, Before(rest), After(rest)) == Payload(tt, a.domain, a.local)
  {
    var tt, rest := Timestamp(sent), a.domain + "=" + a.local;
    TimestampPlain(sent);
    var h := secret.mac(Payload(tt, a.domain, a.local));
    assert EncodedLocal(secret, a, sent)[5..] == h + "=" + (tt + "=" + rest);
    assert rest[|a.domain|] == '=';
    Parts(h, tt, rest);
    CutAndJoin(rest);
  }

  /** The first '=' parts a text into two that are one character shorter together. */
  lemma CutLength(s: string)
    requires '=' in s
    ensures |Before(s)| + 1 + |After(s)| == |s|
  {
    CutAndJoin(s);
  }

  /** An '@' in the forwarder domain leaves part of it with the local name. */
  lemma DecodeMisplaced(secret: Secret, a: Address, x: string, y: string, sent: nat, maxAge: int, now: nat)
    requires MacFits(secret) && secret.length >= 16 && '@' !in y
    ensures var r := Decode(secret, EncodedLocal(secret, a, sent) + "@" + (x + "@" + y), maxAge, now);
            r.Ok? ==> |r.value| == |a.domain| + |a.local| + |x| + 2
  {
    var tt, local := Timestamp(sent), EncodedLocal(secret, a, sent);
    var longer := local + "@" + x;
    assert local + "@" + (x + "@" + y) == longer + "@" + y;
    if y == "" {
      AfterAtJoin(longer, y);
    } else {
      SplitJoined(longer, y);
      MisplacedParts(secret, a, x, sent);
    }
  }

  lemma MisplacedParts(secret: Secret, a: Address, x: string, sent: nat)
    requires MacFits(secret)
    ensures var rest, longer := a.domain + "=" + a.local + "@" + x, EncodedLocal(secret, a, sent) + "@" + x;
            && PREFIX + "=" <= longer && |SplitN(longer[5..], 4)| == 4
            && SplitN(longer[5..], 4)[2..] == [Before(rest), After(rest)]
            && |Before(rest)| + 1 + |After(rest)| == |a.domain| + |a.local| + |x| + 2
  {
    var tt, rest := Timestamp(sent), a.domain + "=" + a.local + "@" + x;
    TimestampPlain(sent);
    var h := secret.mac(Payload(tt, a.domain, a.local));
    var longer := EncodedLocal(secret, a, sent) + "@" + x;
    assert longer[5..] == h + "=" + (tt + "=" + rest);
    assert rest[|a.domain|] == '=';
    Parts(h, tt, rest);
    CutLength(rest);
  }

  /** So what comes back is never the sender. */
  lemma ForwarderWithAt(secret: Secret, sender: string, forwarder: string, sent: nat, maxAge: int, now: nat)
    requires MacFits(secret) && secret.length >= 16 && SplitAddr(sender).Ok? && '@' in forwarder
    ensures Encode(secret, sender, forwarder, sent).Ok?
    ensures Decode(secret, Encode(secret, sender, forwarder, sent).value, maxAge, now) != Ok(sender)
  {
    var a, n := SplitAddr(sender).value, AfterAt(forwarder);
    var x, y := forwarder[..n - 1], forwarder[n..];
    assert forwarder == x + "@" + y;
    DecodeMisplaced(secret, a, x, y, sent, maxAge, now);
  }

  /** Decode undoes Encode, whatever the hash, exactly when the sender's domain has no '=' and the
      forwarder domain no '@'. */
  lemma RoundTripIff(secret: Secret, sender: string, forwarder: string, sent: nat, now: nat)
    requires MacFits(secret) && secret.length >= 16 && SplitAddr(sender).Ok? && forwarder != ""
    ensures Encode(secret, sender, forwarder, sent).Ok?
    ensures Decode(secret, Encode(secret, sender, forwarder, sent).value, 0, now) == Ok(sender)
            <==> '=' !in SplitAddr(sender).value.domain && '@' !in forwarder
  {
    var a := SplitAddr(sender).value;
    if '@' in forwarder {
      ForwarderWithAt(secret, sender, forwarder, sent, 0, now);
      return;
    }
    DecodeEncoded(secret, a, forwarder, sent, 0, now);
    var rest := a.domain + "=" + a.local;
    if '=' !in a.domain {
      CutPlain(a.domain, a.local);
    } else {
      CutInside(a.domain, a.local);
      AfterAtJoin(After(rest), Before(rest));
      AfterAtJoin(a.local, a.domain);
    }
  }

  lemma CutPlain(domain: string, local: string)
    requires '=' !in domain
    ensures Before(domain + "=" + local) == domain && After(domain + "=" + local) == local
  {
    IndexOfFirst(domain, local);
  }

  /** A '=' in the domain moves the cut into it. */
  lemma CutInside(domain: string, local: string)
    requires '=' in domain && '@' !in domain
    ensures var b := Before(domain + "=" + local); |b| < |domain| && '@' !in b
  {
    var rest := domain + "=" + local;
    var i := IndexOf(rest, '=');
    var j :| 0 <= j < |domain| && domain[j] == '=';
    assert rest[j] == '=';
    assert forall k :: 0 <= k < i ==> rest[k] == rest[..i][k];
    assert rest[..i] == domain[..i];
  }

  // ---- wrapping any number of times -----------------------------------------------------------

  datatype Hop = Hop(forwarder: string, at: nat)

  function Wrapped(secret: Secret, sender: string, hops: seq<Hop>): Result<string> {
    if hops == [] then Ok(sender) else
    match Wrapped(secret, sender, hops[..|hops| - 1])
    case Err(e) => Err(e)
    case Ok(s) => Encode(secret, s, hops[|hops| - 1].forwarder, hops[|hops| - 1].at)
  }

  function Unwrapped(secret: Secret, address: string, times: nat, now: nat): Result<string>
    decreases times
  {
    if times == 0 then Ok(address) else
    match Decode(secret, address, 0, now)
    case Err(e) => Err(e)
    case Ok(s) => Unwrapped(secret, s, times - 1, now)
  }

  /** Forwarders that can be unwrapped: each without '@', and each but the last without '='. */
  predicate Unwrappable(hops: seq<Hop>) {
    && (forall i :: 0 <= i < |hops| ==> hops[i].forwarder != "" && '@' !in hops[i].forwarder)
    && (forall i :: 0 <= i < |hops| - 1 ==> '=' !in hops[i].forwarder)
  }

  /** An encoded address lives under its forwarder. */
  lemma EncodedDomain(secret: Secret, sender: string, forwarder: string, sent: nat)
    requires Encode(secret, sender, forwarder, sent).Ok? && forwarder != "" && '@' !in forwarder
    ensures SplitAddr(Encode(secret, sender, forwarder, sent).value).Ok?
    ensures SplitAddr(Encode(secret, sender, forwarder, sent).value).value.domain == forwarder
  {
    var a := SplitAddr(sender).value;
    SplitJoined(EncodedLocal(secret, a, sent), forwarder);
  }

  /** However many forwarders wrapped the sender, unwrapping as often brings it back. */
  lemma {:induction false} WrappedRoundTrip(secret: Secret, sender: string, hops: seq<Hop>, now: nat)
    requires MacFits(secret) && secret.length >= 16
    requires SplitAddr(sender).Ok? && (hops != [] ==> '=' !in SplitAddr(sender).value.domain) && Unwrappable(hops)
    ensures Wrapped(secret, sender, hops).Ok? && SplitAddr(Wrapped(secret, sender, hops).value).Ok?
    ensures SplitAddr(Wrapped(secret, sender, hops).value).value.domain
         == if hops == [] then SplitAddr(sender).value.domain else hops[|hops| - 1].forwarder
    ensures Unwrapped(secret, Wrapped(secret, sender, hops).value, |hops|, now) == Ok(sender)
  {
    if hops != [] {
      var front, last := hops[..|hops| - 1], hops[|hops| - 1];
      WrappedRoundTrip(secret, sender, front, now);
      var s := Wrapped(secret, sender, front).value;
      RoundTripIff(secret, s, last.forwarder, last.at, now);
      EncodedDomain(secret, s, last.forwarder, last.at);
    }
  }

  // ---- age ------------------------------------------------------------------------------------

  lemma CharRoundTrip(v: nat)
    requires v < 32
    ensures CharValue(TableChar(v)) == Ok(v)
  {
    if v < 16 { CharRoundTripLow(v); } else { CharRoundTripHigh(v); }
  }

  lemma CharRoundTripLow(v: nat)
    requires v < 16
    ensures CharValue(TABLE[v]) == Ok(v)
  {
    assert v < 4 || (4 <= v < 8) || (8 <= v < 12) || 12 <= v;
  }

  lemma CharRoundTripHigh(v: nat)
    requires 16 <= v < 32
    ensures CharValue(TABLE[v]) == Ok(v)
  {
    assert v < 20 || (20 <= v < 24) || (24 <= v < 28) || 28 <= v;
  }

  /** The ten-bit stamp recovers the day it was made exactly while that is less than 1024 days ago. */
  lemma AgeExactIff(sent: nat, now: nat)
    requires sent <= now
    ensures DecodeAge(Timestamp(sent), now).Ok?
    ensures DecodeAge(Timestamp(sent), now).value == now - (sent / DAY) * DAY <==> now / DAY - sent / DAY < 1024
  {
    var e, d := sent / DAY, now / DAY;
    var day := (e % 65536) % 1024;
    StampArithmetic(e, d);
    CharRoundTrip(day / 32);
    CharRoundTrip(day % 32);
    assert 32 * (day / 32) + day % 32 == day;
    assert DecodeAge(Timestamp(sent), now).value == now - (d - (d - day) % 1024) * DAY;
    assert sent / DAY <= now / DAY;
  }

  lemma StampArithmetic(e: nat, d: nat)
    ensures (e % 65536) % 1024 == e % 1024
    ensures (d - e % 1024) % 1024 == (d - e) % 1024
    ensures e <= d ==> ((d - e) % 1024 == d - e <==> d - e < 1024)
  {
    var q := e / 65536;
    assert e == 65536 * q + e % 65536;
    ModShift(e % 65536, 64 * q);
    var k := e / 1024;
    assert d - e % 1024 == d - e + 1024 * k;
    ModShift(d - e, k);
  }

  lemma {:induction false} ModShift(x: int, k: nat)
    ensures (x + 1024 * k) % 1024 == x % 1024
  {
    if k > 0 { ModShift(x, k - 1); }
  }

  /** Within the 1024-day horizon an address decodes to its sender exactly when the time since the
      midnight of its encoding day is at most maxAge and the forwarder domain has no '@'; an older one
      is refused as such. */
  lemma AcceptedIffYoung(secret: Secret, sender: string, forwarder: string, sent: nat, maxAge: int, now: nat)
    requires MacFits(secret) && secret.length >= 16 && SplitAddr(sender).Ok? && '=' !in SplitAddr(sender).value.domain
    requires forwarder != "" && maxAge > 0 && sent <= now && now / DAY - sent / DAY < 1024
    ensures Encode(secret, sender, forwarder, sent).Ok?
    ensures var r := Decode(secret, Encode(secret, sender, forwarder, sent).value, maxAge, now);
            && (r == Ok(sender) <==> now - (sent / DAY) * DAY <= maxAge && '@' !in forwarder)
            && ('@' !in forwarder && now - (sent / DAY) * DAY > maxAge ==> r == Err(TooOld))
  {
    if '@' in forwarder {
      ForwarderWithAt(secret, sender, forwarder, sent, maxAge, now);
      return;
    }
    var a := SplitAddr(sender).value;
    DecodeEncoded(secret, a, forwarder, sent, maxAge, now);
    AgeExactIff(sent, now);
    CutPlain(a.domain, a.local);
  }

  // ---- every address --------------------------------------------------------------------------

  /** An address spelt SRS0=h=tt=d=l@f. The local part may hold '=' and '@'. */
  predicate Reads(address: string, h: string, tt: string, d: string, l: string, f: string) {
    && address == "SRS0=" + (h + "=" + (tt + "=" + (d + "=" + l))) + "@" + f
    && '=' !in h && '=' !in tt && '=' !in d && '@' !in f && f != ""
  }

  /** A base32 digit. */
  predicate IsDigit(c: char, v: nat) {
    v < 32 && "ABCDEFGHIJKLMNOPQRSTUVWXYZ234567"[v] == c
  }

  /** The stamp tt stands for day number `day`, the latest up to now with that remainder. */
  ghost predicate Stamps(tt: string, day: int, now: nat) {
    && |tt| == 2 && day <= now / 86400 < day + 1024
    && exists hi: nat, lo: nat :: IsDigit(tt[0], hi) && IsDigit(tt[1], lo) && day % 1024 == 32 * hi + lo
  }

  ghost predicate Young(tt: string, maxAge: int, now: nat) {
    maxAge > 0 ==> exists day :: Stamps(tt, day, now) && now - day * 86400 <= maxAge
  }

  lemma DigitIff(c: char, v: nat)
    ensures CharValue(c) == Ok(v) <==> IsDigit(c, v)
  {
    if IsDigit(c, v) { CharRoundTrip(v); }
    if CharValue(c).Ok? { SameDigit(c, CharValue(c).value); }
  }

  lemma SameDigit(c: char, w: nat)
    requires CharValue(c) == Ok(w)
    ensures IsDigit(c, w)
  {
    if w < 26 { LetterDigit(c, w); } else { FigureDigit(c, w); }
  }

  lemma LetterDigit(c: char, w: nat)
    requires w < 26 && c == 'A' + w as char
    ensures TABLE[w] == c
  {
    if w < 13 { LowLetters(w); } else { HighLetters(w); }
  }

  lemma LowLetters(w: nat)
    requires w < 13
    ensures TABLE[w] == 'A' + w as char
  {
  }

  lemma HighLetters(w: nat)
    requires 13 <= w < 26
    ensures TABLE[w] == 'A' + w as char
  {
  }

  lemma FigureDigit(c: char, w: nat)
    requires CharValue(c) == Ok(w) && w >= 26
    ensures w < 32 && TABLE[w] == c
  {
  }

  /** The age read from a stamp is that since the midnight of its day. */
  lemma AgeMeaning(tt: string, now: nat, day: int)
    requires Stamps(tt, day, now)
    ensures DecodeAge(tt, now) == Ok(now - day * 86400)
  {
    var hi: nat, lo: nat :| IsDigit(tt[0], hi) && IsDigit(tt[1], lo) && day % 1024 == 32 * hi + lo;
    AgeWith(tt, now, hi, lo, 32 * hi + lo, now / 86400, day);
  }

  lemma AgeWith(tt: string, now: nat, hi: nat, lo: nat, stamp: nat, today: nat, day: int)
    requires |tt| == 2 && IsDigit(tt[0], hi) && IsDigit(tt[1], lo) && stamp == 32 * hi + lo && today == now / 86400
    requires day <= today < day + 1024 && day % 1024 == stamp
    ensures DecodeAge(tt, now) == Ok(now - day * 86400)
  {
    LatestDay(today, day, stamp);
    AgeOf(tt, now, hi, lo, stamp, today, day);
  }

  lemma AgeOf(tt: string, now: nat, hi: nat, lo: nat, stamp: nat, today: nat, day: int)
    requires |tt| == 2 && IsDigit(tt[0], hi) && IsDigit(tt[1], lo) && stamp == 32 * hi + lo && today == now / 86400
    requires today - (today - stamp) % 1024 == day
    ensures DecodeAge(tt, now) == Ok(now - day * 86400)
  {
    DigitIff(tt[0], hi);
    DigitIff(tt[1], lo);
  }

  lemma LatestDay(today: int, day: int, stamp: int)
    requires day <= today < day + 1024 && day % 1024 == stamp
    ensures today - (today - stamp) % 1024 == day
  {
    var k := day / 1024;
    assert day == 1024 * k + stamp;
    assert (today - stamp) == 1024 * k + (today - day);
  }

  lemma StampExists(tt: string, now: nat) returns (day: int)
    requires DecodeAge(tt, now).Ok?
    ensures Stamps(tt, day, now)
  {
    var hi, lo := CharValue(tt[0]).value, CharValue(tt[1]).value;
    DigitIff(tt[0], hi);
    DigitIff(tt[1], lo);
    var stamp, today := 32 * hi + lo, now / 86400;
    day := today - (today - stamp) % 1024;
    assert (day - stamp) % 1024 == 0 by { Remainder(today - stamp); }
    StampRemainder(day, stamp);
  }

  lemma Remainder(x: int)
    ensures (x - x % 1024) % 1024 == 0
  {
    assert x == 1024 * (x / 1024) + x % 1024;
  }

  lemma StampRemainder(day: int, stamp: int)
    requires (day - stamp) % 1024 == 0 && 0 <= stamp < 1024
    ensures day % 1024 == stamp
  {
    var k := (day - stamp) / 1024;
    assert day == 1024 * k + stamp;
  }

  lemma YoungIff(tt: string, maxAge: int, now: nat)
    ensures Young(tt, maxAge, now) <==> maxAge <= 0 || (DecodeAge(tt, now).Ok? && DecodeAge(tt, now).value <= maxAge)
  {
    if maxAge > 0 && DecodeAge(tt, now).Ok? {
      var day := StampExists(tt, now);
      AgeMeaning(tt, now, day);
    }
    if day :| Stamps(tt, day, now) && now - day * 86400 <= maxAge {
      AgeMeaning(tt, now, day);
    }
  }

  lemma CutOnce(s: string, n: nat)
    requires n >= 2 && |SplitN(s, n)| > 1
    ensures s == Before(s) + "=" + After(s) && '=' !in Before(s)
      && SplitN(s, n) == [Before(s)] + SplitN(After(s), n - 1)
  {
    var i := IndexOf(s, '=');
    assert s == s[..i] + [s[i]] + s[i + 1..];
  }

  lemma FourParts(s: string)
    requires |SplitN(s, 4)| == 4
    ensures var p := SplitN(s, 4);
            s == p[0] + "=" + (p[1] + "=" + (p[2] + "=" + p[3])) && '=' !in p[0] && '=' !in p[1] && '=' !in p[2]
  {
    CutOnce(s, 4);
    var t := After(s);
    CutOnce(t, 3);
    var u := After(t);
    CutOnce(u, 2);
    assert SplitN(After(u), 1) == [After(u)];
  }

  lemma JoinedParts(h: string, tt: string, d: string, l: string)
    requires '=' !in h && '=' !in tt && '=' !in d
    ensures SplitN(h + "=" + (tt + "=" + (d + "=" + l)), 4) == [h, tt, d, l]
  {
    SplitOff(h, tt + "=" + (d + "=" + l), 4);
    SplitOff(tt, d + "=" + l, 3);
    SplitOff(d, l, 2);
  }

  /** What the decoder makes of such an address. */
  lemma DecodeReads(secret: Secret, address: string, maxAge: int, now: nat, h: string, tt: string, d: string, l: string,
                    f: string)
    requires secret.length >= 16 && Reads(address, h, tt, d, l, f)
    ensures Decode(secret, address, maxAge, now)
         == if h != secret.mac(tt + "=" + (d + "=" + l)) then Err(HashMismatch)
            else Aged(DecodeAge(tt, now), maxAge, l + "@" + d)
  {
    var text := h + "=" + (tt + "=" + (d + "=" + l));
    SplitJoined("SRS0=" + text, f);
    Prefixed(text);
    JoinedParts(h, tt, d, l);
    DecodeOf(secret, address, maxAge, now, "SRS0=" + text, f, text);
  }

  lemma Prefixed(text: string)
    ensures PREFIX + "=" <= "SRS0=" + text && ("SRS0=" + text)[5..] == text
  {
    assert PREFIX + "=" == "SRS0=" && ("SRS0=" + text)[..5] == "SRS0=";
  }

  /** The local part is cut behind its first five characters. */
  lemma DecodeOf(secret: Secret, address: string, maxAge: int, now: nat, local: string, f: string, text: string)
    requires secret.length >= 16 && SplitAddr(address) == Ok(Address(local, f))
    requires PREFIX + "=" <= local && local[5..] == text
    ensures Decode(secret, address, maxAge, now) == DecodeParts(secret, SplitN(text, 4), maxAge, now)
  {
  }

  lemma ReadsWhenParsed(secret: Secret, address: string, maxAge: int, now: nat)
    returns (h: string, tt: string, d: string, l: string, f: string)
    requires Decode(secret, address, maxAge, now).Ok?
    ensures secret.length >= 16 && Reads(address, h, tt, d, l, f)
  {
    var a, text := ParsedText(secret, address, maxAge, now);
    FourParts(text);
    var p := SplitN(text, 4);
    h, tt, d, l, f := p[0], p[1], p[2], p[3], a.domain;
  }

  lemma ParsedText(secret: Secret, address: string, maxAge: int, now: nat) returns (a: Address, text: string)
    requires Decode(secret, address, maxAge, now).Ok?
    ensures secret.length >= 16 && address == "SRS0=" + text + "@" + a.domain && '@' !in a.domain && a.domain != ""
    ensures |SplitN(text, 4)| == 4
  {
    a := SplitAddr(address).value;
    text := a.local[5..];
    CutPrefix(a.local);
    DecodeOf(secret, address, maxAge, now, a.local, a.domain, text);
  }

  lemma CutPrefix(local: string)
    requires PREFIX + "=" <= local
    ensures local == "SRS0=" + local[5..]
  {
    assert PREFIX + "=" == "SRS0=" && local == local[..5] + local[5..];
  }

  /** An address is accepted, and read as `back`, if and only if it is spelt that way, carries the keyed
      hash of what follows it, and is not too old. */
  lemma DecodeIff(secret: Secret, address: string, maxAge: int, now: nat, back: string)
    ensures Decode(secret, address, maxAge, now) == Ok(back)
            <==> secret.length >= 16
                 && exists h, tt, d, l, f ::
                      Reads(address, h, tt, d, l, f) && h == secret.mac(tt + "=" + (d + "=" + l))
                        && Young(tt, maxAge, now)
                      && back == l + "@" + d
  {
    if Decode(secret, address, maxAge, now) == Ok(back) {
      var h, tt, d, l, f := ReadsWhenParsed(secret, address, maxAge, now);
      DecodeReads(secret, address, maxAge, now, h, tt, d, l, f);
      YoungIff(tt, maxAge, now);
    }
    if secret.length >= 16 {
      if h, tt, d, l, f :| Reads(address, h, tt, d, l, f) && h == secret.mac(tt + "=" + (d + "=" + l))
                           && Young(tt, maxAge, now) && back == l + "@" + d {
        DecodeReads(secret, address, maxAge, now, h, tt, d, l, f);
        YoungIff(tt, maxAge, now);
      }
    }
  }

  /** Any other text in place of the hash is refused, whatever the age. */
  lemma ForgedIsRefused(secret: Secret, address: string, maxAge: int, now: nat, h: string, tt: string, d: string,
                        l: string, f: string)
    requires secret.length >= 16 && Reads(address, h, tt, d, l, f)
    ensures Decode(secret, address, maxAge, now) == Err(HashMismatch) <==> h != secret.mac(tt + "=" + (d + "=" + l))
  {
    DecodeReads(secret, address, maxAge, now, h, tt, d, l, f);
  }

  /** What is written: the keyed hash of stamp, domain and local part, in front of them; the stamp is that of today. */
  lemma EncodeSpelt(secret: Secret, l: string, d: string, f: string, now: nat) returns (tt: string)
    requires secret.length >= 16 && l != "" && d != "" && '@' !in d && f != ""
    ensures Stamps(tt, now / 86400, now)
    ensures Encode(secret, l + "@" + d, f, now)
         == Ok("SRS0=" + (secret.mac(tt + "=" + (d + "=" + l)) + "=" + (tt + "=" + (d + "=" + l))) + "@" + f)
  {
    tt := Timestamp(now);
    TodayStamps(now);
    SplitJoined(l, d);
    EncodedText(secret, Address(l, d), now, tt);
  }

  lemma EncodedText(secret: Secret, a: Address, now: nat, tt: string)
    requires tt == Timestamp(now)
    ensures EncodedLocal(secret, a, now)
         == "SRS0=" + (secret.mac(tt + "=" + (a.domain + "=" + a.local)) + "="
                       + (tt + "=" + (a.domain + "=" + a.local)))
  {
    assert PREFIX + "=" == "SRS0=";
  }

  lemma TodayStamps(now: nat)
    ensures Stamps(Timestamp(now), now / 86400, now)
  {
    var today, tt := now / 86400, Timestamp(now);
    var day := (today % 65536) % 1024;
    LowBits(today);
    HalvesAreDigits(day, tt);
  }

  lemma HalvesAreDigits(day: nat, tt: string)
    requires day < 1024 && tt == [TableChar(day / 32), TableChar(day % 32)]
    ensures IsDigit(tt[0], day / 32) && IsDigit(tt[1], day % 32) && day == 32 * (day / 32) + day % 32
  {
    var hi, lo := day / 32, day % 32;
    TableDigit(hi);
    TableDigit(lo);
  }

  lemma TableDigit(v: nat)
    requires v < 32
    ensures IsDigit(TableChar(v), v)
  {
    assert v % 32 == v;
  }

  lemma LowBits(today: nat)
    ensures (today % 65536) % 1024 == today % 1024
  {
    assert today == 65536 * (today / 65536) + today % 65536;
    StampRemainder(today, (today % 65536) % 1024);
  }

  /** Left to ordinary resolution: an address whose local part does not start that way. */
  lemma NotSrsIff(secret: Secret, address: string, maxAge: int, now: nat)
    ensures Decode(secret, address, maxAge, now) == Err(NotSrs)
            <==> secret.length >= 16
                 && exists l, f :: address == l + "@" + f && l != "" && f != "" && '@' !in f && !("SRS0=" <= l)
  {
    assert PREFIX + "=" == "SRS0=";
    if l, f :| address == l + "@" + f && l != "" && f != "" && '@' !in f && !("SRS0=" <= l) {
      SplitJoined(l, f);
    }
  }
}
