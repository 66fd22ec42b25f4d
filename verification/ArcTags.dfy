/** Tag lists of ARC headers (section 3.2 of RFC 6376): writing them, and finding tags again after folding. */
module ArcTags {
  import opened ArcText
  import L = Lists

  datatype Tag = Tag(name: string, value: string)

  // ---- writing --------------------------------------------------------------------------------

  function TagText(t: Tag): string {
    " " + t.name + "=" + t.value
  }

  function TagsText(tags: seq<Tag>): string {
    if tags == [] then ""
    else if |tags| == 1 then TagText(tags[0])
    else TagText(tags[0]) + ";" + TagsText(tags[1..])
  }

  function HeaderText(name: string, tags: seq<Tag>): string {
    name + ":" + TagsText(tags)
  }

  predicate IsName(name: string) {
    name != "" && forall i :: 0 <= i < |name| ==> 'a' <= name[i] <= 'z'
  }

  /** Readable back: lower-case names, values on one line and without semicolons. */
  predicate TagOk(t: Tag) {
    IsName(t.name) && ';' !in t.value && Flat(t.value)
  }

  predicate TagsOk(tags: seq<Tag>) {
    tags != [] && forall i :: 0 <= i < |tags| ==> TagOk(tags[i])
  }

  // ---- reading --------------------------------------------------------------------------------

  /** \s of a regular expression. */
  predicate IsReSpace(c: char) {
    c in " \t\n\r\U{c}"
  }

  function SkipRe(s: string): string {
    if s != "" && IsReSpace(s[0]) then SkipRe(s[1..]) else s
  }

  /** The text between semicolons. */
  function Segments(s: string): (r: seq<string>)
    ensures r != []
  {
    if s == "" then [""]
    else if s[0] == ';' then [""] + Segments(s[1..])
    else var more := Segments(s[1..]);
      [[s[0]] + more[0]] + more[1..]
  }

  datatype Match = NoTag | Value(text: string)

  /** /\s*tag\s*=\s*([^;]*)/ at the start of a segment. */
  function TagOf(segment: string, tag: string): Match {
    var t := SkipRe(segment);
    if tag <= t then
      var u := SkipRe(t[|tag|..]);
      if u != "" && u[0] == '=' then Value(SkipRe(u[1..])) else NoTag
    else NoTag
  }

  function FirstTag(segments: seq<string>, tag: string): Match {
    if segments == [] then NoTag
    else var m := TagOf(segments[0], tag);
      if m.Value? then m else FirstTag(segments[1..], tag)
  }

  function Colon(h: string): (n: nat)
    ensures n <= |h| && ':' !in h[..n] && (n < |h| ==> h[n] == ':')
  {
    if h == "" || h[0] == ':' then 0 else 1 + Colon(h[1..])
  }

  function AfterColon(h: string): string {
    if Colon(h) < |h| then h[Colon(h) + 1..] else h
  }

  /** The field name, or nothing. */
  function HeaderName(h: string): string {
    if 0 < Colon(h) < |h| then TrimSpace(h[..Colon(h)]) else ""
  }

  /** strings.Fields joined again. */
  function Squeeze(s: string): string {
    if s == "" then "" else (if IsSpace(s[0]) then "" else [s[0]]) + Squeeze(s[1..])
  }

  function ExtractTag(h: string, tag: string): string {
    match FirstTag(Segments(AfterColon(h)), tag)
    case NoTag => ""
    case Value(v) => if tag == "b" || tag == "bh" then Squeeze(TrimSpace(v)) else TrimSpace(v)
  }

  // ---- a tag list reads back as it was written ------------------------------------------------

  lemma SkipReNone(s: string)
    requires s == "" || !IsReSpace(s[0])
    ensures SkipRe(s) == s
  {
  }

  lemma TagOfTag(t: Tag, tag: string)
    requires IsName(t.name) && IsName(tag)
    ensures TagOf(TagText(t), tag) == if t.name == tag then Value(SkipRe(t.value)) else NoTag
  {
    var body := t.name + "=" + t.value;
    assert TagText(t)[1..] == body && body[0] == t.name[0];
    SkipReNone(body);
    assert SkipRe(TagText(t)) == body;
    TagPrefix(t.name, t.value, tag);
  }

  lemma TagPrefix(name: string, value: string, tag: string)
    requires IsName(name) && IsName(tag)
    ensures var body := name + "=" + value;
            if tag <= body then |tag| <= |name| && name[..|tag|] == tag
              && SkipRe(body[|tag|..]) == name[|tag|..] + "=" + value
            else name != tag
  {
    var body := name + "=" + value;
    assert body[|name|] == '=' && body[..|name|] == name;
    if tag <= body {
      assert forall i :: 0 <= i < |tag| ==> tag[i] == body[i];
      assert name[..|tag|] == tag;
      assert body[|tag|..] == name[|tag|..] + "=" + value;
      SkipReNone(body[|tag|..]);
    }
  }

  lemma {:induction false} SegmentsPlain(a: string, b: string)
    requires ';' !in a
    ensures Segments(a + b) == [a + Segments(b)[0]] + Segments(b)[1..]
  {
    var ab := a + b;
    if a == "" {
      assert ab == b && "" + Segments(b)[0] == Segments(b)[0];
    } else {
      assert ab[1..] == a[1..] + b;
      SegmentsPlain(a[1..], b);
      assert [a[0]] + (a[1..] + Segments(b)[0]) == a + Segments(b)[0];
    }
  }

  function Texts(tags: seq<Tag>): seq<string> {
    seq(|tags|, i requires 0 <= i < |tags| => TagText(tags[i]))
  }

  lemma TagTextPlain(t: Tag)
    requires TagOk(t)
    ensures ';' !in TagText(t) && Flat(TagText(t))
  {
  }

  lemma {:induction false} SegmentsOfTags(tags: seq<Tag>)
    requires TagsOk(tags)
    ensures Segments(TagsText(tags)) == Texts(tags)
  {
    var t := TagText(tags[0]);
    TagTextPlain(tags[0]);
    if |tags| == 1 {
      SegmentsPlain(t, "");
      assert t + "" == t;
    } else {
      SegmentsOfTags(tags[1..]);
      var more := TagsText(tags[1..]);
      assert t + ";" + more == t + ([';'] + more);
      assert ([';'] + more)[1..] == more;
      SegmentsPlain(t, [';'] + more);
      assert t + "" == t;
      assert [t] + Texts(tags[1..]) == Texts(tags);
    }
  }

  function Lookup(tags: seq<Tag>, tag: string): Match {
    if tags == [] then NoTag
    else if tags[0].name == tag then Value(tags[0].value)
    else Lookup(tags[1..], tag)
  }

  lemma {:induction false} FirstTagOfTags(tags: seq<Tag>, tag: string)
    requires (forall i :: 0 <= i < |tags| ==> IsName(tags[i].name)) && IsName(tag)
    ensures FirstTag(Texts(tags), tag) == match Lookup(tags, tag) case NoTag => NoTag case Value(v) => Value(SkipRe(v))
  {
    if tags != [] {
      TagOfTag(tags[0], tag);
      FirstTagOfTags(tags[1..], tag);
      assert Texts(tags)[1..] == Texts(tags[1..]);
    }
  }

  /** No white space at all. */
  predicate Solid(s: string) {
    forall i :: 0 <= i < |s| ==> !IsSpace(s[i])
  }

  lemma {:induction false} SolidStays(s: string)
    requires Solid(s)
    ensures SkipRe(s) == s && TrimSpace(s) == s && Squeeze(s) == s
  {
    if s != "" {
      SolidStays(s[1..]);
      assert s == [s[0]] + s[1..];
    }
  }

  lemma ColonIs(name: string, rest: string)
    requires ':' !in name
    ensures Colon(name + ":" + rest) == |name|
  {
    var h := name + ":" + rest;
    assert h[|name|] == ':' && h[..|name|] == name;
    assert forall k :: 0 <= k < |name| ==> h[k] == name[k];
    assert forall k :: 0 <= k < Colon(h) ==> h[k] == h[..Colon(h)][k];
  }

  lemma AfterColonIs(name: string, rest: string)
    requires ':' !in name
    ensures AfterColon(name + ":" + rest) == rest
  {
    ColonIs(name, rest);
  }

  /** What is written under a tag is what is found under it. */
  lemma ExtractWritten(name: string, tags: seq<Tag>, tag: string, value: string)
    requires ':' !in name && TagsOk(tags) && IsName(tag) && Lookup(tags, tag) == Value(value) && Solid(value)
    ensures ExtractTag(HeaderText(name, tags), tag) == value
  {
    AfterColonIs(name, TagsText(tags));
    SegmentsOfTags(tags);
    FirstTagOfTags(tags, tag);
    SolidStays(value);
  }

  // ---- ...also after folding ------------------------------------------------------------------

  /** The same segments, up to the white space a fold puts in front of one. */
  ghost predicate Loose(a: seq<string>, b: seq<string>) {
    |a| == |b| > 0 && a[0] == b[0] && forall i :: 1 <= i < |a| ==> SkipRe(a[i]) == SkipRe(b[i])
  }

  lemma SegmentsCons(c: char, s: string)
    requires c != ';'
    ensures Segments([c] + s) == [[c] + Segments(s)[0]] + Segments(s)[1..]
  {
    assert ([c] + s)[1..] == s;
  }

  lemma SegmentsSemi(s: string)
    ensures Segments([';'] + s) == [""] + Segments(s)
  {
    assert ([';'] + s)[1..] == s;
  }

  lemma LooseCons(c: char, a: seq<string>, b: seq<string>)
    requires Loose(a, b)
    ensures Loose([[c] + a[0]] + a[1..], [[c] + b[0]] + b[1..])
  {
  }

  lemma LooseSemi(a: seq<string>, b: seq<string>)
    requires |a| == |b| > 0 && forall i :: 0 <= i < |a| ==> SkipRe(a[i]) == SkipRe(b[i])
    ensures Loose([""] + a, [""] + b)
  {
  }

  lemma SkipReTab(s: string)
    ensures SkipRe([' '] + (['\t'] + s)) == SkipRe(s) && SkipRe([' '] + s) == SkipRe(s)
  {
    assert ([' '] + (['\t'] + s))[1..] == ['\t'] + s && (['\t'] + s)[1..] == s && ([' '] + s)[1..] == s;
  }

  /** Segments of a text, and of its folded form behind a fold. */
  lemma LooseFold(h: string, t: string, folded: string)
    requires |h| > 1 && h[0] == ';' && t == AfterFold(h) && Loose(Segments(t), Segments(folded))
    ensures Loose(Segments(h), Segments(";" + " \t" + folded))
  {
    var inner := [' '] + (['\t'] + folded);
    assert ";" + " \t" + folded == [';'] + inner && h == [';'] + h[1..];
    SegmentsSemi(inner);
    SegmentsSemi(h[1..]);
    var a, b := Segments(h[1..]), Segments(inner);
    BehindFold(folded, b);
    if h[1] == ' ' {
      assert h[1..] == [' '] + t;
      BehindSpace(t, a);
    }
    assert forall i :: 0 <= i < |a| ==> SkipRe(a[i]) == SkipRe(b[i]);
    LooseSemi(a, b);
  }

  /** A fold only puts white space in front of the first segment. */
  lemma BehindFold(s: string, b: seq<string>)
    requires b == Segments([' '] + (['\t'] + s))
    ensures |b| == |Segments(s)| && SkipRe(b[0]) == SkipRe(Segments(s)[0])
    ensures forall i :: 1 <= i < |b| ==> b[i] == Segments(s)[i]
  {
    var tabbed := ['\t'] + s;
    SegmentsCons('\t', s);
    SegmentsCons(' ', tabbed);
    SameTail(['\t'], Segments(s), Segments(tabbed));
    SameTail([' '], Segments(tabbed), b);
    SkipReTab(Segments(s)[0]);
  }

  lemma SameTail(front: string, d: seq<string>, a: seq<string>)
    requires d != [] && a == [front + d[0]] + d[1..]
    ensures |a| == |d| && a[0] == front + d[0] && forall i :: 1 <= i < |a| ==> a[i] == d[i]
  {
  }

  lemma BehindSpace(s: string, a: seq<string>)
    requires a == Segments([' '] + s)
    ensures |a| == |Segments(s)| && SkipRe(a[0]) == SkipRe(Segments(s)[0])
    ensures forall i :: 1 <= i < |a| ==> a[i] == Segments(s)[i]
  {
    SegmentsCons(' ', s);
    SameTail([' '], Segments(s), a);
    SkipReTab(Segments(s)[0]);
  }

  lemma {:induction false} FoldKeepsSegments(h: string, col: nat)
    ensures Loose(Segments(h), Segments(Fold(h, col, " \t")))
    decreases |h|
  {
    if h == "" {
    } else if h[0] == ';' && col > LIMIT && |h| > 1 {
      var t := AfterFold(h);
      FoldKeepsSegments(t, 1);
      LooseFold(h, t, Fold(t, 1, " \t"));
    } else {
      var next := if h[0] == '\n' then 0 else col + 1;
      FoldKeepsSegments(h[1..], next);
      var a, b := Segments(h[1..]), Segments(Fold(h[1..], next, " \t"));
      if h[0] == ';' {
        SegmentsSemi(Fold(h[1..], next, " \t"));
        LooseSemi(a, b);
      } else {
        SegmentsCons(h[0], Fold(h[1..], next, " \t"));
        LooseCons(h[0], a, b);
      }
    }
  }

  lemma {:induction false} FirstTagLoose(a: seq<string>, b: seq<string>, tag: string)
    requires |a| == |b| && forall i :: 0 <= i < |a| ==> SkipRe(a[i]) == SkipRe(b[i])
    ensures FirstTag(a, tag) == FirstTag(b, tag)
    decreases |a|
  {
    if a != [] {
      FirstTagLoose(a[1..], b[1..], tag);
    }
  }

  /** Folding hides no tag. */
  lemma ExtractRefolded(name: string, value: string, tag: string)
    requires ':' !in name && ';' !in name
    ensures ExtractTag(Refolded(name + ":" + value), tag) == ExtractTag(name + ":" + value, tag)
  {
    var next := FoldStart(name + ":", value, 0, " \t");
    var folded := Fold(value, next, " \t");
    assert Refolded(name + ":" + value) == name + ":" + folded;
    AfterColonIs(name, value);
    AfterColonIs(name, folded);
    FoldKeepsSegments(value, next);
    FirstTagLoose(Segments(value), Segments(folded), tag);
  }

  // ---- emptying the signature -----------------------------------------------------------------

  /** Index of the next semicolon from i on, or the end. */
  function SemiFrom(s: string, i: nat): (n: nat)
    requires i <= |s|
    ensures i <= n <= |s| && (forall k :: i <= k < n ==> s[k] != ';') && (n < |s| ==> s[n] == ';')
    decreases |s| - i
  {
    if i == |s| || s[i] == ';' then i else SemiFrom(s, i + 1)
  }

  function SpaceFrom(s: string, i: nat): (n: nat)
    requires i <= |s|
    ensures i <= n <= |s| && (forall k :: i <= k < n ==> IsReSpace(s[k])) && (n < |s| ==> !IsReSpace(s[n]))
    decreases |s| - i
  {
    if i == |s| || !IsReSpace(s[i]) then i else SpaceFrom(s, i + 1)
  }

  // The pattern b\s*=\s*[^;]* matches at i.
  predicate BareAt(s: string, i: nat)
    requires i < |s|
  {
    s[i] == 'b' && var j := SpaceFrom(s, i + 1); j < |s| && s[j] == '='
  }

  /** Starts of the matches, left to right, none overlapping the one before. */
  function Bares(s: string, i: nat): (starts: seq<nat>)
    requires i <= |s|
    ensures forall k :: 0 <= k < |starts| ==> i <= starts[k] < |s| && BareAt(s, starts[k])
    decreases |s| - i
  {
    if i == |s| then []
    else if BareAt(s, i) then
      var end := SemiFrom(s, SpaceFrom(s, i + 1));
      [i] + Bares(s, end)
    else Bares(s, i + 1)
  }

  /** The last match not behind an 'h', or the last of all. */
  function PickBare(s: string, starts: seq<nat>, last: nat): (r: nat)
    requires last < |s| && BareAt(s, last) && forall k :: 0 <= k < |starts| ==> starts[k] < |s| && BareAt(s, starts[k])
    ensures r < |s| && BareAt(s, r)
  {
    if starts == [] then last else
    var start := starts[|starts| - 1];
    if start > 0 && s[start - 1] == 'h' then PickBare(s, starts[..|starts| - 1], last) else start
  }

  /** The header with the value of its b= tag emptied. */
  function StripB(h: string): string {
    var starts := Bares(h, 0);
    if starts == [] then h else
    var start := PickBare(h, starts, starts[|starts| - 1]);
    var eq := SpaceFrom(h, start + 1);
    h[..eq + 1] + h[SemiFrom(h, eq)..]
  }

  /** A match that starts before the last semicolon ends there or earlier. */
  lemma EarlierEnds(s: string, i: nat, semi: nat, b: nat) returns (end: nat)
    requires i < b && semi < b < |s| && s[semi] == ';' && (forall k :: semi < k < b ==> IsWsp(s[k])) && BareAt(s, i)
    ensures end == SemiFrom(s, SpaceFrom(s, i + 1)) && i < end <= semi
  {
    var j := SpaceFrom(s, i + 1);
    end := SemiFrom(s, j);
    assert i < semi;
    assert j < semi by { assert !IsReSpace(s[semi]); }
  }

  /** Past the last semicolon only the last tag can match. */
  lemma {:induction false} LastBare(s: string, i: nat, semi: nat, b: nat)
    requires i <= b && semi < b < |s| && s[semi] == ';'
    requires (forall k :: semi < k < b ==> IsWsp(s[k])) && (forall k :: semi < k < |s| ==> s[k] != ';') && BareAt(s, b)
    ensures var starts := Bares(s, i); starts != [] && starts[|starts| - 1] == b
    decreases |s| - i
  {
    if i == b {
      BaresTake(s, b);
      assert SemiFrom(s, SpaceFrom(s, b + 1)) == |s|;
    } else if BareAt(s, i) {
      var end := EarlierEnds(s, i, semi, b);
      LastBare(s, end, semi, b);
      BaresTake(s, i);
      LastOf(i, Bares(s, end));
    } else {
      LastBare(s, i + 1, semi, b);
    }
  }

  lemma BaresTake(s: string, i: nat)
    requires i < |s| && BareAt(s, i)
    ensures Bares(s, i) == [i] + Bares(s, SemiFrom(s, SpaceFrom(s, i + 1))) && Bares(s, |s|) == []
  {
  }

  lemma LastOf(x: nat, rest: seq<nat>)
    requires rest != []
    ensures ([x] + rest)[|rest|] == rest[|rest| - 1]
  {
  }

  lemma StripLast(before: string, gap: string, sig: string)
    requires gap != "" && (forall k :: 0 <= k < |gap| ==> IsWsp(gap[k])) && ';' !in sig
    ensures StripB(before + ";" + gap + "b=" + sig) == before + ";" + gap + "b="
  {
    var base := before + ";" + gap + "b=";
    LastSpelt(before, gap, sig);
    StripTail(base + sig, |before|, |before| + 1 + |gap|);
    L.CutConcat(base, sig, 0);
    assert sig[..0] == "" && base + "" == base;
  }

  lemma StripTail(h: string, semi: nat, b: nat)
    requires semi < b - 1 && b + 1 < |h| && h[semi] == ';' && h[b] == 'b' && h[b + 1] == '='
    requires (forall k :: semi < k < b ==> IsWsp(h[k])) && (forall k :: semi < k < |h| ==> h[k] != ';')
    ensures StripB(h) == h[..b + 2]
  {
    assert SpaceFrom(h, b + 1) == b + 1;
    LastBare(h, 0, semi, b);
    assert SemiFrom(h, b + 1) == |h|;
    assert h[..b + 2] + h[|h|..] == h[..b + 2];
  }

  lemma LastSpelt(before: string, gap: string, sig: string)
    requires gap != ""
    ensures var h, semi, b := before + ";" + gap + "b=" + sig, |before|, |before| + 1 + |gap|;
            && h[semi] == ';' && h[b] == 'b' && h[b + 1] == '=' && |h| == b + 2 + |sig| && h[b - 1] == gap[|gap| - 1]
            && (forall k :: semi < k < b ==> h[k] == gap[k - semi - 1])
            && (forall k :: b + 2 <= k < |h| ==> h[k] == sig[k - b - 2])
  {
  }

  // ---- the signature tag comes last -----------------------------------------------------------

  lemma {:induction false} TagsSnoc(tags: seq<Tag>, t: Tag)
    requires tags != []
    ensures TagsText(tags + [t]) == TagsText(tags) + ";" + TagText(t)
  {
    var all := tags + [t];
    if |tags| == 1 {
      assert all[1..] == [t];
    } else {
      assert all[1..] == tags[1..] + [t];
      TagsSnoc(tags[1..], t);
      TagsAssoc(TagText(tags[0]), TagsText(tags[1..]), TagText(t));
    }
  }

  lemma TagsAssoc(a: string, b: string, c: string)
    ensures a + ";" + (b + ";" + c) == a + ";" + b + ";" + c
  {
  }

  lemma {:induction false} TagsEndOk(tags: seq<Tag>)
    requires TagsOk(tags)
    ensures var s := TagsText(tags); s != "" && s[|s| - 1] != ';' && Flat(s)
  {
    TagTextPlain(tags[0]);
    var t := TagText(tags[0]);
    assert t != "" && t[|t| - 1] != ';';
    if |tags| > 1 { TagsEndOk(tags[1..]); }
  }

  /** A signed header is its unsigned form with the signature at the end. */
  lemma SignedIs(name: string, tags: seq<Tag>, sig: string)
    requires tags != []
    ensures HeaderText(name, tags + [Tag("b", sig)]) == HeaderText(name, tags) + ("; b=" + sig)
    ensures HeaderText(name, tags + [Tag("b", sig)]) == HeaderText(name, tags + [Tag("b", "")]) + sig
  {
    TagsSnoc(tags, Tag("b", sig));
    TagsSnoc(tags, Tag("b", ""));
    SignedGlue(name, TagsText(tags), sig);
  }

  lemma SignedGlue(name: string, text: string, sig: string)
    ensures name + ":" + (text + ";" + (" " + "b" + "=" + sig)) == name + ":" + text + ("; b=" + sig)
    ensures name + ":" + (text + ";" + (" " + "b" + "=" + sig))
      == name + ":" + (text + ";" + (" " + "b" + "=" + "")) + sig
  {
    assert ";" + (" " + "b" + "=" + sig) == "; b=" + sig;
  }

  lemma FoldLast(sig: string, col: nat) returns (gap: string)
    requires ';' !in sig
    ensures gap != "" && (forall k :: 0 <= k < |gap| ==> IsWsp(gap[k]))
    ensures Fold("; b=" + sig, col, " \t") == ";" + gap + "b=" + sig
    ensures Fold("; b=", col, " \t") == ";" + gap + "b="
  {
    gap := if col > LIMIT then " \t" else " ";
    FoldLastIs(sig, col);
    FoldLastIs("", col);
    assert "; b=" + "" == "; b=" && ";" + gap + "b=" + "" == ";" + gap + "b=";
  }

  lemma FoldLastIs(sig: string, col: nat)
    requires ';' !in sig
    ensures Fold("; b=" + sig, col, " \t") == ";" + (if col > LIMIT then " \t" else " ") + "b=" + sig
  {
    var t := "b=" + sig;
    assert "; b=" + sig == [';'] + ([' '] + t);
    FoldSemi(t, col);
  }

  lemma FoldSemi(t: string, col: nat)
    requires ';' !in t
    ensures Fold([';'] + ([' '] + t), col, " \t") == ";" + (if col > LIMIT then " \t" else " ") + t
  {
    var st := [' '] + t;
    var h := [';'] + st;
    assert h[1..] == st && h[2..] == t;
    FoldPlain(t, 1, " \t");
    FoldPlain(st, col + 1, " \t");
  }

  /** Emptying the signature of a folded header gives the folded form of the unsigned header. */
  lemma StripRefolded(name: string, tags: seq<Tag>, sig: string)
    requires ';' !in name && TagsOk(tags) && ';' !in sig
    ensures StripB(Refolded(HeaderText(name, tags + [Tag("b", sig)])))
      == Refolded(HeaderText(name, tags + [Tag("b", "")]))
  {
    var base := HeaderText(name, tags);
    SignedIs(name, tags, sig);
    SignedIs(name, tags, "");
    TagsEndOk(tags);
    assert "; b=" + "" == "; b=";
    StripFoldedText(base, sig);
  }

  lemma StripFoldedText(base: string, sig: string)
    requires base != "" && base[|base| - 1] != ';' && ';' !in sig
    ensures StripB(Refolded(base + ("; b=" + sig))) == Refolded(base + "; b=")
  {
    FoldConcat(base, "; b=" + sig, 0, " \t");
    FoldConcat(base, "; b=", 0, " \t");
    var gap := FoldLast(sig, FoldCol(base, 0));
    var front := Fold(base, 0, " \t");
    LastAssoc(front, gap, sig);
    StripLast(front, gap, sig);
  }

  lemma LastAssoc(front: string, gap: string, sig: string)
    ensures front + (";" + gap + "b=" + sig) == front + ";" + gap + "b=" + sig
    ensures front + (";" + gap + "b=") == front + ";" + gap + "b="
  {
  }
}
