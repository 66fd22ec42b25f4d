/** Writing Sieve text and reading it back: the lexemes a program prints are the tokens it gets. */
module SieveText {
  import opened SieveLexer
  import L = Lists

  /** One printed lexeme and the blanks after it. */
  datatype Piece =
    | Word(id: string, gap: string)
    | Colon(id: string, gap: string)
    | Quoted(val: string, gap: string)
    | Mark(c: char, gap: string)
    | Figure(n: nat, unit: string, amount: int, gap: string)

  // ---- quoting --------------------------------------------------------------------------------

  function Replace(s: string, c: char, sub: string): string {
    if s == "" then "" else (if s[0] == c then sub else [s[0]]) + Replace(s[1..], c, sub)
  }

  /** Backslashes first, then double quotes. */
  function Escape(s: string): string {
    Replace(Replace(s, '\\', "\\\\"), '"', "\\\"")
  }

  lemma {:induction false} ReplaceConcat(a: string, b: string, c: char, sub: string)
    ensures Replace(a + b, c, sub) == Replace(a, c, sub) + Replace(b, c, sub)
  {
    if a == "" {
      L.EmptyConcat(a, b);
    } else {
      ReplaceConcat(a[1..], b, c, sub);
      L.ConsConcat(a, b);
      L.Assoc(if a[0] == c then sub else [a[0]], Replace(a[1..], c, sub), Replace(b, c, sub));
    }
  }

  /** Both passes together treat one character at a time. */
  lemma EscapeCons(c: char, s: string)
    ensures Escape([c] + s) == (if c == '\\' then "\\\\" else if c == '"' then "\\\"" else [c]) + Escape(s)
  {
    var once := if c == '\\' then "\\\\" else [c];
    ReplaceConcat([c], s, '\\', "\\\\");
    assert Replace([c], '\\', "\\\\") == once + Replace("", '\\', "\\\\") == once;
    ReplaceConcat(once, Replace(s, '\\', "\\\\"), '"', "\\\"");
    if c == '\\' {
      assert once[1..] == "\\" && once[1..][1..] == "";
      assert Replace(once, '"', "\\\"") == ['\\'] + (['\\'] + Replace("", '"', "\\\"")) == once;
    } else {
      assert [c][1..] == "";
      assert Replace([c], '"', "\\\"") == (if c == '"' then "\\\"" else [c]) + Replace("", '"', "\\\"");
    }
  }

  /** Reading a quoted string undoes escaping, for every string. */
  lemma {:induction false} QuotedUndoesEscape(s: string, rest: string)
    ensures QuotedTail(Escape(s) + "\"" + rest) == Scan(s, |Escape(s)| + 1)
  {
    if s == "" {
      assert Escape(s) + "\"" + rest == "\"" + rest;
    } else {
      var c, t := s[0], s[1..];
      assert s == [c] + t;
      EscapeCons(c, t);
      QuotedUndoesEscape(t, rest);
      var tail := Escape(t) + "\"" + rest;
      var text := Escape(s) + "\"" + rest;
      if c == '\\' || c == '"' {
        assert text == ['\\', c] + tail;
        assert text[2..] == tail;
      } else {
        assert text == [c] + tail;
        assert text[1..] == tail;
      }
    }
  }

  lemma {:induction false} EscapePlain(s: string)
    requires '\\' !in s && '"' !in s
    ensures Escape(s) == s
  {
    if s != "" {
      assert s == [s[0]] + s[1..];
      EscapeCons(s[0], s[1..]);
      EscapePlain(s[1..]);
    }
  }

  // ---- printing -------------------------------------------------------------------------------

  function Body(p: Piece): string {
    match p
    case Word(id, _) => id
    case Colon(id, _) => ":" + id
    case Quoted(val, _) => "\"" + Escape(val) + "\""
    case Mark(c, _) => [c]
    case Figure(n, unit, _, _) => Figures(n) + unit
  }

  /** Decimal digits. */
  function Figures(n: nat): string {
    if n < 10 then ["0123456789"[n]] else Figures(n / 10) + ["0123456789"[n % 10]]
  }

  function Show(p: Piece): string {
    Body(p) + p.gap
  }

  function Render(ps: seq<Piece>): string {
    if ps == [] then "" else Show(ps[0]) + Render(ps[1..])
  }

  function KindOf(p: Piece): Kind {
    match p
    case Word(_, _) => Ident
    case Colon(_, _) => Tag
    case Quoted(_, _) => Str
    case Mark(c, _) => MarkKind(c)
    case Figure(_, _, _, _) => Number
  }

  function ValOf(p: Piece): string {
    match p
    case Word(id, _) => id
    case Colon(id, _) => id
    case Quoted(val, _) => val
    case Mark(_, _) => ""
    case Figure(_, _, _, _) => ""
  }

  function NumOf(p: Piece): int {
    if p.Figure? then p.amount else 0
  }

  /** The amount, in the 64 bits the source has for it. */
  function Amount(n: nat, unit: string): int {
    match unit
    case "K" => Wrap64(n * 1024)
    case "k" => Wrap64(n * 1024)
    case "M" => Wrap64(n * 1_048_576)
    case "m" => Wrap64(n * 1_048_576)
    case "G" => Wrap64(n * 1_073_741_824)
    case "g" => Wrap64(n * 1_073_741_824)
    case _ => Wrap64(n)
  }

  predicate IsUnit(unit: string) {
    unit == "" || (|unit| == 1 && unit[0] in "KkMmGg")
  }

  predicate IsName(id: string) {
    id != "" && IsIdentStart(id[0]) && (forall i :: 0 <= i < |id| ==> IsIdentCont(id[i])) && id != "text"
  }

  predicate Blank(s: string) {
    forall i :: 0 <= i < |s| ==> s[i] == ' ' || s[i] == '\n'
  }

  /** A piece can be read on its own when its blanks, or the text after it, end its word. */
  predicate Readable(p: Piece, rest: string) {
    && Blank(p.gap)
    && (p.Word? || p.Colon? ==> IsName(p.id) && (p.gap + rest == "" || !IsIdentCont((p.gap + rest)[0])))
    && (p.Mark? ==> IsMark(p.c))
    && (p.Figure? ==> FigureFits(p.n, p.unit, p.amount) && (p.gap + rest == "" || EndsFigure((p.gap + rest)[0])))
  }

  predicate FigureFits(n: nat, unit: string, amount: int) {
    n <= 9_223_372_036_854_775_807 && IsUnit(unit) && amount == Amount(n, unit)
  }

  predicate EndsFigure(c: char) {
    !IsDigit(c) && c !in "KkMmGg"
  }

  /** The tokens spell the pieces, whatever their lines. */
  ghost predicate Spells(toks: seq<Token>, ps: seq<Piece>) {
    |toks| == |ps| && forall i :: 0 <= i < |ps| ==> IsPiece(toks[i], ps[i])
  }

  predicate IsPiece(t: Token, p: Piece) {
    t.kind == KindOf(p) && t.val == ValOf(p) && t.num == NumOf(p)
  }

  // ---- reading back ---------------------------------------------------------------------------

  lemma WordLengthIs(id: string, rest: string)
    requires (forall i :: 0 <= i < |id| ==> IsIdentCont(id[i])) && (rest == "" || !IsIdentCont(rest[0]))
    ensures WordLength(id + rest) == |id|
  {
    var s := id + rest;
    var n := WordLength(s);
    assert forall k :: 0 <= k < |id| ==> s[k] == id[k];
    assert rest != "" ==> s[|id|] == rest[0];
    WordLengthMeaning(s);
  }

  lemma HeadOfWord(id: string, after: string)
    requires IsName(id) && (after == "" || !IsIdentCont(after[0]))
    ensures Head(id + after) == Got(Ident, id, 0, |id|)
  {
    WordLengthIs(id, after);
    var s := id + after;
    assert s[0] == id[0] && s[..|id|] == id;
    assert WordAt(s) == Got(Ident, id, 0, |id|);
  }

  lemma HeadOfTag(id: string, after: string)
    requires IsName(id) && (after == "" || !IsIdentCont(after[0]))
    ensures Head(":" + id + after) == Got(Tag, id, 0, |id| + 1)
  {
    WordLengthIs(id, after);
    var s := ":" + id + after;
    assert s[0] == ':' && s[1] == id[0] && s[1..] == id + after && s[1..|id| + 1] == id;
  }

  lemma HeadOfQuoted(val: string, after: string)
    ensures Head("\"" + Escape(val) + "\"" + after) == Got(Str, val, 0, |Escape(val)| + 2)
  {
    QuotedUndoesEscape(val, after);
    var s := "\"" + Escape(val) + "\"" + after;
    assert s[0] == '"' && s[1..] == Escape(val) + "\"" + after;
  }

  // ---- numbers --------------------------------------------------------------------------------

  lemma {:induction false} FiguresMeaning(n: nat)
    ensures Figures(n) != "" && (forall i :: 0 <= i < |Figures(n)| ==> IsDigit(Figures(n)[i])) && Value(Figures(n)) == n
  {
    if n < 10 {
      DigitMeaning(n);
      assert Figures(n)[..0] == "";
    } else {
      FiguresMeaning(n / 10);
      DigitMeaning(n % 10);
      var front, s := Figures(n / 10), Figures(n);
      assert s[..|s| - 1] == front;
    }
  }

  lemma DigitMeaning(d: nat)
    requires d < 10
    ensures IsDigit("0123456789"[d]) && ("0123456789"[d] - '0') as nat == d
  {
  }

  lemma {:induction false} DigitLengthIs(ds: string, rest: string)
    requires (forall i :: 0 <= i < |ds| ==> IsDigit(ds[i])) && (rest == "" || !IsDigit(rest[0]))
    ensures DigitLength(ds + rest) == |ds|
  {
    if ds == "" {
      L.EmptyConcat(ds, rest);
    } else {
      L.ConsConcat(ds, rest);
      DigitLengthIs(ds[1..], rest);
    }
  }

  /** Zeros in front change nothing. */
  lemma {:induction false} LeadingZero(ds: string)
    ensures Value("0" + ds) == Value(ds)
  {
    if ds == "" {
      assert "0" + ds == "0" && "0"[..0] == "";
    } else {
      var front := ds[..|ds| - 1];
      LeadingZero(front);
      assert ("0" + ds)[..|ds|] == "0" + front && ("0" + ds)[|ds|] == ds[|ds| - 1];
    }
  }

  /** The 64-bit value congruent to x. */
  lemma WrapMeaning(x: int)
    ensures -9_223_372_036_854_775_808 <= Wrap64(x) <= 9_223_372_036_854_775_807
    ensures (Wrap64(x) - x) % 18_446_744_073_709_551_616 == 0
    ensures -9_223_372_036_854_775_808 <= x <= 9_223_372_036_854_775_807 ==> Wrap64(x) == x
  {
    var y, n := x + 9_223_372_036_854_775_808, 18_446_744_073_709_551_616;
    assert y == n * (y / n) + y % n;
    assert Wrap64(x) - x == n * -(y / n);
    Multiple(n, -(y / n));
  }

  lemma Multiple(n: int, k: int)
    requires n > 0
    ensures (n * k) % n == 0
  {
    var q, r := (n * k) / n, (n * k) % n;
    assert n * (k - q) == r;
    BetweenMultiples(n, k - q);
  }

  lemma BetweenMultiples(n: int, d: int)
    requires n > 0
    ensures d >= 1 ==> n * d >= n
    ensures d <= -1 ==> n * d <= -n
  {
  }

  lemma SuffixIs(n: nat, unit: string, after: string) returns (suffix: int)
    requires IsUnit(unit) && (after == "" || EndsFigure(after[0]))
    ensures suffix == if unit + after != "" then Suffix((unit + after)[0]) else 1
    ensures (if suffix > 1 then 1 else 0) == |unit| && Wrap64(n * suffix) == Amount(n, unit)
  {
    if unit == "" {
      L.EmptyConcat(unit, after);
      suffix := 1;
    } else {
      assert (unit + after)[0] == unit[0] && unit == [unit[0]];
      suffix := Suffix(unit[0]);
    }
  }

  /** A number with its unit stands for that many bytes, K, M and G being powers of 1024; one beyond 64
      bits is an error. */
  lemma HeadOfFigure(n: nat, unit: string, after: string)
    requires IsUnit(unit) && (after == "" || EndsFigure(after[0]))
    ensures Head(Figures(n) + unit + after)
      == if n > 9_223_372_036_854_775_807 then Bad else Got(Number, "", Amount(n, unit), |Figures(n)| + |unit|)
  {
    FiguresMeaning(n);
    var suffix := SuffixIs(n, unit, after);
    FigureStands(Figures(n), unit, after);
    NumberAtIs(Figures(n) + unit + after, |Figures(n)|, suffix, n);
  }

  lemma FigureStands(ds: string, unit: string, after: string)
    requires ds != "" && forall i :: 0 <= i < |ds| ==> IsDigit(ds[i])
    requires IsUnit(unit) && (after == "" || EndsFigure(after[0]))
    ensures var s := ds + unit + after;
            && s[0] == ds[0] && s[..|ds|] == ds && DigitLength(s) == |ds|
            && (unit + after != "" <==> |ds| < |s|) && (|ds| < |s| ==> s[|ds|] == (unit + after)[0])
  {
    var s, rest := ds + unit + after, unit + after;
    L.Assoc(ds, unit, after);
    assert rest != "" ==> !IsDigit(rest[0]);
    DigitLengthIs(ds, rest);
  }

  lemma HeadOfPiece(p: Piece, rest: string)
    requires Readable(p, rest)
    ensures Head(Body(p) + (p.gap + rest)) == Got(KindOf(p), ValOf(p), NumOf(p), |Body(p)|)
  {
    match p
    case Word(id, gap) => HeadOfWord(id, gap + rest);
    case Colon(id, gap) => HeadOfTag(id, gap + rest);
    case Quoted(val, gap) => HeadOfQuoted(val, gap + rest);
    case Mark(c, gap) => assert ([c] + (gap + rest))[0] == c;
    case Figure(n, unit, _, gap) => HeadOfFigure(n, unit, gap + rest);
  }

  /** Blanks only move the line count. */
  lemma {:induction false} LexBlanks(gap: string, rest: string, s: string, line: nat, next: nat)
    requires Blank(gap) && s == gap + rest && next == line + Newlines(gap)
    ensures Lex(s, line) == Lex(rest, next)
  {
    if gap == "" {
      assert s == rest;
    } else {
      var c, after := gap[0], gap[1..] + rest;
      L.ConsConcat(gap, rest);
      var mid := line + if c == '\n' then 1 else 0;
      LexBlank(c, s, line, after, mid);
      LexBlanks(gap[1..], rest, after, mid, next);
    }
  }

  lemma LexBlank(c: char, s: string, line: nat, after: string, next: nat)
    requires Blank([c]) && s != "" && s[0] == c && s[1..] == after && next == line + if c == '\n' then 1 else 0
    ensures Lex(s, line) == Lex(after, next)
  {
    assert c == [c][0] && s[..1] == [c] && [c][1..] == "";
    LexSkip(s, line, 1, after, next);
  }

  lemma LexBody(body: string, after: string, s: string, line: nat, kind: Kind, val: string, num: int, next: nat)
    requires body != "" && s == body + after && Head(s) == Got(kind, val, num, |body|) && next == line + Newlines(body)
    ensures Lex(s, line) == Before([Token(kind, val, num, line)], Lex(after, next))
  {
    assert s[|body|..] == after && s[..|body|] == body;
    LexGot(s, line, kind, val, num, |body|, after, next);
  }

  lemma ShowSplits(p: Piece, rest: string, line: nat)
    ensures Show(p) + rest == Body(p) + (p.gap + rest)
    ensures line + Newlines(Show(p)) == line + Newlines(Body(p)) + Newlines(p.gap)
  {
    NewlinesConcat(Body(p), p.gap);
  }

  lemma LexPiece(p: Piece, rest: string, s: string, line: nat, next: nat)
    requires Readable(p, rest) && s == Show(p) + rest && next == line + Newlines(Show(p))
    ensures Lex(s, line) == Before([Token(KindOf(p), ValOf(p), NumOf(p), line)], Lex(rest, next))
  {
    ShowSplits(p, rest, line);
    HeadOfPiece(p, rest);
    LexBodyAndGap(Body(p), p.gap, rest, s, line, KindOf(p), ValOf(p), NumOf(p), next);
  }

  lemma LexBodyAndGap(body: string, gap: string, rest: string, s: string, line: nat, kind: Kind, val: string, num: int,
                      next: nat)
    requires body != "" && s == body + (gap + rest) && Head(s) == Got(kind, val, num, |body|) && Blank(gap)
    requires next == line + Newlines(body) + Newlines(gap)
    ensures Lex(s, line) == Before([Token(kind, val, num, line)], Lex(rest, next))
  {
    var after, mid := gap + rest, line + Newlines(body);
    LexBody(body, after, s, line, kind, val, num, mid);
    LexBlanks(gap, rest, after, mid, next);
  }

  ghost predicate AllReadable(ps: seq<Piece>, rest: string) {
    ps != [] ==> Readable(ps[0], Render(ps[1..]) + rest) && AllReadable(ps[1..], rest)
  }

  lemma LexCons(p: Piece, tail: string, s: string, line: nat, next: nat, rest: seq<Token>)
    requires Readable(p, tail) && s == Show(p) + tail && next == line + Newlines(Show(p)) && Lex(tail, next) == Ok(rest)
    ensures Lex(s, line) == Ok([Token(KindOf(p), ValOf(p), NumOf(p), line)] + rest)
  {
    LexPiece(p, tail, s, line, next);
  }

  lemma SpellsCons(p: Piece, ps: seq<Piece>, line: nat, others: seq<Token>, toks: seq<Token>)
    requires ps != [] && ps[0] == p && Spells(others, ps[1..])
      && toks == [Token(KindOf(p), ValOf(p), NumOf(p), line)] + others
    ensures Spells(toks, ps)
  {
  }

  lemma RenderCons(ps: seq<Piece>, rest: string, line: nat)
    requires ps != []
    ensures Render(ps) + rest == Show(ps[0]) + (Render(ps[1..]) + rest)
    ensures line + Newlines(Render(ps)) == line + Newlines(Show(ps[0])) + Newlines(Render(ps[1..]))
  {
    NewlinesConcat(Show(ps[0]), Render(ps[1..]));
    L.Assoc(Show(ps[0]), Render(ps[1..]), rest);
  }

  /** Printed lexemes are read back one for one, in front of whatever follows. */
  lemma {:induction false} LexPieces(ps: seq<Piece>, rest: string, text: string, line: nat, next: nat, more: seq<Token>)
    returns (toks: seq<Token>)
    requires AllReadable(ps, rest) && text == Render(ps) + rest
    requires next == line + Newlines(Render(ps)) && Lex(rest, next) == Ok(more)
    ensures Lex(text, line) == Ok(toks + more) && Spells(toks, ps)
  {
    if ps == [] {
      toks := [];
      assert text == rest && [] + more == more;
      return;
    }
    RenderCons(ps, rest, line);
    var p, tail, mid := ps[0], Render(ps[1..]) + rest, line + Newlines(Show(ps[0]));
    var read := LexPieces(ps[1..], rest, tail, mid, next, more);
    toks := [Token(KindOf(p), ValOf(p), NumOf(p), line)] + read;
    LexCons(p, tail, text, line, mid, read + more);
    assert [Token(KindOf(p), ValOf(p), NumOf(p), line)] + (read + more) == toks + more;
    SpellsCons(p, ps, line, read, toks);
  }

  // ---- comments and text: blocks --------------------------------------------------------------

  lemma {:induction false} CloseIs(text: string, rest: string)
    requires forall i :: 0 <= i < |text| ==> !(text[i] == '*' && (text + "*")[i + 1] == '/')
    ensures FindClose(text + "*/" + rest) == At(|text|)
  {
    var s := text + "*/" + rest;
    if text == "" {
      assert s[0] == '*' && s[1] == '/';
    } else {
      var tail := text[1..];
      assert s[0] == text[0] && s[1] == (text + "*")[1] && s[1..] == tail + "*/" + rest;
      forall i | 0 <= i < |tail| ensures !(tail[i] == '*' && (tail + "*")[i + 1] == '/') {
        assert (tail + "*")[i + 1] == (text + "*")[i + 2];
      }
      CloseIs(tail, rest);
    }
  }

  /** A comment in slashes and stars is skipped up to its first closing mark; its newlines count. */
  lemma RemarkIsSkipped(text: string, rest: string, line: nat)
    requires forall i :: 0 <= i < |text| ==> !(text[i] == '*' && (text + "*")[i + 1] == '/')
    ensures Lex("/*" + text + "*/" + rest, line) == Lex(rest, line + Newlines(text))
  {
    var s := "/*" + text + "*/" + rest;
    CloseIs(text, rest);
    assert s[0] == '/' && s[1] == '*' && s[2..] == text + "*/" + rest;
    var n := |text| + 4;
    assert s[..n] == "/*" + text + "*/" && s[n..] == rest;
    NewlinesConcat("/*" + text, "*/");
    NewlinesConcat("/*", text);
    NoNewlines("/*");
    NoNewlines("*/");
    LexSkip(s, line, n, rest, line + Newlines(text));
  }

  /** A line starts at j, and it is a single dot but for returns at its end. */
  predicate DotLine(s: string, j: nat) {
    && 0 < j < |s| && s[j - 1] == '\n'
    && TrimRight(s[j..j + LineLength(s[j..])], '\r') == "."
  }

  /** No line before `end` ends the block. */
  lemma {:induction false} LinesTaken(s: string, start: nat, i: nat, end: nat)
    requires DotLine(s, end) && start <= i <= end && 0 < i && s[i - 1] == '\n'
    requires forall j :: i <= j < end ==> !DotLine(s, j)
    ensures MultilineFrom(s, start, i) == MultilineFrom(s, start, end)
    decreases end - i
  {
    if i < end {
      assert !DotLine(s, i);
      var next := LineSkipped(s, start, i, end);
      LinesTaken(s, start, next, end);
    }
  }

  lemma LineSkipped(s: string, start: nat, i: nat, end: nat) returns (next: nat)
    requires start <= i < end <= |s| && 0 < i && s[i - 1] == '\n' && s[end - 1] == '\n' && !DotLine(s, i)
    ensures i < next <= end && s[next - 1] == '\n' && MultilineFrom(s, start, i) == MultilineFrom(s, start, next)
  {
    var stop := LineEnds(s, i, end);
    NextLine(s, start, i, stop);
    next := stop + 1;
  }

  lemma LineEnds(s: string, i: nat, end: nat) returns (next: nat)
    requires i < end <= |s| && s[end - 1] == '\n'
    ensures next == i + LineLength(s[i..]) && i <= next < end && s[next] == '\n'
  {
    next := i + LineLength(s[i..]);
    LineLengthMeaning(s[i..]);
    assert s[end - 1] == s[i..][end - 1 - i];
    assert s[next] == s[i..][next - i];
  }

  /** A text: block holds the lines behind its first, up to the first one that is a single dot, without the
      newlines at its end. */
  lemma BlockIs(s: string, end: nat)
    requires LineLength(s) < end && DotLine(s, end) && forall j :: LineLength(s) < j < end ==> !DotLine(s, j)
    ensures Multiline(s) == Scan(TrimRight(s[LineLength(s) + 1..end], '\n'), end + LineLength(s[end..]))
  {
    LineLengthMeaning(s);
    var start := LineLength(s) + 1;
    LinesTaken(s, start, start, end);
    NextLine(s, start, end, end + LineLength(s[end..]));
  }
}
