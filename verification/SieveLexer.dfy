/** The Sieve tokenizer (RFC 5228): a single pass over the source text. */
module SieveLexer {
  import L = Lists

  datatype Kind =
    | Ident | Str | Number | Tag
    | LBrace | RBrace | LParen | RParen | LBracket | RBracket | Comma | Semi
    | Eof

  datatype Token = Token(kind: Kind, val: string, num: int, line: nat)

  datatype Result<T> = Ok(value: T) | Err(line: nat)

  predicate IsIdentStart(c: char) {
    'a' <= c <= 'z' || 'A' <= c <= 'Z' || c == '_'
  }

  predicate IsDigit(c: char) {
    '0' <= c <= '9'
  }

  predicate IsIdentCont(c: char) {
    IsIdentStart(c) || IsDigit(c) || c == '.' || c == '-'
  }

  function MarkKind(c: char): Kind {
    match c
    case '{' => LBrace
    case '}' => RBrace
    case '(' => LParen
    case ')' => RParen
    case '[' => LBracket
    case ']' => RBracket
    case ',' => Comma
    case ';' => Semi
    case _ => Eof
  }

  predicate IsMark(c: char) {
    c in "{}()[],;"
  }

  // ---- reference: one lexeme at the head of the text ------------------------------------------

  function Newlines(s: string): nat {
    if s == "" then 0 else (if s[0] == '\n' then 1 else 0) + Newlines(s[1..])
  }

  lemma {:induction false} NewlinesConcat(a: string, b: string)
    ensures Newlines(a + b) == Newlines(a) + Newlines(b)
  {
    if a == "" {
      assert a + b == b;
    } else {
      NewlinesConcat(a[1..], b);
      assert (a + b)[1..] == a[1..] + b;
    }
  }

  lemma {:induction false} NoNewlines(s: string)
    requires '\n' !in s
    ensures Newlines(s) == 0
  {
    if s != "" { NoNewlines(s[1..]); }
  }

  /** Length of the rest of the line, its '\n' not included. */
  function LineLength(s: string): (n: nat)
    ensures n <= |s|
  {
    if s == "" || s[0] == '\n' then 0 else 1 + LineLength(s[1..])
  }

  lemma {:induction false} LineLengthMeaning(s: string)
    ensures var n := LineLength(s); (forall i :: 0 <= i < n ==> s[i] != '\n') && (n < |s| ==> s[n] == '\n')
  {
    if s != "" && s[0] != '\n' { LineLengthMeaning(s[1..]); }
  }

  function WordLength(s: string): (n: nat)
    ensures n <= |s|
  {
    if s == "" || !IsIdentCont(s[0]) then 0 else 1 + WordLength(s[1..])
  }

  lemma {:induction false} WordLengthMeaning(s: string)
    ensures var n := WordLength(s);
            (forall i :: 0 <= i < n ==> IsIdentCont(s[i])) && (n < |s| ==> !IsIdentCont(s[n]))
  {
    if s != "" && IsIdentCont(s[0]) { WordLengthMeaning(s[1..]); }
  }

  function DigitLength(s: string): (n: nat)
    ensures n <= |s|
  {
    if s == "" || !IsDigit(s[0]) then 0 else 1 + DigitLength(s[1..])
  }

  datatype Found = None | At(index: nat)

  /** The first occurrence of the closing comment mark. */
  function FindClose(s: string): (r: Found)
    ensures r.At? ==> r.index + 2 <= |s| && s[r.index] == '*' && s[r.index + 1] == '/'
  {
    if |s| < 2 then None
    else if s[0] == '*' && s[1] == '/' then At(0)
    else match FindClose(s[1..])
      case None => None
      case At(i) => At(i + 1)
  }

  datatype Scanned = Unterminated | Scan(val: string, length: nat)

  /** After the opening quote: the decoded value, and the length through the closing quote. */
  function QuotedTail(s: string): (r: Scanned)
    ensures r.Scan? ==> 0 < r.length <= |s|
  {
    if s == "" then Unterminated
    else if s[0] == '"' then Scan("", 1)
    else if s[0] == '\\' then
      if |s| < 2 then Unterminated else
      match QuotedTail(s[2..])
      case Unterminated => Unterminated
      case Scan(v, n) => Scan([s[1]] + v, n + 2)
    else match QuotedTail(s[1..])
      case Unterminated => Unterminated
      case Scan(v, n) => Scan([s[0]] + v, n + 1)
  }

  function TrimRight(s: string, c: char): string {
    if s != "" && s[|s| - 1] == c then TrimRight(s[..|s| - 1], c) else s
  }

  /** The lines of a text: block from `i` on, up to the one that is a single dot. */
  function MultilineFrom(s: string, start: nat, i: nat): (r: Scanned)
    requires start <= i
    ensures r.Scan? ==> r.length <= |s|
    decreases |s| - i
  {
    if i >= |s| then Unterminated else
    var end := i + LineLength(s[i..]);
    if TrimRight(s[i..end], '\r') == "." then Scan(TrimRight(s[start..i], '\n'), end)
    else MultilineFrom(s, start, end + 1)
  }

  function Multiline(s: string): (r: Scanned)
    ensures r.Scan? ==> r.length <= |s|
  {
    var n := LineLength(s);
    if n >= |s| then Unterminated else MultilineFrom(s, n + 1, n + 1)
  }

  const MAX_INT64: int := 0x7fff_ffff_ffff_ffff

  function Value(digits: string): nat {
    if digits == "" then 0 else
    var c := digits[|digits| - 1];
    10 * Value(digits[..|digits| - 1]) + if IsDigit(c) then (c - '0') as nat else 0
  }

  function Suffix(c: char): int {
    if c == 'K' || c == 'k' then 1024
    else if c == 'M' || c == 'm' then 1024 * 1024
    else if c == 'G' || c == 'g' then 1024 * 1024 * 1024
    else 1
  }

  /** 64-bit product, as the source's int64 multiplication wraps. */
  function Wrap64(x: int): int {
    (x + MAX_INT64 + 1) % (2 * (MAX_INT64 + 1)) - (MAX_INT64 + 1)
  }

  datatype Lexeme = Bad | Skip(length: nat) | Got(kind: Kind, val: string, num: int, length: nat)

  function FromScan(r: Scanned, before: nat): Lexeme {
    match r
    case Unterminated => Bad
    case Scan(v, n) => Got(Str, v, 0, before + n)
  }

  function NumberAt(s: string): (l: Lexeme)
    requires s != "" && IsDigit(s[0])
    ensures !l.Bad? ==> 0 < l.length <= |s|
  {
    var n := DigitLength(s);
    var suffix := if n < |s| then Suffix(s[n]) else 1;
    var v := Value(s[..n]);
    if v > MAX_INT64 then Bad else Got(Number, "", Wrap64(v * suffix), if suffix > 1 then n + 1 else n)
  }

  function WordAt(s: string): (l: Lexeme)
    requires s != "" && IsIdentStart(s[0])
    ensures !l.Bad? ==> 0 < l.length <= |s|
  {
    var n := WordLength(s);
    if s[..n] == "text" && n < |s| && s[n] == ':' then FromScan(Multiline(s[n + 1..]), n + 1)
    else Got(Ident, s[..n], 0, n)
  }

  function Head(s: string): (l: Lexeme)
    requires s != ""
    ensures !l.Bad? ==> 0 < l.length <= |s|
  {
    var c := s[0];
    if c == '\n' || c == ' ' || c == '\t' || c == '\r' then Skip(1)
    else if c == '#' then Skip(LineLength(s))
    else if c == '/' && |s| > 1 && s[1] == '*' then
      match FindClose(s[2..])
      case None => Bad
      case At(j) => Skip(j + 4)
    else if IsMark(c) then Got(MarkKind(c), "", 0, 1)
    else if c == '"' then FromScan(QuotedTail(s[1..]), 1)
    else if c == ':' && |s| > 1 && IsIdentStart(s[1]) then
      var n := WordLength(s[1..]);
      Got(Tag, s[1..n + 1], 0, n + 1)
    else if IsIdentStart(c) then WordAt(s)
    else if IsDigit(c) then NumberAt(s)
    else Bad
  }

  /** The whole text, one lexeme after the other. */
  function Lex(s: string, line: nat): Result<seq<Token>>
    decreases |s|
  {
    if s == "" then Ok([Token(Eof, "", 0, line)]) else
    match Head(s)
    case Bad => Err(line)
    case Skip(n) => Lex(s[n..], line + Newlines(s[..n]))
    case Got(kind, val, num, n) =>
      match Lex(s[n..], line + Newlines(s[..n]))
      case Err(l) => Err(l)
      case Ok(rest) => Ok([Token(kind, val, num, line)] + rest)
  }

  // ---- the tokenizer --------------------------------------------------------------------------

  method ReadQuoted(src: string) returns (r: Scanned)
    requires src != "" && src[0] == '"'
    ensures r == match QuotedTail(src[1..]) case Unterminated => Unterminated case Scan(v, n) => Scan(v, n + 1)
  {
    var b := "";
    var i := 1;
    ghost var want := QuotedTail(src[1..]);
    while i < |src|
      invariant 1 <= i <= |src|
      invariant want
        == match QuotedTail(src[i..]) case Unterminated => Unterminated case Scan(v, n) => Scan(b + v, i - 1 + n)
    {
      var c := src[i];
      if c == '"' {
        assert QuotedTail(src[i..]) == Scan("", 1);
        assert b + "" == b;
        return Scan(b, i + 1);
      } else if c == '\\' {
        if i + 1 >= |src| {
          assert QuotedTail(src[i..]) == Unterminated;
          return Unterminated;
        }
        Unescape(src, i, b);
        b := b + [src[i + 1]];
        i := i + 2;
      } else {
        Literally(src, i, b);
        b := b + [c];
        i := i + 1;
      }
    }
    assert src[i..] == "";
    r := Unterminated;
  }

  lemma {:induction false} Unescape(src: string, i: nat, b: string)
    requires i + 1 < |src| && src[i] == '\\'
    ensures QuotedTail(src[i..]).Unterminated? <==> QuotedTail(src[i + 2..]).Unterminated?
    ensures QuotedTail(src[i..]).Scan? ==>
      b + QuotedTail(src[i..]).val == b + [src[i + 1]] + QuotedTail(src[i + 2..]).val
      && QuotedTail(src[i..]).length == QuotedTail(src[i + 2..]).length + 2
  {
    assert src[i..][0] == '\\' && src[i..][1] == src[i + 1] && src[i..][2..] == src[i + 2..];
  }

  lemma {:induction false} Literally(src: string, i: nat, b: string)
    requires i < |src| && src[i] != '\\' && src[i] != '"'
    ensures QuotedTail(src[i..]).Unterminated? <==> QuotedTail(src[i + 1..]).Unterminated?
    ensures QuotedTail(src[i..]).Scan? ==>
      b + QuotedTail(src[i..]).val == b + [src[i]] + QuotedTail(src[i + 1..]).val
      && QuotedTail(src[i..]).length == QuotedTail(src[i + 1..]).length + 1
  {
    assert src[i..][0] == src[i] && src[i..][1..] == src[i + 1..];
  }

  method ReadMultiline(src: string) returns (r: Scanned)
    ensures r == Multiline(src)
  {
    var i := EndOfLine(src, 0);
    assert src[0..] == src;
    if i >= |src| { return Unterminated; }
    r := ReadLines(src, i + 1);
  }

  /** The loop over the lines of the block. */
  method ReadLines(src: string, start: nat) returns (r: Scanned)
    ensures r == MultilineFrom(src, start, start)
  {
    var i := start;
    ghost var want := MultilineFrom(src, start, start);
    while i < |src|
      invariant start <= i && MultilineFrom(src, start, i) == want
      decreases |src| - i
    {
      var end := EndOfLine(src, i);
      NextLine(src, start, i, end);
      if TrimRight(src[i..end], '\r') == "." {
        return Scan(TrimRight(src[start..i], '\n'), end);
      }
      i := end + 1;
    }
    r := Unterminated;
  }

  lemma {:induction false} NextLine(s: string, start: nat, i: nat, end: nat)
    requires start <= i < |s| && end == i + LineLength(s[i..])
    ensures MultilineFrom(s, start, i) ==
      if TrimRight(s[i..end], '\r') == "." then Scan(TrimRight(s[start..i], '\n'), end)
      else MultilineFrom(s, start, end + 1)
  {
  }

  /** The token is what stands at position i. */
  ghost predicate StandsAt(src: string, t: Token, i: nat) {
    && i <= |src| && t.line == 1 + Newlines(src[..i])
    && (if i == |src| then t.kind == Eof else exists n :: Head(src[i..]) == Got(t.kind, t.val, t.num, n))
  }

  /** Every token stands where its text starts, and its line is one more than the newlines before. */
  ghost predicate Placed(src: string, toks: seq<Token>, starts: seq<nat>) {
    && |starts| == |toks|
    && (forall k :: 0 <= k < |toks| ==> StandsAt(src, toks[k], starts[k]))
    && (forall k :: 0 <= k < |toks| - 1 ==> starts[k] < starts[k + 1])
  }

  lemma {:induction false} PlacedMore(src: string, toks: seq<Token>, starts: seq<nat>, t: Token, i: nat)
    requires Placed(src, toks, starts) && StandsAt(src, t, i)
    requires forall k :: 0 <= k < |starts| ==> starts[k] < i
    ensures Placed(src, toks + [t], starts + [i])
  {
  }

  // The scanning loops of the source, each from position i.

  method EndOfLine(src: string, i: nat) returns (j: nat)
    requires i <= |src|
    ensures j == i + LineLength(src[i..]) && forall x :: i <= x < j ==> src[x] != '\n'
  {
    j := i;
    while j < |src| && src[j] != '\n'
      invariant i <= j <= |src| && j + LineLength(src[j..]) == i + LineLength(src[i..])
      invariant forall x :: i <= x < j ==> src[x] != '\n'
    {
      assert src[j..][1..] == src[j + 1..];
      j := j + 1;
    }
  }

  method EndOfWord(src: string, i: nat) returns (j: nat)
    requires i <= |src|
    ensures j == i + WordLength(src[i..]) && forall x :: i <= x < j ==> IsIdentCont(src[x])
  {
    j := i;
    while j < |src| && IsIdentCont(src[j])
      invariant i <= j <= |src| && j + WordLength(src[j..]) == i + WordLength(src[i..])
      invariant forall x :: i <= x < j ==> IsIdentCont(src[x])
    {
      assert src[j..][1..] == src[j + 1..];
      j := j + 1;
    }
  }

  method EndOfDigits(src: string, i: nat) returns (j: nat)
    requires i <= |src|
    ensures j == i + DigitLength(src[i..]) && forall x :: i <= x < j ==> IsDigit(src[x])
  {
    j := i;
    while j < |src| && IsDigit(src[j])
      invariant i <= j <= |src| && j + DigitLength(src[j..]) == i + DigitLength(src[i..])
      invariant forall x :: i <= x < j ==> IsDigit(src[x])
    {
      assert src[j..][1..] == src[j + 1..];
      j := j + 1;
    }
  }

  /** Text without a newline of its own in front adds nothing to the count. */
  lemma {:induction false} NewlinesFrom(src: string, i: nat, j: nat, k: nat)
    requires i <= j <= k <= |src| && forall x :: i <= x < j ==> src[x] != '\n'
    ensures Newlines(src[i..k]) == Newlines(src[j..k])
  {
    assert src[i..k] == src[i..j] + src[j..k];
    NewlinesConcat(src[i..j], src[j..k]);
    NoNewlines(src[i..j]);
  }

  /** The same at the end. */
  lemma {:induction false} NewlinesUntil(src: string, i: nat, j: nat, k: nat)
    requires i <= j <= k <= |src| && forall x :: j <= x < k ==> src[x] != '\n'
    ensures Newlines(src[i..k]) == Newlines(src[i..j])
  {
    assert src[i..k] == src[i..j] + src[j..k];
    NewlinesConcat(src[i..j], src[j..k]);
    NoNewlines(src[j..k]);
  }

  /** The lexeme at position i, and the number of lines it spans. */
  ghost predicate Spans(src: string, i: nat, l: Lexeme, lines: nat) {
    && i < |src| && l == Head(src[i..])
    && (!l.Bad? ==> i + l.length <= |src| && lines == Newlines(src[i..i + l.length]))
  }

  /** The lines a lexeme spans are counted only inside a text: block. */
  method WordToken(src: string, i: nat) returns (l: Lexeme, lines: nat)
    requires i < |src| && IsIdentStart(src[i])
    ensures Spans(src, i, l, lines)
  {
    var j := EndOfWord(src, i);
    L.Slices(src, i, j);
    var id := src[i..j];
    HeadIsWord(src[i..]);
    WordAtIs(src[i..], j - i, id);
    if id == "text" && j < |src| && src[j] == ':' {
      l, lines := TextToken(src, i, j);
      return;
    }
    NewlinesFrom(src, i, j, j);
    l, lines := Got(Ident, id, 0, j - i), 0;
  }

  lemma {:induction false} HeadIsWord(s: string)
    requires s != "" && IsIdentStart(s[0])
    ensures Head(s) == WordAt(s)
  {
  }

  lemma {:induction false} WordAtIs(s: string, n: nat, id: string)
    requires s != "" && IsIdentStart(s[0]) && n == WordLength(s) && id == s[..n]
    ensures WordAt(s) == if id == "text" && n < |s| && s[n] == ':' then FromScan(Multiline(s[n + 1..]), n + 1)
                         else Got(Ident, id, 0, n)
  {
  }

  /** A text: block, its colon at j. */
  method TextToken(src: string, i: nat, j: nat) returns (l: Lexeme, lines: nat)
    requires i <= j < |src| && src[j] == ':' && forall x :: i <= x < j ==> src[x] != '\n'
    ensures l == FromScan(Multiline(src[j + 1..]), j - i + 1)
    ensures !l.Bad? ==> i + l.length <= |src| && lines == Newlines(src[i..i + l.length])
  {
    var body := ReadMultiline(src[j + 1..]);
    if body.Unterminated? { return Bad, 0; }
    var end := j + 1 + body.length;
    NewlinesFrom(src, i, j + 1, end);
    return FromScan(body, j - i + 1), Newlines(src[j + 1..end]);
  }

  method NumberToken(src: string, i: nat) returns (l: Lexeme)
    requires i < |src| && IsDigit(src[i])
    ensures Spans(src, i, l, 0)
  {
    var j := EndOfDigits(src, i);
    L.Slices(src, i, j);
    var suffix := if j < |src| then Suffix(src[j]) else 1;
    var n := Value(src[i..j]);
    NumberAtIs(src[i..], j - i, suffix, n);
    if n > MAX_INT64 { return Bad; }
    l := Got(Number, "", Wrap64(n * suffix), if suffix > 1 then j - i + 1 else j - i);
    NewlinesFrom(src, i, i + l.length, i + l.length);
  }

  lemma {:induction false} NumberAtIs(s: string, n: nat, suffix: int, v: nat)
    requires s != "" && IsDigit(s[0]) && n == DigitLength(s) && v == Value(s[..n])
    requires suffix == if n < |s| then Suffix(s[n]) else 1
    ensures Head(s) == if v > MAX_INT64 then Bad
                       else Got(Number, "", Wrap64(v * suffix), if suffix > 1 then n + 1 else n)
  {
  }

  /** One turn of the tokenizer's switch, at position i. `lines` is what the branch adds to the line
      counter: each branch counts in its own way, or not at all. */
  method NextLexeme(src: string, i: nat) returns (l: Lexeme, lines: nat)
    requires i < |src|
    ensures Spans(src, i, l, lines)
  {
    var c := src[i];
    if c == '\n' || c == ' ' || c == '\t' || c == '\r' || c == '#' || IsMark(c) {
      l, lines := PlainLexeme(src, i);
    } else if c == '/' && i + 1 < |src| && src[i + 1] == '*' {
      l, lines := CommentToken(src, i);
    } else if c == '"' {
      l, lines := QuotedToken(src, i);
    } else if c == ':' && i + 1 < |src| && IsIdentStart(src[i + 1]) {
      l := TagToken(src, i);
      lines := 0;
    } else if IsIdentStart(c) {
      l, lines := WordToken(src, i);
    } else if IsDigit(c) {
      l := NumberToken(src, i);
      lines := 0;
    } else {
      assert src[i..][0] == c && (i + 1 < |src| ==> src[i..][1] == src[i + 1]);
      l, lines := Bad, 0;
    }
  }

  /** White space, a comment to the end of the line, a mark: only the newline itself counts. */
  method PlainLexeme(src: string, i: nat) returns (l: Lexeme, lines: nat)
    requires i < |src| && (src[i] in "\n \t\r#" || IsMark(src[i]))
    ensures Spans(src, i, l, lines)
  {
    var c := src[i];
    assert src[i..][0] == c;
    if c == '\n' {
      assert src[i..i + 1] == "\n";
      return Skip(1), 1;
    } else if c == '#' {
      var j := EndOfLine(src, i);
      NewlinesFrom(src, i, j, j);
      return Skip(j - i), 0;
    }
    NewlinesFrom(src, i, i + 1, i + 1);
    if IsMark(c) { return Got(MarkKind(c), "", 0, 1), 0; }
    return Skip(1), 0;
  }

  method QuotedToken(src: string, i: nat) returns (l: Lexeme, lines: nat)
    requires i < |src| && src[i] == '"'
    ensures Spans(src, i, l, lines)
  {
    var s := ReadQuoted(src[i..]);
    HeadIsQuoted(src[i..]);
    if s.Unterminated? { return Bad, 0; }
    return Got(Str, s.val, 0, s.length), Newlines(src[i..i + s.length]);
  }

  lemma {:induction false} HeadIsQuoted(s: string)
    requires s != "" && s[0] == '"'
    ensures Head(s) == FromScan(QuotedTail(s[1..]), 1)
  {
  }

  /** Newlines are counted up to, not through, the closing mark. */
  method CommentToken(src: string, i: nat) returns (l: Lexeme, lines: nat)
    requires i + 1 < |src| && src[i] == '/' && src[i + 1] == '*'
    ensures Spans(src, i, l, lines)
  {
    assert src[i..][0] == '/' && src[i..][1] == '*' && src[i..][2..] == src[i + 2..];
    var j := FindClose(src[i + 2..]);
    if j.None? { return Bad, 0; }
    var close := i + 2 + j.index;
    assert src[close] == '*' && src[close + 1] == '/';
    NewlinesUntil(src, i, close, close + 2);
    return Skip(j.index + 4), Newlines(src[i..close]);
  }

  method TagToken(src: string, i: nat) returns (l: Lexeme)
    requires i + 1 < |src| && src[i] == ':' && IsIdentStart(src[i + 1])
    ensures Spans(src, i, l, 0)
  {
    assert src[i..][0] == ':' && src[i..][1] == src[i + 1] && src[i..][1..] == src[i + 1..];
    var j := EndOfWord(src, i + 1);
    assert src[i..][1..j - i] == src[i + 1..j];
    NewlinesFrom(src, i, j, j);
    l := Got(Tag, src[i + 1..j], 0, j - i);
  }

  /** `out` in front of what is still to come. */
  function Before(out: seq<Token>, r: Result<seq<Token>>): Result<seq<Token>> {
    match r
    case Err(l) => Err(l)
    case Ok(rest) => Ok(out + rest)
  }

  lemma {:induction false} BeforeNothing(r: Result<seq<Token>>)
    ensures Before([], r) == r
  {
    if r.Ok? { assert [] + r.value == r.value; }
  }

  lemma {:induction false} LexSkip(s: string, line: nat, n: nat, after: string, next: nat)
    requires s != "" && Head(s) == Skip(n) && s[n..] == after && next == line + Newlines(s[..n])
    ensures Lex(s, line) == Lex(after, next)
  {
  }

  lemma LexGot(s: string, line: nat, kind: Kind, val: string, num: int, n: nat, after: string, next: nat)
    requires s != "" && Head(s) == Got(kind, val, num, n) && s[n..] == after && next == line + Newlines(s[..n])
    ensures Lex(s, line) == Before([Token(kind, val, num, line)], Lex(after, next))
  {
  }

  /** A token list ends in its only end-of-file mark. */
  predicate EndsInEof(toks: seq<Token>) {
    toks != [] && toks[|toks| - 1].kind == Eof && forall i :: 0 <= i < |toks| - 1 ==> toks[i].kind != Eof
  }

  /** So does whatever is read. */
  lemma {:induction false} LexEndsInEof(s: string, line: nat)
    ensures Lex(s, line).Ok? ==> EndsInEof(Lex(s, line).value)
    decreases |s|
  {
    if s != "" && !Head(s).Bad? {
      var h := Head(s);
      var after, next := s[h.length..], line + Newlines(s[..h.length]);
      LexEndsInEof(after, next);
      if h.Skip? {
        LexSkip(s, line, h.length, after, next);
      } else {
        LexGot(s, line, h.kind, h.val, h.num, h.length, after, next);
        HeadIsNotEof(s);
        EofLast(Token(h.kind, h.val, h.num, line), Lex(after, next));
      }
    }
  }

  lemma {:induction false} HeadIsNotEof(s: string)
    requires s != ""
    ensures Head(s).Got? ==> Head(s).kind != Eof
  {
  }

  lemma {:induction false} EofLast(t: Token, r: Result<seq<Token>>)
    requires t.kind != Eof && (r.Ok? ==> EndsInEof(r.value))
    ensures Before([t], r).Ok? ==> EndsInEof(Before([t], r).value)
  {
  }

  lemma {:induction false} BeforeBefore(out: seq<Token>, t: Token, r: Result<seq<Token>>)
    ensures Before(out, Before([t], r)) == Before(out + [t], r)
  {
    if r.Ok? { L.Assoc(out, [t], r.value); }
  }

  /** `out` is the reference `want` up to what is `left` to read. */
  ghost predicate Agrees(want: Result<seq<Token>>, out: seq<Token>, left: string, line: nat) {
    want == Before(out, Lex(left, line))
  }

  ghost predicate AtPosition(src: string, i: nat, left: string, line: nat) {
    i <= |src| && left == src[i..] && line == 1 + Newlines(src[..i])
  }

  /** Every token so far stands before position i. */
  ghost predicate PlacedBefore(src: string, out: seq<Token>, starts: seq<nat>, i: nat) {
    Placed(src, out, starts) && forall k :: 0 <= k < |starts| ==> starts[k] < i
  }

  lemma {:induction false} AgreesAtFirst(src: string)
    ensures Agrees(Lex(src, 1), [], src, 1) && AtPosition(src, 0, src, 1)
  {
    assert src[0..] == src;
    BeforeNothing(Lex(src, 1));
  }

  lemma {:induction false} SkipAgrees(want: Result<seq<Token>>, out: seq<Token>, s: string, line: nat, n: nat,
                                      after: string, next: nat)
    requires Agrees(want, out, s, line)
    requires s != "" && Head(s) == Skip(n) && s[n..] == after && next == line + Newlines(s[..n])
    ensures Agrees(want, out, after, next)
  {
    LexSkip(s, line, n, after, next);
  }

  lemma {:induction false} GotAgrees(want: Result<seq<Token>>, out: seq<Token>, s: string, t: Token, n: nat,
                                     after: string, next: nat)
    requires Agrees(want, out, s, t.line)
    requires s != "" && Head(s) == Got(t.kind, t.val, t.num, n) && s[n..] == after && next == t.line + Newlines(s[..n])
    ensures Agrees(want, out + [t], after, next)
  {
    LexGot(s, t.line, t.kind, t.val, t.num, n, after, next);
    BeforeBefore(out, t, Lex(after, next));
  }

  lemma {:induction false} BadAgrees(want: Result<seq<Token>>, out: seq<Token>, s: string, line: nat)
    requires Agrees(want, out, s, line) && s != "" && Head(s).Bad?
    ensures want == Err(line)
  {
  }

  lemma {:induction false} EndAgrees(want: Result<seq<Token>>, out: seq<Token>, line: nat)
    requires Agrees(want, out, "", line)
    ensures want == Ok(out + [Token(Eof, "", 0, line)])
  {
  }

  lemma {:induction false} Advanced(src: string, i: nat, left: string, line: nat, n: nat, lines: nat)
    requires AtPosition(src, i, left, line) && i + n <= |src| && lines == Newlines(src[i..i + n])
    ensures n <= |left| && AtPosition(src, i + n, left[n..], line + lines) && lines == Newlines(left[..n])
  {
    L.DropDrop(src, i, n);
    assert src[..i + n] == src[..i] + src[i..i + n];
    NewlinesConcat(src[..i], src[i..i + n]);
  }

  /** One turn of the loop. `left` is the text from i on. */
  method Turn(ghost want: Result<seq<Token>>, src: string, out: seq<Token>, ghost starts: seq<nat>, i: nat,
              ghost left: string, line: nat)
    returns (ok: bool, out': seq<Token>, ghost starts': seq<nat>, i': nat, ghost left': string, line': nat)
    requires Agrees(want, out, left, line) && AtPosition(src, i, left, line)
    requires PlacedBefore(src, out, starts, i) && i < |src|
    ensures !ok ==> want == Err(line)
    ensures ok ==> i < i' && Agrees(want, out', left', line') && AtPosition(src, i', left', line')
    ensures ok ==> PlacedBefore(src, out', starts', i')
  {
    ok, out', starts', i', left', line' := true, out, starts, i, left, line;
    var head, lines := NextLexeme(src, i);
    if head.Bad? {
      BadAgrees(want, out, left, line);
      ok := false;
      return;
    }
    Advanced(src, i, left, line, head.length, lines);
    i', left', line' := i + head.length, left[head.length..], line + lines;
    if head.Got? {
      var t := Token(head.kind, head.val, head.num, line);
      GotAgrees(want, out, left, t, head.length, left', line');
      TokenPlaced(src, out, starts, t, i, left, head.length);
      out', starts' := out + [t], starts + [i];
    } else {
      SkipAgrees(want, out, left, line, head.length, left', line');
    }
  }

  lemma {:induction false} TokenPlaced(src: string, out: seq<Token>, starts: seq<nat>, t: Token, i: nat, left: string,
                                       n: nat)
    requires PlacedBefore(src, out, starts, i) && i < |src|
    requires AtPosition(src, i, left, t.line) && Head(left) == Got(t.kind, t.val, t.num, n)
    ensures 0 < n && PlacedBefore(src, out + [t], starts + [i], i + n)
  {
    assert StandsAt(src, t, i);
    PlacedMore(src, out, starts, t, i);
  }

  /** The pass itself: terminates, agrees with the reference, and numbers the lines rightly. */
  method Tokenize(src: string) returns (r: Result<seq<Token>>, ghost starts: seq<nat>)
    ensures r == Lex(src, 1)
    ensures r.Ok? ==> Placed(src, r.value, starts)
  {
    var out: seq<Token> := [];
    starts := [];
    var line: nat, i: nat := 1, 0;
    ghost var want, left := Lex(src, 1), src;
    AgreesAtFirst(src);
    while i < |src|
      invariant i <= |src| && Agrees(want, out, left, line) && AtPosition(src, i, left, line)
      invariant PlacedBefore(src, out, starts, i)
    {
      var ok: bool;
      var at := line;
      ok, out, starts, i, left, line := Turn(want, src, out, starts, i, left, line);
      if !ok { return Err(at), starts; }
    }
    EndAgrees(want, out, line);
    PlacedMore(src, out, starts, Token(Eof, "", 0, line), i);
    r, starts := Ok(out + [Token(Eof, "", 0, line)]), starts + [i];
  }
}
