/** Header and body text as the ARC sealer reads and writes it (sections 3.4.2 and 3.4.4 of RFC 6376). */
module ArcText {
  import opened Ascii
  import L = Lists

  predicate IsWsp(c: char) {
    c == ' ' || c == '\t'
  }

  const CRLF := "\r\n"

  // ---- canonical form -------------------------------------------------------------------------

  /** A line break before white space becomes a space. */
  function Unfold(s: string): string {
    if s == "" then ""
    else if s[0] == '\r' && |s| > 2 && s[1] == '\n' && IsWsp(s[2]) then " " + Unfold(s[3..])
    else if s[0] == '\n' && |s| > 1 && IsWsp(s[1]) then " " + Unfold(s[1..])
    else [s[0]] + Unfold(s[1..])
  }

  /** Runs of white space become one space; `prev` says whether one is under way. */
  function Collapse(s: string, prev: bool): string {
    if s == "" then ""
    else if IsWsp(s[0]) then (if prev then "" else " ") + Collapse(s[1..], true)
    else [s[0]] + Collapse(s[1..], false)
  }

  function TrimWspRight(s: string): string {
    if s != "" && IsWsp(s[|s| - 1]) then TrimWspRight(s[..|s| - 1]) else s
  }

  function TrimWspLeft(s: string): string {
    if s != "" && IsWsp(s[0]) then TrimWspLeft(s[1..]) else s
  }

  /** White space to strings.TrimSpace and strings.Fields, on single bytes. */
  predicate IsSpace(c: char) {
    c in " \t\n\r\U{b}\U{c}\U{85}\U{a0}"
  }

  function SkipSpace(s: string): string {
    if s != "" && IsSpace(s[0]) then SkipSpace(s[1..]) else s
  }

  function SkipSpaceEnd(s: string): string {
    if s != "" && IsSpace(s[|s| - 1]) then SkipSpaceEnd(s[..|s| - 1]) else s
  }

  function TrimSpace(s: string): string {
    SkipSpaceEnd(SkipSpace(s))
  }

  function CanonicalValue(value: string): string {
    TrimWspLeft(TrimWspRight(Collapse(Unfold(value), false)))
  }

  function CanonicalHeader(name: string, value: string): string {
    Lower(TrimSpace(name)) + ":" + CanonicalValue(value) + CRLF
  }

  // ---- lines ----------------------------------------------------------------------------------

  /** bytes.Split on CRLF. */
  function SplitLines(s: string): (lines: seq<string>)
    ensures lines != []
  {
    if s == "" then [""]
    else if |s| > 1 && s[0] == '\r' && s[1] == '\n' then [""] + SplitLines(s[2..])
    else var more := SplitLines(s[1..]);
      [[s[0]] + more[0]] + more[1..]
  }

  predicate Continues(line: string) {
    line != "" && IsWsp(line[0])
  }

  function Emit(cur: string): seq<string> {
    if cur == "" then [] else [Unfold(cur)]
  }

  /** One entry per logical field: continuation lines are joined onto their owner. */
  function Gather(lines: seq<string>, cur: string): seq<string> {
    if lines == [] then Emit(cur)
    else if lines[0] == "" then Gather(lines[1..], cur)
    else if Continues(lines[0]) then Gather(lines[1..], cur + "\n" + lines[0])
    else Emit(cur) + Gather(lines[1..], lines[0])
  }

  function SplitHeaders(headers: string): seq<string> {
    Gather(SplitLines(headers), "")
  }

  datatype Found = Nowhere | At(index: nat)

  predicate StartsBlank(s: string) {
    |s| >= 4 && s[0] == '\r' && s[1] == '\n' && s[2] == '\r' && s[3] == '\n'
  }

  /** The first blank line. */
  function FindBlank(s: string): (r: Found)
    ensures r.At? ==> r.index + 4 <= |s|
  {
    if |s| < 4 then Nowhere
    else if StartsBlank(s) then At(0)
    else match FindBlank(s[1..])
      case Nowhere => Nowhere
      case At(i) => At(i + 1)
  }

  /** Header block and body; the blank line between them belongs to neither. */
  function SplitMessage(raw: string): (string, string) {
    match FindBlank(raw)
    case Nowhere => (raw, "")
    case At(i) => (raw[..i + 2], raw[i + 4..])
  }

  // ---- the body -------------------------------------------------------------------------------

  function CanonicalLine(line: string): string {
    TrimWspRight(Collapse(line, false))
  }

  function CanonicalLines(lines: seq<string>): seq<string> {
    seq(|lines|, i requires 0 <= i < |lines| => CanonicalLine(lines[i]))
  }

  function DropEmpty(lines: seq<string>): seq<string> {
    if lines != [] && lines[|lines| - 1] == "" then DropEmpty(lines[..|lines| - 1]) else lines
  }

  function EndLines(lines: seq<string>): string {
    if lines == [] then "" else lines[0] + CRLF + EndLines(lines[1..])
  }

  function CanonicalBody(body: string): string {
    var lines := DropEmpty(CanonicalLines(SplitLines(body)));
    if lines == [] then CRLF else EndLines(lines)
  }

  // ---- folding --------------------------------------------------------------------------------

  const LIMIT := 76

  /** Behind a semicolon and the space after it. */
  function AfterFold(h: string): string
    requires |h| > 1
  {
    if h[1] == ' ' then h[2..] else h[1..]
  }

  /** Past the limit, what follows a semicolon goes to a new line: `sep` replaces the space. */
  function Fold(h: string, col: nat, sep: string): string
    decreases |h|
  {
    if h == "" then ""
    else if h[0] == ';' && col > LIMIT && |h| > 1 then
      ";" + sep + Fold(AfterFold(h), 1, sep)
    else [h[0]] + Fold(h[1..], if h[0] == '\n' then 0 else col + 1, sep)
  }

  /** What is sent. */
  function FoldHeader(h: string): string {
    Fold(h, 0, "\r\n\t")
  }

  /** What the reader of the sent text gets back. */
  function Refolded(h: string): string {
    Fold(h, 0, " \t")
  }

  /** No line breaks. */
  predicate Flat(s: string) {
    '\r' !in s && '\n' !in s
  }

  /** Every semicolon is last or followed by white space. */
  predicate Spaced(h: string) {
    forall i :: 0 <= i < |h| - 1 && h[i] == ';' ==> IsWsp(h[i + 1])
  }

  lemma {:induction false} CollapseCons(c: char, more: string, prev: bool)
    ensures Collapse([c] + more, prev)
      == (if !IsWsp(c) then [c] else if prev then "" else " ") + Collapse(more, IsWsp(c))
  {
    assert ([c] + more)[1..] == more;
  }

  lemma {:induction false} FoldStep(more: string, prev: bool)
    ensures Collapse(";" + " \t" + more, prev) == "; " + Collapse(more, true)
  {
    assert ";" + " \t" + more == [';'] + ([' '] + (['\t'] + more));
    CollapseCons(';', [' '] + (['\t'] + more), prev);
    CollapseCons(' ', ['\t'] + more, false);
    CollapseCons('\t', more, true);
    assert [';'] + (" " + ("" + Collapse(more, true))) == "; " + Collapse(more, true);
  }

  lemma {:induction false} SpaceStep(h: string, prev: bool)
    requires |h| > 1 && h[0] == ';' && IsWsp(h[1])
    ensures Collapse(h, prev) == "; " + Collapse(AfterFold(h), true)
  {
    assert h == [';'] + ([h[1]] + h[2..]) && h[1..] == [h[1]] + h[2..];
    SpaceCollapses(h[1], h[2..], prev);
  }

  lemma {:induction false} SpaceCollapses(w: char, t: string, prev: bool)
    requires IsWsp(w)
    ensures Collapse([';'] + ([w] + t), prev) == "; " + Collapse(t, true)
      && Collapse([w] + t, true) == Collapse(t, true)
  {
    CollapseCons(';', [w] + t, prev);
    CollapseCons(w, t, false);
    CollapseCons(w, t, true);
    SemiSpace(Collapse(t, true));
  }

  lemma {:induction false} SemiSpace(more: string)
    ensures "" + more == more && [';'] + (" " + more) == "; " + more
  {
  }

  lemma SpacedSuffix(h: string, n: nat)
    requires Spaced(h) && n <= |h|
    ensures Spaced(h[n..])
  {
    forall i | 0 <= i < |h[n..]| - 1 && h[n..][i] == ';' ensures IsWsp(h[n..][i + 1]) {
      assert h[i + n] == ';';
    }
  }

  /** The column reached behind a text. */
  function FoldCol(h: string, col: nat): nat
    decreases |h|
  {
    if h == "" then col
    else if h[0] == ';' && col > LIMIT && |h| > 1 then FoldCol(AfterFold(h), 1)
    else FoldCol(h[1..], if h[0] == '\n' then 0 else col + 1)
  }

  /** Folding goes through text in pieces, unless one ends at a semicolon. */
  lemma {:induction false} FoldConcat(a: string, b: string, col: nat, sep: string)
    requires a == "" || a[|a| - 1] != ';'
    ensures Fold(a + b, col, sep) == Fold(a, col, sep) + Fold(b, FoldCol(a, col), sep)
    decreases |a|
  {
    var ab := a + b;
    if a == "" {
      assert ab == b;
    } else if a[0] == ';' && col > LIMIT && |a| > 1 {
      var t := AfterFold(a);
      assert AfterFold(ab) == t + b;
      FoldConcat(t, b, 1, sep);
      FoldAssoc(sep, Fold(t, 1, sep), Fold(b, FoldCol(t, 1), sep));
    } else {
      assert ab[1..] == a[1..] + b;
      FoldConcat(a[1..], b, if a[0] == '\n' then 0 else col + 1, sep);
    }
  }

  lemma FoldAssoc(sep: string, a: string, b: string)
    ensures ";" + sep + (a + b) == ";" + sep + a + b
  {
  }

  /** Text without semicolons is left alone. */
  lemma {:induction false} FoldPlain(a: string, col: nat, sep: string)
    requires ';' !in a
    ensures Fold(a, col, sep) == a
  {
    if a != "" {
      FoldPlain(a[1..], if a[0] == '\n' then 0 else col + 1, sep);
      assert a == [a[0]] + a[1..];
    }
  }

  lemma FoldStart(a: string, b: string, col: nat, sep: string) returns (next: nat)
    requires ';' !in a
    ensures Fold(a + b, col, sep) == a + Fold(b, next, sep)
  {
    next := FoldCol(a, col);
    FoldConcat(a, b, col, sep);
    FoldPlain(a, col, sep);
  }

  lemma {:induction false} FoldFlat(h: string, col: nat)
    requires Flat(h)
    ensures Flat(Fold(h, col, " \t"))
    decreases |h|
  {
    if h == "" {
    } else if h[0] == ';' && col > LIMIT && |h| > 1 {
      FoldFlat(AfterFold(h), 1);
    } else {
      FoldFlat(h[1..], col + 1);
    }
  }

  lemma {:induction false} UnfoldFlat(s: string)
    requires Flat(s)
    ensures Unfold(s) == s
  {
    if s != "" {
      UnfoldFlat(s[1..]);
      assert s == [s[0]] + s[1..];
    }
  }

  // ---- reading a folded header back -----------------------------------------------------------

  lemma {:induction false} UnfoldCons(c: char, more: string)
    requires c != '\r' && c != '\n'
    ensures Unfold([c] + more) == [c] + Unfold(more)
  {
    assert ([c] + more)[1..] == more;
  }

  lemma {:induction false} UnfoldBreak(more: string)
    ensures Unfold(";" + "\n\t" + more) == ";" + " \t" + Unfold(more)
  {
    var s := ['\n'] + (['\t'] + more);
    assert ";" + "\n\t" + more == [';'] + s;
    UnfoldCons(';', s);
    assert s[1..] == ['\t'] + more && s[1] == '\t';
    UnfoldCons('\t', more);
    assert [';'] + (" " + (['\t'] + Unfold(more))) == ";" + " \t" + Unfold(more);
  }

  lemma {:induction false} UnfoldFolded(h: string, col: nat)
    requires Flat(h)
    ensures Unfold(Fold(h, col, "\n\t")) == Fold(h, col, " \t")
    decreases |h|
  {
    if h == "" {
    } else if h[0] == ';' && col > LIMIT && |h| > 1 {
      var t := AfterFold(h);
      UnfoldFolded(t, 1);
      UnfoldBreak(Fold(t, 1, "\n\t"));
    } else {
      UnfoldFolded(h[1..], col + 1);
      UnfoldCons(h[0], Fold(h[1..], col + 1, "\n\t"));
    }
  }

  /** Lines of one field, glued as SplitHeaders glues them. */
  function Glue(lines: seq<string>): string
    requires lines != []
  {
    if |lines| == 1 then lines[0] else lines[0] + "\n" + Glue(lines[1..])
  }

  ghost predicate Folds(lines: seq<string>) {
    lines != [] && forall i :: 1 <= i < |lines| ==> Continues(lines[i])
  }

  lemma {:induction false} SplitCons(c: char, s: string)
    requires c != '\r'
    ensures SplitLines([c] + s) == [[c] + SplitLines(s)[0]] + SplitLines(s)[1..]
  {
    assert ([c] + s)[1..] == s;
  }

  lemma {:induction false} SplitBreak(s: string)
    ensures SplitLines(CRLF + s) == [""] + SplitLines(s)
  {
    assert (CRLF + s)[2..] == s;
  }

  lemma {:induction false} GlueCons(c: char, lines: seq<string>)
    requires Folds(lines)
    ensures Folds([[c] + lines[0]] + lines[1..]) && Glue([[c] + lines[0]] + lines[1..]) == [c] + Glue(lines)
  {
    var first, rest := [c] + lines[0], lines[1..];
    L.HeadTail(first, rest);
    var longer := [first] + rest;
    forall i | 1 <= i < |longer| ensures Continues(longer[i]) {
      assert longer[i] == lines[i];
    }
    if |lines| > 1 {
      L.Assoc([c], lines[0], "\n");
      L.Assoc([c], lines[0] + "\n", Glue(rest));
    }
  }

  lemma {:induction false} GlueTab(lines: seq<string>)
    requires Folds(lines)
    ensures var all := [";"] + ([['\t'] + lines[0]] + lines[1..]);
            Folds(all) && Glue(all) == ";" + "\n\t" + Glue(lines)
  {
    GlueCons('\t', lines);
    var rest := [['\t'] + lines[0]] + lines[1..];
    var all := [";"] + rest;
    assert all[1..] == rest;
    forall i | 1 <= i < |all| ensures Continues(all[i]) {
      assert all[i] == rest[i - 1];
    }
    assert Glue(all) == ";" + "\n" + Glue(rest);
    assert ";" + "\n" + (['\t'] + Glue(lines)) == ";" + "\n\t" + Glue(lines);
  }

  /** The lines of a folded header. */
  lemma {:induction false} SplitFolded(h: string, col: nat, rest: string) returns (lines: seq<string>)
    requires Flat(h)
    ensures Folds(lines) && Glue(lines) == Fold(h, col, "\n\t")
    ensures SplitLines(Fold(h, col, "\r\n\t") + CRLF + rest) == lines + SplitLines(rest)
    ensures if h == "" then lines[0] == "" else lines[0] != "" && lines[0][0] == h[0]
    decreases |h|
  {
    if h == "" {
      lines := [""];
      SplitBreak(rest);
      assert "" + CRLF + rest == CRLF + rest;
    } else if h[0] == ';' && col > LIMIT && |h| > 1 {
      var t := AfterFold(h);
      var sub := SplitFolded(t, 1, rest);
      lines := SplitAtFold(Fold(t, 1, "\r\n\t"), sub, rest);
    } else {
      var sub := SplitFolded(h[1..], col + 1, rest);
      lines := SplitAtChar(h[0], Fold(h[1..], col + 1, "\r\n\t"), sub, rest);
    }
  }

  lemma SplitAtChar(c: char, text: string, sub: seq<string>, rest: string) returns (lines: seq<string>)
    requires c != '\r' && Folds(sub) && SplitLines(text + CRLF + rest) == sub + SplitLines(rest)
    ensures lines == [[c] + sub[0]] + sub[1..] && Folds(lines) && Glue(lines) == [c] + Glue(sub)
    ensures SplitLines([c] + text + CRLF + rest) == lines + SplitLines(rest)
  {
    lines := [[c] + sub[0]] + sub[1..];
    GlueCons(c, sub);
    SplitCons(c, text + CRLF + rest);
    assert [c] + text + CRLF + rest == [c] + (text + CRLF + rest);
    HeadTail(sub, SplitLines(rest), [c]);
  }

  lemma HeadTail(a: seq<string>, b: seq<string>, front: string)
    requires a != []
    ensures [front + (a + b)[0]] + (a + b)[1..] == [front + a[0]] + a[1..] + b
  {
  }

  lemma SplitAtFold(text: string, sub: seq<string>, rest: string) returns (lines: seq<string>)
    requires Folds(sub) && SplitLines(text + CRLF + rest) == sub + SplitLines(rest)
    ensures lines != [] && lines[0] == ";" && Folds(lines) && Glue(lines) == ";" + "\n\t" + Glue(sub)
    ensures SplitLines(";" + "\r\n\t" + text + CRLF + rest) == lines + SplitLines(rest)
  {
    var more := text + CRLF + rest;
    lines := [";"] + ([['\t'] + sub[0]] + sub[1..]);
    GlueTab(sub);
    SplitTab(more);
    TabFirst(sub, SplitLines(rest));
    BreakGlue(text, rest);
  }

  lemma {:induction false} BreakGlue(text: string, rest: string)
    ensures ";" + "\r\n\t" + text + CRLF + rest == [';'] + (CRLF + (['\t'] + (text + CRLF + rest)))
  {
  }

  lemma TabFirst(sub: seq<string>, more: seq<string>)
    requires sub != []
    ensures var all := sub + more;
            [";"] + ([['\t'] + all[0]] + all[1..]) == [";"] + ([['\t'] + sub[0]] + sub[1..]) + more
  {
    HeadTail(sub, more, ['\t']);
    L.Assoc([";"], [['\t'] + sub[0]] + sub[1..], more);
  }

  lemma {:induction false} SplitTab(more: string)
    ensures SplitLines([';'] + (CRLF + (['\t'] + more)))
      == [";"] + ([['\t'] + SplitLines(more)[0]] + SplitLines(more)[1..])
  {
    SplitCons('\t', more);
    SplitBreak(['\t'] + more);
    SplitCons(';', CRLF + (['\t'] + more));
    assert [';'] + "" == ";";
  }

  lemma {:induction false} GatherFolds(lines: seq<string>, more: seq<string>, cur: string)
    requires forall i :: 0 <= i < |lines| ==> Continues(lines[i])
    requires cur != ""
    ensures Gather(lines + more, cur) == Gather(more, if lines == [] then cur else cur + "\n" + Glue(lines))
    decreases |lines|
  {
    if lines == [] {
      assert lines + more == more;
    } else {
      var all, next := lines + more, cur + "\n" + lines[0];
      assert all[0] == lines[0] && all[1..] == lines[1..] + more;
      GatherFolds(lines[1..], more, next);
      if |lines| > 1 {
        assert next + "\n" + Glue(lines[1..]) == cur + "\n" + (lines[0] + "\n" + Glue(lines[1..]));
      }
    }
  }

  /** Starts with a line of its own, neither blank nor a continuation. */
  predicate StartsField(s: string) {
    s != "" && !IsWsp(s[0]) && !(CRLF <= s)
  }

  lemma StartsLine(s: string)
    requires StartsField(s)
    ensures SplitLines(s)[0] != "" && !Continues(SplitLines(s)[0])
  {
  }

  lemma GatherNext(more: seq<string>, cur: string)
    requires more != [] && more[0] != "" && !Continues(more[0]) && cur != ""
    ensures Gather(more, cur) == [Unfold(cur)] + Gather(more, "")
  {
    assert Emit("") + Gather(more[1..], more[0]) == Gather(more[1..], more[0]);
  }

  /** A folded header is read back as one field, whatever fields follow. */
  lemma FoldedIsOneField(h: string, rest: string)
    requires Flat(h) && StartsField(h) && StartsField(rest)
    ensures SplitHeaders(FoldHeader(h) + CRLF + rest) == [Refolded(h)] + SplitHeaders(rest)
  {
    var lines := SplitFolded(h, 0, rest);
    var more := SplitLines(rest);
    GatherField(lines, more);
    StartsLine(rest);
    GatherNext(more, Glue(lines));
    UnfoldFolded(h, 0);
  }

  lemma GatherField(lines: seq<string>, more: seq<string>)
    requires Folds(lines) && lines[0] != "" && !Continues(lines[0])
    ensures Gather(lines + more, "") == Gather(more, Glue(lines)) && Glue(lines) != ""
  {
    var all := lines + more;
    assert all[0] == lines[0] && all[1..] == lines[1..] + more;
    assert Emit("") + Gather(all[1..], lines[0]) == Gather(all[1..], lines[0]);
    forall i | 0 <= i < |lines[1..]| ensures Continues(lines[1..][i]) {
      assert lines[1..][i] == lines[i + 1];
    }
    GatherFolds(lines[1..], more, lines[0]);
  }

  // ---- where the body starts ------------------------------------------------------------------

  function Shift(r: Found, n: nat): Found {
    match r
    case Nowhere => Nowhere
    case At(i) => At(i + n)
  }

  /** The first blank line is one. */
  lemma {:induction false} BlankIsThere(s: string)
    requires FindBlank(s).At?
    ensures StartsBlank(s[FindBlank(s).index..])
  {
    if !StartsBlank(s) {
      BlankIsThere(s[1..]);
      L.DropDrop(s, 1, FindBlank(s[1..]).index);
    } else {
      assert s[0..] == s;
    }
  }

  lemma {:induction false} BlankCons(c: char, s: string)
    requires c != '\r' || |s| < 3 || s[0] != '\n' || s[1] != '\r' || s[2] != '\n'
    ensures FindBlank([c] + s) == Shift(FindBlank(s), 1)
  {
    L.HeadTail(c, s);
    assert !StartsBlank([c] + s);
  }

  /** No blank line before, or inside, a folded header. */
  lemma {:induction false} FoldedHasNoBlank(h: string, col: nat, rest: string)
    requires Flat(h) && !(CRLF <= rest)
    ensures var text := Fold(h, col, "\r\n\t") + CRLF; FindBlank(text + rest) == Shift(FindBlank(rest), |text|)
    decreases |h|
  {
    if h == "" {
      BreakHasNoBlank(rest);
      assert "" + CRLF == CRLF;
    } else if h[0] == ';' && col > LIMIT && |h| > 1 {
      var t := AfterFold(h);
      FoldedHasNoBlank(t, 1, rest);
      var text := Fold(t, 1, "\r\n\t");
      FoldHasNoBlank(text, rest);
    } else {
      FoldedHasNoBlank(h[1..], col + 1, rest);
      var text := Fold(h[1..], col + 1, "\r\n\t");
      CharHasNoBlank(h[0], text, rest);
    }
  }

  lemma {:induction false} CharHasNoBlank(c: char, text: string, rest: string)
    requires c != '\r' && FindBlank(text + CRLF + rest) == Shift(FindBlank(rest), |text| + 2)
    ensures FindBlank([c] + text + CRLF + rest) == Shift(FindBlank(rest), |text| + 3)
  {
    var s := text + CRLF + rest;
    assert [c] + text + CRLF + rest == [c] + s;
    BlankCons(c, s);
  }

  lemma {:induction false} BreakHasNoBlank(rest: string)
    requires !(CRLF <= rest)
    ensures FindBlank(CRLF + rest) == Shift(FindBlank(rest), 2)
  {
    var s := ['\n'] + rest;
    assert CRLF + rest == ['\r'] + s;
    assert |rest| >= 2 && rest[0] == '\r' && rest[1] == '\n' ==> rest[..2] == CRLF;
    BlankCons('\r', s);
    BlankCons('\n', rest);
  }

  lemma {:induction false} BlankAfterFold(s: string)
    ensures FindBlank([';'] + (['\r'] + (['\n'] + (['\t'] + s)))) == Shift(FindBlank(s), 4)
  {
    BlankCons('\t', s);
    var s1 := ['\t'] + s;
    BlankCons('\n', s1);
    BlankAtTab(s1);
    BlankCons(';', ['\r'] + (['\n'] + s1));
  }

  lemma {:induction false} BlankAtTab(s: string)
    requires s != "" && s[0] == '\t'
    ensures FindBlank(['\r'] + (['\n'] + s)) == Shift(FindBlank(['\n'] + s), 1)
  {
    assert (['\n'] + s)[1] == '\t';
    BlankCons('\r', ['\n'] + s);
  }

  lemma {:induction false} FoldHasNoBlank(text: string, rest: string)
    requires FindBlank(text + CRLF + rest) == Shift(FindBlank(rest), |text| + 2)
    ensures FindBlank(";" + "\r\n\t" + text + CRLF + rest) == Shift(FindBlank(rest), |text| + 6)
  {
    var s := text + CRLF + rest;
    assert ";" + "\r\n\t" + text + CRLF + rest == [';'] + (['\r'] + (['\n'] + (['\t'] + s)));
    BlankAfterFold(s);
  }

  lemma {:induction false} SplitSnoc(s: string)
    ensures SplitLines(s + CRLF) == SplitLines(s) + [""]
    decreases |s|
  {
    var all := s + CRLF;
    if s == "" {
      assert all == CRLF + "";
      SplitBreak("");
    } else if |s| > 1 && s[0] == '\r' && s[1] == '\n' {
      assert all[2..] == s[2..] + CRLF;
      SplitSnoc(s[2..]);
    } else {
      assert all[1..] == s[1..] + CRLF;
      SplitSnoc(s[1..]);
    }
  }

  lemma {:induction false} GatherSnoc(lines: seq<string>, cur: string)
    ensures Gather(lines + [""], cur) == Gather(lines, cur)
    decreases |lines|
  {
    var all := lines + [""];
    if lines == [] {
      assert all[1..] == [];
    } else {
      assert all[1..] == lines[1..] + [""];
      var line := lines[0];
      GatherSnoc(lines[1..], if line == "" then cur else if Continues(line) then cur + "\n" + line else line);
    }
  }

  /** A line break more at the end of a header block changes no field. */
  lemma FieldsSnoc(s: string)
    ensures SplitHeaders(s + CRLF) == SplitHeaders(s)
  {
    SplitSnoc(s);
    GatherSnoc(SplitLines(s), "");
  }

  /** Ending the header block of a message without a body. */
  lemma {:induction false} BlankAtEnd(s: string)
    requires FindBlank(s).Nowhere?
    ensures FindBlank(s + CRLF).Nowhere? || (|s| >= 2 && FindBlank(s + CRLF) == At(|s| - 2))
    decreases |s|
  {
    var all := s + CRLF;
    if s != "" && !StartsBlank(all) {
      L.ConsConcat(s, CRLF);
      BlankAtEnd(s[1..]);
    } else if s != "" {
      assert all[|s|] == '\r';
    }
  }

  lemma RejoinFound(raw: string, i: nat)
    requires FindBlank(raw) == At(i)
    ensures raw[..i + 2] + CRLF + raw[i + 4..] == raw
  {
    BlankIsThere(raw);
    assert raw[i + 2] == raw[i..][2] && raw[i + 3] == raw[i..][3];
    assert raw[i + 2..i + 4] == CRLF;
    assert raw == raw[..i + 2] + raw[i + 2..i + 4] + raw[i + 4..];
  }

  lemma {:induction false} SplitAt(front: string, raw: string, sealed: string, i: nat)
    requires FindBlank(raw) == At(i) && sealed == front + raw && FindBlank(sealed) == At(|front| + i)
    ensures SplitMessage(sealed) == (front + SplitMessage(raw).0, SplitMessage(raw).1)
  {
    L.CutConcat(front, raw, i + 2);
    L.CutConcat(front, raw, i + 4);
  }

  lemma SplitOpen(front: string, raw: string, sealed: string)
    requires FindBlank(raw).Nowhere? && sealed == front + raw + CRLF
    requires FindBlank(sealed) == Shift(FindBlank(raw + CRLF), |front|)
    ensures SplitMessage(sealed).1 == "" && SplitHeaders(SplitMessage(sealed).0) == SplitHeaders(front + raw)
  {
    BlankAtEnd(raw);
    if FindBlank(raw + CRLF).Nowhere? {
      FieldsSnoc(front + raw);
    } else {
      assert sealed[..|front| + |raw|] == front + raw;
      assert sealed[|front| + |raw| + 2..] == "";
    }
  }

  /** Text in front that holds no blank line moves the split with it: the body stays, and the fields
      are those of the longer header block. */
  lemma SplitBehind(front: string, raw: string, headers: string, body: string, again: string)
    requires SplitMessage(raw) == (headers, body) && again == headers + CRLF + body
    requires FindBlank(front + again) == Shift(FindBlank(again), |front|)
    ensures SplitMessage(front + again).1 == body
    ensures SplitHeaders(SplitMessage(front + again).0) == SplitHeaders(front + headers)
  {
    match FindBlank(raw)
    case At(i) =>
      RejoinFound(raw, i);
      SplitAt(front, raw, front + again, i);
    case Nowhere =>
      NoBody(raw + CRLF);
      L.Assoc(front, raw, CRLF);
      SplitOpen(front, raw, front + again);
  }

  lemma NoBody(s: string)
    ensures s + "" == s
  {
  }

  // ---- exactly when folding is harmless -------------------------------------------------------

  /** Every semicolon that folding breaks at stands before white space. */
  predicate BreaksSpaced(h: string, col: nat)
    decreases |h|
  {
    if h == "" then true
    else if h[0] == ';' && col > LIMIT && |h| > 1 then IsWsp(h[1]) && BreaksSpaced(AfterFold(h), 1)
    else BreaksSpaced(h[1..], if h[0] == '\n' then 0 else col + 1)
  }

  /** The canonical form survives folding if and only if no line is broken before other text. */
  lemma {:induction false} FoldHarmlessIff(h: string, col: nat, prev: bool)
    ensures Collapse(Fold(h, col, " \t"), prev) == Collapse(h, prev) <==> BreaksSpaced(h, col)
    decreases |h|
  {
    if h == "" {
    } else if h[0] == ';' && col > LIMIT && |h| > 1 {
      var t := AfterFold(h);
      FoldHarmlessIff(t, 1, true);
      FoldStep(Fold(t, 1, " \t"), prev);
      var a, b := Collapse(Fold(t, 1, " \t"), true), Collapse(t, true);
      if IsWsp(h[1]) {
        SpaceStep(h, prev);
        Cancel("; ", a, b);
      } else {
        BrokenText(h, prev);
      }
    } else {
      var next := if h[0] == '\n' then 0 else col + 1;
      var more := Fold(h[1..], next, " \t");
      FoldHarmlessIff(h[1..], next, IsWsp(h[0]));
      CollapseCons(h[0], more, prev);
      var front := if !IsWsp(h[0]) then [h[0]] else if prev then "" else " ";
      Cancel(front, Collapse(more, IsWsp(h[0])), Collapse(h[1..], IsWsp(h[0])));
    }
  }

  lemma Cancel(p: string, a: string, b: string)
    ensures p + a == p + b <==> a == b
  {
    assert (p + a)[|p|..] == a && (p + b)[|p|..] == b;
  }

  /** Text right behind a semicolon stays right behind it. */
  lemma BrokenText(h: string, prev: bool)
    requires |h| > 1 && h[0] == ';' && !IsWsp(h[1])
    ensures |Collapse(h, prev)| >= 2 && Collapse(h, prev)[1] == h[1]
  {
    assert h == [';'] + ([h[1]] + h[2..]);
    CollapseCons(';', [h[1]] + h[2..], prev);
    CollapseCons(h[1], h[2..], false);
  }

  lemma {:induction false} SpacedBreaks(h: string, col: nat)
    requires Spaced(h)
    ensures BreaksSpaced(h, col)
    decreases |h|
  {
    if h == "" {
    } else if h[0] == ';' && col > LIMIT && |h| > 1 {
      SpacedSuffix(h, |h| - |AfterFold(h)|);
      SpacedBreaks(AfterFold(h), 1);
    } else {
      SpacedSuffix(h, 1);
      SpacedBreaks(h[1..], if h[0] == '\n' then 0 else col + 1);
    }
  }

  lemma {:induction false} FoldEnds(h: string, col: nat)
    requires h != "" && !IsWsp(h[|h| - 1])
    ensures var f := Fold(h, col, " \t"); f != "" && f[|f| - 1] == h[|h| - 1]
    decreases |h|
  {
    if h[0] == ';' && col > LIMIT && |h| > 1 {
      FoldEnds(AfterFold(h), 1);
    } else if |h| > 1 {
      FoldEnds(h[1..], if h[0] == '\n' then 0 else col + 1);
    }
  }

  lemma {:induction false} CollapseEnds(s: string, prev: bool)
    requires s != "" && !IsWsp(s[|s| - 1])
    ensures var c := Collapse(s, prev); c != "" && c[|c| - 1] == s[|s| - 1]
    decreases |s|
  {
    if |s| > 1 { CollapseEnds(s[1..], IsWsp(s[0])); }
  }

  // ---- the loops ------------------------------------------------------------------------------

  method UnfoldText(s: string) returns (b: string)
    ensures b == Unfold(s)
  {
    b := "";
    var i := 0;
    while i < |s|
      invariant 0 <= i <= |s| && b + Unfold(s[i..]) == Unfold(s)
    {
      if s[i] == '\r' && i + 2 < |s| && s[i + 1] == '\n' && IsWsp(s[i + 2]) {
        L.DropDrop(s, i, 3);
        L.Assoc(b, " ", Unfold(s[i + 3..]));
        b, i := b + " ", i + 3;
      } else if s[i] == '\n' && i + 1 < |s| && IsWsp(s[i + 1]) {
        L.DropDrop(s, i, 1);
        L.Assoc(b, " ", Unfold(s[i + 1..]));
        b, i := b + " ", i + 1;
      } else {
        L.DropDrop(s, i, 1);
        L.Assoc(b, [s[i]], Unfold(s[i + 1..]));
        b, i := b + [s[i]], i + 1;
      }
    }
    L.DropAll(s);
    NoBody(b);
  }

  method CollapseWS(s: string) returns (b: string)
    ensures b == Collapse(s, false)
  {
    b := "";
    var prev := false;
    ghost var want := Collapse(s, false);
    L.EmptyConcat("", want);
    assert s[0..] == s;
    for i := 0 to |s|
      invariant b + Collapse(s[i..], prev) == want
    {
      CollapseAt(s[i..], s[i], s[i + 1..], prev, b);
      if IsWsp(s[i]) {
        if !prev { b, prev := b + " ", true; }
      } else {
        b, prev := b + [s[i]], false;
      }
    }
    L.DropAll(s);
    NoBody(b);
  }

  lemma {:induction false} CollapseAt(s: string, c: char, rest: string, prev: bool, b: string)
    requires s != "" && s[0] == c && s[1..] == rest
    ensures b + Collapse(s, prev) == if !IsWsp(c) then b + [c] + Collapse(rest, false)
                                     else if prev then b + Collapse(rest, true) else b + " " + Collapse(rest, true)
  {
    L.Assoc(b, [c], Collapse(rest, false));
    L.Assoc(b, " ", Collapse(rest, true));
    L.EmptyConcat("", Collapse(rest, true));
  }

  method FoldText(h: string) returns (b: string)
    ensures b == FoldHeader(h)
  {
    b := "";
    var col: nat, i: nat := 0, 0;
    while i < |h|
      invariant i <= |h| && b + Fold(h[i..], col, "\r\n\t") == FoldHeader(h)
    {
      ghost var left := h[i..];
      if h[i] == ';' && col > LIMIT && i + 1 < |h| {
        b := b + ";" + "\r\n\t";
        col := 1;
        if h[i + 1] == ' ' {
          assert AfterFold(left) == h[i + 2..];
          i := i + 2;
        } else {
          assert AfterFold(left) == h[i + 1..];
          i := i + 1;
        }
      } else {
        assert left[1..] == h[i + 1..];
        b := b + [h[i]];
        col := if h[i] == '\n' then 0 else col + 1;
        i := i + 1;
      }
    }
    assert h[|h|..] == "";
  }

  method HeaderFields(headers: string) returns (out: seq<string>)
    ensures out == SplitHeaders(headers)
  {
    out := [];
    var cur := "";
    var lines := SplitLines(headers);
    for i := 0 to |lines|
      invariant out + Gather(lines[i..], cur) == SplitHeaders(headers)
    {
      var line := lines[i];
      assert lines[i..][1..] == lines[i + 1..];
      if line == "" {
      } else if IsWsp(line[0]) {
        cur := cur + "\n" + line;
      } else {
        if |cur| > 0 {
          var field := UnfoldText(cur);
          out := out + [field];
        }
        cur := line;
      }
    }
    assert lines[|lines|..] == [];
    if |cur| > 0 {
      var field := UnfoldText(cur);
      out := out + [field];
    }
  }

  method EachCanonical(was: seq<string>) returns (lines: seq<string>)
    ensures lines == CanonicalLines(was)
  {
    lines := was;
    for i := 0 to |lines|
      invariant |lines| == |was| && forall j :: 0 <= j < |lines| ==>
        lines[j] == if j < i then CanonicalLine(was[j]) else was[j]
    {
      var l := CollapseWS(lines[i]);
      lines := lines[i := TrimWspRight(l)];
    }
  }

  /** Line breaks added at the end of a body do not change its canonical form. */
  lemma BodyIgnoresEnd(body: string)
    ensures CanonicalBody(body + CRLF) == CanonicalBody(body)
  {
    SplitSnoc(body);
    var lines := SplitLines(body);
    assert CanonicalLines(lines + [""]) == CanonicalLines(lines) + [""];
    assert (CanonicalLines(lines) + [""])[..|lines|] == CanonicalLines(lines);
  }

  method CanonicalizeBody(body: string) returns (text: string)
    ensures text == CanonicalBody(body)
  {
    if |body| == 0 {
      assert CanonicalLines([""]) == [""];
      assert [""][..0] == [];
      return CRLF;
    }
    var lines := EachCanonical(SplitLines(body));
    ghost var was := lines;
    while |lines| > 0 && lines[|lines| - 1] == ""
      invariant DropEmpty(lines) == DropEmpty(was)
    {
      lines := lines[..|lines| - 1];
    }
    if |lines| == 0 { return CRLF; }
    text := "";
    for i := 0 to |lines|
      invariant text + EndLines(lines[i..]) == EndLines(lines)
    {
      assert lines[i..][1..] == lines[i + 1..];
      text := text + lines[i] + CRLF;
    }
    assert lines[|lines|..] == [];
  }
}
