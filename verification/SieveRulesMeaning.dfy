/** The rule compiler preserves meaning: what it appends is read back as the rules the forms described. */
module SieveRulesMeaning {
  import opened SieveLexer
  import P = SieveParser
  import E = SieveEval
  import opened Ascii
  import opened SieveText
  import opened SieveRules
  import L = Lists

  // ---- reading the text back ------------------------------------------------------------------

  /** Every word is ended by a blank or by a mark. */
  ghost predicate Neat(ps: seq<Piece>) {
    forall i :: 0 <= i < |ps| ==> NeatAt(ps, i)
  }

  ghost predicate NeatAt(ps: seq<Piece>, i: nat)
    requires i < |ps|
  {
    && Blank(ps[i].gap)
    && (ps[i].Word? || ps[i].Colon? ==> IsName(ps[i].id) && (ps[i].gap != "" || (i + 1 < |ps| && ps[i + 1].Mark?)))
    && (ps[i].Mark? ==> IsMark(ps[i].c))
    && (ps[i].Figure? ==>
      FigureFits(ps[i].n, ps[i].unit, ps[i].amount) && (ps[i].gap != "" || (i + 1 < |ps| && ps[i + 1].Mark?)))
  }

  lemma NeatReadable(ps: seq<Piece>, rest: string)
    requires ps != [] && Neat(ps)
    ensures Readable(ps[0], Render(ps[1..]) + rest)
  {
    assert NeatAt(ps, 0);
    var p, tail := ps[0], Render(ps[1..]) + rest;
    if p.gap != "" {
      assert (p.gap + tail)[0] == p.gap[0];
    } else if p.Word? || p.Colon? || p.Figure? {
      assert NeatAt(ps, 1);
      MarkFollows(ps[1], ps[1..], rest);
      L.EmptyConcat(p.gap, tail);
    }
  }

  lemma MarkFollows(p: Piece, ps: seq<Piece>, rest: string)
    requires ps != [] && ps[0] == p && p.Mark? && IsMark(p.c)
    ensures var tail := Render(ps) + rest; tail != "" && tail[0] == p.c && !IsIdentCont(p.c) && EndsFigure(p.c)
  {
    assert Show(p)[0] == p.c;
  }

  lemma {:induction false} NeatIsReadable(ps: seq<Piece>, rest: string)
    requires Neat(ps)
    ensures AllReadable(ps, rest)
  {
    if ps != [] {
      NeatReadable(ps, rest);
      forall i | 0 <= i < |ps[1..]| ensures NeatAt(ps[1..], i) {
        assert NeatAt(ps, i + 1);
      }
      NeatIsReadable(ps[1..], rest);
    }
  }

  lemma NeatActions(a: Act)
    ensures Neat(ActionPieces(a))
  {
  }

  lemma NeatTest(r: Rule)
    ensures Neat(TestPieces(r))
  {
    var op := OpName(r.op);
    assert IsName(op);
    assert IsName("if") && IsName("header");
  }

  lemma NeatConcat(a: seq<Piece>, b: seq<Piece>)
    requires Neat(a) && Neat(b)
    ensures Neat(a + b)
  {
    forall i | 0 <= i < |a + b| ensures NeatAt(a + b, i) {
      if i < |a| { assert NeatAt(a, i); } else { assert NeatAt(b, i - |a|); }
    }
  }

  lemma UnitIsNeat(u: Unit)
    ensures Neat(Pieces(u))
  {
    match u
    case Require(_) =>
      assert IsName("require");
    case Block(r) =>
      NeatTest(r);
      NeatActions(r.action);
      NeatConcat(TestPieces(r), ActionPieces(r.action));
      assert Neat([Mark('}', "\n")]);
      NeatConcat(TestPieces(r) + ActionPieces(r.action), [Mark('}', "\n")]);
  }

  ghost predicate AllFit(us: seq<Unit>) {
    forall i :: 0 <= i < |us| ==> Fits(us[i])
  }

  /** A newline and a one-line comment are skipped. */
  lemma LexComment(text: string, rest: string, s: string, line: nat)
    requires OneLine(text) && s == "\n#" + text + "\n" + rest
    ensures Lex(s, line) == Lex(rest, line + 2)
  {
    var a := "#" + text + "\n" + rest;
    var b := "\n" + rest;
    assert s[0] == '\n' && s[1..] == a && s[..1] == "\n";
    LexSkip(s, line, 1, a, line + 1);
    CommentLength(text, rest);
    var n := 1 + |text|;
    assert a[..n] == "#" + text && a[n..] == b;
    NoNewlines(a[..n]);
    LexSkip(a, line + 1, n, b, line + 1);
    assert b[1..] == rest && b[..1] == "\n";
    LexSkip(b, line + 1, 1, rest, line + 2);
  }

  lemma CommentLength(text: string, rest: string)
    requires OneLine(text)
    ensures LineLength("#" + text + "\n" + rest) == 1 + |text|
  {
    var s := "#" + text + "\n" + rest;
    var n := LineLength(s);
    assert forall k :: 0 <= k < |text| ==> s[k + 1] == text[k];
    assert s[1 + |text|] == '\n';
    LineLengthMeaning(s);
  }

  function PiecesOf(us: seq<Unit>): seq<Piece> {
    if us == [] then [] else Pieces(us[0]) + PiecesOf(us[1..])
  }

  /** The comment before a unit only moves the line. */
  lemma LexUnitComment(u: Unit, rest: string, s: string, line: nat) returns (next: nat)
    requires Fits(u) && s == Comment(u) + rest
    ensures Lex(s, line) == Lex(rest, next)
  {
    match u
    case Require(_) =>
      next := line;
      assert s == rest;
    case Block(r) =>
      next := line + 2;
      var text := CommentLine(r);
      LexComment(text, rest, s, line);
  }

  lemma CommentLine(r: Rule) returns (text: string)
    requires Proper(r)
    ensures OneLine(text) && Preamble(r) == "\n#" + text + "\n"
  {
    CommentIsOneLine(r);
    text := " Rule: " + (FieldName(r.field) + " " + OpName(r.op) + " " + Truncate(r.value, 60));
    CommentGlue(FieldName(r.field), OpName(r.op), Truncate(r.value, 60));
  }

  lemma CommentGlue(field: string, op: string, value: string)
    ensures "\n# Rule: " + field + " " + op + " " + value + "\n"
      == "\n#" + (" Rule: " + (field + " " + op + " " + value)) + "\n"
  {
    assert "\n#" + " Rule: " == "\n# Rule: ";
  }

  lemma CommentIsOneLine(r: Rule)
    requires Proper(r)
    ensures OneLine(" Rule: " + (FieldName(r.field) + " " + OpName(r.op) + " " + Truncate(r.value, 60)))
  {
    assert OneLine(FieldName(r.field)) && OneLine(OpName(r.op)) && OneLine(Truncate(r.value, 60));
  }

  lemma SpellsConcat(a: seq<Token>, b: seq<Token>, ps: seq<Piece>, qs: seq<Piece>)
    requires Spells(a, ps) && Spells(b, qs)
    ensures Spells(a + b, ps + qs)
  {
  }

  /** A unit is read as its pieces, in front of whatever follows. */
  lemma LexUnit(u: Unit, tail: string, s: string, line: nat) returns (next: nat, mid: nat, text: string)
    requires Fits(u) && s == UnitText(u) + tail
    ensures text == Render(Pieces(u)) + tail && Lex(s, line) == Lex(text, mid)
    ensures AllReadable(Pieces(u), tail) && next == mid + Newlines(Render(Pieces(u)))
  {
    var body := Render(Pieces(u));
    text := body + tail;
    L.Assoc(Comment(u), body, tail);
    mid := LexUnitComment(u, text, s, line);
    next := mid + Newlines(body);
    UnitIsReadable(u, tail);
  }

  lemma UnitIsReadable(u: Unit, tail: string)
    ensures AllReadable(Pieces(u), tail)
  {
    UnitIsNeat(u);
    NeatIsReadable(Pieces(u), tail);
  }

  lemma LexUnitThen(ps: seq<Piece>, tail: string, s: string, line: nat, next: nat, mid: nat, text: string,
                    others: seq<Token>, last: Token, qs: seq<Piece>) returns (toks: seq<Token>)
    requires text == Render(ps) + tail && Lex(s, line) == Lex(text, mid) && AllReadable(ps, tail)
    requires next == mid + Newlines(Render(ps)) && Lex(tail, next) == Ok(others + [last]) && Spells(others, qs)
    ensures Lex(s, line) == Ok(toks + [last]) && Spells(toks, ps + qs)
  {
    var front := LexPieces(ps, tail, text, mid, next, others + [last]);
    toks := front + others;
    assert front + (others + [last]) == toks + [last];
    SpellsConcat(front, others, ps, qs);
  }

  /** Every script of units is read as the pieces of its units, in order. */
  lemma {:induction false} LexScript(us: seq<Unit>, s: string, line: nat) returns (toks: seq<Token>, last: Token)
    requires AllFit(us) && s == ScriptText(us)
    ensures Lex(s, line) == Ok(toks + [last]) && last.kind == Eof && Spells(toks, PiecesOf(us))
  {
    if us == [] {
      toks, last := [], Token(Eof, "", 0, line);
      assert toks + [last] == [last];
      return;
    }
    var u, tail := us[0], ScriptText(us[1..]);
    var next, mid, text := LexUnit(u, tail, s, line);
    var others;
    others, last := LexScript(us[1..], tail, next);
    toks := LexUnitThen(Pieces(u), tail, s, line, next, mid, text, others, last, PiecesOf(us[1..]));
  }

  // ---- parsing --------------------------------------------------------------------------------

  /** The tokens from pos on spell the pieces. */
  ghost predicate At(toks: seq<Token>, pos: nat, ps: seq<Piece>) {
    P.Terminated(toks) && pos + |ps| < |toks| &&
    forall i :: 0 <= i < |ps| ==> IsPiece(toks[pos + i], ps[i])
  }

  function Simple(name: string, strings: seq<string>): P.Command {
    P.Command(name, map[], strings, [], [], [])
  }

  function TestOf(r: Rule): P.Test {
    P.Test("header", map[OpName(r.op) := ""], [FieldName(r.field), r.value], [], [])
  }

  function BlockOf(a: Act): seq<P.Command> {
    match a
    case Move(target) => [Simple("fileinto", [target]), Simple("stop", [])]
    case Delete => [Simple("discard", [])]
  }

  function CommandOf(u: Unit): P.Command {
    match u
    case Require(e) => Simple("require", [e])
    case Block(r) => P.Command("if", map[], [], [], [TestOf(r)], BlockOf(r.action))
  }

  /** A word already in lower case. */
  lemma LowerSame(s: string)
    requires forall i :: 0 <= i < |s| ==> !('A' <= s[i] <= 'Z')
    ensures Lower(s) == s
  {
  }

  lemma WordsAreLower(r: Rule)
    ensures Lower("if") == "if" && Lower("header") == "header" && Lower(OpName(r.op)) == OpName(r.op)
  {
    LowerSame("if");
    LowerSame("header");
    LowerSame(OpName(r.op));
  }

  lemma ParsesRequire(toks: seq<Token>, pos: nat, e: string)
    requires At(toks, pos, Pieces(Require(e)))
    ensures P.CommandAt(toks, pos) == P.Done(CommandOf(Require(e)), pos + 5)
  {
    var ps, cmd := Pieces(Require(e)), Simple("require", [e]);
    assert toks[pos + 0].kind == KindOf(ps[0]) && toks[pos + 0].val == ValOf(ps[0])
      && toks[pos + 1].kind == KindOf(ps[1]);
    assert toks[pos + 2].kind == KindOf(ps[2]) && toks[pos + 2].val == ValOf(ps[2]);
    assert toks[pos + 3].kind == KindOf(ps[3]) && toks[pos + 4].kind == KindOf(ps[4]);
    LowerSame("require");
    assert [] + [e] == [e];
    assert P.Strings(toks, pos + 3, [e]) == P.Done([e], pos + 4);
    assert P.Strings(toks, pos + 2, []) == P.Strings(toks, pos + 3, [e]);
    assert P.Arguments(toks, pos + 4, cmd) == P.Done(cmd, pos + 5);
  }

  lemma ParsesTest(toks: seq<Token>, pos: nat, r: Rule)
    requires At(toks, pos, TestPieces(r))
    ensures P.TestAt(toks, pos + 1) == P.Done(TestOf(r), pos + 5)
  {
    var ps := TestPieces(r);
    assert toks[pos + 1].val == ValOf(ps[1]);
    assert toks[pos + 2].kind == KindOf(ps[2]) && toks[pos + 2].val == ValOf(ps[2]);
    assert toks[pos + 3].kind == KindOf(ps[3]) && toks[pos + 3].val == ValOf(ps[3]);
    assert toks[pos + 4].kind == KindOf(ps[4]) && toks[pos + 4].val == ValOf(ps[4]);
    assert toks[pos + 5].kind == KindOf(ps[5]);
    WordsAreLower(r);
    var t0 := P.Test("header", map[], [], [], []);
    var t1 := t0.(tags := map[OpName(r.op) := ""]);
    var t2 := t1.(strings := [FieldName(r.field)]);
    assert P.TestArguments(toks, pos + 5, TestOf(r)) == P.Done(TestOf(r), pos + 5);
    assert [FieldName(r.field)] + [r.value] == [FieldName(r.field), r.value];
    assert P.TestArguments(toks, pos + 4, t2) == P.TestArguments(toks, pos + 5, TestOf(r));
    assert [] + [FieldName(r.field)] == [FieldName(r.field)];
    assert P.TestArguments(toks, pos + 3, t1) == P.TestArguments(toks, pos + 4, t2);
    assert t0.tags[OpName(r.op) := ""] == map[OpName(r.op) := ""];
    assert P.TestArguments(toks, pos + 2, t0) == P.TestArguments(toks, pos + 3, t1);
  }

  lemma ParsesBare(toks: seq<Token>, pos: nat, name: string)
    requires P.Terminated(toks) && pos + 2 < |toks|
    requires toks[pos].kind == Ident && toks[pos].val == name && toks[pos + 1].kind == Semi
    requires Lower(name) == name && name != "if" && name != "elsif"
    ensures P.CommandAt(toks, pos) == P.Done(Simple(name, []), pos + 2)
  {
  }

  lemma ParsesFileInto(toks: seq<Token>, pos: nat, target: string)
    requires P.Terminated(toks) && pos + 3 < |toks|
    requires toks[pos].kind == Ident && toks[pos].val == "fileinto" && toks[pos + 1].kind == Str
      && toks[pos + 1].val == target
    requires toks[pos + 2].kind == Semi
    ensures P.CommandAt(toks, pos) == P.Done(Simple("fileinto", [target]), pos + 3)
  {
    LowerSame("fileinto");
    assert [] + [target] == [target];
    assert P.Arguments(toks, pos + 2, Simple("fileinto", [target])) == P.Done(Simple("fileinto", [target]), pos + 3);
  }

  lemma ParsesActions(toks: seq<Token>, pos: nat, a: Act)
    requires At(toks, pos, ActionPieces(a)) && toks[pos + |ActionPieces(a)|].kind == RBrace
    ensures P.Block(toks, pos, []) == P.Done(BlockOf(a), pos + |ActionPieces(a)|)
  {
    match a
    case Move(target) => ParsesMove(toks, pos, target);
    case Delete =>
      var ps := ActionPieces(a);
      assert toks[pos + 0].kind == KindOf(ps[0]) && toks[pos + 0].val == ValOf(ps[0])
        && toks[pos + 1].kind == KindOf(ps[1]);
      LowerSame("discard");
      ParsesBare(toks, pos, "discard");
      BlockTakes(toks, pos, Simple("discard", []), pos + 2, []);
      assert [] + [Simple("discard", [])] == BlockOf(a);
  }

  lemma BlockTakes(toks: seq<Token>, pos: nat, c: P.Command, next: nat, acc: seq<P.Command>)
    requires P.Terminated(toks) && pos < |toks| && toks[pos].kind == Ident && P.CommandAt(toks, pos) == P.Done(c, next)
    ensures next < |toks| && P.Block(toks, pos, acc) == P.Block(toks, next, acc + [c])
  {
  }

  lemma ParsesMove(toks: seq<Token>, pos: nat, target: string)
    requires At(toks, pos, ActionPieces(Move(target))) && toks[pos + 5].kind == RBrace
    ensures P.Block(toks, pos, []) == P.Done(BlockOf(Move(target)), pos + 5)
  {
    var ps := ActionPieces(Move(target));
    assert toks[pos + 0].kind == KindOf(ps[0]) && toks[pos + 0].val == ValOf(ps[0]);
    assert toks[pos + 1].kind == KindOf(ps[1]) && toks[pos + 1].val == ValOf(ps[1]);
    assert toks[pos + 2].kind == KindOf(ps[2]);
    assert toks[pos + 3].kind == KindOf(ps[3]) && toks[pos + 3].val == ValOf(ps[3]);
    assert toks[pos + 4].kind == KindOf(ps[4]);
    ParsesFileInto(toks, pos, target);
    LowerSame("stop");
    ParsesBare(toks, pos + 3, "stop");
    var file, halt := Simple("fileinto", [target]), Simple("stop", []);
    BlockTakes(toks, pos, file, pos + 3, []);
    BlockTakes(toks, pos + 3, halt, pos + 5, [file]);
    assert [] + [file] == [file] && [file] + [halt] == BlockOf(Move(target));
  }

  lemma AtSplit(toks: seq<Token>, pos: nat, a: seq<Piece>, b: seq<Piece>)
    requires At(toks, pos, a + b)
    ensures At(toks, pos, a) && At(toks, pos + |a|, b)
  {
    forall i | 0 <= i < |a| ensures IsPiece(toks[pos + i], a[i]) {
      assert (a + b)[i] == a[i];
    }
    forall i | 0 <= i < |b| ensures IsPiece(toks[pos + |a| + i], b[i]) {
      assert (a + b)[|a| + i] == b[i];
      assert IsPiece(toks[pos + (|a| + i)], b[i]);
    }
  }

  lemma ParsesRule(toks: seq<Token>, pos: nat, r: Rule)
    requires At(toks, pos, Pieces(Block(r)))
    ensures P.CommandAt(toks, pos) == P.Done(CommandOf(Block(r)), pos + |Pieces(Block(r))|)
  {
    var t, a, close := TestPieces(r), ActionPieces(r.action), [Mark('}', "\n")];
    AtSplit(toks, pos, t + a, close);
    AtSplit(toks, pos, t, a);
    ParsesTest(toks, pos, r);
    var end := pos + 6 + |a|;
    assert toks[end + 0].kind == KindOf(close[0]);
    ParsesActions(toks, pos + 6, r.action);
    assert toks[pos + 0].kind == KindOf(t[0]) && toks[pos + 0].val == ValOf(t[0]) && toks[pos + 5].kind == KindOf(t[5]);
    WordsAreLower(r);
    ParsesIf(toks, pos, TestOf(r), pos + 5, BlockOf(r.action), end);
  }

  lemma ParsesIf(toks: seq<Token>, pos: nat, test: P.Test, open: nat, cmds: seq<P.Command>, close: nat)
    requires P.Terminated(toks) && pos + 1 < open < close < |toks| - 1
    requires toks[pos].kind == Ident && Lower(toks[pos].val) == "if"
    requires P.TestAt(toks, pos + 1) == P.Done(test, open) && toks[open].kind == LBrace
    requires P.Block(toks, open + 1, []) == P.Done(cmds, close) && toks[close].kind == RBrace
    ensures P.CommandAt(toks, pos) == P.Done(P.Command("if", map[], [], [], [test], cmds), close + 1)
  {
    var cmd := P.Command("if", map[], [], [], [test], []);
    assert P.Arguments(toks, open, cmd) == P.Done(cmd.(block := cmds), close + 1);
  }

  lemma ParsesUnit(toks: seq<Token>, pos: nat, u: Unit)
    requires At(toks, pos, Pieces(u))
    ensures toks[pos].kind == Ident && P.CommandAt(toks, pos) == P.Done(CommandOf(u), pos + |Pieces(u)|)
  {
    var ps := Pieces(u);
    assert toks[pos + 0].kind == KindOf(ps[0]);
    match u
    case Require(e) => ParsesRequire(toks, pos, e);
    case Block(r) => ParsesRule(toks, pos, r);
  }

  function CommandsOf(us: seq<Unit>): seq<P.Command> {
    seq(|us|, i requires 0 <= i < |us| => CommandOf(us[i]))
  }

  lemma {:induction false} ParsesScript(toks: seq<Token>, pos: nat, us: seq<Unit>, acc: seq<P.Command>)
    requires At(toks, pos, PiecesOf(us)) && pos + |PiecesOf(us)| == |toks| - 1
    ensures P.Block(toks, pos, acc) == P.Done(acc + CommandsOf(us), |toks| - 1)
    decreases |us|
  {
    if us == [] {
      assert acc + CommandsOf(us) == acc;
    } else {
      var u, rest := us[0], us[1..];
      var next := ParsesFirst(toks, pos, u, Pieces(u), PiecesOf(rest), acc);
      ParsesScript(toks, next, rest, acc + [CommandOf(u)]);
      CommandsCons(us, acc);
    }
  }

  lemma ParsesFirst(toks: seq<Token>, pos: nat, u: Unit, ps: seq<Piece>, qs: seq<Piece>, acc: seq<P.Command>)
    returns (next: nat)
    requires ps == Pieces(u) && At(toks, pos, ps + qs)
    ensures next == pos + |ps| && At(toks, next, qs)
    ensures P.Block(toks, pos, acc) == P.Block(toks, next, acc + [CommandOf(u)])
  {
    next := pos + |ps|;
    AtSplit(toks, pos, ps, qs);
    ParsesUnit(toks, pos, u);
    BlockTakes(toks, pos, CommandOf(u), next, acc);
  }

  lemma CommandsCons(us: seq<Unit>, acc: seq<P.Command>)
    requires us != []
    ensures acc + [CommandOf(us[0])] + CommandsOf(us[1..]) == acc + CommandsOf(us)
  {
    assert [CommandOf(us[0])] + CommandsOf(us[1..]) == CommandsOf(us);
  }

  lemma ParseIs(src: string, toks: seq<Token>, cmds: seq<P.Command>, end: nat)
    requires Lex(src, 1) == Ok(toks) && P.Terminated(toks) && P.Block(toks, 0, []) == P.Done(cmds, end)
    ensures P.Parse(src) == Ok(cmds)
  {
  }

  /** Every script of units parses to the commands of its units. */
  lemma ScriptParses(us: seq<Unit>, src: string)
    requires AllFit(us) && src == ScriptText(us)
    ensures P.Parse(src) == Ok(CommandsOf(us))
  {
    var toks, last := LexScript(us, src, 1);
    ParsesScript(toks + [last], 0, us, []);
    assert [] + CommandsOf(us) == CommandsOf(us);
    ParseIs(src, toks + [last], CommandsOf(us), |toks|);
  }

  // ---- running --------------------------------------------------------------------------------

  ghost predicate OpHolds(m: E.Message, op: Op, v: string, value: string) {
    match op
    case OpContains => E.Contains(Lower(v), Lower(value))
    case OpMatches => m.glob(v, value)
    case OpIs => Lower(v) == Lower(value)
  }

  /** The form's own reading: some value of the field passes the comparison. */
  ghost predicate Matches(m: E.Message, r: Rule) {
    FieldName(r.field) in m.headers && exists v :: v in m.headers[FieldName(r.field)] && OpHolds(m, r.op, v, r.value)
  }

  /** The first rule that matches decides. */
  ghost function Outcome(m: E.Message, rules: seq<Rule>, folder: string): E.Decision {
    if rules == [] then E.Deliver(folder)
    else if !Matches(m, rules[0]) then Outcome(m, rules[1..], folder)
    else match rules[0].action
      case Move(target) => E.Deliver(target)
      case Delete => E.Drop
  }

  lemma FieldIsCanonical(f: Field)
    ensures E.CanonicalHeader(FieldName(f)) == FieldName(f)
  {
  }

  lemma MatchTypeIs(r: Rule)
    ensures E.MatchType(TestOf(r).tags)
      == match r.op case OpContains => E.Has case OpMatches => E.Glob case OpIs => E.Is
  {
  }

  lemma TestMeans(m: E.Message, r: Rule)
    ensures E.EvalTest(m, TestOf(r)) <==> Matches(m, r)
  {
    var t := TestOf(r);
    FieldIsCanonical(r.field);
    MatchTypeIs(r);
    assert t.strings[1..] == [r.value];
    assert E.EvalTest(m, t) <==> E.MatchAnyHeaderValue(m, FieldName(r.field), [r.value], t.tags);
    if Matches(m, r) {
      var v :| v in m.headers[FieldName(r.field)] && OpHolds(m, r.op, v, r.value);
      assert E.MatchString(m, v, r.value, E.MatchType(t.tags)) && r.value in [r.value];
    }
  }

  ghost predicate Doomed(p: E.Progress) {
    p.discarded && E.Discard in p.actions
  }

  /** Nothing later takes a discard back. */
  lemma {:induction false} DoomedStays(m: E.Message, cmds: seq<P.Command>, p: E.Progress)
    requires Doomed(p)
    ensures Doomed(E.RunAll(m, cmds, p))
    decreases cmds, 1
  {
    if cmds != [] && !p.stop {
      DoomedStaysOne(m, cmds[0], p);
      DoomedStays(m, cmds[1..], E.RunOne(m, cmds[0], p));
    }
  }

  lemma {:induction false} DoomedStaysOne(m: E.Message, cmd: P.Command, p: E.Progress)
    requires Doomed(p)
    ensures Doomed(E.RunOne(m, cmd, p))
    decreases cmd, 0
  {
    if cmd.name == "if" && cmd.tests != [] && E.EvalTest(m, cmd.tests[0]) {
      DoomedStays(m, cmd.block, p);
    }
  }

  function Filed(target: string): E.Progress {
    E.Progress([E.FileInto(target)], true, false, false, true)
  }

  const DISCARDED := E.Progress([E.Discard], false, false, true, false)

  lemma RunsBlock(m: E.Message, a: Act)
    ensures E.RunAll(m, BlockOf(a), E.FRESH) == match a case Move(target) => Filed(target) case Delete => DISCARDED
  {
    var cmds := BlockOf(a);
    match a
    case Move(target) =>
      var p := E.Progress([E.FileInto(target)], true, false, false, false);
      assert [] + [E.FileInto(target)] == [E.FileInto(target)];
      assert E.RunOne(m, cmds[0], E.FRESH) == p;
      RunsOn(m, cmds, p);
      var rest := cmds[1..];
      assert rest == [Simple("stop", [])] && rest[1..] == [];
      assert E.RunOne(m, rest[0], p) == Filed(target);
      assert E.RunAll(m, rest, p) == E.RunAll(m, rest[1..], Filed(target));
    case Delete =>
      assert [] + [E.Discard] == [E.Discard];
      assert E.RunOne(m, cmds[0], E.FRESH) == DISCARDED;
      RunsOn(m, cmds, DISCARDED);
      assert cmds[1..] == [];
  }

  lemma RunsRule(m: E.Message, r: Rule)
    ensures E.RunOne(m, CommandOf(Block(r)), E.FRESH)
         == if !Matches(m, r) then E.FRESH
           else match r.action case Move(target) => Filed(target) case Delete => DISCARDED
  {
    TestMeans(m, r);
    RunsBlock(m, r.action);
  }

  function RulesOf(us: seq<Unit>): seq<Rule> {
    if us == [] then [] else (if us[0].Block? then [us[0].rule] else []) + RulesOf(us[1..])
  }

  /** A run whose first command changed the state to p. */
  lemma RunsOn(m: E.Message, cmds: seq<P.Command>, p: E.Progress)
    requires cmds != [] && E.RunOne(m, cmds[0], E.FRESH) == p
    ensures E.RunAll(m, cmds, E.FRESH) == E.RunAll(m, cmds[1..], p)
  {
  }

  lemma FiledDecides(m: E.Message, cmds: seq<P.Command>, target: string, folder: string)
    requires E.RunAll(m, cmds, E.FRESH) == Filed(target)
    ensures E.Chosen(E.Eval(m, cmds), folder) == E.Deliver(target)
  {
    assert E.Eval(m, cmds) == [E.FileInto(target)];
    assert [E.FileInto(target)][1..] == [];
  }

  lemma DoomedDecides(m: E.Message, cmds: seq<P.Command>, folder: string)
    requires Doomed(E.RunAll(m, cmds, E.FRESH))
    ensures E.Chosen(E.Eval(m, cmds), folder) == E.Drop
  {
    E.ChosenMeaning(E.Eval(m, cmds), folder);
  }

  lemma {:induction false} ScriptMeans(m: E.Message, us: seq<Unit>, folder: string)
    ensures E.Chosen(E.Eval(m, CommandsOf(us)), folder) == Outcome(m, RulesOf(us), folder)
  {
    var cmds := CommandsOf(us);
    if us == [] {
      assert E.Eval(m, cmds) == [] + [E.Keep] == [E.Keep];
      assert [E.Keep][1..] == [];
      return;
    }
    assert cmds[1..] == CommandsOf(us[1..]);
    var rest := RulesOf(us[1..]);
    if us[0].Require? {
      assert RulesOf(us) == rest;
      RunsOn(m, cmds, E.FRESH);
      ScriptMeans(m, us[1..], folder);
      return;
    }
    var r := us[0].rule;
    assert RulesOf(us)[0] == r && RulesOf(us)[1..] == rest;
    RunsRule(m, r);
    if !Matches(m, r) {
      RunsOn(m, cmds, E.FRESH);
      ScriptMeans(m, us[1..], folder);
    } else if r.action.Move? {
      RunsOn(m, cmds, Filed(r.action.target));
      FiledDecides(m, cmds, r.action.target, folder);
    } else {
      RunsOn(m, cmds, DISCARDED);
      DoomedStays(m, cmds[1..], DISCARDED);
      DoomedDecides(m, cmds, folder);
    }
  }

  // ---- newlines -------------------------------------------------------------------------------

  /** No two newlines in a row. */
  ghost predicate Single(s: string) {
    forall i :: 0 <= i < |s| - 1 && s[i] == '\n' ==> s[i + 1] != '\n'
  }

  ghost predicate NoThree(s: string) {
    forall i :: 0 <= i < |s| - 2 && s[i] == '\n' && s[i + 1] == '\n' ==> s[i + 2] != '\n'
  }

  /** No three newlines in a row, and not two at the start. */
  ghost predicate Calm(s: string) {
    && NoThree(s)
    && (s == "" || (|s| >= 2 && !(s[0] == '\n' && s[1] == '\n')))
  }

  lemma SingleConcat(a: string, b: string)
    requires Single(a) && Single(b) && (b == "" || b[0] != '\n')
    ensures Single(a + b)
  {
  }

  lemma SingleLine(a: string, gap: string)
    requires OneLine(a) && Single(gap)
    ensures Single(a + gap)
  {
  }

  lemma CalmConcat(a: string, b: string)
    requires Single(a) && |a| >= 2 && Calm(b)
    ensures Calm(a + b)
  {
    var s := a + b;
    forall i | 0 <= i < |s| - 2 && s[i] == '\n' && s[i + 1] == '\n' ensures s[i + 2] != '\n' {
      if i + 1 < |a| {
      } else if i < |a| {
        assert s[i + 1] == b[0] && s[i + 2] == b[1];
      } else {
        assert b[i - |a|] == '\n' && b[i - |a| + 1] == '\n';
      }
    }
    assert s[0] == a[0] && s[1] == a[1];
  }

  lemma {:induction false} EscapeOneLine(s: string)
    requires OneLine(s)
    ensures OneLine(Escape(s))
  {
    if s != "" {
      assert s == [s[0]] + s[1..];
      EscapeCons(s[0], s[1..]);
      EscapeOneLine(s[1..]);
    }
  }

  /** A piece that does not start a new line by itself. */
  ghost predicate Flat(p: Piece) {
    OneLine(Body(p)) && Body(p) != "" && Single(p.gap)
  }

  ghost predicate AllFlat(ps: seq<Piece>) {
    forall i :: 0 <= i < |ps| ==> Flat(ps[i])
  }

  lemma {:induction false} RenderSingle(ps: seq<Piece>)
    requires AllFlat(ps)
    ensures Single(Render(ps)) && (ps != [] ==> Render(ps) != "" && Render(ps)[0] != '\n')
  {
    if ps != [] {
      var p := ps[0];
      assert Flat(p);
      RenderSingle(ps[1..]);
      SingleLine(Body(p), p.gap);
      SingleConcat(Show(p), Render(ps[1..]));
      assert Render(ps)[0] == Body(p)[0];
    }
  }

  lemma QuotedIsFlat(val: string, gap: string)
    requires OneLine(val) && Single(gap)
    ensures Flat(Quoted(val, gap))
  {
    EscapeOneLine(val);
  }

  lemma WordIsFlat(id: string, gap: string)
    requires OneLine(id) && id != "" && Single(gap)
    ensures Flat(Word(id, gap)) && Flat(Colon(id, gap))
  {
  }

  lemma MarkIsFlat(c: char, gap: string)
    requires c != '\n' && Single(gap)
    ensures Flat(Mark(c, gap))
  {
  }

  lemma TestIsFlat(r: Rule)
    requires Proper(r)
    ensures AllFlat(TestPieces(r))
  {
    assert Single(" ") && Single("\n    ");
    WordIsFlat("if", " ");
    WordIsFlat("header", " ");
    WordIsFlat(OpName(r.op), " ");
    QuotedIsFlat(FieldName(r.field), " ");
    QuotedIsFlat(r.value, " ");
    MarkIsFlat('{', "\n    ");
    SixAreFlat(Word("if", " "), Word("header", " "), Colon(OpName(r.op), " "),
               Quoted(FieldName(r.field), " "), Quoted(r.value, " "), Mark('{', "\n    "));
  }

  lemma SixAreFlat(a: Piece, b: Piece, c: Piece, d: Piece, e: Piece, f: Piece)
    requires Flat(a) && Flat(b) && Flat(c) && Flat(d) && Flat(e) && Flat(f)
    ensures AllFlat([a, b, c, d, e, f])
  {
  }

  lemma FiveAreFlat(a: Piece, b: Piece, c: Piece, d: Piece, e: Piece)
    requires Flat(a) && Flat(b) && Flat(c) && Flat(d) && Flat(e)
    ensures AllFlat([a, b, c, d, e])
  {
  }

  lemma ActionIsFlat(a: Act)
    requires a.Move? ==> OneLine(a.target)
    ensures AllFlat(ActionPieces(a))
  {
    assert Single("") && Single(" ") && Single("\n") && Single("\n    ");
    MarkIsFlat(';', "\n");
    match a
    case Move(target) =>
      MarkIsFlat(';', "\n    ");
      QuotedIsFlat(target, "");
      WordIsFlat("fileinto", " ");
      WordIsFlat("stop", "");
      FiveAreFlat(Word("fileinto", " "), Quoted(target, ""), Mark(';', "\n    "), Word("stop", ""), Mark(';', "\n"));
    case Delete =>
      WordIsFlat("discard", "");
  }

  lemma RequireIsFlat(extension: string)
    requires OneLine(extension)
    ensures AllFlat([Word("require", " "), Mark('[', ""), Quoted(extension, ""), Mark(']', ""), Mark(';', "\n")])
  {
    assert Single("") && Single(" ") && Single("\n");
    WordIsFlat("require", " ");
    MarkIsFlat('[', "");
    QuotedIsFlat(extension, "");
    MarkIsFlat(']', "");
    MarkIsFlat(';', "\n");
    FiveAreFlat(Word("require", " "), Mark('[', ""), Quoted(extension, ""), Mark(']', ""), Mark(';', "\n"));
  }

  lemma UnitIsFlat(u: Unit)
    requires Fits(u)
    ensures AllFlat(Pieces(u))
  {
    match u
    case Require(e) => RequireIsFlat(e);
    case Block(r) =>
      TestIsFlat(r);
      ActionIsFlat(r.action);
      MarkIsFlat('}', "\n");
      FlatConcat(TestPieces(r), ActionPieces(r.action));
      FlatConcat(TestPieces(r) + ActionPieces(r.action), [Mark('}', "\n")]);
  }

  lemma FlatConcat(a: seq<Piece>, b: seq<Piece>)
    requires AllFlat(a) && AllFlat(b)
    ensures AllFlat(a + b)
  {
  }

  lemma UnitIsSingle(u: Unit)
    requires Fits(u)
    ensures Single(UnitText(u)) && |UnitText(u)| >= 2
  {
    UnitIsFlat(u);
    RenderSingle(Pieces(u));
    CommentIsSingle(u);
    SingleConcat(Comment(u), Render(Pieces(u)));
    match u
    case Require(e) => RequireText(e);
    case Block(r) =>
  }

  lemma CommentIsSingle(u: Unit)
    requires Fits(u)
    ensures Single(Comment(u)) && (u.Block? ==> |Comment(u)| >= 2)
  {
    if u.Block? {
      var text := CommentLine(u.rule);
      SingleLine("#" + text, "\n");
      assert Comment(u) == "\n" + ("#" + text + "\n");
      SingleConcat("\n", "#" + text + "\n");
    }
  }

  lemma {:induction false} ScriptIsCalm(us: seq<Unit>)
    requires AllFit(us)
    ensures Calm(ScriptText(us))
  {
    if us != [] {
      ScriptIsCalm(us[1..]);
      UnitIsSingle(us[0]);
      CalmConcat(UnitText(us[0]), ScriptText(us[1..]));
    }
  }

  /** Without three newlines in a row, nothing is collapsed. */
  lemma {:induction false} CollapseIsIdentity(s: string)
    requires NoThree(s)
    ensures Collapse(s) == s
    decreases |s|
  {
    if s != "" {
      var n := if s[0] == '\n' then NewlineRun(s) else 1;
      assert |s| >= 3 && s[0] == '\n' && s[1] == '\n' ==> s[2] != '\n';
      NoThreeSuffix(s, n);
      CollapseIsIdentity(s[n..]);
      assert s == s[..n] + s[n..];
    }
  }

  lemma NoThreeSuffix(s: string, n: nat)
    requires NoThree(s) && n <= |s|
    ensures NoThree(s[n..])
  {
    var t := s[n..];
    forall i | 0 <= i < |t| - 2 && t[i] == '\n' && t[i + 1] == '\n' ensures t[i + 2] != '\n' {
      assert s[i + n] == '\n' && s[i + n + 1] == '\n';
    }
  }

  // ---- the whole ------------------------------------------------------------------------------

  /** The script after adding the rules one by one, from an empty script. */
  function Built(rules: seq<Rule>): string {
    if rules == [] then "" else Collapse(Next(Built(rules[..|rules| - 1]), rules[|rules| - 1]))
  }

  /** The require line goes to the front, once it is needed. */
  function Grown(us: seq<Unit>, source: string, r: Rule): seq<Unit> {
    Lead(source, r) + us + [Block(r)]
  }

  function Lead(source: string, r: Rule): seq<Unit> {
    if r.action.Move? && !HasRequire(source) then [Require("fileinto")] else []
  }

  function UnitsOf(rules: seq<Rule>): seq<Unit> {
    if rules == [] then [] else
    var before, r := rules[..|rules| - 1], rules[|rules| - 1];
    Grown(UnitsOf(before), Built(before), r)
  }

  lemma {:induction false} ScriptSnoc(us: seq<Unit>, u: Unit)
    ensures ScriptText(us + [u]) == ScriptText(us) + UnitText(u)
  {
    if us == [] {
      var all := us + [u];
      assert all == [u] && all[1..] == [];
      assert UnitText(u) + "" == "" + UnitText(u);
    } else {
      ScriptSnoc(us[1..], u);
      L.ConsConcat(us, [u]);
      L.Assoc(UnitText(us[0]), ScriptText(us[1..]), UnitText(u));
    }
  }

  lemma {:induction false} RulesSnoc(us: seq<Unit>, r: Rule)
    ensures RulesOf(us + [Block(r)]) == RulesOf(us) + [r]
  {
    if us == [] {
      assert us + [Block(r)] == [Block(r)];
    } else {
      RulesSnoc(us[1..], r);
      assert (us + [Block(r)])[1..] == us[1..] + [Block(r)];
    }
  }

  lemma RequireFirst(us: seq<Unit>, e: string)
    requires '"' !in e && '\\' !in e
    ensures ScriptText([Require(e)] + us) == RequireLine(e) + ScriptText(us)
      && RulesOf([Require(e)] + us) == RulesOf(us)
  {
    RequireText(e);
    assert ([Require(e)] + us)[1..] == us;
  }

  lemma LeadIs(us: seq<Unit>, source: string, r: Rule, front: seq<Unit>)
    requires source == ScriptText(us) && front == Lead(source, r) + us
    ensures RulesOf(front) == RulesOf(us)
    ensures ScriptText(front) == if r.action.Move? && !HasRequire(source) then RequireLine("fileinto") + source
      else source
  {
    if r.action.Move? && !HasRequire(source) {
      RequireFirst(us, "fileinto");
    } else {
      assert front == us;
    }
  }

  lemma NextIs(us: seq<Unit>, source: string, r: Rule, us': seq<Unit>)
    requires source == ScriptText(us) && us' == Grown(us, source, r)
    ensures Next(source, r) == ScriptText(us') && RulesOf(us') == RulesOf(us) + [r]
  {
    var front := Lead(source, r) + us;
    LeadIs(us, source, r, front);
    ScriptSnoc(front, Block(r));
    RulesSnoc(front, r);
    BlockTextIs(r);
  }

  /** The text is that of the units, and the units carry the rules. */
  ghost predicate Spelt(rules: seq<Rule>, us: seq<Unit>, source: string) {
    AllFit(us) && source == ScriptText(us) && RulesOf(us) == rules
  }

  lemma {:induction false} BuiltIs(rules: seq<Rule>)
    requires forall i :: 0 <= i < |rules| ==> Proper(rules[i])
    ensures Spelt(rules, UnitsOf(rules), Built(rules))
  {
    if rules != [] {
      var before, r := rules[..|rules| - 1], rules[|rules| - 1];
      BuiltIs(before);
      BuiltSnoc(rules);
      L.FrontLast(rules);
      Appends(before, UnitsOf(before), Built(before), r, UnitsOf(rules));
    }
  }

  lemma BuiltSnoc(rules: seq<Rule>)
    requires rules != []
    ensures var before, r := rules[..|rules| - 1], rules[|rules| - 1];
            Built(rules) == Collapse(Next(Built(before), r))
              && UnitsOf(rules) == Grown(UnitsOf(before), Built(before), r)
  {
  }

  lemma Appends(before: seq<Rule>, us: seq<Unit>, source: string, r: Rule, us': seq<Unit>)
    requires Spelt(before, us, source) && Proper(r) && us' == Grown(us, source, r)
    ensures Spelt(before + [r], us', Collapse(Next(source, r)))
  {
    NextIs(us, source, r, us');
    AllFitMore(Lead(source, r), us, r);
    ScriptIsCalm(us');
    CollapseIsIdentity(ScriptText(us'));
  }

  lemma AllFitMore(front: seq<Unit>, us: seq<Unit>, r: Rule)
    requires (front == [] || front == [Require("fileinto")]) && AllFit(us) && Proper(r)
    ensures AllFit(front + us + [Block(r)])
  {
  }

  /** The compiler preserves meaning: whatever rules are added, in whatever order, the script parses
      and decides as the first matching rule says. */
  lemma RulesMean(m: E.Message, rules: seq<Rule>, folder: string)
    requires forall i :: 0 <= i < |rules| ==> Proper(rules[i])
    ensures P.Parse(Built(rules)).Ok? && E.Decide(m, Built(rules), folder) == Outcome(m, rules, folder)
  {
    BuiltIs(rules);
    var us := UnitsOf(rules);
    ScriptParses(us, Built(rules));
    ScriptMeans(m, us, folder);
    if Built(rules) == "" {
      BuiltIsText(rules);
    }
  }

  lemma BuiltIsText(rules: seq<Rule>)
    requires (forall i :: 0 <= i < |rules| ==> Proper(rules[i])) && Built(rules) == ""
    ensures rules == []
  {
    if rules != [] {
      BuiltIs(rules);
      var us := UnitsOf(rules);
      UnitIsSingle(us[0]);
    }
  }

  /** One rule from an empty script: the chosen folder, or a drop, exactly when the test matches. */
  lemma OneRuleMeans(m: E.Message, r: Rule, folder: string)
    requires Proper(r)
    ensures P.Parse(Built([r])).Ok?
    ensures E.Decide(m, Built([r]), folder)
         == if !Matches(m, r) then E.Deliver(folder) else if r.action.Move? then E.Deliver(r.action.target) else E.Drop
  {
    RulesMean(m, [r], folder);
    assert [r][1..] == [];
  }
}
