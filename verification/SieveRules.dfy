/** The settings page's rule builder: a form is compiled to Sieve text and appended to the script. */
module SieveRules {
  import opened SieveLexer
  import opened SieveText
  import L = Lists

  datatype Field = From | To | Cc | Subject

  datatype Op = OpContains | OpMatches | OpIs

  datatype Act = Move(target: string) | Delete

  datatype Rule = Rule(field: Field, op: Op, value: string, action: Act)

  function FieldName(f: Field): string {
    match f
    case From => "From"
    case To => "To"
    case Cc => "Cc"
    case Subject => "Subject"
  }

  function OpName(o: Op): string {
    match o
    case OpContains => "contains"
    case OpMatches => "matches"
    case OpIs => "is"
  }

  // ---- the text of one rule -------------------------------------------------------------------

  /** Clipped to n characters, the last one an ellipsis. */
  function Truncate(s: string, n: nat): string
    requires n > 0
  {
    if |s| <= n then s else s[..n - 1] + "\U{2026}"
  }

  function Preamble(r: Rule): string {
    "\n# Rule: " + FieldName(r.field) + " " + OpName(r.op) + " " + Truncate(r.value, 60) + "\n"
  }

  function ActionsText(a: Act): string {
    match a
    case Move(target) => "    fileinto \"" + Escape(target) + "\";\n    stop;"
    case Delete => "    discard;"
  }

  function TestText(r: Rule): string {
    "if header :" + OpName(r.op) + " \"" + FieldName(r.field) + "\" \"" + Escape(r.value) + "\" {\n"
  }

  function BlockText(r: Rule): string {
    Preamble(r) + TestText(r) + ActionsText(r.action) + "\n" + "}\n"
  }

  function RequireLine(extension: string): string {
    "require [\"" + extension + "\"];\n"
  }

  // ---- the regular expressions ----------------------------------------------------------------

  predicate IsSpace(c: char) {
    || c in "\t\n\r \U{b}\U{c}\U{a0}\U{1680}\U{2028}\U{2029}\U{202f}\U{205f}\U{3000}\U{feff}"
    || '\U{2000}' <= c <= '\U{200a}'
  }

  function SkipSpaces(s: string): string {
    if s != "" && IsSpace(s[0]) then SkipSpaces(s[1..]) else s
  }

  function Trim(s: string): string {
    TrimEnd(SkipSpaces(s))
  }

  function TrimEnd(s: string): string {
    if s != "" && IsSpace(s[|s| - 1]) then TrimEnd(s[..|s| - 1]) else s
  }

  /** /[^\]]*"fileinto"/ at the start of the text. */
  predicate ListsFileInto(s: string) {
    exists k :: 0 <= k <= |s| && ']' !in s[..k] && "\"fileinto\"" <= s[k..]
  }

  /** /require\s*\[[^\]]*"fileinto"/ at the start of the text. */
  predicate RequireHere(s: string) {
    "require" <= s &&
    var t := SkipSpaces(s[7..]);
    t != "" && t[0] == '[' && ListsFileInto(t[1..])
  }

  predicate HasRequire(s: string) {
    exists i :: 0 <= i <= |s| && RequireHere(s[i..])
  }

  function NewlineRun(s: string): (n: nat)
    ensures n <= |s| && (forall i :: 0 <= i < n ==> s[i] == '\n')
    ensures s != "" && s[0] == '\n' ==> n > 0
  {
    if s != "" && s[0] == '\n' then 1 + NewlineRun(s[1..]) else 0
  }

  /** Three or more newlines in a row become two. */
  function Collapse(s: string): string {
    if s == "" then ""
    else if s[0] != '\n' then [s[0]] + Collapse(s[1..])
    else var n := NewlineRun(s);
      (if n >= 3 then "\n\n" else s[..n]) + Collapse(s[n..])
  }

  // ---- appending ------------------------------------------------------------------------------

  function Next(source: string, r: Rule): string {
    (if r.action.Move? && !HasRequire(source) then RequireLine("fileinto") + source else source) + BlockText(r)
  }

  class Settings {
    var sieveSource: string
    var rbField: Field
    var rbOp: Op
    var rbValue: string
    var rbMoves: bool
    var rbTarget: string
    var rbError: string

    constructor (source: string)
      ensures sieveSource == source && rbValue == "" && rbTarget == "" && rbError == ""
      ensures rbField == From && rbOp == OpContains && rbMoves
    {
      sieveSource, rbField, rbOp, rbValue, rbMoves, rbTarget, rbError := source, From, OpContains, "", true, "", "";
    }

    /** The rule the form describes. */
    function Form(): Rule
      reads this
    {
      Rule(rbField, rbOp, Trim(rbValue), if rbMoves then Move(Trim(rbTarget)) else Delete)
    }

    /** A form without a value, or a move without a folder, is refused. */
    predicate Refused()
      reads this
    {
      Form().value == "" || Form().action == Move("")
    }

    method AppendRule()
      modifies this
      ensures rbField == old(rbField) && rbOp == old(rbOp) && rbMoves == old(rbMoves)
      ensures old(Refused()) <==> rbError != ""
      ensures old(Refused()) ==> sieveSource == old(sieveSource) && rbValue == old(rbValue) && rbTarget == old(rbTarget)
      ensures !old(Refused()) ==>
        sieveSource == Collapse(Next(old(sieveSource), old(Form()))) && rbValue == "" && rbTarget == ""
    {
      rbError := "";
      var value := Trim(rbValue);
      if value == "" {
        rbError := "Enter a value to match against.";
        return;
      }
      var action := Delete;
      if rbMoves {
        var target := Trim(rbTarget);
        if target == "" {
          rbError := "Enter a folder to move matching mail into.";
          return;
        }
        action := Move(target);
      }
      var block := BlockText(Rule(rbField, rbOp, value, action));
      var next := sieveSource;
      if rbMoves && !HasRequire(next) {
        next := RequireLine("fileinto") + next;
      }
      sieveSource := Collapse(next + block);
      rbValue, rbTarget := "", "";
    }
  }

  // ---- the script as units --------------------------------------------------------------------

  /** What an appended script is made of. */
  datatype Unit = Require(extension: string) | Block(rule: Rule)

  function TestPieces(r: Rule): seq<Piece> {
    [Word("if", " "), Word("header", " "), Colon(OpName(r.op), " "),
     Quoted(FieldName(r.field), " "), Quoted(r.value, " "), Mark('{', "\n    ")]
  }

  function ActionPieces(a: Act): seq<Piece> {
    match a
    case Move(target) =>
      [Word("fileinto", " "), Quoted(target, ""), Mark(';', "\n    "), Word("stop", ""), Mark(';', "\n")]
    case Delete => [Word("discard", ""), Mark(';', "\n")]
  }

  function Pieces(u: Unit): seq<Piece> {
    match u
    case Require(e) => [Word("require", " "), Mark('[', ""), Quoted(e, ""), Mark(']', ""), Mark(';', "\n")]
    case Block(r) => TestPieces(r) + ActionPieces(r.action) + [Mark('}', "\n")]
  }

  function Comment(u: Unit): string {
    match u
    case Require(_) => ""
    case Block(r) => Preamble(r)
  }

  function UnitText(u: Unit): string {
    Comment(u) + Render(Pieces(u))
  }

  function ScriptText(us: seq<Unit>): string {
    if us == [] then "" else UnitText(us[0]) + ScriptText(us[1..])
  }

  /** Text a one-line input can hold. */
  predicate OneLine(s: string) {
    '\n' !in s
  }

  predicate Proper(r: Rule) {
    && r.value != "" && OneLine(r.value)
    && (r.action.Move? ==> r.action.target != "" && OneLine(r.action.target))
  }

  predicate Fits(u: Unit) {
    match u
    case Require(e) => OneLine(e) && '"' !in e && '\\' !in e
    case Block(r) => Proper(r)
  }

  lemma {:induction false} RenderConcat(a: seq<Piece>, b: seq<Piece>)
    ensures Render(a + b) == Render(a) + Render(b)
  {
    if a == [] {
      L.EmptyConcat(a, b);
      L.EmptyConcat(Render(a), Render(b));
    } else {
      RenderConcat(a[1..], b);
      L.ConsConcat(a, b);
      L.Assoc(Show(a[0]), Render(a[1..]), Render(b));
    }
  }

  lemma Render1(p: Piece)
    ensures Render([p]) == Show(p)
  {
    assert Render([p]) == Show(p) + Render([]);
  }

  lemma Render2(p: Piece, q: Piece)
    ensures Render([p, q]) == Show(p) + Show(q)
  {
    assert [p, q][1..] == [q];
    Render1(q);
  }

  lemma Render3(p: Piece, q: Piece, r: Piece)
    ensures Render([p, q, r]) == Show(p) + Show(q) + Show(r)
  {
    assert [p, q, r][1..] == [q, r];
    Render2(q, r);
  }

  lemma Render5(p: Piece, q: Piece, r: Piece, t: Piece, u: Piece)
    ensures Render([p, q, r, t, u]) == Show(p) + Show(q) + Show(r) + (Show(t) + Show(u))
  {
    Render3(p, q, r);
    Render2(t, u);
    RenderConcat([p, q, r], [t, u]);
    assert [p, q, r, t, u] == [p, q, r] + [t, u];
  }

  lemma Render6(p: Piece, q: Piece, r: Piece, t: Piece, u: Piece, v: Piece)
    ensures Render([p, q, r, t, u, v]) == Show(p) + Show(q) + Show(r) + (Show(t) + Show(u) + Show(v))
  {
    Render3(p, q, r);
    Render3(t, u, v);
    RenderConcat([p, q, r], [t, u, v]);
    assert [p, q, r, t, u, v] == [p, q, r] + [t, u, v];
  }

  lemma ShowPlain(val: string, gap: string)
    requires '\\' !in val && '"' !in val
    ensures Show(Quoted(val, gap)) == "\"" + val + "\"" + gap
  {
    EscapePlain(val);
  }

  lemma RequireText(extension: string)
    requires '"' !in extension && '\\' !in extension
    ensures UnitText(Require(extension)) == RequireLine(extension)
  {
    Render5(Word("require", " "), Mark('[', ""), Quoted(extension, ""), Mark(']', ""), Mark(';', "\n"));
    ShowPlain(extension, "");
    RequireGlue(extension);
  }

  lemma RequireGlue(e: string)
    ensures ("require" + " ") + (['['] + "") + ("\"" + e + "\"" + "") + (([']'] + "") + ([';'] + "\n"))
      == RequireLine(e)
  {
    assert ("require" + " ") + (['['] + "") + "\"" == "require [\"";
    assert "\"" + "" + (([']'] + "") + ([';'] + "\n")) == "\"];\n";
  }

  lemma TestLiterals(op: string)
    ensures ("if" + " ") + ("header" + " ") + ((":" + op) + " ") == "if header :" + op + " "
    ensures ['{'] + "\n    " == "{\n" + "    "
  {
    assert ("if" + " ") + ("header" + " ") == "if header ";
    assert "if header " + ":" == "if header :";
  }

  lemma TestGlue(op: string, field: string, value: string)
    ensures (op + " ") + (("\"" + field + "\"" + " ") + ("\"" + value + "\"" + " ") + ("{\n" + "    "))
         == op + " \"" + field + "\" \"" + value + "\" {\n" + "    "
  {
    assert " " + "\"" == " \"" && "\"" + " " + "\"" == "\" \"" && "\"" + " " + "{\n" == "\" {\n";
  }

  lemma TestTextIs(r: Rule)
    ensures Render(TestPieces(r)) == TestText(r) + "    "
  {
    Render6(Word("if", " "), Word("header", " "), Colon(OpName(r.op), " "),
            Quoted(FieldName(r.field), " "), Quoted(r.value, " "), Mark('{', "\n    "));
    ShowPlain(FieldName(r.field), " ");
    TestLiterals(OpName(r.op));
    TestGlue("if header :" + OpName(r.op), FieldName(r.field), Escape(r.value));
  }

  lemma ActionLiterals(target: string)
    ensures "    "
      + ("fileinto" + " " + ("\"" + target + "\"" + "") + ([';'] + "\n    ") + (("stop" + "") + ([';'] + "\n")))
         == "    fileinto \"" + target + "\";\n    stop;" + "\n"
    ensures "    " + (("discard" + "") + ([';'] + "\n")) == "    discard;" + "\n"
  {
    assert "    " + "fileinto" + " " + "\"" == "    fileinto \"";
    assert "\"" + "" + ([';'] + "\n    ") + (("stop" + "") + ([';'] + "\n")) == "\";\n    stop;" + "\n";
  }

  lemma ActionsTextIs(a: Act)
    ensures "    " + Render(ActionPieces(a)) == ActionsText(a) + "\n"
  {
    match a
    case Move(target) =>
      Render5(Word("fileinto", " "), Quoted(target, ""), Mark(';', "\n    "), Word("stop", ""), Mark(';', "\n"));
      ActionLiterals(Escape(target));
    case Delete =>
      Render2(Word("discard", ""), Mark(';', "\n"));
      ActionLiterals("");
  }

  lemma BlockGlue(comment: string, head: string, actions: string, t: string, a: string)
    requires t == head + "    " && "    " + a == actions + "\n"
    ensures comment + ((t + a) + "}\n") == comment + head + actions + "\n" + "}\n"
  {
    assert t + a == head + ("    " + a);
  }

  /** The template spells the pieces. */
  lemma BlockTextIs(r: Rule)
    ensures UnitText(Block(r)) == BlockText(r)
  {
    var t, a, c := TestPieces(r), ActionPieces(r.action), [Mark('}', "\n")];
    RenderConcat(t + a, c);
    RenderConcat(t, a);
    Render1(Mark('}', "\n"));
    TestTextIs(r);
    ActionsTextIs(r.action);
    assert Show(Mark('}', "\n")) == "}\n";
    BlockGlue(Preamble(r), TestText(r), ActionsText(r.action), Render(t), Render(a));
  }
}
