/** Syntax trees of Sieve scripts, their text, and the proof that the parser gives back the tree whose text
    it reads. */
module SieveSyntax {
  import opened SieveLexer
  import opened Ascii
  import opened SieveText
  import P = SieveParser
  import R = SieveRules
  import M = SieveRulesMeaning
  import L = Lists

  /** A tag and the string behind it. */
  datatype Opt = Opt(tag: string, value: string)

  datatype Arg =
    | Tagged(id: string)
    | One(s: string)
    | Many(ss: seq<string>)
    | Bytes(n: nat, unit: string, amount: int)
    | Option(opt: Opt)

  datatype Tree =
    | Leaf(name: string, args: seq<Arg>)
    | Negated(kid: Tree)
    | Group(name: string, kids: seq<Tree>)

  datatype Node =
    | Simple(name: string, args: seq<Arg>)
    | Braced(name: string, body: seq<Node>)
    | Tested(name: string, tree: Tree, body: seq<Node>)

  // ---- what can be written --------------------------------------------------------------------

  predicate FineArg(a: Arg) {
    match a
    case Tagged(id) => IsName(id)
    case One(_) => true
    case Many(_) => true
    case Bytes(n, unit, amount) => FigureFits(n, unit, amount)
    case Option(o) => IsName(o.tag)
  }

  predicate FineArgs(args: seq<Arg>) {
    forall i :: 0 <= i < |args| ==> FineArg(args[i])
  }

  predicate Fine(t: Tree) {
    match t
    case Leaf(name, args) =>
      && IsName(name) && FineArgs(args) && Lower(name) != "allof" && Lower(name) != "anyof" && Lower(name) != "not"
      && (Lower(name) == "true" || Lower(name) == "false" ==> args == [])
    case Negated(kid) => Fine(kid)
    case Group(name, kids) =>
      && IsName(name) && (Lower(name) == "allof" || Lower(name) == "anyof")
      && kids != [] && forall i :: 0 <= i < |kids| ==> Fine(kids[i])
  }

  predicate Testing(name: string) {
    Lower(name) == "if" || Lower(name) == "elsif"
  }

  /** A tag of its own in front of a string would take the string. */
  predicate FineNode(n: Node)
    decreases n, 0
  {
    && IsName(n.name) && (Testing(n.name) <==> n.Tested?)
    && match n
       case Simple(_, args) => FineArgs(args) && forall i :: 0 <= i < |args| ==> !args[i].Tagged?
       case Braced(_, body) => FineNodes(body)
       case Tested(_, tree, body) => Fine(tree) && FineNodes(body)
  }

  predicate FineNodes(ns: seq<Node>)
    decreases ns, 1
  {
    forall i :: 0 <= i < |ns| ==> FineNode(ns[i])
  }

  // ---- the text -------------------------------------------------------------------------------

  function Quote(s: string): string {
    "\"" + Escape(s) + "\""
  }

  function ItemsText(ss: seq<string>): string {
    if ss == [] then "" else if |ss| == 1 then Quote(ss[0]) else Quote(ss[0]) + ", " + ItemsText(ss[1..])
  }

  function ArgText(a: Arg): string {
    match a
    case Tagged(id) => ":" + id
    case One(s) => Quote(s)
    case Many(ss) => "[" + ItemsText(ss) + "]"
    case Bytes(n, unit, _) => Figures(n) + unit
    case Option(o) => ":" + o.tag + " " + Quote(o.value)
  }

  /** The arguments, each behind a blank. */
  function ArgsText(args: seq<Arg>): string {
    if args == [] then "" else " " + ArgText(args[0]) + ArgsText(args[1..])
  }

  function TreeText(t: Tree): string
    decreases t, 0
  {
    match t
    case Leaf(name, args) => name + ArgsText(args)
    case Negated(kid) => "not " + TreeText(kid)
    case Group(name, kids) => name + " (" + TreesText(kids) + ")"
  }

  function TreesText(ts: seq<Tree>): string
    decreases ts, 1
  {
    if ts == [] then "" else if |ts| == 1 then TreeText(ts[0]) else TreeText(ts[0]) + ", " + TreesText(ts[1..])
  }

  function NodeText(n: Node, gap: string): string
    decreases n, 0
  {
    match n
    case Simple(name, args) => name + ArgsText(args) + ";" + gap
    case Braced(name, body) => name + " " + BracesText(NodesText(body, gap), gap)
    case Tested(name, tree, body) => name + " " + TreeText(tree) + " " + BracesText(NodesText(body, gap), gap)
  }

  function BracesText(body: string, gap: string): string {
    "{" + gap + body + "}" + gap
  }

  /** The script, with the same blanks after every semicolon and brace. */
  function NodesText(ns: seq<Node>, gap: string): string
    decreases ns, 1
  {
    if ns == [] then "" else NodeText(ns[0], gap) + NodesText(ns[1..], gap)
  }

  // ---- the lexemes ----------------------------------------------------------------------------

  function Items(ss: seq<string>): seq<Piece> {
    if ss == [] then [] else if |ss| == 1 then [Quoted(ss[0], "")]
    else [Quoted(ss[0], "")] + ([Mark(',', " ")] + Items(ss[1..]))
  }

  function ListPieces(ss: seq<string>, gap: string): seq<Piece> {
    [Mark('[', "")] + (Items(ss) + [Mark(']', gap)])
  }

  function ArgPieces(a: Arg, gap: string): seq<Piece> {
    match a
    case Tagged(id) => [Colon(id, gap)]
    case One(s) => [Quoted(s, gap)]
    case Many(ss) => ListPieces(ss, gap)
    case Bytes(n, unit, amount) => [Figure(n, unit, amount, gap)]
    case Option(o) => [Colon(o.tag, " ")] + [Quoted(o.value, gap)]
  }

  /** What follows the first argument. */
  function Between(args: seq<Arg>, gap: string): string {
    if |args| == 1 then gap else " "
  }

  function ArgsPieces(args: seq<Arg>, gap: string): seq<Piece> {
    if args == [] then [] else ArgPieces(args[0], Between(args, gap)) + ArgsPieces(args[1..], gap)
  }

  /** A word and its arguments. */
  function PlainPieces(name: string, args: seq<Arg>, gap: string): seq<Piece> {
    if args == [] then [Word(name, gap)] else [Word(name, " ")] + ArgsPieces(args, gap)
  }

  function TreePieces(t: Tree, gap: string): seq<Piece>
    decreases t, 0
  {
    match t
    case Leaf(name, args) => PlainPieces(name, args, gap)
    case Negated(kid) => [Word("not", " ")] + TreePieces(kid, gap)
    case Group(name, kids) => GroupPieces(name, TreesPieces(kids), gap)
  }

  function GroupPieces(name: string, inner: seq<Piece>, gap: string): seq<Piece> {
    [Word(name, " ")] + ([Mark('(', "")] + (inner + [Mark(')', gap)]))
  }

  function TreesPieces(ts: seq<Tree>): seq<Piece>
    decreases ts, 1
  {
    if ts == [] then [] else if |ts| == 1 then TreePieces(ts[0], "")
    else TreePieces(ts[0], "") + ([Mark(',', " ")] + TreesPieces(ts[1..]))
  }

  function Braces(ps: seq<Piece>, gap: string): seq<Piece> {
    [Mark('{', gap)] + (ps + [Mark('}', gap)])
  }

  function NodePieces(n: Node, gap: string): seq<Piece>
    decreases n, 0
  {
    match n
    case Simple(name, args) => PlainPieces(name, args, "") + [Mark(';', gap)]
    case Braced(name, body) => [Word(name, " ")] + Braces(NodesPieces(body, gap), gap)
    case Tested(name, tree, body) =>
      [Word(name, " ")] + (TreePieces(tree, " ") + Braces(NodesPieces(body, gap), gap))
  }

  function NodesPieces(ns: seq<Node>, gap: string): seq<Piece>
    decreases ns, 1
  {
    if ns == [] then [] else NodePieces(ns[0], gap) + NodesPieces(ns[1..], gap)
  }

  // ---- the text spells the lexemes ------------------------------------------------------------

  lemma ShowQuoted(s: string, gap: string)
    ensures Show(Quoted(s, gap)) == Quote(s) + gap
  {
  }

  lemma RenderFirst(p: Piece, ps: seq<Piece>)
    ensures Render([p] + ps) == Show(p) + Render(ps)
  {
    L.HeadTail(p, ps);
  }

  lemma Glue(a: string, b: string, c: string, d: string)
    ensures a + (b + (c + d)) == a + b + c + d
  {
  }

  lemma {:induction false} ItemsSpelt(ss: seq<string>)
    ensures Render(Items(ss)) == ItemsText(ss)
  {
    if |ss| == 1 {
      R.Render1(Quoted(ss[0], ""));
      ShowQuoted(ss[0], "");
    } else if |ss| > 1 {
      ItemsSpelt(ss[1..]);
      RenderFirst(Quoted(ss[0], ""), [Mark(',', " ")] + Items(ss[1..]));
      RenderFirst(Mark(',', " "), Items(ss[1..]));
      ShowQuoted(ss[0], "");
      assert Show(Mark(',', " ")) == ", ";
    }
  }

  lemma ListSpelt(ss: seq<string>, gap: string)
    ensures Render(ListPieces(ss, gap)) == "[" + ItemsText(ss) + "]" + gap
  {
    RenderFirst(Mark('[', ""), Items(ss) + [Mark(']', gap)]);
    R.RenderConcat(Items(ss), [Mark(']', gap)]);
    R.Render1(Mark(']', gap));
    ItemsSpelt(ss);
    assert Show(Mark('[', "")) == "[" && Show(Mark(']', gap)) == "]" + gap;
    Glue("[", ItemsText(ss), "]", gap);
  }

  lemma ArgSpelt(a: Arg, gap: string)
    ensures Render(ArgPieces(a, gap)) == ArgText(a) + gap
  {
    match a
    case Tagged(id) => R.Render1(Colon(id, gap));
    case One(s) =>
      R.Render1(Quoted(s, gap));
      ShowQuoted(s, gap);
    case Many(ss) => ListSpelt(ss, gap);
    case Bytes(n, unit, amount) => R.Render1(Figure(n, unit, amount, gap));
    case Option(o) =>
      RenderFirst(Colon(o.tag, " "), [Quoted(o.value, gap)]);
      R.Render1(Quoted(o.value, gap));
      ShowQuoted(o.value, gap);
  }

  lemma {:induction false} ArgsSpelt(args: seq<Arg>, gap: string)
    requires args != []
    ensures " " + Render(ArgsPieces(args, gap)) == ArgsText(args) + gap
  {
    var rest := ArgsPieces(args[1..], gap);
    if |args| == 1 {
      ArgSpelt(args[0], gap);
      assert ArgsText(args[1..]) == "" && ArgPieces(args[0], gap) + rest == ArgPieces(args[0], gap);
    } else {
      ArgSpelt(args[0], " ");
      ArgsSpelt(args[1..], gap);
      R.RenderConcat(ArgPieces(args[0], " "), rest);
      BlankBehind(ArgText(args[0]), Render(rest), ArgsText(args[1..]), gap);
    }
  }

  lemma BlankBehind(a: string, rest: string, args: string, gap: string)
    requires " " + rest == args + gap
    ensures " " + ((a + " ") + rest) == " " + a + args + gap
  {
    BlankBetween(a, rest, args, gap);
    Glue(" ", a, args, gap);
  }

  lemma PlainSpelt(name: string, args: seq<Arg>, gap: string)
    ensures Render(PlainPieces(name, args, gap)) == name + ArgsText(args) + gap
  {
    if args == [] {
      R.Render1(Word(name, gap));
    } else {
      RenderFirst(Word(name, " "), ArgsPieces(args, gap));
      ArgsSpelt(args, gap);
      BlankBetween(name, Render(ArgsPieces(args, gap)), ArgsText(args), gap);
    }
  }

  lemma BlankBetween(name: string, rest: string, args: string, gap: string)
    requires " " + rest == args + gap
    ensures (name + " ") + rest == name + args + gap
  {
    L.Assoc(name, " ", rest);
    L.Assoc(name, args, gap);
  }

  lemma GroupSpelt(name: string, inner: seq<Piece>, gap: string)
    ensures Render(GroupPieces(name, inner, gap)) == name + " (" + Render(inner) + ")" + gap
  {
    RenderFirst(Word(name, " "), [Mark('(', "")] + (inner + [Mark(')', gap)]));
    RenderFirst(Mark('(', ""), inner + [Mark(')', gap)]);
    R.RenderConcat(inner, [Mark(')', gap)]);
    R.Render1(Mark(')', gap));
    assert Show(Mark('(', "")) == "(" && Show(Mark(')', gap)) == ")" + gap;
    ListGlue(name, Render(inner), gap);
  }

  lemma ListGlue(name: string, text: string, gap: string)
    ensures (name + " ") + ("(" + (text + (")" + gap))) == name + " (" + text + ")" + gap
  {
    Glue("(", text, ")", gap);
    assert " " + "(" == " (";
  }

  lemma {:induction false} TreeSpelt(t: Tree, gap: string)
    ensures Render(TreePieces(t, gap)) == TreeText(t) + gap
    decreases t, 0
  {
    match t
    case Leaf(name, args) => PlainSpelt(name, args, gap);
    case Negated(kid) =>
      RenderFirst(Word("not", " "), TreePieces(kid, gap));
      TreeSpelt(kid, gap);
      assert Show(Word("not", " ")) == "not ";
    case Group(name, kids) =>
      TreesSpelt(kids);
      GroupSpelt(name, TreesPieces(kids), gap);
  }

  lemma {:induction false} TreesSpelt(ts: seq<Tree>)
    ensures Render(TreesPieces(ts)) == TreesText(ts)
    decreases ts, 1
  {
    if ts != [] { TreeSpelt(ts[0], ""); }
    if |ts| > 1 {
      TreesSpelt(ts[1..]);
      R.RenderConcat(TreePieces(ts[0], ""), [Mark(',', " ")] + TreesPieces(ts[1..]));
      RenderFirst(Mark(',', " "), TreesPieces(ts[1..]));
      assert Show(Mark(',', " ")) == ", ";
    }
  }

  lemma BracesSpelt(ps: seq<Piece>, gap: string)
    ensures Render(Braces(ps, gap)) == BracesText(Render(ps), gap)
  {
    RenderFirst(Mark('{', gap), ps + [Mark('}', gap)]);
    R.RenderConcat(ps, [Mark('}', gap)]);
    R.Render1(Mark('}', gap));
    assert Show(Mark('{', gap)) == "{" + gap && Show(Mark('}', gap)) == "}" + gap;
  }

  lemma SimpleSpelt(name: string, args: seq<Arg>, gap: string)
    ensures Render(PlainPieces(name, args, "") + [Mark(';', gap)]) == name + ArgsText(args) + ";" + gap
  {
    PlainSpelt(name, args, "");
    R.RenderConcat(PlainPieces(name, args, ""), [Mark(';', gap)]);
    R.Render1(Mark(';', gap));
    assert Show(Mark(';', gap)) == ";" + gap;
  }

  lemma TestedSpelt(name: string, tree: Tree, braces: seq<Piece>)
    ensures Render([Word(name, " ")] + (TreePieces(tree, " ") + braces))
      == name + " " + TreeText(tree) + " " + Render(braces)
  {
    RenderFirst(Word(name, " "), TreePieces(tree, " ") + braces);
    R.RenderConcat(TreePieces(tree, " "), braces);
    TreeSpelt(tree, " ");
    TestedGlue(name, TreeText(tree), Render(braces));
  }

  lemma TestedGlue(name: string, tree: string, braces: string)
    ensures (name + " ") + ((tree + " ") + braces) == name + " " + tree + " " + braces
  {
  }

  lemma {:induction false} NodeSpelt(n: Node, gap: string)
    ensures Render(NodePieces(n, gap)) == NodeText(n, gap)
    decreases n, 0
  {
    match n
    case Simple(name, args) => SimpleSpelt(name, args, gap);
    case Braced(name, body) =>
      NodesSpelt(body, gap);
      var ps := NodesPieces(body, gap);
      RenderFirst(Word(name, " "), Braces(ps, gap));
      BracesSpelt(ps, gap);
    case Tested(name, tree, body) =>
      NodesSpelt(body, gap);
      var ps := NodesPieces(body, gap);
      TestedSpelt(name, tree, Braces(ps, gap));
      BracesSpelt(ps, gap);
  }

  /** The text is the lexemes, each with its blanks. */
  lemma {:induction false} NodesSpelt(ns: seq<Node>, gap: string)
    ensures Render(NodesPieces(ns, gap)) == NodesText(ns, gap)
    decreases ns, 1
  {
    if ns != [] {
      NodeSpelt(ns[0], gap);
      NodesSpelt(ns[1..], gap);
      R.RenderConcat(NodePieces(ns[0], gap), NodesPieces(ns[1..], gap));
    }
  }
}
