/** The parser gives back every syntax tree whose text it reads. */
module SieveReading {
  import opened SieveLexer
  import opened Ascii
  import opened SieveText
  import opened SieveSyntax
  import P = SieveParser
  import R = SieveRules
  import M = SieveRulesMeaning
  import L = Lists

  // ---- every lexeme is read on its own --------------------------------------------------------

  /** Text that ends a word or a number in front of it. */
  predicate Stops(s: string) {
    s == "" || s[0] == ' ' || s[0] == '\n' || IsMark(s[0])
  }

  lemma StopsBlank(gap: string, rest: string)
    requires Blank(gap) && (gap != "" || Stops(rest))
    ensures Stops(gap + rest)
  {
    if gap != "" { assert (gap + rest)[0] == gap[0]; } else { assert gap + rest == rest; }
  }

  lemma OneReadable(p: Piece, rest: string)
    requires Readable(p, rest)
    ensures AllReadable([p], rest)
  {
    assert Render([p][1..]) + rest == rest;
  }

  lemma {:induction false} ReadableConcat(a: seq<Piece>, b: seq<Piece>, rest: string)
    requires AllReadable(a, Render(b) + rest) && AllReadable(b, rest)
    ensures AllReadable(a + b, rest)
  {
    if a == [] {
      L.EmptyConcat(a, b);
    } else {
      L.ConsConcat(a, b);
      ReadableConcat(a[1..], b, rest);
      R.RenderConcat(a[1..], b);
      L.Assoc(Render(a[1..]), Render(b), rest);
    }
  }

  lemma ReadableCons(p: Piece, ps: seq<Piece>, rest: string)
    requires Readable(p, Render(ps) + rest) && AllReadable(ps, rest)
    ensures AllReadable([p] + ps, rest)
  {
    OneReadable(p, Render(ps) + rest);
    ReadableConcat([p], ps, rest);
  }

  lemma {:induction false} ItemsReadable(ss: seq<string>, rest: string)
    ensures AllReadable(Items(ss), rest)
  {
    if |ss| == 1 {
      OneReadable(Quoted(ss[0], ""), rest);
    } else if |ss| > 1 {
      ItemsReadable(ss[1..], rest);
      ReadableCons(Mark(',', " "), Items(ss[1..]), rest);
      ReadableCons(Quoted(ss[0], ""), [Mark(',', " ")] + Items(ss[1..]), rest);
    }
  }

  lemma ListReadable(ss: seq<string>, gap: string, rest: string)
    requires Blank(gap)
    ensures AllReadable(ListPieces(ss, gap), rest)
  {
    OneReadable(Mark(']', gap), rest);
    ItemsReadable(ss, Render([Mark(']', gap)]) + rest);
    ReadableConcat(Items(ss), [Mark(']', gap)], rest);
    ReadableCons(Mark('[', ""), Items(ss) + [Mark(']', gap)], rest);
  }

  lemma ArgReadable(a: Arg, gap: string, rest: string)
    requires FineArg(a) && Blank(gap) && Stops(gap + rest)
    ensures AllReadable(ArgPieces(a, gap), rest)
  {
    match a
    case Tagged(id) => OneReadable(Colon(id, gap), rest);
    case One(s) => OneReadable(Quoted(s, gap), rest);
    case Many(ss) => ListReadable(ss, gap, rest);
    case Bytes(n, unit, amount) => OneReadable(Figure(n, unit, amount, gap), rest);
    case Option(o) => OptionReadable(o, gap, rest);
  }

  lemma OptionReadable(o: Opt, gap: string, rest: string)
    requires IsName(o.tag) && Blank(gap)
    ensures AllReadable([Colon(o.tag, " ")] + [Quoted(o.value, gap)], rest)
  {
    OneReadable(Quoted(o.value, gap), rest);
    StopsBlank(" ", Render([Quoted(o.value, gap)]) + rest);
    ReadableCons(Colon(o.tag, " "), [Quoted(o.value, gap)], rest);
  }

  lemma {:induction false} ArgsReadable(args: seq<Arg>, gap: string, rest: string)
    requires FineArgs(args) && Blank(gap) && Stops(gap + rest)
    ensures AllReadable(ArgsPieces(args, gap), rest)
  {
    if args != [] {
      ArgsReadable(args[1..], gap, rest);
      var here, more := Between(args, gap), ArgsPieces(args[1..], gap);
      var after := Render(more) + rest;
      if |args| == 1 { assert after == rest; } else { StopsBlank(" ", after); }
      ArgReadable(args[0], here, after);
      ReadableConcat(ArgPieces(args[0], here), more, rest);
    }
  }

  lemma PlainReadable(name: string, args: seq<Arg>, gap: string, rest: string)
    requires IsName(name) && FineArgs(args) && Blank(gap) && Stops(gap + rest)
    ensures AllReadable(PlainPieces(name, args, gap), rest)
  {
    if args == [] {
      OneReadable(Word(name, gap), rest);
    } else {
      ArgsReadable(args, gap, rest);
      StopsBlank(" ", Render(ArgsPieces(args, gap)) + rest);
      ReadableCons(Word(name, " "), ArgsPieces(args, gap), rest);
    }
  }

  lemma {:induction false} TreeReadable(t: Tree, gap: string, rest: string)
    requires Fine(t) && Blank(gap) && Stops(gap + rest)
    ensures AllReadable(TreePieces(t, gap), rest)
    decreases t, 0
  {
    match t
    case Leaf(name, args) => PlainReadable(name, args, gap, rest);
    case Negated(kid) =>
      TreeReadable(kid, gap, rest);
      StopsBlank(" ", Render(TreePieces(kid, gap)) + rest);
      ReadableCons(Word("not", " "), TreePieces(kid, gap), rest);
    case Group(name, kids) =>
      var tail := Render([Mark(')', gap)]) + rest;
      R.Render1(Mark(')', gap));
      assert tail[0] == ')';
      TreesReadable(kids, tail);
      GroupReadable(name, TreesPieces(kids), gap, rest);
  }

  lemma GroupReadable(name: string, inner: seq<Piece>, gap: string, rest: string)
    requires IsName(name) && Blank(gap) && AllReadable(inner, Render([Mark(')', gap)]) + rest)
    ensures AllReadable(GroupPieces(name, inner, gap), rest)
  {
    var close := [Mark(')', gap)];
    OneReadable(close[0], rest);
    ReadableConcat(inner, close, rest);
    ReadableCons(Mark('(', ""), inner + close, rest);
    var more := [Mark('(', "")] + (inner + close);
    StopsBlank(" ", Render(more) + rest);
    ReadableCons(Word(name, " "), more, rest);
  }

  lemma {:induction false} TreesReadable(ts: seq<Tree>, rest: string)
    requires (forall i :: 0 <= i < |ts| ==> Fine(ts[i])) && Stops(rest)
    ensures AllReadable(TreesPieces(ts), rest)
    decreases ts, 1
  {
    if |ts| == 1 {
      StopsBlank("", rest);
      TreeReadable(ts[0], "", rest);
    } else if |ts| > 1 {
      TreesReadable(ts[1..], rest);
      var more := [Mark(',', " ")] + TreesPieces(ts[1..]);
      ReadableCons(Mark(',', " "), TreesPieces(ts[1..]), rest);
      var tail := Render(more) + rest;
      RenderFirst(Mark(',', " "), TreesPieces(ts[1..]));
      assert tail[0] == ',';
      StopsBlank("", tail);
      TreeReadable(ts[0], "", tail);
      ReadableConcat(TreePieces(ts[0], ""), more, rest);
    }
  }

  lemma BracesReadable(ps: seq<Piece>, gap: string, rest: string)
    requires Blank(gap) && AllReadable(ps, Render([Mark('}', gap)]) + rest)
    ensures AllReadable(Braces(ps, gap), rest)
  {
    OneReadable(Mark('}', gap), rest);
    ReadableConcat(ps, [Mark('}', gap)], rest);
    ReadableCons(Mark('{', gap), ps + [Mark('}', gap)], rest);
  }

  lemma TestedReadable(name: string, tree: Tree, braces: seq<Piece>, rest: string)
    requires IsName(name) && Fine(tree) && AllReadable(braces, rest)
    ensures AllReadable([Word(name, " ")] + (TreePieces(tree, " ") + braces), rest)
  {
    var tail := Render(braces) + rest;
    StopsBlank(" ", tail);
    TreeReadable(tree, " ", tail);
    ReadableConcat(TreePieces(tree, " "), braces, rest);
    StopsBlank(" ", Render(TreePieces(tree, " ") + braces) + rest);
    ReadableCons(Word(name, " "), TreePieces(tree, " ") + braces, rest);
  }

  lemma SimpleReadable(name: string, args: seq<Arg>, gap: string, rest: string)
    requires IsName(name) && FineArgs(args) && Blank(gap)
    ensures AllReadable(PlainPieces(name, args, "") + [Mark(';', gap)], rest)
  {
    var semi := [Mark(';', gap)];
    OneReadable(semi[0], rest);
    var tail := Render(semi) + rest;
    R.Render1(semi[0]);
    assert tail[0] == ';';
    StopsBlank("", tail);
    PlainReadable(name, args, "", tail);
    ReadableConcat(PlainPieces(name, args, ""), semi, rest);
  }

  lemma {:induction false} NodeReadable(n: Node, gap: string, rest: string)
    requires FineNode(n) && Blank(gap)
    ensures AllReadable(NodePieces(n, gap), rest)
    decreases n, 0
  {
    if n.Simple? {
      SimpleReadable(n.name, n.args, gap, rest);
    } else {
      var ps := NodesPieces(n.body, gap);
      NodesReadable(n.body, gap, Render([Mark('}', gap)]) + rest);
      BracesReadable(ps, gap, rest);
      if n.Tested? {
        TestedReadable(n.name, n.tree, Braces(ps, gap), rest);
      } else {
        StopsBlank(" ", Render(Braces(ps, gap)) + rest);
        ReadableCons(Word(n.name, " "), Braces(ps, gap), rest);
      }
    }
  }

  lemma {:induction false} NodesReadable(ns: seq<Node>, gap: string, rest: string)
    requires FineNodes(ns) && Blank(gap)
    ensures AllReadable(NodesPieces(ns, gap), rest)
    decreases ns, 1
  {
    if ns != [] {
      NodeReadable(ns[0], gap, Render(NodesPieces(ns[1..], gap)) + rest);
      NodesReadable(ns[1..], gap, rest);
      ReadableConcat(NodePieces(ns[0], gap), NodesPieces(ns[1..], gap), rest);
    }
  }

  // ---- parsing --------------------------------------------------------------------------------

  function Taken(t: P.Test, a: Arg): P.Test {
    match a
    case Tagged(id) => t.(tags := t.tags[Lower(id) := ""])
    case One(s) => t.(strings := t.strings + [s])
    case Many(ss) => t.(strings := t.strings + ss)
    case Bytes(_, _, amount) => t.(numbers := t.numbers + [amount])
    case Option(o) => t.(tags := t.tags[Lower(o.tag) := ""], strings := t.strings + [o.value])
  }

  function TakenAll(t: P.Test, args: seq<Arg>): P.Test
    decreases |args|
  {
    if args == [] then t else TakenAll(Taken(t, args[0]), args[1..])
  }

  function BareTest(name: string): P.Test {
    P.Test(Lower(name), map[], [], [], [])
  }

  function TestOf(t: Tree): P.Test
    decreases t
  {
    match t
    case Leaf(name, args) => TakenAll(BareTest(name), args)
    case Negated(kid) => BareTest("not").(tests := [TestOf(kid)])
    case Group(name, kids) =>
      BareTest(name).(tests := seq(|kids|, i requires 0 <= i < |kids| => TestOf(kids[i])))
  }

  function TestsOf(ts: seq<Tree>): seq<P.Test> {
    seq(|ts|, i requires 0 <= i < |ts| => TestOf(ts[i]))
  }

  predicate Spot(toks: seq<Token>, pos: nat, ps: seq<Piece>, i: nat) {
    i < |ps| && pos + i < |toks| && IsPiece(toks[pos + i], ps[i])
  }

  /** The tokens from pos on spell the pieces. */
  ghost predicate There(toks: seq<Token>, pos: nat, ps: seq<Piece>) {
    P.Terminated(toks) && pos + |ps| < |toks| && forall i :: 0 <= i < |ps| ==> Spot(toks, pos, ps, i)
  }

  lemma ThereSplit(toks: seq<Token>, pos: nat, a: seq<Piece>, b: seq<Piece>)
    requires There(toks, pos, a + b)
    ensures There(toks, pos, a) && There(toks, pos + |a|, b)
  {
    forall i: nat | i < |a| ensures Spot(toks, pos, a, i) {
      assert Spot(toks, pos, a + b, i);
    }
    var mid := pos + |a|;
    forall i: nat | i < |b| ensures Spot(toks, mid, b, i) {
      assert Spot(toks, pos, a + b, |a| + i);
    }
  }

  lemma ThereJoin(toks: seq<Token>, pos: nat, a: seq<Piece>, b: seq<Piece>)
    requires There(toks, pos, a) && There(toks, pos + |a|, b)
    ensures There(toks, pos, a + b)
  {
    forall i: nat | i < |a + b| ensures Spot(toks, pos, a + b, i) {
      if i < |a| { assert Spot(toks, pos, a, i); } else { assert Spot(toks, pos + |a|, b, i - |a|); }
    }
  }

  lemma ThereOne(toks: seq<Token>, pos: nat, p: Piece)
    requires There(toks, pos, [p])
    ensures P.Terminated(toks) && pos + 1 < |toks| && IsPiece(toks[pos], p)
  {
    assert Spot(toks, pos, [p], 0);
  }

  lemma ThereHead(toks: seq<Token>, pos: nat, p: Piece, ps: seq<Piece>)
    requires There(toks, pos, [p] + ps)
    ensures P.Terminated(toks) && pos + 1 < |toks| && IsPiece(toks[pos], p) && There(toks, pos + 1, ps)
  {
    ThereSplit(toks, pos, [p], ps);
    ThereOne(toks, pos, p);
  }

  // ---- the tokens of arguments ----------------------------------------------------------------

  /** A list of strings, after its opening bracket. */
  ghost predicate ItemsAt(toks: seq<Token>, pos: nat, ss: seq<string>)
    decreases |ss|
  {
    && P.Terminated(toks) && pos + 2 * |ss| < |toks|
    && (ss == [] ==> toks[pos].kind == RBracket)
    && (ss != [] ==> toks[pos].kind == Str && toks[pos].val == ss[0])
    && (|ss| == 1 ==> toks[pos + 1].kind == RBracket)
    && (|ss| > 1 ==> toks[pos + 1].kind == Comma && ItemsAt(toks, pos + 2, ss[1..]))
  }

  function ItemsLength(ss: seq<string>): nat {
    if ss == [] then 1 else 2 * |ss|
  }

  function ArgLength(a: Arg): nat {
    match a
    case Tagged(_) => 1
    case One(_) => 1
    case Many(ss) => 1 + ItemsLength(ss)
    case Bytes(_, _, _) => 1
    case Option(_) => 2
  }

  ghost predicate ArgAt(toks: seq<Token>, pos: nat, a: Arg) {
    && P.Terminated(toks) && pos + ArgLength(a) < |toks|
    && match a
       case Tagged(id) => toks[pos].kind == Tag && toks[pos].val == id
       case One(s) => toks[pos].kind == Str && toks[pos].val == s
       case Many(ss) => toks[pos].kind == LBracket && ItemsAt(toks, pos + 1, ss)
       case Bytes(_, _, amount) => toks[pos].kind == Number && toks[pos].num == amount
       case Option(o) => toks[pos].kind == Tag && toks[pos].val == o.tag && toks[pos + 1].kind == Str
                         && toks[pos + 1].val == o.value
  }

  /** The arguments, from pos up to end. */
  ghost predicate ArgsAt(toks: seq<Token>, pos: nat, args: seq<Arg>, end: nat)
    decreases |args|
  {
    if args == [] then P.Terminated(toks) && pos == end < |toks|
    else ArgAt(toks, pos, args[0]) && ArgsAt(toks, pos + ArgLength(args[0]), args[1..], end)
  }

  lemma {:induction false} ItemsThere(toks: seq<Token>, pos: nat, ss: seq<string>, gap: string)
    requires There(toks, pos, Items(ss) + [Mark(']', gap)])
    ensures ItemsAt(toks, pos, ss) && |Items(ss)| + 1 == ItemsLength(ss)
    decreases |ss|
  {
    var close := [Mark(']', gap)];
    ThereSplit(toks, pos, Items(ss), close);
    ThereOne(toks, pos + |Items(ss)|, Mark(']', gap));
    if |ss| == 1 {
      ThereOne(toks, pos, Quoted(ss[0], ""));
    } else if |ss| > 1 {
      ItemThere(toks, pos, ss[0], Items(ss[1..]), close);
      ItemsThere(toks, pos + 2, ss[1..], gap);
    }
  }

  lemma ItemThere(toks: seq<Token>, pos: nat, s: string, rest: seq<Piece>, close: seq<Piece>)
    requires There(toks, pos, [Quoted(s, "")] + ([Mark(',', " ")] + rest)) && There(toks, pos + 2 + |rest|, close)
    ensures pos + 2 < |toks| && toks[pos].kind == Str && toks[pos].val == s && toks[pos + 1].kind == Comma
    ensures There(toks, pos + 2, rest + close)
  {
    ThereHead(toks, pos, Quoted(s, ""), [Mark(',', " ")] + rest);
    ThereHead(toks, pos + 1, Mark(',', " "), rest);
    ThereJoin(toks, pos + 2, rest, close);
  }

  lemma ArgThere(toks: seq<Token>, pos: nat, a: Arg, gap: string)
    requires There(toks, pos, ArgPieces(a, gap))
    ensures ArgAt(toks, pos, a) && |ArgPieces(a, gap)| == ArgLength(a)
  {
    match a
    case Tagged(id) => ThereOne(toks, pos, Colon(id, gap));
    case One(s) => ThereOne(toks, pos, Quoted(s, gap));
    case Many(ss) =>
      ThereHead(toks, pos, Mark('[', ""), Items(ss) + [Mark(']', gap)]);
      ItemsThere(toks, pos + 1, ss, gap);
    case Bytes(n, unit, amount) => ThereOne(toks, pos, Figure(n, unit, amount, gap));
    case Option(o) =>
      ThereHead(toks, pos, Colon(o.tag, " "), [Quoted(o.value, gap)]);
      ThereOne(toks, pos + 1, Quoted(o.value, gap));
  }

  lemma {:induction false} ArgsThere(toks: seq<Token>, pos: nat, args: seq<Arg>, gap: string, ps: seq<Piece>, end: nat)
    requires There(toks, pos, ps) && ps == ArgsPieces(args, gap) && end == pos + |ps|
    ensures ArgsAt(toks, pos, args, end)
    decreases |args|
  {
    if args != [] {
      var next, rest := ArgsThereFirst(toks, pos, args, gap, ps);
      ArgsThere(toks, next, args[1..], gap, rest, end);
    }
  }

  lemma ArgsThereFirst(toks: seq<Token>, pos: nat, args: seq<Arg>, gap: string, ps: seq<Piece>)
    returns (next: nat, rest: seq<Piece>)
    requires There(toks, pos, ps) && args != [] && ps == ArgsPieces(args, gap)
    ensures ArgAt(toks, pos, args[0]) && next == pos + ArgLength(args[0])
    ensures There(toks, next, rest) && rest == ArgsPieces(args[1..], gap) && pos + |ps| == next + |rest|
  {
    rest := ArgsPieces(args[1..], gap);
    next := ArgThereFirst(toks, pos, args[0], Between(args, gap), ps, rest);
  }

  lemma ArgThereFirst(toks: seq<Token>, pos: nat, a: Arg, gap: string, ps: seq<Piece>, rest: seq<Piece>)
    returns (next: nat)
    requires There(toks, pos, ps) && ps == ArgPieces(a, gap) + rest
    ensures ArgAt(toks, pos, a) && next == pos + ArgLength(a)
    ensures There(toks, next, rest) && |ps| == ArgLength(a) + |rest|
  {
    ThereSplit(toks, pos, ArgPieces(a, gap), rest);
    ArgThere(toks, pos, a, gap);
    next := pos + ArgLength(a);
  }

  // ---- reading arguments ----------------------------------------------------------------------

  /** A string of a list, with or without a comma behind it. */
  lemma StringsTake(toks: seq<Token>, pos: nat, acc: seq<string>)
    requires P.Terminated(toks) && pos + 2 < |toks| && toks[pos].kind == Str
    ensures toks[pos + 1].kind == Comma ==> P.Strings(toks, pos, acc) == P.Strings(toks, pos + 2, acc + [toks[pos].val])
    ensures toks[pos + 1].kind == RBracket ==> P.Strings(toks, pos, acc) == P.Done(acc + [toks[pos].val], pos + 2)
  {
  }

  lemma {:induction false} ParsesItems(toks: seq<Token>, pos: nat, ss: seq<string>, acc: seq<string>)
    requires ItemsAt(toks, pos, ss)
    ensures P.Strings(toks, pos, acc) == P.Done(acc + ss, pos + ItemsLength(ss))
    decreases |ss|
  {
    if ss == [] {
      assert acc + ss == acc;
    } else {
      StringsTake(toks, pos, acc);
      ItemsCons(acc, ss);
      if |ss| > 1 { ParsesItems(toks, pos + 2, ss[1..], acc + [ss[0]]); }
    }
  }

  lemma ItemsCons(acc: seq<string>, ss: seq<string>)
    requires ss != []
    ensures acc + [ss[0]] + ss[1..] == acc + ss && (|ss| == 1 ==> acc + [ss[0]] == acc + ss)
  {
  }

  lemma ListTaken(toks: seq<Token>, pos: nat, ss: seq<string>)
    requires ArgAt(toks, pos, Many(ss))
    ensures P.Strings(toks, pos + 1, []) == P.Done(ss, pos + 1 + ItemsLength(ss))
  {
    var none: seq<string> := [];
    ParsesItems(toks, pos + 1, ss, none);
    L.EmptyConcat(none, ss);
  }

  lemma ArgTaken(toks: seq<Token>, pos: nat, a: Arg, t: P.Test)
    requires ArgAt(toks, pos, a)
    ensures P.TestArguments(toks, pos, t) == P.TestArguments(toks, pos + ArgLength(a), Taken(t, a))
  {
    match a
    case Tagged(id) =>
    case One(_) =>
    case Many(ss) => ListTaken(toks, pos, ss);
    case Bytes(_, _, _) =>
    case Option(o) => OptionTaken(toks, pos, o, t);
  }

  lemma OptionTaken(toks: seq<Token>, pos: nat, o: Opt, t: P.Test)
    requires ArgAt(toks, pos, Option(o))
    ensures P.TestArguments(toks, pos, t) == P.TestArguments(toks, pos + 2, Taken(t, Option(o)))
  {
    var once := t.(tags := t.tags[Lower(o.tag) := ""]);
    assert P.TestArguments(toks, pos, t) == P.TestArguments(toks, pos + 1, once);
  }

  lemma {:induction false} ArgsTaken(toks: seq<Token>, pos: nat, args: seq<Arg>, end: nat, t: P.Test)
    requires ArgsAt(toks, pos, args, end)
    ensures pos <= end < |toks| && P.TestArguments(toks, pos, t) == P.TestArguments(toks, end, TakenAll(t, args))
    decreases |args|
  {
    if args != [] {
      ArgTaken(toks, pos, args[0], t);
      ArgsTaken(toks, pos + ArgLength(args[0]), args[1..], end, Taken(t, args[0]));
    }
  }

  /** What may follow a test. */
  ghost predicate EndsTest(toks: seq<Token>, pos: nat) {
    P.Terminated(toks) && pos < |toks| && toks[pos].kind in {Comma, RParen, LBrace}
  }

  lemma ParsesPlain(toks: seq<Token>, pos: nat, name: string, args: seq<Arg>, gap: string)
    requires There(toks, pos, PlainPieces(name, args, gap)) && EndsTest(toks, pos + |PlainPieces(name, args, gap)|)
    requires Lower(name) != "allof" && Lower(name) != "anyof" && Lower(name) != "not"
    requires Lower(name) == "true" || Lower(name) == "false" ==> args == []
    ensures P.TestAt(toks, pos) == P.Done(TakenAll(BareTest(name), args), pos + |PlainPieces(name, args, gap)|)
  {
    var end := PlainAt(toks, pos, name, args, gap);
    PlainTest(toks, pos, name);
    ArgsTaken(toks, pos + 1, args, end, BareTest(name));
    ArgumentsEnd(toks, end, TakenAll(BareTest(name), args));
  }

  lemma PlainAt(toks: seq<Token>, pos: nat, name: string, args: seq<Arg>, gap: string) returns (end: nat)
    requires There(toks, pos, PlainPieces(name, args, gap))
    ensures end == pos + |PlainPieces(name, args, gap)|
    ensures P.Terminated(toks) && pos < end < |toks| && toks[pos].kind == Ident && toks[pos].val == name
    ensures ArgsAt(toks, pos + 1, args, end) && (args == [] ==> end == pos + 1)
  {
    end := pos + |PlainPieces(name, args, gap)|;
    if args == [] {
      ThereOne(toks, pos, Word(name, gap));
    } else {
      ThereHead(toks, pos, Word(name, " "), ArgsPieces(args, gap));
      ArgsThere(toks, pos + 1, args, gap, ArgsPieces(args, gap), end);
    }
  }

  lemma ArgumentsEnd(toks: seq<Token>, pos: nat, t: P.Test)
    requires EndsTest(toks, pos)
    ensures P.TestArguments(toks, pos, t) == P.Done(t, pos)
  {
  }

  lemma PlainTest(toks: seq<Token>, pos: nat, name: string)
    requires P.Terminated(toks) && pos + 1 < |toks| && toks[pos].kind == Ident && toks[pos].val == name
    requires Lower(name) != "allof" && Lower(name) != "anyof" && Lower(name) != "not"
    ensures P.TestAt(toks, pos) == if Lower(name) == "true"
      || Lower(name) == "false" then P.Done(BareTest(name), pos + 1)
                                   else P.TestArguments(toks, pos + 1, BareTest(name))
  {
  }

  lemma ParsesNot(toks: seq<Token>, pos: nat, t: P.Test, next: nat)
    requires P.Terminated(toks) && pos + 1 < next < |toks| && toks[pos].kind == Ident && toks[pos].val == "not"
    requires P.TestAt(toks, pos + 1) == P.Done(t, next)
    ensures P.TestAt(toks, pos) == P.Done(BareTest("not").(tests := [t]), next)
  {
    M.LowerSame("not");
  }

  lemma {:induction false} ParsesTree(toks: seq<Token>, pos: nat, t: Tree, gap: string)
    requires Fine(t) && There(toks, pos, TreePieces(t, gap)) && EndsTest(toks, pos + |TreePieces(t, gap)|)
    ensures P.TestAt(toks, pos) == P.Done(TestOf(t), pos + |TreePieces(t, gap)|)
    decreases t, 0
  {
    match t
    case Leaf(name, args) => ParsesPlain(toks, pos, name, args, gap);
    case Negated(kid) =>
      var ps := TreePieces(kid, gap);
      ThereHead(toks, pos, Word("not", " "), ps);
      ParsesTree(toks, pos + 1, kid, gap);
      NotEmpty(kid, gap);
      ParsesNot(toks, pos, TestOf(kid), pos + 1 + |ps|);
    case Group(name, kids) =>
      ParsesGroup(toks, pos, name, kids, gap);
  }

  lemma NotEmpty(t: Tree, gap: string)
    ensures TreePieces(t, gap) != []
  {
  }

  lemma {:induction false} ParsesGroup(toks: seq<Token>, pos: nat, name: string, kids: seq<Tree>, gap: string)
    requires kids != [] && (forall i :: 0 <= i < |kids| ==> Fine(kids[i]))
    requires Lower(name) == "allof" || Lower(name) == "anyof"
    requires There(toks, pos, GroupPieces(name, TreesPieces(kids), gap))
    ensures P.TestAt(toks, pos) == P.Done(BareTest(name).(tests := TestsOf(kids)), pos + |TreesPieces(kids)| + 3)
    decreases kids, 2
  {
    var inner := TreesPieces(kids);
    GroupAt(toks, pos, name, inner, gap);
    ParsesTrees(toks, pos + 2, kids, []);
    L.EmptyConcat([], TestsOf(kids));
    GroupDone(toks, pos, name, TestsOf(kids), pos + 2 + |inner|);
  }

  lemma GroupAt(toks: seq<Token>, pos: nat, name: string, inner: seq<Piece>, gap: string)
    requires There(toks, pos, GroupPieces(name, inner, gap))
    ensures P.Terminated(toks) && pos + 2 + |inner| < |toks| && toks[pos].kind == Ident && toks[pos].val == name
    ensures toks[pos + 1].kind == LParen && There(toks, pos + 2, inner) && toks[pos + 2 + |inner|].kind == RParen
  {
    ThereHead(toks, pos, Word(name, " "), [Mark('(', "")] + (inner + [Mark(')', gap)]));
    ThereHead(toks, pos + 1, Mark('(', ""), inner + [Mark(')', gap)]);
    ThereSplit(toks, pos + 2, inner, [Mark(')', gap)]);
    ThereOne(toks, pos + 2 + |inner|, Mark(')', gap));
  }

  lemma GroupDone(toks: seq<Token>, pos: nat, name: string, ts: seq<P.Test>, close: nat)
    requires P.Terminated(toks) && pos + 2 <= close < |toks| && toks[pos].kind == Ident && toks[pos].val == name
    requires (Lower(name) == "allof" || Lower(name) == "anyof") && toks[pos + 1].kind == LParen
    requires P.TestList(toks, pos + 2, []) == P.Done(ts, close) && toks[close].kind == RParen
    ensures P.TestAt(toks, pos) == P.Done(BareTest(name).(tests := ts), close + 1)
  {
  }

  lemma ListTakes(toks: seq<Token>, pos: nat, t: P.Test, next: nat, acc: seq<P.Test>)
    requires P.Terminated(toks) && pos < next < |toks| && P.TestAt(toks, pos) == P.Done(t, next)
    requires toks[next].kind == Comma ==> next + 1 < |toks|
    ensures P.TestList(toks, pos, acc)
         == if toks[next].kind == Comma then P.TestList(toks, next + 1, acc + [t]) else P.Done(acc + [t], next)
  {
  }

  lemma {:induction false} ParsesTrees(toks: seq<Token>, pos: nat, ts: seq<Tree>, acc: seq<P.Test>)
    requires ts != [] && forall i :: 0 <= i < |ts| ==> Fine(ts[i])
    requires There(toks, pos, TreesPieces(ts)) && toks[pos + |TreesPieces(ts)|].kind == RParen
    ensures P.TestList(toks, pos, acc) == P.Done(acc + TestsOf(ts), pos + |TreesPieces(ts)|)
    decreases ts, 1
  {
    if |ts| == 1 {
      var t := TestOf(ts[0]);
      NotEmpty(ts[0], "");
      ParsesTree(toks, pos, ts[0], "");
      ListTakes(toks, pos, t, pos + |TreePieces(ts[0], "")|, acc);
      assert TestsOf(ts) == [t];
    } else {
      ParsesMore(toks, pos, ts, acc);
    }
  }

  lemma {:induction false} ParsesMore(toks: seq<Token>, pos: nat, ts: seq<Tree>, acc: seq<P.Test>)
    requires |ts| > 1 && forall i :: 0 <= i < |ts| ==> Fine(ts[i])
    requires There(toks, pos, TreesPieces(ts)) && toks[pos + |TreesPieces(ts)|].kind == RParen
    ensures P.TestList(toks, pos, acc) == P.Done(acc + TestsOf(ts), pos + |TreesPieces(ts)|)
    decreases ts, 0
  {
    var next := CommaAt(toks, pos, TreesPieces(ts), TreePieces(ts[0], ""), TreesPieces(ts[1..]));
    FirstParses(toks, pos, ts[0], acc, next);
    ParsesTrees(toks, next + 1, ts[1..], acc + [TestOf(ts[0])]);
    TestsCons(ts, acc);
  }

  lemma CommaAt(toks: seq<Token>, pos: nat, ps: seq<Piece>, first: seq<Piece>, rest: seq<Piece>) returns (next: nat)
    requires There(toks, pos, ps) && ps == first + ([Mark(',', " ")] + rest)
    ensures next == pos + |first| && There(toks, pos, first) && There(toks, next + 1, rest) && toks[next].kind == Comma
  {
    next := pos + |first|;
    ThereSplit(toks, pos, first, [Mark(',', " ")] + rest);
    ThereHead(toks, next, Mark(',', " "), rest);
  }

  lemma {:induction false} FirstParses(toks: seq<Token>, pos: nat, t: Tree, acc: seq<P.Test>, next: nat)
    requires Fine(t) && There(toks, pos, TreePieces(t, "")) && next == pos + |TreePieces(t, "")|
    requires next + 1 < |toks| && toks[next].kind == Comma
    ensures P.TestList(toks, pos, acc) == P.TestList(toks, next + 1, acc + [TestOf(t)])
    decreases t, 1
  {
    NotEmpty(t, "");
    ParsesTree(toks, pos, t, "");
    ListTakes(toks, pos, TestOf(t), next, acc);
  }

  lemma TestsCons(ts: seq<Tree>, acc: seq<P.Test>)
    requires ts != []
    ensures acc + [TestOf(ts[0])] + TestsOf(ts[1..]) == acc + TestsOf(ts)
  {
    assert [TestOf(ts[0])] + TestsOf(ts[1..]) == TestsOf(ts);
  }

  function CommandTaken(cmd: P.Command, a: Arg): P.Command {
    match a
    case Tagged(id) => cmd.(tags := cmd.tags[Lower(id) := ""])
    case One(s) => cmd.(strings := cmd.strings + [s])
    case Many(ss) => cmd.(strings := cmd.strings + ss)
    case Bytes(_, _, amount) => cmd.(numbers := cmd.numbers + [amount])
    case Option(o) => cmd.(tags := cmd.tags[Lower(o.tag) := o.value])
  }

  function CommandTakenAll(cmd: P.Command, args: seq<Arg>): P.Command
    decreases |args|
  {
    if args == [] then cmd else CommandTakenAll(CommandTaken(cmd, args[0]), args[1..])
  }

  function Bare(name: string): P.Command {
    P.Command(Lower(name), map[], [], [], [], [])
  }

  function CommandOf(n: Node): P.Command
    decreases n, 0
  {
    match n
    case Simple(name, args) => CommandTakenAll(Bare(name), args)
    case Braced(name, body) => Bare(name).(block := CommandsOf(body))
    case Tested(name, tree, body) => Bare(name).(tests := [TestOf(tree)], block := CommandsOf(body))
  }

  function CommandsOf(ns: seq<Node>): seq<P.Command>
    decreases ns, 1
  {
    if ns == [] then [] else [CommandOf(ns[0])] + CommandsOf(ns[1..])
  }

  /** Arguments as commands take them: a tag takes the string behind it. */
  lemma CommandArgTaken(toks: seq<Token>, pos: nat, a: Arg, cmd: P.Command)
    requires ArgAt(toks, pos, a) && !a.Tagged?
    ensures P.Arguments(toks, pos, cmd) == P.Arguments(toks, pos + ArgLength(a), CommandTaken(cmd, a))
  {
    if a.Many? { ListTaken(toks, pos, a.ss); }
  }

  lemma {:induction false} CommandArgsTaken(toks: seq<Token>, pos: nat, args: seq<Arg>, end: nat, cmd: P.Command)
    requires ArgsAt(toks, pos, args, end) && forall i :: 0 <= i < |args| ==> !args[i].Tagged?
    ensures pos <= end < |toks| && P.Arguments(toks, pos, cmd) == P.Arguments(toks, end, CommandTakenAll(cmd, args))
    decreases |args|
  {
    if args != [] {
      CommandArgTaken(toks, pos, args[0], cmd);
      CommandArgsTaken(toks, pos + ArgLength(args[0]), args[1..], end, CommandTaken(cmd, args[0]));
    }
  }

  lemma PlainCommand(toks: seq<Token>, pos: nat, name: string)
    requires P.Terminated(toks) && pos + 1 < |toks| && toks[pos].kind == Ident && toks[pos].val == name
      && !Testing(name)
    ensures P.CommandAt(toks, pos) == P.Arguments(toks, pos + 1, Bare(name))
  {
  }

  lemma SemiEnds(toks: seq<Token>, pos: nat, cmd: P.Command)
    requires P.Terminated(toks) && pos < |toks| && toks[pos].kind == Semi
    ensures P.Arguments(toks, pos, cmd) == P.Done(cmd, pos + 1)
  {
  }

  lemma ParsesSimple(toks: seq<Token>, pos: nat, name: string, args: seq<Arg>, gap: string)
    requires There(toks, pos, PlainPieces(name, args, "") + [Mark(';', gap)])
    requires !Testing(name) && forall i :: 0 <= i < |args| ==> !args[i].Tagged?
    ensures toks[pos].kind == Ident
    ensures P.CommandAt(toks, pos)
         == P.Done(CommandTakenAll(Bare(name), args), pos + |PlainPieces(name, args, "")| + 1)
  {
    var end := SimpleAt(toks, pos, name, args, gap);
    PlainCommand(toks, pos, name);
    CommandArgsTaken(toks, pos + 1, args, end, Bare(name));
    SemiEnds(toks, end, CommandTakenAll(Bare(name), args));
  }

  lemma SimpleAt(toks: seq<Token>, pos: nat, name: string, args: seq<Arg>, gap: string) returns (end: nat)
    requires There(toks, pos, PlainPieces(name, args, "") + [Mark(';', gap)])
    ensures end == pos + |PlainPieces(name, args, "")|
    ensures P.Terminated(toks) && pos < end < |toks| && toks[pos].kind == Ident && toks[pos].val == name
    ensures ArgsAt(toks, pos + 1, args, end) && toks[end].kind == Semi
  {
    ThereSplit(toks, pos, PlainPieces(name, args, ""), [Mark(';', gap)]);
    end := PlainAt(toks, pos, name, args, "");
    ThereOne(toks, end, Mark(';', gap));
  }

  /** Braces around commands already read. */
  lemma ParsesBraces(toks: seq<Token>, pos: nat, ps: seq<Piece>, gap: string, cmds: seq<P.Command>, cmd: P.Command)
    requires There(toks, pos, Braces(ps, gap))
    requires pos + 1 + |ps| < |toks| && P.Block(toks, pos + 1, []) == P.Done(cmds, pos + 1 + |ps|)
    ensures P.Arguments(toks, pos, cmd) == P.Done(cmd.(block := cmds), pos + |ps| + 2)
  {
    ThereHead(toks, pos, Mark('{', gap), ps + [Mark('}', gap)]);
    ThereSplit(toks, pos + 1, ps, [Mark('}', gap)]);
    ThereOne(toks, pos + 1 + |ps|, Mark('}', gap));
  }

  lemma TestedCommand(toks: seq<Token>, pos: nat, name: string, t: P.Test, next: nat)
    requires P.Terminated(toks) && pos + 1 < next < |toks| && toks[pos].kind == Ident && toks[pos].val == name
    requires Testing(name) && P.TestAt(toks, pos + 1) == P.Done(t, next)
    ensures P.CommandAt(toks, pos) == P.Arguments(toks, next, Bare(name).(tests := [t]))
  {
  }

  lemma BracesFollow(toks: seq<Token>, pos: nat, ps: seq<Piece>, gap: string)
    requires There(toks, pos, Braces(ps, gap))
    ensures EndsTest(toks, pos) && There(toks, pos + 1, ps) && pos + 1 + |ps| < |toks|
      && toks[pos + 1 + |ps|].kind == RBrace
  {
    ThereHead(toks, pos, Mark('{', gap), ps + [Mark('}', gap)]);
    ThereSplit(toks, pos + 1, ps, [Mark('}', gap)]);
    ThereOne(toks, pos + 1 + |ps|, Mark('}', gap));
  }

  lemma {:induction false} ParsesNode(toks: seq<Token>, pos: nat, n: Node, gap: string)
    requires FineNode(n) && There(toks, pos, NodePieces(n, gap))
    ensures toks[pos].kind == Ident && P.CommandAt(toks, pos) == P.Done(CommandOf(n), pos + |NodePieces(n, gap)|)
    decreases n, 0
  {
    match n
    case Simple(name, args) => ParsesSimple(toks, pos, name, args, gap);
    case Braced(name, body) => ParsesBraced(toks, pos, name, body, gap);
    case Tested(name, tree, body) => ParsesTested(toks, pos, NodePieces(n, gap), name, tree, body, gap);
  }

  lemma {:induction false} ParsesBraced(toks: seq<Token>, pos: nat, name: string, body: seq<Node>, gap: string)
    requires FineNodes(body) && !Testing(name)
    requires There(toks, pos, [Word(name, " ")] + Braces(NodesPieces(body, gap), gap))
    ensures toks[pos].kind == Ident
    ensures P.CommandAt(toks, pos)
         == P.Done(Bare(name).(block := CommandsOf(body)), pos + |NodesPieces(body, gap)| + 3)
    decreases body, 3
  {
    var ps := NodesPieces(body, gap);
    ThereHead(toks, pos, Word(name, " "), Braces(ps, gap));
    PlainCommand(toks, pos, name);
    BracesFollow(toks, pos + 1, ps, gap);
    ParsesBody(toks, pos + 2, body, gap);
    ParsesBraces(toks, pos + 1, ps, gap, CommandsOf(body), Bare(name));
  }

  lemma TestedAt(toks: seq<Token>, pos: nat, all: seq<Piece>, name: string, cond: seq<Piece>, ps: seq<Piece>,
                 gap: string)
    requires There(toks, pos, all) && all == [Word(name, " ")] + (cond + Braces(ps, gap))
    ensures P.Terminated(toks) && pos + 2 + |cond| + |ps| < |toks| && toks[pos].kind == Ident && toks[pos].val == name
    ensures There(toks, pos + 1, cond) && EndsTest(toks, pos + 1 + |cond|)
      && There(toks, pos + 1 + |cond|, Braces(ps, gap))
    ensures There(toks, pos + 2 + |cond|, ps) && toks[pos + 2 + |cond| + |ps|].kind == RBrace
  {
    ThereHead(toks, pos, Word(name, " "), cond + Braces(ps, gap));
    ThereSplit(toks, pos + 1, cond, Braces(ps, gap));
    BracesFollow(toks, pos + 1 + |cond|, ps, gap);
  }

  lemma {:induction false} ParsesTested(toks: seq<Token>, pos: nat, all: seq<Piece>, name: string, t: Tree,
                                        body: seq<Node>, gap: string)
    requires Fine(t) && FineNodes(body) && Testing(name) && There(toks, pos, all)
    requires all == [Word(name, " ")] + (TreePieces(t, " ") + Braces(NodesPieces(body, gap), gap))
    ensures toks[pos].kind == Ident
    ensures P.CommandAt(toks, pos) == P.Done(Bare(name).(tests := [TestOf(t)], block := CommandsOf(body)),
                                             pos + |TreePieces(t, " ")| + |NodesPieces(body, gap)| + 3)
    decreases body, 3
  {
    var ps, test := NodesPieces(body, gap), TreePieces(t, " ");
    TestedAt(toks, pos, all, name, test, ps, gap);
    var open := pos + 1 + |test|;
    NotEmpty(t, " ");
    ParsesTree(toks, pos + 1, t, " ");
    ParsesBody(toks, open + 1, body, gap);
    TestedDone(toks, pos, name, TestOf(t), open, ps, gap, CommandsOf(body));
  }

  lemma {:induction false} ParsesBody(toks: seq<Token>, pos: nat, body: seq<Node>, gap: string)
    requires FineNodes(body) && There(toks, pos, NodesPieces(body, gap))
    requires toks[pos + |NodesPieces(body, gap)|].kind in {RBrace, Eof}
    ensures P.Block(toks, pos, []) == P.Done(CommandsOf(body), pos + |NodesPieces(body, gap)|)
    decreases body, 2
  {
    var none: seq<P.Command> := [];
    ParsesNodes(toks, pos, body, gap, none);
    L.EmptyConcat(none, CommandsOf(body));
  }

  lemma TestedDone(toks: seq<Token>, pos: nat, name: string, t: P.Test, open: nat, ps: seq<Piece>, gap: string,
                   cmds: seq<P.Command>)
    requires P.Terminated(toks) && pos + 1 < open < |toks| && toks[pos].kind == Ident && toks[pos].val == name
    requires Testing(name) && P.TestAt(toks, pos + 1) == P.Done(t, open)
    requires There(toks, open, Braces(ps, gap)) && open + 1 + |ps| < |toks|
    requires P.Block(toks, open + 1, []) == P.Done(cmds, open + 1 + |ps|)
    ensures P.CommandAt(toks, pos) == P.Done(Bare(name).(tests := [t], block := cmds), open + |ps| + 2)
  {
    TestedCommand(toks, pos, name, t, open);
    ParsesBraces(toks, open, ps, gap, cmds, Bare(name).(tests := [t]));
  }

  lemma {:induction false} ParsesNodes(toks: seq<Token>, pos: nat, ns: seq<Node>, gap: string, acc: seq<P.Command>)
    requires FineNodes(ns) && There(toks, pos, NodesPieces(ns, gap))
    requires toks[pos + |NodesPieces(ns, gap)|].kind in {RBrace, Eof}
    ensures P.Block(toks, pos, acc) == P.Done(acc + CommandsOf(ns), pos + |NodesPieces(ns, gap)|)
    decreases ns, 1
  {
    if ns == [] {
      assert acc + CommandsOf(ns) == acc;
    } else {
      var next := ParsesFirst(toks, pos, ns[0], gap, NodesPieces(ns[1..], gap), acc);
      ParsesNodes(toks, next, ns[1..], gap, acc + [CommandOf(ns[0])]);
      L.Assoc(acc, [CommandOf(ns[0])], CommandsOf(ns[1..]));
    }
  }

  lemma {:induction false} ParsesFirst(toks: seq<Token>, pos: nat, n: Node, gap: string, rest: seq<Piece>,
                                       acc: seq<P.Command>) returns (next: nat)
    requires FineNode(n) && There(toks, pos, NodePieces(n, gap) + rest)
    ensures next == pos + |NodePieces(n, gap)| && There(toks, next, rest)
    ensures P.Block(toks, pos, acc) == P.Block(toks, next, acc + [CommandOf(n)])
    decreases n, 1
  {
    next := pos + |NodePieces(n, gap)|;
    ThereSplit(toks, pos, NodePieces(n, gap), rest);
    ParsesNode(toks, pos, n, gap);
    M.BlockTakes(toks, pos, CommandOf(n), next, acc);
  }

  /** Every script written down is read back as its commands. */
  lemma NodesRead(ns: seq<Node>, gap: string)
    requires FineNodes(ns) && Blank(gap)
    ensures P.Parse(NodesText(ns, gap)) == Ok(CommandsOf(ns))
  {
    var toks, last := NodesLex(ns, gap);
    AllThere(toks, last, NodesPieces(ns, gap));
    ParsesBody(toks + [last], 0, ns, gap);
    M.ParseIs(NodesText(ns, gap), toks + [last], CommandsOf(ns), |NodesPieces(ns, gap)|);
  }

  lemma NodesLex(ns: seq<Node>, gap: string) returns (toks: seq<Token>, last: Token)
    requires FineNodes(ns) && Blank(gap)
    ensures Lex(NodesText(ns, gap), 1) == Ok(toks + [last]) && last.kind == Eof && Spells(toks, NodesPieces(ns, gap))
  {
    var ps, text := NodesPieces(ns, gap), NodesText(ns, gap);
    NodesSpelt(ns, gap);
    NodesReadable(ns, gap, "");
    var next := 1 + Newlines(Render(ps));
    last := Token(Eof, "", 0, next);
    assert text == Render(ps) + "";
    toks := LexPieces(ps, "", text, 1, next, [last]);
  }

  lemma AllThere(toks: seq<Token>, last: Token, ps: seq<Piece>)
    requires Spells(toks, ps) && last.kind == Eof
    ensures There(toks + [last], 0, ps) && (toks + [last])[|ps|] == last
  {
    forall i: nat | i < |ps| ensures Spot(toks + [last], 0, ps, i) {
      assert IsPiece(toks[i], ps[i]);
    }
  }
}
