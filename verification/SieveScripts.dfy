/** Scripts as their author means them: a language with a meaning of its own, and its text. */
module SieveScripts {
  import opened SieveLexer
  import opened Ascii
  import opened SieveText
  import opened SieveSyntax
  import E = SieveEval
  import M = SieveRulesMeaning
  import L = Lists

  datatype How = Contains | Matches | Is | Unsaid

  datatype Cond =
    | Always
    | Never
    | AllOf(conds: seq<Cond>)
    | AnyOf(conds: seq<Cond>)
    | Not(cond: Cond)
    | Exists(names: seq<string>)
    | Over(n: nat, unit: string)
    | Under(n: nat, unit: string)
    | Header(how: How, fields: seq<string>, patterns: seq<string>)
    | Address(how: How, fields: seq<string>, patterns: seq<string>)
    | Unknown(name: string)

  datatype Stmt =
    | Require(extensions: seq<string>)
    | If(cond: Cond, body: seq<Stmt>)
    | Elsif(cond: Cond, body: seq<Stmt>)
    | Else(body: seq<Stmt>)
    | Keep
    | Discard
    | Stop
    | File(opts: seq<Opt>, boxes: seq<string>)
    | Other(name: string)

  // ---- meaning --------------------------------------------------------------------------------

  /** Some stretch of the value is the pattern, but for case. */
  ghost predicate Holding(value: string, pattern: string) {
    exists i :: HoldsAt(value, pattern, i)
  }

  ghost predicate HoldsAt(value: string, pattern: string, i: int) {
    0 <= i <= |value| - |pattern| && SameButCase(value[i..i + |pattern|], pattern)
  }

  ghost predicate Fits(m: E.Message, how: How, value: string, pattern: string) {
    match how
    case Contains => Holding(value, pattern)
    case Matches => m.glob(value, pattern)
    case Is => SameButCase(value, pattern)
    case Unsaid => SameButCase(value, pattern)
  }

  predicate Small(c: char) {
    'a' <= c <= 'z'
  }

  predicate Capital(c: char) {
    'A' <= c <= 'Z'
  }

  /** The characters of a header name (section 3.2.6 of RFC 7230). */
  predicate NameChar(c: char) {
    Small(c) || Capital(c) || c in "0123456789!#$%&'*+-.^_`|~"
  }

  /** The key `k` is the name: the same letters, capital at the start and behind a hyphen, small
      elsewhere; a name with other characters is taken as it is. */
  ghost predicate KeyFor(k: string, name: string) {
    if exists i :: 0 <= i < |name| && !NameChar(name[i]) then k == name else Shaped(k, name)
  }

  ghost predicate Shaped(k: string, name: string) {
    && SameButCase(k, name)
    && forall i :: 0 <= i < |k| ==> if i == 0 || name[i - 1] == '-' then !Small(k[i]) else !Capital(k[i])
  }

  ghost predicate HasHeader(m: E.Message, name: string) {
    exists k :: k in m.headers && KeyFor(k, name)
  }

  ghost predicate HasValue(m: E.Message, name: string, v: string) {
    exists k :: k in m.headers && KeyFor(k, name) && v in m.headers[k]
  }

  ghost predicate HasAddress(m: E.Message, name: string, a: string) {
    exists v :: HasValue(m, name, v) && m.addresses(v).Parsed? && a in m.addresses(v).list
  }

  ghost predicate Holds(m: E.Message, c: Cond) {
    match c
    case Always => true
    case Never => false
    case AllOf(cs) => forall i :: 0 <= i < |cs| ==> Holds(m, cs[i])
    case AnyOf(cs) => exists i :: 0 <= i < |cs| && Holds(m, cs[i])
    case Not(d) => !Holds(m, d)
    case Exists(names) => forall name :: name in names ==> HasHeader(m, name)
    case Over(n, unit) => m.size > Amount(n, unit)
    case Under(n, unit) => m.size < Amount(n, unit)
    case Header(how, fields, ps) => fields != [] && HeaderAgrees(m, how, fields[0], fields[1..] + ps)
    case Address(how, fields, ps) => fields != [] && AddressAgrees(m, how, fields[0], fields[1..] + ps)
    case Unknown(_) => false
  }

  /** Some value of the field agrees with some pattern. In a list of fields only the first is one; the
      others are patterns too. */
  ghost predicate HeaderAgrees(m: E.Message, how: How, field: string, ps: seq<string>) {
    exists v, p :: HasValue(m, field, v) && p in ps && Fits(m, how, v, p)
  }

  ghost predicate AddressAgrees(m: E.Message, how: How, field: string, ps: seq<string>) {
    exists a, p :: HasAddress(m, field, a) && p in ps && Fits(m, how, a, p)
  }

  /** What a run does, and whether it was stopped. */
  datatype Ran = Ran(actions: seq<E.Action>, stopped: bool)

  /** One statement after the other, until a stop. */
  ghost function Does(m: E.Message, ss: seq<Stmt>): Ran
    decreases ss, 1
  {
    if ss == [] then Ran([], false) else
    var first := DoesOne(m, ss[0]);
    if first.stopped then first else
    var rest := Does(m, ss[1..]);
    Ran(first.actions + rest.actions, rest.stopped)
  }

  /** An elsif or an else never runs, and a fileinto without a mailbox of its own does nothing. */
  ghost function DoesOne(m: E.Message, s: Stmt): Ran
    decreases s, 0
  {
    match s
    case If(c, body) => if Holds(m, c) then Does(m, body) else Ran([], false)
    case Keep => Ran([E.Keep], false)
    case Discard => Ran([E.Discard], false)
    case Stop => Ran([], true)
    case File(_, boxes) => Ran(if boxes == [] then [] else [E.FileInto(boxes[0])], false)
    case _ => Ran([], false)
  }

  // ---- what can be written --------------------------------------------------------------------

  predicate Written(c: Cond) {
    match c
    case AllOf(cs) => cs != [] && forall i :: 0 <= i < |cs| ==> Written(cs[i])
    case AnyOf(cs) => cs != [] && forall i :: 0 <= i < |cs| ==> Written(cs[i])
    case Not(d) => Written(d)
    case Over(n, unit) => FigureFits(n, unit, Amount(n, unit))
    case Under(n, unit) => FigureFits(n, unit, Amount(n, unit))
    case Header(_, fields, _) => fields != []
    case Address(_, fields, _) => fields != []
    case Unknown(name) => IsName(name) &&
      Lower(name) !in ["true", "false", "allof", "anyof", "not", "exists", "size", "header", "address"]
    case _ => true
  }

  predicate WrittenStmt(s: Stmt)
    decreases s, 0
  {
    match s
    case If(c, body) => Written(c) && WrittenAll(body)
    case Elsif(c, body) => Written(c) && WrittenAll(body)
    case Else(body) => WrittenAll(body)
    case File(opts, _) => forall i :: 0 <= i < |opts| ==> IsName(opts[i].tag)
    case Other(name) => IsName(name) && Lower(name) !in ["if", "elsif", "keep", "discard", "stop", "fileinto"]
    case _ => true
  }

  predicate WrittenAll(ss: seq<Stmt>)
    decreases ss, 1
  {
    forall i :: 0 <= i < |ss| ==> WrittenStmt(ss[i])
  }

  // ---- the text -------------------------------------------------------------------------------

  /** A list, or its only string. */
  function StringsText(ss: seq<string>): string {
    if |ss| == 1 then Quote(ss[0]) else "[" + ItemsText(ss) + "]"
  }

  function HowText(how: How): string {
    match how
    case Contains => ":contains "
    case Matches => ":matches "
    case Is => ":is "
    case Unsaid => ""
  }

  function CondText(c: Cond): string
    decreases c, 0
  {
    match c
    case Always => "true"
    case Never => "false"
    case AllOf(cs) => "allof (" + CondsText(cs) + ")"
    case AnyOf(cs) => "anyof (" + CondsText(cs) + ")"
    case Not(d) => "not " + CondText(d)
    case Exists(names) => "exists " + StringsText(names)
    case Over(n, unit) => "size :over " + (Figures(n) + unit)
    case Under(n, unit) => "size :under " + (Figures(n) + unit)
    case Header(how, fields, ps) => "header " + HowText(how) + StringsText(fields) + " " + StringsText(ps)
    case Address(how, fields, ps) => "address " + HowText(how) + StringsText(fields) + " " + StringsText(ps)
    case Unknown(name) => name
  }

  function CondsText(cs: seq<Cond>): string
    decreases cs, 1
  {
    if cs == [] then "" else if |cs| == 1 then CondText(cs[0]) else CondText(cs[0]) + ", " + CondsText(cs[1..])
  }

  function OptsText(opts: seq<Opt>): string {
    if opts == [] then "" else " :" + opts[0].tag + " " + Quote(opts[0].value) + OptsText(opts[1..])
  }

  function StmtText(s: Stmt, gap: string): string
    decreases s, 0
  {
    match s
    case Require(es) => "require " + StringsText(es) + ";" + gap
    case If(c, body) => "if " + CondText(c) + " {" + gap + ScriptText(body, gap) + "}" + gap
    case Elsif(c, body) => "elsif " + CondText(c) + " {" + gap + ScriptText(body, gap) + "}" + gap
    case Else(body) => "else {" + gap + ScriptText(body, gap) + "}" + gap
    case Keep => "keep;" + gap
    case Discard => "discard;" + gap
    case Stop => "stop;" + gap
    case File(opts, boxes) =>
      "fileinto" + OptsText(opts) + (if boxes == [] then "" else " " + StringsText(boxes)) + ";" + gap
    case Other(name) => name + ";" + gap
  }

  /** The script, with the same blanks after every semicolon and brace. */
  function ScriptText(ss: seq<Stmt>, gap: string): string
    decreases ss, 1
  {
    if ss == [] then "" else StmtText(ss[0], gap) + ScriptText(ss[1..], gap)
  }

  // ---- its syntax tree ------------------------------------------------------------------------

  function Strings(ss: seq<string>): Arg {
    if |ss| == 1 then One(ss[0]) else Many(ss)
  }

  function HowArgs(how: How): seq<Arg> {
    match how
    case Contains => [Tagged("contains")]
    case Matches => [Tagged("matches")]
    case Is => [Tagged("is")]
    case Unsaid => []
  }

  function Comparison(how: How, fields: seq<string>, ps: seq<string>): seq<Arg> {
    HowArgs(how) + [Strings(fields), Strings(ps)]
  }

  function TreeOf(c: Cond): Tree
    decreases c, 0
  {
    match c
    case Always => Leaf("true", [])
    case Never => Leaf("false", [])
    case AllOf(cs) => Group("allof", TreesOf(cs))
    case AnyOf(cs) => Group("anyof", TreesOf(cs))
    case Not(d) => Negated(TreeOf(d))
    case Exists(names) => Leaf("exists", [Strings(names)])
    case Over(n, unit) => Leaf("size", [Tagged("over"), Bytes(n, unit, Amount(n, unit))])
    case Under(n, unit) => Leaf("size", [Tagged("under"), Bytes(n, unit, Amount(n, unit))])
    case Header(how, fields, ps) => Leaf("header", Comparison(how, fields, ps))
    case Address(how, fields, ps) => Leaf("address", Comparison(how, fields, ps))
    case Unknown(name) => Leaf(name, [])
  }

  function TreesOf(cs: seq<Cond>): seq<Tree>
    decreases cs, 1
  {
    if cs == [] then [] else [TreeOf(cs[0])] + TreesOf(cs[1..])
  }

  function Options(opts: seq<Opt>): seq<Arg> {
    seq(|opts|, i requires 0 <= i < |opts| => Option(opts[i]))
  }

  function FileArgs(opts: seq<Opt>, boxes: seq<string>): seq<Arg> {
    if boxes == [] then Options(opts) else Options(opts) + [Strings(boxes)]
  }

  function NodeOf(s: Stmt): Node
    decreases s, 0
  {
    match s
    case Require(es) => Simple("require", [Strings(es)])
    case If(c, body) => Tested("if", TreeOf(c), NodesOf(body))
    case Elsif(c, body) => Tested("elsif", TreeOf(c), NodesOf(body))
    case Else(body) => Braced("else", NodesOf(body))
    case Keep => Simple("keep", [])
    case Discard => Simple("discard", [])
    case Stop => Simple("stop", [])
    case File(opts, boxes) => Simple("fileinto", FileArgs(opts, boxes))
    case Other(name) => Simple(name, [])
  }

  function NodesOf(ss: seq<Stmt>): seq<Node>
    decreases ss, 1
  {
    if ss == [] then [] else [NodeOf(ss[0])] + NodesOf(ss[1..])
  }

  // ---- the tree has that text -----------------------------------------------------------------

  lemma Args1(a: Arg)
    ensures ArgsText([a]) == " " + ArgText(a)
  {
    assert [a][1..] == [];
  }

  lemma Args2(a: Arg, b: Arg)
    ensures ArgsText([a, b]) == " " + ArgText(a) + (" " + ArgText(b))
  {
    assert [a, b][1..] == [b];
    Args1(b);
  }

  lemma {:induction false} ArgsConcat(a: seq<Arg>, b: seq<Arg>)
    ensures ArgsText(a + b) == ArgsText(a) + ArgsText(b)
  {
    if a == [] {
      L.EmptyConcat(a, b);
    } else {
      L.ConsConcat(a, b);
      ArgsConcat(a[1..], b);
    }
  }

  lemma HowSpelt(how: How)
    ensures " " + HowText(how) == ArgsText(HowArgs(how)) + " "
  {
    match how
    case Contains => Args1(Tagged("contains"));
      assert " " + ":contains " == " " + (":" + "contains") + " ";
    case Matches => Args1(Tagged("matches"));
      assert " " + ":matches " == " " + (":" + "matches") + " ";
    case Is => Args1(Tagged("is"));
      assert " " + ":is " == " " + (":" + "is") + " ";
    case Unsaid =>
  }

  lemma StringsSpelt(ss: seq<string>)
    ensures ArgText(Strings(ss)) == StringsText(ss)
  {
  }

  lemma ComparisonSpelt(name: string, head: string, how: How, fields: seq<string>, ps: seq<string>)
    requires head == name + " "
    ensures name + ArgsText(Comparison(how, fields, ps))
         == head + HowText(how) + StringsText(fields) + " " + StringsText(ps)
  {
    ArgsConcat(HowArgs(how), [Strings(fields), Strings(ps)]);
    Args2(Strings(fields), Strings(ps));
    StringsSpelt(fields);
    StringsSpelt(ps);
    HowSpelt(how);
    ComparisonGlue(name, ArgsText(HowArgs(how)), HowText(how), StringsText(fields), StringsText(ps));
  }

  lemma ComparisonGlue(name: string, args: string, how: string, field: string, ps: string)
    requires " " + how == args + " "
    ensures name + (args + (" " + field + (" " + ps))) == name + " " + how + field + " " + ps
  {
    assert args + (" " + field + (" " + ps)) == (args + " ") + (field + (" " + ps));
    assert name + " " + how + field + " " + ps == name + (" " + how) + (field + (" " + ps));
  }

  lemma SizeSpelt(tag: string, n: nat, unit: string)
    ensures ArgsText([Tagged(tag), Bytes(n, unit, Amount(n, unit))]) == " " + (":" + tag) + (" " + (Figures(n) + unit))
  {
    Args2(Tagged(tag), Bytes(n, unit, Amount(n, unit)));
  }

  lemma OverSpelt(n: nat, unit: string)
    ensures TreeText(TreeOf(Over(n, unit))) == CondText(Over(n, unit))
    ensures TreeText(TreeOf(Under(n, unit))) == CondText(Under(n, unit))
  {
    SizeSpelt("over", n, unit);
    SizeSpelt("under", n, unit);
    SizeGlue(Figures(n) + unit);
  }

  lemma SizeGlue(text: string)
    ensures "size" + (" " + (":" + "over") + (" " + text)) == "size :over " + text
    ensures "size" + (" " + (":" + "under") + (" " + text)) == "size :under " + text
  {
    assert "size" + (" " + (":" + "over") + " ") == "size :over ";
    assert "size" + (" " + (":" + "under") + " ") == "size :under ";
  }

  lemma HeaderSpelt(how: How, fields: seq<string>, ps: seq<string>)
    ensures TreeText(TreeOf(Header(how, fields, ps))) == CondText(Header(how, fields, ps))
  {
    assert "header" + " " == "header ";
    ComparisonSpelt("header", "header ", how, fields, ps);
  }

  lemma AddressSpelt(how: How, fields: seq<string>, ps: seq<string>)
    ensures TreeText(TreeOf(Address(how, fields, ps))) == CondText(Address(how, fields, ps))
  {
    assert "address" + " " == "address ";
    ComparisonSpelt("address", "address ", how, fields, ps);
  }

  lemma LeafSpelt(c: Cond)
    requires c.Always? || c.Never? || c.Exists? || c.Unknown?
    ensures TreeText(TreeOf(c)) == CondText(c)
  {
    if c.Exists? {
      Args1(Strings(c.names));
      StringsSpelt(c.names);
      assert "exists" + " " == "exists ";
    } else {
      assert ArgsText([]) == "";
    }
  }

  lemma {:induction false} CondSpelt(c: Cond)
    ensures TreeText(TreeOf(c)) == CondText(c)
    decreases c, 0
  {
    match c
    case AllOf(cs) =>
      CondsSpelt(cs);
      assert "allof" + " (" == "allof (";
    case AnyOf(cs) =>
      CondsSpelt(cs);
      assert "anyof" + " (" == "anyof (";
    case Not(d) => CondSpelt(d);
    case Over(n, unit) => OverSpelt(n, unit);
    case Under(n, unit) => OverSpelt(n, unit);
    case Header(how, fields, ps) => HeaderSpelt(how, fields, ps);
    case Address(how, fields, ps) => AddressSpelt(how, fields, ps);
    case _ => LeafSpelt(c);
  }

  lemma {:induction false} CondsSpelt(cs: seq<Cond>)
    ensures TreesText(TreesOf(cs)) == CondsText(cs)
    decreases cs, 1
  {
    if cs != [] {
      CondSpelt(cs[0]);
      CondsSpelt(cs[1..]);
      L.HeadTail(TreeOf(cs[0]), TreesOf(cs[1..]));
      TreesLength(cs);
    }
  }

  lemma {:induction false} TreesLength(cs: seq<Cond>)
    ensures |TreesOf(cs)| == |cs| && forall i :: 0 <= i < |cs| ==> TreesOf(cs)[i] == TreeOf(cs[i])
  {
    if cs != [] { TreesLength(cs[1..]); }
  }

  lemma {:induction false} OptionsSpelt(opts: seq<Opt>)
    ensures ArgsText(Options(opts)) == OptsText(opts)
  {
    if opts != [] {
      OptionsSpelt(opts[1..]);
      OptionsCons(opts);
      ArgsCons(Option(opts[0]), Options(opts[1..]));
      OptionGlue(opts[0].tag, Quote(opts[0].value));
    }
  }

  lemma OptionsCons(opts: seq<Opt>)
    requires opts != []
    ensures Options(opts) == [Option(opts[0])] + Options(opts[1..])
  {
  }

  lemma ArgsCons(a: Arg, args: seq<Arg>)
    ensures ArgsText([a] + args) == " " + ArgText(a) + ArgsText(args)
  {
    L.HeadTail(a, args);
  }

  lemma OptionGlue(tag: string, value: string)
    ensures " " + (":" + tag + " " + value) == " :" + tag + " " + value
  {
    assert " " + ":" == " :";
  }

  lemma FileSpelt(opts: seq<Opt>, boxes: seq<string>)
    ensures "fileinto" + ArgsText(FileArgs(opts, boxes))
         == "fileinto" + OptsText(opts) + (if boxes == [] then "" else " " + StringsText(boxes))
  {
    OptionsSpelt(opts);
    if boxes != [] {
      ArgsConcat(Options(opts), [Strings(boxes)]);
      Args1(Strings(boxes));
      StringsSpelt(boxes);
      L.Assoc("fileinto", OptsText(opts), " " + StringsText(boxes));
    }
  }

  lemma BareSpelt(s: Stmt, gap: string)
    requires s.Keep? || s.Discard? || s.Stop? || s.Other?
    ensures NodeText(NodeOf(s), gap) == StmtText(s, gap)
  {
    assert NodeOf(s).name + ArgsText([]) == NodeOf(s).name;
    assert "keep" + ";" == "keep;" && "discard" + ";" == "discard;" && "stop" + ";" == "stop;";
  }

  lemma RequireSpelt(es: seq<string>)
    ensures "require" + ArgsText([Strings(es)]) == "require " + StringsText(es)
  {
    Args1(Strings(es));
    StringsSpelt(es);
    assert "require" + " " == "require ";
  }

  lemma TestedSpelt(word: string, text: string, gap: string, body: string)
    ensures word + " " + text + " " + BracesText(body, gap) == word + " " + text + " {" + gap + body + "}" + gap
    ensures "else" + " " + BracesText(body, gap) == "else {" + gap + body + "}" + gap
  {
    assert " " + "{" == " {" && "else" + " " + "{" == "else {";
  }

  lemma {:induction false} StmtSpelt(s: Stmt, gap: string)
    ensures NodeText(NodeOf(s), gap) == StmtText(s, gap)
    decreases s, 0
  {
    if s.If? || s.Elsif? {
      CondSpelt(s.cond);
      ScriptSpelt(s.body, gap);
      TestedSpelt(NodeOf(s).name, CondText(s.cond), gap, ScriptText(s.body, gap));
      assert "if" + " " == "if " && "elsif" + " " == "elsif ";
    } else if s.Else? {
      ScriptSpelt(s.body, gap);
      TestedSpelt("else", "", gap, ScriptText(s.body, gap));
    } else if s.Require? {
      RequireSpelt(s.extensions);
    } else if s.File? {
      FileSpelt(s.opts, s.boxes);
    } else {
      BareSpelt(s, gap);
    }
  }

  lemma {:induction false} ScriptSpelt(ss: seq<Stmt>, gap: string)
    ensures NodesText(NodesOf(ss), gap) == ScriptText(ss, gap)
    decreases ss, 1
  {
    if ss != [] {
      StmtSpelt(ss[0], gap);
      ScriptSpelt(ss[1..], gap);
      L.HeadTail(NodeOf(ss[0]), NodesOf(ss[1..]));
    }
  }

  // ---- the tree can be written ----------------------------------------------------------------

  /** A word of small letters. */
  lemma SmallName(name: string)
    requires name != "" && name != "text" && forall i :: 0 <= i < |name| ==> Small(name[i])
    ensures IsName(name) && Lower(name) == name
  {
    M.LowerSame(name);
  }

  lemma CondNames(c: Cond)
    requires Written(c) && TreeOf(c).Leaf?
    ensures Fine(TreeOf(c))
  {
    if !c.Unknown? {
      SmallName(TreeOf(c).name);
      ArgsAreFine(c);
    }
  }

  lemma ArgsAreFine(c: Cond)
    requires Written(c) && TreeOf(c).Leaf?
    ensures FineArgs(TreeOf(c).args)
  {
    if c.Header? || c.Address? {
      HowIsFine(c.how);
    } else if c.Over? || c.Under? {
      SmallName("over");
      SmallName("under");
    }
  }

  lemma HowIsFine(how: How)
    ensures FineArgs(HowArgs(how))
  {
  }

  lemma GroupNames()
    ensures IsName("allof") && IsName("anyof") && Lower("allof") == "allof" && Lower("anyof") == "anyof"
  {
    M.LowerSame("allof");
    M.LowerSame("anyof");
  }

  lemma {:induction false} CondIsFine(c: Cond)
    requires Written(c)
    ensures Fine(TreeOf(c))
  {
    if c.AllOf? || c.AnyOf? {
      GroupNames();
      TreesLength(c.conds);
      forall i | 0 <= i < |c.conds| ensures Fine(TreesOf(c.conds)[i]) {
        CondIsFine(c.conds[i]);
      }
    } else if c.Not? {
      CondIsFine(c.cond);
    } else {
      CondNames(c);
    }
  }

  lemma CommandNames(s: Stmt)
    requires WrittenStmt(s)
    ensures IsName(NodeOf(s).name) && (Testing(NodeOf(s).name) <==> NodeOf(s).Tested?)
  {
    if !s.Other? { SmallName(NodeOf(s).name); }
  }

  lemma {:induction false} StmtIsFine(s: Stmt)
    requires WrittenStmt(s)
    ensures FineNode(NodeOf(s))
    decreases s, 0
  {
    CommandNames(s);
    if s.If? || s.Elsif? { CondIsFine(s.cond); }
    if s.If? || s.Elsif? || s.Else? { ScriptIsFine(s.body); }
  }

  lemma {:induction false} ScriptIsFine(ss: seq<Stmt>)
    requires WrittenAll(ss)
    ensures FineNodes(NodesOf(ss))
    decreases ss, 1
  {
    if ss != [] {
      StmtIsFine(ss[0]);
      ScriptIsFine(ss[1..]);
    }
  }
}
