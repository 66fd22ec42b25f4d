/** Running a Sieve script over a message, and the delivery decision drawn from its actions. */
module SieveEval {
  import opened SieveLexer
  import opened SieveParser
  import opened Ascii

  datatype Action = Keep | FileInto(mailbox: string) | Discard

  datatype Addresses = Unparsable | Parsed(list: seq<string>)

  /** The message, with the regular-expression match behind :matches and the address-list parser as
      given functions. */
  datatype Message = Message(headers: map<string, seq<string>>, size: int,
                             glob: (string, string) -> bool, addresses: string -> Addresses)

  // ---- tests ----------------------------------------------------------------------------------

  predicate IsTokenChar(c: char) {
    IsIdentStart(c) || IsDigit(c) || c in "!#$%&'*+-.^`|~"
  }

  function Upper(c: char): char {
    if 'a' <= c <= 'z' then c - ('a' - 'A') else c
  }

  function CanonicalAt(name: string, i: nat): char
    requires i < |name|
  {
    if i == 0 || name[i - 1] == '-' then Upper(name[i]) else Lower(name)[i]
  }

  /** textproto.CanonicalMIMEHeaderKey: capitals at the start and after each hyphen; a name with
      other characters is left alone. */
  function CanonicalHeader(name: string): string {
    if forall i :: 0 <= i < |name| ==> IsTokenChar(name[i]) then
      seq(|name|, i requires 0 <= i < |name| => CanonicalAt(name, i))
    else name
  }

  predicate Contains(s: string, p: string) {
    exists i :: 0 <= i <= |s| && p <= s[i..]
  }

  datatype Match = Is | Has | Glob

  function MatchType(tags: map<string, string>): Match {
    if "contains" in tags then Has else if "matches" in tags then Glob else Is
  }

  predicate MatchString(m: Message, v: string, pattern: string, kind: Match) {
    match kind
    case Has => Contains(Lower(v), Lower(pattern))
    case Glob => m.glob(v, pattern)
    case Is => Lower(v) == Lower(pattern)
  }

  predicate MatchAnyHeaderValue(m: Message, field: string, patterns: seq<string>, tags: map<string, string>) {
    CanonicalHeader(field) in m.headers &&
    exists v, p :: v in m.headers[CanonicalHeader(field)] && p in patterns && MatchString(m, v, p, MatchType(tags))
  }

  predicate MatchAnyAddress(m: Message, field: string, patterns: seq<string>, tags: map<string, string>) {
    CanonicalHeader(field) in m.headers &&
    exists v :: v in m.headers[CanonicalHeader(field)] && m.addresses(v).Parsed? &&
      exists a, p :: a in m.addresses(v).list && p in patterns && MatchString(m, a, p, MatchType(tags))
  }

  predicate EvalTest(m: Message, t: Test)
    decreases t
  {
    match t.name
    case "true" => true
    case "false" => false
    case "allof" => forall i :: 0 <= i < |t.tests| ==> EvalTest(m, t.tests[i])
    case "anyof" => exists i :: 0 <= i < |t.tests| && EvalTest(m, t.tests[i])
    case "not" => t.tests == [] || !EvalTest(m, t.tests[0])
    case "exists" => forall i :: 0 <= i < |t.strings| ==> CanonicalHeader(t.strings[i]) in m.headers
    case "size" =>
      t.numbers != [] && if "over" in t.tags then m.size > t.numbers[0] else "under" in t.tags && m.size < t.numbers[0]
    case "header" => |t.strings| >= 2 && MatchAnyHeaderValue(m, t.strings[0], t.strings[1..], t.tags)
    case "address" => |t.strings| >= 2 && MatchAnyAddress(m, t.strings[0], t.strings[1..], t.tags)
    case _ => false
  }

  // ---- what the tests say ---------------------------------------------------------------------

  function Negation(t: Test): Test {
    Test("not", map[], [], [], [t])
  }

  function Negations(ts: seq<Test>): seq<Test> {
    seq(|ts|, i requires 0 <= i < |ts| => Negation(ts[i]))
  }

  /** One of them, all of them, and the law between the two. */
  lemma GroupLaws(m: Message, ts: seq<Test>)
    ensures var any, all := Test("anyof", map[], [], [], ts), Test("allof", map[], [], [], Negations(ts));
            && (EvalTest(m, any) <==> exists t :: t in ts && EvalTest(m, t))
            && (EvalTest(m, all) <==> forall t :: t in ts ==> !EvalTest(m, t))
            && (EvalTest(m, Negation(any)) <==> EvalTest(m, all))
  {
    var any, all := Test("anyof", map[], [], [], ts), Test("allof", map[], [], [], Negations(ts));
    AnyLaw(m, any);
    AllLaw(m, all);
    forall i | 0 <= i < |ts| ensures EvalTest(m, all.tests[i]) <==> !EvalTest(m, ts[i]) {
      assert all.tests[i] == Negation(ts[i]);
    }
    assert EvalTest(m, Negation(any)) <==> !EvalTest(m, any);
  }

  lemma AnyLaw(m: Message, t: Test)
    requires t.name == "anyof"
    ensures EvalTest(m, t) <==> exists i :: 0 <= i < |t.tests| && EvalTest(m, t.tests[i])
  {
  }

  lemma AllLaw(m: Message, t: Test)
    requires t.name == "allof"
    ensures EvalTest(m, t) <==> forall i :: 0 <= i < |t.tests| ==> EvalTest(m, t.tests[i])
  {
  }

  /** Over and under never hold together, and both fail exactly at n. */
  lemma SizeLaws(m: Message, n: int)
    ensures var over, under := Test("size", map["over" := ""], [], [n], []),
      Test("size", map["under" := ""], [], [n], []);
            && !(EvalTest(m, over) && EvalTest(m, under))
            && (!EvalTest(m, over) && !EvalTest(m, under) <==> m.size == n)
            && (EvalTest(m, over) <==> m.size > n)
  {
  }

  // ---- commands -------------------------------------------------------------------------------

  datatype Progress = Progress(actions: seq<Action>, hadFileInto: bool, kept: bool, discarded: bool, stop: bool)

  function RunAll(m: Message, cmds: seq<Command>, p: Progress): Progress
    decreases cmds, 1
  {
    if cmds == [] || p.stop then p else RunAll(m, cmds[1..], RunOne(m, cmds[0], p))
  }

  function RunOne(m: Message, cmd: Command, p: Progress): Progress
    decreases cmd, 0
  {
    match cmd.name
    case "if" => if cmd.tests != [] && EvalTest(m, cmd.tests[0]) then RunAll(m, cmd.block, p) else p
    case "keep" => p.(kept := true, actions := p.actions + [Keep])
    case "fileinto" =>
      if cmd.strings != [] then p.(actions := p.actions + [FileInto(cmd.strings[0])], hadFileInto := true) else p
    case "discard" => p.(actions := p.actions + [Discard], discarded := true)
    case "stop" => p.(stop := true)
    case _ => p
  }

  const FRESH := Progress([], false, false, false, false)

  /** A script that chose nothing keeps. */
  function Eval(m: Message, cmds: seq<Command>): seq<Action> {
    var p := RunAll(m, cmds, FRESH);
    if !p.hadFileInto && !p.discarded && !p.kept then p.actions + [Keep] else p.actions
  }

  class EvalCtx {
    const msg: Message
    var actions: seq<Action>
    var hadFileInto: bool
    var kept: bool
    var discarded: bool
    var stop: bool

    constructor (msg: Message)
      ensures this.msg == msg && Now() == FRESH
    {
      this.msg, actions, hadFileInto, kept, discarded, stop := msg, [], false, false, false, false;
    }

    ghost function Now(): Progress
      reads this
    {
      Progress(actions, hadFileInto, kept, discarded, stop)
    }

    method Run(cmds: seq<Command>)
      modifies this
      ensures Now() == RunAll(msg, cmds, old(Now()))
      decreases cmds, 1
    {
      for i := 0 to |cmds|
        invariant RunAll(msg, cmds[i..], Now()) == RunAll(msg, cmds, old(Now()))
      {
        if stop { return; }
        assert cmds[i..][1..] == cmds[i + 1..];
        RunCommand(cmds[i]);
      }
      assert cmds[|cmds|..] == [];
    }

    method RunCommand(cmd: Command)
      modifies this
      ensures Now() == RunOne(msg, cmd, old(Now()))
      decreases cmd, 0
    {
      match cmd.name {
        case "if" =>
          if cmd.tests != [] && EvalTest(msg, cmd.tests[0]) { Run(cmd.block); }
        case "keep" =>
          kept := true;
          actions := actions + [Keep];
        case "fileinto" =>
          if cmd.strings != [] {
            actions := actions + [FileInto(cmd.strings[0])];
            hadFileInto := true;
          }
        case "discard" =>
          actions := actions + [Discard];
          discarded := true;
        case "stop" =>
          stop := true;
        case _ =>
      }
    }
  }

  method EvalScript(m: Message, cmds: seq<Command>) returns (actions: seq<Action>)
    ensures actions == Eval(m, cmds)
  {
    var ctx := new EvalCtx(m);
    ctx.Run(cmds);
    actions := ctx.actions;
    if !ctx.hadFileInto && !ctx.discarded && !ctx.kept {
      actions := actions + [Keep];
    }
  }

  // ---- the decision ---------------------------------------------------------------------------

  datatype Decision = Deliver(folder: string) | Drop

  /** A discard wins; otherwise the last fileinto; otherwise the default folder. */
  function Chosen(actions: seq<Action>, folder: string): Decision {
    if actions == [] then Deliver(folder)
    else match actions[0]
      case Discard => Drop
      case FileInto(mailbox) => Chosen(actions[1..], mailbox)
      case Keep => Chosen(actions[1..], folder)
  }

  function Decide(m: Message, source: string, defaultFolder: string): Decision {
    if source == "" then Deliver(defaultFolder) else
    match Parse(source)
    case Err(_) => Deliver(defaultFolder)
    case Ok(cmds) => Chosen(Eval(m, cmds), defaultFolder)
  }

  method SieveDecide(m: Message, source: string, defaultFolder: string) returns (d: Decision)
    ensures d == Decide(m, source, defaultFolder)
  {
    if source == "" { return Deliver(defaultFolder); }
    var prog := ParseScript(source);
    if prog.Err? { return Deliver(defaultFolder); }
    var actions := EvalScript(m, prog.value);
    var folder := defaultFolder;
    for i := 0 to |actions|
      invariant Chosen(actions[i..], folder) == Chosen(actions, defaultFolder)
    {
      assert actions[i..][1..] == actions[i + 1..];
      match actions[i] {
        case Discard => return Drop;
        case FileInto(mailbox) => folder := mailbox;
        case Keep =>
      }
    }
    assert actions[|actions|..] == [];
    d := Deliver(folder);
  }

  /** The last fileinto, if any. */
  ghost predicate LastFiling(actions: seq<Action>, i: nat) {
    i < |actions| && actions[i].FileInto? && forall j :: i < j < |actions| ==> !actions[j].FileInto?
  }

  ghost predicate NoFiling(actions: seq<Action>) {
    forall i :: 0 <= i < |actions| ==> !actions[i].FileInto?
  }

  lemma {:induction false} DropMeaning(actions: seq<Action>, folder: string)
    ensures Chosen(actions, folder).Drop? <==> Discard in actions
  {
    if actions != [] {
      DropMeaning(actions[1..], if actions[0].FileInto? then actions[0].mailbox else folder);
      assert actions == [actions[0]] + actions[1..];
    }
  }

  lemma {:induction false} DefaultMeaning(actions: seq<Action>, folder: string)
    requires Discard !in actions && NoFiling(actions)
    ensures Chosen(actions, folder) == Deliver(folder)
  {
    if actions != [] {
      assert !actions[0].FileInto? && actions[0] in actions;
      DefaultMeaning(actions[1..], folder);
    }
  }

  lemma {:induction false} FilingMeaning(actions: seq<Action>, folder: string, i: nat)
    requires Discard !in actions && LastFiling(actions, i)
    ensures Chosen(actions, folder) == Deliver(actions[i].mailbox)
  {
    var rest := actions[1..];
    assert actions[0] in actions;
    if i == 0 {
      DefaultMeaning(rest, actions[0].mailbox);
    } else {
      assert LastFiling(rest, i - 1);
      FilingMeaning(rest, if actions[0].FileInto? then actions[0].mailbox else folder, i - 1);
    }
  }

  /** The order of the actions matters only among the fileintos. */
  lemma ChosenMeaning(actions: seq<Action>, folder: string)
    ensures Chosen(actions, folder).Drop? <==> Discard in actions
    ensures Discard !in actions && NoFiling(actions) ==> Chosen(actions, folder) == Deliver(folder)
    ensures forall i: nat :: Discard !in actions && LastFiling(actions, i) ==>
      Chosen(actions, folder) == Deliver(actions[i].mailbox)
  {
    DropMeaning(actions, folder);
    if Discard !in actions && NoFiling(actions) { DefaultMeaning(actions, folder); }
    forall i: nat | Discard !in actions && LastFiling(actions, i)
      ensures Chosen(actions, folder) == Deliver(actions[i].mailbox)
    {
      FilingMeaning(actions, folder, i);
    }
  }

  /** Nothing runs after a stop, and every script chooses something. */
  lemma {:induction false} EvalChooses(m: Message, cmds: seq<Command>)
    ensures Eval(m, cmds) != []
  {
    ProgressHonest(m, cmds, FRESH);
  }

  ghost predicate Honest(p: Progress) {
    (p.hadFileInto || p.kept || p.discarded) <==> p.actions != []
  }

  lemma {:induction false} ProgressHonest(m: Message, cmds: seq<Command>, p: Progress)
    requires Honest(p)
    ensures Honest(RunAll(m, cmds, p))
    decreases cmds, 1
  {
    if cmds != [] && !p.stop {
      OneHonest(m, cmds[0], p);
      ProgressHonest(m, cmds[1..], RunOne(m, cmds[0], p));
    }
  }

  lemma {:induction false} OneHonest(m: Message, cmd: Command, p: Progress)
    requires Honest(p)
    ensures Honest(RunOne(m, cmd, p))
    decreases cmd, 0
  {
    if cmd.name == "if" && cmd.tests != [] && EvalTest(m, cmd.tests[0]) {
      ProgressHonest(m, cmd.block, p);
    }
  }
}
