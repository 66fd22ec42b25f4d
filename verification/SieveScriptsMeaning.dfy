/** Reading and running the text of a script does what the script means. */
module SieveScriptsMeaning {
  import opened SieveLexer
  import opened Ascii
  import opened SieveText
  import opened SieveSyntax
  import opened SieveScripts
  import opened SieveReading
  import P = SieveParser
  import E = SieveEval
  import M = SieveRulesMeaning
  import L = Lists

  // ---- comparing ------------------------------------------------------------------------------

  lemma NameCharIs(c: char)
    ensures E.IsTokenChar(c) <==> NameChar(c)
  {
  }

  lemma CanonicalShape(name: string)
    requires forall i :: 0 <= i < |name| ==> E.IsTokenChar(name[i])
    ensures var k := E.CanonicalHeader(name);
            |k| == |name| && forall i :: 0 <= i < |k| ==> k[i] == E.CanonicalAt(name, i)
  {
  }

  lemma NameCharsIff(name: string)
    ensures (forall i :: 0 <= i < |name| ==> E.IsTokenChar(name[i]))
      <==> !exists i :: 0 <= i < |name| && !NameChar(name[i])
  {
    forall i | 0 <= i < |name| ensures E.IsTokenChar(name[i]) <==> NameChar(name[i]) {
      NameCharIs(name[i]);
    }
  }

  /** The key a header name is looked up under. */
  lemma KeyIff(k: string, name: string)
    ensures KeyFor(k, name) <==> k == E.CanonicalHeader(name)
  {
    NameCharsIff(name);
    if forall i :: 0 <= i < |name| ==> E.IsTokenChar(name[i]) {
      CanonicalShape(name);
      var c := E.CanonicalHeader(name);
      CanonicalIsShaped(c, name);
      if |k| == |name| && Shaped(k, name) {
        forall i | 0 <= i < |name| ensures k[i] == c[i] {
          ShapedAt(k, name, i);
        }
        assert k == c;
      }
    }
  }

  lemma CanonicalIsShaped(k: string, name: string)
    requires |k| == |name| && forall i :: 0 <= i < |k| ==> k[i] == E.CanonicalAt(name, i)
    ensures Shaped(k, name)
  {
    LowerMeaning(name);
  }

  lemma ShapedAt(k: string, name: string, i: nat)
    requires Shaped(k, name) && i < |k| == |name|
    ensures k[i] == E.CanonicalAt(name, i)
  {
    LowerMeaning(name);
    SameLetter(k[i], name[i], i == 0 || name[i - 1] == '-');
  }

  lemma SameLetter(k: char, c: char, capital: bool)
    requires k == c || (65 <= k as int <= 90 && c as int == k as int + 32)
      || (65 <= c as int <= 90 && k as int == c as int + 32)
    requires if capital then !Small(k) else !Capital(k)
    ensures k == if capital then E.Upper(c) else if Capital(c) then c + ('a' - 'A') else c
  {
  }

  lemma HasHeaderIff(m: E.Message, name: string)
    ensures HasHeader(m, name) <==> E.CanonicalHeader(name) in m.headers
  {
    KeyIff(E.CanonicalHeader(name), name);
    if k :| k in m.headers && KeyFor(k, name) { KeyIff(k, name); }
  }

  lemma HasValueIff(m: E.Message, name: string, v: string)
    ensures HasValue(m, name, v) <==>
      E.CanonicalHeader(name) in m.headers && v in m.headers[E.CanonicalHeader(name)]
  {
    KeyIff(E.CanonicalHeader(name), name);
    if k :| k in m.headers && KeyFor(k, name) && v in m.headers[k] { KeyIff(k, name); }
  }

  lemma HoldsAtIff(v: string, p: string, i: int)
    ensures HoldsAt(v, p, i) <==> 0 <= i <= |v| - |p| && Lower(p) <= Lower(v)[i..]
  {
    LowerMeaning(v);
    LowerMeaning(p);
    if 0 <= i <= |v| - |p| {
      var part := v[i..i + |p|];
      LowerSlice(v, i, i + |p|);
      assert Lower(v)[i..][..|p|] == Lower(part);
      LowerSameIff(part, p);
    }
  }

  lemma LowerSlice(v: string, i: nat, j: nat)
    requires i <= j <= |v|
    ensures |Lower(v)| == |v| && Lower(v)[i..j] == Lower(v[i..j])
  {
  }

  lemma HoldingIff(v: string, p: string)
    ensures Holding(v, p) <==> E.Contains(Lower(v), Lower(p))
  {
    LowerMeaning(v);
    LowerMeaning(p);
    if i :| HoldsAt(v, p, i) { HoldsAtIff(v, p, i); }
    if E.Contains(Lower(v), Lower(p)) {
      var i :| 0 <= i <= |Lower(v)| && Lower(p) <= Lower(v)[i..];
      HoldsAtIff(v, p, i);
    }
  }

  function MatchOf(how: How): E.Match {
    match how
    case Contains => E.Has
    case Matches => E.Glob
    case Is => E.Is
    case Unsaid => E.Is
  }

  lemma FitsIff(m: E.Message, how: How, v: string, p: string)
    ensures Fits(m, how, v, p) <==> E.MatchString(m, v, p, MatchOf(how))
  {
    HoldingIff(v, p);
    LowerSameIff(v, p);
  }

  // ---- tests ----------------------------------------------------------------------------------

  function HowTags(how: How): map<string, string> {
    match how
    case Contains => map["contains" := ""]
    case Matches => map["matches" := ""]
    case Is => map["is" := ""]
    case Unsaid => map[]
  }

  lemma MatchTypeIs(how: How)
    ensures E.MatchType(HowTags(how)) == MatchOf(how)
  {
  }

  lemma Taken1(t: P.Test, a: Arg)
    ensures TakenAll(t, [a]) == Taken(t, a)
  {
    assert [a][1..] == [];
  }

  lemma Taken2(t: P.Test, a: Arg, b: Arg)
    ensures TakenAll(t, [a, b]) == Taken(Taken(t, a), b)
  {
    assert [a, b][1..] == [b];
    Taken1(Taken(t, a), b);
  }

  lemma Taken3(t: P.Test, a: Arg, b: Arg, c: Arg)
    ensures TakenAll(t, [a, b, c]) == Taken(Taken(Taken(t, a), b), c)
  {
    assert [a, b, c][1..] == [b, c];
    Taken2(Taken(t, a), b, c);
  }

  lemma StringsTaken(t: P.Test, ss: seq<string>)
    ensures Taken(t, Strings(ss)) == t.(strings := t.strings + ss)
  {
    if |ss| == 1 { assert [ss[0]] == ss; }
  }

  lemma HowTaken(t: P.Test, how: How, a: Arg, b: Arg)
    requires t.tags == map[]
    ensures TakenAll(t, HowArgs(how) + [a, b]) == Taken(Taken(t.(tags := HowTags(how)), a), b)
  {
    if how.Unsaid? {
      assert HowArgs(how) + [a, b] == [a, b];
      Taken2(t, a, b);
    } else {
      var tag := HowArgs(how)[0];
      assert HowArgs(how) + [a, b] == [tag, a, b];
      Taken3(t, tag, a, b);
      TagTaken(t, how);
    }
  }

  lemma TagTaken(t: P.Test, how: How)
    requires t.tags == map[] && !how.Unsaid?
    ensures Taken(t, HowArgs(how)[0]) == t.(tags := HowTags(how))
  {
    M.LowerSame(HowArgs(how)[0].id);
  }

  lemma ComparisonTaken(name: string, how: How, fields: seq<string>, ps: seq<string>)
    ensures TakenAll(BareTest(name), Comparison(how, fields, ps))
      == P.Test(Lower(name), HowTags(how), fields + ps, [], [])
  {
    var t := BareTest(name);
    HowTaken(t, how, Strings(fields), Strings(ps));
    StringsTaken(t.(tags := HowTags(how)), fields);
    assert [] + fields == fields;
    StringsTaken(t.(tags := HowTags(how), strings := fields), ps);
  }

  lemma HeaderMeans(m: E.Message, how: How, fields: seq<string>, ps: seq<string>)
    requires fields != []
    ensures |fields + ps| >= 2 && E.MatchAnyHeaderValue(m, (fields + ps)[0], (fields + ps)[1..], HowTags(how))
            <==> HeaderAgrees(m, how, fields[0], fields[1..] + ps)
  {
    var field, pats := fields[0], fields[1..] + ps;
    L.ConsConcat(fields, ps);
    MatchTypeIs(how);
    if HeaderAgrees(m, how, field, pats) {
      var v, p :| HasValue(m, field, v) && p in pats && Fits(m, how, v, p);
      HasValueIff(m, field, v);
      FitsIff(m, how, v, p);
    }
    if E.MatchAnyHeaderValue(m, field, pats, HowTags(how)) {
      var v, p :| v in m.headers[E.CanonicalHeader(field)] && p in pats && E.MatchString(m, v, p, MatchOf(how));
      HasValueIff(m, field, v);
      FitsIff(m, how, v, p);
    }
  }

  lemma AddressMeans(m: E.Message, how: How, fields: seq<string>, ps: seq<string>)
    requires fields != []
    ensures |fields + ps| >= 2 && E.MatchAnyAddress(m, (fields + ps)[0], (fields + ps)[1..], HowTags(how))
            <==> AddressAgrees(m, how, fields[0], fields[1..] + ps)
  {
    var field, pats := fields[0], fields[1..] + ps;
    L.ConsConcat(fields, ps);
    MatchTypeIs(how);
    if AddressAgrees(m, how, field, pats) {
      var a, p :| HasAddress(m, field, a) && p in pats && Fits(m, how, a, p);
      var v :| HasValue(m, field, v) && m.addresses(v).Parsed? && a in m.addresses(v).list;
      HasValueIff(m, field, v);
      FitsIff(m, how, a, p);
    }
    if E.MatchAnyAddress(m, field, pats, HowTags(how)) {
      var v :| v in m.headers[E.CanonicalHeader(field)] && m.addresses(v).Parsed? &&
        exists a, p :: a in m.addresses(v).list && p in pats && E.MatchString(m, a, p, MatchOf(how));
      var a, p :| a in m.addresses(v).list && p in pats && E.MatchString(m, a, p, MatchOf(how));
      HasValueIff(m, field, v);
      FitsIff(m, how, a, p);
    }
  }

  lemma ExistsMeans(m: E.Message, names: seq<string>)
    ensures (forall i :: 0 <= i < |names| ==> E.CanonicalHeader(names[i]) in m.headers)
            <==> forall name :: name in names ==> HasHeader(m, name)
  {
    forall i | 0 <= i < |names| ensures HasHeader(m, names[i]) <==> E.CanonicalHeader(names[i]) in m.headers {
      HasHeaderIff(m, names[i]);
    }
    if forall name :: name in names ==> HasHeader(m, name) {
      forall i | 0 <= i < |names| ensures E.CanonicalHeader(names[i]) in m.headers {
        assert names[i] in names;
      }
    }
  }

  lemma LeafMeans(m: E.Message, c: Cond)
    requires Written(c) && (c.Always? || c.Never? || c.Unknown? || c.Exists?)
    ensures E.EvalTest(m, TestOf(TreeOf(c))) <==> Holds(m, c)
  {
    if c.Exists? {
      var t := BareTest("exists");
      M.LowerSame("exists");
      Taken1(t, Strings(c.names));
      StringsTaken(t, c.names);
      assert [] + c.names == c.names;
      ExistsMeans(m, c.names);
    } else if !c.Unknown? {
      M.LowerSame(TreeOf(c).name);
    }
  }

  lemma SizeMeans(m: E.Message, c: Cond)
    requires c.Over? || c.Under?
    ensures E.EvalTest(m, TestOf(TreeOf(c))) <==> Holds(m, c)
  {
    var tag, amount := if c.Over? then "over" else "under", Amount(c.n, c.unit);
    M.LowerSame("size");
    M.LowerSame(tag);
    Taken2(BareTest("size"), Tagged(tag), Bytes(c.n, c.unit, amount));
    assert [] + [amount] == [amount];
    assert TestOf(TreeOf(c)) == P.Test("size", map[][tag := ""], [], [amount], []);
  }

  lemma ComparisonMeans(m: E.Message, c: Cond)
    requires Written(c) && (c.Header? || c.Address?)
    ensures E.EvalTest(m, TestOf(TreeOf(c))) <==> Holds(m, c)
  {
    var name := TreeOf(c).name;
    M.LowerSame(name);
    ComparisonTaken(name, c.how, c.fields, c.patterns);
    var t := P.Test(name, HowTags(c.how), c.fields + c.patterns, [], []);
    assert TestOf(TreeOf(c)) == t;
    if c.Header? {
      HeaderTest(m, t);
      HeaderMeans(m, c.how, c.fields, c.patterns);
    } else {
      AddressTest(m, t);
      AddressMeans(m, c.how, c.fields, c.patterns);
    }
  }

  lemma HeaderTest(m: E.Message, t: P.Test)
    requires t.name == "header"
    ensures E.EvalTest(m, t) <==> |t.strings| >= 2 && E.MatchAnyHeaderValue(m, t.strings[0], t.strings[1..], t.tags)
  {
  }

  lemma AddressTest(m: E.Message, t: P.Test)
    requires t.name == "address"
    ensures E.EvalTest(m, t) <==> |t.strings| >= 2 && E.MatchAnyAddress(m, t.strings[0], t.strings[1..], t.tags)
  {
  }

  /** A test evaluates to what its author meant. */
  lemma {:induction false} CondMeans(m: E.Message, c: Cond)
    requires Written(c)
    ensures E.EvalTest(m, TestOf(TreeOf(c))) <==> Holds(m, c)
  {
    if c.AllOf? || c.AnyOf? {
      GroupNames();
      TreesLength(c.conds);
      forall i | 0 <= i < |c.conds|
        ensures E.EvalTest(m, TestOf(TreesOf(c.conds)[i])) <==> Holds(m, c.conds[i])
      {
        CondMeans(m, c.conds[i]);
      }
      GroupMeans(m, c);
    } else if c.Not? {
      M.LowerSame("not");
      CondMeans(m, c.cond);
    } else if c.Over? || c.Under? {
      SizeMeans(m, c);
    } else if c.Header? || c.Address? {
      ComparisonMeans(m, c);
    } else {
      LeafMeans(m, c);
    }
  }

  lemma GroupMeans(m: E.Message, c: Cond)
    requires (c.AllOf? || c.AnyOf?) && |TreesOf(c.conds)| == |c.conds|
    requires Lower("allof") == "allof" && Lower("anyof") == "anyof"
    requires forall i :: 0 <= i < |c.conds| ==> (E.EvalTest(m, TestOf(TreesOf(c.conds)[i])) <==> Holds(m, c.conds[i]))
    ensures E.EvalTest(m, TestOf(TreeOf(c))) <==> Holds(m, c)
  {
    var t, ts := TestOf(TreeOf(c)), TreesOf(c.conds);
    assert forall i :: 0 <= i < |ts| ==> t.tests[i] == TestOf(ts[i]);
    if c.AllOf? {
      assert E.EvalTest(m, t) <==> forall i :: 0 <= i < |t.tests| ==> E.EvalTest(m, t.tests[i]);
    } else {
      assert E.EvalTest(m, t) <==> exists i :: 0 <= i < |t.tests| && E.EvalTest(m, t.tests[i]);
      if Holds(m, c) {
        var i :| 0 <= i < |c.conds| && Holds(m, c.conds[i]);
        assert E.EvalTest(m, t.tests[i]);
      }
    }
  }

  // ---- commands -------------------------------------------------------------------------------

  ghost predicate Files(actions: seq<E.Action>) {
    exists i :: 0 <= i < |actions| && actions[i].FileInto?
  }

  /** The progress p after the run r. */
  ghost function Extended(p: E.Progress, r: Ran): E.Progress {
    E.Progress(p.actions + r.actions, p.hadFileInto || Files(r.actions), p.kept || E.Keep in r.actions,
               p.discarded || E.Discard in r.actions, r.stopped)
  }

  lemma FilesConcat(a: seq<E.Action>, b: seq<E.Action>)
    ensures Files(a + b) <==> Files(a) || Files(b)
  {
    if Files(b) {
      var i :| 0 <= i < |b| && b[i].FileInto?;
      assert (a + b)[|a| + i] == b[i];
    }
    if Files(a) {
      var i :| 0 <= i < |a| && a[i].FileInto?;
      assert (a + b)[i] == a[i];
    }
  }

  lemma ExtendedTwice(p: E.Progress, a: Ran, b: Ran)
    requires !a.stopped
    ensures Extended(Extended(p, a), b) == Extended(p, Ran(a.actions + b.actions, b.stopped))
  {
    FilesConcat(a.actions, b.actions);
    L.Assoc(p.actions, a.actions, b.actions);
  }

  lemma ExtendedByNothing(p: E.Progress)
    requires !p.stop
    ensures Extended(p, Ran([], false)) == p
  {
    assert p.actions + [] == p.actions;
  }

  lemma OptionsTaken(cmd: P.Command, opts: seq<Opt>, rest: seq<Arg>) returns (tags: map<string, string>)
    ensures CommandTakenAll(cmd, Options(opts) + rest) == CommandTakenAll(cmd.(tags := tags), rest)
    decreases |opts|
  {
    if opts == [] {
      assert Options(opts) + rest == rest;
      tags := cmd.tags;
    } else {
      var args := Options(opts) + rest;
      assert args[0] == Option(opts[0]) && args[1..] == Options(opts[1..]) + rest;
      tags := OptionsTaken(CommandTaken(cmd, args[0]), opts[1..], rest);
    }
  }

  /** A fileinto keeps the strings that no tag has taken. */
  lemma FileTaken(opts: seq<Opt>, boxes: seq<string>) returns (tags: map<string, string>)
    ensures CommandOf(NodeOf(File(opts, boxes))) == P.Command("fileinto", tags, boxes, [], [], [])
  {
    M.LowerSame("fileinto");
    var cmd := Bare("fileinto");
    if boxes == [] {
      assert Options(opts) + [] == Options(opts);
      tags := OptionsTaken(cmd, opts, []);
    } else {
      tags := OptionsTaken(cmd, opts, [Strings(boxes)]);
      BoxesTaken(cmd.(tags := tags), boxes);
    }
  }

  lemma BoxesTaken(cmd: P.Command, boxes: seq<string>)
    requires cmd.strings == []
    ensures CommandTakenAll(cmd, [Strings(boxes)]) == cmd.(strings := boxes)
  {
    assert [Strings(boxes)][1..] == [];
    assert [] + boxes == boxes;
    if |boxes| == 1 { assert [] + [boxes[0]] == boxes; }
  }

  lemma RunsFile(m: E.Message, opts: seq<Opt>, boxes: seq<string>, p: E.Progress)
    requires !p.stop
    ensures E.RunOne(m, CommandOf(NodeOf(File(opts, boxes))), p) == Extended(p, DoesOne(m, File(opts, boxes)))
  {
    var tags := FileTaken(opts, boxes);
    if boxes == [] {
      ExtendedByNothing(p);
    } else {
      assert [E.FileInto(boxes[0])][0].FileInto?;
    }
  }

  lemma {:induction false} NameStays(cmd: P.Command, args: seq<Arg>)
    ensures CommandTakenAll(cmd, args).name == cmd.name
    decreases |args|
  {
    if args != [] { NameStays(CommandTaken(cmd, args[0]), args[1..]); }
  }

  lemma CommandNamed(s: Stmt)
    requires !s.Other?
    ensures CommandOf(NodeOf(s)).name == NodeOf(s).name
  {
    M.LowerSame(NodeOf(s).name);
    if NodeOf(s).Simple? { NameStays(Bare(NodeOf(s).name), NodeOf(s).args); }
  }

  lemma NothingRuns(m: E.Message, cmd: P.Command, p: E.Progress)
    requires cmd.name !in ["if", "keep", "discard", "stop", "fileinto"] && !p.stop
    ensures E.RunOne(m, cmd, p) == Extended(p, Ran([], false))
  {
    ExtendedByNothing(p);
  }

  lemma ActionRuns(m: E.Message, cmd: P.Command, p: E.Progress)
    requires !p.stop
    ensures cmd.name == "keep" ==> E.RunOne(m, cmd, p) == Extended(p, Ran([E.Keep], false))
    ensures cmd.name == "discard" ==> E.RunOne(m, cmd, p) == Extended(p, Ran([E.Discard], false))
    ensures cmd.name == "stop" ==> E.RunOne(m, cmd, p) == Extended(p, Ran([], true))
  {
    assert !Files([E.Keep]) && !Files([E.Discard]) && !Files([]);
    assert p.actions + [] == p.actions;
  }

  lemma RunsPlain(m: E.Message, s: Stmt, p: E.Progress)
    requires WrittenStmt(s) && !p.stop && !s.If? && !s.File?
    ensures E.RunOne(m, CommandOf(NodeOf(s)), p) == Extended(p, DoesOne(m, s))
  {
    var cmd := CommandOf(NodeOf(s));
    if !s.Other? { CommandNamed(s); }
    if s.Keep? || s.Discard? || s.Stop? {
      ActionRuns(m, cmd, p);
    } else {
      NothingRuns(m, cmd, p);
    }
  }

  lemma {:induction false} RunsStmt(m: E.Message, s: Stmt, p: E.Progress)
    requires WrittenStmt(s) && !p.stop
    ensures E.RunOne(m, CommandOf(NodeOf(s)), p) == Extended(p, DoesOne(m, s))
    decreases s, 0
  {
    if s.If? {
      M.LowerSame("if");
      CondMeans(m, s.cond);
      RunsScript(m, s.body, p);
      ExtendedByNothing(p);
    } else if s.File? {
      RunsFile(m, s.opts, s.boxes, p);
    } else {
      RunsPlain(m, s, p);
    }
  }

  /** Running the commands of a script does what the script does. */
  lemma {:induction false} RunsScript(m: E.Message, ss: seq<Stmt>, p: E.Progress)
    requires WrittenAll(ss) && !p.stop
    ensures E.RunAll(m, CommandsOf(NodesOf(ss)), p) == Extended(p, Does(m, ss))
    decreases ss, 1
  {
    if ss == [] {
      ExtendedByNothing(p);
    } else {
      var first, rest := CommandOf(NodeOf(ss[0])), CommandsOf(NodesOf(ss[1..]));
      CommandsCons(ss);
      L.HeadTail(first, rest);
      RunsStmt(m, ss[0], p);
      var r, q := DoesOne(m, ss[0]), E.RunOne(m, first, p);
      if r.stopped {
        assert E.RunAll(m, rest, q) == q;
      } else {
        RunsScript(m, ss[1..], q);
        ExtendedTwice(p, r, Does(m, ss[1..]));
      }
    }
  }

  lemma CommandsCons(ss: seq<Stmt>)
    requires ss != []
    ensures CommandsOf(NodesOf(ss)) == [CommandOf(NodeOf(ss[0]))] + CommandsOf(NodesOf(ss[1..]))
  {
    L.HeadTail(NodeOf(ss[0]), NodesOf(ss[1..]));
  }

  // ---- the whole ------------------------------------------------------------------------------

  /** The text of a script is read without error, and run over any message gives the actions meant; a keep
      when there are none. */
  lemma ScriptMeans(m: E.Message, ss: seq<Stmt>, gap: string)
    requires WrittenAll(ss) && Blank(gap)
    ensures P.Parse(ScriptText(ss, gap)).Ok?
    ensures var acts := Does(m, ss).actions;
            E.Eval(m, P.Parse(ScriptText(ss, gap)).value) == if acts == [] then [E.Keep] else acts
  {
    var acts := Does(m, ss).actions;
    ScriptSpelt(ss, gap);
    ScriptIsFine(ss);
    NodesRead(NodesOf(ss), gap);
    RunsScript(m, ss, E.FRESH);
    assert [] + acts == acts;
    if acts != [] { Chooses(acts); }
  }

  lemma Chooses(acts: seq<E.Action>)
    requires acts != []
    ensures Files(acts) || E.Keep in acts || E.Discard in acts
  {
    match acts[0]
    case FileInto(_) => assert acts[0].FileInto?;
    case Keep => assert acts[0] in acts;
    case Discard => assert acts[0] in acts;
  }

  /** The mail is dropped if and only if a discard ran; otherwise it goes to the mailbox filed into last, or
      to the default one. */
  lemma ScriptDecides(m: E.Message, ss: seq<Stmt>, gap: string, folder: string)
    requires WrittenAll(ss) && Blank(gap)
    ensures var d, acts := E.Decide(m, ScriptText(ss, gap), folder), Does(m, ss).actions;
            && (d == E.Drop <==> E.Discard in acts)
            && (E.Discard !in acts && !Files(acts) ==> d == E.Deliver(folder))
            && (forall i: nat :: E.Discard !in acts && E.LastFiling(acts, i) ==> d == E.Deliver(acts[i].mailbox))
  {
    var acts, text := Does(m, ss).actions, ScriptText(ss, gap);
    ScriptMeans(m, ss, gap);
    if text == "" {
      EmptyText(ss, gap);
    } else {
      E.ChosenMeaning(if acts == [] then [E.Keep] else acts, folder);
    }
  }

  lemma EmptyText(ss: seq<Stmt>, gap: string)
    requires ScriptText(ss, gap) == ""
    ensures ss == []
  {
  }

  // ---- scripts spelt out ----------------------------------------------------------------------

  lemma ContainsText(field: string, word: string)
    ensures CondText(Header(Contains, [field], [word])) == "header :contains " + Quote(field) + " " + Quote(word)
  {
    assert "header " + ":contains " == "header :contains ";
  }

  lemma PairText(a: Cond, b: Cond)
    ensures CondText(AnyOf([a, b])) == "anyof (" + (CondText(a) + ", " + CondText(b)) + ")"
    ensures CondText(AllOf([a, b])) == "allof (" + (CondText(a) + ", " + CondText(b)) + ")"
  {
    var cs := [a, b];
    assert cs[1..] == [b] && CondsText([b]) == CondText(b);
    assert CondsText(cs) == CondText(a) + ", " + CondText(b);
  }

  lemma IfText(c: Cond, s: Stmt, gap: string)
    ensures ScriptText([If(c, [s])], gap) == "if " + CondText(c) + " {" + gap + StmtText(s, gap) + "}" + gap
  {
    var body := [s];
    var ss := [If(c, body)];
    assert body[1..] == [] && ss[1..] == [];
    assert ScriptText(body, gap) == StmtText(s, gap) + ScriptText([], gap) == StmtText(s, gap);
    assert ScriptText(ss, gap) == StmtText(ss[0], gap) + ScriptText([], gap) == StmtText(ss[0], gap);
  }

  lemma DoesIf(m: E.Message, c: Cond, s: Stmt)
    requires s.Discard? || s.File?
    ensures Does(m, [If(c, [s])]).actions == if Holds(m, c) then DoesOne(m, s).actions else []
  {
    var ss, body := [If(c, [s])], [s];
    assert ss[1..] == [] && body[1..] == [];
    var acts := DoesOne(m, s).actions;
    DoesLast(m, s);
    DoesLast(m, ss[0]);
  }

  lemma DoesLast(m: E.Message, s: Stmt)
    ensures Does(m, [s]) == DoesOne(m, s)
  {
    var acts := DoesOne(m, s).actions;
    assert [s][1..] == [] && acts + [] == acts;
  }

  /** One statement under one test. */
  lemma IfDecides(m: E.Message, c: Cond, s: Stmt, folder: string)
    requires Written(c) && (s.Discard? || (s.File? && s.opts == [] && s.boxes != []))
    ensures E.Decide(m, "if " + CondText(c) + " { " + StmtText(s, " ") + "} ", folder)
         == if !Holds(m, c) then E.Deliver(folder) else if s.Discard? then E.Drop else E.Deliver(s.boxes[0])
  {
    var ss, acts := [If(c, [s])], if Holds(m, c) then DoesOne(m, s).actions else [];
    IfText(c, s, " ");
    IfGlue(CondText(c), StmtText(s, " "));
    DoesIf(m, c, s);
    OneIsWritten(c, s);
    ScriptDecides(m, ss, " ", folder);
    if s.File? && Holds(m, c) { assert E.LastFiling(acts, 0); }
  }

  lemma OneIsWritten(c: Cond, s: Stmt)
    requires Written(c) && WrittenStmt(s)
    ensures WrittenAll([If(c, [s])])
  {
    assert WrittenAll([s]);
    assert WrittenStmt(If(c, [s]));
  }

  lemma IfGlue(c: string, s: string)
    ensures "if " + c + " {" + " " + s + "}" + " " == "if " + c + " { " + s + "} "
  {
    assert " {" + " " == " { " && "}" + " " == "} ";
  }

  /** Either word in its field drops the mail, in whatever case it is written there. */
  lemma EitherWordDrops(m: E.Message, a: string, x: string, b: string, y: string, folder: string)
    ensures E.Decide(m, "if anyof (" + ("header :contains " + Quote(a) + " " + Quote(x)) + ", "
                          + ("header :contains " + Quote(b) + " " + Quote(y)) + ") { discard; } ", folder)
         == if (exists v :: HasValue(m, a, v) && Holding(v, x)) || (exists v :: HasValue(m, b, v) && Holding(v, y))
            then E.Drop else E.Deliver(folder)
  {
    var first, second := Header(Contains, [a], [x]), Header(Contains, [b], [y]);
    ContainsText(a, x);
    ContainsText(b, y);
    PairText(first, second);
    PairIsWritten(first, second);
    assert "discard;" + " " == "discard; ";
    EitherGlue(CondText(first), CondText(second));
    ContainsOne(m, a, x);
    ContainsOne(m, b, y);
    PairHolds(m, first, second);
    IfDecides(m, AnyOf([first, second]), Discard, folder);
  }

  lemma PairIsWritten(a: Cond, b: Cond)
    requires Written(a) && Written(b)
    ensures Written(AnyOf([a, b])) && Written(AllOf([a, b]))
  {
  }

  lemma EitherGlue(a: string, b: string)
    ensures "if " + ("anyof (" + (a + ", " + b) + ")") + " { " + "discard; " + "} "
         == "if anyof (" + a + ", " + b + ") { discard; } "
  {
    assert "if " + "anyof (" == "if anyof (" && ")" + " { " + "discard; " + "} " == ") { discard; } ";
  }

  lemma ContainsOne(m: E.Message, field: string, p: string)
    ensures Holds(m, Header(Contains, [field], [p])) <==> exists v :: HasValue(m, field, v) && Holding(v, p)
  {
    assert [field][1..] + [p] == [p];
    if v :| HasValue(m, field, v) && Holding(v, p) {
      assert p in [p] && Fits(m, Contains, v, p);
    }
  }

  lemma PairHolds(m: E.Message, a: Cond, b: Cond)
    ensures Holds(m, AnyOf([a, b])) <==> Holds(m, a) || Holds(m, b)
    ensures Holds(m, AllOf([a, b])) <==> Holds(m, a) && Holds(m, b)
  {
    var cs := [a, b];
    assert cs[0] == a && cs[1] == b;
  }

  /** Mail beyond a size, and without a header, is filed apart. */
  lemma BigIsFiled(m: E.Message, name: string, n: nat, box: string, folder: string)
    requires n < 9_007_199_254_740_992
    ensures E.Decide(m, "if allof (" + ("not exists " + Quote(name)) + ", " + ("size :over " + (Figures(n) + "K"))
                          + ") { fileinto " + Quote(box) + "; } ", folder)
         == if !HasHeader(m, name) && m.size > n * 1024 then E.Deliver(box) else E.Deliver(folder)
  {
    var none, big, s := Not(Exists([name])), Over(n, "K"), File([], [box]);
    PairText(none, big);
    PairIsWritten(none, big);
    FileText(box);
    NoneText(name);
    BigGlue(CondText(none), CondText(big), Quote(box));
    PairHolds(m, none, big);
    NoneHolds(m, name);
    WrapMeaning(n * 1024);
    IfDecides(m, AllOf([none, big]), s, folder);
  }

  lemma NoneText(name: string)
    ensures CondText(Not(Exists([name]))) == "not exists " + Quote(name)
  {
    assert "not " + "exists " == "not exists ";
  }

  lemma NoneHolds(m: E.Message, name: string)
    ensures Holds(m, Not(Exists([name]))) <==> !HasHeader(m, name)
  {
    assert name in [name];
  }

  lemma FileText(box: string)
    ensures StmtText(File([], [box]), " ") == "fileinto " + Quote(box) + "; "
  {
    assert "fileinto" + OptsText([]) + " " == "fileinto " && ";" + " " == "; ";
  }

  lemma BigGlue(a: string, b: string, box: string)
    ensures "if " + ("allof (" + (a + ", " + b) + ")") + " { " + ("fileinto " + box + "; ") + "} "
         == "if allof (" + a + ", " + b + ") { fileinto " + box + "; } "
  {
    assert "if " + "allof (" == "if allof (" && ")" + " { " + "fileinto " == ") { fileinto " && "; " + "} " == "; } ";
  }

  /** A tag in front of the mailbox takes it: nothing is filed. */
  lemma TagTakesMailbox(m: E.Message, tag: string, box: string, folder: string)
    requires IsName(tag)
    ensures E.Decide(m, "fileinto :" + tag + " " + Quote(box) + "; ", folder) == E.Deliver(folder)
  {
    var ss := [File([Opt(tag, box)], [])];
    TagText(tag, box);
    assert ss[1..] == [] && Does(m, ss).actions == [];
    ScriptDecides(m, ss, " ", folder);
  }

  lemma TagText(tag: string, box: string)
    ensures ScriptText([File([Opt(tag, box)], [])], " ") == "fileinto :" + tag + " " + Quote(box) + "; "
  {
    var opts := [Opt(tag, box)];
    assert opts[1..] == [] && OptsText(opts) == " :" + tag + " " + Quote(box);
    assert [File(opts, [])][1..] == [];
    assert "fileinto" + " :" == "fileinto :" && ";" + " " == "; ";
  }

  /** An else never runs. */
  lemma ElseIsIgnored(m: E.Message, c: Cond, ss: seq<Stmt>, gap: string, folder: string)
    requires Written(c) && WrittenAll(ss) && Blank(gap) && !Holds(m, c)
    ensures E.Decide(m, ScriptText([If(c, []), Else(ss)], gap), folder) == E.Deliver(folder)
  {
    var script := [If(c, []), Else(ss)];
    assert script[1..] == [Else(ss)];
    DoesLast(m, Else(ss));
    assert DoesOne(m, script[0]) == Ran([], false);
    assert Does(m, script) == Ran([] + [], false);
    ScriptDecides(m, script, gap, folder);
  }

  /** A message whose only header is `b`, with the value p. */
  function Only(b: string, p: string): E.Message {
    E.Message(map[E.CanonicalHeader(b) := [p]], 0, (v, q) => false, s => E.Unparsable)
  }

  /** In a list of two fields the second is never looked at, whatever two fields they are. */
  lemma SecondFieldIsMissed(a: string, b: string, p: string, folder: string)
    requires E.CanonicalHeader(a) != E.CanonicalHeader(b)
    ensures HasValue(Only(b, p), b, p)
    ensures E.Decide(Only(b, p), ScriptText([If(Header(Is, [a, b], [p]), [Discard])], " "), folder) == E.Deliver(folder)
  {
    var m, c := Only(b, p), Header(Is, [a, b], [p]);
    HasValueIff(m, b, p);
    if Holds(m, c) {
      var v, q :| HasValue(m, a, v) && q in [a, b][1..] + [p] && Fits(m, Is, v, q);
      HasValueIff(m, a, v);
      assert false;
    }
    DoesIf(m, c, Discard);
    OneIsWritten(c, Discard);
    ScriptDecides(m, [If(c, [Discard])], " ", folder);
  }
}
