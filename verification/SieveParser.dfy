/** The Sieve parser: recursive descent over the token list. */
module SieveParser {
  import opened SieveLexer
  import opened Ascii

  datatype Test = Test(name: string, tags: map<string, string>, strings: seq<string>, numbers: seq<int>,
                       tests: seq<Test>)

  datatype Command = Command(name: string, tags: map<string, string>, strings: seq<string>, numbers: seq<int>,
                             tests: seq<Test>, block: seq<Command>)

  datatype Parsed<T> = Done(value: T, pos: nat) | Failed(line: nat)

  /** What the tokenizer guarantees. */
  predicate Terminated(toks: seq<Token>) {
    toks != [] && toks[|toks| - 1].kind == Eof
  }

  // ---- reference: the grammar as functions of the position ------------------------------------

  /** Whatever is parsed, the position stays inside the list and does not move backwards. */
  predicate Within<T>(r: Parsed<T>, toks: seq<Token>, least: nat) {
    r.Done? ==> least <= r.pos < |toks|
  }

  /** String list, after its opening bracket. */
  function Strings(toks: seq<Token>, pos: nat, acc: seq<string>): (r: Parsed<seq<string>>)
    requires Terminated(toks) && pos < |toks|
    ensures Within(r, toks, pos + 1)
    decreases |toks| - pos
  {
    if toks[pos].kind == RBracket then Done(acc, pos + 1)
    else if toks[pos].kind != Str then Failed(toks[pos].line)
    else if toks[pos + 1].kind == Comma then Strings(toks, pos + 2, acc + [toks[pos].val])
    else Strings(toks, pos + 1, acc + [toks[pos].val])
  }

  function Block(toks: seq<Token>, pos: nat, acc: seq<Command>): (r: Parsed<seq<Command>>)
    requires Terminated(toks) && pos < |toks|
    ensures Within(r, toks, pos)
    decreases |toks| - pos, 4
  {
    if toks[pos].kind == Eof || toks[pos].kind == RBrace then Done(acc, pos) else
    match CommandAt(toks, pos)
    case Failed(l) => Failed(l)
    case Done(c, next) => Block(toks, next, acc + [c])
  }

  function CommandAt(toks: seq<Token>, pos: nat): (r: Parsed<Command>)
    requires Terminated(toks) && pos < |toks|
    ensures Within(r, toks, pos + 1)
    decreases |toks| - pos, 3
  {
    if toks[pos].kind != Ident then Failed(toks[pos].line) else
    var name := Lower(toks[pos].val);
    var bare := Command(name, map[], [], [], [], []);
    if name == "if" || name == "elsif" then
      match TestAt(toks, pos + 1)
      case Failed(l) => Failed(l)
      case Done(t, next) => Arguments(toks, next, bare.(tests := [t]))
    else Arguments(toks, pos + 1, bare)
  }

  /** Arguments of a command, up to its semicolon or through its block. */
  function Arguments(toks: seq<Token>, pos: nat, cmd: Command): (r: Parsed<Command>)
    requires Terminated(toks) && pos < |toks|
    ensures Within(r, toks, pos + 1)
    decreases |toks| - pos, 2
  {
    var t := toks[pos];
    match t.kind
    case Tag =>
      var tag := Lower(t.val);
      if toks[pos + 1].kind == Str then Arguments(toks, pos + 2, cmd.(tags := cmd.tags[tag := toks[pos + 1].val]))
      else Arguments(toks, pos + 1, cmd.(tags := cmd.tags[tag := ""]))
    case Str => Arguments(toks, pos + 1, cmd.(strings := cmd.strings + [t.val]))
    case Number => Arguments(toks, pos + 1, cmd.(numbers := cmd.numbers + [t.num]))
    case LBracket =>
      (match Strings(toks, pos + 1, [])
       case Failed(l) => Failed(l)
       case Done(ss, next) => Arguments(toks, next, cmd.(strings := cmd.strings + ss)))
    case Semi => Done(cmd, pos + 1)
    case LBrace =>
      (match Block(toks, pos + 1, [])
       case Failed(l) => Failed(l)
       case Done(block, next) => if toks[next].kind == RBrace then Done(cmd.(block := block), next + 1)
         else Failed(toks[next].line))
    case _ => Failed(t.line)
  }

  function TestAt(toks: seq<Token>, pos: nat): (r: Parsed<Test>)
    requires Terminated(toks) && pos < |toks|
    ensures Within(r, toks, pos + 1)
    decreases |toks| - pos, 1
  {
    if toks[pos].kind != Ident then Failed(toks[pos].line) else
    var name := Lower(toks[pos].val);
    var bare := Test(name, map[], [], [], []);
    if name == "allof" || name == "anyof" then
      if toks[pos + 1].kind != LParen then Failed(toks[pos + 1].line) else
      match TestList(toks, pos + 2, [])
      case Failed(l) => Failed(l)
      case Done(ts, next) => if toks[next].kind == RParen then Done(bare.(tests := ts), next + 1)
        else Failed(toks[next].line)
    else if name == "not" then
      match TestAt(toks, pos + 1)
      case Failed(l) => Failed(l)
      case Done(t, next) => Done(bare.(tests := [t]), next)
    else if name == "true" || name == "false" then Done(bare, pos + 1)
    else TestArguments(toks, pos + 1, bare)
  }

  function TestList(toks: seq<Token>, pos: nat, acc: seq<Test>): (r: Parsed<seq<Test>>)
    requires Terminated(toks) && pos < |toks|
    ensures Within(r, toks, pos + 1)
    decreases |toks| - pos, 2
  {
    match TestAt(toks, pos)
    case Failed(l) => Failed(l)
    case Done(t, next) =>
      if toks[next].kind == Comma then TestList(toks, next + 1, acc + [t]) else Done(acc + [t], next)
  }

  /** Tags, strings and numbers of a generic test, up to anything else. */
  function TestArguments(toks: seq<Token>, pos: nat, t: Test): (r: Parsed<Test>)
    requires Terminated(toks) && pos < |toks|
    ensures Within(r, toks, pos)
    decreases |toks| - pos, 0
  {
    match toks[pos].kind
    case Tag => TestArguments(toks, pos + 1, t.(tags := t.tags[Lower(toks[pos].val) := ""]))
    case Str => TestArguments(toks, pos + 1, t.(strings := t.strings + [toks[pos].val]))
    case Number => TestArguments(toks, pos + 1, t.(numbers := t.numbers + [toks[pos].num]))
    case LBracket =>
      (match Strings(toks, pos + 1, [])
       case Failed(l) => Failed(l)
       case Done(ss, next) => TestArguments(toks, next, t.(strings := t.strings + ss)))
    case _ => Done(t, pos)
  }

  // ---- the parser -----------------------------------------------------------------------------

  class Parser {
    const tokens: seq<Token>
    var pos: nat

    constructor (tokens: seq<Token>)
      requires Terminated(tokens)
      ensures this.tokens == tokens && pos == 0 && Valid()
    {
      this.tokens, pos := tokens, 0;
    }

    /** The next token can be looked at without reading past the end. */
    predicate Valid()
      reads this
    {
      Terminated(tokens) && pos < |tokens|
    }

    method Peek() returns (t: Token)
      requires Valid()
      ensures t == tokens[pos]
    {
      t := tokens[pos];
    }

    /** Consumes a token of the given kind; the end-of-file mark is never consumed. */
    method Expect(k: Kind) returns (ok: bool)
      requires Valid() && k != Eof
      modifies this
      ensures Valid() && ok == (tokens[old(pos)].kind == k) && pos == if ok then old(pos) + 1 else old(pos)
    {
      ok := tokens[pos].kind == k;
      if ok { pos := pos + 1; }
    }

    method ParseStringList() returns (r: Result<seq<string>>)
      requires Valid() && tokens[pos].kind == LBracket
      modifies this
      ensures Valid() && Follows(r, Strings(tokens, old(pos) + 1, []), pos)
    {
      var _ := Expect(LBracket);
      var out: seq<string> := [];
      ghost var want := Strings(tokens, pos, []);
      while true
        invariant Valid() && Strings(tokens, pos, out) == want
        decreases |tokens| - pos
      {
        var t := Peek();
        if t.kind == RBracket {
          pos := pos + 1;
          return Ok(out);
        }
        var ok := Expect(Str);
        if !ok { return Err(t.line); }
        out := out + [t.val];
        t := Peek();
        if t.kind == Comma { pos := pos + 1; }
      }
    }

    method ParseBlock() returns (r: Result<seq<Command>>)
      requires Valid()
      modifies this
      ensures Valid() && Follows(r, Block(tokens, old(pos), []), pos)
      decreases |tokens| - pos, 4
    {
      var cmds: seq<Command> := [];
      ghost var want := Block(tokens, pos, []);
      while true
        invariant Valid() && pos >= old(pos) && Block(tokens, pos, cmds) == want
        decreases |tokens| - pos
      {
        var t := Peek();
        if t.kind == Eof || t.kind == RBrace { return Ok(cmds); }
        var c := ParseCommand();
        if c.Err? { return Err(c.line); }
        cmds := cmds + [c.value];
      }
    }

    method ParseCommand() returns (r: Result<Command>)
      requires Valid()
      modifies this
      ensures Valid() && Follows(r, CommandAt(tokens, old(pos)), pos)
      decreases |tokens| - pos, 3
    {
      var id := Peek();
      var ok := Expect(Ident);
      if !ok { return Err(id.line); }
      var cmd := Command(Lower(id.val), map[], [], [], [], []);
      if cmd.name == "if" || cmd.name == "elsif" {
        var t := ParseTest();
        if t.Err? { return Err(t.line); }
        cmd := cmd.(tests := [t.value]);
      }
      r := ParseArguments(cmd);
    }

    /** Positional and tagged arguments, until ; or {. */
    method ParseArguments(bare: Command) returns (r: Result<Command>)
      requires Valid()
      modifies this
      ensures Valid() && Follows(r, Arguments(tokens, old(pos), bare), pos)
      decreases |tokens| - pos, 2
    {
      var cmd := bare;
      ghost var want := Arguments(tokens, pos, cmd);
      while true
        invariant Valid() && pos >= old(pos) && Arguments(tokens, pos, cmd) == want
        decreases |tokens| - pos
      {
        var t := Peek();
        match t.kind {
          case Tag =>
            pos := pos + 1;
            var arg := Peek();
            if arg.kind == Str {
              cmd := cmd.(tags := cmd.tags[Lower(t.val) := arg.val]);
              pos := pos + 1;
            } else {
              cmd := cmd.(tags := cmd.tags[Lower(t.val) := ""]);
            }
          case Str =>
            cmd := cmd.(strings := cmd.strings + [t.val]);
            pos := pos + 1;
          case Number =>
            cmd := cmd.(numbers := cmd.numbers + [t.num]);
            pos := pos + 1;
          case LBracket =>
            var ss := ParseStringList();
            if ss.Err? { return Err(ss.line); }
            cmd := cmd.(strings := cmd.strings + ss.value);
          case Semi =>
            pos := pos + 1;
            return Ok(cmd);
          case LBrace =>
            r := ParseBraces(cmd);
            return;
          case _ =>
            return Err(t.line);
        }
      }
    }

    /** The block of a command ends it. */
    method ParseBraces(bare: Command) returns (r: Result<Command>)
      requires Valid() && tokens[pos].kind == LBrace
      modifies this
      ensures Valid() && Follows(r, Arguments(tokens, old(pos), bare), pos)
      decreases |tokens| - pos, 1
    {
      pos := pos + 1;
      var block := ParseBlock();
      if block.Err? { return Err(block.line); }
      var close := Peek();
      var ok := Expect(RBrace);
      if !ok { return Err(close.line); }
      return Ok(bare.(block := block.value));
    }

    method ParseTest() returns (r: Result<Test>)
      requires Valid()
      modifies this
      ensures Valid() && Follows(r, TestAt(tokens, old(pos)), pos)
      decreases |tokens| - pos, 1
    {
      var id := Peek();
      var ok := Expect(Ident);
      if !ok { return Err(id.line); }
      var tst := Test(Lower(id.val), map[], [], [], []);
      if tst.name == "allof" || tst.name == "anyof" {
        r := ParseTestList(tst);
        return;
      }
      if tst.name == "not" {
        var t := ParseTest();
        if t.Err? { return Err(t.line); }
        return Ok(tst.(tests := [t.value]));
      }
      if tst.name == "true" || tst.name == "false" { return Ok(tst); }
      r := ParseTestArguments(tst);
    }

    /** Tags, strings and numbers of a generic test. */
    method ParseTestArguments(bare: Test) returns (r: Result<Test>)
      requires Valid()
      modifies this
      ensures Valid() && Follows(r, TestArguments(tokens, old(pos), bare), pos)
      decreases |tokens| - pos, 0
    {
      var tst := bare;
      ghost var want := TestArguments(tokens, pos, tst);
      while true
        invariant Valid() && TestArguments(tokens, pos, tst) == want
        decreases |tokens| - pos
      {
        var t := Peek();
        match t.kind {
          case Tag =>
            pos := pos + 1;
            tst := tst.(tags := tst.tags[Lower(t.val) := ""]);
          case Str =>
            tst := tst.(strings := tst.strings + [t.val]);
            pos := pos + 1;
          case Number =>
            tst := tst.(numbers := tst.numbers + [t.num]);
            pos := pos + 1;
          case LBracket =>
            var ss := ParseStringList();
            if ss.Err? { return Err(ss.line); }
            tst := tst.(strings := tst.strings + ss.value);
          case _ =>
            return Ok(tst);
        }
      }
    }

    /** The parenthesised list of allof and anyof. */
    method ParseTestList(bare: Test) returns (r: Result<Test>)
      requires Valid()
      modifies this
      ensures Valid()
      ensures if tokens[old(pos)].kind != LParen then r == Err(tokens[old(pos)].line) else
              match TestList(tokens, old(pos) + 1, [])
              case Failed(l) => r == Err(l)
              case Done(ts, next) =>
                if tokens[next].kind == RParen then r == Ok(bare.(tests := ts)) && pos == next + 1
                  else r == Err(tokens[next].line)
      decreases |tokens| - pos, 3
    {
      var open := Peek();
      var ok := Expect(LParen);
      if !ok { return Err(open.line); }
      var ts: seq<Test> := [];
      ghost var want := TestList(tokens, pos, []);
      while true
        invariant Valid() && pos > old(pos) && TestList(tokens, pos, ts) == want
        decreases |tokens| - pos
      {
        var t := ParseTest();
        if t.Err? { return Err(t.line); }
        ts := ts + [t.value];
        var next := Peek();
        if next.kind != Comma {
          ok := Expect(RParen);
          if !ok { return Err(next.line); }
          return Ok(bare.(tests := ts));
        }
        pos := pos + 1;
      }
    }
  }

  /** The method's answer and position are the reference's. */
  ghost predicate Follows<T(!new)>(r: Result<T>, want: Parsed<T>, pos: nat) {
    match want
    case Failed(l) => r == Err(l)
    case Done(v, next) => r == Ok(v) && pos == next
  }

  function Parse(src: string): Result<seq<Command>> {
    match Lex(src, 1)
    case Err(l) => Err(l)
    case Ok(toks) =>
      LexEndsInEof(src, 1);
      match Block(toks, 0, [])
      case Failed(l) => Err(l)
      case Done(cmds, _) => Ok(cmds)
  }

  /** Lexing and parsing are total: every text gives a script or an error. */
  method ParseScript(src: string) returns (r: Result<seq<Command>>)
    ensures r == Parse(src)
  {
    var toks, _ := Tokenize(src);
    if toks.Err? { return Err(toks.line); }
    LexEndsInEof(src, 1);
    var p := new Parser(toks.value);
    r := p.ParseBlock();
  }

  // ---- the case of words ----------------------------------------------------------------------

  /** The same tokens, words and tags in any case. */
  predicate Alike(a: seq<Token>, b: seq<Token>) {
    |a| == |b| && forall i :: 0 <= i < |a| ==> AlikeAt(a[i], b[i])
  }

  predicate AlikeAt(a: Token, b: Token) {
    && a.kind == b.kind && a.num == b.num && a.line == b.line
    && if a.kind == Ident || a.kind == Tag then SameButCase(a.val, b.val) else a.val == b.val
  }

  lemma {:induction false} StringsAlike(a: seq<Token>, b: seq<Token>, pos: nat, acc: seq<string>)
    requires Terminated(a) && Terminated(b) && Alike(a, b) && pos < |a|
    ensures Strings(a, pos, acc) == Strings(b, pos, acc)
    decreases |a| - pos
  {
    assert AlikeAt(a[pos], b[pos]);
    if a[pos].kind == Str {
      assert AlikeAt(a[pos + 1], b[pos + 1]);
      StringsAlike(a, b, if a[pos + 1].kind == Comma then pos + 2 else pos + 1, acc + [a[pos].val]);
    }
  }

  lemma {:induction false} TestArgumentsAlike(a: seq<Token>, b: seq<Token>, pos: nat, t: Test)
    requires Terminated(a) && Terminated(b) && Alike(a, b) && pos < |a|
    ensures TestArguments(a, pos, t) == TestArguments(b, pos, t)
    decreases |a| - pos
  {
    assert AlikeAt(a[pos], b[pos]);
    match a[pos].kind
    case Tag =>
      LowerForgetsCase(a[pos].val, b[pos].val);
      TestArgumentsAlike(a, b, pos + 1, t.(tags := t.tags[Lower(a[pos].val) := ""]));
    case Str => TestArgumentsAlike(a, b, pos + 1, t.(strings := t.strings + [a[pos].val]));
    case Number => TestArgumentsAlike(a, b, pos + 1, t.(numbers := t.numbers + [a[pos].num]));
    case LBracket =>
      StringsAlike(a, b, pos + 1, []);
      var ss := Strings(a, pos + 1, []);
      if ss.Done? { TestArgumentsAlike(a, b, ss.pos, t.(strings := t.strings + ss.value)); }
    case _ =>
  }

  lemma {:induction false} TestAlike(a: seq<Token>, b: seq<Token>, pos: nat)
    requires Terminated(a) && Terminated(b) && Alike(a, b) && pos < |a|
    ensures TestAt(a, pos) == TestAt(b, pos)
    decreases |a| - pos, 1
  {
    assert AlikeAt(a[pos], b[pos]);
    if a[pos].kind == Ident {
      LowerForgetsCase(a[pos].val, b[pos].val);
      var name := Lower(a[pos].val);
      assert AlikeAt(a[pos + 1], b[pos + 1]);
      if name == "allof" || name == "anyof" {
        if a[pos + 1].kind == LParen { TestListAlike(a, b, pos + 2, []); }
      } else if name == "not" {
        TestAlike(a, b, pos + 1);
      } else {
        TestArgumentsAlike(a, b, pos + 1, Test(name, map[], [], [], []));
      }
    }
  }

  lemma {:induction false} TestListAlike(a: seq<Token>, b: seq<Token>, pos: nat, acc: seq<Test>)
    requires Terminated(a) && Terminated(b) && Alike(a, b) && pos < |a|
    ensures TestList(a, pos, acc) == TestList(b, pos, acc)
    decreases |a| - pos, 2
  {
    TestAlike(a, b, pos);
    var t := TestAt(a, pos);
    if t.Done? {
      assert AlikeAt(a[t.pos], b[t.pos]);
      if a[t.pos].kind == Comma { TestListAlike(a, b, t.pos + 1, acc + [t.value]); }
    }
  }

  lemma {:induction false} ArgumentsAlike(a: seq<Token>, b: seq<Token>, pos: nat, cmd: Command)
    requires Terminated(a) && Terminated(b) && Alike(a, b) && pos < |a|
    ensures Arguments(a, pos, cmd) == Arguments(b, pos, cmd)
    decreases |a| - pos, 2
  {
    assert AlikeAt(a[pos], b[pos]);
    match a[pos].kind
    case Tag =>
      LowerForgetsCase(a[pos].val, b[pos].val);
      var tag := Lower(a[pos].val);
      assert AlikeAt(a[pos + 1], b[pos + 1]);
      if a[pos + 1].kind == Str {
        ArgumentsAlike(a, b, pos + 2, cmd.(tags := cmd.tags[tag := a[pos + 1].val]));
      } else {
        ArgumentsAlike(a, b, pos + 1, cmd.(tags := cmd.tags[tag := ""]));
      }
    case Str => ArgumentsAlike(a, b, pos + 1, cmd.(strings := cmd.strings + [a[pos].val]));
    case Number => ArgumentsAlike(a, b, pos + 1, cmd.(numbers := cmd.numbers + [a[pos].num]));
    case LBracket =>
      StringsAlike(a, b, pos + 1, []);
      var ss := Strings(a, pos + 1, []);
      if ss.Done? { ArgumentsAlike(a, b, ss.pos, cmd.(strings := cmd.strings + ss.value)); }
    case LBrace =>
      BlockAlike(a, b, pos + 1, []);
      var block := Block(a, pos + 1, []);
      if block.Done? { assert AlikeAt(a[block.pos], b[block.pos]); }
    case _ =>
  }

  lemma {:induction false} CommandAlike(a: seq<Token>, b: seq<Token>, pos: nat)
    requires Terminated(a) && Terminated(b) && Alike(a, b) && pos < |a|
    ensures CommandAt(a, pos) == CommandAt(b, pos)
    decreases |a| - pos, 3
  {
    assert AlikeAt(a[pos], b[pos]);
    if a[pos].kind == Ident {
      LowerForgetsCase(a[pos].val, b[pos].val);
      var name := Lower(a[pos].val);
      var bare := Command(name, map[], [], [], [], []);
      if name == "if" || name == "elsif" {
        TestAlike(a, b, pos + 1);
        var t := TestAt(a, pos + 1);
        if t.Done? { ArgumentsAlike(a, b, t.pos, bare.(tests := [t.value])); }
      } else {
        ArgumentsAlike(a, b, pos + 1, bare);
      }
    }
  }

  /** Commands, tests and tags may be written in any case. */
  lemma {:induction false} BlockAlike(a: seq<Token>, b: seq<Token>, pos: nat, acc: seq<Command>)
    requires Terminated(a) && Terminated(b) && Alike(a, b) && pos < |a|
    ensures Block(a, pos, acc) == Block(b, pos, acc)
    decreases |a| - pos, 4
  {
    assert AlikeAt(a[pos], b[pos]);
    if a[pos].kind != Eof && a[pos].kind != RBrace {
      CommandAlike(a, b, pos);
      var c := CommandAt(a, pos);
      if c.Done? { BlockAlike(a, b, c.pos, acc + [c.value]); }
    }
  }

  /** So two texts whose words differ only in case are the same script. */
  lemma ParseIgnoresCase(src: string, other: string)
    requires Lex(src, 1).Ok? && Lex(other, 1).Ok? && Alike(Lex(src, 1).value, Lex(other, 1).value)
    ensures Parse(src) == Parse(other)
  {
    LexEndsInEof(src, 1);
    LexEndsInEof(other, 1);
    BlockAlike(Lex(src, 1).value, Lex(other, 1).value, 0, []);
  }
}
