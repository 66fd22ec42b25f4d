/** Alias resolution: depth- and cycle-guarded expansion of an address. */
module Alias {
  import opened Ascii

  const MAX_DEPTH: nat := 5

  datatype Directory = Directory(accounts: map<string, nat>, aliases: map<string, seq<string>>)

  /** The mutable state of one resolution: the visited set and the result so far. */
  datatype Progress = Progress(visited: set<string>, local: seq<nat>, remote: seq<string>)

  function Left(depth: nat): nat {
    if depth <= MAX_DEPTH + 2 then MAX_DEPTH + 2 - depth else 0
  }

  function Walk(dir: Directory, address: string, depth: nat, p: Progress): Progress
    decreases Left(depth), 0, 0
  {
    if depth > MAX_DEPTH || address in p.visited then p else
    var p := p.(visited := p.visited + {address});
    if address in dir.accounts then
      if dir.accounts[address] in p.local then p else p.(local := p.local + [dir.accounts[address]])
    else if address !in dir.aliases then
      if depth > 0 && address !in p.remote then p.(remote := p.remote + [address]) else p
    else WalkAll(dir, dir.aliases[address], depth + 1, p)
  }

  function WalkAll(dir: Directory, dests: seq<string>, depth: nat, p: Progress): Progress
    decreases Left(depth), 1, |dests|
  {
    if dests == [] then p else WalkAll(dir, dests[1..], depth, Walk(dir, Lower(dests[0]), depth, p))
  }

  const START := Progress({}, [], [])

  class Resolution {
    var visited: set<string>
    var local: seq<nat>
    var remote: seq<string>

    constructor ()
      ensures Now() == START
    {
      visited, local, remote := {}, [], [];
    }

    ghost function Now(): Progress
      reads this
    {
      Progress(visited, local, remote)
    }

    method Resolve(dir: Directory, address: string, depth: nat)
      modifies this
      ensures Now() == Walk(dir, address, depth, old(Now()))
      decreases Left(depth)
    {
      if depth > MAX_DEPTH || address in visited { return; }
      visited := visited + {address};
      if address in dir.accounts {
        if dir.accounts[address] !in local {
          local := local + [dir.accounts[address]];
        }
        return;
      }
      if address !in dir.aliases {
        if depth > 0 && address !in remote {
          remote := remote + [address];
        }
        return;
      }
      var dests := dir.aliases[address];
      ghost var p := Now();
      for i := 0 to |dests|
        invariant WalkAll(dir, dests[i..], depth + 1, Now()) == WalkAll(dir, dests, depth + 1, p)
      {
        assert dests[i..][1..] == dests[i + 1..];
        Resolve(dir, Lower(dests[i]), depth + 1);
      }
      assert dests[|dests|..] == [];
    }
  }

  /** The entry point: a fresh visited set, depth zero. */
  method ResolveDestinations(dir: Directory, address: string) returns (local: seq<nat>, remote: seq<string>)
    ensures local == Resolved(dir, address).local && remote == Resolved(dir, address).remote
  {
    var r := new Resolution();
    r.Resolve(dir, Lower(address), 0);
    local, remote := r.local, r.remote;
  }

  function Resolved(dir: Directory, address: string): Progress {
    Walk(dir, Lower(address), 0, START)
  }

  // ---- the alias graph ------------------------------------------------------------------------

  /** One hop: only an alias that is not an account leads anywhere. */
  ghost predicate Hop(dir: Directory, a: string, b: string) {
    a !in dir.accounts && a in dir.aliases && exists d :: d in dir.aliases[a] && Lower(d) == b
  }

  ghost predicate Chain(dir: Directory, c: seq<string>) {
    forall i :: 0 <= i < |c| - 1 ==> Hop(dir, c[i], c[i + 1])
  }

  predicate Distinct<T(==)>(c: seq<T>) {
    forall i, j :: 0 <= i < j < |c| ==> c[i] != c[j]
  }

  ghost predicate Joins(dir: Directory, c: seq<string>, a: string, b: string) {
    c != [] && Chain(dir, c) && c[0] == a && c[|c| - 1] == b
  }

  ghost predicate ReachedWithin(dir: Directory, a: string, b: string, hops: nat) {
    exists c :: Joins(dir, c, a, b) && |c| <= hops + 1
  }

  ghost predicate Reached(dir: Directory, a: string, b: string) {
    exists c :: Joins(dir, c, a, b)
  }

  predicate IsRemote(dir: Directory, a: string) {
    a !in dir.accounts && a !in dir.aliases
  }

  /** No cycle-free chain from the root is longer than the hop limit. */
  ghost predicate Shallow(dir: Directory, root: string) {
    forall c :: c != [] && c[0] == root && Chain(dir, c) && Distinct(c) ==> |c| <= MAX_DEPTH + 1
  }

  // ---- soundness ------------------------------------------------------------------------------

  /** What every state of the walk satisfies: results come from visited addresses, all of them near. */
  ghost predicate Honest(dir: Directory, root: string, p: Progress) {
    && Distinct(p.local) && Distinct(p.remote)
    && (forall v :: v in p.visited ==> ReachedWithin(dir, root, v, MAX_DEPTH))
    && (forall id :: id in p.local ==> exists v :: v in p.visited && v in dir.accounts && dir.accounts[v] == id)
    && (forall r :: r in p.remote ==> r in p.visited && r != root && IsRemote(dir, r))
    && (forall v :: v in p.visited && v in dir.accounts ==> dir.accounts[v] in p.local)
    && (forall v :: v in p.visited && IsRemote(dir, v) && v != root ==> v in p.remote)
  }

  /** The chain walked so far leads to the address at hand. */
  ghost predicate Leads(dir: Directory, root: string, stack: seq<string>, address: string, depth: nat) {
    |stack| == depth && Joins(dir, stack + [address], root, address)
  }

  lemma {:induction false} WalkHonest(dir: Directory, root: string, stack: seq<string>, address: string, depth: nat,
                                      p: Progress)
    requires Honest(dir, root, p) && Leads(dir, root, stack, address, depth) && (depth > 0 ==> root in p.visited)
    ensures Honest(dir, root, Walk(dir, address, depth, p))
    ensures p.visited <= Walk(dir, address, depth, p).visited
    decreases Left(depth), 0, 0
  {
    if depth <= MAX_DEPTH && address !in p.visited {
      VisitHonest(dir, root, stack, address, depth, p);
      var q := p.(visited := p.visited + {address});
      if address !in dir.accounts && address in dir.aliases {
        var dests := dir.aliases[address];
        forall d | d in dests ensures Leads(dir, root, stack + [address], Lower(d), depth + 1) {
          NextLeads(dir, root, stack, address, depth, Lower(d));
        }
        assert depth == 0 ==> address == root by { assert (stack + [address])[0] == root; }
        WalkAllHonest(dir, root, stack + [address], dests, depth + 1, q);
      }
    }
  }

  lemma NextLeads(dir: Directory, root: string, stack: seq<string>, address: string, depth: nat, next: string)
    requires Leads(dir, root, stack, address, depth) && Hop(dir, address, next)
    ensures Leads(dir, root, stack + [address], next, depth + 1)
  {
    var c, c' := stack + [address], stack + [address] + [next];
    assert forall i :: 0 <= i < |c| ==> c'[i] == c[i];
  }

  /** Visiting one address, before its aliases are expanded. */
  lemma VisitHonest(dir: Directory, root: string, stack: seq<string>, address: string, depth: nat, p: Progress)
    requires Honest(dir, root, p) && Leads(dir, root, stack, address, depth) && (depth > 0 ==> root in p.visited)
    requires depth <= MAX_DEPTH && address !in p.visited
    ensures var q := p.(visited := p.visited + {address});
            if address in dir.accounts || address !in dir.aliases then Honest(dir, root, Walk(dir, address, depth, p))
            else Honest(dir, root, q)
  {
    assert ReachedWithin(dir, root, address, MAX_DEPTH) by { assert Joins(dir, stack + [address], root, address); }
    assert depth == 0 ==> address == root by { assert (stack + [address])[0] == root; }
    if address in dir.accounts {
      AccountVisited(dir, root, address, p);
    } else if address !in dir.aliases {
      RemoteVisited(dir, root, address, depth, p);
    } else {
      AliasVisited(dir, root, address, p);
    }
  }

  lemma AccountVisited(dir: Directory, root: string, address: string, p: Progress)
    requires Honest(dir, root, p) && ReachedWithin(dir, root, address, MAX_DEPTH) && address in dir.accounts
    ensures var id := dir.accounts[address];
            Honest(dir, root,
                   p.(visited := p.visited + {address}, local := if id in p.local then p.local else p.local + [id]))
  {
    var id := dir.accounts[address];
    var q := p.(visited := p.visited + {address}, local := if id in p.local then p.local else p.local + [id]);
    forall i | i in q.local ensures exists v :: v in q.visited && v in dir.accounts && dir.accounts[v] == i {
      if i !in p.local { assert address in q.visited; } else { StillBacked(dir, p, address, i); }
    }
  }

  lemma RemoteVisited(dir: Directory, root: string, address: string, depth: nat, p: Progress)
    requires Honest(dir, root, p) && ReachedWithin(dir, root, address, MAX_DEPTH) && IsRemote(dir, address)
    requires address !in p.visited && (if depth == 0 then address == root else root in p.visited)
    ensures var more := if depth > 0 && address !in p.remote then [address] else [];
            Honest(dir, root, p.(visited := p.visited + {address}, remote := p.remote + more))
  {
    AllBacked(dir, p, address);
    assert p.remote + [] == p.remote;
  }

  lemma AliasVisited(dir: Directory, root: string, address: string, p: Progress)
    requires Honest(dir, root, p) && ReachedWithin(dir, root, address, MAX_DEPTH)
    requires address !in dir.accounts && address in dir.aliases
    ensures Honest(dir, root, p.(visited := p.visited + {address}))
  {
    AllBacked(dir, p, address);
  }

  lemma AllBacked(dir: Directory, p: Progress, address: string)
    requires forall id :: id in p.local ==> exists v :: v in p.visited && v in dir.accounts && dir.accounts[v] == id
    ensures forall id :: id in p.local ==>
      exists v :: v in p.visited + {address} && v in dir.accounts && dir.accounts[v] == id
  {
    forall id | id in p.local
      ensures exists v :: v in p.visited + {address} && v in dir.accounts && dir.accounts[v] == id
    {
      StillBacked(dir, p, address, id);
    }
  }

  lemma StillBacked(dir: Directory, p: Progress, address: string, id: nat)
    requires exists v :: v in p.visited && v in dir.accounts && dir.accounts[v] == id
    ensures exists v :: v in p.visited + {address} && v in dir.accounts && dir.accounts[v] == id
  {
    var v :| v in p.visited && v in dir.accounts && dir.accounts[v] == id;
    assert v in p.visited + {address};
  }

  lemma {:induction false} WalkAllHonest(dir: Directory, root: string, stack: seq<string>, dests: seq<string>,
                                         depth: nat, p: Progress)
    requires Honest(dir, root, p) && depth > 0 && root in p.visited
    requires forall d :: d in dests ==> Leads(dir, root, stack, Lower(d), depth)
    ensures Honest(dir, root, WalkAll(dir, dests, depth, p))
    ensures p.visited <= WalkAll(dir, dests, depth, p).visited
    decreases Left(depth), 1, |dests|
  {
    if dests != [] {
      assert dests[0] in dests;
      WalkHonest(dir, root, stack, Lower(dests[0]), depth, p);
      WalkAllHonest(dir, root, stack, dests[1..], depth, Walk(dir, Lower(dests[0]), depth, p));
    }
  }

  /** Resolution returns no duplicates, and only accounts and remote end points within five hops. */
  lemma ResolvedIsSound(dir: Directory, address: string)
    ensures var root, p := Lower(address), Resolved(dir, address);
            && Distinct(p.local) && Distinct(p.remote)
            && (forall id :: id in p.local ==>
                exists v :: ReachedWithin(dir, root, v, MAX_DEPTH) && v in dir.accounts && dir.accounts[v] == id)
            && (forall r :: r in p.remote ==> r != root && IsRemote(dir, r) && ReachedWithin(dir, root, r, MAX_DEPTH))
  {
    var root := Lower(address);
    assert Joins(dir, [] + [root], root, root);
    WalkHonest(dir, root, [], root, 0, START);
  }

  // ---- completeness ---------------------------------------------------------------------------

  /** Every visited address off the current chain has all its successors visited. */
  ghost predicate Closed(dir: Directory, visited: set<string>, stack: seq<string>) {
    forall a, b :: a in visited && a !in stack && Hop(dir, a, b) ==> b in visited
  }

  lemma {:induction false} WalkComplete(dir: Directory, root: string, stack: seq<string>, address: string, depth: nat,
                                        p: Progress)
    requires Shallow(dir, root) && Leads(dir, root, stack, address, depth)
    requires Distinct(stack) && (forall a :: a in stack ==> a in p.visited) && Closed(dir, p.visited, stack)
    ensures address in Walk(dir, address, depth, p).visited && p.visited <= Walk(dir, address, depth, p).visited
    ensures Closed(dir, Walk(dir, address, depth, p).visited, stack)
    decreases Left(depth), 0, 0
  {
    if address !in p.visited {
      var c := stack + [address];
      assert Distinct(c);
      assert |c| <= MAX_DEPTH + 1;
      if address !in dir.accounts && address in dir.aliases {
        var dests := dir.aliases[address];
        forall d | d in dests ensures Leads(dir, root, c, Lower(d), depth + 1) {
          NextLeads(dir, root, stack, address, depth, Lower(d));
        }
        WalkAllComplete(dir, root, c, dests, depth + 1, p.(visited := p.visited + {address}));
      }
    }
  }

  lemma {:induction false} WalkAllComplete(dir: Directory, root: string, stack: seq<string>, dests: seq<string>,
                                           depth: nat, p: Progress)
    requires Shallow(dir, root) && forall d :: d in dests ==> Leads(dir, root, stack, Lower(d), depth)
    requires Distinct(stack) && (forall a :: a in stack ==> a in p.visited) && Closed(dir, p.visited, stack)
    ensures p.visited <= WalkAll(dir, dests, depth, p).visited
    ensures forall d :: d in dests ==> Lower(d) in WalkAll(dir, dests, depth, p).visited
    ensures Closed(dir, WalkAll(dir, dests, depth, p).visited, stack)
    decreases Left(depth), 1, |dests|
  {
    if dests != [] {
      assert dests[0] in dests;
      WalkComplete(dir, root, stack, Lower(dests[0]), depth, p);
      WalkAllComplete(dir, root, stack, dests[1..], depth, Walk(dir, Lower(dests[0]), depth, p));
    }
  }

  lemma {:induction false} ClosedReaches(dir: Directory, visited: set<string>, c: seq<string>)
    requires Closed(dir, visited, []) && c != [] && c[0] in visited && Chain(dir, c)
    ensures c[|c| - 1] in visited
    decreases |c|
  {
    if |c| > 1 {
      assert Hop(dir, c[0], c[1]);
      forall i | 0 <= i < |c[1..]| - 1 ensures Hop(dir, c[1..][i], c[1..][i + 1]) {
        assert Hop(dir, c[i + 1], c[i + 2]);
      }
      ClosedReaches(dir, visited, c[1..]);
    }
  }

  /** When no cycle-free chain is longer than five hops, resolution returns every account and every
      remote end point that can be reached at all, whatever the cycles. */
  lemma ResolvedIsComplete(dir: Directory, address: string)
    requires Shallow(dir, Lower(address))
    ensures var root, p := Lower(address), Resolved(dir, address);
            forall v :: Reached(dir, root, v) ==>
              && (v in dir.accounts ==> dir.accounts[v] in p.local)
              && (IsRemote(dir, v) && v != root ==> v in p.remote)
  {
    var root, p := Lower(address), Resolved(dir, address);
    assert Joins(dir, [] + [root], root, root);
    WalkHonest(dir, root, [], root, 0, START);
    WalkComplete(dir, root, [], root, 0, START);
    forall v | Reached(dir, root, v) ensures v in p.visited {
      var c :| Joins(dir, c, root, v);
      ClosedReaches(dir, p.visited, c);
    }
  }

  // ---- why the condition is needed ------------------------------------------------------------

  /** r expands to b and t; b leads through c, d and e to t as well; t leads to the account u. */
  const DETOUR := Directory(map["u" := 7],
                            map["r" := ["b", "t"], "b" := ["c"], "c" := ["d"], "d" := ["e"], "e" := ["t"],
                                "t" := ["u"]])

  /** The account is two hops away, yet it is lost: the long way marks t visited at depth five, where
      its destination is cut off, and the short way then finds t visited. */
  lemma ShortcutIsLost()
    ensures ReachedWithin(DETOUR, "r", "u", 2) && Resolved(DETOUR, "r").local == []
  {
    LowerLetters();
    ShortWay();
    LongWay();
    var start, after := Progress({"r"}, [], []), Progress({"r", "b", "c", "d", "e", "t"}, [], []);
    var dests := ["b", "t"];
    assert dests[1..] == ["t"] && ["t"][1..] == [];
    assert WalkAll(DETOUR, dests, 1, start) == WalkAll(DETOUR, ["t"], 1, after);
    assert WalkAll(DETOUR, ["t"], 1, after) == after;
    assert {} + {"r"} == {"r"};
  }

  lemma LowerLetters()
    ensures Lower("r") == "r" && Lower("b") == "b" && Lower("c") == "c" && Lower("d") == "d"
    ensures Lower("e") == "e" && Lower("t") == "t" && Lower("u") == "u"
  {
  }

  lemma ShortWay()
    ensures ReachedWithin(DETOUR, "r", "u", 2)
  {
    LowerLetters();
    assert Joins(DETOUR, ["r", "t", "u"], "r", "u") by {
      assert "t" in DETOUR.aliases["r"] && "u" in DETOUR.aliases["t"];
    }
  }

  lemma LongWay()
    ensures Walk(DETOUR, "b", 1, Progress({"r"}, [], [])) == Progress({"r", "b", "c", "d", "e", "t"}, [], [])
  {
    LowerLetters();
    SingleDest(DETOUR, "b", "c", 1, Progress({"r"}, [], []));
    assert {"r"} + {"b"} == {"r", "b"};
    SingleDest(DETOUR, "c", "d", 2, Progress({"r", "b"}, [], []));
    assert {"r", "b"} + {"c"} == {"r", "b", "c"};
    SingleDest(DETOUR, "d", "e", 3, Progress({"r", "b", "c"}, [], []));
    assert {"r", "b", "c"} + {"d"} == {"r", "b", "c", "d"};
    SingleDest(DETOUR, "e", "t", 4, Progress({"r", "b", "c", "d"}, [], []));
    assert {"r", "b", "c", "d"} + {"e"} == {"r", "b", "c", "d", "e"};
    SingleDest(DETOUR, "t", "u", 5, Progress({"r", "b", "c", "d", "e"}, [], []));
    assert {"r", "b", "c", "d", "e"} + {"t"} == {"r", "b", "c", "d", "e", "t"};
  }

  /** An unvisited alias with one destination. */
  lemma SingleDest(dir: Directory, a: string, b: string, depth: nat, p: Progress)
    requires a !in p.visited && a !in dir.accounts && a in dir.aliases && dir.aliases[a] == [b] && depth <= MAX_DEPTH
    ensures Walk(dir, a, depth, p) == Walk(dir, Lower(b), depth + 1, p.(visited := p.visited + {a}))
  {
    var q := p.(visited := p.visited + {a});
    assert [b][1..] == [];
    assert WalkAll(dir, [b], depth + 1, q) == WalkAll(dir, [], depth + 1, Walk(dir, Lower(b), depth + 1, q));
  }
}
