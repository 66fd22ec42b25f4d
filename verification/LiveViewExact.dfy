/** When a refresh leaves the snapshot equal to the listing. */
module LiveViewExact {
  import opened LiveView
  import R = Resync

  /** As ListMessages returns it: strictly ascending UIDs. */
  ghost predicate Ascending(ms: seq<Msg>) {
    forall i, j :: 0 <= i < j < |ms| ==> ms[i].uid < ms[j].uid
  }

  lemma SameLast(a: seq<Msg>, b: seq<Msg>)
    requires Ascending(a) && Ascending(b) && a != [] && forall m :: m in a <==> m in b
    ensures b != [] && a[|a| - 1] == b[|b| - 1]
  {
    assert a[|a| - 1] in b;
    var i :| 0 <= i < |b| && b[i] == a[|a| - 1];
    assert b[|b| - 1] in a;
    var j :| 0 <= j < |a| && a[j] == b[|b| - 1];
  }

  lemma FrontMembers(a: seq<Msg>)
    requires Ascending(a) && a != []
    ensures Ascending(a[..|a| - 1]) && forall m :: m in a[..|a| - 1] <==> m in a && m != a[|a| - 1]
  {
    assert a == a[..|a| - 1] + [a[|a| - 1]];
  }

  /** An ascending list is determined by its members. */
  lemma {:induction false} AscendingUnique(a: seq<Msg>, b: seq<Msg>)
    requires Ascending(a) && Ascending(b) && forall m :: m in a <==> m in b
    ensures a == b
    decreases |a|
  {
    if a == [] {
      assert forall i :: 0 <= i < |b| ==> b[i] in b;
    } else {
      SameLast(a, b);
      FrontMembers(a);
      FrontMembers(b);
      var a', b' := a[..|a| - 1], b[..|b| - 1];
      forall m ensures m in a' <==> m in b' {
        assert m in a <==> m in b;
      }
      AscendingUnique(a', b');
      assert a == a[..|a| - 1] + [a[|a| - 1]] && b == b[..|b| - 1] + [b[|b| - 1]];
    }
  }

  /** The index holds each listed message under its UID. */
  ghost predicate Indexes(byUid: map<nat, Msg>, latest: seq<Msg>) {
    && (forall m :: m in latest ==> m.uid in byUid && byUid[m.uid] == m)
    && (forall u :: u in byUid ==> byUid[u] in latest && byUid[u].uid == u)
  }

  lemma {:induction false} IndexMeaning(latest: seq<Msg>)
    requires Ascending(latest)
    ensures Indexes(Index(latest), latest)
  {
    if latest != [] {
      var front, last := latest[..|latest| - 1], latest[|latest| - 1];
      IndexMeaning(front);
      assert latest == front + [last];
      assert forall m :: m in front ==> m.uid != last.uid;
    }
  }

  lemma {:induction false} SurvivorsMembers(msgs: seq<Msg>, byUid: map<nat, Msg>)
    ensures forall m :: m in Survivors(msgs, byUid) <==> m in msgs && m.uid in byUid
  {
    if msgs != [] {
      SurvivorsMembers(msgs[1..], byUid);
      assert msgs == [msgs[0]] + msgs[1..];
    }
  }

  lemma AscendingCons(m: Msg, rest: seq<Msg>)
    requires Ascending(rest) && forall x :: x in rest ==> m.uid < x.uid
    ensures Ascending([m] + rest)
  {
    assert forall i :: 0 <= i < |rest| ==> rest[i] in rest;
  }

  lemma {:induction false} SurvivorsMeaning(msgs: seq<Msg>, byUid: map<nat, Msg>)
    requires Ascending(msgs)
    ensures Ascending(Survivors(msgs, byUid))
    ensures forall m :: m in Survivors(msgs, byUid) <==> m in msgs && m.uid in byUid
  {
    SurvivorsMembers(msgs, byUid);
    if msgs != [] {
      SurvivorsMeaning(msgs[1..], byUid);
      if msgs[0].uid in byUid { AscendingCons(msgs[0], Survivors(msgs[1..], byUid)); }
    }
  }

  /** What a listing holds at or above uidNext that the snapshot lacks. */
  function Missing(kept: seq<Msg>, uidNext: nat, latest: seq<Msg>): seq<Msg> {
    if latest == [] then [] else
    (if latest[0].uid < uidNext || HasUid(kept, latest[0].uid) then [] else [latest[0]])
      + Missing(kept, uidNext, latest[1..])
  }

  lemma {:induction false} MissingMembers(kept: seq<Msg>, uidNext: nat, latest: seq<Msg>)
    ensures forall m :: m in Missing(kept, uidNext, latest) <==> m in latest && m.uid >= uidNext && !HasUid(kept, m.uid)
  {
    if latest != [] {
      MissingMembers(kept, uidNext, latest[1..]);
      assert latest == [latest[0]] + latest[1..];
    }
  }

  lemma {:induction false} MissingMeaning(kept: seq<Msg>, uidNext: nat, latest: seq<Msg>)
    requires Ascending(latest)
    ensures Ascending(Missing(kept, uidNext, latest))
    ensures forall m :: m in Missing(kept, uidNext, latest) <==> m in latest && m.uid >= uidNext && !HasUid(kept, m.uid)
  {
    MissingMembers(kept, uidNext, latest);
    if latest != [] {
      TailFacts(latest);
      MissingMeaning(kept, uidNext, latest[1..]);
      AscendingCons(latest[0], Missing(kept, uidNext, latest[1..]));
    }
  }

  lemma TailFacts(latest: seq<Msg>)
    requires Ascending(latest) && latest != []
    ensures latest[0] in latest && Ascending(latest[1..])
    ensures forall m :: m in latest[1..] ==> m in latest && m.uid > latest[0].uid
  {
  }

  lemma HasUidSnoc(msgs: seq<Msg>, x: Msg, uid: nat)
    ensures HasUid(msgs + [x], uid) <==> HasUid(msgs, uid) || x.uid == uid
  {
    if i :| 0 <= i < |msgs| && msgs[i].uid == uid { assert (msgs + [x])[i].uid == uid; }
    if x.uid == uid { assert (msgs + [x])[|msgs|].uid == uid; }
  }

  /** Both thresholds move while arrivals are appended, to no effect on an ascending listing. */
  lemma {:induction false} ArrivalsAreMissing(kept: seq<Msg>, msgs: seq<Msg>, first: nat, uidNext: nat,
                                              latest: seq<Msg>)
    requires Ascending(latest) && first <= uidNext
    requires forall m :: m in latest ==>
      (HasUid(msgs, m.uid) <==> HasUid(kept, m.uid)) && (m.uid >= first ==> m.uid >= uidNext)
    ensures WithArrivals(msgs, uidNext, latest).0 == msgs + Missing(kept, first, latest)
    decreases |latest|
  {
    if latest != [] {
      var x, rest := latest[0], latest[1..];
      TailFacts(latest);
      if x.uid < uidNext || HasUid(kept, x.uid) {
        ArrivalsAreMissing(kept, msgs, first, uidNext, rest);
        assert Missing(kept, first, latest) == [] + Missing(kept, first, rest);
      } else {
        forall m | m in rest ensures HasUid(msgs + [x], m.uid) <==> HasUid(kept, m.uid) {
          HasUidSnoc(msgs, x, m.uid);
        }
        ArrivalsAreMissing(kept, msgs + [x], first, if x.uid + 1 > uidNext then x.uid + 1 else uidNext, rest);
        assert msgs + [x] + Missing(kept, first, rest) == msgs + ([x] + Missing(kept, first, rest));
      }
    }
  }

  /** A listed message the snapshot lacks is new, and above everything that survives. */
  ghost predicate ArrivesLast(msgs: seq<Msg>, uidNext: nat, latest: seq<Msg>) {
    forall m :: m in latest && !HasUid(msgs, m.uid) ==>
      m.uid >= uidNext && forall s :: s in msgs && HasUid(latest, s.uid) ==> s.uid < m.uid
  }

  /** A listed message the snapshot has is unchanged, or carries a higher mod-sequence. */
  ghost predicate ModSeqTells(msgs: seq<Msg>, latest: seq<Msg>) {
    forall s, m :: s in msgs && m in latest && s.uid == m.uid ==> s == m || m.modSeq > s.modSeq
  }

  lemma KeptUid(msgs: seq<Msg>, latest: seq<Msg>, byUid: map<nat, Msg>, u: nat)
    requires Indexes(byUid, latest)
    ensures HasUid(UpdatedAll(Survivors(msgs, byUid), byUid), u) <==> HasUid(msgs, u) && HasUid(latest, u)
  {
    var surviving := Survivors(msgs, byUid);
    var kept := UpdatedAll(surviving, byUid);
    SurvivorsMembers(msgs, byUid);
    if i :| 0 <= i < |kept| && kept[i].uid == u {
      assert surviving[i] in surviving && surviving[i].uid == u;
      HasUidMember(msgs, surviving[i]);
      HasUidMember(latest, byUid[u]);
    }
    if i, j :| 0 <= i < |msgs| && msgs[i].uid == u && 0 <= j < |latest| && latest[j].uid == u {
      assert msgs[i] in msgs && latest[j] in latest;
      var h :| 0 <= h < |surviving| && surviving[h] == msgs[i];
      assert kept[h].uid == u;
    }
  }

  /** What is kept of the snapshot: the listed messages, in order, each updated from its listing. */
  ghost predicate KeptIs(msgs: seq<Msg>, latest: seq<Msg>, byUid: map<nat, Msg>, kept: seq<Msg>) {
    && Ascending(kept)
    && (forall u :: HasUid(kept, u) <==> HasUid(msgs, u) && HasUid(latest, u))
    && (forall k :: k in kept ==> exists s :: s in msgs && s.uid == k.uid && s.uid in byUid && k == Updated(s, byUid))
  }

  lemma KeptMeaning(msgs: seq<Msg>, latest: seq<Msg>, byUid: map<nat, Msg>)
    requires Ascending(msgs) && Ascending(latest) && byUid == Index(latest)
    ensures KeptIs(msgs, latest, byUid, UpdatedAll(Survivors(msgs, byUid), byUid))
  {
    var surviving := Survivors(msgs, byUid);
    var kept := UpdatedAll(surviving, byUid);
    SurvivorsMeaning(msgs, byUid);
    IndexMeaning(latest);
    UpdatedAscends(surviving, byUid);
    forall u ensures HasUid(kept, u) <==> HasUid(msgs, u) && HasUid(latest, u) {
      KeptUid(msgs, latest, byUid, u);
    }
    forall k | k in kept ensures exists s :: s in msgs && s.uid == k.uid && s.uid in byUid && k == Updated(s, byUid) {
      var i :| 0 <= i < |kept| && kept[i] == k;
      assert surviving[i] in surviving;
    }
  }

  lemma UpdatedAscends(surviving: seq<Msg>, byUid: map<nat, Msg>)
    requires Ascending(surviving) && forall u :: u in byUid ==> byUid[u].uid == u
    ensures Ascending(UpdatedAll(surviving, byUid))
  {
  }

  /** A refresh leaves exactly the listing, if and only if what the snapshot lacks arrives last and
      mod-sequences tell every change of what it has. */
  lemma RefreshExactIff(msgs: seq<Msg>, uidNext: nat, latest: seq<Msg>)
    requires Ascending(msgs) && Ascending(latest)
    ensures Reconciled(msgs, uidNext, latest).0 == latest
      <==> ArrivesLast(msgs, uidNext, latest) && ModSeqTells(msgs, latest)
  {
    var byUid := Index(latest);
    var kept := UpdatedAll(Survivors(msgs, byUid), byUid);
    var missing := Missing(kept, uidNext, latest);
    IndexMeaning(latest);
    KeptMeaning(msgs, latest, byUid);
    MissingMeaning(kept, uidNext, latest);
    ArrivalsAreMissing(kept, kept, uidNext, uidNext, latest);
    assert Reconciled(msgs, uidNext, latest).0 == kept + missing;
    if ArrivesLast(msgs, uidNext, latest) && ModSeqTells(msgs, latest) {
      Sufficient(msgs, uidNext, latest, byUid, kept, missing);
    }
    if kept + missing == latest {
      NecessaryLast(msgs, uidNext, latest, byUid, kept, missing);
      NecessaryTells(msgs, latest, byUid, kept, missing);
    }
  }

  lemma HasUidMember(msgs: seq<Msg>, m: Msg)
    requires m in msgs
    ensures HasUid(msgs, m.uid)
  {
  }

  lemma Sufficient(msgs: seq<Msg>, uidNext: nat, latest: seq<Msg>, byUid: map<nat, Msg>, kept: seq<Msg>,
                   missing: seq<Msg>)
    requires Ascending(missing) && Ascending(latest) && Indexes(byUid, latest) && KeptIs(msgs, latest, byUid, kept)
    requires forall m :: m in missing <==> m in latest && m.uid >= uidNext && !HasUid(kept, m.uid)
    requires ArrivesLast(msgs, uidNext, latest) && ModSeqTells(msgs, latest)
    ensures kept + missing == latest
  {
    var all := kept + missing;
    forall k | k in kept ensures k in latest {
      var s :| s in msgs && s.uid == k.uid && s.uid in byUid && k == Updated(s, byUid);
      assert byUid[s.uid] in latest;
    }
    forall m | m in latest ensures m in all {
      HasUidMember(latest, m);
      if HasUid(kept, m.uid) {
        var i :| 0 <= i < |kept| && kept[i].uid == m.uid;
        assert kept[i] in latest;
      } else {
        assert !HasUid(msgs, m.uid);
        assert m in missing;
      }
    }
    forall k, m | k in kept && m in missing ensures k.uid < m.uid {
      HasUidMember(kept, k);
      HasUidMember(latest, m);
      assert !HasUid(msgs, m.uid);
      var s :| s in msgs && s.uid == k.uid;
    }
    AscendingJoin(kept, missing);
    AscendingUnique(all, latest);
  }

  lemma AscendingJoin(a: seq<Msg>, b: seq<Msg>)
    requires Ascending(a) && Ascending(b) && forall x, y :: x in a && y in b ==> x.uid < y.uid
    ensures Ascending(a + b)
  {
    var all := a + b;
    forall i, j | 0 <= i < j < |all| ensures all[i].uid < all[j].uid {
      if i < |a| && j >= |a| { assert a[i] in a && b[j - |a|] in b; }
    }
  }

  lemma NecessaryLast(msgs: seq<Msg>, uidNext: nat, latest: seq<Msg>, byUid: map<nat, Msg>, kept: seq<Msg>,
                      missing: seq<Msg>)
    requires Ascending(latest) && kept + missing == latest && KeptIs(msgs, latest, byUid, kept)
    requires forall m :: m in missing <==> m in latest && m.uid >= uidNext && !HasUid(kept, m.uid)
    ensures ArrivesLast(msgs, uidNext, latest)
  {
    forall m | m in latest && !HasUid(msgs, m.uid)
      ensures m.uid >= uidNext && forall s :: s in msgs && HasUid(latest, s.uid) ==> s.uid < m.uid
    {
      assert m in kept || m in missing;
      if m in kept { HasUidMember(kept, m); }
      forall s | s in msgs && HasUid(latest, s.uid) ensures s.uid < m.uid {
        HasUidMember(msgs, s);
        JoinedAscends(kept, missing, s.uid, m);
      }
    }
  }

  lemma JoinedAscends(kept: seq<Msg>, missing: seq<Msg>, u: nat, m: Msg)
    requires Ascending(kept + missing) && HasUid(kept, u) && m in missing
    ensures u < m.uid
  {
    var i :| 0 <= i < |kept| && kept[i].uid == u;
    var j :| 0 <= j < |missing| && missing[j] == m;
    var all := kept + missing;
    assert all[i] == kept[i] && all[|kept| + j] == m;
  }

  lemma NecessaryTells(msgs: seq<Msg>, latest: seq<Msg>, byUid: map<nat, Msg>, kept: seq<Msg>, missing: seq<Msg>)
    requires Ascending(latest) && Ascending(msgs) && kept + missing == latest
    requires Indexes(byUid, latest) && KeptIs(msgs, latest, byUid, kept)
    ensures ModSeqTells(msgs, latest)
  {
    forall s, m | s in msgs && m in latest && s.uid == m.uid ensures s == m || m.modSeq > s.modSeq {
      HasUidMember(msgs, s);
      HasUidMember(latest, m);
      var i :| 0 <= i < |kept| && kept[i].uid == m.uid;
      assert latest[i] == kept[i] && kept[i] in kept && latest[i] in latest;
      OneOfUid(latest, latest[i], m);
      var s' :| s' in msgs && s'.uid == kept[i].uid && s'.uid in byUid && kept[i] == Updated(s', byUid);
      OneOfUid(msgs, s, s');
    }
  }

  lemma OneOfUid(ms: seq<Msg>, x: Msg, y: Msg)
    requires Ascending(ms) && x in ms && y in ms && x.uid == y.uid
    ensures x == y
  {
    var a :| 0 <= a < |ms| && ms[a] == x;
    var b :| 0 <= b < |ms| && ms[b] == y;
    assert a == b;
  }

  // ---- along runs of the store ----------------------------------------------------------------

  /** `ms` lists the mailbox `b`. */
  ghost predicate Lists(b: R.Box, ms: seq<Msg>) {
    && Ascending(ms)
    && (forall m :: m in ms ==> m.uid in b.live && b.live[m.uid] == R.Entry(m.flags, m.modSeq))
    && (forall u :: u in b.live ==> Msg(u, b.live[u].flags, b.live[u].modSeq) in ms)
  }

  /** Since `b`: what is live was live as it is, has been restamped above, or has come since. */
  ghost predicate Since(b: R.Box, b': R.Box) {
    && R.Sound(b') && b'.uidNext >= b.uidNext && b'.highest >= b.highest
    && (forall u :: u in b'.live ==>
        u >= b.uidNext || (u in b.live && (b'.live[u] == b.live[u] || b'.live[u].modSeq > b.highest)))
  }

  lemma {:induction false} RunIsSince(b: R.Box, b': R.Box, es: seq<R.Event>)
    requires Since(b, b')
    ensures Since(b, R.After(b', es))
    decreases |es|
  {
    if es != [] {
      assert Since(b, R.Next(b', es[0]));
      RunIsSince(b, R.Next(b', es[0]), es[1..]);
    }
  }

  /** The session's refresh is exact after every run of store operations, and stays ready for the next. */
  lemma RefreshExactAlongRuns(b: R.Box, es: seq<R.Event>, msgs: seq<Msg>, uidNext: nat, latest: seq<Msg>)
    requires R.Sound(b) && Lists(b, msgs) && uidNext <= b.uidNext && Lists(R.After(b, es), latest)
    ensures Reconciled(msgs, uidNext, latest).0 == latest
    ensures Reconciled(msgs, uidNext, latest).1 <= R.After(b, es).uidNext
  {
    var b' := R.After(b, es);
    RunIsSince(b, b, es);
    forall m | m in latest && !HasUid(msgs, m.uid)
      ensures m.uid >= uidNext && forall s :: s in msgs && HasUid(latest, s.uid) ==> s.uid < m.uid
    {
      if m.uid in b.live {
        HasUidMember(msgs, Msg(m.uid, b.live[m.uid].flags, b.live[m.uid].modSeq));
      }
      assert m.uid >= b.uidNext;
    }
    assert ModSeqTells(msgs, latest);
    RefreshExactIff(msgs, uidNext, latest);
    assert forall m :: m in latest ==> m.uid < b'.uidNext;
    UidNextBound(UpdatedAll(Survivors(msgs, Index(latest)), Index(latest)), uidNext, latest, b'.uidNext);
  }

  lemma {:induction false} UidNextBound(msgs: seq<Msg>, uidNext: nat, latest: seq<Msg>, bound: nat)
    requires uidNext <= bound && forall m :: m in latest ==> m.uid < bound
    ensures WithArrivals(msgs, uidNext, latest).1 <= bound
    decreases |latest|
  {
    if latest != [] {
      var x := latest[0];
      assert x in latest && forall m :: m in latest[1..] ==> m in latest;
      if x.uid < uidNext || HasUid(msgs, x.uid) {
        UidNextBound(msgs, uidNext, latest[1..], bound);
      } else {
        UidNextBound(msgs + [x], if x.uid + 1 > uidNext then x.uid + 1 else uidNext, latest[1..], bound);
      }
    }
  }

  /** The value SELECT reports from the snapshot is the one the resynchronisation theorem asks for. */
  lemma HighestIsSnapshotModSeq(b: R.Box, msgs: seq<Msg>, max: nat)
    requires Lists(b, msgs) && (forall m :: m in msgs ==> m.modSeq <= max)
      && (max == 0 || exists m :: m in msgs && m.modSeq == max)
    ensures R.IsSnapshotModSeq(b, max)
  {
    forall u | u in b.live ensures b.live[u].modSeq <= max {
      assert Msg(u, b.live[u].flags, b.live[u].modSeq) in msgs;
    }
    if max != 0 {
      var m :| m in msgs && m.modSeq == max;
      assert m.uid in b.live;
    }
  }
}
