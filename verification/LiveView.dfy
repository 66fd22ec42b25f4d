/** One IMAP session's snapshot of a selected mailbox and the updates it queues for its client. */
module LiveView {
  import L = Lists

  /** A message as the snapshot holds it (`_id` and body are fixed by the UID). */
  datatype Msg = Msg(uid: nat, flags: seq<string>, modSeq: nat)

  /** What the tracker queues; sequence numbers start at one. */
  datatype Update =
    | Expunged(seqNum: nat, uid: nat)
    | Flagged(seqNum: nat, uid: nat, flags: seq<string>)
    | Exists(count: nat)

  // ---- the client -----------------------------------------------------------------------------

  datatype Shown = Shown(uid: nat, flags: seq<string>)
  datatype View = Broken | Showing(list: seq<Shown>)

  function Display(msgs: seq<Msg>): (v: seq<Shown>)
    ensures |v| == |msgs| && forall i :: 0 <= i < |msgs| ==> v[i] == Shown(msgs[i].uid, msgs[i].flags)
  {
    seq(|msgs|, i requires 0 <= i < |msgs| => Shown(msgs[i].uid, msgs[i].flags))
  }

  /** A client applying one update to its numbered list; it fetches what EXISTS announces from the
      server's list. A number out of range or naming another message breaks the client. */
  function Apply(view: View, u: Update, server: seq<Shown>): View {
    if view.Broken? then Broken else
    var l := view.list;
    match u
    case Expunged(n, uid) =>
      if 1 <= n <= |l| && l[n - 1].uid == uid then Showing(l[..n - 1] + l[n..]) else Broken
    case Flagged(n, uid, flags) =>
      if 1 <= n <= |l| && l[n - 1].uid == uid then Showing(l[n - 1 := Shown(uid, flags)]) else Broken
    case Exists(count) =>
      if |l| <= count <= |server| then Showing(l + server[|l|..count]) else Broken
  }

  function Replay(view: View, us: seq<Update>, server: seq<Shown>): View {
    if us == [] then view else Apply(Replay(view, us[..|us| - 1], server), us[|us| - 1], server)
  }

  lemma ReplaySnoc(view: View, us: seq<Update>, u: Update, server: seq<Shown>)
    ensures Replay(view, us + [u], server) == Apply(Replay(view, us, server), u, server)
  {
    assert (us + [u])[..|us|] == us;
  }

  /** Updates without EXISTS need nothing from the server. */
  ghost predicate Reaches(was: seq<Msg>, us: seq<Update>, now: seq<Msg>) {
    forall server :: Replay(Showing(Display(was)), us, server) == Showing(Display(now))
  }

  lemma ReachesByExpunge(was: seq<Msg>, us: seq<Update>, mid: seq<Msg>, i: nat)
    requires Reaches(was, us, mid) && i < |mid|
    ensures Reaches(was, us + [Expunged(i + 1, mid[i].uid)], mid[..i] + mid[i + 1..])
  {
    var u, now := Expunged(i + 1, mid[i].uid), mid[..i] + mid[i + 1..];
    assert Display(mid)[..i] + Display(mid)[i + 1..] == Display(now);
    var us' := us + [u];
    forall server ensures Replay(Showing(Display(was)), us', server) == Showing(Display(now)) {
      ReplaySnoc(Showing(Display(was)), us, u, server);
    }
  }

  lemma ReachesByFlags(was: seq<Msg>, us: seq<Update>, mid: seq<Msg>, i: nat, m: Msg)
    requires Reaches(was, us, mid) && i < |mid| && m.uid == mid[i].uid
    ensures Reaches(was, us + [Flagged(i + 1, m.uid, m.flags)], mid[i := m])
  {
    var u, now := Flagged(i + 1, m.uid, m.flags), mid[i := m];
    assert Display(mid)[i := Shown(m.uid, m.flags)] == Display(now);
    var us' := us + [u];
    forall server ensures Replay(Showing(Display(was)), us', server) == Showing(Display(now)) {
      ReplaySnoc(Showing(Display(was)), us, u, server);
    }
  }

  lemma ReachesByBoth(was: seq<Msg>, us: seq<Update>, mid: seq<Msg>, vs: seq<Update>, now: seq<Msg>)
    requires Reaches(was, us, mid) && Reaches(mid, vs, now)
    ensures Reaches(was, us + vs, now)
  {
    var both := us + vs;
    forall server ensures Replay(Showing(Display(was)), both, server) == Showing(Display(now)) {
      ReplayConcat(Showing(Display(was)), us, vs, server);
    }
  }

  /** EXISTS hands over the messages appended since. */
  lemma CarriedByExists(was: seq<Msg>, us: seq<Update>, mid: seq<Msg>, now: seq<Msg>)
    requires Reaches(was, us, mid) && mid <= now
    ensures Replay(Showing(Display(was)), us + [Exists(|now|)], Display(now)) == Showing(Display(now))
  {
    var server, shown := Display(now), Display(mid);
    assert Replay(Showing(Display(was)), us, server) == Showing(shown);
    ReplaySnoc(Showing(Display(was)), us, Exists(|now|), server);
    assert server[..|mid|] == shown;
    assert shown + server[|mid|..] == server;
  }

  // ---- what a refresh computes ----------------------------------------------------------------

  predicate HasUid(msgs: seq<Msg>, uid: nat) {
    exists i :: 0 <= i < |msgs| && msgs[i].uid == uid
  }

  /** latestByUID: the last entry of a UID wins. */
  function Index(latest: seq<Msg>): map<nat, Msg> {
    if latest == [] then map[] else Index(latest[..|latest| - 1])[latest[|latest| - 1].uid := latest[|latest| - 1]]
  }

  function Survivors(msgs: seq<Msg>, byUid: map<nat, Msg>): seq<Msg> {
    if msgs == [] then [] else (if msgs[0].uid in byUid then [msgs[0]] else []) + Survivors(msgs[1..], byUid)
  }

  function Updated(m: Msg, byUid: map<nat, Msg>): Msg {
    if m.uid in byUid && byUid[m.uid].modSeq > m.modSeq then Msg(m.uid, byUid[m.uid].flags, byUid[m.uid].modSeq) else m
  }

  function UpdatedAll(msgs: seq<Msg>, byUid: map<nat, Msg>): (out: seq<Msg>)
    ensures |out| == |msgs| && forall i :: 0 <= i < |msgs| ==> out[i] == Updated(msgs[i], byUid)
  {
    seq(|msgs|, i requires 0 <= i < |msgs| => Updated(msgs[i], byUid))
  }

  /** Appends, in listing order, what is at or above uidNext and not yet there. */
  function WithArrivals(msgs: seq<Msg>, uidNext: nat, latest: seq<Msg>): (seq<Msg>, nat)
    decreases |latest|
  {
    if latest == [] then (msgs, uidNext)
    else if latest[0].uid < uidNext || HasUid(msgs, latest[0].uid) then WithArrivals(msgs, uidNext, latest[1..])
    else WithArrivals(msgs + [latest[0]], latest[0].uid + 1, latest[1..])
  }

  function Reconciled(msgs: seq<Msg>, uidNext: nat, latest: seq<Msg>): (seq<Msg>, nat) {
    WithArrivals(UpdatedAll(Survivors(msgs, Index(latest)), Index(latest)), uidNext, latest)
  }

  // ---- the session ----------------------------------------------------------------------------

  class SelectedMailbox {
    var msgs: seq<Msg>
    var uidNext: nat
    var queued: seq<Update>

    constructor (msgs: seq<Msg>, uidNext: nat)
      ensures this.msgs == msgs && this.uidNext == uidNext && queued == []
    {
      this.msgs, this.uidNext, queued := msgs, uidNext, [];
    }

    /** The updates queued since `before` carry the client from `was` to `now`. */
    static ghost predicate Carries(before: seq<Update>, after: seq<Update>, was: seq<Msg>, now: seq<Msg>) {
      before <= after && Replay(Showing(Display(was)), after[|before|..], Display(now)) == Showing(Display(now))
    }

    /** Drops what another connection expunged, back to front so that lower numbers stay valid. */
    method DropMissing(byUid: map<nat, Msg>)
      modifies this
      ensures msgs == Survivors(old(msgs), byUid) && uidNext == old(uidNext)
      ensures old(queued) <= queued
      ensures Reaches(old(msgs), queued[|old(queued)|..], msgs)
    {
      var i := |msgs|;
      while i > 0
        invariant 0 <= i <= |old(msgs)| && uidNext == old(uidNext)
        invariant msgs == old(msgs)[..i] + Survivors(old(msgs)[i..], byUid)
        invariant old(queued) <= queued
        invariant Reaches(old(msgs), queued[|old(queued)|..], msgs)
      {
        i := i - 1;
        var uid := msgs[i].uid;
        assert old(msgs)[i..][1..] == old(msgs)[i + 1..];
        if uid !in byUid {
          ghost var news := queued[|old(queued)|..];
          ReachesByExpunge(old(msgs), news, msgs, i);
          queued := queued + [Expunged(i + 1, uid)];
          msgs := msgs[..i] + msgs[i + 1..];
          assert queued[|old(queued)|..] == news + [Expunged(i + 1, uid)];
        }
      }
    }

    /** Takes over flags that another connection changed. */
    method TakeFlags(byUid: map<nat, Msg>)
      modifies this
      ensures msgs == UpdatedAll(old(msgs), byUid) && uidNext == old(uidNext)
      ensures old(queued) <= queued
      ensures Reaches(old(msgs), queued[|old(queued)|..], msgs)
    {
      for i := 0 to |msgs|
        invariant |msgs| == |old(msgs)| && uidNext == old(uidNext) && old(queued) <= queued
        invariant forall j :: 0 <= j < |msgs| ==>
          msgs[j] == if j < i then Updated(old(msgs)[j], byUid) else old(msgs)[j]
        invariant Reaches(old(msgs), queued[|old(queued)|..], msgs)
      {
        var m := msgs[i];
        if m.uid in byUid && byUid[m.uid].modSeq > m.modSeq {
          ghost var news := queued[|old(queued)|..];
          m := Msg(m.uid, byUid[m.uid].flags, byUid[m.uid].modSeq);
          ReachesByFlags(old(msgs), news, msgs, i, m);
          msgs := msgs[i := m];
          queued := queued + [Flagged(i + 1, m.uid, m.flags)];
          assert queued[|old(queued)|..] == news + [Flagged(i + 1, m.uid, m.flags)];
        }
      }
    }

    /** Appends what arrived. */
    method TakeArrivals(latest: seq<Msg>) returns (added: bool)
      modifies `msgs, `uidNext
      ensures (msgs, uidNext) == WithArrivals(old(msgs), old(uidNext), latest)
      ensures old(msgs) <= msgs && (!added ==> msgs == old(msgs))
    {
      added := false;
      for i := 0 to |latest|
        invariant WithArrivals(msgs, uidNext, latest[i..]) == WithArrivals(old(msgs), old(uidNext), latest)
        invariant old(msgs) <= msgs && (!added ==> msgs == old(msgs))
      {
        assert latest[i..][1..] == latest[i + 1..];
        if latest[i].uid >= uidNext && !HasUid(msgs, latest[i].uid) {
          msgs := msgs + [latest[i]];
          uidNext := if latest[i].uid + 1 > uidNext then latest[i].uid + 1 else uidNext;
          added := true;
        }
      }
      assert latest[|latest|..] == [];
    }

    /** Re-reads the mailbox: `latest` is what ListMessages returned. */
    method Refresh(latest: seq<Msg>)
      modifies this
      ensures (msgs, uidNext) == Reconciled(old(msgs), old(uidNext), latest)
      ensures Carries(old(queued), queued, old(msgs), msgs)
    {
      var byUid: map<nat, Msg> := map[];
      for i := 0 to |latest|
        modifies {}
        invariant byUid == Index(latest[..i])
      {
        assert latest[..i + 1][..i] == latest[..i];
        byUid := byUid[latest[i].uid := latest[i]];
      }
      assert latest[..|latest|] == latest;

      DropMissing(byUid);
      ghost var kept, dropped := msgs, queued[|old(queued)|..];
      ghost var mid := queued;
      TakeFlags(byUid);
      ghost var current, flagged := msgs, queued[|mid|..];
      assert queued[|old(queued)|..] == dropped + flagged;
      ReachesByBoth(old(msgs), dropped, kept, flagged, current);

      var added := TakeArrivals(latest);
      if added {
        ghost var news := queued[|old(queued)|..];
        queued := queued + [Exists(|msgs|)];
        assert queued[|old(queued)|..] == news + [Exists(|msgs|)];
        CarriedByExists(old(msgs), news, current, msgs);
      }
    }

    /** Folds the session's own append in, unless a refresh already did. */
    method Add(m: Msg)
      modifies this
      ensures msgs == if HasUid(old(msgs), m.uid) then old(msgs) else old(msgs) + [m]
      ensures HasUid(old(msgs), m.uid) || m.uid < uidNext
      ensures uidNext >= old(uidNext)
      ensures Carries(old(queued), queued, old(msgs), msgs)
    {
      if HasUid(msgs, m.uid) { return; }
      msgs := msgs + [m];
      uidNext := if m.uid + 1 > uidNext then m.uid + 1 else uidNext;
      queued := queued + [Exists(|msgs|)];
      assert queued[|old(queued)|..] == [] + [Exists(|msgs|)];
      CarriedByExists(old(msgs), [], old(msgs), msgs);
    }

    /** Takes one message out; without QRESYNC the client is told its number. */
    method Cut(i: nat, qresync: bool, ghost was: seq<Msg>, ghost base: nat)
      requires i < |msgs| && base <= |queued| && (!qresync ==> Reaches(was, queued[base..], msgs))
      modifies this
      ensures msgs == old(msgs)[..i] + old(msgs)[i + 1..] && uidNext == old(uidNext)
      ensures queued == if qresync then old(queued) else old(queued) + [Expunged(i + 1, old(msgs)[i].uid)]
      ensures !qresync ==> Reaches(was, queued[base..], msgs)
    {
      if !qresync {
        ghost var news := queued[base..];
        ReachesByExpunge(was, news, msgs, i);
        queued := queued + [Expunged(i + 1, msgs[i].uid)];
        assert queued[base..] == news + [Expunged(i + 1, msgs[i].uid)];
      }
      msgs := msgs[..i] + msgs[i + 1..];
    }

    /** EXPUNGE and UID EXPUNGE; `refused` are the UIDs whose deletion the store reports as failed,
        which stops the walk right behind the last of them. `told` is the VANISHED line: it is written
        only when the walk comes to its end. */
    method ExpungeDeleted(scope: Scope, qresync: bool, refused: set<nat>)
      returns (ok: bool, told: set<nat>, ghost gone: set<nat>)
      modifies this
      ensures uidNext == old(uidNext) && old(queued) <= queued
      ensures !qresync ==> Reaches(old(msgs), queued[|old(queued)|..], msgs)
      ensures qresync ==> queued == old(queued)
      ensures told == if qresync && ok then gone else {}
      ensures msgs == AfterExpunge(old(msgs), scope, refused)
      ensures gone == DoomedUids(old(msgs)[StopsAt(old(msgs), scope, refused)..], scope) && gone !! refused
      ensures ok ==> msgs == Undeleted(old(msgs), scope) && gone == DoomedUids(old(msgs), scope)
      ensures ok <==> DoomedUids(old(msgs), scope) !! refused
      ensures ok ==> forall m ::
        m in msgs
        <==> m in old(msgs) && !("\\Deleted" in m.flags && (scope.Everything? || m.uid in scope.uids))
      ensures forall u :: u in gone ==>
        (scope.Only? ==> u in scope.uids) && exists m :: m in old(msgs) && m.uid == u && "\\Deleted" in m.flags
      ensures forall m :: m in old(msgs) && m !in msgs ==>
        "\\Deleted" in m.flags && (scope.Everything? || m.uid in scope.uids) && m.uid in gone
    {
      told, gone := {}, {};
      var vanished: set<nat> := {};
      var i: nat := |msgs|;
      WalkBegins(msgs, scope, refused);
      while i > 0
        invariant Walked(old(msgs), msgs, gone, i, scope, refused) && uidNext == old(uidNext)
        invariant old(queued) <= queued && (qresync ==> queued == old(queued) && vanished == gone)
        invariant !qresync ==> Reaches(old(msgs), queued[|old(queued)|..], msgs)
      {
        i := i - 1;
        WalkStep(old(msgs), msgs, gone, i, scope, refused);
        var m := msgs[i];
        if Doomed(m, scope) {
          if m.uid in refused {
            WalkRemoves(old(msgs), scope, StopsAt(old(msgs), scope, refused));
            return false, {}, gone;
          }
          if qresync { vanished := vanished + {m.uid}; }
          gone := gone + {m.uid};
          Cut(i, qresync, old(msgs), |old(queued)|);
        }
      }
      WalkEnds(old(msgs), msgs, gone, scope, refused);
      WalkRemoves(old(msgs), scope, 0);
      ok, told := true, if qresync then vanished else {};
    }

    method HighestModSeq() returns (max: nat)
      ensures forall m :: m in msgs ==> m.modSeq <= max
      ensures max == 0 || exists m :: m in msgs && m.modSeq == max
    {
      max := 0;
      for i := 0 to |msgs|
        invariant forall j :: 0 <= j < i ==> msgs[j].modSeq <= max
        invariant max == 0 || exists m :: m in msgs && m.modSeq == max
      {
        if msgs[i].modSeq > max {
          max := msgs[i].modSeq;
          assert msgs[i] in msgs;
        }
      }
    }
  }

  datatype Scope = Everything | Only(uids: set<nat>)

  const DELETED := "\\Deleted"

  predicate Doomed(m: Msg, scope: Scope) {
    (scope.Everything? || m.uid in scope.uids) && DELETED in m.flags
  }

  function DoomedUids(msgs: seq<Msg>, scope: Scope): set<nat> {
    set m | m in msgs && Doomed(m, scope) :: m.uid
  }

  lemma DoomedCons(msgs: seq<Msg>, i: nat, scope: Scope)
    requires i < |msgs|
    ensures DoomedUids(msgs[i..], scope)
         == DoomedUids(msgs[i + 1..], scope) + if Doomed(msgs[i], scope) then {msgs[i].uid} else {}
    ensures Undeleted(msgs[i..], scope)
      == (if Doomed(msgs[i], scope) then [] else [msgs[i]]) + Undeleted(msgs[i + 1..], scope)
  {
    assert msgs[i..] == [msgs[i]] + msgs[i + 1..];
  }

  lemma CutIs(was: seq<Msg>, i: nat, scope: Scope, msgs: seq<Msg>)
    requires i < |was| && msgs == was[..i + 1] + Undeleted(was[i + 1..], scope)
    ensures msgs[i] == was[i]
    ensures (if Doomed(was[i], scope) then msgs[..i] + msgs[i + 1..] else msgs) == was[..i] + Undeleted(was[i..], scope)
  {
    DoomedCons(was, i, scope);
    L.TakeOneMore(was, i);
    CutOut(was[..i], was[i], Undeleted(was[i + 1..], scope));
  }

  lemma CutOut(a: seq<Msg>, x: Msg, rest: seq<Msg>)
    ensures var all := a + [x] + rest;
            && all[|a|] == x && all[..|a|] == a && all[|a| + 1..] == rest && a + ([x] + rest) == all
              && a + ([] + rest) == a + rest
  {
  }

  function Undeleted(msgs: seq<Msg>, scope: Scope): seq<Msg> {
    if msgs == [] then [] else (if Doomed(msgs[0], scope) then [] else [msgs[0]]) + Undeleted(msgs[1..], scope)
  }

  lemma {:induction false} UndeletedConcat(a: seq<Msg>, b: seq<Msg>, scope: Scope)
    ensures Undeleted(a + b, scope) == Undeleted(a, scope) + Undeleted(b, scope)
  {
    if a == [] {
      L.EmptyConcat(a, b);
      L.EmptyConcat(Undeleted(a, scope), Undeleted(b, scope));
    } else {
      L.ConsConcat(a, b);
      UndeletedConcat(a[1..], b, scope);
      L.Assoc(if Doomed(a[0], scope) then [] else [a[0]], Undeleted(a[1..], scope), Undeleted(b, scope));
    }
  }

  lemma UndeletedOne(m: Msg, scope: Scope)
    ensures Undeleted([m], scope)
         == if "\\Deleted" in m.flags && (scope.Everything? || m.uid in scope.uids) then [] else [m]
  {
    assert [m][1..] == [];
  }

  /** Each message is decided on its own, and what stays keeps its order. */
  lemma UndeletedMeaning(a: seq<Msg>, m: Msg, b: seq<Msg>, scope: Scope)
    ensures Undeleted(a + [m] + b, scope)
         == Undeleted(a, scope)
            + (if "\\Deleted" in m.flags && (scope.Everything? || m.uid in scope.uids) then [] else [m])
            + Undeleted(b, scope)
  {
    UndeletedConcat(a + [m], b, scope);
    UndeletedConcat(a, [m], scope);
    UndeletedOne(m, scope);
  }

  lemma {:induction false} UndeletedMembers(msgs: seq<Msg>, scope: Scope)
    ensures forall m :: m in Undeleted(msgs, scope) <==>
      m in msgs && !("\\Deleted" in m.flags && (scope.Everything? || m.uid in scope.uids))
  {
    if msgs != [] {
      UndeletedMembers(msgs[1..], scope);
      assert msgs == [msgs[0]] + msgs[1..];
    }
  }

  /** From position n on, exactly the messages to delete are gone. */
  lemma WalkRemoves(was: seq<Msg>, scope: Scope, n: nat)
    requires n <= |was|
    ensures var now, gone := was[..n] + Undeleted(was[n..], scope), DoomedUids(was[n..], scope);
            && (forall m :: m in was && m !in now ==>
                  "\\Deleted" in m.flags && (scope.Everything? || m.uid in scope.uids) && m.uid in gone)
            && (forall u :: u in gone ==>
                  (scope.Only? ==> u in scope.uids) && exists m :: m in was && m.uid == u && "\\Deleted" in m.flags)
            && (n == 0 ==> forall m ::
                  m in now <==> m in was && !("\\Deleted" in m.flags && (scope.Everything? || m.uid in scope.uids)))
  {
    UndeletedMembers(was[n..], scope);
    assert was == was[..n] + was[n..];
    var gone := DoomedUids(was[n..], scope);
    forall u | u in gone ensures exists m :: m in was && m.uid == u && "\\Deleted" in m.flags {
      var m :| m in was[n..] && Doomed(m, scope) && m.uid == u;
      assert m in was;
    }
    forall m | m in was && m !in was[..n] + Undeleted(was[n..], scope) ensures m.uid in gone {
      assert m in was[n..] && Doomed(m, scope);
    }
  }

  lemma {:induction false} UndeletedLength(msgs: seq<Msg>, scope: Scope)
    ensures |Undeleted(msgs, scope)| <= |msgs|
    ensures |Undeleted(msgs, scope)| == |msgs| <==> DoomedUids(msgs, scope) == {}
  {
    if msgs != [] {
      UndeletedLength(msgs[1..], scope);
      assert msgs[0..] == msgs;
      DoomedCons(msgs, 0, scope);
    }
  }

  /** The position right behind the last message to delete that is refused, zero when there is none. */
  function StopsAt(msgs: seq<Msg>, scope: Scope, refused: set<nat>): (n: nat)
    ensures n <= |msgs|
  {
    if msgs == [] then 0 else
    var last := msgs[|msgs| - 1];
    if Doomed(last, scope) && last.uid in refused then |msgs| else StopsAt(msgs[..|msgs| - 1], scope, refused)
  }

  /** What the walk leaves: everything up to there, and behind it what was not to be deleted. */
  function AfterExpunge(msgs: seq<Msg>, scope: Scope, refused: set<nat>): seq<Msg> {
    var n := StopsAt(msgs, scope, refused);
    msgs[..n] + Undeleted(msgs[n..], scope)
  }

  /** The walk is down to position i. */
  ghost predicate Walked(was: seq<Msg>, msgs: seq<Msg>, gone: set<nat>, i: nat, scope: Scope, refused: set<nat>) {
    && i <= |was| && msgs == was[..i] + Undeleted(was[i..], scope)
    && gone == DoomedUids(was[i..], scope) && gone !! refused
    && StopsAt(was[..i], scope, refused) == StopsAt(was, scope, refused)
  }

  ghost predicate Stopped(was: seq<Msg>, msgs: seq<Msg>, gone: set<nat>, scope: Scope, refused: set<nat>) {
    && msgs == AfterExpunge(was, scope, refused) && !(DoomedUids(was, scope) !! refused)
    && gone == DoomedUids(was[StopsAt(was, scope, refused)..], scope) && gone !! refused
  }

  lemma WalkBegins(was: seq<Msg>, scope: Scope, refused: set<nat>)
    ensures Walked(was, was, {}, |was|, scope, refused)
  {
    assert was[..|was|] == was && was[|was|..] == [];
  }

  lemma WalkStep(was: seq<Msg>, msgs: seq<Msg>, gone: set<nat>, i: nat, scope: Scope, refused: set<nat>)
    requires i < |was| && Walked(was, msgs, gone, i + 1, scope, refused)
    ensures i < |msgs| && msgs[i] == was[i]
    ensures !Doomed(was[i], scope) ==> Walked(was, msgs, gone, i, scope, refused)
    ensures Doomed(was[i], scope) && was[i].uid !in refused ==>
      Walked(was, msgs[..i] + msgs[i + 1..], gone + {was[i].uid}, i, scope, refused)
    ensures Doomed(was[i], scope) && was[i].uid in refused ==> Stopped(was, msgs, gone, scope, refused)
  {
    DoomedCons(was, i, scope);
    CutIs(was, i, scope, msgs);
    assert was[..i + 1][..i] == was[..i] && was[i] in was;
    assert Doomed(was[i], scope) ==> was[i].uid in DoomedUids(was, scope);
  }

  lemma WalkEnds(was: seq<Msg>, msgs: seq<Msg>, gone: set<nat>, scope: Scope, refused: set<nat>)
    requires Walked(was, msgs, gone, 0, scope, refused)
    ensures StopsAt(was, scope, refused) == 0 && msgs == Undeleted(was, scope) == AfterExpunge(was, scope, refused)
    ensures gone == DoomedUids(was, scope) && DoomedUids(was, scope) !! refused
  {
    assert was[0..] == was && was[..0] == [];
  }

  /** The last message to delete, where the walk begins, is not refused. */
  predicate FirstGoes(msgs: seq<Msg>, scope: Scope, refused: set<nat>) {
    exists j :: 0 <= j < |msgs| && Doomed(msgs[j], scope) && msgs[j].uid !in refused
                && forall i :: j < i < |msgs| ==> !Doomed(msgs[i], scope)
  }

  lemma {:induction false} FirstGoesIff(msgs: seq<Msg>, scope: Scope, refused: set<nat>)
    ensures FirstGoes(msgs, scope, refused) <==> DoomedUids(msgs[StopsAt(msgs, scope, refused)..], scope) != {}
  {
    if msgs == [] { return; }
    var front, last, n := msgs[..|msgs| - 1], msgs[|msgs| - 1], StopsAt(msgs, scope, refused);
    if Doomed(last, scope) {
      if last.uid in refused {
        assert msgs[n..] == [];
      } else {
        assert msgs[|msgs| - 1] in msgs[n..] && last.uid in DoomedUids(msgs[n..], scope);
      }
    } else {
      FirstGoesIff(front, scope, refused);
      assert msgs[n..] == front[n..] + [last];
      assert DoomedUids(msgs[n..], scope) == DoomedUids(front[n..], scope);
      FirstGoesFront(msgs, front, scope, refused);
    }
  }

  lemma FirstGoesFront(msgs: seq<Msg>, front: seq<Msg>, scope: Scope, refused: set<nat>)
    requires msgs != [] && front == msgs[..|msgs| - 1] && !Doomed(msgs[|msgs| - 1], scope)
    ensures FirstGoes(msgs, scope, refused) <==> FirstGoes(front, scope, refused)
  {
    if j :| 0 <= j < |msgs| && Doomed(msgs[j], scope) && msgs[j].uid !in refused
            && forall i :: j < i < |msgs| ==> !Doomed(msgs[i], scope) {
      assert front[j] == msgs[j];
    }
    if j :| 0 <= j < |front| && Doomed(front[j], scope) && front[j].uid !in refused
            && forall i :: j < i < |front| ==> !Doomed(front[i], scope) {
      assert msgs[j] == front[j];
    }
  }

  /** A walk that was stopped under QRESYNC tells the client nothing: its list is still the server's if
      and only if the first message the walk came to was refused already; otherwise it is too long, and
      its numbers are off. */
  lemma StoppedWalkMisleads(was: seq<Msg>, scope: Scope, refused: set<nat>)
    requires !(DoomedUids(was, scope) !! refused)
    ensures var now := AfterExpunge(was, scope, refused);
            && (Replay(Showing(Display(was)), [], Display(now)) == Showing(Display(now))
                <==> !FirstGoes(was, scope, refused))
            && (FirstGoes(was, scope, refused) ==> |Display(was)| > |Display(now)|)
  {
    var n := StopsAt(was, scope, refused);
    FirstGoesIff(was, scope, refused);
    UndeletedLength(was[n..], scope);
    if DoomedUids(was[n..], scope) == {} {
      NothingDoomed(was[n..], scope);
      assert was == was[..n] + was[n..];
    }
  }

  lemma {:induction false} NothingDoomed(msgs: seq<Msg>, scope: Scope)
    requires DoomedUids(msgs, scope) == {}
    ensures Undeleted(msgs, scope) == msgs
  {
    if msgs != [] {
      assert msgs[0..] == msgs;
      DoomedCons(msgs, 0, scope);
      NothingDoomed(msgs[1..], scope);
      assert [msgs[0]] + msgs[1..] == msgs;
    }
  }

  lemma {:induction false} ReplayConcat(view: View, us: seq<Update>, vs: seq<Update>, server: seq<Shown>)
    ensures Replay(view, us + vs, server) == Replay(Replay(view, us, server), vs, server)
    decreases |vs|
  {
    if vs == [] {
      assert us + vs == us;
    } else {
      var front, last := vs[..|vs| - 1], vs[|vs| - 1];
      assert us + vs == us + front + [last] && vs == front + [last];
      ReplayConcat(view, us, front, server);
    }
  }
}
