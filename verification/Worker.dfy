/** The queue's worker: attempts in any order, until nothing is left. */
module Worker {
  import opened Delivery
  import opened Outbound

  /** What one attempt meets: the remotes' replies, the routing of a bounce, and the time. */
  datatype Turn = Turn(remotes: string -> Remote, resolve: string -> Destinations, now: nat)

  /** What became of one row: its attempts, the recipients delivered, and the reports about it. */
  datatype Fate = Fate(visits: seq<Visit>, delivered: multiset<string>, reports: seq<Report>)

  const UNBORN := Fate([], multiset{}, [])

  /** The recipients that reports name. */
  function Named(reports: seq<Report>): multiset<string> {
    if reports == [] then multiset{} else Named(reports[..|reports| - 1]) + multiset(reports[|reports| - 1].failed)
  }

  /** Attempts so far follow one another on what was deferred. */
  ghost predicate Begun(visits: seq<Visit>) {
    forall i :: 0 <= i < |visits| - 1 ==>
      multiset(visits[i + 1].recipients) == StillDeferred(RowAt(visits, i), visits[i].remotes) != multiset{}
  }

  /** The row waits for its next attempt. */
  ghost predicate Waits(row: Row, visits: seq<Visit>) {
    && row.attempts == |visits|
    && (visits != [] ==>
          multiset(row.recipients)
            == StillDeferred(RowAt(visits, |visits| - 1), visits[|visits| - 1].remotes) != multiset{})
  }

  /** The books are kept: delivered and reported are what the attempts delivered and gave up. */
  ghost predicate Kept(fate: Fate, from: string) {
    && fate.delivered == DeliveredFrom(fate.visits, 0)
    && Named(fate.reports) == (if from == "" then multiset{} else FailedFrom(fate.visits, 0))
    && forall i :: 0 <= i < |fate.reports| ==> fate.reports[i].to == from
  }

  /** One row from its first attempt on. */
  ghost predicate Follows(rows: map<nat, Row>, bodies: map<nat, string>, id: nat, row0: Row, fate: Fate) {
    && Begun(fate.visits) && Kept(fate, row0.from)
    && (fate.visits != [] ==> fate.visits[0].recipients == row0.recipients)
    && (if id in rows then
          id in bodies && rows[id].from == row0.from && Waits(rows[id], fate.visits)
            && (fate.visits == [] ==> rows[id] == row0)
        else Life(fate.visits))
  }

  // ---- one attempt more -----------------------------------------------------------------------

  lemma Regroup(a: multiset<string>, b: multiset<string>, c: multiset<string>)
    ensures a + (b + c) == a + b + c
  {
  }

  lemma {:induction false} DeliveredSnoc(visits: seq<Visit>, v: Visit, all: seq<Visit>, i: nat)
    requires i <= |visits| && all == visits + [v]
    ensures DeliveredFrom(all, i) == DeliveredFrom(visits, i) + Judged(v.recipients, v.remotes, Delivered)
    decreases |visits| - i
  {
    if i == |visits| {
      assert DeliveredFrom(all, i + 1) == multiset{};
    } else {
      DeliveredSnoc(visits, v, all, i + 1);
      Regroup(Judged(visits[i].recipients, visits[i].remotes, Delivered), DeliveredFrom(visits, i + 1),
              Judged(v.recipients, v.remotes, Delivered));
    }
  }

  lemma {:induction false} FailedSnoc(visits: seq<Visit>, v: Visit, all: seq<Visit>, i: nat)
    requires i <= |visits| && all == visits + [v]
    ensures FailedFrom(all, i) == FailedFrom(visits, i) + GivenUp(RowAt(all, |visits|), v.remotes)
    decreases |visits| - i
  {
    if i == |visits| {
      assert FailedFrom(all, i + 1) == multiset{};
    } else {
      FailedSnoc(visits, v, all, i + 1);
      Regroup(GivenUp(RowAt(visits, i), visits[i].remotes), FailedFrom(visits, i + 1),
              GivenUp(RowAt(all, |visits|), v.remotes));
    }
  }

  lemma BegunMore(visits: seq<Visit>, v: Visit)
    requires Begun(visits)
    requires visits != [] ==>
      multiset(v.recipients) == StillDeferred(RowAt(visits, |visits| - 1), visits[|visits| - 1].remotes) != multiset{}
    ensures Begun(visits + [v])
  {
    var all := visits + [v];
    forall i | 0 <= i < |all| - 1
      ensures multiset(all[i + 1].recipients) == StillDeferred(RowAt(all, i), all[i].remotes) != multiset{}
    {
      assert RowAt(all, i) == RowAt(visits, i);
    }
  }

  /** The reports of one attempt. */
  lemma NamedMore(reports: seq<Report>, before: seq<Report>, after: seq<Report>, from: string, failed: multiset<string>)
    requires Reported(before, after, from, failed)
    ensures Named(reports + after[|before|..]) == Named(reports) + if from == "" then multiset{} else failed
    ensures forall i :: |before| <= i < |after| ==> after[i].to == from
  {
    var news := after[|before|..];
    if from == "" || failed == multiset{} {
      assert news == [] && reports + news == reports;
    } else {
      assert news == [after[|before|]];
      assert (reports + news)[..|reports|] == reports;
    }
  }

  function Visited(fate: Fate, row: Row, remotes: string -> Remote, delivered: seq<string>, news: seq<Report>): Fate {
    Fate(fate.visits + [Visit(row.recipients, remotes)], fate.delivered + multiset(delivered), fate.reports + news)
  }

  lemma VisitedKept(fate: Fate, row: Row, remotes: string -> Remote, delivered: seq<string>, before: seq<Report>,
                    after: seq<Report>)
    requires Kept(fate, row.from) && row.attempts == |fate.visits|
    requires multiset(delivered) == Judged(row.recipients, remotes, Delivered)
    requires Reported(before, after, row.from, GivenUp(row, remotes))
    ensures Kept(Visited(fate, row, remotes, delivered, after[|before|..]), row.from)
  {
    var v := Visit(row.recipients, remotes);
    var all := fate.visits + [v];
    DeliveredSnoc(fate.visits, v, all, 0);
    FailedSnoc(fate.visits, v, all, 0);
    SameGivenUp(all, |fate.visits|, row, remotes);
    NamedMore(fate.reports, before, after, row.from, GivenUp(row, remotes));
    AllTo(fate.reports, after, |before|, row.from);
  }

  lemma SameGivenUp(visits: seq<Visit>, i: nat, row: Row, remotes: string -> Remote)
    requires i < |visits| && visits[i].recipients == row.recipients && row.attempts == i
    ensures GivenUp(RowAt(visits, i), remotes) == GivenUp(row, remotes)
  {
  }

  lemma AllTo(reports: seq<Report>, after: seq<Report>, n: nat, from: string)
    requires n <= |after| && (forall i :: 0 <= i < |reports| ==> reports[i].to == from)
    requires forall i :: n <= i < |after| ==> after[i].to == from
    ensures var all := reports + after[n..]; forall i :: 0 <= i < |all| ==> all[i].to == from
  {
  }

  /** The followed row is attempted. */
  lemma FollowsOwn(rows: map<nat, Row>, bodies: map<nat, string>, rows': map<nat, Row>, bodies': map<nat, string>,
                   id: nat, row0: Row,
                   fate: Fate, fate': Fate, remotes: string -> Remote)
    requires Follows(rows, bodies, id, row0, fate) && id in rows && Kept(fate', row0.from)
    requires fate'.visits == fate.visits + [Visit(rows[id].recipients, remotes)]
    requires id in rows' <==> StillDeferred(rows[id], remotes) != multiset{}
    requires id in rows' ==>
      id in bodies' && rows'[id].from == rows[id].from && rows'[id].attempts == rows[id].attempts + 1
    requires id in rows' ==> multiset(rows'[id].recipients) == StillDeferred(rows[id], remotes)
    ensures Follows(rows', bodies', id, row0, fate')
  {
    var row, v := rows[id], Visit(rows[id].recipients, remotes);
    BegunMore(fate.visits, v);
    SameDeferred(fate.visits, row, remotes);
    if id !in rows' { LifeEnds(fate.visits, v); }
  }

  lemma SameDeferred(visits: seq<Visit>, row: Row, remotes: string -> Remote)
    requires row.attempts == |visits|
    ensures var all := visits + [Visit(row.recipients, remotes)];
            StillDeferred(RowAt(all, |all| - 1), all[|all| - 1].remotes) == StillDeferred(row, remotes)
  {
  }

  lemma LifeEnds(visits: seq<Visit>, v: Visit)
    requires Begun(visits + [v])
    requires StillDeferred(RowAt(visits + [v], |visits|), v.remotes) == multiset{}
    ensures Life(visits + [v])
  {
  }

  /** Another row is attempted. */
  lemma FollowsOther(rows: map<nat, Row>, bodies: map<nat, string>, next: nat, rows': map<nat, Row>,
                     bodies': map<nat, string>, next': nat,
                     id: nat, mine: nat, row0: Row, fate: Fate)
    requires Follows(rows, bodies, mine, row0, fate) && Attempted(rows, next, rows', next', id) && id != mine
      && mine < next
    requires forall j :: j in bodies && j in rows' ==> j in bodies'
    ensures Follows(rows', bodies', mine, row0, fate)
  {
    assert mine in rows' <==> mine in rows;
  }

  // ---- the worker -----------------------------------------------------------------------------

  /** One attempt, and what it adds to the fate of the followed row. */
  method Attend(q: Queue, id: nat, turn: Turn, ghost follow: bool, ghost mine: nat, ghost row0: Row, ghost fate: Fate)
    returns (ghost fate': Fate)
    requires q.Valid() && id in q.rows && (follow ==> mine < q.nextId && Follows(q.rows, q.bodies, mine, row0, fate))
    modifies q
    ensures q.Valid() && Attempted(old(q.rows), old(q.nextId), q.rows, q.nextId, id)
    ensures follow ==> Follows(q.rows, q.bodies, mine, row0, fate')
  {
    ghost var rows, bodies, next, reports := q.rows, q.bodies, q.nextId, q.reports;
    var delivered := q.Deliver(id, turn.remotes, turn.resolve, turn.now);
    fate' := fate;
    if follow {
      if id == mine {
        fate' := Visited(fate, rows[id], turn.remotes, delivered, q.reports[|reports|..]);
        VisitedKept(fate, rows[id], turn.remotes, delivered, reports, q.reports);
        FollowsOwn(rows, bodies, q.rows, q.bodies, id, row0, fate, fate', turn.remotes);
      } else {
        FollowsOther(rows, bodies, next, q.rows, q.bodies, q.nextId, id, mine, row0, fate);
      }
    }
  }

  lemma RunMore(qs: seq<Snapshot>, ids: seq<nat>, id: nat, snap: Snapshot)
    requires Run(qs, ids) && Bounded(snap.rows, snap.next)
    requires Attempted(qs[|ids|].rows, qs[|ids|].next, snap.rows, snap.next, id)
    ensures Run(qs + [snap], ids + [id])
  {
  }

  /** Works the queue empty, whatever the order of attempts and whatever they meet; `mine` is followed. */
  method Drain(q: Queue, world: nat -> Turn, ghost mine: nat)
    returns (attempts: nat, ghost qs: seq<Snapshot>, ghost ids: seq<nat>, ghost fate: Fate)
    requires q.Valid()
    modifies q
    ensures q.Valid() && q.rows == map[]
    ensures Run(qs, ids) && qs[0] == Snapshot(old(q.rows), old(q.nextId)) && attempts == |ids|
    ensures mine in old(q.rows) && mine in old(q.bodies) && old(q.rows)[mine].attempts == 0 ==>
      && Life(fate.visits) && fate.visits[0].recipients == old(q.rows)[mine].recipients
        && Kept(fate, old(q.rows)[mine].from)
  {
    attempts, qs, ids, fate := 0, [Snapshot(q.rows, q.nextId)], [], UNBORN;
    ghost var follow := mine in q.rows && mine in q.bodies && q.rows[mine].attempts == 0;
    ghost var row0 := if follow then q.rows[mine] else Row("", [], 0, 0, false);
    while q.rows != map[]
      invariant q.Valid() && Run(qs, ids) && attempts == |ids| && qs[|ids|] == Snapshot(q.rows, q.nextId)
      invariant qs[0] == Snapshot(old(q.rows), old(q.nextId))
      invariant follow ==> mine < q.nextId && Follows(q.rows, q.bodies, mine, row0, fate)
      decreases Total(q.rows, q.nextId)
    {
      var id :| id in q.rows;
      var turn := world(attempts);
      fate := Attend(q, id, turn, follow, mine, row0, fate);
      ghost var snap := Snapshot(q.rows, q.nextId);
      AttemptSpends(qs[|ids|].rows, qs[|ids|].next, snap.rows, snap.next, id);
      RunMore(qs, ids, id, snap);
      attempts, qs, ids := attempts + 1, qs + [snap], ids + [id];
    }
  }

  /** A fresh row alone in the queue: worked off within 30 attempts, 5 without a sender; each
      well-formed recipient is delivered once, or named once in a report to the sender. */
  method DrainOne(q: Queue, world: nat -> Turn, id: nat) returns (attempts: nat, ghost fate: Fate)
    requires q.Valid() && q.rows.Keys == {id} && q.rows[id].attempts == 0 && id in q.bodies
    modifies q
    ensures q.rows == map[] && attempts <= if old(q.rows)[id].from == "" then 5 else 30
    ensures |fate.visits| <= MAX_ATTEMPTS
    ensures var row := old(q.rows)[id];
            && fate.delivered + FailedFrom(fate.visits, 0) + Malformed(row.recipients) == multiset(row.recipients)
            && (row.from != "" ==>
                fate.delivered + Named(fate.reports) + Malformed(row.recipients) == multiset(row.recipients))
            && (row.from == "" ==> Named(fate.reports) == multiset{})
  {
    ghost var qs, ids;
    attempts, qs, ids, fate := Drain(q, world, id);
    QueueDrains(qs, ids, id);
    LifeConserves(fate.visits);
  }
}
