/** The outbound queue: retries with back-off, bounces, and why it drains. */
module Outbound {
  import opened Delivery

  const MAX_ATTEMPTS: nat := 5
  const BASE_BACKOFF: nat := 300      // seconds
  const MAX_BACKOFF: nat := 21600

  // ---- back-off -------------------------------------------------------------------------------

  function Pow2(n: nat): nat {
    if n == 0 then 1 else 2 * Pow2(n - 1)
  }

  lemma {:induction false} Pow2Grows(m: nat, n: nat)
    requires m <= n
    ensures Pow2(m) <= Pow2(n)
  {
    if m < n { Pow2Grows(m, n - 1); }
  }

  /** The wait before retry number `attempts`: min(5 min * 2^(attempts-1), 6 h). */
  method Backoff(attempts: int) returns (d: nat)
    ensures attempts < 1 ==> d == BASE_BACKOFF
    ensures attempts >= 1 ==> d == Wait(attempts)
  {
    d := BASE_BACKOFF;
    var i := 1;
    while i < attempts
      invariant 1 <= i && (attempts >= 1 ==> i <= attempts) && (attempts < 1 ==> i == 1)
      invariant d == BASE_BACKOFF * Pow2(i - 1) && d < MAX_BACKOFF
    {
      d := d * 2;
      if d >= MAX_BACKOFF {
        Pow2Grows(i, attempts - 1);
        assert d == BASE_BACKOFF * Pow2(i) <= BASE_BACKOFF * Pow2(attempts - 1);
        return MAX_BACKOFF;
      }
      i := i + 1;
    }
  }

  function Wait(attempts: nat): nat
    requires attempts >= 1
  {
    var d := BASE_BACKOFF * Pow2(attempts - 1);
    if d < MAX_BACKOFF then d else MAX_BACKOFF
  }

  // ---- rows -----------------------------------------------------------------------------------

  datatype Row = Row(from: string, recipients: seq<string>, attempts: nat, nextRetry: nat, deferred: bool)

  datatype Destinations = Destinations(local: seq<nat>, remote: seq<string>)

  /** A delivery-failure report, addressed to the original sender. */
  datatype Report = Report(to: string, failed: seq<string>)

  /** What routing hands to the queue for one address: itself when it is not hosted here. */
  function Relayed(rcpt: string, resolve: string -> Destinations): seq<string> {
    var d := resolve(rcpt);
    if d.local == [] && d.remote == [] then [rcpt] else d.remote
  }

  function RelayedAll(rcpts: seq<string>, resolve: string -> Destinations): seq<string> {
    if rcpts == [] then [] else RelayedAll(rcpts[..|rcpts| - 1], resolve) + Relayed(rcpts[|rcpts| - 1], resolve)
  }

  function DeliveredLocally(rcpts: seq<string>, resolve: string -> Destinations): nat {
    if rcpts == [] then 0 else DeliveredLocally(rcpts[..|rcpts| - 1], resolve) + |resolve(rcpts[|rcpts| - 1]).local|
  }

  /** What one attempt at a row does to the queue: the row goes, or stays with one attempt more; a
      row with a sender may add one row without. */
  ghost predicate Attempted(rows: map<nat, Row>, next: nat, rows': map<nat, Row>, next': nat, id: nat) {
    && id in rows && next <= next' <= next + 1
    && (forall j :: j in rows && j != id ==> j in rows' && rows'[j] == rows[j])
    && (id in rows' ==> rows'[id].from == rows[id].from && rows'[id].attempts == rows[id].attempts + 1 < MAX_ATTEMPTS)
    && (forall j :: j in rows' && j !in rows ==>
        j == next < next' && rows[id].from != "" && rows'[j].from == "" && rows'[j].attempts == 0)
  }

  /** The recipients an attempt gives up on: permanent failures, and on the last attempt all failures. */
  function GivenUp(row: Row, remotes: string -> Remote): multiset<string> {
    Judged(row.recipients, remotes, Permanent)
    + if row.attempts + 1 >= MAX_ATTEMPTS then Judged(row.recipients, remotes, Temporary) else multiset{}
  }

  function StillDeferred(row: Row, remotes: string -> Remote): multiset<string> {
    if row.attempts + 1 >= MAX_ATTEMPTS then multiset{} else Judged(row.recipients, remotes, Temporary)
  }

  class Queue {
    var rows: map<nat, Row>
    var bodies: map<nat, string>   // the body blob of a row
    var nextId: nat
    var reports: seq<Report>
    /** The text of a report to a sender: the recipients given up, and the original message. */
    const render: (string, seq<string>, string) -> string

    ghost predicate Valid()
      reads this
    {
      forall id :: id in rows || id in bodies ==> id < nextId
    }

    constructor (render: (string, seq<string>, string) -> string)
      ensures Valid() && rows == map[] && bodies == map[] && nextId == 0 && reports == [] && this.render == render
    {
      rows, bodies, nextId, reports, this.render := map[], map[], 0, [], render;
    }

    method Enqueue(from: string, recipients: seq<string>, body: string, now: nat)
      requires Valid()
      modifies `rows, `bodies, `nextId
      ensures Valid() && nextId == old(nextId) + 1
      ensures rows == old(rows)[old(nextId) := Row(from, recipients, 0, now, false)]
      ensures bodies == old(bodies)[old(nextId) := body]
    {
      bodies := bodies[nextId := body];
      rows := rows[nextId := Row(from, recipients, 0, now, false)];
      nextId := nextId + 1;
    }

    method Complete(id: nat)
      requires Valid()
      modifies `rows, `bodies
      ensures Valid() && rows == old(rows) - {id} && bodies == old(bodies) - {id}
    {
      rows := rows - {id};
      bodies := bodies - {id};
    }

    /** Local addresses are delivered at once; all others share one new row. */
    method Route(from: string, recipients: seq<string>, body: string, resolve: string -> Destinations, now: nat)
      returns (local: nat, queued: nat)
      requires Valid()
      modifies `rows, `bodies, `nextId
      ensures Valid()
      ensures local == DeliveredLocally(recipients, resolve) && queued == |RelayedAll(recipients, resolve)|
      ensures queued == 0 ==> unchanged(`rows) && unchanged(`bodies) && unchanged(`nextId)
      ensures queued > 0 ==> nextId == old(nextId) + 1 && bodies == old(bodies)[old(nextId) := body]
      ensures queued > 0 ==> rows == old(rows)[old(nextId) := Row(from, RelayedAll(recipients, resolve), 0, now, false)]
    {
      local, queued := 0, 0;
      var remote: seq<string> := [];
      for i := 0 to |recipients|
        modifies {}
        invariant remote == RelayedAll(recipients[..i], resolve) && local == DeliveredLocally(recipients[..i], resolve)
      {
        assert recipients[..i + 1][..i] == recipients[..i];
        var d := resolve(recipients[i]);
        if d.local == [] && d.remote == [] {
          remote := remote + [recipients[i]];
          continue;
        }
        local := local + |d.local|;
        remote := remote + d.remote;
      }
      assert recipients[..|recipients|] == recipients;
      if |remote| > 0 {
        Enqueue(from, remote, body, now);
        queued := |remote|;
      }
    }

    /** Never bounces a bounce: nothing happens for a null sender. */
    method Bounce(from: string, failed: seq<string>, original: string, resolve: string -> Destinations, now: nat)
      requires Valid()
      modifies `rows, `bodies, `nextId, `reports
      ensures Valid() && old(nextId) <= nextId <= old(nextId) + 1
      ensures reports == old(reports) + if from == "" then [] else [Report(from, failed)]
      ensures nextId == old(nextId) ==> rows == old(rows) && bodies == old(bodies)
      ensures nextId != old(nextId) ==>
        from != "" && rows == old(rows)[old(nextId) := Row("", RelayedAll([from], resolve), 0, now, false)]
      ensures nextId != old(nextId) ==> bodies == old(bodies)[old(nextId) := render(from, failed, original)]
    {
      if from == "" {
        assert reports + [] == reports;
        return;
      }
      var _, _ := Route("", [from], render(from, failed, original), resolve, now);
      reports := reports + [Report(from, failed)];
    }

    /** One attempt at one row, for any replies, any routing of the bounce, at time `now`. */
    method Deliver(id: nat, remotes: string -> Remote, resolve: string -> Destinations, now: nat)
      returns (delivered: seq<string>)
      requires Valid() && id in rows
      modifies this
      ensures Valid() && Attempted(old(rows), old(nextId), rows, nextId, id)
      ensures id !in old(bodies) ==> rows == old(rows) - {id} && reports == old(reports) && delivered == []
      ensures id in old(bodies) ==> multiset(delivered) == Judged(old(rows)[id].recipients, remotes, Delivered)
      ensures id in old(bodies) ==> Deferral(old(rows)[id], rows, id, StillDeferred(old(rows)[id], remotes), now)
      ensures id in old(bodies) ==> Reported(old(reports), reports, old(rows)[id].from, GivenUp(old(rows)[id], remotes))
      ensures forall j :: j in old(bodies) && j in rows ==> j in bodies
    {
      if id !in bodies {
        Complete(id);
        return [];
      }
      var row := rows[id];
      var temp, perm: seq<Failure>;
      temp, perm, delivered := Attempt(row.recipients, remotes);
      OutcomeMeans(row, remotes, temp, perm, delivered);
      Settle(id, temp, perm, StillDeferred(row, remotes), GivenUp(row, remotes), resolve, now);
    }

    /** After the conversations: bounce, then defer or complete. */
    method Settle(id: nat, temp: seq<Failure>, perm: seq<Failure>, ghost deferred: multiset<string>,
                  ghost given: multiset<string>, resolve: string -> Destinations, now: nat)
      requires Valid() && id in rows && id in bodies && Decided(rows[id], temp, perm, deferred, given)
      modifies this
      ensures Valid() && Attempted(old(rows), old(nextId), rows, nextId, id)
      ensures Deferral(old(rows)[id], rows, id, deferred, now)
      ensures Reported(old(reports), reports, old(rows)[id].from, given)
      ensures forall j :: j in old(bodies) && j in rows ==> j in bodies
    {
      var row := rows[id];
      var attempts := row.attempts + 1;
      var bounced, stillDeferred := perm, [];
      if attempts >= MAX_ATTEMPTS {
        RecipientsConcat(perm, temp);
        bounced := bounced + temp;
      } else {
        stillDeferred := temp;
      }
      ReportFailures(id, bounced, resolve, now);
      NoRecipients(stillDeferred);
      if |stillDeferred| == 0 {
        CompletedIsAttempted(old(rows), old(nextId), rows, nextId, id);
        Complete(id);
        return;
      }
      var wait := Backoff(attempts);
      var later := Row(row.from, Recipients(stillDeferred), attempts, now + wait, true);
      DeferredIsAttempted(old(rows), old(nextId), rows, nextId, id, later);
      rows := rows[id := later];
    }

    /** The failures of row `id`, if any, are bounced; the row itself is not touched. */
    method ReportFailures(id: nat, bounced: seq<Failure>, resolve: string -> Destinations, now: nat)
      requires Valid() && id in rows && id in bodies
      modifies this
      ensures Valid() && Spawned(old(rows), old(nextId), rows, nextId, old(rows)[id].from)
      ensures Reported(old(reports), reports, old(rows)[id].from, multiset(Recipients(bounced)))
      ensures forall j :: j in old(bodies) ==> j in bodies
    {
      NoRecipients(bounced);
      if |bounced| > 0 {
        var from := rows[id].from;
        Bounce(from, Recipients(bounced), bodies[id], resolve, now);
        assert from != "" ==> reports[|old(reports)|..] == [Report(from, Recipients(bounced))];
      }
    }
  }

  /** At most one row more, from the null sender, and only if `from` is not null. */
  ghost predicate Spawned(rows: map<nat, Row>, next: nat, rows': map<nat, Row>, next': nat, from: string) {
    && next <= next' <= next + 1 && (forall j :: j in rows ==> j in rows' && rows'[j] == rows[j])
    && (forall j :: j in rows' && j !in rows ==>
        j == next < next' && from != "" && rows'[j].from == "" && rows'[j].attempts == 0)
  }

  lemma CompletedIsAttempted(rows: map<nat, Row>, next: nat, rows': map<nat, Row>, next': nat, id: nat)
    requires id in rows && Spawned(rows, next, rows', next', rows[id].from)
    ensures Attempted(rows, next, rows' - {id}, next', id)
  {
  }

  lemma DeferredIsAttempted(rows: map<nat, Row>, next: nat, rows': map<nat, Row>, next': nat, id: nat, later: Row)
    requires id in rows && Spawned(rows, next, rows', next', rows[id].from)
    requires later.from == rows[id].from && later.attempts == rows[id].attempts + 1 < MAX_ATTEMPTS
    ensures Attempted(rows, next, rows'[id := later], next', id)
  {
  }

  /** The row stays exactly if recipients are deferred, and then with those, one attempt more, and its wait. */
  ghost predicate Deferral(row: Row, rows: map<nat, Row>, id: nat, deferred: multiset<string>, now: nat) {
    && (id in rows <==> deferred != multiset{})
    && (id in rows ==> multiset(rows[id].recipients) == deferred && rows[id].deferred && rows[id].from == row.from
                       && rows[id].attempts == row.attempts + 1 && rows[id].nextRetry == now + Wait(rows[id].attempts))
  }

  /** The failures of an attempt, as deferred and as given up. */
  ghost predicate Decided(row: Row, temp: seq<Failure>, perm: seq<Failure>, deferred: multiset<string>,
                          given: multiset<string>) {
    var last := row.attempts + 1 >= MAX_ATTEMPTS;
    && deferred == (if last then multiset{} else multiset(Recipients(temp)))
    && given == multiset(Recipients(perm)) + if last then multiset(Recipients(temp)) else multiset{}
  }

  /** What the attempt's lists say about the row. */
  lemma OutcomeMeans(row: Row, remotes: string -> Remote, temp: seq<Failure>, perm: seq<Failure>,
                     delivered: seq<string>)
    requires Outcome(row.recipients, remotes, temp, perm, delivered)
    ensures multiset(delivered) == Judged(row.recipients, remotes, Delivered)
    ensures Decided(row, temp, perm, StillDeferred(row, remotes), GivenUp(row, remotes))
  {
  }

  lemma NoRecipients(fs: seq<Failure>)
    ensures multiset(Recipients(fs)) == multiset{} <==> fs == []
  {
    if fs != [] { assert Recipients(fs)[0] in multiset(Recipients(fs)); }
  }

  /** Exactly one report, naming exactly the given-up recipients, unless the sender is null or there are none. */
  ghost predicate Reported(before: seq<Report>, after: seq<Report>, from: string, failed: multiset<string>) {
    if from == "" || failed == multiset{} then after == before
    else
      && |after| == |before| + 1 && after[..|before|] == before && after[|before|].to == from
      && multiset(after[|before|].failed) == failed
  }

  // ---- the queue drains -----------------------------------------------------------------------

  /** Attempts a row can still cause, counting the bounces it may spawn. */
  function Budget(row: Row): nat {
    (if row.attempts + 1 >= MAX_ATTEMPTS then 1 else MAX_ATTEMPTS - row.attempts) * if row.from == "" then 1
      else 1 + MAX_ATTEMPTS
  }

  function Total(rows: map<nat, Row>, n: nat): nat {
    if n == 0 then 0 else Total(rows, n - 1) + if n - 1 in rows then Budget(rows[n - 1]) else 0
  }

  /** Rows agreeing below n except at one id differ by that row's budget. */
  lemma {:induction false} TotalDiffers(rows: map<nat, Row>, rows': map<nat, Row>, id: nat, n: nat)
    requires forall j :: 0 <= j < n && j != id ==> (j in rows <==> j in rows') && (j in rows ==> rows[j] == rows'[j])
    ensures Total(rows', n) == Total(rows, n) + if id < n then At(rows', id) - At(rows, id) else 0
  {
    if n > 0 { TotalDiffers(rows, rows', id, n - 1); }
  }

  function At(rows: map<nat, Row>, id: nat): int {
    if id in rows then Budget(rows[id]) else 0
  }

  ghost predicate Bounded(rows: map<nat, Row>, n: nat) {
    forall id :: id in rows ==> id < n
  }

  /** Every attempt uses up some of the budget. */
  lemma AttemptSpends(rows: map<nat, Row>, next: nat, rows': map<nat, Row>, next': nat, id: nat)
    requires Bounded(rows, next) && Bounded(rows', next') && Attempted(rows, next, rows', next', id)
    ensures Total(rows', next') < Total(rows, next)
  {
    assert forall j :: 0 <= j < next && j != id ==> (j in rows <==> j in rows') && (j in rows ==> rows[j] == rows'[j]);
    TotalDiffers(rows, rows', id, next);
    BudgetShrinks(rows[id]);
    if next' == next + 1 {
      assert Total(rows', next') == Total(rows', next) + At(rows', next);
    }
  }

  /** The row's own budget pays for its next attempt and for one bounce. */
  lemma BudgetShrinks(row: Row)
    ensures Budget(row) >= if row.from == "" then 1 else 1 + MAX_ATTEMPTS
    ensures row.attempts + 1 < MAX_ATTEMPTS ==>
      forall later: Row :: later.from == row.from && later.attempts == row.attempts + 1 ==>
        Budget(later) == Budget(row) - if row.from == "" then 1 else 1 + MAX_ATTEMPTS
  {
  }

  datatype Snapshot = Snapshot(rows: map<nat, Row>, next: nat)

  /** A run of the worker with no outside submissions: one attempt after the other, in any order. */
  ghost predicate Run(qs: seq<Snapshot>, ids: seq<nat>) {
    && |qs| == |ids| + 1
    && (forall i :: 0 <= i < |qs| ==> Bounded(qs[i].rows, qs[i].next))
    && (forall i :: 0 <= i < |ids| ==> Attempted(qs[i].rows, qs[i].next, qs[i + 1].rows, qs[i + 1].next, ids[i]))
  }

  lemma {:induction false} RunSpends(qs: seq<Snapshot>, ids: seq<nat>)
    requires Run(qs, ids)
    ensures |ids| + Total(qs[|ids|].rows, qs[|ids|].next) <= Total(qs[0].rows, qs[0].next)
    decreases |ids|
  {
    if ids != [] {
      var n := |ids| - 1;
      RunSpends(qs[..|ids|], ids[..n]);
      AttemptSpends(qs[n].rows, qs[n].next, qs[n + 1].rows, qs[n + 1].next, ids[n]);
    }
  }

  /** A fresh row causes at most 30 attempts in all, bounces included; 5 if its sender is null. */
  lemma QueueDrains(qs: seq<Snapshot>, ids: seq<nat>, id: nat)
    requires Run(qs, ids) && qs[0].rows.Keys == {id} && qs[0].rows[id].attempts == 0
    ensures |ids| <= if qs[0].rows[id].from == "" then 5 else 30
  {
    RunSpends(qs, ids);
    var rows, next := qs[0].rows, qs[0].next;
    TotalDiffers(map[], rows, id, next);
    TotalEmpty(next);
  }

  lemma {:induction false} TotalEmpty(n: nat)
    ensures Total(map[], n) == 0
  {
    if n > 0 { TotalEmpty(n - 1); }
  }

  // ---- a row's whole life ---------------------------------------------------------------------

  /** One attempt in the life of a row: the recipients it had, and the replies. */
  datatype Visit = Visit(recipients: seq<string>, remotes: string -> Remote)

  function RowAt(visits: seq<Visit>, i: nat): Row
    requires i < |visits|
  {
    Row("", visits[i].recipients, i, 0, i > 0)
  }

  /** Attempts follow one another on what was deferred, until nothing is. */
  ghost predicate Life(visits: seq<Visit>) {
    && visits != []
    && (forall i :: 0 <= i < |visits| - 1 ==>
        multiset(visits[i + 1].recipients) == StillDeferred(RowAt(visits, i), visits[i].remotes) != multiset{})
    && StillDeferred(RowAt(visits, |visits| - 1), visits[|visits| - 1].remotes) == multiset{}
  }

  function DeliveredFrom(visits: seq<Visit>, i: nat): multiset<string>
    requires i <= |visits|
    decreases |visits| - i
  {
    if i == |visits| then multiset{}
      else Judged(visits[i].recipients, visits[i].remotes, Delivered) + DeliveredFrom(visits, i + 1)
  }

  function FailedFrom(visits: seq<Visit>, i: nat): multiset<string>
    requires i <= |visits|
    decreases |visits| - i
  {
    if i == |visits| then multiset{} else GivenUp(RowAt(visits, i), visits[i].remotes) + FailedFrom(visits, i + 1)
  }

  lemma {:induction false} JudgedWellFormed(rcpts: seq<string>, remotes: string -> Remote, v: Verdict)
    ensures forall r :: r in Judged(rcpts, remotes, v) ==> WellFormed(r)
  {
    if rcpts != [] { JudgedWellFormed(rcpts[..|rcpts| - 1], remotes, v); }
  }

  lemma {:induction false} NoneMalformed(rcpts: seq<string>)
    requires forall r :: r in rcpts ==> WellFormed(r)
    ensures Malformed(rcpts) == multiset{}
  {
    if rcpts != [] {
      assert rcpts[|rcpts| - 1] in rcpts;
      assert forall r :: r in rcpts[..|rcpts| - 1] ==> r in rcpts;
      NoneMalformed(rcpts[..|rcpts| - 1]);
    }
  }

  /** One attempt splits its recipients into delivered, deferred, given up and malformed. */
  lemma AttemptConserves(row: Row, remotes: string -> Remote)
    ensures multiset(row.recipients) == Judged(row.recipients, remotes, Delivered) + StillDeferred(row, remotes)
                                        + GivenUp(row, remotes) + Malformed(row.recipients)
  {
    Conserved(row.recipients, remotes);
  }

  lemma {:induction false} RestConserved(visits: seq<Visit>, i: nat)
    requires Life(visits) && i < |visits|
    ensures multiset(visits[i].recipients)
      == DeliveredFrom(visits, i) + FailedFrom(visits, i) + Malformed(visits[i].recipients)
    decreases |visits| - i
  {
    AttemptConserves(RowAt(visits, i), visits[i].remotes);
    if i + 1 < |visits| {
      RestConserved(visits, i + 1);
      var next := visits[i + 1].recipients;
      JudgedWellFormed(visits[i].recipients, visits[i].remotes, Temporary);
      assert forall r :: r in next ==> r in multiset(next);
      NoneMalformed(next);
    }
  }

  /** Over a row's whole life, within five attempts, every well-formed recipient is delivered once
      or reported failed once, and the malformed ones are dropped at the first. */
  lemma LifeConserves(visits: seq<Visit>)
    requires Life(visits)
    ensures |visits| <= MAX_ATTEMPTS
    ensures multiset(visits[0].recipients)
      == DeliveredFrom(visits, 0) + FailedFrom(visits, 0) + Malformed(visits[0].recipients)
  {
    assert |visits| > MAX_ATTEMPTS ==>
      StillDeferred(RowAt(visits, MAX_ATTEMPTS - 1), visits[MAX_ATTEMPTS - 1].remotes) == multiset{};
    RestConserved(visits, 0);
  }
}
