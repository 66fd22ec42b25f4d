/** Which operations caught under way by a snapshot can spoil it.

    Harm that begins after the snapshot is the run's; harm by an operation that was already under way is
    the snapshot's. A snapshot is safe from its own past if and only if nothing straggles in it. */
module Stragglers {
  import opened Database
  import opened StoreResync
  import opened Interleaving
  import opened InterleavedResync
  import R = Resync

  /** A flag change numbered below what the client has seen, on a document that is in the mailbox or can
      be moved in, unless the client holds it with these flags. */
  predicate Late(db: Db, k: Key, flags: seq<string>, n: nat, mb: Key, client: Client, since: nat) {
    && n <= since && k in db.messages && k.account == mb.account
    && !(HoldsHere(db, k, mb, client) && client[db.messages[k].uid] == flags)
  }

  /** Left to itself, or met by a move in, the task will spoil what the client holds. */
  predicate Straggles(db: Db, t: Task, mb: Key, client: Client, since: nat) {
    match t
    case CreateStamp(x, _, _, n) => x == mb && n <= since
    case Shift(_, k) => HoldsHere(db, k, mb, client)
    case ShiftUid(_, k, _) => HoldsHere(db, k, mb, client)
    case ShiftStamp(x, k, _, n) => k in db.messages && ((x == mb && n <= since) || HoldsHere(db, k, mb, client))
    case Flag(x, k, flags) => x in db.mailboxes
      && Late(db, k, flags, db.mailboxes[x].highestModSeq + 1, mb, client, since)
    case FlagStamp(_, k, flags, n) => Late(db, k, flags, n, mb, client, since)
    case Remove(x, k, gone) => HoldsHere(db, k, mb, client) && !(x == mb && gone == db.messages[k].uid)
    case RemoveStamp(x, k, gone, n) =>
      HoldsHere(db, k, mb, client) && !(x == mb && gone == db.messages[k].uid && n > since)
    case _ => false
  }

  /** Only tasks of `old`, those under way at the snapshot, do harm. */
  ghost predicate Calm(s: Sys, steps: seq<Step>, old_: set<nat>, mb: Key, client: Client, since: nat)
    decreases |steps|
  {
    steps != [] ==>
      && (Harmful(s, steps[0], mb, client, since) ==> Acts(s, steps[0]) && steps[0].id in old_)
      && Calm(Next(s, steps[0]), steps[1..], old_ * Next(s, steps[0]).tasks.Keys, mb, client, since)
  }

  // ---- a task that does not straggle never will -----------------------------------------------

  ghost predicate Ready(s: Sys, mb: Key, client: Client, since: nat) {
    Followed(s, mb, client) && since <= s.db.mailboxes[mb].highestModSeq
  }

  lemma StaysReady(s: Sys, step: Step, mb: Key, client: Client, since: nat)
    requires Ready(s, mb, client, since)
    ensures Ready(Next(s, step), mb, client, since) && Effect(s, Next(s, step), step)
  {
    StaysFollowed(s, step, mb, client);
  }

  /** What the client holds here it held here before. */
  lemma HeldBefore(s: Sys, s': Sys, step: Step, k: Key, mb: Key, client: Client)
    requires Followed(s, mb, client) && Effect(s, s', step) && HoldsHere(s'.db, k, mb, client)
    requires Followed(s', mb, client)
    ensures HoldsHere(s.db, k, mb, client) && s.db.messages[k].uid == s'.db.messages[k].uid
  {
    HadIt(s, s', step, k, mb);
  }

  /** What the client holds here stays, unless it is deleted or the step does harm. */
  lemma HeldAfter(s: Sys, s': Sys, step: Step, k: Key, mb: Key, client: Client, since: nat)
    requires Effect(s, s', step) && HoldsHere(s.db, k, mb, client) && k in s'.db.messages
    requires !Harmful(s, step, mb, client, since)
    ensures HoldsHere(s'.db, k, mb, client) && s.db.messages[k].uid == s'.db.messages[k].uid
  {
    if s'.db.messages[k] != s.db.messages[k] { assert Changes(s, s', step, k); }
  }

  lemma OldIsThere(s: Sys, s': Sys, step: Step, k: Key)
    requires Effect(s, s', step) && k in s'.db.messages && k.id < s.db.nextId
    ensures k in s.db.messages
  {
    if k !in s.db.messages { assert Appears(s, s', step, k); }
  }

  lemma LateBefore(s: Sys, s': Sys, step: Step, k: Key, flags: seq<string>, n: nat, n': nat, mb: Key, client: Client,
                   since: nat)
    requires Followed(s, mb, client) && Effect(s, s', step) && !Harmful(s, step, mb, client, since)
    requires k.id < s.db.nextId && n <= n' && Late(s'.db, k, flags, n', mb, client, since)
    ensures Late(s.db, k, flags, n, mb, client, since)
  {
    OldIsThere(s, s', step, k);
    if HoldsHere(s.db, k, mb, client) { HeldAfter(s, s', step, k, mb, client, since); }
  }

  lemma StaysPut(s: Sys, s': Sys, step: Step, t: Task, mb: Key, client: Client, since: nat)
    requires Followed(s, mb, client) && Followed(s', mb, client) && Effect(s, s', step)
    requires !Harmful(s, step, mb, client, since) && TaskOk(s.db, t) && Straggles(s'.db, t, mb, client, since)
    ensures Straggles(s.db, t, mb, client, since)
  {
    match t
    case Flag(x, k, flags) =>
      LateBefore(s, s', step, k, flags, s.db.mailboxes[x].highestModSeq + 1, s'.db.mailboxes[x].highestModSeq + 1,
                 mb, client, since);
    case FlagStamp(_, k, flags, n) => LateBefore(s, s', step, k, flags, n, n, mb, client, since);
    case ShiftStamp(_, k, _, _) =>
      OldIsThere(s, s', step, k);
      if HoldsHere(s'.db, k, mb, client) { HeldBefore(s, s', step, k, mb, client); }
    case Shift(_, k) => HeldBefore(s, s', step, k, mb, client);
    case ShiftUid(_, k, _) => HeldBefore(s, s', step, k, mb, client);
    case Remove(_, k, _) => HeldBefore(s, s', step, k, mb, client);
    case RemoveStamp(_, k, _, _) => HeldBefore(s, s', step, k, mb, client);
    case CreateStamp(_, _, _, _) =>
  }

  /** Taking a number makes no straggler. */
  lemma AdvancedBefore(s: Sys, s': Sys, id: nat, t': Task, mb: Key, client: Client, since: nat)
    requires Ready(s, mb, client, since) && Effect(s, s', Advance(id)) && id in s.tasks
    requires Advanced(s.db, s.tasks[id], t') && Straggles(s'.db, t', mb, client, since)
    ensures Straggles(s.db, s.tasks[id], mb, client, since)
  {
    assert !s.tasks[id].RemoveStamp?;
    assert s'.db.messages == s.db.messages;
    LaterBefore(s.db, s.tasks[id], t', s'.db, mb, client, since);
  }

  lemma LaterBefore(db: Db, t: Task, t': Task, db': Db, mb: Key, client: Client, since: nat)
    requires Advanced(db, t, t') && db'.messages == db.messages && !t.RemoveStamp?
      && Straggles(db', t', mb, client, since)
    requires mb in db.mailboxes && since <= db.mailboxes[mb].highestModSeq
    ensures Straggles(db, t, mb, client, since)
  {
  }

  lemma StillBenign(s: Sys, s': Sys, step: Step, id: nat, mb: Key, client: Client, since: nat)
    requires Ready(s, mb, client, since) && Followed(s', mb, client) && Effect(s, s', step)
    requires !Harmful(s, step, mb, client, since) && id in s.tasks && id in s'.tasks
    requires !Straggles(s.db, s.tasks[id], mb, client, since)
    ensures !Straggles(s'.db, s'.tasks[id], mb, client, since)
  {
    if Straggles(s'.db, s'.tasks[id], mb, client, since) {
      if s'.tasks[id] == s.tasks[id] {
        StaysPut(s, s', step, s.tasks[id], mb, client, since);
      } else {
        AdvancedBefore(s, s', id, s'.tasks[id], mb, client, since);
      }
    }
  }

  lemma BenignIsHarmless(s: Sys, step: Step, mb: Key, client: Client, since: nat)
    requires Acts(s, step) && !Straggles(s.db, s.tasks[step.id], mb, client, since)
    ensures !Harmful(s, step, mb, client, since)
  {
  }

  lemma {:induction false} CalmIsUnharmed(s: Sys, steps: seq<Step>, old_: set<nat>, mb: Key, client: Client, since: nat)
    requires Ready(s, mb, client, since) && Calm(s, steps, old_, mb, client, since)
    requires forall id :: id in old_ ==> id in s.tasks && !Straggles(s.db, s.tasks[id], mb, client, since)
    ensures Unharmed(s, steps, mb, client, since)
    decreases |steps|
  {
    if steps != [] {
      var s', step := Next(s, steps[0]), steps[0];
      if Acts(s, step) && step.id in old_ { BenignIsHarmless(s, step, mb, client, since); }
      assert !Harmful(s, step, mb, client, since);
      StaysReady(s, step, mb, client, since);
      forall id | id in old_ * s'.tasks.Keys ensures !Straggles(s'.db, s'.tasks[id], mb, client, since) {
        StillBenign(s, s', step, id, mb, client, since);
      }
      CalmIsUnharmed(s', steps[1..], old_ * s'.tasks.Keys, mb, client, since);
    }
  }

  // ---- a straggler always can -----------------------------------------------------------------

  /** One more step in front of a calm run that ends in harm. */
  lemma InFront(s: Sys, step: Step, steps: seq<Step>, old_: set<nat>, mb: Key, client: Client, since: nat)
    requires Harmful(s, step, mb, client, since) ==> Acts(s, step) && step.id in old_
    requires Calm(Next(s, step), steps, old_ * Next(s, step).tasks.Keys, mb, client, since)
    requires !Unharmed(Next(s, step), steps, mb, client, since)
    ensures Calm(s, [step] + steps, old_, mb, client, since) && !Unharmed(s, [step] + steps, mb, client, since)
  {
    assert ([step] + steps)[1..] == steps;
  }

  lemma HarmNow(s: Sys, id: nat, old_: set<nat>, mb: Key, client: Client, since: nat)
    requires id in s.tasks && id in old_ && Harmful(s, Advance(id), mb, client, since)
    ensures Calm(s, [Advance(id)], old_, mb, client, since) && !Unharmed(s, [Advance(id)], mb, client, since)
  {
    assert [Advance(id)][1..] == [];
  }

  /** Calls left before the one that writes. */
  function Rank(t: Task): nat {
    if TakesUid(t) then 2 else if TakesModSeq(t) then 1 else 0
  }

  /** Taking a number leaves a straggler one. */
  lemma StillStraggles(s: Sys, id: nat, mb: Key, client: Client, since: nat)
    requires Ready(s, mb, client, since) && id in s.tasks && Rank(s.tasks[id]) > 0
    requires Straggles(s.db, s.tasks[id], mb, client, since)
    ensures var s' := Next(s, Advance(id));
            && id in s'.tasks && Rank(s'.tasks[id]) < Rank(s.tasks[id])
            && Straggles(s'.db, s'.tasks[id], mb, client, since)
  {
    assert TaskOk(s.db, s.tasks[id]);
  }

  lemma FreshId(tasks: map<nat, Task>) returns (id: nat)
    ensures id !in tasks
  {
    id := Above(tasks.Keys);
  }

  lemma {:induction false} Above(ids: set<nat>) returns (id: nat)
    ensures forall i :: i in ids ==> i < id
  {
    if ids == {} { return 0; }
    var x :| x in ids;
    var y := Above(ids - {x});
    id := if x < y then y else x + 1;
    forall i | i in ids ensures i < id {
      if i != x { assert i in ids - {x}; }
    }
  }

  /** On the way into the mailbox under a number the client has not seen. */
  predicate Entering(db: Db, t: Task, mb: Key, since: nat) {
    && (t.Shift? || t.ShiftUid? || (t.ShiftStamp? && t.modSeq > since)) && t.mb == mb
    && t.k in db.messages && !In(db, t.k, mb)
  }

  /** A numbered flag change on that document, below what the client has seen. */
  predicate Lagging(t: Task, k: Key, since: nat) {
    t.FlagStamp? && t.k == k && t.modSeq <= since
  }

  /** Task j is moving the document of the flag change `id` in. */
  predicate MovingIn(s: Sys, j: nat, id: nat, mb: Key, since: nat) {
    && j in s.tasks && id in s.tasks && j != id
    && Entering(s.db, s.tasks[j], mb, since) && Lagging(s.tasks[id], s.tasks[j].k, since)
  }

  /** A call that takes a number moves on its task, and changes no document. */
  lemma NumberTaken(s: Sys, j: nat)
    requires j in s.tasks && s.tasks[j].mb in s.db.mailboxes && Rank(s.tasks[j]) > 0
    ensures var s' := Next(s, Advance(j));
            && j in s'.tasks && s'.tasks == s.tasks[j := s'.tasks[j]] && s'.db.messages == s.db.messages
            && Advanced(s.db, s.tasks[j], s'.tasks[j])
  {
  }

  lemma EntersOn(db: Db, db': Db, t: Task, t': Task, mb: Key, since: nat)
    requires Entering(db, t, mb, since) && !t.ShiftStamp? && Advanced(db, t, t') && db'.messages == db.messages
    requires since <= db.mailboxes[mb].highestModSeq
    ensures Entering(db', t', mb, since) && t'.k == t.k && Rank(t') < Rank(t)
  {
  }

  lemma MovesOn(s: Sys, j: nat, id: nat, mb: Key, since: nat)
    requires MovingIn(s, j, id, mb, since) && !s.tasks[j].ShiftStamp?
    requires mb in s.db.mailboxes && since <= s.db.mailboxes[mb].highestModSeq
    ensures var s' := Next(s, Advance(j));
            MovingIn(s', j, id, mb, since) && Rank(s'.tasks[j]) < Rank(s.tasks[j]) && s'.tasks.Keys == s.tasks.Keys
  {
    var s' := Next(s, Advance(j));
    NumberTaken(s, j);
    EntersOn(s.db, s'.db, s.tasks[j], s'.tasks[j], mb, since);
    assert s'.tasks[id] == s.tasks[id];
  }

  lemma MovingIsHarmless(s: Sys, j: nat, id: nat, mb: Key, client: Client, since: nat)
    requires MovingIn(s, j, id, mb, since)
    ensures !Harmful(s, Advance(j), mb, client, since)
  {
  }

  lemma Lands(s: Sys, s': Sys, j: nat, id: nat, mb: Key, client: Client, since: nat)
    requires Followed(s, mb, client) && MovingIn(s, j, id, mb, since) && s.tasks[j].ShiftStamp?
      && Effect(s, s', Advance(j))
    ensures id in s'.tasks && s'.tasks[id] == s.tasks[id] && Spoils(s'.db, s.tasks[id], mb, client, since)
  {
    var t := s.tasks[j];
    assert TaskOk(s.db, t);
    HeldIsNew(s, j, mb, client);
    assert s'.db.messages[t.k] == s.db.messages[t.k].(mailbox := mb.id, uid := t.uid, modSeq := t.modSeq);
    assert In(s'.db, t.k, mb) && s'.tasks[id] == s.tasks[id];
  }

  lemma HarmsOnceLanded(s: Sys, j: nat, id: nat, old_: set<nat>, mb: Key, client: Client, since: nat)
    requires Ready(s, mb, client, since) && MovingIn(s, j, id, mb, since) && s.tasks[j].ShiftStamp? && id in old_
    ensures var steps := [Advance(j)] + [Advance(id)];
            Calm(s, steps, old_, mb, client, since) && !Unharmed(s, steps, mb, client, since)
  {
    var s' := Next(s, Advance(j));
    StaysReady(s, Advance(j), mb, client, since);
    Lands(s, s', j, id, mb, client, since);
    HarmNow(s', id, old_ * s'.tasks.Keys, mb, client, since);
    MovingIsHarmless(s, j, id, mb, client, since);
    InFront(s, Advance(j), [Advance(id)], old_, mb, client, since);
  }

  lemma MovesOnReady(s: Sys, j: nat, id: nat, old_: set<nat>, mb: Key, client: Client, since: nat) returns (s': Sys)
    requires Ready(s, mb, client, since) && MovingIn(s, j, id, mb, since) && !s.tasks[j].ShiftStamp?
      && old_ <= s.tasks.Keys
    ensures s' == Next(s, Advance(j)) && Ready(s', mb, client, since) && MovingIn(s', j, id, mb, since)
    ensures Rank(s'.tasks[j]) < Rank(s.tasks[j]) && old_ <= s'.tasks.Keys && old_ * s'.tasks.Keys == old_
    ensures !Harmful(s, Advance(j), mb, client, since)
  {
    s' := Next(s, Advance(j));
    MovesOn(s, j, id, mb, since);
    StaysReady(s, Advance(j), mb, client, since);
    MovingIsHarmless(s, j, id, mb, client, since);
  }

  lemma {:induction false} MovedInHarms(s: Sys, j: nat, id: nat, old_: set<nat>, mb: Key, client: Client, since: nat)
    returns (steps: seq<Step>)
    requires Ready(s, mb, client, since) && MovingIn(s, j, id, mb, since) && id in old_ && old_ <= s.tasks.Keys
    ensures Calm(s, steps, old_, mb, client, since) && !Unharmed(s, steps, mb, client, since)
    decreases Rank(s.tasks[j])
  {
    if s.tasks[j].ShiftStamp? {
      HarmsOnceLanded(s, j, id, old_, mb, client, since);
      return [Advance(j)] + [Advance(id)];
    }
    var s' := MovesOnReady(s, j, id, old_, mb, client, since);
    var more := MovedInHarms(s', j, id, old_, mb, client, since);
    steps := [Advance(j)] + more;
    InFront(s, Advance(j), more, old_, mb, client, since);
  }

  lemma BeginsMove(s: Sys, j: nat, id: nat, mb: Key, client: Client, since: nat)
    requires mb in s.db.mailboxes && j !in s.tasks && id in s.tasks && s.tasks[id].FlagStamp?
    requires Straggles(s.db, s.tasks[id], mb, client, since) && !In(s.db, s.tasks[id].k, mb)
    ensures var b := Begin(j, Shift(mb, s.tasks[id].k)); var s' := Next(s, b);
            && MovingIn(s', j, id, mb, since) && s'.tasks.Keys == s.tasks.Keys + {j}
            && !Harmful(s, b, mb, client, since)
  {
    assert CanBegin(s.db, Shift(mb, s.tasks[id].k));
  }

  lemma LateHarms(s: Sys, id: nat, old_: set<nat>, mb: Key, client: Client, since: nat) returns (steps: seq<Step>)
    requires Ready(s, mb, client, since) && id in s.tasks && id in old_ && old_ <= s.tasks.Keys
    requires s.tasks[id].FlagStamp? && Straggles(s.db, s.tasks[id], mb, client, since)
    ensures Calm(s, steps, old_, mb, client, since) && !Unharmed(s, steps, mb, client, since)
  {
    if In(s.db, s.tasks[id].k, mb) {
      steps := [Advance(id)];
      HarmNow(s, id, old_, mb, client, since);
      return;
    }
    var j := FreshId(s.tasks);
    var b := Begin(j, Shift(mb, s.tasks[id].k));
    BeginsMove(s, j, id, mb, client, since);
    StaysReady(s, b, mb, client, since);
    var more := MovedInHarms(Next(s, b), j, id, old_ * Next(s, b).tasks.Keys, mb, client, since);
    steps := [b] + more;
    InFront(s, b, more, old_, mb, client, since);
  }

  lemma {:induction false} StragglerHarms(s: Sys, id: nat, old_: set<nat>, mb: Key, client: Client, since: nat)
    returns (steps: seq<Step>)
    requires Ready(s, mb, client, since) && id in s.tasks && id in old_ && old_ <= s.tasks.Keys
    requires Straggles(s.db, s.tasks[id], mb, client, since)
    ensures Calm(s, steps, old_, mb, client, since) && !Unharmed(s, steps, mb, client, since)
    decreases Rank(s.tasks[id])
  {
    if s.tasks[id].FlagStamp? {
      steps := LateHarms(s, id, old_, mb, client, since);
    } else if Rank(s.tasks[id]) == 0 {
      steps := [Advance(id)];
      HarmNow(s, id, old_, mb, client, since);
    } else {
      var s' := Next(s, Advance(id));
      StillStraggles(s, id, mb, client, since);
      StaysReady(s, Advance(id), mb, client, since);
      var more := StragglerHarms(s', id, old_ * s'.tasks.Keys, mb, client, since);
      steps := [Advance(id)] + more;
      InFront(s, Advance(id), more, old_, mb, client, since);
    }
  }

  /** Resynchronising stays exact in every continuation in which only operations under way at the
      snapshot could do harm, if and only if none of them straggles. */
  lemma ExactIffNoStraggler(s: Sys, mb: Key, held: R.Box, since: nat)
    requires Settled(s, mb) && Shows(s.db, mb, held) && since <= held.highest
    ensures (forall steps :: Calm(s, steps, s.tasks.Keys, mb, R.View(held), since) ==>
               ExactAlong(s, steps, mb, R.View(held), since))
            <==> (forall id :: id in s.tasks ==> !Straggles(s.db, s.tasks[id], mb, R.View(held), since))
  {
    var client := R.View(held);
    SnapshotIsExact(s, mb, held, since);
    if forall id :: id in s.tasks ==> !Straggles(s.db, s.tasks[id], mb, client, since) {
      forall steps | Calm(s, steps, s.tasks.Keys, mb, client, since) ensures ExactAlong(s, steps, mb, client, since) {
        CalmIsUnharmed(s, steps, s.tasks.Keys, mb, client, since);
        InterleavedExactIff(s, steps, mb, held, since);
      }
    } else {
      var id :| id in s.tasks && Straggles(s.db, s.tasks[id], mb, client, since);
      var steps := StragglerHarms(s, id, s.tasks.Keys, mb, client, since);
      InterleavedExactIff(s, steps, mb, held, since);
    }
  }
}
