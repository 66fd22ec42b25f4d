/** Concurrent store operations, interleaved call by call.

    A task is one operation between two of its database calls; the calls on body objects and
    counts are not steps here, since they touch neither counters nor documents. Any task may be
    abandoned at any point: a failed call or a crash. */
module Interleaving {
  import opened Database
  import opened StoreResync

  datatype Task =
    | Create(mb: Key, m: Message)                                   // append or copy, before NextUID
    | CreateUid(mb: Key, m: Message, uid: nat)
    | CreateStamp(mb: Key, m: Message, uid: nat, modSeq: nat)
    | Shift(mb: Key, k: Key)                                        // move into mb, before NextUID
    | ShiftUid(mb: Key, k: Key, uid: nat)
    | ShiftStamp(mb: Key, k: Key, uid: nat, modSeq: nat)
    | Flag(mb: Key, k: Key, flags: seq<string>)                     // modifyFlags, before NextModSeq
    | FlagStamp(mb: Key, k: Key, flags: seq<string>, modSeq: nat)
    | Remove(mb: Key, k: Key, gone: nat)                            // delete, before NextModSeq
    | RemoveStamp(mb: Key, k: Key, gone: nat, modSeq: nat)
    | RemoveLog(mb: Key, gone: nat, modSeq: nat)                    // document gone, log row to come

  datatype Grant = Grant(mb: Key, n: nat)

  /** The store, the operations in flight, and every UID and mod-sequence handed out so far. */
  datatype Sys = Sys(db: Db, tasks: map<nat, Task>, uids: seq<Grant>, modSeqs: seq<Grant>)

  datatype Step = Begin(id: nat, t: Task) | Advance(id: nat) | Abandon(id: nat)

  /** What the reads that open an operation establish. */
  predicate CanBegin(db: Db, t: Task) {
    match t
    case Create(mb, _) => mb in db.mailboxes
    case Shift(mb, k) => k in db.messages && k.account == mb.account && Home(db, k) != mb && mb in db.mailboxes
    case Flag(mb, k, _) => In(db, k, mb) && mb in db.mailboxes
    case Remove(mb, k, gone) => In(db, k, mb) && mb in db.mailboxes && db.messages[k].uid == gone
    case _ => false
  }

  predicate HoldsUid(t: Task) {
    t.CreateUid? || t.CreateStamp? || t.ShiftUid? || t.ShiftStamp?
  }

  predicate HoldsModSeq(t: Task) {
    t.CreateStamp? || t.ShiftStamp? || t.FlagStamp? || t.RemoveStamp? || t.RemoveLog?
  }

  /** Works on a document that was there when it began. */
  predicate About(t: Task) {
    t.Shift? || t.ShiftUid? || t.ShiftStamp? || t.Flag? || t.FlagStamp? || t.Remove? || t.RemoveStamp?
  }

  function TakeUid(s: Sys, id: nat, mb: Key, t: Task): Sys
    requires mb in s.db.mailboxes
  {
    s.(db := BumpUid(s.db, mb), tasks := s.tasks[id := t], uids := s.uids + [Grant(mb, s.db.mailboxes[mb].uidNext)])
  }

  function TakeModSeq(s: Sys, id: nat, mb: Key, t: Task): Sys
    requires mb in s.db.mailboxes
  {
    s.(db := BumpModSeq(s.db, mb), tasks := s.tasks[id := t],
       modSeqs := s.modSeqs + [Grant(mb, s.db.mailboxes[mb].highestModSeq + 1)])
  }

  function Finish(s: Sys, id: nat, db: Db): Sys {
    s.(db := db, tasks := s.tasks - {id})
  }

  predicate TakesUid(t: Task) {
    t.Create? || t.Shift?
  }

  predicate TakesModSeq(t: Task) {
    t.CreateUid? || t.ShiftUid? || t.Flag? || t.Remove?
  }

  /** The task once it has taken the number `n`, or removed its document. */
  function Later(t: Task, n: nat): Task {
    match t
    case Create(mb, m) => CreateUid(mb, m, n)
    case CreateUid(mb, m, uid) => CreateStamp(mb, m, uid, n)
    case Shift(mb, k) => ShiftUid(mb, k, n)
    case ShiftUid(mb, k, uid) => ShiftStamp(mb, k, uid, n)
    case Flag(mb, k, flags) => FlagStamp(mb, k, flags, n)
    case Remove(mb, k, gone) => RemoveStamp(mb, k, gone, n)
    case RemoveStamp(mb, _, gone, modSeq) => RemoveLog(mb, gone, modSeq)
    case _ => t
  }

  /** The calls that write documents and log rows. */
  function Write(s: Sys, id: nat, t: Task): Sys {
    var db := s.db;
    match t
    case CreateStamp(mb, m, uid, modSeq) =>
      Finish(s, id, InsertMessage(db, mb.account, m.(mailbox := mb.id, uid := uid, modSeq := modSeq)))
    case ShiftStamp(mb, k, uid, modSeq) =>
      if k !in db.messages then Finish(s, id, db)
      else Finish(s, id, SetMessage(db, k, db.messages[k].(mailbox := mb.id, uid := uid, modSeq := modSeq)))
    case FlagStamp(mb, k, flags, modSeq) =>
      if k !in db.messages then Finish(s, id, db)
      else Finish(s, id, SetMessage(db, k, db.messages[k].(flags := flags, modSeq := modSeq)))
    case RemoveStamp(_, k, _, _) => s.(db := RemoveMessage(db, k), tasks := s.tasks[id := Later(t, 0)])
    case RemoveLog(mb, gone, modSeq) => Finish(s, id, LogExpunge(db, ExpungeRecord(mb, gone, modSeq)))
    case _ => s
  }

  /** The next database call of a task. */
  function Call(s: Sys, id: nat): Sys
    requires id in s.tasks
  {
    var t := s.tasks[id];
    if t.mb !in s.db.mailboxes then Finish(s, id, s.db)
    else if TakesUid(t) then TakeUid(s, id, t.mb, Later(t, s.db.mailboxes[t.mb].uidNext))
    else if TakesModSeq(t) then TakeModSeq(s, id, t.mb, Later(t, s.db.mailboxes[t.mb].highestModSeq + 1))
    else Write(s, id, t)
  }

  function Next(s: Sys, step: Step): Sys {
    match step
    case Begin(id, t) => if id !in s.tasks && CanBegin(s.db, t) then s.(tasks := s.tasks[id := t]) else s
    case Advance(id) => if id in s.tasks then Call(s, id) else s
    case Abandon(id) => s.(tasks := s.tasks - {id})
  }

  function Run(s: Sys, steps: seq<Step>): Sys
    decreases |steps|
  {
    if steps == [] then s else Run(Next(s, steps[0]), steps[1..])
  }

  // ---- allocation -----------------------------------------------------------------------------

  ghost predicate Live(db: Db, mb: Key, uid: nat) {
    exists k :: In(db, k, mb) && db.messages[k].uid == uid
  }

  ghost predicate Held(s: Sys, mb: Key, uid: nat) {
    exists id :: id in s.tasks && HoldsUid(s.tasks[id]) && s.tasks[id].mb == mb && s.tasks[id].uid == uid
  }

  /** Handed out per mailbox in strictly increasing order, so at most once. */
  ghost predicate Increasing(grants: seq<Grant>) {
    forall i, j :: 0 <= i < j < |grants| && grants[i].mb == grants[j].mb ==> grants[i].n < grants[j].n
  }

  ghost predicate Inv(s: Sys) {
    && Orderly(s.db)
    && Increasing(s.uids) && (forall g :: g in s.uids && g.mb in s.db.mailboxes ==> g.n < s.db.mailboxes[g.mb].uidNext)
    && Increasing(s.modSeqs)
      && (forall g :: g in s.modSeqs && g.mb in s.db.mailboxes ==> g.n <= s.db.mailboxes[g.mb].highestModSeq)
    && (forall id :: id in s.tasks ==> TaskOk(s.db, s.tasks[id]))
    && (forall i, j :: (i in s.tasks && j in s.tasks && i != j && HoldsUid(s.tasks[i]) && HoldsUid(s.tasks[j])
                        && s.tasks[i].mb == s.tasks[j].mb) ==> s.tasks[i].uid != s.tasks[j].uid)
  }

  ghost predicate TaskOk(db: Db, t: Task) {
    && t.mb.id < db.nextId && t.mb in db.mailboxes
    && (t.Shift? || t.ShiftUid? || t.ShiftStamp? ==> t.k.account == t.mb.account)
    && (HoldsUid(t) ==> t.uid < db.mailboxes[t.mb].uidNext && !Live(db, t.mb, t.uid))
    && (HoldsModSeq(t) ==> t.modSeq > 0)
    && (About(t) ==> t.k.id < db.nextId)
  }

  lemma TakeUidKeepsInv(s: Sys, id: nat, mb: Key, t: Task)
    requires Inv(s) && id in s.tasks && mb in s.db.mailboxes && !HoldsUid(s.tasks[id]) && s.tasks[id].mb == mb == t.mb
    requires (t.CreateUid? || (t.ShiftUid? && t.k.account == mb.account)) && t.uid == s.db.mailboxes[mb].uidNext
    requires About(t) ==> About(s.tasks[id]) && t.k == s.tasks[id].k
    ensures Inv(TakeUid(s, id, mb, t))
  {
    var s' := TakeUid(s, id, mb, t);
    assert forall k :: k in s'.db.messages ==> Home(s'.db, k) == Home(s.db, k);
    forall j | j in s'.tasks ensures TaskOk(s'.db, s'.tasks[j]) {
      if j != id { assert TaskOk(s.db, s.tasks[j]); }
    }
  }

  lemma TakeModSeqKeepsInv(s: Sys, id: nat, mb: Key, t: Task)
    requires Inv(s) && id in s.tasks && mb in s.db.mailboxes && s.tasks[id].mb == mb == t.mb
    requires HoldsUid(t) == HoldsUid(s.tasks[id]) && (HoldsUid(t) ==> t.uid == s.tasks[id].uid)
    requires t.Shift? || t.ShiftUid? || t.ShiftStamp? ==> t.k.account == mb.account
    requires HoldsModSeq(t) && t.modSeq > 0 && (About(t) ==> About(s.tasks[id]) && t.k == s.tasks[id].k)
    ensures Inv(TakeModSeq(s, id, mb, t))
  {
    var s' := TakeModSeq(s, id, mb, t);
    assert forall k :: k in s'.db.messages ==> Home(s'.db, k) == Home(s.db, k);
    forall j | j in s'.tasks ensures TaskOk(s'.db, s'.tasks[j]) {
      assert TaskOk(s.db, s.tasks[j]);
    }
  }

  /** Writing a document under a held UID: the insert of a create, or the update of a move. */
  lemma PlaceKeepsInv(s: Sys, id: nat, k: Key, db: Db)
    requires Inv(s) && id in s.tasks && HoldsUid(s.tasks[id]) && k in db.messages && db.nextId >= s.db.nextId
    requires db == s.db.(messages := s.db.messages[k := db.messages[k]], nextId := db.nextId) && k.id < db.nextId
    requires Home(db, k) == s.tasks[id].mb && db.messages[k].uid == s.tasks[id].uid
    ensures Inv(Finish(s, id, db))
  {
    var s', t := Finish(s, id, db), s.tasks[id];
    assert TaskOk(s.db, t);
    assert forall j :: j in db.messages && j != k ==>
      j in s.db.messages && Home(db, j) == Home(s.db, j) && db.messages[j] == s.db.messages[j];
    forall j | j in db.messages && j != k && Home(db, j) == Home(db, k)
      ensures db.messages[j].uid != db.messages[k].uid
    {
      assert In(s.db, j, t.mb);
    }
    assert Orderly(db);
    forall j | j in s'.tasks ensures TaskOk(db, s'.tasks[j]) {
      assert TaskOk(s.db, s.tasks[j]);
      if HoldsUid(s.tasks[j]) && Live(db, s.tasks[j].mb, s.tasks[j].uid) {
        var i :| In(db, i, s.tasks[j].mb) && db.messages[i].uid == s.tasks[j].uid;
        if i != k { assert In(s.db, i, s.tasks[j].mb); }
      }
    }
  }

  /** Any other change of documents: same mailboxes and UIDs, or fewer of them. */
  lemma ThinKeepsInv(s: Sys, s': Sys)
    requires Inv(s) && s'.uids == s.uids && s'.modSeqs == s.modSeqs
    requires s'.db.mailboxes == s.db.mailboxes && s'.db.nextId == s.db.nextId
      && s'.db.messages.Keys <= s.db.messages.Keys
    requires forall k :: k in s'.db.messages ==>
      Home(s'.db, k) == Home(s.db, k) && s'.db.messages[k].uid == s.db.messages[k].uid
    requires forall r :: r in s'.db.expunged ==> r.mailbox.id < s.db.nextId
    requires forall id :: id in s'.tasks ==>
      id in s.tasks
        && (s'.tasks[id] == s.tasks[id]
            || (s'.tasks[id].RemoveLog? && s'.tasks[id].mb == s.tasks[id].mb && s'.tasks[id].modSeq > 0))
    ensures Inv(s')
  {
    assert Orderly(s'.db);
    forall j | j in s'.tasks ensures TaskOk(s'.db, s'.tasks[j]) {
      assert TaskOk(s.db, s.tasks[j]);
      if HoldsUid(s'.tasks[j]) && Live(s'.db, s'.tasks[j].mb, s'.tasks[j].uid) {
        var i :| In(s'.db, i, s'.tasks[j].mb) && s'.db.messages[i].uid == s'.tasks[j].uid;
        assert In(s.db, i, s.tasks[j].mb);
      }
    }
  }

  lemma WriteKeepsInv(s: Sys, id: nat, t: Task)
    requires Inv(s) && id in s.tasks && t == s.tasks[id]
    ensures Inv(Write(s, id, t))
  {
    var s' := Write(s, id, t);
    assert TaskOk(s.db, t);
    match t
    case CreateStamp(mb, _, _, _) => PlaceKeepsInv(s, id, Key(mb.account, s.db.nextId), s'.db);
    case ShiftStamp(_, k, _, _) =>
      if k in s.db.messages { PlaceKeepsInv(s, id, k, s'.db); } else { ThinKeepsInv(s, s'); }
    case FlagStamp(_, _, _, _) => ThinKeepsInv(s, s');
    case RemoveStamp(_, _, _, _) => ThinKeepsInv(s, s');
    case RemoveLog(_, _, _) => ThinKeepsInv(s, s');
    case _ =>
  }

  lemma CallKeepsInv(s: Sys, id: nat)
    requires Inv(s) && id in s.tasks
    ensures Inv(Call(s, id))
  {
    var t := s.tasks[id];
    assert TaskOk(s.db, t);
    if TakesUid(t) {
      var t' := Later(t, s.db.mailboxes[t.mb].uidNext);
      TakeUidKeepsInv(s, id, t.mb, t');
      assert Call(s, id) == TakeUid(s, id, t.mb, t');
    } else if TakesModSeq(t) {
      var t' := Later(t, s.db.mailboxes[t.mb].highestModSeq + 1);
      TakeModSeqKeepsInv(s, id, t.mb, t');
      assert Call(s, id) == TakeModSeq(s, id, t.mb, t');
    } else {
      WriteKeepsInv(s, id, t);
      assert Call(s, id) == Write(s, id, t);
    }
  }

  lemma NextKeepsInv(s: Sys, step: Step)
    requires Inv(s)
    ensures Inv(Next(s, step))
  {
    match step
    case Begin(id, t) =>
    case Advance(id) => if id in s.tasks { CallKeepsInv(s, id); }
    case Abandon(id) => ThinKeepsInv(s, Next(s, step));
  }

  /** Under every interleaving: UIDs and mod-sequences are handed out once and in order, no two
      live messages of a mailbox share a UID, and every live UID is below uidnext. */
  lemma {:induction false} InvInEveryRun(s: Sys, steps: seq<Step>)
    requires Inv(s)
    ensures Inv(Run(s, steps))
    decreases |steps|
  {
    if steps != [] {
      NextKeepsInv(s, steps[0]);
      InvInEveryRun(Next(s, steps[0]), steps[1..]);
    }
  }

  // ---- what one step can do -------------------------------------------------------------------

  predicate Acts(s: Sys, step: Step) {
    step.Advance? && step.id in s.tasks
  }

  ghost predicate CountersUp(db: Db, db': Db) {
    && db'.mailboxes.Keys == db.mailboxes.Keys && db'.nextId >= db.nextId
    && forall mb :: mb in db.mailboxes ==> db'.mailboxes[mb].uidNext >= db.mailboxes[mb].uidNext
                                           && db'.mailboxes[mb].highestModSeq >= db.mailboxes[mb].highestModSeq
  }

  /** A document appears under the numbers a create holds. */
  ghost predicate Appears(s: Sys, s': Sys, step: Step, k: Key)
    requires k in s'.db.messages
  {
    Acts(s, step) && var t, m := s.tasks[step.id], s'.db.messages[k];
      t.CreateStamp? && k.id >= s.db.nextId && Home(s'.db, k) == t.mb && m.uid == t.uid && m.modSeq == t.modSeq
  }

  /** A document is rewritten by a move or by a flag change. */
  ghost predicate Changes(s: Sys, s': Sys, step: Step, k: Key)
    requires k in s.db.messages && k in s'.db.messages
  {
    Acts(s, step) && var t, m, m' := s.tasks[step.id], s.db.messages[k], s'.db.messages[k];
      || (t.ShiftStamp? && t.k == k && m' == m.(mailbox := t.mb.id, uid := t.uid, modSeq := t.modSeq))
      || (t.FlagStamp? && t.k == k && m' == m.(flags := t.flags, modSeq := t.modSeq))
  }

  /** A document goes by a delete that now owes its log row. */
  ghost predicate Goes(s: Sys, s': Sys, step: Step, k: Key) {
    Acts(s, step) && var t := s.tasks[step.id];
      t.RemoveStamp? && t.k == k && step.id in s'.tasks && s'.tasks[step.id] == RemoveLog(t.mb, t.gone, t.modSeq)
  }

  ghost predicate Documents(s: Sys, s': Sys, step: Step) {
    && (forall k :: k in s'.db.messages && k !in s.db.messages ==> Appears(s, s', step, k))
    && (forall k :: k in s.db.messages && k !in s'.db.messages ==> Goes(s, s', step, k))
    && (forall k :: k in s.db.messages && k in s'.db.messages && s'.db.messages[k] != s.db.messages[k] ==>
          Changes(s, s', step, k))
  }

  ghost predicate LogGrows(s: Sys, s': Sys, step: Step) {
    && (forall r :: r in s.db.expunged ==> r in s'.db.expunged)
    && (forall r :: r in s'.db.expunged && r !in s.db.expunged ==>
          Acts(s, step) && s.tasks[step.id] == RemoveLog(r.mailbox, r.uid, r.modSeq))
  }

  /** What the advanced task has done. */
  ghost predicate Done(s: Sys, s': Sys, step: Step) {
    Acts(s, step) && s.tasks[step.id].mb in s.db.mailboxes ==> Written(s.db, s'.db, s.tasks[step.id])
  }

  predicate Written(db: Db, db': Db, t: Task) {
    match t
    case CreateStamp(mb, _, uid, modSeq) =>
      var k := Key(mb.account, db.nextId);
      In(db', k, mb) && db'.messages[k].uid == uid && db'.messages[k].modSeq == modSeq
    case ShiftStamp(mb, k, uid, modSeq) =>
      k in db.messages ==> k in db'.messages
                           && db'.messages[k] == db.messages[k].(mailbox := mb.id, uid := uid, modSeq := modSeq)
    case FlagStamp(_, k, flags, modSeq) =>
      k in db.messages ==> k in db'.messages && db'.messages[k] == db.messages[k].(flags := flags, modSeq := modSeq)
    case RemoveStamp(_, k, _, _) => k !in db'.messages
    case RemoveLog(mb, gone, modSeq) => ExpungeRecord(mb, gone, modSeq) in db'.expunged
    case _ => db'.messages == db.messages && db'.expunged == db.expunged
  }

  predicate Advanced(db: Db, t: Task, t': Task) {
    && t.mb in db.mailboxes
    && (|| (TakesUid(t) && t' == Later(t, db.mailboxes[t.mb].uidNext))
        || (TakesModSeq(t) && t' == Later(t, db.mailboxes[t.mb].highestModSeq + 1))
        || (t.RemoveStamp? && t' == Later(t, 0)))
  }

  ghost predicate Tasks(s: Sys, s': Sys, step: Step) {
    && (forall id :: id in s'.tasks ==>
          || (id in s.tasks && s'.tasks[id] == s.tasks[id])
          || (step == Begin(id, s'.tasks[id]) && id !in s.tasks && CanBegin(s.db, s'.tasks[id]))
          || (step == Advance(id) && id in s.tasks && Advanced(s.db, s.tasks[id], s'.tasks[id])))
    && (forall id :: id in s.tasks && id !in s'.tasks ==> step == Advance(id) || step == Abandon(id))
    && (step.Abandon? ==> step.id !in s'.tasks)
  }

  /** Every change a step makes, by kind. */
  ghost predicate Effect(s: Sys, s': Sys, step: Step) {
    CountersUp(s.db, s'.db) && Documents(s, s', step) && LogGrows(s, s', step) && Done(s, s', step)
      && Tasks(s, s', step)
  }

  lemma WriteEffect(s: Sys, id: nat, t: Task)
    requires IdsFresh(s.db) && id in s.tasks && t == s.tasks[id] && t.mb in s.db.mailboxes && !TakesUid(t)
      && !TakesModSeq(t)
    ensures Effect(s, Write(s, id, t), Advance(id))
  {
    match t
    case CreateStamp(_, _, _, _) => WriteCreates(s, id, t);
    case ShiftStamp(_, _, _, _) =>
    case FlagStamp(_, _, _, _) =>
    case RemoveStamp(_, _, _, _) =>
    case RemoveLog(mb, gone, modSeq) =>
      assert Write(s, id, t).db.expunged == s.db.expunged + [ExpungeRecord(mb, gone, modSeq)];
  }

  lemma WriteCreates(s: Sys, id: nat, t: Task)
    requires IdsFresh(s.db) && id in s.tasks && t == s.tasks[id] && t.CreateStamp?
    ensures Effect(s, Write(s, id, t), Advance(id))
  {
  }

  lemma TakeUidEffect(s: Sys, id: nat, t: Task)
    requires id in s.tasks && t == s.tasks[id] && t.mb in s.db.mailboxes && TakesUid(t)
    ensures Effect(s, TakeUid(s, id, t.mb, Later(t, s.db.mailboxes[t.mb].uidNext)), Advance(id))
  {
  }

  lemma TakeModSeqEffect(s: Sys, id: nat, t: Task)
    requires id in s.tasks && t == s.tasks[id] && t.mb in s.db.mailboxes && TakesModSeq(t)
    ensures Effect(s, TakeModSeq(s, id, t.mb, Later(t, s.db.mailboxes[t.mb].highestModSeq + 1)), Advance(id))
  {
  }

  lemma CallEffect(s: Sys, id: nat)
    requires IdsFresh(s.db) && id in s.tasks
    ensures Effect(s, Call(s, id), Advance(id))
  {
    var t := s.tasks[id];
    if t.mb !in s.db.mailboxes {
    } else if TakesUid(t) {
      assert Call(s, id) == TakeUid(s, id, t.mb, Later(t, s.db.mailboxes[t.mb].uidNext));
      TakeUidEffect(s, id, t);
    } else if TakesModSeq(t) {
      assert Call(s, id) == TakeModSeq(s, id, t.mb, Later(t, s.db.mailboxes[t.mb].highestModSeq + 1));
      TakeModSeqEffect(s, id, t);
    } else {
      assert Call(s, id) == Write(s, id, t);
      WriteEffect(s, id, t);
    }
  }

  lemma NextEffect(s: Sys, step: Step)
    requires IdsFresh(s.db)
    ensures Effect(s, Next(s, step), step)
  {
    if Acts(s, step) { CallEffect(s, step.id); }
  }

  // ---- a UID is never reused ------------------------------------------------------------------

  /** Already handed out, and held by no task: it can only be live where it is, or dead. */
  ghost predicate Spent(s: Sys, mb: Key, uid: nat) {
    mb in s.db.mailboxes && uid < s.db.mailboxes[mb].uidNext && !Held(s, mb, uid)
  }

  /** A UID newly held by a task has just been taken from uidnext. */
  lemma HeldComesFromCounter(s: Sys, s': Sys, step: Step, mb: Key, uid: nat)
    requires Tasks(s, s', step) && Spent(s, mb, uid)
    ensures !Held(s', mb, uid)
  {
    forall id | id in s'.tasks && HoldsUid(s'.tasks[id]) && s'.tasks[id].mb == mb ensures s'.tasks[id].uid != uid {
      if id in s.tasks && HoldsUid(s.tasks[id]) {
        assert s'.tasks[id].mb == s.tasks[id].mb && s'.tasks[id].uid == s.tasks[id].uid;
      }
    }
  }

  /** A UID newly live was held by the task that wrote it. */
  lemma LiveComesFromHeld(s: Sys, s': Sys, step: Step, mb: Key, uid: nat)
    requires Inv(s) && Documents(s, s', step) && !Held(s, mb, uid) && !Live(s.db, mb, uid)
    ensures !Live(s'.db, mb, uid)
  {
    var db, db' := s.db, s'.db;
    forall k | In(db', k, mb) ensures db'.messages[k].uid != uid {
      if k in db.messages && Home(db', k) == Home(db, k) && db'.messages[k].uid == db.messages[k].uid {
        assert In(db, k, mb);
      } else {
        var t := s.tasks[step.id];
        assert TaskOk(db, t);
        assert HoldsUid(t) && t.mb == mb && t.uid == db'.messages[k].uid;
      }
    }
  }

  lemma EffectKeepsSpent(s: Sys, s': Sys, step: Step, mb: Key, uid: nat)
    requires Inv(s) && Spent(s, mb, uid) && Effect(s, s', step)
    ensures Spent(s', mb, uid) && (!Live(s.db, mb, uid) ==> !Live(s'.db, mb, uid))
  {
    HeldComesFromCounter(s, s', step, mb, uid);
    if !Live(s.db, mb, uid) { LiveComesFromHeld(s, s', step, mb, uid); }
  }

  lemma {:induction false} RunKeepsSpent(s: Sys, steps: seq<Step>, mb: Key, uid: nat)
    requires Inv(s) && Spent(s, mb, uid)
    ensures Inv(Run(s, steps)) && Spent(Run(s, steps), mb, uid)
    ensures !Live(s.db, mb, uid) ==> !Live(Run(s, steps).db, mb, uid)
    decreases |steps|
  {
    if steps != [] {
      NextKeepsInv(s, steps[0]);
      NextEffect(s, steps[0]);
      EffectKeepsSpent(s, Next(s, steps[0]), steps[0], mb, uid);
      RunKeepsSpent(Next(s, steps[0]), steps[1..], mb, uid);
    }
  }

  lemma LiveIsSpent(s: Sys, mb: Key, uid: nat)
    requires Inv(s) && Live(s.db, mb, uid)
    ensures Spent(s, mb, uid)
  {
    var k :| In(s.db, k, mb) && s.db.messages[k].uid == uid;
    assert Home(s.db, k) in s.db.mailboxes;
    if Held(s, mb, uid) {
      var id :| id in s.tasks && HoldsUid(s.tasks[id]) && s.tasks[id].mb == mb && s.tasks[id].uid == uid;
      assert TaskOk(s.db, s.tasks[id]);
    }
  }

  /** Once live and then gone, a UID never names a message of that mailbox again. */
  lemma UidNeverReused(s: Sys, steps: seq<Step>, more: seq<Step>, mb: Key, uid: nat)
    requires Inv(s) && Live(s.db, mb, uid)
    requires !Live(Run(s, steps).db, mb, uid)
    ensures !Live(Run(Run(s, steps), more).db, mb, uid)
  {
    LiveIsSpent(s, mb, uid);
    RunKeepsSpent(s, steps, mb, uid);
    RunKeepsSpent(Run(s, steps), more, mb, uid);
  }
}
