/** Resynchronisation of one mailbox when operations interleave call by call, moves included.

    The client holds a snapshot and the mod-sequence it believes it has seen. A number is taken before
    the document that carries it is written, a move logs nothing, and an operation goes on under the
    mailbox it began in, wherever its document is by now. So some single calls leave the client with
    something it will never be told. The module says exactly which: resynchronising is exact all along
    a run if and only if no step of the run is one of them. */
module InterleavedResync {
  import opened Database
  import opened StoreResync
  import opened Interleaving
  import R = Resync

  type Client = map<nat, seq<string>>

  // ---- the calls that spoil it ----------------------------------------------------------------

  /** A document of the mailbox that the client holds. */
  predicate HoldsHere(db: Db, k: Key, mb: Key, client: Client) {
    In(db, k, mb) && db.messages[k].uid in client
  }

  /** The call this task is about to make leaves the client with something it is not told:
      - a message or a move in below what it has seen,
      - a held message moved, which logs nothing,
      - flags it does not have, stamped below what it has seen,
      - a held message deleted without a row for it above what it has seen. */
  predicate Spoils(db: Db, t: Task, mb: Key, client: Client, since: nat) {
    match t
    case CreateStamp(x, _, _, n) => x == mb && n <= since
    case ShiftStamp(x, k, _, n) => k in db.messages && ((x == mb && n <= since) || HoldsHere(db, k, mb, client))
    case FlagStamp(_, k, flags, n) =>
      In(db, k, mb) && n <= since && !(HoldsHere(db, k, mb, client) && client[db.messages[k].uid] == flags)
    case RemoveStamp(x, k, gone, n) =>
      HoldsHere(db, k, mb, client) && !(x == mb && gone == db.messages[k].uid && n > since)
    case _ => false
  }

  /** Between the removal of a document and its row in the log. */
  predicate Owes(t: Task, mb: Key, since: nat) {
    t.RemoveLog? && t.mb == mb && t.modSeq > since
  }

  ghost predicate Logged(db: Db, mb: Key, uid: nat, since: nat) {
    exists r :: r in db.expunged && r.mailbox == mb && r.uid == uid && r.modSeq > since
  }

  ghost predicate Logging(s: Sys, mb: Key, uid: nat, since: nat) {
    exists id :: id in s.tasks && Owes(s.tasks[id], mb, since) && s.tasks[id].gone == uid
  }

  /** A delete is given up before its row, and nothing else will tell the client. */
  ghost predicate LosesRow(s: Sys, step: Step, mb: Key, client: Client, since: nat) {
    && step.Abandon? && step.id in s.tasks && Owes(s.tasks[step.id], mb, since)
    && var u := s.tasks[step.id].gone;
       && u in client && !Logged(s.db, mb, u, since)
       && forall id :: id in s.tasks && id != step.id && Owes(s.tasks[id], mb, since) ==> s.tasks[id].gone != u
  }

  ghost predicate Harmful(s: Sys, step: Step, mb: Key, client: Client, since: nat) {
    (Acts(s, step) && Spoils(s.db, s.tasks[step.id], mb, client, since)) || LosesRow(s, step, mb, client, since)
  }

  // ---- what every run keeps -------------------------------------------------------------------

  ghost predicate Dead(s: Sys, mb: Key, uid: nat) {
    Spent(s, mb, uid) && !Live(s.db, mb, uid)
  }

  /** The UID a delete of the mailbox is about is that of its document, or dead. */
  ghost predicate Rightful(s: Sys, t: Task, mb: Key) {
    && (t.mb == mb && (t.Remove? || t.RemoveStamp?) ==>
          Spent(s, mb, t.gone) && forall k :: In(s.db, k, mb) && s.db.messages[k].uid == t.gone ==> k == t.k)
    && (t.mb == mb && t.RemoveLog? ==> Dead(s, mb, t.gone))
  }

  ghost predicate Settled(s: Sys, mb: Key) {
    && Inv(s) && mb in s.db.mailboxes
    && (forall id :: id in s.tasks ==> Rightful(s, s.tasks[id], mb))
    && (forall r :: r in s.db.expunged && r.mailbox == mb ==> Dead(s, mb, r.uid))
  }

  /** A document with a UID that no task holds had it before. */
  lemma HadIt(s: Sys, s': Sys, step: Step, k: Key, mb: Key)
    requires Inv(s) && Documents(s, s', step) && In(s'.db, k, mb) && Spent(s, mb, s'.db.messages[k].uid)
    ensures In(s.db, k, mb) && s.db.messages[k].uid == s'.db.messages[k].uid
  {
    if k !in s.db.messages {
      assert Appears(s, s', step, k);
    } else if s'.db.messages[k] != s.db.messages[k] {
      assert Changes(s, s', step, k) && TaskOk(s.db, s.tasks[step.id]);
    }
  }

  lemma RightfulStays(s: Sys, s': Sys, step: Step, t: Task, mb: Key)
    requires Settled(s, mb) && Effect(s, s', step) && Rightful(s, t, mb)
    ensures Rightful(s', t, mb)
  {
    if t.mb == mb && (t.Remove? || t.RemoveStamp? || t.RemoveLog?) {
      EffectKeepsSpent(s, s', step, mb, t.gone);
      if !t.RemoveLog? {
        forall k | In(s'.db, k, mb) && s'.db.messages[k].uid == t.gone ensures k == t.k {
          HadIt(s, s', step, k, mb);
        }
      }
    }
  }

  lemma BegunIsRightful(s: Sys, t: Task, mb: Key)
    requires Settled(s, mb) && CanBegin(s.db, t)
    ensures Rightful(s, t, mb)
  {
    if t.Remove? && t.mb == mb {
      LiveIsSpent(s, mb, t.gone);
      forall k | In(s.db, k, mb) && s.db.messages[k].uid == t.gone ensures k == t.k {
        assert Home(s.db, k) == Home(s.db, t.k);
      }
    }
  }

  lemma LaterIsRightful(s: Sys, t: Task, t': Task, mb: Key, before: Db)
    requires Rightful(s, t, mb) && Advanced(before, t, t') && (t.RemoveStamp? ==> t.k !in s.db.messages)
    ensures Rightful(s, t', mb)
  {
  }

  lemma TaskStaysRightful(s: Sys, s': Sys, step: Step, id: nat, mb: Key)
    requires Settled(s, mb) && Effect(s, s', step) && id in s'.tasks
    ensures Rightful(s', s'.tasks[id], mb)
  {
    if id in s.tasks {
      RightfulStays(s, s', step, s.tasks[id], mb);
      if s'.tasks[id] != s.tasks[id] { LaterIsRightful(s', s.tasks[id], s'.tasks[id], mb, s.db); }
    } else {
      BegunIsRightful(s, s'.tasks[id], mb);
      RightfulStays(s, s', step, s'.tasks[id], mb);
    }
  }

  lemma RowStaysDead(s: Sys, s': Sys, step: Step, r: ExpungeRecord, mb: Key)
    requires Settled(s, mb) && Effect(s, s', step) && r in s'.db.expunged && r.mailbox == mb
    ensures Dead(s', mb, r.uid)
  {
    if r !in s.db.expunged {
      assert Rightful(s, s.tasks[step.id], mb);
    }
    EffectKeepsSpent(s, s', step, mb, r.uid);
  }

  lemma StaysSettled(s: Sys, s': Sys, step: Step, mb: Key)
    requires Settled(s, mb) && Inv(s') && Effect(s, s', step)
    ensures Settled(s', mb)
  {
    forall id | id in s'.tasks ensures Rightful(s', s'.tasks[id], mb) {
      TaskStaysRightful(s, s', step, id, mb);
    }
    forall r | r in s'.db.expunged && r.mailbox == mb ensures Dead(s', mb, r.uid) {
      RowStaysDead(s, s', step, r, mb);
    }
  }

  lemma NextKeepsSettled(s: Sys, step: Step, mb: Key)
    requires Settled(s, mb)
    ensures Settled(Next(s, step), mb) && Effect(s, Next(s, step), step)
  {
    NextKeepsInv(s, step);
    NextEffect(s, step);
    StaysSettled(s, Next(s, step), step, mb);
  }

  lemma {:induction false} SettledInEveryRun(s: Sys, steps: seq<Step>, mb: Key)
    requires Settled(s, mb)
    ensures Settled(Run(s, steps), mb)
    decreases |steps|
  {
    if steps != [] {
      NextKeepsSettled(s, steps[0], mb);
      SettledInEveryRun(Next(s, steps[0]), steps[1..], mb);
    }
  }

  // ---- exact, aside from rows on their way ----------------------------------------------------

  function Owed(s: Sys, mb: Key, since: nat): set<nat> {
    set id | id in s.tasks && Owes(s.tasks[id], mb, since) :: s.tasks[id].gone
  }

  /** The client once it has asked what is new since its number. */
  function Resynced(client: Client, now: R.Box, since: nat): Client {
    R.Resynced(client, R.Vanished(now, since, {}), R.ChangedSince(now, since))
  }

  /** The resynchronised client is the mailbox, aside from messages whose row is being written. */
  ghost predicate ExactAside(s: Sys, mb: Key, client: Client, since: nat) {
    forall now :: Shows(s.db, mb, now) ==>
      Resynced(client, now, since) - Owed(s, mb, since) == R.View(now)
  }

  ghost predicate ExactAt(db: Db, mb: Key, client: Client, since: nat) {
    forall now :: Shows(db, mb, now) ==>
      Resynced(client, now, since) == R.View(now)
  }

  /** No held message is between the removal of its document and its row. */
  ghost predicate Quiet(s: Sys, mb: Key, client: Client, since: nat) {
    Owed(s, mb, since) !! client.Keys
  }

  /** The invariant of the store, and a client whose UIDs are handed out for good. */
  ghost predicate Followed(s: Sys, mb: Key, client: Client) {
    Settled(s, mb) && forall u :: u in client ==> Spent(s, mb, u)
  }

  ghost predicate Seen(db: Db, k: Key, client: Client, since: nat)
    requires k in db.messages
  {
    var m := db.messages[k];
    since == 0 || m.modSeq > since || (m.uid in client && client[m.uid] == m.flags)
  }

  ghost predicate Accounted(s: Sys, mb: Key, u: nat, since: nat) {
    Live(s.db, mb, u) || Logged(s.db, mb, u, since) || Logging(s, mb, u, since)
  }

  /** Every difference from the client is visible to it, or on its way. */
  ghost predicate Covered(s: Sys, mb: Key, client: Client, since: nat) {
    && (forall k :: In(s.db, k, mb) ==> Seen(s.db, k, client, since))
    && (forall u :: u in client ==> Accounted(s, mb, u, since))
  }

  lemma LiveIffShown(db: Db, mb: Key, now: R.Box, u: nat)
    requires Shows(db, mb, now)
    ensures Live(db, mb, u) <==> u in now.live
  {
    if Live(db, mb, u) {
      var k :| In(db, k, mb) && db.messages[k].uid == u;
      assert Of(db.messages, k, mb);
    }
    if u in now.live {
      var k :| Of(db.messages, k, mb) && db.messages[k].uid == u;
      assert In(db, k, mb);
    }
  }

  lemma LoggedIffShown(db: Db, mb: Key, now: R.Box, since: nat, u: nat)
    requires Shows(db, mb, now)
    ensures Logged(db, mb, u, since) <==> u in R.ExpungedSince(now, since)
  {
    if r :| r in db.expunged && r.mailbox == mb && r.uid == u && r.modSeq > since {
      assert R.Row(r.uid, r.modSeq) in now.log;
    }
    if u in R.ExpungedSince(now, since) {
      var row :| row in now.log && row.modSeq > since && row.uid == u;
      var r :| r in db.expunged && r.mailbox == mb && R.Row(r.uid, r.modSeq) == row;
    }
  }

  /** What a shown UID says of its document. */
  lemma ShownAs(db: Db, mb: Key, now: R.Box, k: Key)
    requires Shows(db, mb, now) && In(db, k, mb)
    ensures db.messages[k].uid in now.live && now.live[db.messages[k].uid] == EntryOf(db.messages[k])
  {
    assert Of(db.messages, k, mb);
  }

  /** Rows and owed rows are of dead UIDs. */
  lemma ToldIsDead(s: Sys, mb: Key, since: nat, u: nat)
    requires Settled(s, mb) && (Logged(s.db, mb, u, since) || Logging(s, mb, u, since))
    ensures !Live(s.db, mb, u)
  {
    if Logged(s.db, mb, u, since) {
      var r :| r in s.db.expunged && r.mailbox == mb && r.uid == u && r.modSeq > since;
      assert Dead(s, mb, r.uid);
    } else {
      var id :| id in s.tasks && Owes(s.tasks[id], mb, since) && s.tasks[id].gone == u;
      assert Rightful(s, s.tasks[id], mb);
    }
  }

  lemma CoveredIsExactAt(s: Sys, mb: Key, client: Client, since: nat, now: R.Box, u: nat)
    requires Followed(s, mb, client) && Covered(s, mb, client, since) && Shows(s.db, mb, now)
    ensures var after := Resynced(client, now, since) - Owed(s, mb, since);
            && (u in after <==> u in R.View(now)) && (u in after ==> after[u] == R.View(now)[u])
  {
    LiveIffShown(s.db, mb, now, u);
    LoggedIffShown(s.db, mb, now, since, u);
    if Logged(s.db, mb, u, since) || Logging(s, mb, u, since) {
      ToldIsDead(s, mb, since, u);
    }
    if Live(s.db, mb, u) {
      var k :| In(s.db, k, mb) && s.db.messages[k].uid == u;
      assert Seen(s.db, k, client, since);
      ShownAs(s.db, mb, now, k);
    }
  }

  lemma SameClient(a: Client, b: Client)
    requires forall u :: (u in a <==> u in b) && (u in a ==> a[u] == b[u])
    ensures a == b
  {
  }

  lemma CoveredIsExact(s: Sys, mb: Key, client: Client, since: nat)
    requires Followed(s, mb, client) && Covered(s, mb, client, since)
    ensures ExactAside(s, mb, client, since)
  {
    forall now | Shows(s.db, mb, now) ensures Resynced(client, now, since) - Owed(s, mb, since) == R.View(now) {
      var after, view := Resynced(client, now, since) - Owed(s, mb, since), R.View(now);
      forall u ensures (u in after <==> u in view) && (u in after ==> after[u] == view[u]) {
        CoveredIsExactAt(s, mb, client, since, now, u);
      }
      SameClient(after, view);
    }
  }

  lemma ExactIsSeen(s: Sys, mb: Key, client: Client, since: nat, now: R.Box, k: Key)
    requires Shows(s.db, mb, now) && In(s.db, k, mb)
    requires Resynced(client, now, since) - Owed(s, mb, since) == R.View(now)
    ensures Seen(s.db, k, client, since)
  {
    ShownAs(s.db, mb, now, k);
    var u := s.db.messages[k].uid;
    assert u in R.View(now) && R.View(now)[u] == s.db.messages[k].flags;
  }

  lemma ExactIsAccounted(s: Sys, mb: Key, client: Client, since: nat, now: R.Box, u: nat)
    requires Shows(s.db, mb, now) && u in client
    requires Resynced(client, now, since) - Owed(s, mb, since) == R.View(now)
    ensures Accounted(s, mb, u, since)
  {
    LiveIffShown(s.db, mb, now, u);
    LoggedIffShown(s.db, mb, now, since, u);
    assert u in R.View(now) <==> u in now.live;
  }

  lemma ExactIffCovered(s: Sys, mb: Key, client: Client, since: nat)
    requires Followed(s, mb, client)
    ensures ExactAside(s, mb, client, since) <==> Covered(s, mb, client, since)
  {
    if Covered(s, mb, client, since) { CoveredIsExact(s, mb, client, since); }
    if ExactAside(s, mb, client, since) {
      OrderlyEverywhere(s.db, mb);
      var now := ShowsExists(s.db, mb);
      forall k | In(s.db, k, mb) ensures Seen(s.db, k, client, since) {
        ExactIsSeen(s, mb, client, since, now, k);
      }
      forall u | u in client ensures Accounted(s, mb, u, since) {
        ExactIsAccounted(s, mb, client, since, now, u);
      }
    }
  }

  /** When no held message waits for its row, aside from nothing. */
  lemma QuietIsExact(s: Sys, mb: Key, client: Client, since: nat)
    requires Settled(s, mb) && Quiet(s, mb, client, since)
    ensures ExactAside(s, mb, client, since) <==> ExactAt(s.db, mb, client, since)
  {
    forall now | Shows(s.db, mb, now)
      ensures var after := Resynced(client, now, since);
              after - Owed(s, mb, since) == after
    {
      forall u | u in Owed(s, mb, since) ensures u !in now.live {
        assert Logging(s, mb, u, since);
        ToldIsDead(s, mb, since, u);
        LiveIffShown(s.db, mb, now, u);
      }
    }
  }

  // ---- a step that does no harm ---------------------------------------------------------------

  lemma SeenStays(s: Sys, s': Sys, step: Step, k: Key, mb: Key, client: Client, since: nat)
    requires Followed(s, mb, client) && Covered(s, mb, client, since) && Effect(s, s', step) && In(s'.db, k, mb)
    requires !(Acts(s, step) && Spoils(s.db, s.tasks[step.id], mb, client, since))
    ensures Seen(s'.db, k, client, since)
  {
    if k !in s.db.messages {
      assert Appears(s, s', step, k);
    } else if s'.db.messages[k] != s.db.messages[k] {
      assert Changes(s, s', step, k) && TaskOk(s.db, s.tasks[step.id]);
    } else {
      assert In(s.db, k, mb) && Seen(s.db, k, client, since);
    }
  }

  /** A live held message stays live or is on its way into the log. */
  lemma LiveStaysAccounted(s: Sys, s': Sys, step: Step, u: nat, mb: Key, client: Client, since: nat)
    requires Effect(s, s', step) && u in client && Live(s.db, mb, u)
    requires !(Acts(s, step) && Spoils(s.db, s.tasks[step.id], mb, client, since))
    ensures Accounted(s', mb, u, since)
  {
    var k :| In(s.db, k, mb) && s.db.messages[k].uid == u;
    assert HoldsHere(s.db, k, mb, client);
    if k !in s'.db.messages {
      assert Goes(s, s', step, k);
      assert Owes(s'.tasks[step.id], mb, since);
    } else {
      if s'.db.messages[k] != s.db.messages[k] { assert Changes(s, s', step, k); }
      assert In(s'.db, k, mb) && s'.db.messages[k].uid == u;
    }
  }

  lemma LoggedStays(s: Sys, s': Sys, step: Step, u: nat, mb: Key, since: nat)
    requires LogGrows(s, s', step) && Logged(s.db, mb, u, since)
    ensures Logged(s'.db, mb, u, since)
  {
    var r :| r in s.db.expunged && r.mailbox == mb && r.uid == u && r.modSeq > since;
    assert r in s'.db.expunged;
  }

  lemma StillOwed(s: Sys, s': Sys, step: Step, id: nat, u: nat, mb: Key, since: nat)
    requires Effect(s, s', step) && mb in s.db.mailboxes && step != Abandon(id)
    requires id in s.tasks && Owes(s.tasks[id], mb, since) && s.tasks[id].gone == u
    ensures Logged(s'.db, mb, u, since) || Logging(s', mb, u, since)
  {
    if step == Advance(id) {
      assert ExpungeRecord(mb, u, s.tasks[id].modSeq) in s'.db.expunged;
    } else {
      assert s'.tasks[id] == s.tasks[id];
    }
  }

  /** A row about to be written is written, or still about to be, unless it was the last one and is lost. */
  lemma LoggingStaysAccounted(s: Sys, s': Sys, step: Step, u: nat, mb: Key, client: Client, since: nat)
    requires Effect(s, s', step) && mb in s.db.mailboxes && u in client && Logging(s, mb, u, since)
    requires !Logged(s.db, mb, u, since) && !LosesRow(s, step, mb, client, since)
    ensures Logged(s'.db, mb, u, since) || Logging(s', mb, u, since)
  {
    var id :| id in s.tasks && Owes(s.tasks[id], mb, since) && s.tasks[id].gone == u;
    if step == Abandon(id) {
      var other :| other in s.tasks && other != id && Owes(s.tasks[other], mb, since) && s.tasks[other].gone == u;
      StillOwed(s, s', step, other, u, mb, since);
    } else {
      StillOwed(s, s', step, id, u, mb, since);
    }
  }

  lemma HarmlessCovers(s: Sys, s': Sys, step: Step, mb: Key, client: Client, since: nat)
    requires Followed(s, mb, client) && Covered(s, mb, client, since) && Effect(s, s', step)
    requires !Harmful(s, step, mb, client, since)
    ensures Covered(s', mb, client, since)
  {
    forall k | In(s'.db, k, mb) ensures Seen(s'.db, k, client, since) {
      SeenStays(s, s', step, k, mb, client, since);
    }
    forall u | u in client ensures Accounted(s', mb, u, since) {
      if Live(s.db, mb, u) {
        LiveStaysAccounted(s, s', step, u, mb, client, since);
      } else if Logged(s.db, mb, u, since) {
        LoggedStays(s, s', step, u, mb, since);
      } else {
        LoggingStaysAccounted(s, s', step, u, mb, client, since);
      }
    }
  }

  // ---- a step that does -----------------------------------------------------------------------

  /** A UID that a task holds is not the client's. */
  lemma HeldIsNew(s: Sys, id: nat, mb: Key, client: Client)
    requires Followed(s, mb, client) && id in s.tasks && HoldsUid(s.tasks[id]) && s.tasks[id].mb == mb
    ensures s.tasks[id].uid !in client
  {
  }

  lemma MissedCreate(s: Sys, s': Sys, id: nat, mb: Key, client: Client, since: nat)
    requires Followed(s, mb, client) && Effect(s, s', Advance(id)) && id in s.tasks && s.tasks[id].CreateStamp?
    requires s.tasks[id].mb == mb && s.tasks[id].modSeq <= since
    ensures !Covered(s', mb, client, since)
  {
    assert TaskOk(s.db, s.tasks[id]);
    HeldIsNew(s, id, mb, client);
    assert In(s'.db, Key(mb.account, s.db.nextId), mb);
  }

  /** A move in below what the client has seen. */
  lemma MissedMoveIn(s: Sys, s': Sys, id: nat, mb: Key, client: Client, since: nat)
    requires Followed(s, mb, client) && Effect(s, s', Advance(id)) && id in s.tasks && s.tasks[id].ShiftStamp?
    requires var t := s.tasks[id]; t.mb == mb && t.modSeq <= since && t.k in s.db.messages
    ensures !Covered(s', mb, client, since)
  {
    var t := s.tasks[id];
    assert TaskOk(s.db, t);
    HeldIsNew(s, id, mb, client);
    assert In(s'.db, t.k, mb);
  }

  /** A held UID whose document is not where it was, with nothing to tell. */
  lemma GoneUntold(s: Sys, s': Sys, step: Step, k: Key, mb: Key, client: Client, since: nat)
    requires Followed(s, mb, client) && Effect(s, s', step) && HoldsHere(s.db, k, mb, client)
    requires !(In(s'.db, k, mb) && s'.db.messages[k].uid == s.db.messages[k].uid)
    requires Acts(s, step) && !s.tasks[step.id].RemoveLog?
    requires step.id in s'.tasks && Owes(s'.tasks[step.id], mb, since) ==>
      s'.tasks[step.id].gone != s.db.messages[k].uid
    ensures !Covered(s', mb, client, since)
  {
    var u := s.db.messages[k].uid;
    assert Live(s.db, mb, u);
    assert !Logged(s.db, mb, u, since) && !Logging(s, mb, u, since) by {
      if Logged(s.db, mb, u, since) || Logging(s, mb, u, since) { ToldIsDead(s, mb, since, u); }
    }
    forall j | In(s'.db, j, mb) ensures s'.db.messages[j].uid != u {
      if s'.db.messages[j].uid == u {
        HadIt(s, s', step, j, mb);
        assert Home(s.db, j) == Home(s.db, k);
      }
    }
    assert !Live(s'.db, mb, u);
    NothingTold(s, s', step, u, mb, since);
    assert !Accounted(s', mb, u, since);
  }

  lemma NothingTold(s: Sys, s': Sys, step: Step, u: nat, mb: Key, since: nat)
    requires Effect(s, s', step) && !Logged(s.db, mb, u, since) && !Logging(s, mb, u, since)
    requires Acts(s, step) && !s.tasks[step.id].RemoveLog?
    requires step.id in s'.tasks && Owes(s'.tasks[step.id], mb, since) ==> s'.tasks[step.id].gone != u
    ensures !Logged(s'.db, mb, u, since) && !Logging(s', mb, u, since)
  {
    forall r | r in s'.db.expunged ensures r in s.db.expunged {
    }
    forall id | id in s'.tasks && Owes(s'.tasks[id], mb, since) ensures s'.tasks[id].gone != u {
      if id != step.id { assert s'.tasks[id] == s.tasks[id]; }
    }
  }

  /** A held message moved, away or to a new UID here. */
  lemma MissedMoveOut(s: Sys, s': Sys, id: nat, mb: Key, client: Client, since: nat)
    requires Followed(s, mb, client) && Effect(s, s', Advance(id)) && id in s.tasks && s.tasks[id].ShiftStamp?
    requires HoldsHere(s.db, s.tasks[id].k, mb, client)
    ensures !Covered(s', mb, client, since)
  {
    var t := s.tasks[id];
    assert TaskOk(s.db, t);
    if t.mb == mb { HeldIsNew(s, id, mb, client); }
    GoneUntold(s, s', Advance(id), t.k, mb, client, since);
  }

  /** A flag change below what the client has seen, whatever mailbox it began in. */
  lemma MissedFlags(s: Sys, s': Sys, id: nat, mb: Key, client: Client, since: nat)
    requires Followed(s, mb, client) && Effect(s, s', Advance(id)) && id in s.tasks && s.tasks[id].FlagStamp?
    requires Spoils(s.db, s.tasks[id], mb, client, since)
    ensures !Covered(s', mb, client, since)
  {
    var t := s.tasks[id];
    assert TaskOk(s.db, t);
    assert In(s'.db, t.k, mb) && !Seen(s'.db, t.k, client, since);
  }

  /** A held message deleted under another mailbox, or below what the client has seen. */
  lemma MissedRemoval(s: Sys, s': Sys, id: nat, mb: Key, client: Client, since: nat)
    requires Followed(s, mb, client) && Effect(s, s', Advance(id)) && id in s.tasks && s.tasks[id].RemoveStamp?
    requires Spoils(s.db, s.tasks[id], mb, client, since)
    ensures !Covered(s', mb, client, since)
  {
    var t := s.tasks[id];
    assert TaskOk(s.db, t);
    assert Goes(s, s', Advance(id), t.k);
    GoneUntold(s, s', Advance(id), t.k, mb, client, since);
  }

  /** The last row for a held message is lost. */
  lemma MissedRow(s: Sys, s': Sys, step: Step, mb: Key, client: Client, since: nat)
    requires Followed(s, mb, client) && Effect(s, s', step) && LosesRow(s, step, mb, client, since)
    ensures !Covered(s', mb, client, since)
  {
    var u := s.tasks[step.id].gone;
    assert Rightful(s, s.tasks[step.id], mb);
    EffectKeepsSpent(s, s', step, mb, u);
    forall r | r in s'.db.expunged ensures r in s.db.expunged {
    }
    forall id | id in s'.tasks && Owes(s'.tasks[id], mb, since) ensures s'.tasks[id].gone != u {
      assert id != step.id && s'.tasks[id] == s.tasks[id];
    }
    assert !Accounted(s', mb, u, since);
  }

  lemma HarmfulUncovers(s: Sys, s': Sys, step: Step, mb: Key, client: Client, since: nat)
    requires Followed(s, mb, client) && Effect(s, s', step) && Harmful(s, step, mb, client, since)
    ensures !Covered(s', mb, client, since)
  {
    if LosesRow(s, step, mb, client, since) {
      MissedRow(s, s', step, mb, client, since);
      return;
    }
    var t := s.tasks[step.id];
    match t
    case CreateStamp(_, _, _, _) => MissedCreate(s, s', step.id, mb, client, since);
    case ShiftStamp(_, k, _, _) =>
      if HoldsHere(s.db, k, mb, client) {
        MissedMoveOut(s, s', step.id, mb, client, since);
      } else {
        MissedMoveIn(s, s', step.id, mb, client, since);
      }
    case FlagStamp(_, _, _, _) => MissedFlags(s, s', step.id, mb, client, since);
    case RemoveStamp(_, _, _, _) => MissedRemoval(s, s', step.id, mb, client, since);
  }

  // ---- along runs -----------------------------------------------------------------------------

  lemma StaysFollowed(s: Sys, step: Step, mb: Key, client: Client)
    requires Followed(s, mb, client)
    ensures Followed(Next(s, step), mb, client) && Effect(s, Next(s, step), step)
  {
    NextKeepsSettled(s, step, mb);
    forall u | u in client ensures Spent(Next(s, step), mb, u) {
      EffectKeepsSpent(s, Next(s, step), step, mb, u);
    }
  }

  /** After a harmful step the client is wrong, whatever it was before. */
  lemma HarmfulIsMissed(s: Sys, step: Step, mb: Key, client: Client, since: nat)
    requires Followed(s, mb, client) && Harmful(s, step, mb, client, since)
    ensures !ExactAside(Next(s, step), mb, client, since)
  {
    StaysFollowed(s, step, mb, client);
    HarmfulUncovers(s, Next(s, step), step, mb, client, since);
    ExactIffCovered(Next(s, step), mb, client, since);
  }

  /** An exact client stays exact over a step, if and only if the step is harmless. */
  lemma StepExactIff(s: Sys, step: Step, mb: Key, client: Client, since: nat)
    requires Followed(s, mb, client) && ExactAside(s, mb, client, since)
    ensures ExactAside(Next(s, step), mb, client, since) <==> !Harmful(s, step, mb, client, since)
  {
    if Harmful(s, step, mb, client, since) {
      HarmfulIsMissed(s, step, mb, client, since);
    } else {
      StaysFollowed(s, step, mb, client);
      ExactIffCovered(s, mb, client, since);
      HarmlessCovers(s, Next(s, step), step, mb, client, since);
      CoveredIsExact(Next(s, step), mb, client, since);
    }
  }

  ghost predicate ExactAlong(s: Sys, steps: seq<Step>, mb: Key, client: Client, since: nat)
    decreases |steps|
  {
    ExactAside(s, mb, client, since) && (steps != [] ==> ExactAlong(Next(s, steps[0]), steps[1..], mb, client, since))
  }

  ghost predicate Unharmed(s: Sys, steps: seq<Step>, mb: Key, client: Client, since: nat)
    decreases |steps|
  {
    steps != [] ==>
      !Harmful(s, steps[0], mb, client, since) && Unharmed(Next(s, steps[0]), steps[1..], mb, client, since)
  }

  lemma {:induction false} RunExactIff(s: Sys, steps: seq<Step>, mb: Key, client: Client, since: nat)
    requires Followed(s, mb, client) && ExactAside(s, mb, client, since)
    ensures ExactAlong(s, steps, mb, client, since) <==> Unharmed(s, steps, mb, client, since)
    decreases |steps|
  {
    if steps != [] {
      StepExactIff(s, steps[0], mb, client, since);
      if !Harmful(s, steps[0], mb, client, since) {
        StaysFollowed(s, steps[0], mb, client);
        RunExactIff(Next(s, steps[0]), steps[1..], mb, client, since);
      } else if steps[1..] != [] {
        assert !ExactAlong(Next(s, steps[0]), steps[1..], mb, client, since);
      }
    }
  }

  /** At the snapshot the client is exact, whatever number it keeps and whatever is under way. */
  lemma SnapshotIsExact(s: Sys, mb: Key, held: R.Box, since: nat)
    requires Settled(s, mb) && Shows(s.db, mb, held)
    ensures Followed(s, mb, R.View(held)) && ExactAside(s, mb, R.View(held), since)
  {
    forall u | u in R.View(held) ensures Live(s.db, mb, u) && Spent(s, mb, u) {
      LiveIffShown(s.db, mb, held, u);
      LiveIsSpent(s, mb, u);
    }
    forall k | In(s.db, k, mb) ensures Seen(s.db, k, R.View(held), since) {
      ShownAs(s.db, mb, held, k);
    }
    CoveredIsExact(s, mb, R.View(held), since);
  }

  /** Over every run of interleaved calls, resynchronising from the snapshot is exact at every point,
      aside from rows on their way, if and only if no step is harmful. */
  lemma InterleavedExactIff(s: Sys, steps: seq<Step>, mb: Key, held: R.Box, since: nat)
    requires Settled(s, mb) && Shows(s.db, mb, held)
    ensures ExactAlong(s, steps, mb, R.View(held), since) <==> Unharmed(s, steps, mb, R.View(held), since)
  {
    SnapshotIsExact(s, mb, held, since);
    RunExactIff(s, steps, mb, R.View(held), since);
  }

  lemma {:induction false} AlongAtTheEnd(s: Sys, steps: seq<Step>, mb: Key, client: Client, since: nat)
    requires ExactAlong(s, steps, mb, client, since)
    ensures ExactAside(Run(s, steps), mb, client, since)
    decreases |steps|
  {
    if steps != [] { AlongAtTheEnd(Next(s, steps[0]), steps[1..], mb, client, since); }
  }

  /** So without a harmful step the client is exact at every quiet moment. */
  lemma UnharmedIsExact(s: Sys, steps: seq<Step>, mb: Key, held: R.Box, since: nat)
    requires Settled(s, mb) && Shows(s.db, mb, held) && Unharmed(s, steps, mb, R.View(held), since)
    requires Quiet(Run(s, steps), mb, R.View(held), since)
    ensures ExactAt(Run(s, steps).db, mb, R.View(held), since)
  {
    InterleavedExactIff(s, steps, mb, held, since);
    AlongAtTheEnd(s, steps, mb, R.View(held), since);
    SettledInEveryRun(s, steps, mb);
    QuietIsExact(Run(s, steps), mb, R.View(held), since);
  }
}
