/** CONDSTORE/QRESYNC resynchronisation (sections 3.1 and 3.2 of RFC 7162), on one mailbox. */
module Resync {

  datatype Entry = Entry(flags: seq<string>, modSeq: nat)
  datatype Row = Row(uid: nat, modSeq: nat)

  /** One mailbox: its counters, its live messages by UID, and its rows of the expunge log. */
  datatype Box = Box(uidNext: nat, highest: nat, live: map<nat, Entry>, log: set<Row>)

  /** What a store operation can do to one mailbox. */
  datatype Event =
    | Untouched
    | Arrive(flags: seq<string>)              // append, copy in, move in
    | Restamp(uid: nat, newFlags: seq<string>) // any flag change
    | Expunge(uid: nat)                       // DeleteMessage
    | Leave(uid: nat)                         // MoveMessage to another mailbox
    | Burn                                    // an append refused after taking its UID and mod-sequence

  function Next(b: Box, e: Event): Box {
    match e
    case Untouched => b
    case Arrive(flags) =>
      b.(uidNext := b.uidNext + 1, highest := b.highest + 1, live := b.live[b.uidNext := Entry(flags, b.highest + 1)])
    case Restamp(uid, flags) =>
      if uid in b.live then b.(highest := b.highest + 1, live := b.live[uid := Entry(flags, b.highest + 1)]) else b
    case Expunge(uid) =>
      if uid !in b.live then b
      else b.(highest := b.highest + 1, live := b.live - {uid}, log := b.log + {Row(uid, b.highest + 1)})
    case Leave(uid) => b.(live := b.live - {uid})
    case Burn => b.(uidNext := b.uidNext + 1, highest := b.highest + 1)
  }

  function After(b: Box, es: seq<Event>): Box
    decreases |es|
  {
    if es == [] then b else After(Next(b, es[0]), es[1..])
  }

  /** UIDs stay below uidnext, mod-sequences at most highest_modseq, and a logged UID is dead. */
  ghost predicate Sound(b: Box) {
    && (forall u :: u in b.live ==> u < b.uidNext && b.live[u].modSeq <= b.highest)
    && (forall r :: r in b.log ==> r.uid < b.uidNext && r.uid !in b.live && r.modSeq <= b.highest)
  }

  // ---- what client and server exchange --------------------------------------------------------

  /** The mailbox as a client sees it: UID to flags. */
  function View(b: Box): map<nat, seq<string>> {
    map u | u in b.live :: b.live[u].flags
  }

  /** The FETCH answer under CHANGEDSINCE; zero asks for everything. */
  function ChangedSince(b: Box, modSeq: nat): map<nat, seq<string>> {
    map u | u in b.live && (modSeq != 0 ==> b.live[u].modSeq > modSeq) :: b.live[u].flags
  }

  function ExpungedSince(b: Box, modSeq: nat): set<nat> {
    set r | r in b.log && r.modSeq > modSeq :: r.uid
  }

  /** VANISHED (EARLIER): restricted to the client's known UIDs when it sends any. */
  function Vanished(b: Box, modSeq: nat, known: set<nat>): set<nat> {
    if known == {} then ExpungedSince(b, modSeq) else ExpungedSince(b, modSeq) * known
  }

  /** The client drops the vanished UIDs and overlays the changed ones. */
  function Resynced(client: map<nat, seq<string>>, vanished: set<nat>, changed: map<nat, seq<string>>)
    : map<nat, seq<string>>
  {
    (client - vanished) + changed
  }

  /** The value SELECT reports: the highest mod-sequence in the snapshot, zero when it is empty. */
  ghost predicate IsSnapshotModSeq(b: Box, modSeq: nat) {
    && (forall u :: u in b.live ==> b.live[u].modSeq <= modSeq)
    && (modSeq == 0 || exists u :: u in b.live && b.live[u].modSeq == modSeq)
  }

  /** UIDs that some MoveMessage of the run took out of the mailbox. */
  function MovedOut(b: Box, es: seq<Event>): set<nat>
    decreases |es|
  {
    if es == [] then {} else
    (if es[0].Leave? && es[0].uid in b.live then {es[0].uid} else {}) + MovedOut(Next(b, es[0]), es[1..])
  }

  // ---- the invariant of a run since the snapshot ----------------------------------------------

  /** Every held UID is live, moved out or vanished; every live message is held as it is or newer. */
  ghost predicate Covers(client: map<nat, seq<string>>, since: nat, moved: set<nat>, b: Box) {
    && (forall u :: u in b.live ==> b.live[u].modSeq > since || (u in client && client[u] == b.live[u].flags))
    && (forall u :: u in client ==> u in b.live || u in moved || u in ExpungedSince(b, since))
    && (forall u :: u in moved ==> u !in b.live)
    && (forall r :: r in b.log ==> r.uid !in moved && r.uid !in b.live)
  }

  ghost predicate Tracks(client: map<nat, seq<string>>, since: nat, moved: set<nat>, b: Box) {
    && Sound(b) && since <= b.highest && Covers(client, since, moved, b)
    && (forall u :: u in client || u in moved ==> u < b.uidNext)
  }

  lemma NextTracks(client: map<nat, seq<string>>, since: nat, moved: set<nat>, b: Box, e: Event)
    requires Tracks(client, since, moved, b)
    ensures Tracks(client, since, moved + MovedOut(b, [e]), Next(b, e))
  {
    var b' := Next(b, e);
    assert MovedOut(b, [e]) == if e.Leave? && e.uid in b.live then {e.uid} else {};
    assert ExpungedSince(b, since) <= ExpungedSince(b', since);
    if e.Expunge? && e.uid in b.live {
      assert Row(e.uid, b.highest + 1) in b'.log;
      assert e.uid in ExpungedSince(b', since);
    }
  }

  lemma {:induction false} AfterTracks(client: map<nat, seq<string>>, since: nat, moved: set<nat>, b: Box,
                                       es: seq<Event>)
    requires Tracks(client, since, moved, b)
    ensures Tracks(client, since, moved + MovedOut(b, es), After(b, es))
    decreases |es|
  {
    if es == [] {
      assert moved + {} == moved;
    } else {
      NextTracks(client, since, moved, b, es[0]);
      assert MovedOut(b, [es[0]]) + MovedOut(Next(b, es[0]), es[1..]) == MovedOut(b, es);
      assert moved + MovedOut(b, [es[0]]) + MovedOut(Next(b, es[0]), es[1..]) == moved + MovedOut(b, es);
      AfterTracks(client, since, moved + MovedOut(b, [es[0]]), Next(b, es[0]), es[1..]);
    }
  }

  /** Where that holds, resynchronising is exact precisely when no held UID was moved out. */
  lemma CoversDecides(client: map<nat, seq<string>>, since: nat, moved: set<nat>, b: Box, known: set<nat>)
    requires Covers(client, since, moved, b) && (known == {} || client.Keys <= known)
    ensures Resynced(client, Vanished(b, since, known), ChangedSince(b, since)) == View(b) <==> client.Keys !! moved
  {
    var vanished, changed := Vanished(b, since, known), ChangedSince(b, since);
    var after := Resynced(client, vanished, changed);
    if u :| u in client && u in moved {
      assert u in after && u !in View(b);
    } else {
      assert forall u :: u in client ==> u in b.live || u in vanished;
      assert forall u :: u in after <==> u in View(b);
      assert after == View(b);
    }
  }

  /** A client holding the whole mailbox resynchronises exactly over every run, if and only if
      no message it held left through MoveMessage, which writes no expunge row. */
  lemma ResyncExactIff(b: Box, es: seq<Event>, since: nat, known: set<nat>)
    requires Sound(b) && IsSnapshotModSeq(b, since) && (known == {} || b.live.Keys <= known)
    ensures Sound(After(b, es))
    ensures Resynced(View(b), Vanished(After(b, es), since, known), ChangedSince(After(b, es), since))
            == View(After(b, es))
            <==> b.live.Keys !! MovedOut(b, es)
  {
    assert View(b).Keys == b.live.Keys;
    AfterTracks(View(b), since, {}, b, es);
    assert {} + MovedOut(b, es) == MovedOut(b, es);
    CoversDecides(View(b), since, MovedOut(b, es), After(b, es), known);
  }
}

/** Every store operation acts on each mailbox as one event, so the theorem holds of the store. */
module StoreResync {
  import opened Database
  import opened MailStore
  import opened RefCounts
  import R = Resync

  /** In all mailboxes: UIDs are unique and below uidnext, and no `_id` comes back. */
  ghost predicate Orderly(db: Db) {
    && IdsFresh(db)
    && (forall r :: r in db.expunged ==> r.mailbox.id < db.nextId)
    && (forall k :: k in db.messages ==>
        Home(db, k) in db.mailboxes && db.messages[k].uid < db.mailboxes[Home(db, k)].uidNext)
    && (forall j, k :: (j in db.messages && k in db.messages && j != k && Home(db, j) == Home(db, k)) ==>
                         db.messages[j].uid != db.messages[k].uid)
  }

  predicate Of(messages: map<Key, Message>, k: Key, mb: Key) {
    k in messages && Key(k.account, messages[k].mailbox) == mb
  }

  ghost predicate Holds(messages: map<Key, Message>, mb: Key, uid: nat) {
    exists k :: Of(messages, k, mb) && messages[k].uid == uid
  }

  function EntryOf(m: Message): R.Entry {
    R.Entry(m.flags, m.modSeq)
  }

  /** `live` is what the message documents say of one mailbox. */
  ghost predicate LiveIs(messages: map<Key, Message>, mb: Key, live: map<nat, R.Entry>) {
    && (forall k :: Of(messages, k, mb) ==> messages[k].uid in live && live[messages[k].uid] == EntryOf(messages[k]))
    && (forall u :: u in live ==> Holds(messages, mb, u))
  }

  ghost function LogOf(log: seq<ExpungeRecord>, mb: Key): set<R.Row> {
    set r | r in log && r.mailbox == mb :: R.Row(r.uid, r.modSeq)
  }

  /** In one mailbox. */
  ghost predicate OrderlyAt(db: Db, mb: Key) {
    && IdsFresh(db) && mb in db.mailboxes
    && (forall k :: Of(db.messages, k, mb) ==> db.messages[k].uid < db.mailboxes[mb].uidNext)
    && (forall j, k :: Of(db.messages, j, mb) && Of(db.messages, k, mb) && j != k ==>
        db.messages[j].uid != db.messages[k].uid)
  }

  lemma OrderlyEverywhere(db: Db, mb: Key)
    requires Orderly(db) && mb in db.mailboxes
    ensures OrderlyAt(db, mb)
  {
    assert forall k :: Of(db.messages, k, mb) ==> Home(db, k) == mb;
  }

  /** `b` is the store's mailbox `mb`. */
  ghost predicate Shows(db: Db, mb: Key, b: R.Box) {
    && OrderlyAt(db, mb)
    && b.uidNext == db.mailboxes[mb].uidNext && b.highest == db.mailboxes[mb].highestModSeq
    && LiveIs(db.messages, mb, b.live) && b.log == LogOf(db.expunged, mb)
  }

  /** Operations that can run while the mailbox stays: a restore into it plants UIDs of its own choosing. */
  predicate During(op: Op, mb: Key) {
    && (op.Restore? ==> Key(op.account, op.m.mailbox) != mb)
    && (op.DeleteMailbox? ==> op.mb != mb) && (op.DeleteAccount? ==> op.account != mb.account)
  }

  /** What an operation does to one mailbox. */
  function EventOf(db: Db, op: Op, mb: Key): R.Event {
    match op
    case Append(box, key, _, _, flags) =>
      if box != mb || mb !in db.mailboxes then R.Untouched else if key in db.refs then R.Burn else R.Arrive(flags)
    case SetFlags(k, flags) => FlagEvent(db, k, flags, mb)
    case AddFlags(k, flags) => if k in db.messages then FlagEvent(db, k, Union(db.messages[k].flags, flags), mb)
      else R.Untouched
    case RemoveFlags(k, flags) => if k in db.messages then FlagEvent(db, k, Minus(db.messages[k].flags, flags), mb)
      else R.Untouched
    case Move(k, dest) =>
      if !CanMove(db, k, dest) then R.Untouched
      else if Key(k.account, dest) == mb then R.Arrive(db.messages[k].flags)
      else if Home(db, k) == mb then R.Leave(db.messages[k].uid)
      else R.Untouched
    case Copy(k, dest) => if CanCopy(db, k, dest) && Key(k.account, dest) == mb then R.Arrive(db.messages[k].flags)
      else R.Untouched
    case Delete(k) => if In(db, k, mb) then R.Expunge(db.messages[k].uid) else R.Untouched
    case _ => R.Untouched
  }

  function FlagEvent(db: Db, k: Key, flags: seq<string>, mb: Key): R.Event {
    if In(db, k, mb) then R.Restamp(db.messages[k].uid, flags) else R.Untouched
  }

  function EventsOf(db: Db, ops: seq<Op>, mb: Key): seq<R.Event>
    decreases |ops|
  {
    if ops == [] then [] else [EventOf(db, ops[0], mb)] + EventsOf(Step(db, ops[0]), ops[1..], mb)
  }

  // ---- the live map under single document changes ---------------------------------------------

  lemma LiveInsert(messages: map<Key, Message>, k: Key, m: Message, mb: Key, live: map<nat, R.Entry>)
    requires k !in messages && LiveIs(messages, mb, live)
    requires Key(k.account, m.mailbox) == mb ==> m.uid !in live
    ensures LiveIs(messages[k := m], mb, if Key(k.account, m.mailbox) == mb then live[m.uid := EntryOf(m)] else live)
  {
    var after := messages[k := m];
    forall u | Holds(messages, mb, u) ensures Holds(after, mb, u) {
      var j :| Of(messages, j, mb) && messages[j].uid == u;
      assert Of(after, j, mb);
    }
    if Key(k.account, m.mailbox) == mb {
      assert Of(after, k, mb);
    }
    forall j | Of(after, j, mb) && j != k ensures Of(messages, j, mb) {
    }
  }

  lemma LiveRemove(messages: map<Key, Message>, k: Key, mb: Key, live: map<nat, R.Entry>)
    requires k in messages && LiveIs(messages, mb, live)
    requires Of(messages, k, mb) ==> forall j :: Of(messages, j, mb) && j != k ==> messages[j].uid != messages[k].uid
    ensures LiveIs(messages - {k}, mb, if Of(messages, k, mb) then live - {messages[k].uid} else live)
  {
    var after := messages - {k};
    forall j | Of(after, j, mb) ensures Of(messages, j, mb) && j != k {
    }
    forall u | Holds(messages, mb, u) && !(Of(messages, k, mb) && u == messages[k].uid) ensures Holds(after, mb, u) {
      var j :| Of(messages, j, mb) && messages[j].uid == u;
      assert Of(after, j, mb);
    }
  }

  /** Rewriting a document is removing it and inserting its new form. */
  lemma LiveUpdate(messages: map<Key, Message>, k: Key, m: Message, mb: Key, live: map<nat, R.Entry>)
    requires k in messages && LiveIs(messages, mb, live)
    requires Of(messages, k, mb) ==> forall j :: Of(messages, j, mb) && j != k ==> messages[j].uid != messages[k].uid
    requires Key(k.account, m.mailbox) == mb ==> m.uid !in live || (Of(messages, k, mb) && m.uid == messages[k].uid)
    ensures var without := if Of(messages, k, mb) then live - {messages[k].uid} else live;
            LiveIs(messages[k := m], mb, if Key(k.account, m.mailbox) == mb then without[m.uid := EntryOf(m)]
                   else without)
  {
    LiveRemove(messages, k, mb, live);
    LiveInsert(messages - {k}, k, m, mb, if Of(messages, k, mb) then live - {messages[k].uid} else live);
    assert (messages - {k})[k := m] == messages[k := m];
  }

  lemma LiveBelow(db: Db, mb: Key, b: R.Box)
    requires Shows(db, mb, b)
    ensures forall u :: u in b.live ==> u < b.uidNext
  {
    forall u | u in b.live ensures u < b.uidNext {
      var k :| Of(db.messages, k, mb) && db.messages[k].uid == u;
    }
  }

  // ---- operations elsewhere -------------------------------------------------------------------

  /** The documents of the mailbox are the same. */
  ghost predicate SameAt(messages: map<Key, Message>, after: map<Key, Message>, mb: Key) {
    forall k :: (Of(messages, k, mb) <==> Of(after, k, mb)) && (Of(messages, k, mb) ==> after[k] == messages[k])
  }

  lemma LiveSame(messages: map<Key, Message>, after: map<Key, Message>, mb: Key, live: map<nat, R.Entry>)
    requires LiveIs(messages, mb, live) && SameAt(messages, after, mb)
    ensures LiveIs(after, mb, live)
  {
    forall u | Holds(messages, mb, u) ensures Holds(after, mb, u) {
      var j :| Of(messages, j, mb) && messages[j].uid == u;
      assert Of(after, j, mb);
    }
  }

  lemma Unaffected(db: Db, db': Db, mb: Key, b: R.Box)
    requires Shows(db, mb, b) && IdsFresh(db') && mb in db'.mailboxes && db'.mailboxes[mb] == db.mailboxes[mb]
    requires SameAt(db.messages, db'.messages, mb) && LogOf(db'.expunged, mb) == LogOf(db.expunged, mb)
    ensures Shows(db', mb, b)
  {
    LiveSame(db.messages, db'.messages, mb, b.live);
  }

  /** One document that is not of this mailbox, before and after. */
  lemma ElsewhereSame(messages: map<Key, Message>, k: Key, m: Message, mb: Key)
    requires !Of(messages, k, mb) && Key(k.account, m.mailbox) != mb
    ensures SameAt(messages, messages[k := m], mb)
  {
  }

  lemma LogAppend(log: seq<ExpungeRecord>, r: ExpungeRecord, mb: Key)
    ensures LogOf(log + [r], mb) == if r.mailbox == mb then LogOf(log, mb) + {R.Row(r.uid, r.modSeq)}
      else LogOf(log, mb)
  {
    assert forall x :: x in log + [r] <==> x in log || x == r;
  }

  lemma {:induction false} LogWithoutMembers(log: seq<ExpungeRecord>, account: nat)
    ensures forall r :: r in LogWithout(log, account) <==> r in log && r.mailbox.account != account
  {
    if log != [] {
      LogWithoutMembers(log[..|log| - 1], account);
      assert log == log[..|log| - 1] + [log[|log| - 1]];
    }
  }

  lemma AccountGone(db: Db, account: nat, mb: Key, b: R.Box)
    requires Shows(db, mb, b) && account != mb.account
    ensures Shows(AccountDeleted(db, account), mb, b)
  {
    LogWithoutMembers(db.expunged, account);
    assert LogOf(LogWithout(db.expunged, account), mb) == LogOf(db.expunged, mb);
    Unaffected(db, AccountDeleted(db, account), mb, b);
  }

  lemma MailboxGone(db: Db, other: Key, mb: Key, b: R.Box)
    requires Shows(db, mb, b) && other != mb
    ensures Shows(MailboxDeleted(db, other), mb, b)
  {
    Unaffected(db, MailboxDeleted(db, other), mb, b);
  }

  lemma MailboxComes(db: Db, account: nat, mailbox: Mailbox, mb: Key, b: R.Box)
    requires Shows(db, mb, b)
    ensures Shows(InsertMailbox(db, account, mailbox), mb, b)
  {
    Unaffected(db, InsertMailbox(db, account, mailbox), mb, b);
  }

  lemma RestoreElsewhere(db: Db, account: nat, m: Message, body: string, newBlob: bool, mb: Key, b: R.Box)
    requires Shows(db, mb, b) && Key(account, m.mailbox) != mb
    ensures Shows(Restored(db, account, m, body, newBlob), mb, b)
  {
    var k := Key(account, db.nextId);
    ElsewhereSame(db.messages, k, m, mb);
    Unaffected(db, Restored(db, account, m, body, newBlob), mb, b);
  }

  // ---- operations here ------------------------------------------------------------------------

  /** One step of both counters. */
  predicate Bumped(db: Db, db': Db, mb: Key) {
    mb in db.mailboxes && mb in db'.mailboxes
    && var box := db.mailboxes[mb];
       db'.mailboxes[mb] == box.(uidNext := box.uidNext + 1, highestModSeq := box.highestModSeq + 1)
  }

  /** Nothing but one document and both counters of its mailbox changed. */
  ghost predicate OneLands(db: Db, db': Db, k: Key, m: Message, box: Key) {
    && db'.messages == db.messages[k := m] && db'.expunged == db.expunged && IdsFresh(db') && Bumped(db, db', box)
    && Key(k.account, m.mailbox) == box && m.uid == db.mailboxes[box].uidNext
      && m.modSeq == db.mailboxes[box].highestModSeq + 1
    && forall mb :: mb != box && mb in db.mailboxes ==> mb in db'.mailboxes && db'.mailboxes[mb] == db.mailboxes[mb]
  }

  /** A document comes in under the next UID: append, copy and move. */
  lemma ArriveShows(db: Db, db': Db, mb: Key, b: R.Box, k: Key, m: Message)
    requires Shows(db, mb, b) && OneLands(db, db', k, m, mb) && !Of(db.messages, k, mb)
    ensures Shows(db', mb, R.Next(b, R.Arrive(m.flags)))
  {
    LiveBelow(db, mb, b);
    if k in db.messages {
      LiveUpdate(db.messages, k, m, mb, b.live);
    } else {
      LiveInsert(db.messages, k, m, mb, b.live);
    }
    ArrivedOrderly(db, db', mb, k, m);
  }

  lemma ArrivedOrderly(db: Db, db': Db, mb: Key, k: Key, m: Message)
    requires OrderlyAt(db, mb) && IdsFresh(db') && Bumped(db, db', mb) && db'.messages == db.messages[k := m]
    requires m.uid == db.mailboxes[mb].uidNext
    ensures OrderlyAt(db', mb)
  {
    assert forall j :: Of(db'.messages, j, mb) && j != k ==> Of(db.messages, j, mb);
  }

  /** An append whose key was refused. */
  lemma BurnShows(db: Db, db': Db, mb: Key, b: R.Box)
    requires Shows(db, mb, b) && IdsFresh(db') && Bumped(db, db', mb) && db'.expunged == db.expunged
      && db'.messages == db.messages
    ensures Shows(db', mb, R.Next(b, R.Burn))
  {
  }

  lemma FlagsUnique(db: Db, k: Key, mb: Key)
    requires OrderlyAt(db, mb)
    ensures Of(db.messages, k, mb) ==> forall j :: Of(db.messages, j, mb) && j != k ==>
      db.messages[j].uid != db.messages[k].uid
  {
  }

  /** A document changes in place. */
  lemma RestampShows(db: Db, db': Db, mb: Key, b: R.Box, k: Key, m: Message, live: map<nat, R.Entry>)
    requires Shows(db, mb, b) && IdsFresh(db') && Of(db.messages, k, mb) && db'.expunged == db.expunged
    requires db'.mailboxes == BumpModSeq(db, mb).mailboxes && db'.messages == db.messages[k := m]
    requires m == db.messages[k].(flags := m.flags, modSeq := db.mailboxes[mb].highestModSeq + 1)
    requires live == b.live[m.uid := EntryOf(m)]
    ensures m.uid in b.live && Shows(db', mb, b.(highest := b.highest + 1, live := live))
  {
    FlagsUnique(db, k, mb);
    LiveRestamp(db.messages, k, m, db'.messages, mb, b.live);
    RewrittenOrderly(db, db', mb, k, m);
    assert LiveIs(db'.messages, mb, live);
  }

  lemma LiveRestamp(messages: map<Key, Message>, k: Key, m: Message, after: map<Key, Message>, mb: Key,
                    live: map<nat, R.Entry>)
    requires LiveIs(messages, mb, live) && after == messages[k := m] && Of(messages, k, mb)
      && m.mailbox == messages[k].mailbox && m.uid == messages[k].uid
    requires forall j :: Of(messages, j, mb) && j != k ==> messages[j].uid != messages[k].uid
    ensures m.uid in live && LiveIs(after, mb, live[m.uid := EntryOf(m)])
  {
    LiveUpdate(messages, k, m, mb, live);
    assert (live - {m.uid})[m.uid := EntryOf(m)] == live[m.uid := EntryOf(m)];
  }

  lemma RewrittenOrderly(db: Db, db': Db, mb: Key, k: Key, m: Message)
    requires OrderlyAt(db, mb) && IdsFresh(db') && mb in db'.mailboxes
      && db'.mailboxes[mb].uidNext == db.mailboxes[mb].uidNext
    requires db'.messages == db.messages[k := m] && Of(db.messages, k, mb)
    requires Key(k.account, m.mailbox) == mb ==> m.uid == db.messages[k].uid
    ensures OrderlyAt(db', mb)
  {
    FewerOrderly(db, db', mb);
  }

  /** Fewer documents or the same, their UIDs as they were. */
  lemma FewerOrderly(db: Db, db': Db, mb: Key)
    requires OrderlyAt(db, mb) && IdsFresh(db') && mb in db'.mailboxes
      && db'.mailboxes[mb].uidNext == db.mailboxes[mb].uidNext
    requires forall j :: Of(db'.messages, j, mb) ==> Of(db.messages, j, mb) && db'.messages[j].uid == db.messages[j].uid
    ensures OrderlyAt(db', mb)
  {
  }

  /** A document goes to another mailbox. */
  lemma LeaveShows(db: Db, db': Db, mb: Key, b: R.Box, k: Key, m: Message, box: Key, live: map<nat, R.Entry>)
    requires Shows(db, mb, b) && Of(db.messages, k, mb) && OneLands(db, db', k, m, box) && box != mb
    requires live == b.live - {db.messages[k].uid}
    ensures Shows(db', mb, b.(live := live))
  {
    FlagsUnique(db, k, mb);
    LiveLeave(db.messages, k, m, db'.messages, mb, b.live);
    RewrittenOrderly(db, db', mb, k, m);
    assert LiveIs(db'.messages, mb, live);
  }

  lemma LiveLeave(messages: map<Key, Message>, k: Key, m: Message, after: map<Key, Message>, mb: Key,
                  live: map<nat, R.Entry>)
    requires LiveIs(messages, mb, live) && Of(messages, k, mb) && Key(k.account, m.mailbox) != mb
      && after == messages[k := m]
    requires forall j :: Of(messages, j, mb) && j != k ==> messages[j].uid != messages[k].uid
    ensures LiveIs(after, mb, live - {messages[k].uid})
  {
    LiveUpdate(messages, k, m, mb, live);
  }

  /** A document is gone, with its row in the log. */
  ghost predicate Gone(db: Db, db': Db, k: Key, r: ExpungeRecord) {
    && k in db.messages && Home(db, k) in db.mailboxes && IdsFresh(db')
    && r == ExpungeRecord(Home(db, k), db.messages[k].uid, db.mailboxes[Home(db, k)].highestModSeq + 1)
    && db'.messages == db.messages - {k} && db'.expunged == db.expunged + [r]
    && db'.mailboxes == BumpModSeq(db, Home(db, k)).mailboxes
  }

  lemma ExpungeShows(db: Db, db': Db, mb: Key, b: R.Box, k: Key, r: ExpungeRecord)
    requires Shows(db, mb, b) && Of(db.messages, k, mb) && Gone(db, db', k, r)
    ensures Shows(db', mb, R.Next(b, R.Expunge(db.messages[k].uid)))
  {
    FlagsUnique(db, k, mb);
    LiveRemove(db.messages, k, mb, b.live);
    LogAppend(db.expunged, r, mb);
    FewerOrderly(db, db', mb);
  }

  lemma ExpungedElsewhere(db: Db, db': Db, k: Key, r: ExpungeRecord, mb: Key, b: R.Box)
    requires Shows(db, mb, b) && !Of(db.messages, k, mb) && Gone(db, db', k, r)
    ensures Shows(db', mb, b)
  {
    LogAppend(db.expunged, r, mb);
    Unaffected(db, db', mb, b);
  }

  // ---- each operation -------------------------------------------------------------------------

  lemma AppendedIs(db: Db, box: Key, key: string, body: string, info: Info, flags: seq<string>) returns (m: Message)
    requires box in db.mailboxes && key !in db.refs && IdsFresh(db)
    ensures m.flags == flags
    ensures OneLands(db, Appended(db, box, key, body, info, flags), Key(box.account, db.nextId), m, box)
  {
    m := Message(box.id, db.mailboxes[box].uidNext, key, flags, db.mailboxes[box].highestModSeq + 1, info);
  }

  lemma AppendShows(db: Db, box: Key, key: string, body: string, info: Info, flags: seq<string>, mb: Key, b: R.Box)
    requires Shows(db, mb, b)
    ensures Shows(Appended(db, box, key, body, info, flags), mb,
                  R.Next(b, EventOf(db, Append(box, key, body, info, flags), mb)))
  {
    if box !in db.mailboxes { return; }
    var db', k := Appended(db, box, key, body, info, flags), Key(box.account, db.nextId);
    if key in db.refs {
      if box == mb { BurnShows(db, db', mb, b); } else { Unaffected(db, db', mb, b); }
    } else {
      var m := AppendedIs(db, box, key, body, info, flags);
      LandShows(db, db', k, m, box, mb, b);
    }
  }

  /** The message as it arrives in a mailbox. */
  function Landed(db: Db, k: Key, box: Key): Message
    requires k in db.messages && box in db.mailboxes
  {
    db.messages[k].(mailbox := box.id, uid := db.mailboxes[box].uidNext, modSeq := db.mailboxes[box].highestModSeq + 1)
  }

  lemma CopiedIs(db: Db, k: Key, dest: nat)
    requires CanCopy(db, k, dest) && IdsFresh(db)
    ensures Key(k.account, db.nextId) !in db.messages
    ensures OneLands(db, Copied(db, k, dest), Key(k.account, db.nextId), Landed(db, k, Key(k.account, dest)),
                     Key(k.account, dest))
  {
  }

  lemma MovedIs(db: Db, k: Key, dest: nat)
    requires CanMove(db, k, dest) && IdsFresh(db)
    ensures OneLands(db, Moved(db, k, dest), k, Landed(db, k, Key(k.account, dest)), Key(k.account, dest))
  {
  }

  lemma LandElsewhere(db: Db, db': Db, k: Key, m: Message, box: Key, mb: Key, b: R.Box)
    requires Shows(db, mb, b) && OneLands(db, db', k, m, box) && box != mb && !Of(db.messages, k, mb)
    ensures Shows(db', mb, b)
  {
    ElsewhereSame(db.messages, k, m, mb);
    Unaffected(db, db', mb, b);
  }

  /** What the landing of a document is to a mailbox. */
  function LandEvent(db: Db, k: Key, m: Message, box: Key, mb: Key): R.Event {
    if box == mb then R.Arrive(m.flags) else if Of(db.messages, k, mb) then R.Leave(db.messages[k].uid) else R.Untouched
  }

  lemma LandShows(db: Db, db': Db, k: Key, m: Message, box: Key, mb: Key, b: R.Box)
    requires Shows(db, mb, b) && OneLands(db, db', k, m, box) && (Of(db.messages, k, mb) ==> box != mb)
    ensures Shows(db', mb, R.Next(b, LandEvent(db, k, m, box, mb)))
  {
    if box == mb {
      ArriveShows(db, db', mb, b, k, m);
    } else if Of(db.messages, k, mb) {
      var uid := db.messages[k].uid;
      var live := b.live - {uid};
      LeaveShows(db, db', mb, b, k, m, box, live);
      assert R.Next(b, R.Leave(uid)) == b.(live := live);
    } else {
      LandElsewhere(db, db', k, m, box, mb, b);
    }
  }

  lemma CopyShows(db: Db, k: Key, dest: nat, mb: Key, b: R.Box)
    requires Shows(db, mb, b)
    ensures Shows(Copied(db, k, dest), mb, R.Next(b, EventOf(db, Copy(k, dest), mb)))
  {
    if !CanCopy(db, k, dest) { return; }
    var box, k' := Key(k.account, dest), Key(k.account, db.nextId);
    CopiedIs(db, k, dest);
    var m := Landed(db, k, box);
    assert LandEvent(db, k', m, box, mb) == EventOf(db, Copy(k, dest), mb);
    LandShows(db, Copied(db, k, dest), k', m, box, mb, b);
  }

  lemma MoveShows(db: Db, k: Key, dest: nat, mb: Key, b: R.Box)
    requires Shows(db, mb, b)
    ensures Shows(Moved(db, k, dest), mb, R.Next(b, EventOf(db, Move(k, dest), mb)))
  {
    if !CanMove(db, k, dest) { return; }
    var box := Key(k.account, dest);
    MovedIs(db, k, dest);
    var m := Landed(db, k, box);
    assert LandEvent(db, k, m, box, mb) == EventOf(db, Move(k, dest), mb);
    LandShows(db, Moved(db, k, dest), k, m, box, mb, b);
  }

  lemma FlagsShow(db: Db, k: Key, flags: seq<string>, mb: Key, b: R.Box)
    requires Shows(db, mb, b)
    ensures Shows(FlagsSet(db, k, flags), mb, R.Next(b, FlagEvent(db, k, flags, mb)))
  {
    if !CanStamp(db, k) { return; }
    var db', home := FlagsSet(db, k, flags), Home(db, k);
    var m := db.messages[k].(flags := flags, modSeq := db.mailboxes[home].highestModSeq + 1);
    assert db'.messages == db.messages[k := m];
    if home == mb {
      RestampShows(db, db', mb, b, k, m, b.live[m.uid := EntryOf(m)]);
    } else {
      ElsewhereSame(db.messages, k, m, mb);
      Unaffected(db, db', mb, b);
    }
  }

  lemma DeletedIs(db: Db, k: Key) returns (r: ExpungeRecord)
    requires CanStamp(db, k) && IdsFresh(db)
    ensures Gone(db, Deleted(db, k), k, r)
  {
    var home := Home(db, k);
    r := ExpungeRecord(home, db.messages[k].uid, db.mailboxes[home].highestModSeq + 1);
    assert Deleted(db, k).messages == db.messages - {k};
  }

  lemma DeleteShows(db: Db, k: Key, mb: Key, b: R.Box)
    requires Shows(db, mb, b)
    ensures Shows(Deleted(db, k), mb, R.Next(b, EventOf(db, Delete(k), mb)))
  {
    if !CanStamp(db, k) { return; }
    var r := DeletedIs(db, k);
    if In(db, k, mb) {
      ExpungeShows(db, Deleted(db, k), mb, b, k, r);
    } else {
      ExpungedElsewhere(db, Deleted(db, k), k, r, mb, b);
    }
  }

  lemma StampShows(db: Db, op: Op, mb: Key, b: R.Box)
    requires Shows(db, mb, b) && (op.SetFlags? || op.AddFlags? || op.RemoveFlags? || op.Delete?)
    ensures Shows(Step(db, op), mb, R.Next(b, EventOf(db, op, mb)))
  {
    match op
    case SetFlags(k, flags) => FlagsShow(db, k, flags, mb, b);
    case AddFlags(k, flags) => if k in db.messages { FlagsShow(db, k, Union(db.messages[k].flags, flags), mb, b); }
    case RemoveFlags(k, flags) => if k in db.messages { FlagsShow(db, k, Minus(db.messages[k].flags, flags), mb, b); }
    case Delete(k) => DeleteShows(db, k, mb, b);
  }

  lemma StepShows(db: Db, op: Op, mb: Key, b: R.Box)
    requires Shows(db, mb, b) && During(op, mb)
    ensures Shows(Step(db, op), mb, R.Next(b, EventOf(db, op, mb)))
  {
    match op
    case CreateMailbox(account, mailbox) => MailboxComes(db, account, mailbox, mb, b);
    case Append(box, key, body, info, flags) => AppendShows(db, box, key, body, info, flags, mb, b);
    case Move(k, dest) => MoveShows(db, k, dest, mb, b);
    case Copy(k, dest) => CopyShows(db, k, dest, mb, b);
    case Restore(account, m, body, newBlob) => RestoreElsewhere(db, account, m, body, newBlob, mb, b);
    case DeleteMailbox(other) => MailboxGone(db, other, mb, b);
    case DeleteAccount(account) => AccountGone(db, account, mb, b);
    case _ => StampShows(db, op, mb, b);
  }

  /** A run of store operations shows, at every mailbox that stays, as the run of its events. */
  lemma {:induction false} RunShows(db: Db, ops: seq<Op>, mb: Key, b: R.Box)
    requires Shows(db, mb, b) && forall i :: 0 <= i < |ops| ==> During(ops[i], mb)
    ensures Shows(Run(db, ops), mb, R.After(b, EventsOf(db, ops, mb)))
    decreases |ops|
  {
    if ops != [] {
      StepShows(db, ops[0], mb, b);
      var e, rest := EventOf(db, ops[0], mb), EventsOf(Step(db, ops[0]), ops[1..], mb);
      RunShows(Step(db, ops[0]), ops[1..], mb, R.Next(b, e));
      assert ([e] + rest)[1..] == rest;
    }
  }

  ghost function At(messages: map<Key, Message>, mb: Key, uid: nat): (k: Key)
    requires Holds(messages, mb, uid)
    ensures Of(messages, k, mb) && messages[k].uid == uid
  {
    var k :| Of(messages, k, mb) && messages[k].uid == uid; k
  }

  /** Every mailbox has a view... */
  lemma ShowsExists(db: Db, mb: Key) returns (b: R.Box)
    requires OrderlyAt(db, mb)
    ensures Shows(db, mb, b)
  {
    var uids := set k | k in db.messages && Of(db.messages, k, mb) :: db.messages[k].uid;
    forall u | u in uids ensures Holds(db.messages, mb, u) {
    }
    var live := map u | u in uids :: EntryOf(db.messages[At(db.messages, mb, u)]);
    forall k | Of(db.messages, k, mb)
      ensures db.messages[k].uid in live && live[db.messages[k].uid] == EntryOf(db.messages[k])
    {
      var j := At(db.messages, mb, db.messages[k].uid);
      assert j == k;
    }
    b := R.Box(db.mailboxes[mb].uidNext, db.mailboxes[mb].highestModSeq, live, LogOf(db.expunged, mb));
  }

  /** ...and only one. */
  lemma ShowsUnique(db: Db, mb: Key, b: R.Box, b': R.Box)
    requires Shows(db, mb, b) && Shows(db, mb, b')
    ensures b == b'
  {
    forall u ensures u in b.live <==> u in b'.live {
    }
    forall u | u in b.live ensures b.live[u] == b'.live[u] {
      var k :| Of(db.messages, k, mb) && db.messages[k].uid == u;
    }
    assert b.live == b'.live;
  }

  /** The store's QRESYNC answer is exact over every run, if and only if no held message was moved away. */
  lemma StoreResyncExactIff(db: Db, ops: seq<Op>, mb: Key, held: R.Box, now: R.Box, since: nat, known: set<nat>)
    requires Shows(db, mb, held) && R.Sound(held) && R.IsSnapshotModSeq(held, since)
    requires forall i :: 0 <= i < |ops| ==> During(ops[i], mb)
    requires Shows(Run(db, ops), mb, now)
    requires known == {} || held.live.Keys <= known
    ensures R.Resynced(R.View(held), R.Vanished(now, since, known), R.ChangedSince(now, since)) == R.View(now)
            <==> held.live.Keys !! R.MovedOut(held, EventsOf(db, ops, mb))
  {
    RunShows(db, ops, mb, held);
    ShowsUnique(Run(db, ops), mb, now, R.After(held, EventsOf(db, ops, mb)));
    R.ResyncExactIff(held, EventsOf(db, ops, mb), since, known);
  }

  // ---- the SELECT answer ----------------------------------------------------------------------

  lemma {:induction false} LoggedSinceMembers(log: seq<ExpungeRecord>, mb: Key, since: nat)
    ensures forall u ::
      u in LoggedSince(log, mb, since)
      <==> exists r :: r in log && r.mailbox == mb && r.modSeq > since && r.uid == u
  {
    if log != [] {
      var front, last := log[..|log| - 1], log[|log| - 1];
      LoggedSinceMembers(front, mb, since);
      assert log == front + [last];
      forall u ensures u in LoggedSince(log, mb, since)
        <==> exists r :: r in log && r.mailbox == mb && r.modSeq > since && r.uid == u {
        if r :| r in log && r.mailbox == mb && r.modSeq > since && r.uid == u {
          assert r in front || r == last;
        }
      }
    }
  }

  /** The entries of a list that are in a set, in their order. */
  function Known(uids: seq<nat>, known: set<nat>): seq<nat> {
    if uids == [] then [] else
    Known(uids[..|uids| - 1], known) + if uids[|uids| - 1] in known then [uids[|uids| - 1]] else []
  }

  lemma {:induction false} KnownCounts(uids: seq<nat>, known: set<nat>, u: nat)
    ensures multiset(Known(uids, known))[u] == if u in known then multiset(uids)[u] else 0
  {
    if uids != [] {
      KnownCounts(uids[..|uids| - 1], known, u);
      assert uids == uids[..|uids| - 1] + [uids[|uids| - 1]];
    }
  }

  lemma {:induction false} KnownAscends(uids: seq<nat>, known: set<nat>)
    requires Ascending(uids)
    ensures Ascending(Known(uids, known)) && forall i :: 0 <= i < |Known(uids, known)| ==> Known(uids, known)[i] in uids
  {
    if uids != [] {
      var front, last := uids[..|uids| - 1], uids[|uids| - 1];
      KnownAscends(front, known);
      assert uids == front + [last];
      assert forall u :: u in front ==> u <= last;
    }
  }

  /** Exactly the known ones, as often as they were there and in ascending order if they were. */
  lemma KnownMeaning(uids: seq<nat>, known: set<nat>)
    ensures forall u :: multiset(Known(uids, known))[u] == if u in known then multiset(uids)[u] else 0
    ensures forall u :: u in Known(uids, known) <==> u in uids && u in known
    ensures Ascending(uids) ==> Ascending(Known(uids, known))
  {
    forall u ensures multiset(Known(uids, known))[u] == if u in known then multiset(uids)[u] else 0 {
      KnownCounts(uids, known, u);
    }
    forall u ensures u in Known(uids, known) <==> u in uids && u in known {
      assert u in Known(uids, known) <==> multiset(Known(uids, known))[u] > 0;
      assert u in uids <==> multiset(uids)[u] > 0;
    }
    if Ascending(uids) { KnownAscends(uids, known); }
  }

  /** Filters in place. */
  method FilterKnownUids(uids: seq<nat>, known: set<nat>) returns (out: seq<nat>)
    ensures out == Known(uids, known)
  {
    out := [];
    for i := 0 to |uids|
      invariant out == Known(uids[..i], known)
    {
      assert uids[..i + 1][..i] == uids[..i];
      if uids[i] in known {
        out := out + [uids[i]];
      }
    }
    assert uids[..|uids|] == uids;
  }

  lemma ListedIsExpunged(db: Db, mb: Key, b: R.Box, since: nat, uids: seq<nat>)
    requires b.log == LogOf(db.expunged, mb) && multiset(uids) == multiset(LoggedSince(db.expunged, mb, since))
    ensures forall u :: u in uids <==> u in R.ExpungedSince(b, since)
  {
    LoggedSinceMembers(db.expunged, mb, since);
    assert forall u :: u in uids <==> u in multiset(uids);
    assert forall u :: u in uids <==> u in LoggedSince(db.expunged, mb, since);
    forall u | u in uids ensures u in R.ExpungedSince(b, since) {
      var x :| x in db.expunged && x.mailbox == mb && x.modSeq > since && x.uid == u;
      assert R.Row(x.uid, x.modSeq) in b.log;
    }
  }

  /** QRESYNC SELECT: with a matching UIDVALIDITY the answer is exactly the VANISHED set of the
      theorem above; otherwise the client's cache is void and nothing is reported. */
  method SelectVanished(s: Store, mb: Key, b: R.Box, uidValidity: nat, since: nat, known: set<nat>)
    returns (r: Result<seq<nat>>)
    requires Shows(s.db, mb, b)
    modifies s`faults
    ensures r.Ok? && uidValidity == s.db.mailboxes[mb].uidValidity ==>
      Ascending(r.value) && (set u | u in r.value) == R.Vanished(b, since, known)
    ensures r.Ok? && uidValidity != s.db.mailboxes[mb].uidValidity ==> r.value == []
    ensures old(s.faults) == [] ==> r.Ok?
  {
    if uidValidity != s.db.mailboxes[mb].uidValidity { return Ok([]); }
    r := s.ExpungedSince(mb, since);
    if r.Err? { return; }
    ListedIsExpunged(s.db, mb, b, since, r.value);
    if known != {} {
      var out := FilterKnownUids(r.value, known);
      KnownMeaning(r.value, known);
      r := Ok(out);
    }
  }
}
