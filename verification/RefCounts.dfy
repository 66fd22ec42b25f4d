/** Reference counts over whole runs of store operations. */
module RefCounts {
  import opened Database
  import opened MailStore

  datatype Op =
    | CreateMailbox(account: nat, mailbox: Mailbox)   // also RestoreMailbox: the document is inserted as it is
    | Append(mb: Key, key: string, body: string, info: Info, flags: seq<string>)
    | SetFlags(k: Key, flags: seq<string>)
    | AddFlags(k: Key, flags: seq<string>)
    | RemoveFlags(k: Key, flags: seq<string>)
    | Move(k: Key, dest: nat)
    | Copy(k: Key, dest: nat)
    | Restore(account: nat, m: Message, body: string, newBlob: bool)
    | Delete(k: Key)
    | DeleteMailbox(mb: Key)
    | DeleteAccount(account: nat)

  /** What an operation relies on: a drawn key has no count yet, nor has a body restored as new, and
      a body restored as shared is there with a count that covers it. The store checks none of it. */
  predicate Legal(db: Db, op: Op) {
    match op
    case Append(_, key, _, _, _) => key !in db.refs
    case Restore(_, m, _, newBlob) => if newBlob then m.blob !in db.refs else m.blob in db.refs ==> Backed(db, m.blob)
    case _ => true
  }

  function Step(db: Db, op: Op): Db {
    match op
    case CreateMailbox(account, mailbox) => InsertMailbox(db, account, mailbox)
    case Append(mb, key, body, info, flags) => Appended(db, mb, key, body, info, flags)
    case SetFlags(k, flags) => FlagsSet(db, k, flags)
    case AddFlags(k, flags) => FlagsAdded(db, k, flags)
    case RemoveFlags(k, flags) => FlagsRemoved(db, k, flags)
    case Move(k, dest) => Moved(db, k, dest)
    case Copy(k, dest) => Copied(db, k, dest)
    case Restore(account, m, body, newBlob) => Restored(db, account, m, body, newBlob)
    case Delete(k) => Deleted(db, k)
    case DeleteMailbox(mb) => MailboxDeleted(db, mb)
    case DeleteAccount(account) => AccountDeleted(db, account)
  }

  function Run(db: Db, ops: seq<Op>): Db
    decreases |ops|
  {
    if ops == [] then db else Run(Step(db, ops[0]), ops[1..])
  }

  // ---- exact counts ---------------------------------------------------------------------------

  lemma AppendKeepsExact(db: Db, mb: Key, key: string, body: string, info: Info, flags: seq<string>)
    requires Exact(db) && key !in db.refs
    ensures Exact(Appended(db, mb, key, body, info, flags))
  {
    if mb in db.mailboxes {
      var db' := Appended(db, mb, key, body, info, flags);
      var k := Key(mb.account, db.nextId);
      forall other
        ensures Referrers(db'.messages, other) == Referrers(db.messages, other) + if other == key then 1 else 0
      {
        ReferrersInsert(db.messages, k, db'.messages[k], other);
      }
    }
  }

  lemma StampKeepsExact(db: Db, db': Db, k: Key)
    requires Exact(db) && k in db.messages && k in db'.messages
    requires db'.messages == db.messages[k := db'.messages[k]] && db'.messages[k].blob == db.messages[k].blob
    requires db'.refs == db.refs && db'.blobs == db.blobs && db'.nextId == db.nextId
    requires db'.mailboxes.Keys == db.mailboxes.Keys
    ensures Exact(db')
  {
    forall key ensures Referrers(db'.messages, key) == Referrers(db.messages, key) {
      ReferrersUpdate(db.messages, k, db'.messages[k], key);
    }
  }

  /** Copying and restoring a shared body: one more document, one more on the count. */
  lemma ShareKeepsExact(db: Db, db': Db, k: Key)
    requires Exact(db) && k !in db.messages && k in db'.messages && k.id == db.nextId && db'.nextId == db.nextId + 1
    requires db'.messages == db.messages[k := db'.messages[k]] && db'.messages[k].blob in db.refs
    requires db'.refs == db.refs[db'.messages[k].blob := db.refs[db'.messages[k].blob] + 1]
    requires db'.blobs == db.blobs && db'.mailboxes.Keys == db.mailboxes.Keys
    ensures Exact(db')
  {
    forall key
      ensures Referrers(db'.messages, key) == Referrers(db.messages, key) + if db'.messages[k].blob == key then 1 else 0
    {
      ReferrersInsert(db.messages, k, db'.messages[k], key);
    }
  }

  lemma RestoreKeepsExact(db: Db, account: nat, m: Message, body: string, newBlob: bool)
    requires Exact(db) && !(newBlob && m.blob in db.refs)
    ensures Exact(Restored(db, account, m, body, newBlob))
  {
    var db' := Restored(db, account, m, body, newBlob);
    var k := Key(account, db.nextId);
    if newBlob {
      forall other
        ensures Referrers(db'.messages, other) == Referrers(db.messages, other) + if other == m.blob then 1 else 0
      {
        ReferrersInsert(db.messages, k, m, other);
      }
    } else if m.blob in db.refs {
      ShareKeepsExact(db, db', k);
    }
  }

  /** A restore as new under a key that is counted takes the body from the messages that name it. */
  lemma RefusedRestoreTakesTheBody(db: Db, account: nat, m: Message, body: string)
    requires Exact(db) && m.blob in db.refs
    ensures var db' := Restored(db, account, m, body, true);
            && db'.messages == db.messages
            && exists k :: k in db'.messages && db'.messages[k].blob == m.blob && m.blob !in db'.blobs
    ensures !Safe(Restored(db, account, m, body, true))
  {
    var db' := Restored(db, account, m, body, true);
    assert ReferrerKeys(db.messages, m.blob) != {};
    var k :| k in ReferrerKeys(db.messages, m.blob);
    assert k in db'.messages && db'.messages[k].blob == m.blob && m.blob !in db'.blobs;
    assert !Backed(db', db'.messages[k].blob);
  }

  /** So restoring keeps the counts exact if and only if it is not such a one. */
  lemma RestoreExactIff(db: Db, account: nat, m: Message, body: string, newBlob: bool)
    requires Exact(db)
    ensures Exact(Restored(db, account, m, body, newBlob)) <==> !(newBlob && m.blob in db.refs)
  {
    if newBlob && m.blob in db.refs {
      RefusedRestoreTakesTheBody(db, account, m, body);
      if Exact(Restored(db, account, m, body, newBlob)) { ExactIsSafe(Restored(db, account, m, body, newBlob)); }
    } else {
      RestoreKeepsExact(db, account, m, body, newBlob);
    }
  }

  /** The same for an append: exact if and only if the drawn key is new, or nothing is stored. */
  lemma AppendExactIff(db: Db, mb: Key, key: string, body: string, info: Info, flags: seq<string>)
    requires Exact(db)
    ensures Exact(Appended(db, mb, key, body, info, flags)) <==> mb !in db.mailboxes || key !in db.refs
  {
    if key !in db.refs {
      AppendKeepsExact(db, mb, key, body, info, flags);
    }
  }

  lemma DeleteKeepsExact(db: Db, k: Key)
    requires Exact(db)
    ensures Exact(Deleted(db, k))
  {
    if CanStamp(db, k) {
      var db', blob := Deleted(db, k), db.messages[k].blob;
      ReferrersPositive(db.messages, k);
      forall key ensures Referrers(db'.messages, key) == Referrers(db.messages, key) - if key == blob then 1 else 0 {
        ReferrersRemove(db.messages, k, key);
      }
    }
  }

  /** DeleteMailbox leaves the counts alone, so they stay right exactly when it had no message. */
  lemma DeleteMailboxExactIff(db: Db, mb: Key)
    requires Exact(db)
    ensures Exact(MailboxDeleted(db, mb)) <==> forall k :: k in db.messages ==> !In(db, k, mb)
  {
    var db' := MailboxDeleted(db, mb);
    if k :| k in db.messages && In(db, k, mb) {
      var blob := db.messages[k].blob;
      ReferrersPositive(db.messages, k);
      assert blob in db'.refs && blob !in db'.blobs;
    } else {
      assert db'.messages == db.messages;
      assert db'.blobs == db.blobs;
    }
  }

  lemma DeleteAccountKeepsExact(db: Db, account: nat)
    requires Exact(db)
    ensures Exact(AccountDeleted(db, account))
  {
    var db', gone := AccountDeleted(db, account), OfAccount(db, account);
    forall key ensures Referrers(db'.messages, key) == Referrers(db.messages, key) - Named(db, gone, key) {
      ReferrersWithout(db, gone, key);
    }
  }

  lemma ReferrersWithout(db: Db, gone: set<Key>, key: string)
    ensures Referrers(db.messages - gone, key) == Referrers(db.messages, key) - Named(db, gone, key)
  {
    var all := ReferrerKeys(db.messages, key);
    var named := set k | k in gone && k in db.messages && db.messages[k].blob == key;
    assert ReferrerKeys(db.messages - gone, key) == all - named;
    assert named <= all;
  }

  /** An operation that cannot break the counts: legal, and no deletion of a mailbox with messages. */
  ghost predicate Harmless(db: Db, op: Op) {
    Legal(db, op) && (op.DeleteMailbox? ==> forall k :: k in db.messages ==> !In(db, k, op.mb))
  }

  ghost predicate HarmlessRun(db: Db, ops: seq<Op>)
    decreases |ops|
  {
    ops != [] ==> Harmless(db, ops[0]) && HarmlessRun(Step(db, ops[0]), ops[1..])
  }

  lemma StampStepKeepsExact(db: Db, op: Op)
    requires Exact(db) && (op.SetFlags? || op.AddFlags? || op.RemoveFlags? || op.Move?)
    ensures Exact(Step(db, op))
  {
    match op
    case SetFlags(k, flags) => if CanStamp(db, k) { StampKeepsExact(db, Step(db, op), k); }
    case AddFlags(k, flags) => if CanStamp(db, k) { StampKeepsExact(db, Step(db, op), k); }
    case RemoveFlags(k, flags) => if CanStamp(db, k) { StampKeepsExact(db, Step(db, op), k); }
    case Move(k, dest) => if CanMove(db, k, dest) { StampKeepsExact(db, Step(db, op), k); }
  }

  lemma StepKeepsExact(db: Db, op: Op)
    requires Exact(db) && Harmless(db, op)
    ensures Exact(Step(db, op))
  {
    match op
    case CreateMailbox(_, _) =>
    case Append(mb, key, body, info, flags) => AppendKeepsExact(db, mb, key, body, info, flags);
    case Copy(k, dest) => if CanCopy(db, k, dest) { ShareKeepsExact(db, Step(db, op), Key(k.account, db.nextId)); }
    case Restore(account, m, body, newBlob) => RestoreKeepsExact(db, account, m, body, newBlob);
    case Delete(k) => DeleteKeepsExact(db, k);
    case DeleteMailbox(mb) => DeleteMailboxExactIff(db, mb);
    case DeleteAccount(account) => DeleteAccountKeepsExact(db, account);
    case _ => StampStepKeepsExact(db, op);
  }

  /** In every run of such operations the counts stay right. */
  lemma {:induction false} CountsExactInEveryRun(db: Db, ops: seq<Op>)
    requires Exact(db) && HarmlessRun(db, ops)
    ensures Exact(Run(db, ops))
    decreases |ops|
  {
    if ops != [] {
      StepKeepsExact(db, ops[0]);
      CountsExactInEveryRun(Step(db, ops[0]), ops[1..]);
    }
  }

  // ---- safe counts under failing calls --------------------------------------------------------

  lemma LeavesKeepsSafe(db: Db, db': Db, key: string)
    requires Safe(db) && Leaves(db, db', key)
    ensures Safe(db')
  {
    forall k | k in db'.messages ensures Backed(db', db'.messages[k].blob) {
      var blob := db.messages[k].blob;
      ReferrersPositive(db.messages, k);
      assert Backed(db, blob);
      if blob != key {
        assert blob in db.refs - {key} && blob in db.blobs - {key};
        assert blob in db'.refs - {key} && blob in db'.blobs - {key};
        assert (db'.refs - {key})[blob] == (db.refs - {key})[blob];
      }
    }
  }

  lemma ForgetsKeepsSafe(db: Db, db': Db, k: Key)
    requires Safe(db) && k in db.messages && Forgets(db, db', k)
    ensures Safe(db')
  {
    var key := db.messages[k].blob;
    forall j | j in db'.messages ensures Backed(db', db'.messages[j].blob) {
      var blob := db.messages[j].blob;
      ReferrersRemove(db.messages, k, blob);
      ReferrersPositive(db'.messages, j);
      assert Backed(db, blob);
      if blob != key {
        assert blob in db.refs - {key} && blob in db.blobs - {key};
        assert blob in db'.refs - {key} && blob in db'.blobs - {key};
        assert (db'.refs - {key})[blob] == (db.refs - {key})[blob];
      }
    }
  }

  /** One document more, backed by one unit more. */
  lemma InsertKeepsSafe(db: Db, db': Db, k: Key)
    requires Safe(db) && k.id == db.nextId && db'.nextId == db.nextId + 1
    requires k in db'.messages && db'.messages == db.messages[k := db'.messages[k]]
    requires db'.mailboxes.Keys == db.mailboxes.Keys && db.blobs.Keys <= db'.blobs.Keys
    requires var key := db'.messages[k].blob;
             && key in db'.blobs && key in db'.refs && db'.refs == db.refs[key := db'.refs[key]]
             && db'.refs[key] >= Referrers(db.messages, key) + 1
    ensures Safe(db')
  {
    forall j | j in db'.messages ensures Backed(db', db'.messages[j].blob) {
      ReferrersInsert(db.messages, k, db'.messages[k], db'.messages[j].blob);
      assert j != k ==> Backed(db, db.messages[j].blob);
    }
  }

  lemma UpdateKeepsSafe(db: Db, db': Db, k: Key)
    requires Safe(db) && k in db.messages && k in db'.messages && db'.messages[k].blob == db.messages[k].blob
    requires db'.messages == db.messages[k := db'.messages[k]]
    requires db'.refs == db.refs && db'.blobs == db.blobs && db'.nextId == db.nextId
    requires db'.mailboxes.Keys == db.mailboxes.Keys
    ensures Safe(db')
  {
    forall j | j in db'.messages ensures Backed(db', db'.messages[j].blob) {
      ReferrersUpdate(db.messages, k, db'.messages[k], db'.messages[j].blob);
      assert Backed(db, db.messages[j].blob);
    }
  }

  /** The documents an operation is to destroy. */
  function Targets(db: Db, op: Op): set<Key> {
    match op
    case DeleteMailbox(mb) => OfMailbox(db, mb)
    case DeleteAccount(account) => OfAccount(db, account)
    case _ => {}
  }

  /** No message outside a mailbox that is deleted names a body of one inside. */
  ghost predicate Sparing(db: Db, op: Op) {
    op.DeleteMailbox? ==>
      forall j, k :: j in db.messages && k in db.messages && In(db, j, op.mb) && !In(db, k, op.mb) ==>
        db.messages[j].blob != db.messages[k].blob
  }

  /** Every message outside `lost` has its body, with a count for all of these. */
  ghost predicate SafeBut(db: Db, lost: set<Key>) {
    && IdsFresh(db)
    && forall k :: k in db.messages && k !in lost ==> BackedBut(db, lost, db.messages[k].blob)
  }

  predicate BackedBut(db: Db, lost: set<Key>, key: string) {
    key in db.blobs && key in db.refs && db.refs[key] >= Referrers(db.messages - lost, key)
  }

  /** In a safe store no message names a key without a count. */
  lemma UncountedIsUnnamed(db: Db, key: string)
    requires Safe(db) && key !in db.refs
    ensures Referrers(db.messages, key) == 0
  {
    forall k | k in db.messages ensures db.messages[k].blob != key {
      assert Backed(db, db.messages[k].blob);
    }
    assert ReferrerKeys(db.messages, key) == {};
  }

  lemma AppendKeepsSafe(db: Db, mb: Key, key: string, body: string, info: Info, flags: seq<string>)
    requires Safe(db) && key !in db.refs
    ensures Safe(Appended(db, mb, key, body, info, flags))
  {
    if mb in db.mailboxes {
      UncountedIsUnnamed(db, key);
      InsertKeepsSafe(db, Appended(db, mb, key, body, info, flags), Key(mb.account, db.nextId));
    }
  }

  lemma CopyKeepsSafe(db: Db, k: Key, dest: nat)
    requires Safe(db)
    ensures Safe(Copied(db, k, dest))
  {
    if CanCopy(db, k, dest) {
      assert Backed(db, db.messages[k].blob);
      InsertKeepsSafe(db, Copied(db, k, dest), Key(k.account, db.nextId));
    }
  }

  lemma RestoreKeepsSafe(db: Db, account: nat, m: Message, body: string, newBlob: bool)
    requires Safe(db) && Legal(db, Restore(account, m, body, newBlob))
    ensures Safe(Restored(db, account, m, body, newBlob))
  {
    if newBlob { UncountedIsUnnamed(db, m.blob); }
    if newBlob || m.blob in db.refs {
      InsertKeepsSafe(db, Restored(db, account, m, body, newBlob), Key(account, db.nextId));
    }
  }

  lemma DeleteKeepsSafe(db: Db, k: Key)
    requires Safe(db)
    ensures Safe(Deleted(db, k))
  {
    if CanStamp(db, k) {
      var db', key := Deleted(db, k), db.messages[k].blob;
      assert Backed(db, key);
      ReferrersPositive(db.messages, k);
      assert Forgets(db, db', k);
      ForgetsKeepsSafe(db, db', k);
    }
  }

  lemma StampStepKeepsSafe(db: Db, op: Op)
    requires Safe(db) && (op.SetFlags? || op.AddFlags? || op.RemoveFlags? || op.Move?)
    ensures Safe(Step(db, op))
  {
    match op
    case SetFlags(k, flags) => if CanStamp(db, k) { UpdateKeepsSafe(db, Step(db, op), k); }
    case AddFlags(k, flags) => if CanStamp(db, k) { UpdateKeepsSafe(db, Step(db, op), k); }
    case RemoveFlags(k, flags) => if CanStamp(db, k) { UpdateKeepsSafe(db, Step(db, op), k); }
    case Move(k, dest) => if CanMove(db, k, dest) { UpdateKeepsSafe(db, Step(db, op), k); }
  }

  lemma CreateKeepsSafe(db: Db, account: nat, mailbox: Mailbox)
    requires Safe(db)
    ensures Safe(InsertMailbox(db, account, mailbox))
  {
    var db' := InsertMailbox(db, account, mailbox);
    forall k | k in db'.messages ensures Backed(db', db'.messages[k].blob) {
      assert Backed(db, db.messages[k].blob);
    }
  }

  /** Deleting a mailbox takes its bodies, so the rest stays backed exactly when it shares none. */
  lemma DeleteMailboxSafeIff(db: Db, mb: Key)
    requires Safe(db)
    ensures Safe(MailboxDeleted(db, mb)) <==> Sparing(db, DeleteMailbox(mb))
  {
    var db' := MailboxDeleted(db, mb);
    if j, k :| j in db.messages && k in db.messages && In(db, j, mb) && !In(db, k, mb)
               && db.messages[j].blob == db.messages[k].blob {
      assert j in OfMailbox(db, mb) && k in db'.messages && db'.messages[k].blob !in db'.blobs;
      assert !Backed(db', db'.messages[k].blob);
    } else {
      forall k | k in db'.messages ensures Backed(db', db'.messages[k].blob) {
        assert Backed(db, db.messages[k].blob) && k in db.messages && !In(db, k, mb);
        ReferrersWithout(db, OfMailbox(db, mb), db.messages[k].blob);
      }
    }
  }

  /** What is left of a body's count when some of an account's references are gone. */
  lemma ReleasedKeeps(db: Db, gone: set<Key>, lost: set<Key>, k: Key)
    requires Safe(db) && gone <= lost && k in db.messages && k !in lost
    ensures var key, now := db.messages[k].blob, Released(db, gone);
            && key in now.blobs && key in now.refs && now.refs[key] == db.refs[key] - Named(db, gone, key)
            && now.refs[key] >= Referrers(db.messages - lost, key) + Named(db, lost, key) - Named(db, gone, key)
            && Referrers(db.messages - lost, key) >= 1
  {
    var key := db.messages[k].blob;
    assert Backed(db, key);
    ReferrersWithout(db, lost, key);
    NamedGrows(db, gone, lost, key);
    ReferrersPositive(db.messages - lost, k);
  }

  lemma NamedGrows(db: Db, gone: set<Key>, lost: set<Key>, key: string)
    requires gone <= lost
    ensures Named(db, gone, key) <= Named(db, lost, key)
    ensures forall k :: k in lost - gone && k in db.messages && db.messages[k].blob == key ==>
      Named(db, gone, key) < Named(db, lost, key)
  {
    var a := set k | k in gone && k in db.messages && db.messages[k].blob == key;
    var b := set k | k in lost && k in db.messages && db.messages[k].blob == key;
    SmallerSet(a, b);
    forall k | k in lost - gone && k in db.messages && db.messages[k].blob == key ensures |a| < |b| {
      SmallerSet(a + {k}, b);
    }
  }

  lemma {:induction false} SmallerSet(a: set<Key>, b: set<Key>)
    requires a <= b
    ensures |a| <= |b|
  {
    assert b == a + (b - a);
  }

  lemma DeleteAccountKeepsSafe(db: Db, account: nat)
    requires Safe(db)
    ensures Safe(AccountDeleted(db, account))
  {
    var db', gone := AccountDeleted(db, account), OfAccount(db, account);
    forall k | k in db'.messages ensures Backed(db', db'.messages[k].blob) {
      assert k in db.messages && k !in gone;
      ReleasedKeeps(db, gone, gone, k);
      assert db'.messages == db.messages - gone;
    }
  }

  /** A deletion of an account that fails half way spares every message of the others. */
  lemma FailedAccountSpares(db: Db, db': Db, account: nat)
    requires Safe(db) && db' == db.(refs := db'.refs, blobs := db'.blobs) && PartlyReleased(db, db', account)
    ensures SafeBut(db', OfAccount(db, account))
  {
    var lost := OfAccount(db, account);
    var gone :| gone <= lost && ReleasedSome(db, db', account, gone);
    forall k | k in db'.messages && k !in lost ensures BackedBut(db', lost, db'.messages[k].blob) {
      FailedSparesOne(db, db', account, gone, k);
    }
  }

  lemma FailedSparesOne(db: Db, db': Db, account: nat, gone: set<Key>, k: Key)
    requires Safe(db) && gone <= OfAccount(db, account) && ReleasedSome(db, db', account, gone)
    requires db'.messages == db.messages && k in db.messages && k !in OfAccount(db, account)
    ensures BackedBut(db', OfAccount(db, account), db.messages[k].blob)
  {
    var lost, key, now := OfAccount(db, account), db.messages[k].blob, Released(db, gone);
    var least := Referrers(db.messages - lost, key);
    ReleasedKeeps(db, gone, lost, k);
    NamedGrows(db, gone, lost, key);
    if !(db'.refs == now.refs && db'.blobs == now.blobs) {
      var j :| j in lost - gone && HalfDropped(now, db', db.messages[j].blob);
      HalfKeeps(now, db', db.messages[j].blob, key, least);
    }
  }

  lemma HalfKeeps(db: Db, db': Db, dropped: string, key: string, least: nat)
    requires HalfDropped(db, db', dropped) && key in db.blobs && key in db.refs
    requires db.refs[key] >= least >= 1 && (dropped == key ==> db.refs[key] > least)
    ensures key in db'.blobs && key in db'.refs && db'.refs[key] >= least
  {
    if dropped != key {
      assert key in db.refs - {dropped} && key in db.blobs - {dropped};
      assert (db'.refs - {dropped})[key] == db'.refs[key];
    }
  }

  /** A deletion of a mailbox that fails half way spares every message outside, if it shares no body with one inside. */
  lemma FailedMailboxSpares(db: Db, db': Db, mb: Key)
    requires Safe(db) && db' == db.(blobs := db'.blobs, messages := db'.messages) && PartlyDeleted(db, db', mb)
    requires Sparing(db, DeleteMailbox(mb))
    ensures SafeBut(db', OfMailbox(db, mb))
  {
    var lost := OfMailbox(db, mb);
    var gone :| gone <= lost && BodiesGone(db, db', mb, gone);
    forall k | k in db'.messages && k !in lost ensures BackedBut(db', lost, db'.messages[k].blob) {
      assert Backed(db, db.messages[k].blob) && !In(db, k, mb);
      ReferrersWithout(db, lost, db.messages[k].blob);
      assert db'.messages - lost == db.messages - lost;
    }
  }

  lemma NothingLost(db: Db)
    ensures SafeBut(db, {}) <==> Safe(db)
  {
    assert db.messages - {} == db.messages;
  }

  /** Every legal operation that succeeds is safe. */
  lemma StepKeepsSafe(db: Db, op: Op)
    requires Safe(db) && Legal(db, op) && Sparing(db, op)
    ensures Safe(Step(db, op))
  {
    match op
    case CreateMailbox(account, mailbox) => CreateKeepsSafe(db, account, mailbox);
    case Append(mb, key, body, info, flags) => AppendKeepsSafe(db, mb, key, body, info, flags);
    case Copy(k, dest) => CopyKeepsSafe(db, k, dest);
    case Restore(account, m, body, newBlob) => RestoreKeepsSafe(db, account, m, body, newBlob);
    case Delete(k) => DeleteKeepsSafe(db, k);
    case DeleteMailbox(mb) => DeleteMailboxSafeIff(db, mb);
    case DeleteAccount(account) => DeleteAccountKeepsSafe(db, account);
    case _ => StampStepKeepsSafe(db, op);
  }

  /** One flag change or move against a live store. */
  method ServeStamp(s: Store, op: Op)
    requires op.SetFlags? || op.AddFlags? || op.RemoveFlags? || op.Move?
    modifies s
    ensures Safe(old(s.db)) ==> Safe(s.db)
    ensures old(s.faults) == [] ==> s.faults == [] && s.db == Step(old(s.db), op)
  {
    ghost var db := s.db;
    var failed := false;
    match op {
      case SetFlags(k, flags) => var r := s.ModifyFlags(k, flags); failed := r.Err?;
      case AddFlags(k, flags) => var r := s.AddFlags(k, flags); failed := r.Err?;
      case RemoveFlags(k, flags) => var r := s.RemoveFlags(k, flags); failed := r.Err?;
      case Move(k, dest) => var r := s.MoveMessage(k, dest); failed := r.Err?;
    }
    if Safe(db) {
      if failed { LeavesKeepsSafe(db, s.db, ""); } else { StampStepKeepsSafe(db, op); }
    }
  }

  /** A message, made, copied, restored or deleted, against a live store. */
  method ServeMessage(s: Store, op: Op)
    requires op.Append? || op.Copy? || op.Restore? || op.Delete?
    modifies s
    ensures Safe(old(s.db)) && Legal(old(s.db), op) ==> Safe(s.db)
    ensures old(s.faults) == [] ==> s.faults == [] && s.db == Step(old(s.db), op)
  {
    ghost var db := s.db;
    ghost var sound := Safe(db) && Legal(db, op);
    if sound { StepKeepsSafe(db, op); }
    match op {
      case Append(mb, key, body, info, flags) =>
        var r := s.AppendMessage(mb, key, body, info, flags);
        if r.Err? && sound { LeavesKeepsSafe(db, s.db, key); }
      case Copy(k, dest) =>
        var r := s.CopyMessage(k, dest);
        if r.Err? && sound { CopyFailsSafely(db, s.db, k); }
      case Restore(account, m, body, newBlob) =>
        var r := s.RestoreMessage(account, m, body, newBlob);
        if r.Err? && sound { LeavesKeepsSafe(db, s.db, m.blob); }
      case Delete(k) =>
        var _ := s.DeleteMessage(k);
        if sound { DeleteFailsSafely(db, s.db, k); }
    }
  }

  /** What is lost at most: nothing, unless a mailbox or account was being deleted and that failed. */
  function Lost(db: Db, op: Op, ok: bool): set<Key> {
    if ok then {} else Targets(db, op)
  }

  /** A mailbox or an account. `ok` says that the operation went through. */
  method ServeOwner(s: Store, op: Op) returns (ok: bool)
    requires op.CreateMailbox? || op.DeleteMailbox? || op.DeleteAccount?
    modifies s
    ensures Safe(old(s.db)) && Sparing(old(s.db), op) ==> SafeBut(s.db, Lost(old(s.db), op, ok))
    ensures old(s.faults) == [] ==> ok && s.faults == [] && s.db == Step(old(s.db), op)
  {
    ghost var db := s.db;
    match op {
      case CreateMailbox(account, mailbox) =>
        ok := s.Call();
        if ok { s.db := InsertMailbox(s.db, account, mailbox); }
      case DeleteMailbox(mb) => ok := s.DeleteMailbox(mb);
      case DeleteAccount(account) => ok := s.DeleteAccount(account);
    }
    if Safe(db) && Sparing(db, op) { OwnerServed(db, op, s.db, ok); }
  }

  lemma OwnerServed(db: Db, op: Op, db': Db, ok: bool)
    requires Safe(db) && Sparing(db, op) && (op.CreateMailbox? || op.DeleteMailbox? || op.DeleteAccount?)
    requires ok ==> db' == Step(db, op)
    requires !ok && op.CreateMailbox? ==> db' == db
    requires !ok && op.DeleteMailbox? ==>
      db' == db.(blobs := db'.blobs, messages := db'.messages) && PartlyDeleted(db, db', op.mb)
    requires !ok && op.DeleteAccount? ==>
      db' == db.(refs := db'.refs, blobs := db'.blobs) && PartlyReleased(db, db', op.account)
    ensures SafeBut(db', Lost(db, op, ok))
  {
    NothingLost(db');
    if ok {
      StepKeepsSafe(db, op);
    } else if op.DeleteMailbox? {
      FailedMailboxSpares(db, db', op.mb);
    } else if op.DeleteAccount? {
      FailedAccountSpares(db, db', op.account);
    }
  }

  /** One operation against a live store, whatever calls fail. */
  method Serve(s: Store, op: Op) returns (ok: bool)
    modifies s
    ensures Safe(old(s.db)) && Legal(old(s.db), op) && Sparing(old(s.db), op) ==> SafeBut(s.db, Lost(old(s.db), op, ok))
    ensures old(s.faults) == [] ==> ok && s.faults == [] && s.db == Step(old(s.db), op)
  {
    ok := true;
    if op.SetFlags? || op.AddFlags? || op.RemoveFlags? || op.Move? {
      ServeStamp(s, op);
    } else if op.Append? || op.Copy? || op.Restore? || op.Delete? {
      ServeMessage(s, op);
    } else {
      ok := ServeOwner(s, op);
      return;
    }
    NothingLost(s.db);
  }

  lemma CopyFailsSafely(db: Db, db': Db, k: Key)
    requires Safe(db) && (OnlyCounters(db, db') || (k in db.messages && Leaves(db, db', db.messages[k].blob)))
    ensures Safe(db')
  {
    if OnlyCounters(db, db') { LeavesKeepsSafe(db, db', ""); } else { LeavesKeepsSafe(db, db', db.messages[k].blob); }
  }

  lemma DeleteFailsSafely(db: Db, db': Db, k: Key)
    requires Safe(db) && (OnlyCounters(db, db') || (k in db.messages && Forgets(db, db', k)))
    ensures Safe(db')
  {
    if OnlyCounters(db, db') { LeavesKeepsSafe(db, db', ""); } else { ForgetsKeepsSafe(db, db', k); }
  }

  /** Every run of operations against a live store, for every pattern of failing calls: while each is
      legal when it comes, spares what is shared, and leaves no deletion half done, no message ever lacks
      its body. `dbs` are the states between. */
  method ServeAll(s: Store, ops: seq<Op>) returns (ghost dbs: seq<Db>, oks: seq<bool>)
    requires Safe(s.db) || Exact(s.db)
    modifies s
    ensures |oks| == |ops| && |dbs| == |ops| + 1 && dbs[0] == old(s.db) && dbs[|ops|] == s.db
    ensures forall n :: 0 <= n <= |ops| && FairUntil(dbs, ops, oks, n) ==> Safe(dbs[n])
    ensures old(s.faults) == [] ==> s.db == Run(old(s.db), ops)
  {
    dbs, oks := [s.db], [];
    if Exact(s.db) { ExactIsSafe(s.db); }
    for i := 0 to |ops|
      invariant |oks| == i && |dbs| == i + 1 && dbs[0] == old(s.db) && dbs[i] == s.db
      invariant forall n :: 0 <= n <= i && FairUntil(dbs, ops, oks, n) ==> Safe(dbs[n])
      invariant old(s.faults) == [] ==> s.faults == [] && Run(s.db, ops[i..]) == Run(old(s.db), ops)
    {
      assert ops[i..][1..] == ops[i + 1..];
      ghost var before := s.db;
      var ok := Serve(s, ops[i]);
      if Fair(before, ops[i], ok) { NothingLost(s.db); }
      ServedOneMore(dbs, ops, oks, i, s.db, ok);
      dbs, oks := dbs + [s.db], oks + [ok];
    }
    assert ops[|ops|..] == [];
  }

  /** Legal, sparing what is shared, and not a deletion of documents that failed. */
  ghost predicate Fair(db: Db, op: Op, ok: bool) {
    Legal(db, op) && Sparing(db, op) && Lost(db, op, ok) == {}
  }

  /** The first n operations were fair when they came. */
  ghost predicate FairUntil(dbs: seq<Db>, ops: seq<Op>, oks: seq<bool>, n: nat) {
    n <= |dbs| && n <= |ops| && n <= |oks| && forall i :: 0 <= i < n ==> Fair(dbs[i], ops[i], oks[i])
  }

  lemma ServedOneMore(dbs: seq<Db>, ops: seq<Op>, oks: seq<bool>, i: nat, db: Db, ok: bool)
    requires |dbs| == i + 1 && |oks| == i && i < |ops|
    requires forall n :: 0 <= n <= i && FairUntil(dbs, ops, oks, n) ==> Safe(dbs[n])
    requires Safe(dbs[i]) && Fair(dbs[i], ops[i], ok) ==> Safe(db)
    ensures forall n :: 0 <= n <= i + 1 && FairUntil(dbs + [db], ops, oks + [ok], n) ==> Safe((dbs + [db])[n])
  {
    var all, told := dbs + [db], oks + [ok];
    forall n | 0 <= n <= i + 1 && FairUntil(all, ops, told, n) ensures Safe(all[n]) {
      forall j | 0 <= j < n && j < i ensures Fair(dbs[j], ops[j], oks[j]) {
        assert Fair(all[j], ops[j], told[j]);
      }
      if n <= i {
        assert FairUntil(dbs, ops, oks, n);
      } else {
        assert Fair(all[i], ops[i], told[i]);
        assert FairUntil(dbs, ops, oks, i);
      }
    }
  }
}
