/** The documents and the atomic database calls of internal/store.

    Every collection is a map (or, for the expunge log, a sequence); every function below is one
    call to the database: an insert, a delete, or a `find_and_modify`, which reads back the
    document it has just changed. */
module Database {

  /** A per-account collection gives each document its own `_id`. */
  datatype Key = Key(account: nat, id: nat)

  datatype Mailbox = Mailbox(name: string, uidNext: nat, uidValidity: nat, highestModSeq: nat)

  /** The header fields a message carries unchanged through its life. */
  datatype Info = Info(size: nat, internalDate: string, messageId: string, subject: string, fromAddr: string)

  datatype Message = Message(mailbox: nat, uid: nat, blob: string, flags: seq<string>, modSeq: nat, info: Info)

  datatype ExpungeRecord = ExpungeRecord(mailbox: Key, uid: nat, modSeq: nat)

  datatype Db = Db(
    mailboxes: map<Key, Mailbox>,
    messages: map<Key, Message>,
    refs: map<string, int>,       // blob key -> stored count
    blobs: map<string, string>,   // blob key -> body
    expunged: seq<ExpungeRecord>,
    nextId: nat)                  // every `_id` handed out so far is smaller

  /** The mailbox a message document belongs to. */
  function Home(db: Db, k: Key): (mb: Key)
    requires k in db.messages
  {
    Key(k.account, db.messages[k].mailbox)
  }

  predicate In(db: Db, k: Key, mb: Key) {
    k in db.messages && Home(db, k) == mb
  }

  // ---- atomic calls ---------------------------------------------------------------------------

  function InsertMailbox(db: Db, account: nat, m: Mailbox): Db {
    db.(mailboxes := db.mailboxes[Key(account, db.nextId) := m], nextId := db.nextId + 1)
  }

  /** `$inc uidnext`: the UID allocated is the counter before the call. */
  function BumpUid(db: Db, mb: Key): Db
    requires mb in db.mailboxes
  {
    var m := db.mailboxes[mb];
    db.(mailboxes := db.mailboxes[mb := m.(uidNext := m.uidNext + 1)])
  }

  /** `$inc highest_modseq`: the mod-sequence allocated is the counter after the call. */
  function BumpModSeq(db: Db, mb: Key): Db
    requires mb in db.mailboxes
  {
    var m := db.mailboxes[mb];
    db.(mailboxes := db.mailboxes[mb := m.(highestModSeq := m.highestModSeq + 1)])
  }

  function InsertMessage(db: Db, account: nat, m: Message): Db {
    db.(messages := db.messages[Key(account, db.nextId) := m], nextId := db.nextId + 1)
  }

  function SetMessage(db: Db, k: Key, m: Message): Db {
    db.(messages := db.messages[k := m])
  }

  function RemoveMessage(db: Db, k: Key): Db {
    db.(messages := db.messages - {k})
  }

  function LogExpunge(db: Db, r: ExpungeRecord): Db {
    db.(expunged := db.expunged + [r])
  }

  function PutObject(db: Db, key: string, body: string): Db {
    db.(blobs := db.blobs[key := body])
  }

  function DeleteObject(db: Db, key: string): Db {
    db.(blobs := db.blobs - {key})
  }

  function SetRef(db: Db, key: string, n: int): Db {
    db.(refs := db.refs[key := n])
  }

  function DeleteRef(db: Db, key: string): Db {
    db.(refs := db.refs - {key})
  }

  // ---- counting referrers ---------------------------------------------------------------------

  /** The messages naming a body. */
  function ReferrerKeys(messages: map<Key, Message>, key: string): set<Key> {
    set k | k in messages && messages[k].blob == key
  }

  function Referrers(messages: map<Key, Message>, key: string): nat {
    |ReferrerKeys(messages, key)|
  }

  /** Inserting a document adds one referrer to its own body and none to any other. */
  lemma ReferrersInsert(messages: map<Key, Message>, k: Key, m: Message, key: string)
    requires k !in messages
    ensures Referrers(messages[k := m], key) == Referrers(messages, key) + if m.blob == key then 1 else 0
  {
    var before, after := ReferrerKeys(messages, key), ReferrerKeys(messages[k := m], key);
    assert after == if m.blob == key then before + {k} else before;
  }

  /** Removing a document takes one referrer from its own body and none from any other. */
  lemma ReferrersRemove(messages: map<Key, Message>, k: Key, key: string)
    requires k in messages
    ensures Referrers(messages - {k}, key) == Referrers(messages, key) - if messages[k].blob == key then 1 else 0
  {
    var before, after := ReferrerKeys(messages, key), ReferrerKeys(messages - {k}, key);
    assert after == if messages[k].blob == key then before - {k} else before;
  }

  /** Rewriting a document without touching its body changes no count. */
  lemma ReferrersUpdate(messages: map<Key, Message>, k: Key, m: Message, key: string)
    requires k in messages && messages[k].blob == m.blob
    ensures Referrers(messages[k := m], key) == Referrers(messages, key)
  {
    assert ReferrerKeys(messages[k := m], key) == ReferrerKeys(messages, key);
  }

  lemma ReferrersPositive(messages: map<Key, Message>, k: Key)
    requires k in messages
    ensures Referrers(messages, messages[k].blob) > 0
  {
    assert k in ReferrerKeys(messages, messages[k].blob);
  }

  // ---- invariants -----------------------------------------------------------------------------

  ghost predicate IdsFresh(db: Db) {
    && (forall k :: k in db.messages ==> k.id < db.nextId)
    && (forall k :: k in db.mailboxes ==> k.id < db.nextId)
  }

  /** Every count equals the number of referrers, and a body exists exactly while it has one. */
  ghost predicate Exact(db: Db) {
    && IdsFresh(db)
    && db.refs.Keys == db.blobs.Keys
    && (forall key :: key in db.refs <==> Referrers(db.messages, key) > 0)
    && (forall key :: key in db.refs ==> db.refs[key] == Referrers(db.messages, key))
  }

  /** What survives failing calls: no message lacks its body, and no count is too small. */
  ghost predicate Safe(db: Db) {
    && IdsFresh(db)
    && (forall k :: k in db.messages ==> Backed(db, db.messages[k].blob))
  }

  predicate Backed(db: Db, key: string) {
    key in db.blobs && key in db.refs && db.refs[key] >= Referrers(db.messages, key)
  }

  /** A key no document, body or count knows: what newBlobKey draws. */
  predicate Unused(db: Db, key: string) {
    key !in db.refs && key !in db.blobs && forall k :: k in db.messages ==> db.messages[k].blob != key
  }

  lemma ExactIsSafe(db: Db)
    requires Exact(db)
    ensures Safe(db)
  {
    forall k | k in db.messages ensures Backed(db, db.messages[k].blob) {
      ReferrersPositive(db.messages, k);
    }
  }
}
