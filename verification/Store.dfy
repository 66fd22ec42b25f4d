/** The message operations of internal/store: appending, flagging, copying, moving, restoring and
    deleting, each a short sequence of database calls any of which may fail. */
module MailStore {
  import opened Database

  datatype Error = NotFound | Unavailable | Uncounted
  datatype Result<T> = Ok(value: T) | Err(error: Error)

  // ---- flag lists -----------------------------------------------------------------------------

  /** `a` followed by the entries of `b` not seen before. */
  function Union(a: seq<string>, b: seq<string>): seq<string>
    decreases |b|
  {
    if b == [] then a else Union(if b[0] in a then a else a + [b[0]], b[1..])
  }

  function Minus(a: seq<string>, b: seq<string>): seq<string> {
    if a == [] then [] else (if a[0] in b then [] else [a[0]]) + Minus(a[1..], b)
  }

  /** Union keeps `a` as a prefix, holds exactly the entries of both, and adds each new one once. */
  lemma {:induction false} UnionMeaning(a: seq<string>, b: seq<string>)
    ensures a <= Union(a, b)
    ensures forall f :: f in Union(a, b) <==> f in a || f in b
    ensures forall i, j :: |a| <= i < j < |Union(a, b)| ==> Union(a, b)[i] != Union(a, b)[j]
    ensures forall i :: |a| <= i < |Union(a, b)| ==> Union(a, b)[i] !in a
    decreases |b|
  {
    if b != [] {
      var a' := if b[0] in a then a else a + [b[0]];
      UnionMeaning(a', b[1..]);
      assert b == [b[0]] + b[1..];
      assert a <= a';
      forall i, j | |a| <= i < j < |Union(a, b)| ensures Union(a, b)[i] != Union(a, b)[j] {
        if i < |a'| {
          assert Union(a, b)[i] == a'[i] == b[0];
          assert a'[i] in a';
        }
      }
    }
  }

  /** Minus holds exactly the entries of `a` outside `b`. */
  lemma {:induction false} MinusMeaning(a: seq<string>, b: seq<string>)
    ensures forall f :: f in Minus(a, b) <==> f in a && f !in b
  {
    if a != [] {
      MinusMeaning(a[1..], b);
      assert a == [a[0]] + a[1..];
    }
  }

  method UnionStrings(a: seq<string>, b: seq<string>) returns (out: seq<string>)
    ensures out == Union(a, b)
  {
    out := a;
    var seen := set v | v in a;
    for i := 0 to |b|
      invariant seen == set v | v in out
      invariant Union(out, b[i..]) == Union(a, b)
    {
      assert b[i..][1..] == b[i + 1..];
      if b[i] !in seen {
        out := out + [b[i]];
        seen := seen + {b[i]};
      }
    }
    assert b[|b|..] == [];
  }

  method MinusStrings(a: seq<string>, b: seq<string>) returns (out: seq<string>)
    ensures out == Minus(a, b)
  {
    var drop := set v | v in b;
    out := [];
    for i := 0 to |a|
      invariant out + Minus(a[i..], b) == Minus(a, b)
    {
      assert a[i..][1..] == a[i + 1..];
      if a[i] !in drop {
        out := out + [a[i]];
      }
    }
    assert a[|a|..] == [];
  }

  // ---- what each operation does when every call succeeds --------------------------------------

  /** A key that is counted already is refused its count row, and the clean-up removes its body. */
  function Appended(db: Db, mb: Key, key: string, body: string, info: Info, flags: seq<string>): Db {
    if mb !in db.mailboxes then db else
    var stamped := BumpModSeq(BumpUid(db, mb), mb);
    if key in db.refs then DeleteObject(stamped, key) else
    InsertMessage(SetRef(PutObject(stamped, key, body), key, 1), mb.account,
                  Message(mb.id, db.mailboxes[mb].uidNext, key, flags, db.mailboxes[mb].highestModSeq + 1, info))
  }

  predicate CanStamp(db: Db, k: Key) {
    k in db.messages && Home(db, k) in db.mailboxes
  }

  function FlagsSet(db: Db, k: Key, flags: seq<string>): Db {
    if !CanStamp(db, k) then db else
    var mb := Home(db, k);
    SetMessage(BumpModSeq(db, mb), k,
               db.messages[k].(flags := flags, modSeq := db.mailboxes[mb].highestModSeq + 1))
  }

  function FlagsAdded(db: Db, k: Key, flags: seq<string>): Db {
    if k !in db.messages then db else FlagsSet(db, k, Union(db.messages[k].flags, flags))
  }

  function FlagsRemoved(db: Db, k: Key, flags: seq<string>): Db {
    if k !in db.messages then db else FlagsSet(db, k, Minus(db.messages[k].flags, flags))
  }

  predicate CanMove(db: Db, k: Key, dest: nat) {
    k in db.messages && db.messages[k].mailbox != dest && Key(k.account, dest) in db.mailboxes
  }

  function Moved(db: Db, k: Key, dest: nat): Db {
    if !CanMove(db, k, dest) then db else
    var mb := Key(k.account, dest);
    SetMessage(BumpModSeq(BumpUid(db, mb), mb), k,
               db.messages[k].(mailbox := dest, uid := db.mailboxes[mb].uidNext,
                               modSeq := db.mailboxes[mb].highestModSeq + 1))
  }

  predicate CanCopy(db: Db, k: Key, dest: nat) {
    k in db.messages && Key(k.account, dest) in db.mailboxes && db.messages[k].blob in db.refs
  }

  function Copied(db: Db, k: Key, dest: nat): Db {
    if !CanCopy(db, k, dest) then db else
    var mb := Key(k.account, dest);
    var blob := db.messages[k].blob;
    InsertMessage(BumpModSeq(BumpUid(SetRef(db, blob, db.refs[blob] + 1), mb), mb), k.account,
                  db.messages[k].(mailbox := dest, uid := db.mailboxes[mb].uidNext,
                                  modSeq := db.mailboxes[mb].highestModSeq + 1))
  }

  lemma CopiedIs(db: Db, k: Key, dest: nat)
    requires CanCopy(db, k, dest)
    ensures var m, mb := db.messages[k], Key(k.account, dest);
            var box := db.mailboxes[mb];
            Copied(db, k, dest)
            == Db(db.mailboxes[mb := Mailbox(box.name, box.uidNext + 1, box.uidValidity, box.highestModSeq + 1)],
                  db.messages[Key(k.account, db.nextId) :=
                                Message(dest, box.uidNext, m.blob, m.flags, box.highestModSeq + 1, m.info)],
                  db.refs[m.blob := db.refs[m.blob] + 1], db.blobs, db.expunged, db.nextId + 1)
  {
  }

  /** One referrer fewer; the last one takes the count row and the body with it. */
  function RefDropped(db: Db, key: string): Db {
    if key !in db.refs then DeleteObject(db, key)
    else if db.refs[key] <= 1 then DeleteObject(DeleteRef(db, key), key)
    else SetRef(db, key, db.refs[key] - 1)
  }

  function Restored(db: Db, account: nat, m: Message, body: string, newBlob: bool): Db {
    if newBlob then
      if m.blob in db.refs then DeleteObject(db, m.blob)  // the count row is unique: clean-up runs
      else InsertMessage(SetRef(PutObject(db, m.blob, body), m.blob, 1), account, m)
    else if m.blob in db.refs then InsertMessage(SetRef(db, m.blob, db.refs[m.blob] + 1), account, m)
    else db
  }

  function Deleted(db: Db, k: Key): Db {
    if !CanStamp(db, k) then db else
    var mb := Home(db, k);
    LogExpunge(RefDropped(RemoveMessage(BumpModSeq(db, mb), k), db.messages[k].blob),
               ExpungeRecord(mb, db.messages[k].uid, db.mailboxes[mb].highestModSeq + 1))
  }

  /** Bodies go without a look at their counts. */
  function MailboxDeleted(db: Db, mb: Key): Db {
    db.(blobs := db.blobs - BodiesOf(db.messages, OfMailbox(db, mb)),
        messages := db.messages - OfMailbox(db, mb),
        mailboxes := db.mailboxes - {mb})
  }

  function OfMailbox(db: Db, mb: Key): set<Key> {
    set k | k in db.messages && In(db, k, mb)
  }

  function BodiesOf(messages: map<Key, Message>, keys: set<Key>): set<string> {
    set k | k in keys && k in messages :: messages[k].blob
  }

  lemma BodiesOneMore(messages: map<Key, Message>, keys: set<Key>, k: Key)
    requires k in messages
    ensures BodiesOf(messages, keys + {k}) == BodiesOf(messages, keys) + {messages[k].blob}
  {
  }

  /** How many of the documents in `gone` name a body. */
  function Named(db: Db, gone: set<Key>, key: string): nat {
    |set k | k in gone && k in db.messages && db.messages[k].blob == key|
  }

  /** A key keeps its row and body unless the documents in `gone` used up its count. */
  predicate Lasts(db: Db, gone: set<Key>, key: string) {
    Named(db, gone, key) == 0 || (key in db.refs && db.refs[key] > Named(db, gone, key))
  }

  /** Each count less the documents in `gone` naming it; spent counts go, and their bodies with them. */
  function Released(db: Db, gone: set<Key>): Db {
    db.(refs := map key | key in db.refs && Lasts(db, gone, key) :: db.refs[key] - Named(db, gone, key),
        blobs := map key | key in db.blobs && Lasts(db, gone, key) :: db.blobs[key])
  }

  function OfAccount(db: Db, account: nat): set<Key> {
    set k | k in db.messages && k.account == account
  }

  function LogWithout(log: seq<ExpungeRecord>, account: nat): seq<ExpungeRecord> {
    if log == [] then [] else
    LogWithout(log[..|log| - 1], account) + if log[|log| - 1].mailbox.account == account then [] else [log[|log| - 1]]
  }

  function AccountDeleted(db: Db, account: nat): Db {
    Released(db, OfAccount(db, account)).(
      messages := db.messages - OfAccount(db, account),
      mailboxes := db.mailboxes - (set k | k in db.mailboxes && k.account == account),
      expunged := LogWithout(db.expunged, account))
  }

  lemma NamedOneMore(db: Db, gone: set<Key>, k: Key, key: string)
    requires k in db.messages && k !in gone
    ensures Named(db, gone + {k}, key) == Named(db, gone, key) + if db.messages[k].blob == key then 1 else 0
  {
    var named := set j | j in gone && j in db.messages && db.messages[j].blob == key;
    assert (set j | j in gone + {k} && j in db.messages && db.messages[j].blob == key)
        == if db.messages[k].blob == key then named + {k} else named;
  }

  /** Dropping one more reference releases one more document: seen at one key. */
  lemma ReleaseOneMoreAt(db: Db, gone: set<Key>, k: Key, key: string)
    requires k in db.messages && k !in gone
    ensures var before, after := RefDropped(Released(db, gone), db.messages[k].blob), Released(db, gone + {k});
            && (key in before.refs <==> key in after.refs)
            && (key in before.refs ==> before.refs[key] == after.refs[key])
            && (key in before.blobs <==> key in after.blobs)
            && (key in before.blobs ==> before.blobs[key] == after.blobs[key])
  {
    NamedOneMore(db, gone, k, key);
    var n, n' := Named(db, gone, key), Named(db, gone + {k}, key);
    var released, blob := Released(db, gone), db.messages[k].blob;
    assert key in released.refs <==> key in db.refs && Lasts(db, gone, key);
    if key == blob {
      assert n' == n + 1;
      if key !in released.refs {
        assert !Lasts(db, gone + {k}, key);
      }
    } else {
      assert Lasts(db, gone + {k}, key) == Lasts(db, gone, key);
    }
  }

  lemma ReleaseOneMore(db: Db, gone: set<Key>, k: Key)
    requires k in db.messages && k !in gone
    ensures RefDropped(Released(db, gone), db.messages[k].blob) == Released(db, gone + {k})
  {
    var before, after := RefDropped(Released(db, gone), db.messages[k].blob), Released(db, gone + {k});
    forall key ensures key in before.refs <==> key in after.refs
               ensures key in before.refs ==> before.refs[key] == after.refs[key]
    {
      ReleaseOneMoreAt(db, gone, k, key);
    }
    assert before.refs == after.refs;
    forall key ensures key in before.blobs <==> key in after.blobs
               ensures key in before.blobs ==> before.blobs[key] == after.blobs[key]
    {
      ReleaseOneMoreAt(db, gone, k, key);
    }
    assert before.blobs == after.blobs;
  }

  // ---- what a failing operation may leave behind ----------------------------------------------

  /** Burnt UIDs and mod-sequences, nothing else. */
  predicate OnlyCounters(db: Db, db': Db) {
    db' == db.(mailboxes := db'.mailboxes) && CountersBurnt(db, db')
  }

  /** Of one mailbox. */
  predicate OnlyCountersOf(db: Db, db': Db, mb: Key) {
    OnlyCounters(db, db') && forall other :: other in db.mailboxes && other != mb ==>
      db'.mailboxes[other] == db.mailboxes[other]
  }

  /** Mailboxes keep name and validity; their counters may have moved on. */
  predicate CountersBurnt(db: Db, db': Db) {
    && db'.mailboxes.Keys == db.mailboxes.Keys
    && forall mb :: mb in db.mailboxes ==> Burnt(db.mailboxes[mb], db'.mailboxes[mb])
  }

  predicate Burnt(box: Mailbox, box': Mailbox) {
    && box' == box.(uidNext := box'.uidNext, highestModSeq := box'.highestModSeq)
    && box'.uidNext >= box.uidNext && box'.highestModSeq >= box.highestModSeq
  }

  /** Count and body of every other key are as before. */
  predicate OnlyAt(db: Db, db': Db, key: string) {
    db'.refs - {key} == db.refs - {key} && db'.blobs - {key} == db.blobs - {key}
  }

  /** One more on a count, and counters that have moved on. */
  predicate Raised(db: Db, db': Db, key: string) {
    && key in db.refs && CountersBurnt(db, db')
    && db' == db.(mailboxes := db'.mailboxes, refs := db.refs[key := db.refs[key] + 1])
  }

  /** No document changed; `key` may have lost its body only if nothing counted on it. */
  predicate Leaves(db: Db, db': Db, key: string) {
    && db' == db.(mailboxes := db'.mailboxes, refs := db'.refs, blobs := db'.blobs)
    && CountersBurnt(db, db') && OnlyAt(db, db', key)
    && (key in db.blobs && key in db.refs && db.refs[key] >= 1 ==>
          key in db'.blobs && key in db'.refs && db'.refs[key] >= db.refs[key])
  }

  /** The document is gone; at most one unit of its count went with it, the body only with the last. */
  predicate Forgets(db: Db, db': Db, k: Key)
    requires k in db.messages
  {
    var key := db.messages[k].blob;
    && db'.messages == db.messages - {k} && db'.nextId == db.nextId
    && db'.mailboxes.Keys == db.mailboxes.Keys && OnlyAt(db, db', key)
    && (key in db.refs && db.refs[key] >= 2 ==>
          key in db'.refs && db'.refs[key] >= db.refs[key] - 1 && db'.blobs == db.blobs)
  }

  /** Some of a mailbox's bodies are gone, and its documents all or none. */
  ghost predicate PartlyDeleted(db: Db, db': Db, mb: Key) {
    exists gone :: gone <= OfMailbox(db, mb) && BodiesGone(db, db', mb, gone)
  }

  ghost predicate BodiesGone(db: Db, db': Db, mb: Key, gone: set<Key>) {
    && db'.blobs == db.blobs - BodiesOf(db.messages, gone)
    && (db'.messages == db.messages || (gone == OfMailbox(db, mb) && db'.messages == db.messages - gone))
  }

  /** A reference perhaps dropped: nothing else is touched, and a count of two or more loses at most one. */
  predicate HalfDropped(db: Db, db': Db, key: string) {
    && OnlyAt(db, db', key)
    && (key in db.refs && db.refs[key] >= 2 ==>
          key in db'.refs && db'.refs[key] >= db.refs[key] - 1 && db'.blobs == db.blobs)
  }

  /** Some of an account's documents have given up their reference, one of them perhaps half. */
  ghost predicate PartlyReleased(db: Db, db': Db, account: nat) {
    exists gone :: gone <= OfAccount(db, account) && ReleasedSome(db, db', account, gone)
  }

  ghost predicate ReleasedSome(db: Db, db': Db, account: nat, gone: set<Key>) {
    var now := Released(db, gone);
    || (db'.refs == now.refs && db'.blobs == now.blobs)
    || exists k :: k in OfAccount(db, account) - gone && HalfDropped(now, db', db.messages[k].blob)
  }

  lemma NothingReleased(db: Db)
    ensures Released(db, {}) == db
  {
    assert Released(db, {}).refs == db.refs && Released(db, {}).blobs == db.blobs;
  }

  // ---- listings -------------------------------------------------------------------------------

  datatype Row = Row(key: Key, msg: Message)

  predicate SortedRows(rows: seq<Row>) {
    forall i, j :: 0 <= i < j < |rows| ==> rows[i].key != rows[j].key && rows[i].msg.uid <= rows[j].msg.uid
  }

  /** Exactly the documents of a mailbox, each once, by ascending UID. */
  ghost predicate ListingOf(db: Db, mb: Key, rows: seq<Row>) {
    && SortedRows(rows)
    && (forall row :: row in rows ==> In(db, row.key, mb) && row.msg == db.messages[row.key])
    && (forall k :: In(db, k, mb) ==> Row(k, db.messages[k]) in rows)
  }

  /** The UIDs logged for a mailbox above a mod-sequence, in log order. */
  function LoggedSince(log: seq<ExpungeRecord>, mb: Key, since: nat): seq<nat> {
    if log == [] then [] else
    LoggedSince(log[..|log| - 1], mb, since)
    + if log[|log| - 1].mailbox == mb && log[|log| - 1].modSeq > since then [log[|log| - 1].uid] else []
  }

  predicate Ascending(uids: seq<nat>) {
    forall i, j :: 0 <= i < j < |uids| ==> uids[i] <= uids[j]
  }

  /** Sorted insertion of a UID. */
  method InsertUid(uids: seq<nat>, uid: nat) returns (out: seq<nat>)
    requires Ascending(uids)
    ensures Ascending(out) && multiset(out) == multiset(uids) + multiset{uid}
  {
    var p := 0;
    while p < |uids| && uids[p] <= uid
      invariant p <= |uids| && forall i :: 0 <= i < p ==> uids[i] <= uid
    {
      p := p + 1;
    }
    out := uids[..p] + [uid] + uids[p..];
    SplicedUids(uids, p, uid);
  }

  lemma SplicedUids(uids: seq<nat>, p: nat, uid: nat)
    requires Ascending(uids) && p <= |uids|
    requires (forall i :: 0 <= i < p ==> uids[i] <= uid) && (p < |uids| ==> uid < uids[p])
    ensures var out := uids[..p] + [uid] + uids[p..];
            Ascending(out) && multiset(out) == multiset(uids) + multiset{uid}
  {
    AscendingJoin(uids[..p], [uid]);
    AscendingJoin(uids[..p] + [uid], uids[p..]);
    SplicedMultiset(uids, p, uid);
  }

  lemma AscendingJoin(a: seq<nat>, b: seq<nat>)
    requires Ascending(a) && Ascending(b) && forall i, j :: 0 <= i < |a| && 0 <= j < |b| ==> a[i] <= b[j]
    ensures Ascending(a + b)
  {
  }

  lemma SplicedMultiset(uids: seq<nat>, p: nat, uid: nat)
    requires p <= |uids|
    ensures multiset(uids[..p] + [uid] + uids[p..]) == multiset(uids) + multiset{uid}
  {
    assert uids == uids[..p] + uids[p..];
  }

  method CollectSince(log: seq<ExpungeRecord>, mb: Key, since: nat) returns (out: seq<nat>)
    ensures Ascending(out) && multiset(out) == multiset(LoggedSince(log, mb, since))
  {
    out := [];
    for i := 0 to |log|
      invariant Ascending(out) && multiset(out) == multiset(LoggedSince(log[..i], mb, since))
    {
      var before := LoggedSince(log[..i], mb, since);
      assert log[..i + 1][..i] == log[..i];
      if log[i].modSeq > since && log[i].mailbox == mb {
        out := InsertUid(out, log[i].uid);
        assert LoggedSince(log[..i + 1], mb, since) == before + [log[i].uid];
      } else {
        assert LoggedSince(log[..i + 1], mb, since) == before + [];
        assert before + [] == before;
      }
    }
    assert log[..|log|] == log;
  }

  /** Sorted insertion of a listing row. */
  method InsertRow(rows: seq<Row>, row: Row) returns (out: seq<Row>)
    requires SortedRows(rows) && forall r :: r in rows ==> r.key != row.key
    ensures SortedRows(out) && forall r :: r in out <==> r in rows || r == row
  {
    var p := 0;
    while p < |rows| && rows[p].msg.uid <= row.msg.uid
      invariant p <= |rows| && forall i :: 0 <= i < p ==> rows[i].msg.uid <= row.msg.uid
    {
      p := p + 1;
    }
    out := rows[..p] + [row] + rows[p..];
    SplicedSorted(rows, p, row);
    SplicedMembers(rows, p, row);
  }

  lemma SplicedSorted(rows: seq<Row>, p: nat, row: Row)
    requires SortedRows(rows) && p <= |rows| && forall i :: 0 <= i < |rows| ==> rows[i].key != row.key
    requires forall i :: 0 <= i < p ==> rows[i].msg.uid <= row.msg.uid
    requires p < |rows| ==> row.msg.uid < rows[p].msg.uid
    ensures SortedRows(rows[..p] + [row] + rows[p..])
  {
    var out := rows[..p] + [row] + rows[p..];
    assert forall i :: 0 <= i < |out| ==> out[i] == if i < p then rows[i] else if i == p then row else rows[i - 1];
  }

  lemma SplicedMembers(rows: seq<Row>, p: nat, row: Row)
    requires p <= |rows|
    ensures forall r :: r in rows[..p] + [row] + rows[p..] <==> r in rows || r == row
  {
    assert rows == rows[..p] + rows[p..];
  }

  // ---- the operations -------------------------------------------------------------------------

  class Store {
    var db: Db
    /** Whether each database call still to come fails (without effect); past the end none does. */
    var faults: seq<bool>

    constructor (db: Db, faults: seq<bool>)
      ensures this.db == db && this.faults == faults
    {
      this.db, this.faults := db, faults;
    }

    method Call() returns (ok: bool)
      modifies this`faults
      ensures old(faults) == [] ==> ok && faults == []
    {
      ok := faults == [] || !faults[0];
      faults := if faults == [] then [] else faults[1..];
    }

    method GetMailbox(mb: Key) returns (r: Result<Mailbox>)
      modifies this`faults
      ensures r.Ok? ==> mb in db.mailboxes && r.value == db.mailboxes[mb]
      ensures old(faults) == [] ==> faults == [] && (r.Ok? <==> mb in db.mailboxes)
    {
      var ok := Call();
      r := if !ok then Err(Unavailable) else if mb in db.mailboxes then Ok(db.mailboxes[mb]) else Err(NotFound);
    }

    method GetMessage(k: Key) returns (r: Result<Message>)
      modifies this`faults
      ensures r.Ok? ==> k in db.messages && r.value == db.messages[k]
      ensures old(faults) == [] ==> faults == [] && (r.Ok? <==> k in db.messages)
    {
      var ok := Call();
      r := if !ok then Err(Unavailable) else if k in db.messages then Ok(db.messages[k]) else Err(NotFound);
    }

    method FetchBody(m: Message) returns (r: Result<string>)
      modifies this`faults
      ensures r.Ok? ==> m.blob in db.blobs && r.value == db.blobs[m.blob]
      ensures old(faults) == [] ==> faults == [] && (r.Ok? <==> m.blob in db.blobs)
    {
      var ok := Call();
      r := if !ok then Err(Unavailable) else if m.blob in db.blobs then Ok(db.blobs[m.blob]) else Err(NotFound);
    }

    method NextUID(mb: Key) returns (r: Result<nat>)
      modifies this
      ensures r.Ok? ==>
        mb in old(db).mailboxes && db == BumpUid(old(db), mb) && r.value == old(db).mailboxes[mb].uidNext
      ensures r.Err? ==> db == old(db)
      ensures old(faults) == [] ==> faults == [] && (r.Ok? <==> mb in old(db).mailboxes)
    {
      var ok := Call();
      if !ok { return Err(Unavailable); }
      if mb !in db.mailboxes { return Err(NotFound); }
      db := BumpUid(db, mb);
      r := Ok(db.mailboxes[mb].uidNext - 1);
    }

    method NextModSeq(mb: Key) returns (r: Result<nat>)
      modifies this
      ensures r.Ok? ==>
        mb in old(db).mailboxes && db == BumpModSeq(old(db), mb) && r.value == old(db).mailboxes[mb].highestModSeq + 1
      ensures r.Err? ==> db == old(db)
      ensures old(faults) == [] ==> faults == [] && (r.Ok? <==> mb in old(db).mailboxes)
    {
      var ok := Call();
      if !ok { return Err(Unavailable); }
      if mb !in db.mailboxes { return Err(NotFound); }
      db := BumpModSeq(db, mb);
      r := Ok(db.mailboxes[mb].highestModSeq);
    }

    /** Inserts the count row; the unique index refuses a second one. */
    method BlobAddRef(key: string) returns (ok: bool)
      modifies this
      ensures ok ==> key !in old(db).refs && db == SetRef(old(db), key, 1)
      ensures !ok ==> db == old(db)
      ensures old(faults) == [] ==> faults == [] && (ok <==> key !in old(db).refs)
    {
      ok := Call();
      if ok && key in db.refs { ok := false; }
      if ok { db := SetRef(db, key, 1); }
    }

    method BlobBumpRef(key: string) returns (r: Result<int>)
      modifies this
      ensures r.Ok? ==> key in old(db).refs && r.value == old(db).refs[key] + 1 && db == SetRef(old(db), key, r.value)
      ensures r.Err? ==> db == old(db)
      ensures old(faults) == [] ==> faults == [] && (r.Ok? <==> key in old(db).refs)
    {
      var ok := Call();
      if !ok { return Err(Unavailable); }
      if key !in db.refs { return Err(Uncounted); }
      db := SetRef(db, key, db.refs[key] + 1);
      r := Ok(db.refs[key]);
    }

    /** Whatever fails, at most one count unit goes, and the body goes only with the last unit. */
    method BlobDropRef(key: string) returns (r: Result<bool>)
      modifies this
      ensures r.Ok? ==> db == RefDropped(old(db), key)
      ensures db == old(db).(refs := db.refs, blobs := db.blobs) && OnlyAt(old(db), db, key)
      ensures key in old(db).refs && old(db).refs[key] >= 2 ==>
                key in db.refs && db.refs[key] >= old(db).refs[key] - 1 && db.blobs == old(db).blobs
      ensures old(faults) == [] ==> faults == [] && r.Ok?
    {
      var ok := Call();
      if !ok { return Err(Unavailable); }
      if key !in db.refs {
        ok := Call();
        if !ok { return Err(Unavailable); }
        db := DeleteObject(db, key);
        return Ok(true);
      }
      db := SetRef(db, key, db.refs[key] - 1);
      if db.refs[key] <= 0 {
        ok := Call();
        if !ok { return Err(Unavailable); }
        db := DeleteRef(db, key);
        ok := Call();
        if !ok { return Err(Unavailable); }
        db := DeleteObject(db, key);
        assert DeleteRef(SetRef(old(db), key, old(db).refs[key] - 1), key) == DeleteRef(old(db), key);
        return Ok(true);
      }
      r := Ok(false);
    }

    /** Body first, then its count row; a refused row takes the body with it. */
    method PutBody(key: string, body: string) returns (ok: bool)
      modifies this
      ensures ok ==> key !in old(db).refs && db == SetRef(PutObject(old(db), key, body), key, 1)
      ensures !ok ==> db == old(db).(blobs := db.blobs) && db.blobs - {key} == old(db).blobs - {key}
      ensures old(faults) == [] ==> faults == [] && (ok <==> key !in old(db).refs)
      ensures old(faults) == [] && !ok ==> db == DeleteObject(old(db), key)
    {
      ok := Call();
      if !ok { return; }
      db := PutObject(db, key, body);
      ok := BlobAddRef(key);
      if !ok {
        var cleaned := Call();
        if cleaned { db := DeleteObject(db, key); }
      }
    }

    /** A UID and then a mod-sequence, as every new place of a message takes them. */
    method NextNumbers(mb: Key) returns (r: Result<(nat, nat)>)
      modifies this
      ensures OnlyCountersOf(old(db), db, mb)
      ensures r.Ok? ==> mb in old(db).mailboxes && db == BumpModSeq(BumpUid(old(db), mb), mb)
      ensures r.Ok? ==> r.value == (old(db).mailboxes[mb].uidNext, old(db).mailboxes[mb].highestModSeq + 1)
      ensures old(faults) == [] ==> faults == [] && (r.Ok? <==> mb in old(db).mailboxes)
      ensures r.Err? && mb !in old(db).mailboxes ==> db == old(db)
    {
      var uid := NextUID(mb);
      if uid.Err? { return Err(uid.error); }
      var modSeq := NextModSeq(mb);
      if modSeq.Err? { return Err(modSeq.error); }
      r := Ok((uid.value, modSeq.value));
    }

    /** Body, count and document; without the document the body goes again, its count row stays. */
    method PutMessage(account: nat, m: Message, body: string) returns (r: Result<Key>)
      modifies this
      ensures r.Ok? ==> m.blob !in old(db).refs && r.value == Key(account, old(db).nextId)
      ensures r.Ok? ==> db == InsertMessage(SetRef(PutObject(old(db), m.blob, body), m.blob, 1), account, m)
      ensures r.Err? ==> db == old(db).(refs := db.refs, blobs := db.blobs) && OnlyAt(old(db), db, m.blob)
      ensures old(faults) == [] ==> faults == [] && (r.Ok? <==> m.blob !in old(db).refs)
      ensures old(faults) == [] && r.Err? ==> db == DeleteObject(old(db), m.blob)
    {
      var ok := PutBody(m.blob, body);
      if !ok { return Err(Unavailable); }
      ok := Call();
      if !ok {
        ok := Call();
        if ok { db := DeleteObject(db, m.blob); }
        return Err(Unavailable);
      }
      r := Ok(Key(account, db.nextId));
      db := InsertMessage(db, account, m);
    }

    method AppendMessage(mb: Key, key: string, body: string, info: Info, flags: seq<string>) returns (r: Result<Key>)
      modifies this
      ensures r.Ok? ==>
        db == Appended(old(db), mb, key, body, info, flags) && r.value == Key(mb.account, old(db).nextId)
      ensures r.Ok? ==> mb in old(db).mailboxes && key !in old(db).refs
      ensures r.Ok? ==> var box := old(db).mailboxes[mb];
        db == Db(old(db).mailboxes[mb := Mailbox(box.name, box.uidNext + 1, box.uidValidity, box.highestModSeq + 1)],
                 old(db).messages[r.value := Message(mb.id, box.uidNext, key, flags, box.highestModSeq + 1, info)],
                 old(db).refs[key := 1], old(db).blobs[key := body], old(db).expunged, old(db).nextId + 1)
      ensures r.Err? && key !in old(db).refs ==> Leaves(old(db), db, key)
      ensures old(faults) == [] ==> faults == [] && (r.Ok? <==> mb in old(db).mailboxes && key !in old(db).refs)
      ensures old(faults) == [] ==> db == Appended(old(db), mb, key, body, info, flags)
    {
      var box := GetMailbox(mb);
      if box.Err? { return Err(box.error); }
      var numbers := NextNumbers(mb);
      if numbers.Err? { return Err(numbers.error); }
      r := PutMessage(mb.account, Message(mb.id, numbers.value.0, key, flags, numbers.value.1, info), body);
    }

    method ModifyFlags(k: Key, flags: seq<string>) returns (r: Result<()>)
      modifies this
      ensures r.Ok? ==> db == FlagsSet(old(db), k, flags)
      ensures r.Ok? ==> k in old(db).messages && Key(k.account, old(db).messages[k].mailbox) in old(db).mailboxes
      ensures r.Ok? ==> var m := old(db).messages[k];
        var mb := Key(k.account, m.mailbox);
        var box := old(db).mailboxes[mb];
        db == Db(old(db).mailboxes[mb := Mailbox(box.name, box.uidNext, box.uidValidity, box.highestModSeq + 1)],
                 old(db).messages[k := Message(m.mailbox, m.uid, m.blob, flags, box.highestModSeq + 1, m.info)],
                 old(db).refs, old(db).blobs, old(db).expunged, old(db).nextId)
      ensures r.Err? ==> OnlyCounters(old(db), db)
      ensures old(faults) == [] ==>
        faults == [] && (r.Ok? <==> CanStamp(old(db), k)) && db == FlagsSet(old(db), k, flags)
    {
      var msg := GetMessage(k);
      if msg.Err? { return Err(msg.error); }
      var modSeq := NextModSeq(Key(k.account, msg.value.mailbox));
      if modSeq.Err? { return Err(modSeq.error); }
      var ok := Call();
      if !ok { return Err(Unavailable); }
      db := SetMessage(db, k, msg.value.(flags := flags, modSeq := modSeq.value));
      r := Ok(());
    }

    method AddFlags(k: Key, flags: seq<string>) returns (r: Result<()>)
      modifies this
      ensures r.Ok? ==> db == FlagsAdded(old(db), k, flags) && k in old(db).messages && k in db.messages
      ensures r.Ok? ==> forall f :: f in db.messages[k].flags <==> f in old(db).messages[k].flags || f in flags
      ensures r.Err? ==> OnlyCounters(old(db), db)
      ensures old(faults) == [] ==> faults == [] && db == FlagsAdded(old(db), k, flags)
    {
      var msg := GetMessage(k);
      if msg.Err? { return Err(msg.error); }
      var merged := UnionStrings(msg.value.flags, flags);
      UnionMeaning(msg.value.flags, flags);
      r := ModifyFlags(k, merged);
    }

    method RemoveFlags(k: Key, flags: seq<string>) returns (r: Result<()>)
      modifies this
      ensures r.Ok? ==> db == FlagsRemoved(old(db), k, flags) && k in old(db).messages && k in db.messages
      ensures r.Ok? ==> forall f :: f in db.messages[k].flags <==> f in old(db).messages[k].flags && f !in flags
      ensures r.Err? ==> OnlyCounters(old(db), db)
      ensures old(faults) == [] ==> faults == [] && db == FlagsRemoved(old(db), k, flags)
    {
      var msg := GetMessage(k);
      if msg.Err? { return Err(msg.error); }
      var pruned := MinusStrings(msg.value.flags, flags);
      MinusMeaning(msg.value.flags, flags);
      r := ModifyFlags(k, pruned);
    }

    method MoveMessage(k: Key, dest: nat) returns (r: Result<Message>)
      modifies this
      ensures r.Ok? ==> db == Moved(old(db), k, dest) && k in db.messages && r.value == db.messages[k]
      ensures r.Ok? ==> k in old(db).messages && (old(db).messages[k].mailbox == dest ==> db == old(db))
      ensures r.Ok? && old(db).messages[k].mailbox != dest ==> Key(k.account, dest) in old(db).mailboxes
      ensures r.Ok? && old(db).messages[k].mailbox != dest ==> var m := old(db).messages[k];
        var mb := Key(k.account, dest);
        var box := old(db).mailboxes[mb];
        db == Db(old(db).mailboxes[mb := Mailbox(box.name, box.uidNext + 1, box.uidValidity, box.highestModSeq + 1)],
                 old(db).messages[k := Message(dest, box.uidNext, m.blob, m.flags, box.highestModSeq + 1, m.info)],
                 old(db).refs, old(db).blobs, old(db).expunged, old(db).nextId)
      ensures r.Err? ==> OnlyCountersOf(old(db), db, Key(k.account, dest))
      ensures old(faults) == [] ==> faults == [] && db == Moved(old(db), k, dest)
      ensures old(faults) == [] && k in old(db).messages && Key(k.account, dest) in old(db).mailboxes ==> r.Ok?
    {
      r := GetMessage(k);
      if r.Err? { return; }
      if r.value.mailbox == dest { return; }
      var msg := r.value;
      var mb := Key(k.account, dest);
      var box := GetMailbox(mb);
      if box.Err? { return Err(box.error); }
      var numbers := NextNumbers(mb);
      if numbers.Err? { return Err(numbers.error); }
      var ok := Call();
      if !ok { return Err(Unavailable); }
      msg := msg.(mailbox := dest, uid := numbers.value.0, modSeq := numbers.value.1);
      db := SetMessage(db, k, msg);
      r := Ok(msg);
    }

    /** Undoes a raised count, if the call goes through. */
    method TakeBack(key: string, ghost db0: Db)
      requires Raised(db0, db, key)
      modifies this
      ensures Leaves(db0, db, key) && (old(faults) == [] ==> faults == [])
    {
      var _ := BlobDropRef(key);
    }

    method CopyMessage(k: Key, dest: nat) returns (r: Result<Key>)
      modifies this
      ensures r.Ok? ==> db == Copied(old(db), k, dest) && r.value == Key(k.account, old(db).nextId)
      ensures r.Ok? ==> k in old(db).messages && Key(k.account, dest) in old(db).mailboxes
      ensures r.Ok? ==> old(db).messages[k].blob in old(db).refs
      ensures r.Ok? ==> var m := old(db).messages[k];
        var mb := Key(k.account, dest);
        var box := old(db).mailboxes[mb];
        db == Db(old(db).mailboxes[mb := Mailbox(box.name, box.uidNext + 1, box.uidValidity, box.highestModSeq + 1)],
                 old(db).messages[r.value := Message(dest, box.uidNext, m.blob, m.flags, box.highestModSeq + 1,
                                                     m.info)],
                 old(db).refs[m.blob := old(db).refs[m.blob] + 1], old(db).blobs, old(db).expunged, old(db).nextId + 1)
      ensures r.Err? ==>
        OnlyCounters(old(db), db) || (k in old(db).messages && Leaves(old(db), db, old(db).messages[k].blob))
      ensures old(faults) == [] ==>
        faults == [] && (r.Ok? <==> CanCopy(old(db), k, dest)) && db == Copied(old(db), k, dest)
    {
      var src := GetMessage(k);
      if src.Err? { return Err(src.error); }
      var mb := Key(k.account, dest);
      var box := GetMailbox(mb);
      if box.Err? { return Err(box.error); }
      var blob := src.value.blob;
      var bumped := BlobBumpRef(blob);
      if bumped.Err? { return Err(bumped.error); }
      var numbers := NextNumbers(mb);
      assert Raised(old(db), db, blob);
      if numbers.Err? {
        TakeBack(blob, old(db));
        return Err(numbers.error);
      }
      var ok := Call();
      if !ok {
        TakeBack(blob, old(db));
        return Err(Unavailable);
      }
      r := Ok(Key(k.account, db.nextId));
      db := InsertMessage(db, k.account,
                          src.value.(mailbox := dest, uid := numbers.value.0, modSeq := numbers.value.1));
      CopiedIs(old(db), k, dest);
    }

    /** `newBlob` says that no earlier call has written the body. */
    method RestoreMessage(account: nat, m: Message, body: string, newBlob: bool) returns (r: Result<Key>)
      modifies this
      ensures r.Ok? ==> db == Restored(old(db), account, m, body, newBlob) && r.value == Key(account, old(db).nextId)
      ensures r.Ok? ==> (newBlob <==> m.blob !in old(db).refs)
      ensures r.Ok? ==>
        db == Db(old(db).mailboxes, old(db).messages[r.value := m],
                 old(db).refs[m.blob := if newBlob then 1 else old(db).refs[m.blob] + 1],
                 if newBlob then old(db).blobs[m.blob := body] else old(db).blobs, old(db).expunged, old(db).nextId + 1)
      ensures r.Err? && (newBlob ==> m.blob !in old(db).refs) ==> Leaves(old(db), db, m.blob)
      ensures old(faults) == [] ==> faults == [] && db == Restored(old(db), account, m, body, newBlob)
      ensures old(faults) == [] ==> (r.Ok? <==> (newBlob <==> m.blob !in old(db).refs))
    {
      if newBlob {
        var ok := PutBody(m.blob, body);
        if !ok { return Err(Unavailable); }
      } else {
        var bumped := BlobBumpRef(m.blob);
        if bumped.Err? { return Err(bumped.error); }
      }
      var ok := Call();
      if !ok {
        var _ := BlobDropRef(m.blob);
        return Err(Unavailable);
      }
      r := Ok(Key(account, db.nextId));
      db := InsertMessage(db, account, m);
    }

    /** A failing log insert is swallowed; a failing count or body removal only leaks. */
    method DeleteMessage(k: Key) returns (r: Result<()>)
      modifies this
      ensures r.Ok? ==> db == Deleted(old(db), k) || db == Deleted(old(db), k).(expunged := old(db).expunged)
      ensures r.Ok? ==> k in old(db).messages && Key(k.account, old(db).messages[k].mailbox) in old(db).mailboxes
      ensures r.Ok? ==> var m := old(db).messages[k];
        var mb := Key(k.account, m.mailbox);
        var box := old(db).mailboxes[mb];
        && db.mailboxes
          == old(db).mailboxes[mb := Mailbox(box.name, box.uidNext, box.uidValidity, box.highestModSeq + 1)]
        && db.messages == old(db).messages - {k} && db.nextId == old(db).nextId
        && (db.expunged == old(db).expunged
            || db.expunged == old(db).expunged + [ExpungeRecord(mb, m.uid, box.highestModSeq + 1)])
      ensures r.Ok? ==> var key := old(db).messages[k].blob;
        if key in old(db).refs && old(db).refs[key] > 1
        then db.blobs == old(db).blobs && db.refs == old(db).refs[key := old(db).refs[key] - 1]
        else db.blobs == old(db).blobs - {key} && db.refs == old(db).refs - {key}
      ensures OnlyCounters(old(db), db) || (k in old(db).messages && Forgets(old(db), db, k))
      ensures old(faults) == [] ==> faults == [] && (r.Ok? <==> CanStamp(old(db), k)) && db == Deleted(old(db), k)
    {
      var msg := GetMessage(k);
      if msg.Err? { return Err(msg.error); }
      var mb := Key(k.account, msg.value.mailbox);
      var modSeq := NextModSeq(mb);
      if modSeq.Err? { return Err(modSeq.error); }
      var ok := Call();
      if !ok { return Err(Unavailable); }
      db := RemoveMessage(db, k);
      var dropped := BlobDropRef(msg.value.blob);
      if dropped.Err? { return Err(dropped.error); }
      ok := Call();
      if ok { db := LogExpunge(db, ExpungeRecord(mb, msg.value.uid, modSeq.value)); }
      r := Ok(());
    }

    method ListMessages(mb: Key) returns (r: Result<seq<Row>>)
      modifies this`faults
      ensures r.Ok? ==> ListingOf(db, mb, r.value)
      ensures old(faults) == [] ==> faults == [] && r.Ok?
    {
      var ok := Call();
      if !ok { return Err(Unavailable); }
      var todo := set k | k in db.messages && In(db, k, mb);
      var rows: seq<Row> := [];
      while todo != {}
        modifies {}
        invariant SortedRows(rows) && forall k :: k in todo ==> In(db, k, mb)
        invariant forall row :: row in rows ==>
          In(db, row.key, mb) && row.key !in todo && row.msg == db.messages[row.key]
        invariant forall k :: In(db, k, mb) && k !in todo ==> Row(k, db.messages[k]) in rows
        decreases |todo|
      {
        var k :| k in todo;
        rows := InsertRow(rows, Row(k, db.messages[k]));
        todo := todo - {k};
      }
      r := Ok(rows);
    }

    method ExpungedSince(mb: Key, since: nat) returns (r: Result<seq<nat>>)
      modifies this`faults
      ensures r.Ok? ==> Ascending(r.value) && multiset(r.value) == multiset(LoggedSince(db.expunged, mb, since))
      ensures old(faults) == [] ==> faults == [] && r.Ok?
    {
      var ok := Call();
      if !ok { return Err(Unavailable); }
      var out := CollectSince(db.expunged, mb, since);
      r := Ok(out);
    }

    /** Bodies go first: a failure can leave messages without theirs. */
    method DeleteMailbox(mb: Key) returns (ok: bool)
      modifies this
      ensures ok ==> db == MailboxDeleted(old(db), mb)
      ensures ok ==> db == old(db).(mailboxes := old(db).mailboxes - {mb}, messages := db.messages, blobs := db.blobs)
      ensures ok ==>
        db.messages == map k | k in old(db).messages
          && Key(k.account, old(db).messages[k].mailbox) != mb :: old(db).messages[k]
      ensures ok ==> forall key ::
        key in db.blobs
        <==> key in old(db).blobs && forall k :: k in old(db).messages && k !in db.messages ==>
          old(db).messages[k].blob != key
      ensures ok ==> forall key :: key in db.blobs ==> db.blobs[key] == old(db).blobs[key]
      ensures !ok ==> db == old(db).(blobs := db.blobs, messages := db.messages)
      ensures !ok ==> PartlyDeleted(old(db), db, mb)
      ensures old(faults) == [] ==> faults == [] && ok
    {
      assert BodiesGone(old(db), db, mb, {});
      ok := Call();
      if !ok { return; }
      ghost var done: set<Key>;
      ok, done := DeleteBodies(mb);
      assert BodiesGone(old(db), db, mb, done);
      if !ok { return; }
      ok := Call();
      if !ok { return; }
      db := db.(messages := db.messages - OfMailbox(db, mb));
      assert BodiesGone(old(db), db, mb, done);
      ok := Call();
      if !ok { return; }
      db := db.(mailboxes := db.mailboxes - {mb});
    }

    method DeleteBodies(mb: Key) returns (ok: bool, ghost done: set<Key>)
      modifies this
      ensures done <= OfMailbox(old(db), mb) && (ok ==> done == OfMailbox(old(db), mb))
      ensures db == old(db).(blobs := old(db).blobs - BodiesOf(old(db).messages, done))
      ensures old(faults) == [] ==> faults == [] && ok
    {
      ok := true;
      done := {};
      var todo := OfMailbox(db, mb);
      assert old(db).blobs - BodiesOf(old(db).messages, {}) == old(db).blobs;
      while todo != {}
        invariant ok && done + todo == OfMailbox(old(db), mb)
        invariant db == old(db).(blobs := old(db).blobs - BodiesOf(old(db).messages, done))
        invariant old(faults) == [] ==> faults == []
        decreases |todo|
      {
        var k :| k in todo;
        ok := Call();
        if !ok { return; }
        BodiesOneMore(old(db).messages, done, k);
        db := DeleteObject(db, db.messages[k].blob);
        assert db.blobs == old(db).blobs - BodiesOf(old(db).messages, done + {k});
        todo, done := todo - {k}, done + {k};
      }
    }

    /** Drops the references of an account's documents, one by one. */
    method ReleaseAll(account: nat) returns (ok: bool)
      modifies this
      ensures ok ==> db == Released(old(db), OfAccount(old(db), account))
      ensures !ok ==> db == old(db).(refs := db.refs, blobs := db.blobs) && PartlyReleased(old(db), db, account)
      ensures old(faults) == [] ==> faults == [] && ok
    {
      NothingReleased(db);
      var todo := OfAccount(db, account);
      ghost var all := todo;
      assert all - todo == {};
      while todo != {}
        invariant todo <= all
        invariant db == Released(old(db), all - todo)
        invariant old(faults) == [] ==> faults == []
        decreases |todo|
      {
        var k :| k in todo;
        ghost var blob := db.messages[k].blob;
        var dropped := BlobDropRef(db.messages[k].blob);
        if dropped.Err? {
          assert HalfDropped(Released(old(db), all - todo), db, blob);
          assert k in all - (all - todo) && ReleasedSome(old(db), db, account, all - todo);
          return false;
        }
        ReleaseOneMore(old(db), all - todo, k);
        assert all - todo + {k} == all - (todo - {k});
        todo := todo - {k};
      }
      assert all - todo == all;
      ok := true;
    }

    /** Every message of the account gives up its reference, then the collections are dropped. */
    method DeleteAccount(account: nat) returns (ok: bool)
      modifies this
      ensures ok ==> db == AccountDeleted(old(db), account)
      ensures ok ==> db.messages == map k | k in old(db).messages && k.account != account :: old(db).messages[k]
      ensures ok ==> db.mailboxes == map mb | mb in old(db).mailboxes && mb.account != account :: old(db).mailboxes[mb]
      ensures ok ==> forall key :: key in db.blobs ==> key in old(db).blobs && db.blobs[key] == old(db).blobs[key]
      ensures !ok ==> db == old(db).(refs := db.refs, blobs := db.blobs)
      ensures !ok ==> PartlyReleased(old(db), db, account)
      ensures old(faults) == [] ==> faults == [] && ok
    {
      NothingReleased(db);
      assert ReleasedSome(old(db), db, account, {});
      ok := Call();
      if !ok { return; }
      ok := ReleaseAll(account);
      if !ok { return; }
      assert ReleasedSome(old(db), db, account, OfAccount(old(db), account));
      ok := Call();
      if !ok { return; }
      db := AccountDropped(db, account);
    }
  }

  /** Dropping an account's collections. */
  function AccountDropped(db: Db, account: nat): Db {
    db.(messages := db.messages - OfAccount(db, account),
        mailboxes := db.mailboxes - (set k | k in db.mailboxes && k.account == account),
        expunged := LogWithout(db.expunged, account))
  }
}
