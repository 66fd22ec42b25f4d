/** Backup, account delete and restore: what comes back, and when. */
module BackupExact {
  import opened Database
  import opened MailStore
  import opened Backup
  import RefCounts

  // ---- the round trip -------------------------------------------------------------------------

  /** The account's messages are all in its mailboxes, and have bodies. */
  ghost predicate Housed(db: Db, account: nat) {
    forall k :: k in db.messages && k.account == account ==> Home(db, k) in db.mailboxes && db.messages[k].blob != ""
  }

  /** No other account shares one of these bodies with it. */
  ghost predicate PrivateIn(db: Db, account: nat, keys: set<string>) {
    forall j, k :: j in db.messages && k in db.messages && j.account == account && k.account != account
                    && db.messages[j].blob in keys ==>
      db.messages[j].blob != db.messages[k].blob
  }

  ghost predicate Private(db: Db, account: nat) {
    PrivateIn(db, account, db.blobs.Keys)
  }

  /** The archive has the body of every message. */
  ghost predicate Complete(db: Db, account: nat, bodies: set<string>) {
    forall k :: k in db.messages && k.account == account ==> db.messages[k].blob in bodies
  }

  ghost predicate DistinctNames(db: Db, account: nat) {
    forall i, j :: i in db.mailboxes && j in db.mailboxes && i != j && i.account == account && j.account == account ==>
      db.mailboxes[i].name != db.mailboxes[j].name
  }

  /** Nothing is stored under this account yet. */
  ghost predicate Vacant(db: Db, account: nat) {
    (forall k :: k in db.messages ==> k.account != account)
      && (forall mb :: mb in db.mailboxes ==> mb.account != account)
  }

  /** `boxes` pairs the mailboxes of one account with those of another: same name and counters. */
  ghost predicate BoxesPaired(db0: Db, a: nat, db: Db, b: nat, boxes: map<Key, nat>) {
    && (forall mb :: mb in boxes <==> mb in db0.mailboxes && mb.account == a)
    && (forall mb :: mb in boxes ==>
        Key(b, boxes[mb]) in db.mailboxes && db.mailboxes[Key(b, boxes[mb])] == db0.mailboxes[mb])
    && (forall mb :: mb in db.mailboxes && mb.account == b ==> exists old_ :: old_ in boxes && boxes[old_] == mb.id)
    && (forall x, y :: x in boxes && y in boxes && x != y ==> boxes[x] != boxes[y])
  }

  /** `copies` pairs messages of the one with all messages of the other: same UID, mod-sequence, flags and body. */
  ghost predicate MessagesPaired(db0: Db, db: Db, b: nat, boxes: map<Key, nat>, copies: map<Key, Key>) {
    && (forall k :: k in copies ==> CopyOf(db0, db, b, boxes, copies, k) && SameBody(db0, db, db0.messages[k].blob))
    && (forall k :: k in db.messages && k.account == b ==> exists old_ :: old_ in copies && copies[old_] == k)
    && (forall x, y :: x in copies && y in copies && x != y ==> copies[x] != copies[y])
  }

  /** The messages of an account whose bodies are among the keys. */
  function OfAccountWith(db: Db, account: nat, keys: set<string>): set<Key> {
    set k | k in db.messages && k.account == account && db.messages[k].blob in keys
  }

  /** All mailboxes, and the messages whose bodies are among the keys. */
  ghost predicate TwinOf(db0: Db, a: nat, db: Db, b: nat, boxes: map<Key, nat>, copies: map<Key, Key>,
                         keys: set<string>) {
    && BoxesPaired(db0, a, db, b, boxes) && MessagesPaired(db0, db, b, boxes, copies)
    && copies.Keys == OfAccountWith(db0, a, keys)
  }

  /** All mailboxes and all messages. */
  ghost predicate Twin(db0: Db, a: nat, db: Db, b: nat, boxes: map<Key, nat>, copies: map<Key, Key>) {
    BoxesPaired(db0, a, db, b, boxes) && MessagesPaired(db0, db, b, boxes, copies) && copies.Keys == OfAccount(db0, a)
  }

  ghost predicate CopyOf(db0: Db, db: Db, b: nat, boxes: map<Key, nat>, copies: map<Key, Key>, k: Key)
    requires k in copies
  {
    && k in db0.messages && Home(db0, k) in boxes && copies[k].account == b && copies[k] in db.messages
    && db.messages[copies[k]] == db0.messages[k].(mailbox := boxes[Home(db0, k)])
  }

  predicate SameBody(db0: Db, db: Db, key: string) {
    key in db.blobs && key in db0.blobs && db.blobs[key] == db0.blobs[key]
  }

  /** The documents: those of the base, and one copy each of those dealt with. */
  ghost predicate DocsCopied(db0: Db, base: Db, db: Db, b: nat, boxes: map<Key, nat>, copies: map<Key, Key>) {
    && (forall k :: k in base.messages ==> k in db.messages && db.messages[k] == base.messages[k])
    && (forall k :: k in db.messages ==> k in base.messages || exists old_ :: old_ in copies && copies[old_] == k)
    && (forall k :: k in copies ==> CopyOf(db0, db, b, boxes, copies, k) && copies[k] !in base.messages)
    && (forall x, y :: x in copies && y in copies && x != y ==> copies[x] != copies[y])
  }

  /** The bodies: those of the base, and those of the copies. */
  ghost predicate BodiesCopied(db0: Db, base: Db, p: Progress, copies: map<Key, Key>) {
    && (forall key :: key in p.seen <==> exists k :: k in copies && k in db0.messages && db0.messages[k].blob == key)
    && (forall key :: key in p.seen ==> SameBody(db0, p.db, key))
    && (forall key :: key in base.blobs ==> SameBody(base, p.db, key))
  }

  /** Where the message loop stands. */
  ghost predicate Copying(db0: Db, base: Db, p: Progress, b: nat, boxes: map<Key, nat>, copies: map<Key, Key>) {
    && Exact(p.db) && p.db.mailboxes == base.mailboxes && p.db.expunged == base.expunged
    && DocsCopied(db0, base, p.db, b, boxes, copies) && BodiesCopied(db0, base, p, copies)
  }

  /** With exact counts a key that no message names is unknown altogether. */
  lemma NamelessIsUnused(db: Db, key: string)
    requires Exact(db) && forall k :: k in db.messages ==> db.messages[k].blob != key
    ensures Unused(db, key)
  {
    assert ReferrerKeys(db.messages, key) == {};
  }

  /** No message of the base names one of these bodies of the account. */
  ghost predicate Foreign(db0: Db, a: nat, bodies: map<string, string>, base: Db) {
    forall j, k :: j in db0.messages && j.account == a && db0.messages[j].blob in bodies && k in base.messages ==>
      base.messages[k].blob != db0.messages[j].blob
  }

  lemma CopyIsLegal(db0: Db, a: nat, base: Db, p: Progress, b: nat, boxes: map<Key, nat>, copies: map<Key, Key>,
                    bodies: map<string, string>, k: Key, m: Message)
    requires Copying(db0, base, p, b, boxes, copies) && Foreign(db0, a, bodies, base) && k in db0.messages
      && k.account == a
    requires m.blob == db0.messages[k].blob && m.blob in bodies
    ensures m.blob !in p.seen <==> m.blob !in p.db.refs
  {
    if m.blob in p.seen {
      var j :| j in copies && j in db0.messages && db0.messages[j].blob == m.blob;
      assert CopyOf(db0, p.db, b, boxes, copies, j);
      ReferrersPositive(p.db.messages, copies[j]);
    } else {
      forall x | x in p.db.messages ensures p.db.messages[x].blob != m.blob {
        if x !in base.messages {
          var j :| j in copies && copies[j] == x;
          assert CopyOf(db0, p.db, b, boxes, copies, j);
        }
      }
      NamelessIsUnused(p.db, m.blob);
    }
  }

  lemma CopyOne(db0: Db, a: nat, base: Db, p: Progress, b: nat, boxes: map<Key, nat>, copies: map<Key, Key>,
                bodies: map<string, string>, k: Key)
    requires Copying(db0, base, p, b, boxes, copies) && Foreign(db0, a, bodies, base) && k in db0.messages
      && k.account == a && k !in copies
    requires Home(db0, k) in boxes && Carried(db0, bodies, k)
    ensures Fits(p, bodies, db0.messages[k])
    ensures Copying(db0, base, OneMessage(p, b, boxes[Home(db0, k)], bodies, db0.messages[k]), b, boxes,
                    copies[k := Key(b, p.db.nextId)])
  {
    var m := db0.messages[k].(mailbox := boxes[Home(db0, k)]);
    var fresh_, body := Key(b, p.db.nextId), bodies[m.blob];
    var p' := OneMessage(p, b, boxes[Home(db0, k)], bodies, db0.messages[k]);
    CopyIsLegal(db0, a, base, p, b, boxes, copies, bodies, k, m);
    RefCounts.RestoreKeepsExact(p.db, b, m, body, m.blob !in p.seen);
    assert fresh_ !in p.db.messages && p'.db.messages == p.db.messages[fresh_ := m];
    CopiesStay(db0, base, p, p', b, boxes, copies, k, fresh_, m, body);
  }

  /** The archive has the message's body. */
  predicate Carried(db: Db, bodies: map<string, string>, k: Key)
    requires k in db.messages
  {
    var blob := db.messages[k].blob;
    blob in bodies && blob in db.blobs && bodies[blob] == db.blobs[blob]
  }

  lemma CopiesStay(db0: Db, base: Db, p: Progress, p': Progress, b: nat, boxes: map<Key, nat>, copies: map<Key, Key>,
                   k: Key, key: Key, m: Message, body: string)
    requires Copying(db0, base, p, b, boxes, copies) && k in db0.messages && k !in copies && Home(db0, k) in boxes
    requires m == db0.messages[k].(mailbox := boxes[Home(db0, k)]) && m.blob in db0.blobs && body == db0.blobs[m.blob]
    requires key !in p.db.messages && key.account == b && Exact(p'.db) && p'.seen == p.seen + {m.blob}
    requires m.blob !in p.seen <==> m.blob !in p.db.refs
    requires p'.db == Restored(p.db, b, m, body, m.blob !in p.seen) && p'.db.messages == p.db.messages[key := m]
    ensures Copying(db0, base, p', b, boxes, copies[k := key])
  {
    DocsStay(db0, base, p.db, p'.db, b, boxes, copies, k, key, m);
    assert m.blob in p.db.blobs <==> m.blob in p.db.refs;
    assert p'.db.blobs == if m.blob in p.seen then p.db.blobs else p.db.blobs[m.blob := body];
    BodiesStay(db0, base, p, p', copies, k, key, m.blob);
  }

  lemma BodiesStay(db0: Db, base: Db, p: Progress, p': Progress, copies: map<Key, Key>, k: Key, key: Key, blob: string)
    requires BodiesCopied(db0, base, p, copies) && k in db0.messages && k !in copies && db0.messages[k].blob == blob
      && blob in db0.blobs
    requires p'.seen == p.seen + {blob} && (blob !in p.seen ==> blob !in p.db.blobs)
    requires p'.db.blobs == if blob in p.seen then p.db.blobs else p.db.blobs[blob := db0.blobs[blob]]
    ensures BodiesCopied(db0, base, p', copies[k := key])
  {
    SeenMore(db0, copies, k, key, p.seen);
    forall x | x in p'.seen ensures SameBody(db0, p'.db, x) {
      if x != blob { assert SameBody(db0, p.db, x); }
    }
    forall x | x in base.blobs ensures SameBody(base, p'.db, x) {
      assert SameBody(base, p.db, x);
    }
  }

  lemma DocsStay(db0: Db, base: Db, db: Db, db': Db, b: nat, boxes: map<Key, nat>, copies: map<Key, Key>, k: Key,
                 key: Key, m: Message)
    requires DocsCopied(db0, base, db, b, boxes, copies) && k in db0.messages && k !in copies && Home(db0, k) in boxes
    requires m == db0.messages[k].(mailbox := boxes[Home(db0, k)]) && key !in db.messages && key.account == b
    requires db'.messages == db.messages[key := m]
    ensures DocsCopied(db0, base, db', b, boxes, copies[k := key])
  {
    var copies' := copies[k := key];
    forall j | j in copies' ensures CopyOf(db0, db', b, boxes, copies', j) && copies'[j] !in base.messages {
      if j != k { assert CopyOf(db0, db, b, boxes, copies, j); }
    }
    forall x | x in db'.messages ensures x in base.messages || exists old_ :: old_ in copies' && copies'[old_] == x {
      if x == key {
        assert copies'[k] == x;
      } else if x !in base.messages {
        var old_ :| old_ in copies && copies[old_] == x;
        assert old_ in copies' && copies'[old_] == x;
      }
    }
    forall x, y | x in copies' && y in copies' && x != y ensures copies'[x] != copies'[y] {
      if x != k { assert CopyOf(db0, db, b, boxes, copies, x); }
      if y != k { assert CopyOf(db0, db, b, boxes, copies, y); }
    }
  }

  lemma SeenMore(db0: Db, copies: map<Key, Key>, k: Key, key: Key, seen: set<string>)
    requires k in db0.messages && k !in copies
    requires forall x :: x in seen <==> exists j :: j in copies && j in db0.messages && db0.messages[j].blob == x
    ensures forall x ::
      x in seen + {db0.messages[k].blob}
      <==> exists j :: j in copies[k := key] && j in db0.messages && db0.messages[j].blob == x
  {
    var copies' := copies[k := key];
    forall x | x in seen + {db0.messages[k].blob}
      ensures exists j :: j in copies' && j in db0.messages && db0.messages[j].blob == x
    {
      if x in seen {
        var j :| j in copies && j in db0.messages && db0.messages[j].blob == x;
        assert j in copies';
      } else {
        assert k in copies';
      }
    }
  }

  // ---- one mailbox, all mailboxes -------------------------------------------------------------

  function RowKeys(rows: seq<Row>): set<Key> {
    set r | r in rows :: r.key
  }

  /** The rows whose bodies are in the archive. */
  function CarriedKeys(rows: seq<Row>, bodies: map<string, string>): set<Key> {
    set r | r in rows && r.msg.blob in bodies :: r.key
  }

  /** The setting of the message loop: what is restored, where from and where to. */
  datatype Job = Job(db0: Db, a: nat, base: Db, b: nat, boxes: map<Key, nat>, bodies: map<string, string>)

  ghost predicate Ready(j: Job) {
    && Foreign(j.db0, j.a, j.bodies, j.base)
    && (forall k :: k in j.db0.messages && k.account == j.a ==>
          Home(j.db0, k) in j.boxes && (j.db0.messages[k].blob in j.bodies ==> Carried(j.db0, j.bodies, k)))
  }

  ghost predicate At(j: Job, p: Progress, copies: map<Key, Key>) {
    Copying(j.db0, j.base, p, j.b, j.boxes, copies)
  }

  /** A file of the archive, not yet dealt with. */
  ghost predicate Ahead(j: Job, mb: Key, f: File, rows: seq<Row>, copies: map<Key, Key>) {
    && mb.account == j.a && mb in j.boxes && Filed(j.db0, mb, f, rows) && RowKeys(rows) !! copies.Keys
  }

  lemma {:induction false} CopyPrefix(j: Job, p: Progress, copies: map<Key, Key>, mb: Key, f: File, rows: seq<Row>,
                                      n: nat)
    returns (copies': map<Key, Key>)
    requires Ready(j) && At(j, p, copies) && Ahead(j, mb, f, rows, copies) && n <= |rows|
    ensures At(j, AllMessages(p, j.b, j.boxes[mb], j.bodies, f.messages[..n]), copies')
    ensures copies'.Keys == copies.Keys + CarriedKeys(rows[..n], j.bodies)
    decreases n
  {
    if n == 0 {
      copies' := copies;
      assert f.messages[..0] == [] && CarriedKeys(rows[..0], j.bodies) == {};
    } else {
      var before := CopyPrefix(j, p, copies, mb, f, rows, n - 1);
      assert |f.messages| == |rows| by { assert Filed(j.db0, mb, f, rows); }
      var q := AllMessages(p, j.b, j.boxes[mb], j.bodies, f.messages[..n - 1]);
      copies' := CopyRow(j, q, copies, before, mb, f, rows, n - 1);
      OneMessageMore(p, j.b, j.boxes[mb], j.bodies, f.messages, n - 1);
    }
  }

  lemma OneMessageMore(p: Progress, b: nat, id: nat, bodies: map<string, string>, messages: seq<Message>, n: nat)
    requires n < |messages|
    ensures AllMessages(p, b, id, bodies, messages[..n + 1])
         == OneMessage(AllMessages(p, b, id, bodies, messages[..n]), b, id, bodies, messages[n])
  {
    assert messages[..n + 1][..n] == messages[..n];
  }

  lemma CopyRow(j: Job, q: Progress, copies: map<Key, Key>, before: map<Key, Key>, mb: Key, f: File, rows: seq<Row>,
                i: nat)
    returns (copies': map<Key, Key>)
    requires Ready(j) && At(j, q, before) && Ahead(j, mb, f, rows, copies) && i < |rows|
    requires before.Keys == copies.Keys + CarriedKeys(rows[..i], j.bodies)
    ensures At(j, OneMessage(q, j.b, j.boxes[mb], j.bodies, f.messages[i]), copies')
    ensures copies'.Keys == copies.Keys + CarriedKeys(rows[..i + 1], j.bodies) && Fits(q, j.bodies, f.messages[i])
  {
    RowIsNew(j, copies, before, mb, f, rows, i);
    copies' := CopyOrSkip(j, q, before, rows[i].key);
    CarriedKeysMore(rows, j.bodies, i);
    KeysGrow(copies.Keys, before.Keys, copies'.Keys, CarriedKeys(rows[..i], j.bodies),
             CarriedKeys(rows[..i + 1], j.bodies),
             if rows[i].msg.blob in j.bodies then {rows[i].key} else {});
  }

  lemma KeysGrow(base: set<Key>, before: set<Key>, after: set<Key>, x: set<Key>, y: set<Key>, more: set<Key>)
    requires before == base + x && after == before + more && y == x + more
    ensures after == base + y
  {
  }

  lemma RowIsNew(j: Job, copies: map<Key, Key>, before: map<Key, Key>, mb: Key, f: File, rows: seq<Row>, i: nat)
    requires Ahead(j, mb, f, rows, copies) && i < |rows|
      && before.Keys == copies.Keys + CarriedKeys(rows[..i], j.bodies)
    ensures var k := rows[i].key;
            k !in before && In(j.db0, k, mb) && k.account == j.a
            && f.messages[i] == rows[i].msg == j.db0.messages[k]
  {
    RowAt(j, mb, f, rows, copies, i);
    CarriedKeysMore(rows, j.bodies, i);
  }

  lemma CopyOrSkip(j: Job, q: Progress, before: map<Key, Key>, k: Key) returns (copies': map<Key, Key>)
    requires Ready(j) && At(j, q, before) && k in j.db0.messages && k.account == j.a && k !in before
    ensures Home(j.db0, k) in j.boxes && Fits(q, j.bodies, j.db0.messages[k])
    ensures copies'.Keys == before.Keys + if j.db0.messages[k].blob in j.bodies then {k} else {}
    ensures At(j, OneMessage(q, j.b, j.boxes[Home(j.db0, k)], j.bodies, j.db0.messages[k]), copies')
  {
    if j.db0.messages[k].blob in j.bodies {
      copies' := CopyCarried(j, q, before, k);
    } else {
      copies' := before;
      assert before.Keys + {} == before.Keys;
    }
  }

  lemma CopyCarried(j: Job, q: Progress, before: map<Key, Key>, k: Key) returns (copies': map<Key, Key>)
    requires Ready(j) && At(j, q, before) && k in j.db0.messages && k.account == j.a && k !in before
      && j.db0.messages[k].blob in j.bodies
    ensures Home(j.db0, k) in j.boxes && Fits(q, j.bodies, j.db0.messages[k]) && copies'.Keys == before.Keys + {k}
    ensures At(j, OneMessage(q, j.b, j.boxes[Home(j.db0, k)], j.bodies, j.db0.messages[k]), copies')
  {
    CopyOne(j.db0, j.a, j.base, q, j.b, j.boxes, before, j.bodies, k);
    copies' := before[k := Key(j.b, q.db.nextId)];
  }

  lemma CarriedKeysMore(rows: seq<Row>, bodies: map<string, string>, i: nat)
    requires i < |rows|
    ensures CarriedKeys(rows[..i + 1], bodies)
         == CarriedKeys(rows[..i], bodies) + if rows[i].msg.blob in bodies then {rows[i].key} else {}
    ensures CarriedKeys(rows[..i], bodies) <= RowKeys(rows[..i])
  {
    assert rows[..i + 1] == rows[..i] + [rows[i]];
  }

  lemma RowAt(j: Job, mb: Key, f: File, rows: seq<Row>, copies: map<Key, Key>, i: nat)
    requires Ahead(j, mb, f, rows, copies) && i < |rows|
    ensures var k := rows[i].key;
            && In(j.db0, k, mb) && k.account == j.a && f.messages[i] == rows[i].msg == j.db0.messages[k]
            && k !in copies && k !in RowKeys(rows[..i])
  {
    assert rows[i] in rows;
    assert rows[i].key in RowKeys(rows);
    assert forall x :: 0 <= x < i ==> rows[..i][x] == rows[x];
  }

  lemma FileFitsWell(j: Job, p: Progress, copies: map<Key, Key>, mb: Key, f: File, rows: seq<Row>)
    requires Ready(j) && At(j, p, copies) && Ahead(j, mb, f, rows, copies)
    ensures MessagesFit(p, j.b, j.boxes[mb], j.bodies, f.messages)
  {
    forall i | 0 <= i < |f.messages| ensures FitsAt(p, j.b, j.boxes[mb], j.bodies, f.messages, i) {
      var before := CopyPrefix(j, p, copies, mb, f, rows, i);
      var _ := CopyRow(j, AllMessages(p, j.b, j.boxes[mb], j.bodies, f.messages[..i]), copies, before, mb, f, rows, i);
    }
  }

  /** The archive under way: ids by name agree with the pairing of mailboxes. */
  ghost predicate Paired(j: Job, a: Archive, keys: seq<Key>, rows: seq<seq<Row>>, ids: map<string, nat>) {
    && Archived(j.db0, j.a, a, keys, rows) && j.bodies == a.bodies
    && (forall i :: 0 <= i < |keys| ==>
        keys[i] in j.boxes && a.files[i].mailbox.name in ids && ids[a.files[i].mailbox.name] == j.boxes[keys[i]])
  }

  /** The messages in these mailboxes whose bodies are in the archive. */
  function CarriedIn(db: Db, keys: seq<Key>, bodies: map<string, string>): set<Key> {
    set k | k in db.messages && Home(db, k) in keys && db.messages[k].blob in bodies
  }

  lemma CarriedOf(db: Db, mb: Key, f: File, rows: seq<Row>, bodies: map<string, string>)
    requires Filed(db, mb, f, rows)
    ensures forall k :: k in CarriedKeys(rows, bodies) <==> In(db, k, mb) && db.messages[k].blob in bodies
    ensures forall k :: k in RowKeys(rows) ==> In(db, k, mb)
  {
    forall k | In(db, k, mb) && db.messages[k].blob in bodies ensures k in CarriedKeys(rows, bodies) {
      assert Row(k, db.messages[k]) in rows;
    }
  }

  lemma FileAhead(j: Job, a: Archive, keys: seq<Key>, rows: seq<seq<Row>>, ids: map<string, nat>, copies: map<Key, Key>,
                  i: nat)
    requires Paired(j, a, keys, rows, ids) && i < |keys| && copies.Keys == CarriedIn(j.db0, keys[..i], j.bodies)
    ensures Ahead(j, keys[i], a.files[i], rows[i], copies)
    ensures CarriedIn(j.db0, keys[..i + 1], j.bodies)
      == CarriedIn(j.db0, keys[..i], j.bodies) + CarriedKeys(rows[i], j.bodies)
  {
    assert keys[i] in keys && Filed(j.db0, keys[i], a.files[i], rows[i]);
    assert keys[..i + 1] == keys[..i] + [keys[i]];
    CarriedOf(j.db0, keys[i], a.files[i], rows[i], j.bodies);
    assert forall x :: 0 <= x < i ==> keys[..i][x] == keys[x];
  }

  lemma {:induction false} CopyFiles(j: Job, p: Progress, a: Archive, keys: seq<Key>, rows: seq<seq<Row>>,
                                     ids: map<string, nat>, n: nat)
    returns (copies: map<Key, Key>)
    requires Ready(j) && At(j, p, map[]) && Paired(j, a, keys, rows, ids) && n <= |keys|
    ensures At(j, AllFiles(p, j.b, ids, j.bodies, a.files[..n]), copies)
      && copies.Keys == CarriedIn(j.db0, keys[..n], j.bodies)
    decreases n
  {
    if n == 0 {
      copies := map[];
      assert a.files[..0] == [] && CarriedIn(j.db0, keys[..0], j.bodies) == {};
    } else {
      var before := CopyFiles(j, p, a, keys, rows, ids, n - 1);
      var q, i := AllFiles(p, j.b, ids, j.bodies, a.files[..n - 1]), n - 1;
      FileAhead(j, a, keys, rows, ids, before, i);
      copies := CopyPrefix(j, q, before, keys[i], a.files[i], rows[i], |rows[i]|);
      assert a.files[..n][..i] == a.files[..i] && rows[i][..|rows[i]|] == rows[i];
      assert a.files[i].messages[..|rows[i]|] == a.files[i].messages;
    }
  }

  // ---- mailboxes ------------------------------------------------------------------------------

  /** Inserting the mailboxes changes nothing else. */
  lemma {:induction false} BoxesInserted(db: Db, b: nat, files: seq<File>)
    requires IdsFresh(db)
    ensures var db' := WithBoxes(db, b, files);
            && db' == db.(mailboxes := db'.mailboxes, nextId := db.nextId + |files|)
            && (forall mb ::
                  mb in db'.mailboxes
                  <==> mb in db.mailboxes || (mb.account == b && db.nextId <= mb.id < db.nextId + |files|))
            && (forall mb :: mb in db.mailboxes ==> db'.mailboxes[mb] == db.mailboxes[mb])
            && (forall i :: 0 <= i < |files| ==> db'.mailboxes[Key(b, db.nextId + i)] == files[i].mailbox)
  {
    if files != [] {
      BoxesInserted(db, b, files[..|files| - 1]);
    }
  }

  lemma BoxesKeepExact(db: Db, b: nat, files: seq<File>)
    requires Exact(db)
    ensures Exact(WithBoxes(db, b, files))
  {
    BoxesInserted(db, b, files);
  }

  lemma {:induction false} IdsFound(first: nat, files: seq<File>, i: nat)
    requires i < |files| && forall x, y :: 0 <= x < y < |files| ==> files[x].mailbox.name != files[y].mailbox.name
    ensures files[i].mailbox.name in IdsByName(first, files)
      && IdsByName(first, files)[files[i].mailbox.name] == first + i
  {
    if i < |files| - 1 {
      IdsFound(first, files[..|files| - 1], i);
    }
  }

  function IndexOf(keys: seq<Key>, mb: Key): (i: nat)
    requires mb in keys
    ensures i < |keys| && keys[i] == mb
  {
    if keys[0] == mb then 0 else 1 + IndexOf(keys[1..], mb)
  }

  /** The new ids, in the order of the archive. */
  function NewIds(keys: seq<Key>, first: nat): map<Key, nat> {
    map mb | mb in keys :: first + IndexOf(keys, mb)
  }

  /** The i-th mailbox has the i-th of the new ids. */
  ghost predicate Numbers(boxes: map<Key, nat>, keys: seq<Key>, first: nat) {
    && (forall mb :: mb in boxes <==> mb in keys)
    && (forall i :: 0 <= i < |keys| ==> keys[i] in boxes && boxes[keys[i]] == first + i)
  }

  lemma NewIdsNumber(keys: seq<Key>, first: nat)
    requires forall i, j :: 0 <= i < j < |keys| ==> keys[i] != keys[j]
    ensures Numbers(NewIds(keys, first), keys, first)
  {
    forall i | 0 <= i < |keys| ensures keys[i] in NewIds(keys, first) && NewIds(keys, first)[keys[i]] == first + i {
      assert keys[i] in keys;
      var k := IndexOf(keys, keys[i]);
      assert k == i;
    }
  }

  lemma IdsPaired(db0: Db, a: nat, ar: Archive, keys: seq<Key>, rows: seq<seq<Row>>, first: nat, i: nat)
    requires Archived(db0, a, ar, keys, rows) && DistinctNames(db0, a) && i < |keys|
    ensures var ids := IdsByName(first, ar.files);
            ar.files[i].mailbox.name in ids
            && ids[ar.files[i].mailbox.name] == first + i
  {
    forall x, y | 0 <= x < y < |keys| ensures ar.files[x].mailbox.name != ar.files[y].mailbox.name {
      assert keys[x] in keys && keys[y] in keys;
      assert Filed(db0, keys[x], ar.files[x], rows[x]) && Filed(db0, keys[y], ar.files[y], rows[y]);
    }
    IdsFound(first, ar.files, i);
  }

  // ---- the round trip -------------------------------------------------------------------------

  /** Deleting the account leaves the others as they were. */
  lemma OthersStay(db0: Db, a: nat, bodies: map<string, string>)
    requires Exact(db0) && PrivateIn(db0, a, bodies.Keys)
    ensures var base := AccountDeleted(db0, a);
            && Exact(base) && Foreign(db0, a, bodies, base) && base.nextId == db0.nextId
            && (forall k :: k in base.messages <==> k in db0.messages && k.account != a)
            && (forall mb :: mb in base.mailboxes <==> mb in db0.mailboxes && mb.account != a)
  {
    RefCounts.DeleteAccountKeepsExact(db0, a);
  }

  /** Backup, delete, restore: every mailbox comes back, and every message whose body the archive has,
      all under new ids; every count is exact again, and no call of the restore is refused. */
  lemma RoundTrip(db0: Db, a: nat, b: nat, ar: Archive, keys: seq<Key>, rows: seq<seq<Row>>)
    returns (boxes: map<Key, nat>, copies: map<Key, Key>)
    requires Exact(db0) && Housed(db0, a) && DistinctNames(db0, a) && Vacant(db0, b) && Archived(db0, a, ar, keys, rows)
    requires PrivateIn(db0, a, ar.bodies.Keys)
    ensures var base := AccountDeleted(db0, a);
            var db := Rebuilt(base, b, ar);
            Fit(base, b, ar) && Exact(db) && TwinOf(db0, a, db, b, boxes, copies, ar.bodies.Keys)
  {
    var base0 := AccountDeleted(db0, a);
    OthersStay(db0, a, ar.bodies);
    boxes, copies := RestoredTwin(db0, a, base0, b, ar, keys, rows);
  }

  /** The same from any store that has nothing of either account and none of its bodies. */
  lemma RestoredTwin(db0: Db, a: nat, base0: Db, b: nat, ar: Archive, keys: seq<Key>, rows: seq<seq<Row>>)
    returns (boxes: map<Key, nat>, copies: map<Key, Key>)
    requires Exact(db0) && Housed(db0, a) && DistinctNames(db0, a) && Archived(db0, a, ar, keys, rows)
    requires Exact(base0) && Foreign(db0, a, ar.bodies, base0) && Vacant(base0, b)
    ensures var db := Rebuilt(base0, b, ar);
            Fit(base0, b, ar) && Exact(db) && TwinOf(db0, a, db, b, boxes, copies, ar.bodies.Keys)
  {
    var base, ids := WithBoxes(base0, b, ar.files), IdsByName(base0.nextId, ar.files);
    boxes := NewIds(keys, base0.nextId);
    NewIdsNumber(keys, base0.nextId);
    var j, p := Job(db0, a, base, b, boxes, ar.bodies), Progress(base, {});
    JobSetUp(j, base0, ar, keys, rows, p);
    JobFits(j, p, ar, keys, rows, ids);
    copies := JobRuns(j, base0, ar, keys, rows, p);
  }

  lemma AllCopied(j: Job, p: Progress, ar: Archive, keys: seq<Key>, rows: seq<seq<Row>>, ids: map<string, nat>)
    returns (copies: map<Key, Key>)
    requires Ready(j) && At(j, p, map[]) && Paired(j, ar, keys, rows, ids)
    ensures At(j, AllFiles(p, j.b, ids, ar.bodies, ar.files), copies) && copies.Keys == CarriedIn(j.db0, keys, j.bodies)
  {
    copies := CopyFiles(j, p, ar, keys, rows, ids, |keys|);
    assert ar.files[..|keys|] == ar.files && keys[..|keys|] == keys;
  }

  lemma JobRuns(j: Job, base0: Db, ar: Archive, keys: seq<Key>, rows: seq<seq<Row>>, p: Progress)
    returns (copies: map<Key, Key>)
    requires Ready(j) && At(j, p, map[]) && Paired(j, ar, keys, rows, IdsByName(base0.nextId, ar.files))
    requires Housed(j.db0, j.a) && Numbers(j.boxes, keys, base0.nextId) && IdsFresh(base0) && Vacant(base0, j.b)
    requires j.base == WithBoxes(base0, j.b, ar.files)
    ensures var db := AllFiles(p, j.b, IdsByName(base0.nextId, ar.files), ar.bodies, ar.files).db;
            Exact(db) && TwinOf(j.db0, j.a, db, j.b, j.boxes, copies, j.bodies.Keys)
  {
    var ids := IdsByName(base0.nextId, ar.files);
    copies := AllCopied(j, p, ar, keys, rows, ids);
    JobDone(j, base0, ar, keys, rows, AllFiles(p, j.b, ids, ar.bodies, ar.files), copies);
  }

  lemma JobSetUp(j: Job, base0: Db, ar: Archive, keys: seq<Key>, rows: seq<seq<Row>>, p: Progress)
    requires Exact(j.db0) && Housed(j.db0, j.a) && DistinctNames(j.db0, j.a) && Archived(j.db0, j.a, ar, keys, rows)
    requires Exact(base0) && Foreign(j.db0, j.a, j.bodies, base0) && j.base == WithBoxes(base0, j.b, ar.files)
      && p == Progress(j.base, {})
    requires j.bodies == ar.bodies && Numbers(j.boxes, keys, base0.nextId)
    ensures At(j, p, map[]) && Ready(j) && Paired(j, ar, keys, rows, IdsByName(base0.nextId, ar.files))
  {
    JobStarts(j, base0, ar, p);
    JobReady(j, ar, keys, rows);
    JobPaired(j, ar, keys, rows, base0.nextId);
  }

  lemma JobStarts(j: Job, base0: Db, ar: Archive, p: Progress)
    requires Exact(base0) && Foreign(j.db0, j.a, j.bodies, base0) && j.base == WithBoxes(base0, j.b, ar.files)
      && p == Progress(j.base, {})
    ensures Foreign(j.db0, j.a, j.bodies, j.base) && At(j, p, map[])
  {
    BoxesKeepExact(base0, j.b, ar.files);
    BoxesInserted(base0, j.b, ar.files);
  }

  lemma JobReady(j: Job, ar: Archive, keys: seq<Key>, rows: seq<seq<Row>>)
    requires Exact(j.db0) && Housed(j.db0, j.a) && Archived(j.db0, j.a, ar, keys, rows)
      && Foreign(j.db0, j.a, j.bodies, j.base)
    requires j.bodies == ar.bodies && forall mb :: mb in j.boxes <==> mb in keys
    ensures Ready(j)
  {
    forall k | k in j.db0.messages && k.account == j.a ensures Home(j.db0, k) in j.boxes {
      assert Home(j.db0, k) in keys;
    }
  }

  lemma JobPaired(j: Job, ar: Archive, keys: seq<Key>, rows: seq<seq<Row>>, first: nat)
    requires Archived(j.db0, j.a, ar, keys, rows) && DistinctNames(j.db0, j.a) && j.bodies == ar.bodies
      && Numbers(j.boxes, keys, first)
    ensures Paired(j, ar, keys, rows, IdsByName(first, ar.files))
  {
    forall i | 0 <= i < |keys|
      ensures keys[i] in j.boxes && ar.files[i].mailbox.name in IdsByName(first, ar.files)
      ensures IdsByName(first, ar.files)[ar.files[i].mailbox.name] == j.boxes[keys[i]]
    {
      IdsPaired(j.db0, j.a, ar, keys, rows, first, i);
    }
  }

  lemma JobFits(j: Job, p: Progress, ar: Archive, keys: seq<Key>, rows: seq<seq<Row>>, ids: map<string, nat>)
    requires Ready(j) && At(j, p, map[]) && Paired(j, ar, keys, rows, ids)
    ensures forall i :: 0 <= i < |ar.files| ==> FileFits(p, j.b, ids, ar.bodies, ar.files, i)
  {
    forall i | 0 <= i < |ar.files| ensures FileFits(p, j.b, ids, ar.bodies, ar.files, i) {
      var before := CopyFiles(j, p, ar, keys, rows, ids, i);
      FileAhead(j, ar, keys, rows, ids, before, i);
      FileFitsWell(j, AllFiles(p, j.b, ids, j.bodies, ar.files[..i]), before, keys[i], ar.files[i], rows[i]);
    }
  }

  lemma JobDone(j: Job, base0: Db, ar: Archive, keys: seq<Key>, rows: seq<seq<Row>>, p: Progress, copies: map<Key, Key>)
    requires Archived(j.db0, j.a, ar, keys, rows) && Housed(j.db0, j.a) && At(j, p, copies)
      && copies.Keys == CarriedIn(j.db0, keys, j.bodies)
    requires Numbers(j.boxes, keys, base0.nextId) && IdsFresh(base0) && j.base == WithBoxes(base0, j.b, ar.files)
      && Vacant(base0, j.b)
    ensures TwinOf(j.db0, j.a, p.db, j.b, j.boxes, copies, j.bodies.Keys)
  {
    BoxesTwin(j, base0, ar, keys, rows);
    BoxesInserted(base0, j.b, ar.files);
    MessagesTwin(j, p, copies);
    CarriedAreOfAccount(j.db0, j.a, keys, j.bodies);
  }

  lemma CarriedAreOfAccount(db: Db, account: nat, keys: seq<Key>, bodies: map<string, string>)
    requires Listed(db, account, keys) && Housed(db, account)
    ensures CarriedIn(db, keys, bodies) == OfAccountWith(db, account, bodies.Keys)
  {
  }

  lemma MessagesTwin(j: Job, p: Progress, copies: map<Key, Key>)
    requires At(j, p, copies) && forall k :: k in j.base.messages ==> k.account != j.b
    ensures MessagesPaired(j.db0, p.db, j.b, j.boxes, copies)
  {
    forall k | k in copies
      ensures CopyOf(j.db0, p.db, j.b, j.boxes, copies, k) && SameBody(j.db0, p.db, j.db0.messages[k].blob)
    {
      assert j.db0.messages[k].blob in p.seen;
    }
  }

  lemma BoxesTwin(j: Job, base0: Db, ar: Archive, keys: seq<Key>, rows: seq<seq<Row>>)
    requires Archived(j.db0, j.a, ar, keys, rows) && Numbers(j.boxes, keys, base0.nextId) && IdsFresh(base0)
    requires j.base == WithBoxes(base0, j.b, ar.files) && Vacant(base0, j.b)
    ensures BoxesPaired(j.db0, j.a, j.base, j.b, j.boxes)
  {
    forall mb | mb in j.boxes
      ensures Key(j.b, j.boxes[mb]) in j.base.mailboxes
        && j.base.mailboxes[Key(j.b, j.boxes[mb])] == j.db0.mailboxes[mb]
    {
      BoxOf(j, base0, ar, keys, rows, mb);
    }
    IdsDiffer(j.boxes, keys, base0.nextId);
    forall mb | mb in j.base.mailboxes && mb.account == j.b
      ensures exists old_ :: old_ in j.boxes && j.boxes[old_] == mb.id
    {
      BoxIs(j, base0, ar, keys, rows, mb);
    }
  }

  lemma IdsDiffer(boxes: map<Key, nat>, keys: seq<Key>, first: nat)
    requires Numbers(boxes, keys, first)
    ensures forall x, y :: x in boxes && y in boxes && x != y ==> boxes[x] != boxes[y]
  {
    forall x, y | x in boxes && y in boxes && x != y ensures boxes[x] != boxes[y] {
      var i, i' :| 0 <= i < |keys| && keys[i] == x && 0 <= i' < |keys| && keys[i'] == y;
    }
  }

  lemma BoxOf(j: Job, base0: Db, ar: Archive, keys: seq<Key>, rows: seq<seq<Row>>, mb: Key)
    requires Archived(j.db0, j.a, ar, keys, rows) && Numbers(j.boxes, keys, base0.nextId) && IdsFresh(base0)
    requires j.base == WithBoxes(base0, j.b, ar.files) && mb in j.boxes
    ensures Key(j.b, j.boxes[mb]) in j.base.mailboxes && mb in j.db0.mailboxes
      && j.base.mailboxes[Key(j.b, j.boxes[mb])] == j.db0.mailboxes[mb]
  {
    var i := IdFound(j.boxes, keys, base0.nextId, mb);
    BoxAt(j.db0, j.base, j.a, j.b, base0, ar, keys, rows, i, mb, j.boxes[mb]);
  }

  lemma IdFound(boxes: map<Key, nat>, keys: seq<Key>, first: nat, mb: Key) returns (i: nat)
    requires Numbers(boxes, keys, first) && mb in boxes
    ensures i < |keys| && keys[i] == mb && boxes[mb] == first + i
  {
    i :| 0 <= i < |keys| && keys[i] == mb;
  }

  lemma BoxAt(db0: Db, base: Db, a: nat, b: nat, base0: Db, ar: Archive, keys: seq<Key>, rows: seq<seq<Row>>, i: nat,
              mb: Key, id: nat)
    requires Archived(db0, a, ar, keys, rows) && IdsFresh(base0) && base == WithBoxes(base0, b, ar.files)
    requires i < |keys| && keys[i] == mb && id == base0.nextId + i
    ensures Key(b, id) in base.mailboxes && mb in db0.mailboxes && base.mailboxes[Key(b, id)] == db0.mailboxes[mb]
  {
    InsertedAt(base0, b, ar.files, i, id);
    assert Filed(db0, mb, ar.files[i], rows[i]);
  }

  lemma InsertedAt(db: Db, b: nat, files: seq<File>, i: nat, id: nat)
    requires IdsFresh(db) && i < |files| && id == db.nextId + i
    ensures var db' := WithBoxes(db, b, files);
            Key(b, id) in db'.mailboxes
            && db'.mailboxes[Key(b, id)] == files[i].mailbox
  {
    BoxesInserted(db, b, files);
  }

  lemma BoxIs(j: Job, base0: Db, ar: Archive, keys: seq<Key>, rows: seq<seq<Row>>, mb: Key)
    requires Archived(j.db0, j.a, ar, keys, rows) && Numbers(j.boxes, keys, base0.nextId) && IdsFresh(base0)
    requires j.base == WithBoxes(base0, j.b, ar.files) && mb in j.base.mailboxes && mb !in base0.mailboxes
    ensures exists old_ :: old_ in j.boxes && j.boxes[old_] == mb.id
  {
    BoxesInserted(base0, j.b, ar.files);
    var i := mb.id - base0.nextId;
    assert keys[i] in j.boxes && j.boxes[keys[i]] == mb.id;
  }

  // ---- exactly when it works ------------------------------------------------------------------

  /** No key written so far was counted before, and every count of before is still there. */
  ghost predicate NoClash(base: Db, p: Progress) {
    base.refs.Keys <= p.db.refs.Keys && p.seen !! base.refs.Keys
  }

  lemma {:induction false} NoClashMessages(base: Db, p: Progress, b: nat, id: nat, bodies: map<string, string>,
                                           messages: seq<Message>, n: nat)
    requires NoClash(base, p) && MessagesFit(p, b, id, bodies, messages) && n <= |messages|
    ensures var p' := AllMessages(p, b, id, bodies, messages[..n]);
            && NoClash(base, p') && p.seen <= p'.seen
            && forall i :: 0 <= i < n && messages[i].blob in bodies ==> messages[i].blob in p'.seen
    decreases n
  {
    if n == 0 {
      assert messages[..0] == [];
    } else {
      NoClashMessages(base, p, b, id, bodies, messages, n - 1);
      assert messages[..n][..n - 1] == messages[..n - 1];
      assert FitsAt(p, b, id, bodies, messages, n - 1);
    }
  }

  lemma {:induction false} NoClashFiles(base: Db, p: Progress, b: nat, ids: map<string, nat>,
                                        bodies: map<string, string>, files: seq<File>, n: nat)
    requires NoClash(base, p) && n <= |files| && forall i :: 0 <= i < |files| ==> FileFits(p, b, ids, bodies, files, i)
    ensures var p' := AllFiles(p, b, ids, bodies, files[..n]);
            && NoClash(base, p') && p.seen <= p'.seen
            && forall i, x :: 0 <= i < n && 0 <= x < |files[i].messages| && files[i].mailbox.name in ids
                               && files[i].messages[x].blob in bodies ==>
                 files[i].messages[x].blob in p'.seen
    decreases n
  {
    if n == 0 {
      assert files[..0] == [];
    } else {
      var f := files[n - 1];
      NoClashFiles(base, p, b, ids, bodies, files, n - 1);
      assert files[..n][..n - 1] == files[..n - 1];
      if f.mailbox.name in ids {
        assert FileFits(p, b, ids, bodies, files, n - 1);
        NoClashMessages(base, AllFiles(p, b, ids, bodies, files[..n - 1]), b, ids[f.mailbox.name], bodies, f.messages,
                        |f.messages|);
        assert f.messages[..|f.messages|] == f.messages;
      }
    }
  }

  /** After deleting the account its shared bodies are exactly those still counted. */
  lemma StillCounted(db0: Db, a: nat, j: Key, k: Key)
    requires Exact(db0) && j in db0.messages && k in db0.messages && j.account == a && k.account != a
      && db0.messages[j].blob == db0.messages[k].blob
    ensures db0.messages[j].blob in AccountDeleted(db0, a).refs
  {
    RefCounts.DeleteAccountKeepsExact(db0, a);
    ReferrersPositive(AccountDeleted(db0, a).messages, k);
  }

  lemma MessageFiled(db0: Db, a: nat, ar: Archive, keys: seq<Key>, rows: seq<seq<Row>>, k: Key) returns (i: nat, x: nat)
    requires Exact(db0) && Housed(db0, a) && Archived(db0, a, ar, keys, rows) && k in db0.messages && k.account == a
    ensures i < |ar.files| && x < |ar.files[i].messages| && ar.files[i].messages[x] == db0.messages[k]
    ensures db0.messages[k].blob in db0.blobs
  {
    var mb := Home(db0, k);
    assert mb in keys;
    i :| 0 <= i < |keys| && keys[i] == mb;
    assert Filed(db0, keys[i], ar.files[i], rows[i]);
    assert Row(k, db0.messages[k]) in rows[i];
    x :| 0 <= x < |rows[i]| && rows[i][x] == Row(k, db0.messages[k]);
    assert ar.files[i].messages[x] == db0.messages[k];
    ReferrersPositive(db0.messages, k);
  }

  lemma FitMeansPrivate(db0: Db, a: nat, b: nat, ar: Archive, keys: seq<Key>, rows: seq<seq<Row>>)
    requires Exact(db0) && Housed(db0, a) && DistinctNames(db0, a) && Archived(db0, a, ar, keys, rows)
    requires Fit(AccountDeleted(db0, a), b, ar)
    ensures PrivateIn(db0, a, ar.bodies.Keys)
  {
    var base := AccountDeleted(db0, a);
    var start, ids := Progress(WithBoxes(base, b, ar.files), {}), IdsByName(base.nextId, ar.files);
    BoxesKeepRefs(base, b, ar.files);
    NoClashFiles(base, start, b, ids, ar.bodies, ar.files, |ar.files|);
    assert ar.files[..|ar.files|] == ar.files;
    forall j, k | j in db0.messages && k in db0.messages && j.account == a && k.account != a
      && db0.messages[j].blob in ar.bodies
      ensures db0.messages[j].blob != db0.messages[k].blob
    {
      var i, x := MessageFiled(db0, a, ar, keys, rows, j);
      IdsPaired(db0, a, ar, keys, rows, base.nextId, i);
      if db0.messages[j].blob == db0.messages[k].blob { StillCounted(db0, a, j, k); }
    }
  }

  lemma {:induction false} BoxesKeepRefs(db: Db, b: nat, files: seq<File>)
    ensures WithBoxes(db, b, files).refs == db.refs
  {
    if files != [] { BoxesKeepRefs(db, b, files[..|files| - 1]); }
  }

  /** Restoring after the delete goes through if and only if no other account shares a body in the
      archive: a shared body's count is still there, and the insert of a fresh count row is refused. */
  lemma RestorableIff(db0: Db, a: nat, b: nat, ar: Archive, keys: seq<Key>, rows: seq<seq<Row>>)
    requires Exact(db0) && Housed(db0, a) && DistinctNames(db0, a) && Vacant(db0, b) && Archived(db0, a, ar, keys, rows)
    ensures Fit(AccountDeleted(db0, a), b, ar) <==> PrivateIn(db0, a, ar.bodies.Keys)
  {
    if PrivateIn(db0, a, ar.bodies.Keys) {
      var _, _ := RoundTrip(db0, a, b, ar, keys, rows);
    }
    if Fit(AccountDeleted(db0, a), b, ar) {
      FitMeansPrivate(db0, a, b, ar, keys, rows);
    }
  }

  // ---- what a failing fetch loses -------------------------------------------------------------

  /** A pairing counts: as many messages here as are paired there. */
  lemma {:induction false} PairsCount(copies: map<Key, Key>, theirs: set<Key>)
    requires forall k :: k in theirs <==> exists j :: j in copies && copies[j] == k
    requires forall x, y :: x in copies && y in copies && x != y ==> copies[x] != copies[y]
    ensures |theirs| == |copies.Keys|
    decreases |copies.Keys|
  {
    if copies.Keys == {} {
      assert theirs == {};
    } else {
      var k :| k in copies;
      var rest, others := copies - {k}, theirs - {copies[k]};
      assert rest.Keys == copies.Keys - {k};
      forall x ensures x in others <==> exists j :: j in rest && rest[j] == x {
        if x in others {
          var j :| j in copies && copies[j] == x;
          assert j in rest && rest[j] == x;
        }
      }
      PairsCount(rest, others);
    }
  }

  lemma PairedCount(db0: Db, db: Db, b: nat, boxes: map<Key, nat>, copies: map<Key, Key>)
    requires MessagesPaired(db0, db, b, boxes, copies)
    ensures |OfAccount(db, b)| == |copies.Keys|
  {
    forall k ensures k in OfAccount(db, b) <==> exists j :: j in copies && copies[j] == k {
      if j :| j in copies && copies[j] == k { assert CopyOf(db0, db, b, boxes, copies, j); }
    }
    PairsCount(copies, OfAccount(db, b));
  }

  ghost predicate HasTwin(db0: Db, a: nat, db: Db, b: nat) {
    exists boxes, copies :: Twin(db0, a, db, b, boxes, copies)
  }

  lemma CompleteHasTwin(db0: Db, a: nat, db: Db, b: nat, boxes: map<Key, nat>, copies: map<Key, Key>,
                        bodies: set<string>)
    requires TwinOf(db0, a, db, b, boxes, copies, bodies) && Complete(db0, a, bodies)
    ensures Twin(db0, a, db, b, boxes, copies)
  {
    assert OfAccountWith(db0, a, bodies) == OfAccount(db0, a);
  }

  lemma TwinCount(db0: Db, a: nat, db: Db, b: nat, boxes: map<Key, nat>, copies: map<Key, Key>)
    requires Twin(db0, a, db, b, boxes, copies)
    ensures |OfAccount(db, b)| == |OfAccount(db0, a)|
  {
    PairedCount(db0, db, b, boxes, copies);
  }

  lemma TwinOfCount(db0: Db, a: nat, db: Db, b: nat, boxes: map<Key, nat>, copies: map<Key, Key>, bodies: set<string>)
    requires TwinOf(db0, a, db, b, boxes, copies, bodies)
    ensures |OfAccount(db, b)| == |OfAccountWith(db0, a, bodies)|
  {
    PairedCount(db0, db, b, boxes, copies);
  }

  /** What came back is the whole account if and only if the archive had every body. */
  lemma TwinIffComplete(db0: Db, a: nat, db: Db, b: nat, boxes: map<Key, nat>, copies: map<Key, Key>,
                        bodies: set<string>)
    requires TwinOf(db0, a, db, b, boxes, copies, bodies)
    ensures HasTwin(db0, a, db, b) <==> Complete(db0, a, bodies)
  {
    if Complete(db0, a, bodies) { CompleteHasTwin(db0, a, db, b, boxes, copies, bodies); }
    if HasTwin(db0, a, db, b) {
      var boxes', copies' :| Twin(db0, a, db, b, boxes', copies');
      TwinOfCount(db0, a, db, b, boxes, copies, bodies);
      TwinCount(db0, a, db, b, boxes', copies');
      AllWithin(db0, a, bodies);
    }
  }

  lemma AllWithin(db: Db, account: nat, bodies: set<string>)
    requires |OfAccountWith(db, account, bodies)| == |OfAccount(db, account)|
    ensures Complete(db, account, bodies)
  {
    SameSize(OfAccountWith(db, account, bodies), OfAccount(db, account));
    forall k | k in db.messages && k.account == account ensures db.messages[k].blob in bodies {
      assert k in OfAccount(db, account);
      assert k in OfAccountWith(db, account, bodies);
    }
  }

  lemma SameSize(a: set<Key>, b: set<Key>)
    requires a <= b && |a| == |b|
    ensures a == b
  {
    assert b == a + (b - a) && |b| == |a| + |b - a|;
  }

  /** Every message's body was asked for, so the archive is complete if and only if no fetch failed. */
  lemma CompleteIffFetched(db0: Db, a: nat, ar: Archive, keys: seq<Key>, rows: seq<seq<Row>>, failed: set<string>)
    requires Exact(db0) && Housed(db0, a) && Archived(db0, a, ar, keys, rows) && Fetched(db0, ar, failed)
    ensures Complete(db0, a, ar.bodies.Keys) <==> failed == {}
  {
    if failed == {} {
      forall k | k in db0.messages && k.account == a ensures db0.messages[k].blob in ar.bodies {
        var i, x := MessageFiled(db0, a, ar, keys, rows, k);
        assert NamedIn(ar.files, db0.messages[k].blob);
      }
    } else {
      var key :| key in failed;
      var k := NamedByMessage(db0, a, ar, keys, rows, key);
      ReferrersPositive(db0.messages, k);
    }
  }

  lemma NamedByMessage(db0: Db, a: nat, ar: Archive, keys: seq<Key>, rows: seq<seq<Row>>, key: string) returns (k: Key)
    requires Archived(db0, a, ar, keys, rows) && NamedIn(ar.files, key)
    ensures k in db0.messages && k.account == a && db0.messages[k].blob == key
  {
    var i, j :| 0 <= i < |ar.files| && 0 <= j < |ar.files[i].messages| && ar.files[i].messages[j].blob == key;
    assert keys[i] in keys && Filed(db0, keys[i], ar.files[i], rows[i]);
    assert rows[i][j] in rows[i];
    k := rows[i][j].key;
  }

  /** One account with one mailbox and one message. */
  function Small(box: Mailbox, m: Message): Db {
    Db(map[Key(1, 0) := box], map[Key(1, 1) := m], map[m.blob := 1], map[m.blob := "text"], [], 2)
  }

  lemma SmallIsExact(box: Mailbox, m: Message)
    ensures Exact(Small(box, m))
  {
    var db := Small(box, m);
    forall key ensures ReferrerKeys(db.messages, key) == if key == m.blob then {Key(1, 1)} else {} {
    }
  }

  lemma SmallIsArchived(box: Mailbox, m: Message)
    requires m.mailbox == 0 && m.blob != ""
    ensures Archived(Small(box, m), 1, Archive([File(box, [m])], map[]), [Key(1, 0)], [[Row(Key(1, 1), m)]])
    ensures Fetched(Small(box, m), Archive([File(box, [m])], map[]), {m.blob})
  {
    var files := [File(box, [m])];
    assert files[0].messages[0].blob == m.blob;
  }

  lemma SmallRebuilt(base: Db, box: Mailbox, m: Message)
    ensures var ar := Archive([File(box, [m])], map[]);
            Fit(base, 2, ar)
            && Rebuilt(base, 2, ar).messages == base.messages
  {
    var ar := Archive([File(box, [m])], map[]);
    var files, ms, ids := ar.files, [m], IdsByName(base.nextId, ar.files);
    assert files[..0] == [] && ms[..0] == [];
    assert WithBoxes(base, 2, files) == InsertMailbox(WithBoxes(base, 2, []), 2, box);
    var start := Progress(WithBoxes(base, 2, files), {});
    assert AllFiles(start, 2, ids, ar.bodies, []) == start;
    var id := if box.name in ids then ids[box.name] else 0;
    assert AllMessages(start, 2, id, ar.bodies, []) == start;
    assert AllMessages(start, 2, id, ar.bodies, ms) == OneMessage(start, 2, id, ar.bodies, m) == start;
    assert FitsAt(start, 2, id, ar.bodies, ms, 0);
    assert FileFits(start, 2, ids, ar.bodies, files, 0);
  }

  /** An archive made while a body could not be fetched: the restore succeeds, and the message is gone. */
  lemma LosingExample(box: Mailbox, m: Message)
    requires m.mailbox == 0 && m.blob != ""
    ensures var db0, ar := Small(box, m), Archive([File(box, [m])], map[]);
            && Exact(db0) && Archived(db0, 1, ar, [Key(1, 0)], [[Row(Key(1, 1), m)]]) && Fetched(db0, ar, {m.blob})
            && Fit(AccountDeleted(db0, 1), 2, ar) && Rebuilt(AccountDeleted(db0, 1), 2, ar).messages == map[]
  {
    SmallIsExact(box, m);
    SmallIsArchived(box, m);
    SmallRebuilt(AccountDeleted(Small(box, m), 1), box, m);
    assert AccountDeleted(Small(box, m), 1).messages == map[];
  }

  /** The three commands in a row, for every pattern of failing calls. Success leaves exact counts and
      every message whose body was fetched; it leaves the whole account if and only if no fetch failed. */
  method BackupDeleteRestore(s: Store, a: nat, b: nat)
    returns (ok: bool, ghost failed: set<string>, ghost boxes: map<Key, nat>, ghost copies: map<Key, Key>)
    requires Exact(s.db) && Housed(s.db, a) && DistinctNames(s.db, a) && Vacant(s.db, b)
    modifies s
    ensures ok ==> Exact(s.db) && TwinOf(old(s.db), a, s.db, b, boxes, copies, old(s.db).blobs.Keys - failed)
    ensures ok ==> (HasTwin(old(s.db), a, s.db, b) <==> failed == {})
    ensures old(s.faults) == [] ==> failed == {} && (ok <==> Private(old(s.db), a))
  {
    boxes, copies, failed := map[], map[], {};
    ghost var db0 := s.db;
    var archive: Result<Archive>;
    ghost var keys: seq<Key>;
    ghost var rows: seq<seq<Row>>;
    archive, keys, rows, failed := BackUp(s, a);
    if archive.Err? { return false, failed, boxes, copies; }
    ok := s.DeleteAccount(a);
    if !ok { return; }
    ok := Restore(s, b, archive.value);
    RestorableIff(db0, a, b, archive.value, keys, rows);
    CompleteIffFetched(db0, a, archive.value, keys, rows, failed);
    KeptBodies(db0, a, archive.value, keys, rows, failed);
    if ok {
      boxes, copies := RoundTrip(db0, a, b, archive.value, keys, rows);
      TwinIffComplete(db0, a, s.db, b, boxes, copies, archive.value.bodies.Keys);
    }
  }

  /** The bodies in the archive, as far as the account's messages go. */
  lemma KeptBodies(db0: Db, a: nat, ar: Archive, keys: seq<Key>, rows: seq<seq<Row>>, failed: set<string>)
    requires Exact(db0) && Housed(db0, a) && Archived(db0, a, ar, keys, rows) && Fetched(db0, ar, failed)
    ensures OfAccountWith(db0, a, ar.bodies.Keys) == OfAccountWith(db0, a, db0.blobs.Keys - failed)
    ensures failed == {} ==> (PrivateIn(db0, a, ar.bodies.Keys) <==> Private(db0, a))
  {
    forall k | k in db0.messages && k.account == a
      ensures db0.messages[k].blob in ar.bodies <==> db0.messages[k].blob in db0.blobs.Keys - failed
    {
      var i, x := MessageFiled(db0, a, ar, keys, rows, k);
      assert NamedIn(ar.files, db0.messages[k].blob);
    }
  }
}
