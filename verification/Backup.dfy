/** Backing an account up, and restoring it under a fresh account (oximailctl backup and restore). */
module Backup {
  import opened Database
  import opened MailStore

  /** One entry of the archive: a mailbox and its messages. */
  datatype File = File(mailbox: Mailbox, messages: seq<Message>)

  datatype Archive = Archive(files: seq<File>, bodies: map<string, string>)

  // ---- what a backup holds --------------------------------------------------------------------

  /** The keys are the account's mailboxes, each once. */
  ghost predicate Listed(db: Db, account: nat, keys: seq<Key>) {
    && (forall i, j :: 0 <= i < j < |keys| ==> keys[i] != keys[j])
    && (forall mb :: mb in keys <==> mb in db.mailboxes && mb.account == account)
  }

  /** File and listing of one mailbox. */
  ghost predicate Filed(db: Db, mb: Key, f: File, rows: seq<Row>) {
    && mb in db.mailboxes && f.mailbox == db.mailboxes[mb] && ListingOf(db, mb, rows)
    && |f.messages| == |rows| && forall j :: 0 <= j < |rows| ==> f.messages[j] == rows[j].msg
  }

  /** Every mailbox with its listing; bodies as they are stored, though not necessarily all of them. */
  ghost predicate Archived(db: Db, account: nat, a: Archive, keys: seq<Key>, rows: seq<seq<Row>>) {
    && Listed(db, account, keys) && |a.files| == |keys| == |rows|
    && (forall i :: 0 <= i < |keys| ==> Filed(db, keys[i], a.files[i], rows[i]))
    && (forall key :: key in a.bodies ==> key in db.blobs && a.bodies[key] == db.blobs[key])
  }

  /** A body the archive's messages name. */
  predicate NamedIn(files: seq<File>, key: string) {
    key != "" && exists i, j :: 0 <= i < |files| && 0 <= j < |files[i].messages| && files[i].messages[j].blob == key
  }

  /** Of the bodies named and stored, those whose fetch failed are missing, and no others. */
  ghost predicate Fetched(db: Db, a: Archive, failed: set<string>) {
    && (forall key :: key in failed ==> NamedIn(a.files, key))
    && (forall key :: NamedIn(a.files, key) && key in db.blobs ==> (key in a.bodies <==> key !in failed))
  }

  method ListMailboxes(s: Store, account: nat) returns (r: Result<seq<Key>>)
    modifies s`faults
    ensures r.Ok? ==> Listed(s.db, account, r.value)
    ensures old(s.faults) == [] ==> s.faults == [] && r.Ok?
  {
    var ok := s.Call();
    if !ok { return Err(Unavailable); }
    var todo := set mb | mb in s.db.mailboxes && mb.account == account;
    var keys: seq<Key> := [];
    while todo != {}
      modifies {}
      invariant forall mb :: mb in todo ==> mb in s.db.mailboxes && mb.account == account && mb !in keys
      invariant forall i, j :: 0 <= i < j < |keys| ==> keys[i] != keys[j]
      invariant forall mb :: mb in keys ==> mb in s.db.mailboxes && mb.account == account
      invariant forall mb :: mb in s.db.mailboxes && mb.account == account ==> mb in todo || mb in keys
      decreases |todo|
    {
      var mb :| mb in todo;
      keys := keys + [mb];
      todo := todo - {mb};
    }
    r := Ok(keys);
  }

  /** The bodies asked for; one that is missing, or whose fetch fails, is skipped with a message. */
  method CollectBodies(s: Store, wanted: set<string>) returns (bodies: map<string, string>, ghost failed: set<string>)
    modifies s`faults
    ensures failed <= wanted
    ensures bodies == map key | key in wanted - failed && key in s.db.blobs :: s.db.blobs[key]
    ensures old(s.faults) == [] ==> s.faults == [] && failed == {}
  {
    bodies, failed := map[], {};
    var todo := wanted;
    while todo != {}
      modifies s`faults
      invariant todo <= wanted && failed <= wanted - todo
      invariant bodies == map key | key in wanted - todo - failed && key in s.db.blobs :: s.db.blobs[key]
      invariant old(s.faults) == [] ==> s.faults == [] && failed == {}
      decreases |todo|
    {
      var key :| key in todo;
      todo := todo - {key};
      var ok := s.Call();
      if !ok {
        failed := failed + {key};
      } else if key in s.db.blobs {
        bodies := bodies[key := s.db.blobs[key]];
      }
    }
  }

  function Messages(rows: seq<Row>): seq<Message> {
    seq(|rows|, i requires 0 <= i < |rows| => rows[i].msg)
  }

  function Blobs(messages: seq<Message>): set<string> {
    set m | m in messages && m.blob != "" :: m.blob
  }

  /** Every mailbox with its messages, and the bodies they name. */
  method ListFiles(s: Store, boxes: seq<Key>)
    returns (r: Result<seq<File>>, wanted: set<string>, ghost rows: seq<seq<Row>>)
    requires forall i :: 0 <= i < |boxes| ==> boxes[i] in s.db.mailboxes
    modifies s`faults
    ensures r.Ok? ==> |r.value| == |rows| == |boxes| && forall i :: 0 <= i < |boxes| ==>
      Filed(s.db, boxes[i], r.value[i], rows[i])
    ensures r.Ok? ==> forall key :: key in wanted <==> NamedIn(r.value, key)
    ensures old(s.faults) == [] ==> s.faults == [] && r.Ok?
  {
    rows, wanted := [], {};
    var files: seq<File> := [];
    for i := 0 to |boxes|
      invariant |files| == |rows| == i && forall j :: 0 <= j < i ==> Filed(s.db, boxes[j], files[j], rows[j])
      invariant forall key :: key in wanted <==> NamedIn(files, key)
      invariant old(s.faults) == [] ==> s.faults == []
    {
      var listing := s.ListMessages(boxes[i]);
      if listing.Err? { return Err(listing.error), wanted, rows; }
      var file := File(s.db.mailboxes[boxes[i]], Messages(listing.value));
      NamedMore(files, file, wanted);
      files := files + [file];
      rows := rows + [listing.value];
      wanted := wanted + Blobs(file.messages);
    }
    r := Ok(files);
  }

  lemma NamedMore(files: seq<File>, file: File, wanted: set<string>)
    requires forall key :: key in wanted <==> NamedIn(files, key)
    ensures forall key :: key in wanted + Blobs(file.messages) <==> NamedIn(files + [file], key)
  {
    var all := files + [file];
    forall key ensures key in wanted + Blobs(file.messages) <==> NamedIn(all, key) {
      if NamedIn(files, key) {
        var i, j :| 0 <= i < |files| && 0 <= j < |files[i].messages| && files[i].messages[j].blob == key;
        assert all[i].messages[j].blob == key;
      }
      if key in Blobs(file.messages) {
        var j :| 0 <= j < |file.messages| && file.messages[j].blob == key;
        assert all[|files|].messages[j].blob == key;
      }
      if NamedIn(all, key) && !NamedIn(files, key) {
        var i, j :| 0 <= i < |all| && 0 <= j < |all[i].messages| && all[i].messages[j].blob == key;
        assert i == |files| && file.messages[j] in file.messages;
      }
    }
  }

  method BackUp(s: Store, account: nat)
    returns (r: Result<Archive>, ghost keys: seq<Key>, ghost rows: seq<seq<Row>>, ghost failed: set<string>)
    modifies s`faults
    ensures r.Ok? ==> Archived(s.db, account, r.value, keys, rows) && Fetched(s.db, r.value, failed)
    ensures old(s.faults) == [] ==> s.faults == [] && r.Ok? && failed == {}
  {
    keys, rows, failed := [], [], {};
    var boxes := ListMailboxes(s, account);
    if boxes.Err? { return Err(boxes.error), keys, rows, failed; }
    keys := boxes.value;
    assert forall i :: 0 <= i < |keys| ==> keys[i] in keys;
    var files: Result<seq<File>>;
    var wanted: set<string>;
    files, wanted, rows := ListFiles(s, boxes.value);
    if files.Err? { return Err(files.error), keys, rows, failed; }
    var bodies: map<string, string>;
    bodies, failed := CollectBodies(s, wanted);
    r := Ok(Archive(files.value, bodies));
  }

  // ---- restoring ------------------------------------------------------------------------------

  /** The mailboxes of the archive, inserted as they are under fresh ids. */
  function WithBoxes(db: Db, account: nat, files: seq<File>): Db {
    if files == [] then db
      else InsertMailbox(WithBoxes(db, account, files[..|files| - 1]), account, files[|files| - 1].mailbox)
  }

  /** The ids those mailboxes got, by name. */
  function IdsByName(first: nat, files: seq<File>): map<string, nat> {
    if files == [] then map[]
      else IdsByName(first, files[..|files| - 1])[files[|files| - 1].mailbox.name := first + |files| - 1]
  }

  lemma {:induction false} BoxesTakeIds(db: Db, account: nat, files: seq<File>)
    ensures WithBoxes(db, account, files).nextId == db.nextId + |files|
  {
    if files != [] { BoxesTakeIds(db, account, files[..|files| - 1]); }
  }

  method RestoreMailbox(s: Store, account: nat, mailbox: Mailbox) returns (r: Result<nat>)
    modifies s
    ensures r.Ok? ==> s.db == InsertMailbox(old(s.db), account, mailbox) && r.value == old(s.db).nextId
    ensures r.Err? ==> s.db == old(s.db)
    ensures old(s.faults) == [] ==> s.faults == [] && r.Ok?
  {
    var ok := s.Call();
    if !ok { return Err(Unavailable); }
    r := Ok(s.db.nextId);
    s.db := InsertMailbox(s.db, account, mailbox);
  }

  method RestoreMailboxes(s: Store, account: nat, files: seq<File>) returns (r: Result<map<string, nat>>)
    modifies s
    ensures r.Ok? ==> s.db == WithBoxes(old(s.db), account, files) && r.value == IdsByName(old(s.db).nextId, files)
    ensures old(s.faults) == [] ==> s.faults == [] && r.Ok?
  {
    var byName: map<string, nat> := map[];
    for i := 0 to |files|
      invariant s.db == WithBoxes(old(s.db), account, files[..i]) && byName == IdsByName(old(s.db).nextId, files[..i])
      invariant old(s.faults) == [] ==> s.faults == []
    {
      assert files[..i + 1][..i] == files[..i];
      BoxesTakeIds(old(s.db), account, files[..i]);
      var id := RestoreMailbox(s, account, files[i].mailbox);
      if id.Err? { return Err(id.error); }
      byName := byName[files[i].mailbox.name := id.value];
    }
    assert files[..|files|] == files;
    r := Ok(byName);
  }

  /** State of the message loop: the store, and the keys written so far. */
  datatype Progress = Progress(db: Db, seen: set<string>)

  /** One message of the archive: skipped when its body is not there. */
  function OneMessage(p: Progress, account: nat, id: nat, bodies: map<string, string>, m: Message): Progress {
    if m.blob !in bodies then p
    else Progress(Restored(p.db, account, m.(mailbox := id), bodies[m.blob], m.blob !in p.seen), p.seen + {m.blob})
  }

  function AllMessages(p: Progress, account: nat, id: nat, bodies: map<string, string>,
                       messages: seq<Message>): Progress {
    if messages == [] then p
    else OneMessage(AllMessages(p, account, id, bodies, messages[..|messages| - 1]), account, id, bodies,
                    messages[|messages| - 1])
  }

  function AllFiles(p: Progress, account: nat, ids: map<string, nat>, bodies: map<string, string>,
                    files: seq<File>): Progress {
    if files == [] then p else
    var before, f := AllFiles(p, account, ids, bodies, files[..|files| - 1]), files[|files| - 1];
    if f.mailbox.name in ids then AllMessages(before, account, ids[f.mailbox.name], bodies, f.messages) else before
  }

  /** The whole restore, when every call succeeds. */
  function Rebuilt(db: Db, account: nat, a: Archive): Db {
    AllFiles(Progress(WithBoxes(db, account, a.files), {}), account, IdsByName(db.nextId, a.files), a.bodies,
             a.files).db
  }

  /** The call for message i succeeds: its body is new exactly if no count knows its key. */
  ghost predicate FitsAt(p: Progress, account: nat, id: nat, bodies: map<string, string>, messages: seq<Message>,
                         i: nat)
    requires i < |messages|
  {
    Fits(AllMessages(p, account, id, bodies, messages[..i]), bodies, messages[i])
  }

  predicate Fits(p: Progress, bodies: map<string, string>, m: Message) {
    m.blob in bodies ==> (m.blob !in p.seen <==> m.blob !in p.db.refs)
  }

  ghost predicate MessagesFit(p: Progress, account: nat, id: nat, bodies: map<string, string>, messages: seq<Message>) {
    forall i :: 0 <= i < |messages| ==> FitsAt(p, account, id, bodies, messages, i)
  }

  ghost predicate FileFits(p: Progress, account: nat, ids: map<string, nat>, bodies: map<string, string>,
                           files: seq<File>, i: nat)
    requires i < |files|
  {
    files[i].mailbox.name in ids ==>
      MessagesFit(AllFiles(p, account, ids, bodies, files[..i]), account, ids[files[i].mailbox.name], bodies,
                  files[i].messages)
  }

  ghost predicate Fit(db: Db, account: nat, a: Archive) {
    var start := Progress(WithBoxes(db, account, a.files), {});
    forall i :: 0 <= i < |a.files| ==> FileFits(start, account, IdsByName(db.nextId, a.files), a.bodies, a.files, i)
  }

  method RestoreMessages(s: Store, account: nat, id: nat, bodies: map<string, string>, messages: seq<Message>,
                         was: set<string>)
    returns (ok: bool, seen: set<string>)
    modifies s
    ensures ok ==> Progress(s.db, seen) == AllMessages(Progress(old(s.db), was), account, id, bodies, messages)
    ensures ok ==> MessagesFit(Progress(old(s.db), was), account, id, bodies, messages)
    ensures old(s.faults) == [] ==>
      s.faults == [] && (ok <==> MessagesFit(Progress(old(s.db), was), account, id, bodies, messages))
  {
    seen := was;
    ok := true;
    ghost var start := Progress(s.db, was);
    for i := 0 to |messages|
      invariant ok && Progress(s.db, seen) == AllMessages(start, account, id, bodies, messages[..i])
      invariant forall j :: 0 <= j < i ==> FitsAt(start, account, id, bodies, messages, j)
      invariant old(s.faults) == [] ==> s.faults == []
    {
      assert messages[..i + 1][..i] == messages[..i];
      var m := messages[i];
      if m.blob in bodies {
        var r := s.RestoreMessage(account, m.(mailbox := id), bodies[m.blob], m.blob !in seen);
        if r.Err? {
          assert old(s.faults) == [] ==> !FitsAt(start, account, id, bodies, messages, i);
          return false, seen;
        }
        seen := seen + {m.blob};
      }
    }
    assert messages[..|messages|] == messages;
  }

  /** `account` is the id CreateAccount has just handed out. */
  method Restore(s: Store, account: nat, a: Archive) returns (ok: bool)
    modifies s
    ensures ok ==> s.db == Rebuilt(old(s.db), account, a) && Fit(old(s.db), account, a)
    ensures old(s.faults) == [] ==> s.faults == [] && (ok <==> Fit(old(s.db), account, a))
  {
    var ids := RestoreMailboxes(s, account, a.files);
    if ids.Err? { return false; }
    ghost var start := Progress(s.db, {});
    var seen: set<string> := {};
    ok := true;
    for i := 0 to |a.files|
      invariant ok && Progress(s.db, seen) == AllFiles(start, account, ids.value, a.bodies, a.files[..i])
      invariant forall j :: 0 <= j < i ==> FileFits(start, account, ids.value, a.bodies, a.files, j)
      invariant old(s.faults) == [] ==> s.faults == []
    {
      assert a.files[..i + 1][..i] == a.files[..i];
      var f := a.files[i];
      if f.mailbox.name in ids.value {
        ok, seen := RestoreMessages(s, account, ids.value[f.mailbox.name], a.bodies, f.messages, seen);
        if !ok {
          assert old(s.faults) == [] ==> !FileFits(start, account, ids.value, a.bodies, a.files, i);
          return;
        }
      }
    }
    assert a.files[..|a.files|] == a.files;
  }
}
