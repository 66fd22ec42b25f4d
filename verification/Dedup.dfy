/** Merging duplicate mailboxes of an account (oximailctl mailbox dedupe). */
module Dedup {
  import opened Database
  import opened MailStore
  import L = Lists

  // ---- who stays ------------------------------------------------------------------------------

  function BoxIds(db: Db, account: nat): set<nat> {
    set k | k in db.mailboxes && k.account == account :: k.id
  }

  function Names(db: Db, account: nat): set<string> {
    set k | k in db.mailboxes && k.account == account :: db.mailboxes[k].name
  }

  predicate SameName(db: Db, account: nat, i: nat, j: nat) {
    Key(account, i) in db.mailboxes && Key(account, j) in db.mailboxes
    && db.mailboxes[Key(account, i)].name == db.mailboxes[Key(account, j)].name
  }

  /** The oldest mailbox of its name. */
  ghost predicate IsKeeper(db: Db, account: nat, id: nat) {
    Key(account, id) in db.mailboxes && forall other :: SameName(db, account, id, other) ==> id <= other
  }

  lemma OneKeeper(db: Db, account: nat, i: nat, j: nat)
    requires IsKeeper(db, account, i) && IsKeeper(db, account, j) && SameName(db, account, i, j)
    ensures i == j
  {
    assert SameName(db, account, j, i);
  }

  // ---- what merging may do --------------------------------------------------------------------

  /** A mailbox keeps its identity; its counters only grow. */
  predicate Grown(old_: Mailbox, new_: Mailbox) {
    new_.name == old_.name && new_.uidValidity == old_.uidValidity && new_.uidNext >= old_.uidNext
      && new_.highestModSeq >= old_.highestModSeq
  }

  /** A message that left a duplicate for the survivor of its name, under a UID new there. */
  ghost predicate Joined(db0: Db, account: nat, before: Message, after: Message) {
    && SameName(db0, account, before.mailbox, after.mailbox)
    && !IsKeeper(db0, account, before.mailbox) && IsKeeper(db0, account, after.mailbox)
    && after.uid >= db0.mailboxes[Key(account, after.mailbox)].uidNext
    && after == before.(mailbox := after.mailbox, uid := after.uid, modSeq := after.modSeq)
  }

  ghost predicate Follows(db0: Db, db: Db, account: nat, k: Key)
    requires k in db0.messages && k in db.messages
  {
    db.messages[k] == db0.messages[k] || (k.account == account && Joined(db0, account, db0.messages[k], db.messages[k]))
  }

  ghost predicate BoxesKept(db0: Db, db: Db, account: nat) {
    && (forall mb :: mb in db.mailboxes ==> mb in db0.mailboxes && Grown(db0.mailboxes[mb], db.mailboxes[mb]))
    && (forall mb :: mb in db0.mailboxes && mb.account != account ==>
        mb in db.mailboxes && db.mailboxes[mb] == db0.mailboxes[mb])
    && (forall id :: IsKeeper(db0, account, id) ==> Key(account, id) in db.mailboxes)
  }

  ghost predicate MessagesKept(db0: Db, db: Db, account: nat) {
    && db.messages.Keys == db0.messages.Keys
    && (forall k :: k in db0.messages ==> Follows(db0, db, account, k))
    && (forall k :: k in db0.messages && Home(db0, k) in db0.mailboxes ==> Home(db, k) in db.mailboxes)
  }

  /** Every state a merge goes through. */
  ghost predicate Merging(db0: Db, db: Db, account: nat) {
    && db == db0.(mailboxes := db.mailboxes, messages := db.messages)
    && BoxesKept(db0, db, account) && MessagesKept(db0, db, account)
    && (Numbered(db0) ==> Numbered(db))
  }

  /** UIDs below uidnext, and none twice in a mailbox. */
  ghost predicate Numbered(db: Db) {
    && (forall k :: k in db.messages && Home(db, k) in db.mailboxes ==>
        db.messages[k].uid < db.mailboxes[Home(db, k)].uidNext)
    && (forall j, k :: j in db.messages && k in db.messages && j != k && Home(db, j) == Home(db, k)
                        && Home(db, j) in db.mailboxes ==>
          db.messages[j].uid != db.messages[k].uid)
  }

  lemma MoveNumbered(db: Db, k: Key, dest: nat)
    requires Numbered(db)
    ensures Numbered(Moved(db, k, dest))
  {
    if CanMove(db, k, dest) {
      var db' := Moved(db, k, dest);
      var mb := Key(k.account, dest);
      assert db'.mailboxes.Keys == db.mailboxes.Keys;
      assert forall j :: j in db'.messages && j != k ==>
        db'.messages[j] == db.messages[j] && Home(db', j) == Home(db, j);
      assert Home(db', k) == mb && db'.messages[k].uid == db.mailboxes[mb].uidNext;
    }
  }

  lemma MoveBoxes(db0: Db, db: Db, account: nat, k: Key, keeper: nat)
    requires BoxesKept(db0, db, account) && k.account == account
    ensures BoxesKept(db0, Moved(db, k, keeper), account)
  {
  }

  lemma MoveMessages(db0: Db, db: Db, account: nat, k: Key, keeper: nat)
    requires BoxesKept(db0, db, account) && MessagesKept(db0, db, account)
    requires k in db.messages && k.account == account && IsKeeper(db0, account, keeper)
    requires SameName(db0, account, db.messages[k].mailbox, keeper) && db.messages[k].mailbox != keeper
    ensures MessagesKept(db0, Moved(db, k, keeper), account)
  {
    var db' := Moved(db, k, keeper);
    var mb := Key(account, keeper);
    assert mb in db.mailboxes && db'.mailboxes.Keys == db.mailboxes.Keys;
    assert Follows(db0, db, account, k);
    NotKeeper(db0, account, db.messages[k].mailbox, keeper);
    assert db.messages[k] == db0.messages[k];
    assert Joined(db0, account, db0.messages[k], db'.messages[k]);
    forall j | j in db0.messages && j != k ensures Follows(db0, db', account, j) {
      assert Follows(db0, db, account, j);
    }
  }

  lemma NotKeeper(db0: Db, account: nat, i: nat, keeper: nat)
    requires IsKeeper(db0, account, keeper) && SameName(db0, account, i, keeper) && i != keeper
    ensures !IsKeeper(db0, account, i)
  {
    if IsKeeper(db0, account, i) { OneKeeper(db0, account, i, keeper); }
  }

  lemma MoveMerges(db0: Db, db: Db, account: nat, k: Key, keeper: nat)
    requires Merging(db0, db, account) && k in db.messages && k.account == account && IsKeeper(db0, account, keeper)
    requires SameName(db0, account, db.messages[k].mailbox, keeper) && db.messages[k].mailbox != keeper
    ensures Merging(db0, Moved(db, k, keeper), account)
  {
    MoveBoxes(db0, db, account, k, keeper);
    MoveMessages(db0, db, account, k, keeper);
    if Numbered(db0) { MoveNumbered(db, k, keeper); }
  }

  lemma DropMessages(db0: Db, db: Db, account: nat, dupe: nat, db': Db)
    requires MessagesKept(db0, db, account) && OfMailbox(db, Key(account, dupe)) == {}
    requires db' == db.(mailboxes := db.mailboxes - {Key(account, dupe)})
    ensures MessagesKept(db0, db', account)
  {
    forall k | k in db0.messages && Home(db0, k) in db0.mailboxes ensures Home(db', k) in db'.mailboxes {
      assert k !in OfMailbox(db, Key(account, dupe));
    }
    forall k | k in db0.messages ensures Follows(db0, db', account, k) {
      assert Follows(db0, db, account, k);
    }
  }

  lemma DropBoxes(db0: Db, db: Db, account: nat, dupe: nat, db': Db)
    requires BoxesKept(db0, db, account) && !IsKeeper(db0, account, dupe)
    requires db' == db.(mailboxes := db.mailboxes - {Key(account, dupe)})
    ensures BoxesKept(db0, db', account)
  {
  }

  lemma DropNumbered(db: Db, mb: Key, db': Db)
    requires Numbered(db) && db' == db.(mailboxes := db.mailboxes - {mb})
    ensures Numbered(db')
  {
    assert forall k :: k in db.messages ==> Home(db', k) == Home(db, k);
  }

  lemma DropIds(db: Db, account: nat, dupe: nat, db': Db)
    requires db' == db.(mailboxes := db.mailboxes - {Key(account, dupe)})
    ensures BoxIds(db', account) == BoxIds(db, account) - {dupe}
  {
    forall id | id in BoxIds(db, account) - {dupe} ensures id in BoxIds(db', account) {
      assert Key(account, id) in db'.mailboxes;
    }
  }

  /** Dropping an empty duplicate. */
  lemma DropMerges(db0: Db, db: Db, account: nat, dupe: nat)
    requires Merging(db0, db, account) && !IsKeeper(db0, account, dupe) && OfMailbox(db, Key(account, dupe)) == {}
    ensures var db' := MailboxDeleted(db, Key(account, dupe));
            Merging(db0, db', account) && BoxIds(db', account) == BoxIds(db, account) - {dupe}
  {
    var db' := db.(mailboxes := db.mailboxes - {Key(account, dupe)});
    EmptyDeleted(db, Key(account, dupe));
    DropBoxes(db0, db, account, dupe, db');
    DropMessages(db0, db, account, dupe, db');
    if Numbered(db0) { DropNumbered(db, Key(account, dupe), db'); }
    DropIds(db, account, dupe, db');
  }

  lemma EmptyDeleted(db: Db, mb: Key)
    requires OfMailbox(db, mb) == {}
    ensures MailboxDeleted(db, mb) == db.(mailboxes := db.mailboxes - {mb})
  {
    assert MailboxDeleted(db, mb).messages == db.messages && MailboxDeleted(db, mb).blobs == db.blobs;
  }

  // ---- the merge ------------------------------------------------------------------------------

  /** The messages of a mailbox are those of the listing from i on. */
  ghost predicate Remaining(db: Db, mb: Key, rows: seq<Row>, i: nat) {
    && i <= |rows| && SortedRows(rows)
    && (forall j :: i <= j < |rows| ==> In(db, rows[j].key, mb))
    && (forall k :: In(db, k, mb) ==> exists j :: i <= j < |rows| && rows[j].key == k)
  }

  lemma RemainingStep(db: Db, mb: Key, rows: seq<Row>, i: nat, dest: nat)
    requires Remaining(db, mb, rows, i) && i < |rows| && dest != mb.id && CanMove(db, rows[i].key, dest)
    ensures Remaining(Moved(db, rows[i].key, dest), mb, rows, i + 1)
  {
    var db' := Moved(db, rows[i].key, dest);
    forall j | i + 1 <= j < |rows| ensures In(db', rows[j].key, mb) {
      assert In(db, rows[j].key, mb) && rows[j].key != rows[i].key;
    }
    forall k | In(db', k, mb) ensures exists j :: i + 1 <= j < |rows| && rows[j].key == k {
      assert k != rows[i].key && In(db, k, mb);
      var j :| i <= j < |rows| && rows[j].key == k;
    }
  }

  lemma RemainingStart(db: Db, mb: Key, rows: seq<Row>)
    requires ListingOf(db, mb, rows)
    ensures Remaining(db, mb, rows, 0)
  {
    forall k | In(db, k, mb) ensures exists j :: 0 <= j < |rows| && rows[j].key == k {
      assert Row(k, db.messages[k]) in rows;
    }
  }

  /** Part of a duplicate's messages are with the survivor. */
  ghost predicate Draining(db0: Db, db: Db, account: nat, ids: set<nat>, keeper: nat, dupe: nat, rows: seq<Row>,
                           i: nat) {
    && Merging(db0, db, account) && BoxIds(db, account) == ids && Remaining(db, Key(account, dupe), rows, i)
    && IsKeeper(db0, account, keeper) && SameName(db0, account, dupe, keeper) && dupe != keeper
  }

  lemma DrainStep(db0: Db, db: Db, account: nat, ids: set<nat>, keeper: nat, dupe: nat, rows: seq<Row>, i: nat)
    requires Draining(db0, db, account, ids, keeper, dupe, rows, i) && i < |rows|
    ensures var k := rows[i].key; k in db.messages && Key(k.account, keeper) in db.mailboxes && k.account == account
    ensures Draining(db0, Moved(db, rows[i].key, keeper), account, ids, keeper, dupe, rows, i + 1)
  {
    var k := rows[i].key;
    assert In(db, k, Key(account, dupe));
    MoveMerges(db0, db, account, k, keeper);
    RemainingStep(db, Key(account, dupe), rows, i, keeper);
    MovedIds(db, k, keeper, account);
  }

  lemma MovedIds(db: Db, k: Key, keeper: nat, account: nat)
    ensures BoxIds(Moved(db, k, keeper), account) == BoxIds(db, account)
  {
    assert Moved(db, k, keeper).mailboxes.Keys == db.mailboxes.Keys;
  }

  lemma Drained(db0: Db, db: Db, account: nat, ids: set<nat>, keeper: nat, dupe: nat, rows: seq<Row>)
    requires Draining(db0, db, account, ids, keeper, dupe, rows, |rows|)
    ensures Merging(db0, db, account) && OfMailbox(db, Key(account, dupe)) == {}
    ensures var db' := MailboxDeleted(db, Key(account, dupe));
            Merging(db0, db', account)
            && BoxIds(db', account) == ids - {dupe}
  {
    assert OfMailbox(db, Key(account, dupe)) == {};
    NotKeeper(db0, account, dupe, keeper);
    DropMerges(db0, db, account, dupe);
  }

  /** A move that fails has burnt numbers only. */
  lemma BurntMerges(db0: Db, db: Db, db': Db, account: nat, mb: Key)
    requires Merging(db0, db, account) && mb.account == account && OnlyCountersOf(db, db', mb)
    ensures Merging(db0, db', account)
  {
    assert forall k :: k in db.messages ==> Home(db', k) == Home(db, k);
    forall k | k in db0.messages ensures Follows(db0, db', account, k) {
      assert Follows(db0, db, account, k);
    }
  }

  /** Deleting an empty mailbox, when it fails, has done nothing. */
  lemma StillMerges(db0: Db, db: Db, db': Db, account: nat, dupe: nat)
    requires Merging(db0, db, account) && OfMailbox(db, Key(account, dupe)) == {}
    requires db' == db.(blobs := db'.blobs, messages := db'.messages) && PartlyDeleted(db, db', Key(account, dupe))
    ensures Merging(db0, db', account)
  {
    assert db.blobs - BodiesOf(db.messages, {}) == db.blobs && db.messages - {} == db.messages;
    assert db' == db;
  }

  /** Re-points a duplicate's messages at the survivor and drops the duplicate. */
  method MergeInto(s: Store, account: nat, keeper: nat, dupe: nat, ghost db0: Db) returns (r: Result<()>)
    requires Merging(db0, s.db, account) && IsKeeper(db0, account, keeper) && SameName(db0, account, dupe, keeper)
      && dupe != keeper
    modifies s
    ensures Merging(db0, s.db, account)
    ensures r.Ok? ==> BoxIds(s.db, account) == old(BoxIds(s.db, account)) - {dupe}
    ensures old(s.faults) == [] ==> s.faults == [] && r.Ok?
  {
    ghost var ids := BoxIds(s.db, account);
    var rows := s.ListMessages(Key(account, dupe));
    if rows.Err? { return Err(rows.error); }
    RemainingStart(s.db, Key(account, dupe), rows.value);
    r := MoveRows(s, account, keeper, dupe, rows.value, ids, db0);
    if r.Err? { return; }
    r := DropDupe(s, account, keeper, dupe, rows.value, ids, db0);
  }

  /** The loop over the duplicate's messages. */
  method MoveRows(s: Store, account: nat, keeper: nat, dupe: nat, rows: seq<Row>, ghost ids: set<nat>, ghost db0: Db)
    returns (r: Result<()>)
    requires Draining(db0, s.db, account, ids, keeper, dupe, rows, 0)
    modifies s
    ensures Merging(db0, s.db, account)
    ensures r.Ok? ==> Draining(db0, s.db, account, ids, keeper, dupe, rows, |rows|)
    ensures old(s.faults) == [] ==> s.faults == [] && r.Ok?
  {
    for i := 0 to |rows|
      invariant Draining(db0, s.db, account, ids, keeper, dupe, rows, i)
      invariant old(s.faults) == [] ==> s.faults == []
    {
      r := MoveOne(s, account, keeper, dupe, rows, i, ids, db0);
      if r.Err? { return; }
    }
    r := Ok(());
  }

  method MoveOne(s: Store, account: nat, keeper: nat, dupe: nat, rows: seq<Row>, i: nat, ghost ids: set<nat>,
                 ghost db0: Db)
    returns (r: Result<()>)
    requires i < |rows| && Draining(db0, s.db, account, ids, keeper, dupe, rows, i)
    modifies s
    ensures Merging(db0, s.db, account)
    ensures r.Ok? ==> Draining(db0, s.db, account, ids, keeper, dupe, rows, i + 1)
    ensures old(s.faults) == [] ==> s.faults == [] && r.Ok?
  {
    DrainStep(db0, s.db, account, ids, keeper, dupe, rows, i);
    ghost var before := s.db;
    var moved := s.MoveMessage(rows[i].key, keeper);
    if moved.Err? {
      BurntMerges(db0, before, s.db, account, Key(rows[i].key.account, keeper));
      return Err(moved.error);
    }
    r := Ok(());
  }

  /** The duplicate is empty by now. */
  method DropDupe(s: Store, account: nat, keeper: nat, dupe: nat, ghost rows: seq<Row>, ghost ids: set<nat>,
                  ghost db0: Db)
    returns (r: Result<()>)
    requires Draining(db0, s.db, account, ids, keeper, dupe, rows, |rows|)
    modifies s
    ensures Merging(db0, s.db, account) && (r.Ok? ==> BoxIds(s.db, account) == ids - {dupe})
    ensures old(s.faults) == [] ==> s.faults == [] && r.Ok?
  {
    Drained(db0, s.db, account, ids, keeper, dupe, rows);
    ghost var before := s.db;
    var ok := s.DeleteMailbox(Key(account, dupe));
    if !ok {
      StillMerges(db0, before, s.db, account, dupe);
      return Err(Unavailable);
    }
    r := Ok(());
  }

  function Members(ids: seq<nat>): set<nat> {
    set x | x in ids
  }

  predicate SortedIds(ids: seq<nat>) {
    forall i, j :: 0 <= i < j < |ids| ==> ids[i] < ids[j]
  }

  /** Exactly the given mailboxes of that name, oldest first. */
  ghost predicate GroupOf(db: Db, account: nat, among: set<nat>, name: string, group: seq<nat>) {
    SortedIds(group) && forall id ::
      id in group
      <==> id in among && Key(account, id) in db.mailboxes && db.mailboxes[Key(account, id)].name == name
  }

  method InsertId(ids: seq<nat>, id: nat) returns (out: seq<nat>)
    requires SortedIds(ids) && id !in ids
    ensures SortedIds(out) && forall x :: x in out <==> x in ids || x == id
  {
    var p := 0;
    while p < |ids| && ids[p] < id
      invariant p <= |ids| && forall i :: 0 <= i < p ==> ids[i] < id
    {
      p := p + 1;
    }
    out := ids[..p] + [id] + ids[p..];
    Spliced(ids, p, id);
  }

  lemma Spliced(ids: seq<nat>, p: nat, id: nat)
    requires SortedIds(ids) && id !in ids && p <= |ids|
    requires (forall i :: 0 <= i < p ==> ids[i] < id) && (p < |ids| ==> id <= ids[p])
    ensures var out := ids[..p] + [id] + ids[p..]; SortedIds(out) && forall x :: x in out <==> x in ids || x == id
  {
    assert p < |ids| ==> ids[p] in ids;
    SortedJoin(ids[..p], [id]);
    SortedJoin(ids[..p] + [id], ids[p..]);
    assert ids == ids[..p] + ids[p..];
  }

  lemma SortedJoin(a: seq<nat>, b: seq<nat>)
    requires SortedIds(a) && SortedIds(b) && forall i, j :: 0 <= i < |a| && 0 <= j < |b| ==> a[i] < b[j]
    ensures SortedIds(a + b)
  {
  }

  /** The grouping of the mailboxes looked at so far. */
  ghost predicate Grouping(db: Db, account: nat, among: set<nat>, byName: map<string, seq<nat>>) {
    && (forall name :: name in byName ==> GroupOf(db, account, among, name, byName[name]) && byName[name] != [])
    && (forall id :: id in among && Key(account, id) in db.mailboxes ==> db.mailboxes[Key(account, id)].name in byName)
  }

  lemma GroupingStep(db: Db, account: nat, among: set<nat>, byName: map<string, seq<nat>>, id: nat, group: seq<nat>)
    requires Grouping(db, account, among, byName) && id !in among && Key(account, id) in db.mailboxes
    requires var name := db.mailboxes[Key(account, id)].name;
             SortedIds(group) && forall x :: x in group <==> (name in byName && x in byName[name]) || x == id
    ensures Grouping(db, account, among + {id}, byName[db.mailboxes[Key(account, id)].name := group])
  {
    var name := db.mailboxes[Key(account, id)].name;
    var after := byName[name := group];
    assert id in group;
    forall n | n in after ensures GroupOf(db, account, among + {id}, n, after[n]) && after[n] != [] {
      if n != name { assert GroupOf(db, account, among, n, byName[n]); }
    }
  }

  method GroupByName(db: Db, account: nat) returns (byName: map<string, seq<nat>>)
    ensures Grouping(db, account, BoxIds(db, account), byName)
    ensures byName.Keys == Names(db, account)
  {
    byName := map[];
    var todo := BoxIds(db, account);
    ghost var all := todo;
    while todo != {}
      invariant todo <= all && Grouping(db, account, all - todo, byName)
      decreases |todo|
    {
      var id :| id in todo;
      var name := db.mailboxes[Key(account, id)].name;
      var group := InsertId(if name in byName then byName[name] else [], id);
      GroupingStep(db, account, all - todo, byName, id, group);
      assert all - todo + {id} == all - (todo - {id});
      byName := byName[name := group];
      todo := todo - {id};
    }
    assert all - todo == all;
    GroupingNames(db, account, byName);
  }

  lemma GroupingNames(db: Db, account: nat, byName: map<string, seq<nat>>)
    requires Grouping(db, account, BoxIds(db, account), byName)
    ensures byName.Keys == Names(db, account)
  {
    forall name | name in byName ensures name in Names(db, account) {
      assert byName[name][0] in byName[name];
      assert Key(account, byName[name][0]) in db.mailboxes;
    }
    forall name | name in Names(db, account) ensures name in byName {
      var k :| k in db.mailboxes && k.account == account && db.mailboxes[k].name == name;
      assert k.id in BoxIds(db, account) && Key(account, k.id) == k;
    }
  }

  lemma FirstIsKeeper(db: Db, account: nat, name: string, group: seq<nat>)
    requires GroupOf(db, account, BoxIds(db, account), name, group) && group != []
    ensures Duplicates(db, account, group)
  {
    assert forall i :: 0 <= i < |group| ==> group[i] in group;
    forall other | SameName(db, account, group[0], other) ensures group[0] <= other {
      assert Key(account, other) in db.mailboxes && other in BoxIds(db, account);
      assert other in group;
    }
  }

  /** The mailboxes still there once the names in `done` are merged. */
  ghost function StillThere(db: Db, account: nat, done: set<string>): set<nat> {
    set id | id in BoxIds(db, account) && (db.mailboxes[Key(account, id)].name !in done || IsKeeper(db, account, id))
  }

  lemma GroupDone(db: Db, account: nat, done: set<string>, name: string, group: seq<nat>)
    requires GroupOf(db, account, BoxIds(db, account), name, group) && group != [] && name !in done
    ensures StillThere(db, account, done + {name}) == StillThere(db, account, done) - Members(group[1..])
  {
    FirstIsKeeper(db, account, name, group);
    var gone := Members(group[1..]);
    forall id | id in BoxIds(db, account) && db.mailboxes[Key(account, id)].name == name
      ensures id in gone <==> !IsKeeper(db, account, id)
    {
      assert id in group;
      var i :| 0 <= i < |group| && group[i] == id;
      if i > 0 { NotKeeper(db, account, id, group[0]); }
    }
    forall id | id in gone ensures Key(account, id) in db.mailboxes && db.mailboxes[Key(account, id)].name == name {
      assert id in group;
    }
  }

  lemma GroupSize(db: Db, account: nat, done: set<string>, name: string, group: seq<nat>, before: set<nat>)
    requires GroupOf(db, account, BoxIds(db, account), name, group) && group != [] && name !in done
      && before == StillThere(db, account, done)
    ensures |before - Members(group[1..])| == |before| - (|group| - 1)
  {
    var gone := Members(group[1..]);
    forall id | id in gone ensures id in before {
      assert id in group;
    }
    MembersSize(group[1..]);
  }

  lemma {:induction false} MembersSize(ids: seq<nat>)
    requires SortedIds(ids)
    ensures |Members(ids)| == |ids|
  {
    if ids != [] {
      var front, last := ids[..|ids| - 1], ids[|ids| - 1];
      MembersSize(front);
      MembersSnoc(ids, front, last);
      assert last !in front;
    }
  }

  lemma MembersSnoc(ids: seq<nat>, front: seq<nat>, last: nat)
    requires ids != [] && front == ids[..|ids| - 1] && last == ids[|ids| - 1]
    ensures Members(ids) == Members(front) + {last}
  {
    L.FrontLast(ids);
  }

  /** Every mailbox has a survivor of its name. */
  lemma {:induction false} KeeperExists(db: Db, account: nat, id: nat) returns (keeper: nat)
    requires Key(account, id) in db.mailboxes
    ensures IsKeeper(db, account, keeper) && SameName(db, account, id, keeper)
    decreases id
  {
    if IsKeeper(db, account, id) {
      keeper := id;
    } else {
      var other: nat :| SameName(db, account, id, other) && other < id;
      keeper := KeeperExists(db, account, other);
    }
  }

  lemma {:induction false} NamesCount(db: Db, account: nat, ids: set<nat>)
    requires ids <= BoxIds(db, account) && forall i, j :: i in ids && j in ids && SameName(db, account, i, j) ==> i == j
    ensures |set id | id in ids && Key(account, id) in db.mailboxes :: db.mailboxes[Key(account, id)].name| == |ids|
    decreases |ids|
  {
    var names := set id | id in ids && Key(account, id) in db.mailboxes :: db.mailboxes[Key(account, id)].name;
    if ids == {} {
      assert names == {};
    } else {
      var x :| x in ids;
      var rest := ids - {x};
      NamesCount(db, account, rest);
      var others := set id | id in rest && Key(account, id) in db.mailboxes :: db.mailboxes[Key(account, id)].name;
      var name := db.mailboxes[Key(account, x)].name;
      assert name !in others by {
        if id :| id in rest && Key(account, id) in db.mailboxes && db.mailboxes[Key(account, id)].name == name {
          assert SameName(db, account, id, x);
        }
      }
      assert names == others + {name};
    }
  }

  /** As many survivors as names. */
  lemma KeepersCount(db: Db, account: nat)
    ensures |StillThere(db, account, Names(db, account))| == |Names(db, account)|
  {
    var ids := StillThere(db, account, Names(db, account));
    forall id | id in ids ensures Key(account, id) in db.mailboxes && IsKeeper(db, account, id) {
      assert db.mailboxes[Key(account, id)].name in Names(db, account);
    }
    forall i, j | i in ids && j in ids && SameName(db, account, i, j) ensures i == j {
      OneKeeper(db, account, i, j);
    }
    NamesCount(db, account, ids);
    var names := set id | id in ids && Key(account, id) in db.mailboxes :: db.mailboxes[Key(account, id)].name;
    forall name | name in Names(db, account) ensures name in names {
      var k :| k in db.mailboxes && k.account == account && db.mailboxes[k].name == name;
      var keeper := KeeperExists(db, account, k.id);
      assert keeper in ids;
    }
    assert names == Names(db, account);
  }

  lemma StartMerging(db: Db, account: nat)
    ensures Merging(db, db, account) && StillThere(db, account, {}) == BoxIds(db, account)
  {
  }

  /** Nothing is lost, and names are told apart again. */
  lemma DedupLosesNothing(db0: Db, db: Db, account: nat)
    requires Deduplicated(db0, db, account)
    ensures forall i, j :: SameName(db, account, i, j) ==> i == j
    ensures forall id :: Key(account, id) in db.mailboxes <==> IsKeeper(db0, account, id)
    ensures Names(db, account) == Names(db0, account)
    ensures forall k :: k in db0.messages <==> k in db.messages
    ensures forall k :: k in db0.messages ==>
      db.messages[k].blob == db0.messages[k].blob && db.messages[k].flags == db0.messages[k].flags
        && db.messages[k].info == db0.messages[k].info
    ensures forall k :: k in db0.messages && k.account == account && Home(db0, k) in db0.mailboxes ==>
      Home(db, k) in db.mailboxes && db.mailboxes[Home(db, k)].name == db0.mailboxes[Home(db0, k)].name
    ensures forall k :: k in db0.messages && k.account == account && IsKeeper(db0, account, db0.messages[k].mailbox) ==>
      db.messages[k] == db0.messages[k]
    ensures forall k :: k in db0.messages && k.account == account && Home(db0, k) in db0.mailboxes
                        && !IsKeeper(db0, account, db0.messages[k].mailbox) ==>
      db.messages[k].uid >= db0.mailboxes[Home(db, k)].uidNext
  {
    forall id ensures Key(account, id) in db.mailboxes <==> IsKeeper(db0, account, id) {
      Survives(db0, db, account, id);
    }
    forall i, j | SameName(db, account, i, j) ensures i == j {
      OneKeeper(db0, account, i, j);
    }
    NamesSame(db0, db, account);
    forall k | k in db0.messages ensures Follows(db0, db, account, k) {
    }
    forall k | k in db0.messages && k.account == account && Home(db0, k) in db0.mailboxes
      ensures Home(db, k) in db.mailboxes && IsKeeper(db0, account, db.messages[k].mailbox)
    {
    }
  }

  lemma Survives(db0: Db, db: Db, account: nat, id: nat)
    requires Deduplicated(db0, db, account)
    ensures Key(account, id) in db.mailboxes <==> IsKeeper(db0, account, id)
  {
    if Key(account, id) in db.mailboxes {
      assert id in BoxIds(db, account);
      assert db0.mailboxes[Key(account, id)].name in Names(db0, account);
    }
  }

  lemma NamesSame(db0: Db, db: Db, account: nat)
    requires Deduplicated(db0, db, account)
    ensures Names(db, account) == Names(db0, account)
  {
    forall name | name in Names(db0, account) ensures name in Names(db, account) {
      var k :| k in db0.mailboxes && k.account == account && db0.mailboxes[k].name == name;
      var keeper := KeeperExists(db0, account, k.id);
      assert Key(account, keeper) in db.mailboxes;
    }
  }

  /** The first of the group stays, the others are its duplicates. */
  ghost predicate Duplicates(db0: Db, account: nat, group: seq<nat>) {
    && group != [] && IsKeeper(db0, account, group[0])
    && forall i :: 0 < i < |group| ==> SameName(db0, account, group[i], group[0]) && group[i] != group[0]
  }

  /** The loop over the duplicates of one name. */
  method MergeGroup(s: Store, account: nat, group: seq<nat>, ghost ids: set<nat>, ghost db0: Db)
    returns (r: Result<nat>)
    requires Duplicates(db0, account, group) && GroupMerged(db0, s.db, account, ids, group, 1)
    modifies s
    ensures Merging(db0, s.db, account)
    ensures r.Ok? ==> GroupMerged(db0, s.db, account, ids, group, |group|) && r.value == |group| - 1
    ensures old(s.faults) == [] ==> s.faults == [] && r.Ok?
  {
    for i := 1 to |group|
      invariant GroupMerged(db0, s.db, account, ids, group, i)
      invariant old(s.faults) == [] ==> s.faults == []
    {
      var merged := MergeOne(s, account, group, i, ids, db0);
      if merged.Err? { return Err(merged.error); }
    }
    r := Ok(|group| - 1);
  }

  method MergeOne(s: Store, account: nat, group: seq<nat>, i: nat, ghost ids: set<nat>, ghost db0: Db)
    returns (r: Result<()>)
    requires Duplicates(db0, account, group) && 1 <= i < |group| && GroupMerged(db0, s.db, account, ids, group, i)
    modifies s
    ensures Merging(db0, s.db, account) && (r.Ok? ==> GroupMerged(db0, s.db, account, ids, group, i + 1))
    ensures old(s.faults) == [] ==> s.faults == [] && r.Ok?
  {
    OneMoreGone(ids, BoxIds(s.db, account), group, i);
    r := MergeInto(s, account, group[0], group[i], db0);
  }

  lemma OneMoreGone(ids: set<nat>, now: set<nat>, group: seq<nat>, i: nat)
    requires 0 < i < |group| && now == ids - Members(group[1..i])
    ensures now - {group[i]} == ids - Members(group[1..i + 1])
  {
    assert group[1..i + 1] == group[1..i] + [group[i]];
  }

  /** The duplicates before position i are gone. */
  ghost predicate GroupMerged(db0: Db, db: Db, account: nat, ids: set<nat>, group: seq<nat>, i: nat)
    requires 1 <= i <= |group|
  {
    Merging(db0, db, account) && BoxIds(db, account) == ids - Members(group[1..i])
  }

  /** What deduplication leaves: one mailbox a name, the oldest; every message where its name is. */
  ghost predicate Deduplicated(db0: Db, db: Db, account: nat) {
    && Merging(db0, db, account)
    && BoxIds(db, account) == StillThere(db0, account, Names(db0, account))
  }

  /** The names in `done` are merged, and `removed` duplicates are gone. */
  ghost predicate Between(db0: Db, db: Db, account: nat, done: set<string>, removed: nat) {
    && Merging(db0, db, account) && BoxIds(db, account) == StillThere(db0, account, done)
    && removed == |BoxIds(db0, account)| - |BoxIds(db, account)|
  }

  lemma BetweenStep(db0: Db, db: Db, account: nat, done: set<string>, removed: nat, name: string, group: seq<nat>,
                    db': Db)
    requires Between(db0, db, account, done, removed) && name !in done
    requires GroupOf(db0, account, BoxIds(db0, account), name, group) && group != [] && Merging(db0, db', account)
    requires BoxIds(db', account) == BoxIds(db, account) - Members(group[1..])
    ensures Between(db0, db', account, done + {name}, removed + |group| - 1)
  {
    GroupDone(db0, account, done, name, group);
    GroupSize(db0, account, done, name, group, BoxIds(db, account));
  }

  lemma BetweenEnds(db0: Db, db: Db, account: nat, removed: nat)
    requires Between(db0, db, account, Names(db0, account), removed)
    ensures Deduplicated(db0, db, account) && removed == |BoxIds(db0, account)| - |Names(db0, account)|
  {
    KeepersCount(db0, account);
  }

  /** A name held once is left alone. */
  method MergeName(s: Store, account: nat, name: string, group: seq<nat>, ghost db0: Db, ghost done: set<string>,
                   removed: nat)
    returns (r: Result<nat>)
    requires Between(db0, s.db, account, done, removed) && name !in done
    requires GroupOf(db0, account, BoxIds(db0, account), name, group) && group != []
    modifies s
    ensures Merging(db0, s.db, account) && (r.Ok? ==> Between(db0, s.db, account, done + {name}, r.value))
    ensures old(s.faults) == [] ==> s.faults == [] && r.Ok?
  {
    ghost var before := s.db;
    var n: Result<nat> := Ok(0);
    FirstIsKeeper(db0, account, name, group);
    GroupStarts(db0, s.db, account, group);
    if |group| >= 2 {
      n := MergeGroup(s, account, group, BoxIds(s.db, account), db0);
      if n.Err? { return n; }
    }
    GroupEnds(db0, before, s.db, account, group);
    BetweenStep(db0, before, account, done, removed, name, group, s.db);
    r := Ok(removed + n.value);
  }

  lemma GroupStarts(db0: Db, db: Db, account: nat, group: seq<nat>)
    requires Merging(db0, db, account) && group != []
    ensures GroupMerged(db0, db, account, BoxIds(db, account), group, 1)
  {
    assert group[1..1] == [];
  }

  lemma GroupEnds(db0: Db, before: Db, db: Db, account: nat, group: seq<nat>)
    requires group != [] && GroupMerged(db0, db, account, BoxIds(before, account), group, |group|)
    ensures Merging(db0, db, account) && BoxIds(db, account) == BoxIds(before, account) - Members(group[1..])
  {
    assert group[1..|group|] == group[1..];
  }

  method DedupOneAccount(s: Store, account: nat) returns (r: Result<nat>)
    modifies s
    ensures Merging(old(s.db), s.db, account)
    ensures r.Ok? ==> Deduplicated(old(s.db), s.db, account)
    ensures r.Ok? ==> r.value == |BoxIds(old(s.db), account)| - |Names(old(s.db), account)|
    ensures old(s.faults) == [] ==> s.faults == [] && r.Ok?
  {
    StartMerging(s.db, account);
    var ok := s.Call();
    if !ok { return Err(Unavailable); }
    ghost var db0 := s.db;
    var byName := GroupByName(s.db, account);
    r := MergeAll(s, account, byName, db0);
    if r.Ok? { BetweenEnds(db0, s.db, account, r.value); }
  }

  ghost predicate Groups(db: Db, account: nat, byName: map<string, seq<nat>>) {
    Grouping(db, account, BoxIds(db, account), byName)
  }

  lemma GroupingAt(db: Db, account: nat, byName: map<string, seq<nat>>, name: string)
    requires Groups(db, account, byName) && name in byName
    ensures GroupOf(db, account, BoxIds(db, account), name, byName[name]) && byName[name] != []
  {
  }

  /** The names in any order. */
  method MergeAll(s: Store, account: nat, byName: map<string, seq<nat>>, ghost db0: Db) returns (r: Result<nat>)
    requires Groups(db0, account, byName) && Between(db0, s.db, account, {}, 0)
    modifies s
    ensures Merging(db0, s.db, account) && (r.Ok? ==> Between(db0, s.db, account, byName.Keys, r.value))
    ensures old(s.faults) == [] ==> s.faults == [] && r.Ok?
  {
    r := Ok(0);
    var todo := byName.Keys;
    ghost var done: set<string> := {};
    while todo != {}
      invariant r.Ok? && Between(db0, s.db, account, done, r.value)
      invariant done !! todo && done + todo == byName.Keys
      invariant old(s.faults) == [] ==> s.faults == []
      decreases |todo|
    {
      r, todo, done := MergeNext(s, account, byName, db0, todo, done, r.value);
      if r.Err? { return; }
    }
    assert done == byName.Keys;
  }

  lemma OneNameLess(todo: set<string>, done: set<string>, name: string)
    requires name in todo && done !! todo
    ensures |todo - {name}| < |todo| && done + {name} !! todo - {name}
    ensures done + {name} + (todo - {name}) == done + todo
  {
  }

  method MergeNext(s: Store, account: nat, byName: map<string, seq<nat>>, ghost db0: Db, todo: set<string>,
                   ghost done: set<string>, removed: nat)
    returns (r: Result<nat>, todo': set<string>, ghost done': set<string>)
    requires Groups(db0, account, byName) && Between(db0, s.db, account, done, removed)
    requires todo != {} && done !! todo && done + todo == byName.Keys
    modifies s
    ensures |todo'| < |todo| && done' !! todo' && done' + todo' == byName.Keys
    ensures Merging(db0, s.db, account) && (r.Ok? ==> Between(db0, s.db, account, done', r.value))
    ensures old(s.faults) == [] ==> s.faults == [] && r.Ok?
  {
    var name :| name in todo;
    todo', done' := todo - {name}, done + {name};
    OneNameLess(todo, done, name);
    GroupingAt(db0, account, byName, name);
    r := MergeName(s, account, name, byName[name], db0, done, removed);
  }

  // ---- run again ------------------------------------------------------------------------------

  /** A merge that was cut off has not changed who stays. */
  lemma SameKeepers(db0: Db, db: Db, account: nat, id: nat)
    requires Merging(db0, db, account)
    ensures IsKeeper(db, account, id) <==> IsKeeper(db0, account, id)
  {
    if IsKeeper(db0, account, id) {
      forall other | SameName(db, account, id, other) ensures id <= other {
        assert SameName(db0, account, id, other);
      }
    }
    if IsKeeper(db, account, id) {
      var keeper := KeeperExists(db0, account, id);
      assert SameName(db, account, id, keeper);
      assert SameName(db0, account, keeper, id);
    }
  }

  lemma SameNames(db0: Db, db: Db, account: nat)
    requires Merging(db0, db, account)
    ensures Names(db, account) == Names(db0, account)
  {
    forall name | name in Names(db0, account) ensures name in Names(db, account) {
      var k :| k in db0.mailboxes && k.account == account && db0.mailboxes[k].name == name;
      var keeper := KeeperExists(db0, account, k.id);
      assert Key(account, keeper) in db.mailboxes;
    }
  }

  lemma FollowsAgain(db0: Db, db1: Db, db2: Db, account: nat, k: Key)
    requires Merging(db0, db1, account) && k in db0.messages && k in db1.messages && k in db2.messages
    requires Follows(db0, db1, account, k) && Follows(db1, db2, account, k)
    ensures Follows(db0, db2, account, k)
  {
    var m0, m1, m2 := db0.messages[k], db1.messages[k], db2.messages[k];
    if m2 != m1 {
      SameKeepers(db0, db1, account, m1.mailbox);
      SameKeepers(db0, db1, account, m2.mailbox);
      assert m1 == m0;
      assert SameName(db0, account, m0.mailbox, m2.mailbox);
    }
  }

  lemma BoxesAgain(db0: Db, db1: Db, db2: Db, account: nat)
    requires Merging(db0, db1, account) && BoxesKept(db1, db2, account)
    ensures BoxesKept(db0, db2, account)
  {
    forall id | IsKeeper(db0, account, id) ensures Key(account, id) in db2.mailboxes {
      SameKeepers(db0, db1, account, id);
    }
  }

  lemma MergingAgain(db0: Db, db1: Db, db2: Db, account: nat)
    requires Merging(db0, db1, account) && Merging(db1, db2, account)
    ensures Merging(db0, db2, account)
  {
    BoxesAgain(db0, db1, db2, account);
    forall k | k in db0.messages ensures Follows(db0, db2, account, k) {
      FollowsAgain(db0, db1, db2, account, k);
    }
  }

  lemma StillThereAgain(db0: Db, db: Db, account: nat)
    requires Merging(db0, db, account)
    ensures StillThere(db, account, Names(db, account)) == StillThere(db0, account, Names(db0, account))
  {
    SameNames(db0, db, account);
    KeepersStay(db, account);
    KeepersStay(db0, account);
    forall id ensures IsKeeper(db, account, id) <==> IsKeeper(db0, account, id) {
      SameKeepers(db0, db, account, id);
    }
  }

  lemma KeepersStay(db: Db, account: nat)
    ensures forall id :: id in StillThere(db, account, Names(db, account)) <==> IsKeeper(db, account, id)
  {
    forall id ensures id in StillThere(db, account, Names(db, account)) <==> IsKeeper(db, account, id) {
      if Key(account, id) in db.mailboxes { assert db.mailboxes[Key(account, id)].name in Names(db, account); }
    }
  }

  /** A full run after one that was cut off ends where a full run from the start would be allowed to. */
  lemma DedupAgain(db0: Db, db1: Db, db2: Db, account: nat)
    requires Merging(db0, db1, account) && Deduplicated(db1, db2, account)
    ensures Deduplicated(db0, db2, account)
  {
    MergingAgain(db0, db1, db2, account);
    StillThereAgain(db0, db1, account);
  }

  /** Runs the command again and again, at most `times` more, until it goes through. */
  method Reruns(s: Store, account: nat, times: nat) returns (r: Result<nat>)
    modifies s
    ensures Merging(old(s.db), s.db, account)
    ensures r.Ok? ==> Deduplicated(old(s.db), s.db, account)
    ensures old(s.faults) == [] ==> r.Ok?
  {
    r := DedupOneAccount(s, account);
    for i := 0 to times
      invariant Merging(old(s.db), s.db, account) && (r.Ok? ==> Deduplicated(old(s.db), s.db, account))
      invariant old(s.faults) == [] ==> r.Ok?
    {
      if r.Ok? { return; }
      ghost var before := s.db;
      r := DedupOneAccount(s, account);
      MergingAgain(old(s.db), before, s.db, account);
      if r.Ok? { DedupAgain(old(s.db), before, s.db, account); }
    }
  }
}
