/** Moving the rows of a legacy collection into per-account collections, restartable after a crash. */
module Migrate {

  datatype Value = Num(n: int) | Text(s: string)

  /** A document without its `_id`. */
  type Doc = map<string, Value>

  datatype Account = NoAccount | Owner(id: nat)

  /** The owner of a row, if its account_id is a number that is not negative. */
  function OwnerOf(row: Doc): Account {
    if "account_id" in row && row["account_id"].Num? && row["account_id"].n >= 0 then Owner(row["account_id"].n)
      else NoAccount
  }

  predicate Routable(row: Doc) {
    OwnerOf(row).Owner? && OwnerOf(row).id != 0
  }

  datatype KeyKind = ByName | ByAccount | ByMailboxUid

  datatype NaturalKey = Unkeyed | Field(name: string, value: Value)

  function KeyOf(kind: KeyKind, row: Doc): NaturalKey {
    match kind
    case ByName => if "name" in row && row["name"].Text? then Field("name", row["name"]) else Unkeyed
    case ByAccount => if OwnerOf(row).Owner? then Field("account_id", row["account_id"]) else Unkeyed
    case ByMailboxUid => Unkeyed
  }

  /** A document in the collection of an account. */
  datatype Entry = Entry(account: nat, doc: Doc)

  function EntryOf(row: Doc): Entry
    requires Routable(row)
  {
    Entry(OwnerOf(row).id, row)
  }

  predicate Matches(e: Entry, account: nat, key: NaturalKey)
    requires key.Field?
  {
    e.account == account && "account_id" in e.doc && e.doc["account_id"] == Num(account)
    && key.name in e.doc && e.doc[key.name] == key.value
  }

  // ---- in the fields' own names ---------------------------------------------------------------

  predicate Numbered(row: Doc, n: int) {
    "account_id" in row && row["account_id"] == Num(n)
  }

  /** A row goes to the account whose number it carries, if that is positive, and goes there unchanged. */
  lemma RoutedTo(row: Doc)
    ensures Routable(row) <==> exists n :: n > 0 && Numbered(row, n)
    ensures forall n: nat :: n > 0 && Numbered(row, n) ==> EntryOf(row) == Entry(n, row)
  {
    if Routable(row) { assert Numbered(row, row["account_id"].n); }
  }

  /** Two mailbox rows of one account clash if their names do, and any two rows of one account do for the
      collections that hold one row per account. */
  lemma KeysClash(a: Doc, b: Doc, n: nat)
    requires n > 0 && Numbered(a, n) && Numbered(b, n)
    ensures KeyOf(ByName, a).Field? <==> "name" in a && a["name"].Text?
    ensures KeyOf(ByName, a).Field? ==>
      (Matches(EntryOf(b), n, KeyOf(ByName, a)) <==> "name" in b && b["name"] == a["name"])
    ensures KeyOf(ByAccount, a).Field? && Matches(EntryOf(b), n, KeyOf(ByAccount, a))
  {
  }

  // ---- what was there at first ----------------------------------------------------------------

  /** The rows that have a place to go. */
  function Entries(rows: map<nat, Doc>): set<Entry> {
    set id | id in rows && Routable(rows[id]) :: EntryOf(rows[id])
  }

  /** Every routable row has a natural key, no two of one account share it, and no destination has it. */
  ghost predicate Clear(kind: KeyKind, rows: map<nat, Doc>, homes: multiset<Entry>) {
    && (forall id :: id in rows && Routable(rows[id]) ==> KeyOf(kind, rows[id]).Field?)
    && (forall i, j :: i in rows && j in rows && i != j && Routable(rows[i]) && OwnerOf(rows[i]) == OwnerOf(rows[j]) ==>
          KeyOf(kind, rows[i]) != KeyOf(kind, rows[j]))
    && (forall id, e :: id in rows && Routable(rows[id]) && e in homes ==>
        !Matches(e, OwnerOf(rows[id]).id, KeyOf(kind, rows[id])))
  }

  /** Somewhere along the way: `done` are the rows inserted; none is inserted twice, none is lost. */
  ghost predicate Underway(rows0: map<nat, Doc>, homes0: multiset<Entry>, rows: map<nat, Doc>, homes: multiset<Entry>,
                           done: set<Entry>) {
    && done <= Entries(rows0) && homes == homes0 + multiset(done)
    && (forall id :: id in rows ==> id in rows0 && rows[id] == rows0[id])
    && (forall id :: id in rows0 && id !in rows ==> Routable(rows0[id]) && EntryOf(rows0[id]) in done)
  }

  lemma OwnEntryMatches(kind: KeyKind, row: Doc)
    requires Routable(row) && KeyOf(kind, row).Field?
    ensures Matches(EntryOf(row), OwnerOf(row).id, KeyOf(kind, row))
  {
  }

  /** The guard's answer: a matching document is there if and only if this very row was inserted. */
  lemma GuardIsExact(kind: KeyKind, rows0: map<nat, Doc>, homes0: multiset<Entry>, rows: map<nat, Doc>,
                     homes: multiset<Entry>,
                     done: set<Entry>, id: nat)
    requires Clear(kind, rows0, homes0) && Underway(rows0, homes0, rows, homes, done) && id in rows
      && Routable(rows[id])
    ensures (exists e :: e in homes && Matches(e, OwnerOf(rows[id]).id, KeyOf(kind, rows[id])))
      <==> EntryOf(rows[id]) in done
  {
    var row := rows[id];
    var key := KeyOf(kind, row);
    OwnEntryMatches(kind, row);
    if e :| e in homes && Matches(e, OwnerOf(row).id, key) {
      assert e in done;
      var other :| other in rows0 && Routable(rows0[other]) && EntryOf(rows0[other]) == e;
      SameKeySameRow(kind, rows0[other], row);
    }
  }

  /** A row that matches another's key has that key. */
  lemma SameKeySameRow(kind: KeyKind, other: Doc, row: Doc)
    requires Routable(other) && Routable(row) && KeyOf(kind, row).Field?
    requires Matches(EntryOf(other), OwnerOf(row).id, KeyOf(kind, row))
    ensures OwnerOf(other) == OwnerOf(row) && KeyOf(kind, other) == KeyOf(kind, row)
  {
  }

  lemma InsertKeeps(rows0: map<nat, Doc>, homes0: multiset<Entry>, rows: map<nat, Doc>, homes: multiset<Entry>,
                    done: set<Entry>, id: nat)
    requires Underway(rows0, homes0, rows, homes, done) && id in rows && Routable(rows[id])
      && EntryOf(rows[id]) !in done
    ensures var e := EntryOf(rows[id]); Underway(rows0, homes0, rows, homes + multiset{e}, done + {e})
  {
    var e := EntryOf(rows[id]);
    assert multiset(done + {e}) == multiset(done) + multiset{e};
  }

  lemma RemoveKeeps(rows0: map<nat, Doc>, homes0: multiset<Entry>, rows: map<nat, Doc>, homes: multiset<Entry>,
                    done: set<Entry>, id: nat)
    requires Underway(rows0, homes0, rows, homes, done) && id in rows && Routable(rows[id]) && EntryOf(rows[id]) in done
    ensures Underway(rows0, homes0, rows - {id}, homes, done)
  {
  }

  /** A document with this row's key is at its destination. */
  predicate Present(kind: KeyKind, homes: multiset<Entry>, row: Doc)
    requires Routable(row)
  {
    KeyOf(kind, row).Field? && exists e :: e in homes && Matches(e, OwnerOf(row).id, KeyOf(kind, row))
  }

  /** What one row's turn may do keeps all that was inserted once, and loses nothing. */
  lemma MoveKeeps(kind: KeyKind, rows0: map<nat, Doc>, homes0: multiset<Entry>, rows: map<nat, Doc>,
                  homes: multiset<Entry>, done: set<Entry>,
                  id: nat, rows': map<nat, Doc>, homes': multiset<Entry>) returns (done': set<Entry>)
    requires Clear(kind, rows0, homes0) && Underway(rows0, homes0, rows, homes, done) && id in rows
    requires rows' == rows
      || (Routable(rows[id]) && rows' == rows - {id} && (homes' != homes || Present(kind, homes, rows[id])))
    requires homes' == homes
      || (Routable(rows[id]) && !Present(kind, homes, rows[id]) && homes' == homes + multiset{EntryOf(rows[id])})
    ensures Underway(rows0, homes0, rows', homes', done') && done <= done'
    ensures |done'| == |done| + if homes' == homes then 0 else 1
  {
    done' := done;
    if Routable(rows[id]) {
      var e := EntryOf(rows[id]);
      GuardIsExact(kind, rows0, homes0, rows, homes, done, id);
      if homes' != homes {
        InsertKeeps(rows0, homes0, rows, homes, done, id);
        done' := done + {e};
      }
      if rows' != rows { RemoveKeeps(rows0, homes0, rows, homes', done', id); }
    }
  }

  function OnlyUnroutable(rows: map<nat, Doc>): map<nat, Doc> {
    map id | id in rows && !Routable(rows[id]) :: rows[id]
  }

  /** The rows dealt with are gone, unless unroutable; those to do are as they were. */
  ghost predicate Left(rows: map<nat, Doc>, now: map<nat, Doc>, todo: set<nat>) {
    && (forall id :: id in now ==> id in rows && now[id] == rows[id])
    && (forall id :: id in rows ==> (id in now <==> id in todo || !Routable(rows[id])))
  }

  lemma LeftStep(rows: map<nat, Doc>, now: map<nat, Doc>, todo: set<nat>, id: nat, now': map<nat, Doc>)
    requires Left(rows, now, todo) && id in todo && id in now && todo <= now.Keys
    requires now' == if Routable(now[id]) then now - {id} else now
    ensures Left(rows, now', todo - {id}) && todo - {id} <= now'.Keys
  {
  }

  lemma LeftBehind(rows: map<nat, Doc>, now: map<nat, Doc>, todo: set<nat>)
    requires Left(rows, now, todo)
    ensures OnlyUnroutable(now) == OnlyUnroutable(rows)
    ensures todo == {} ==> now == OnlyUnroutable(rows)
    ensures rows == OnlyUnroutable(rows) ==> now == rows
  {
  }

  // ---- the run --------------------------------------------------------------------------------

  class Migration {
    var legacy: map<nat, Doc>
    var homes: multiset<Entry>
    /** Whether each database call still to come fails, or finds the process gone. */
    var faults: seq<bool>

    constructor (legacy: map<nat, Doc>, homes: multiset<Entry>, faults: seq<bool>)
      ensures this.legacy == legacy && this.homes == homes && this.faults == faults
    {
      this.legacy, this.homes, this.faults := legacy, homes, faults;
    }

    method Call() returns (ok: bool)
      modifies this`faults
      ensures old(faults) == [] ==> ok && faults == []
    {
      ok := faults == [] || !faults[0];
      faults := if faults == [] then [] else faults[1..];
    }

    method FindOne(account: nat, key: NaturalKey) returns (ok: bool, found: bool)
      requires key.Field?
      modifies this`faults
      ensures ok ==> (found <==> exists e :: e in homes && Matches(e, account, key))
      ensures old(faults) == [] ==> ok && faults == []
    {
      ok := Call();
      found := exists e :: e in homes && Matches(e, account, key);
    }

    /** One row: insert it unless it is already there, then delete the legacy copy. */
    method MoveRow(kind: KeyKind, id: nat) returns (ok: bool, moved: nat)
      requires id in legacy
      modifies this
      ensures var row := old(legacy)[id];
              && (ok ==> legacy == if Routable(row) then old(legacy) - {id} else old(legacy))
              && (!ok ==> legacy == old(legacy))
              && (homes == old(homes)
                  || (Routable(row) && !Present(kind, old(homes), row) && homes == old(homes) + multiset{EntryOf(row)}))
              && (ok ==> moved == (if Routable(row) && !Present(kind, old(homes), row) then 1 else 0))
              && (ok ==> (homes == old(homes) <==> moved == 0))
      ensures old(faults) == [] ==> ok && faults == []
    {
      var row := legacy[id];
      moved, ok := 0, true;
      if !Routable(row) { return; }
      var account, key := OwnerOf(row).id, KeyOf(kind, row);
      if key.Field? {
        var found: bool;
        ok, found := FindOne(account, key);
        if !ok { return; }
        if found {
          ok := Call();
          if !ok { return; }
          legacy := legacy - {id};
          return;
        }
      }
      ok := Call();
      if !ok { return; }
      homes := homes + multiset{Entry(account, row)};
      assert homes[Entry(account, row)] == old(homes)[Entry(account, row)] + 1;
      ok := Call();
      if !ok { return; }
      legacy := legacy - {id};
      moved := 1;
    }

    /** A run over the rows found at its start; it ends at the first failing call. */
    method MigrateLegacyCollection(kind: KeyKind, ghost rows0: map<nat, Doc>, ghost homes0: multiset<Entry>,
                                   ghost done: set<Entry>)
      returns (ok: bool, moved: nat, ghost done': set<Entry>)
      modifies this
      ensures ok ==> legacy == OnlyUnroutable(old(legacy))
      ensures old(faults) == [] ==> ok && faults == []
      ensures old(legacy) == OnlyUnroutable(old(legacy)) ==> legacy == old(legacy) && homes == old(homes)
      ensures OnlyUnroutable(legacy) == OnlyUnroutable(old(legacy))
      ensures Clear(kind, rows0, homes0) && Underway(rows0, homes0, old(legacy), old(homes), done) ==>
        && Underway(rows0, homes0, legacy, homes, done') && done <= done'
        && (ok ==> |done'| == |done| + moved)
    {
      ghost var sound := Clear(kind, rows0, homes0) && Underway(rows0, homes0, legacy, homes, done);
      moved, done' := 0, done;
      ok := Call();
      if !ok { return; }
      var todo := legacy.Keys;
      while todo != {}
        invariant todo <= legacy.Keys && Left(old(legacy), legacy, todo)
        invariant sound ==> Underway(rows0, homes0, legacy, homes, done') && done <= done' && |done'| == |done| + moved
        invariant old(faults) == [] ==> faults == []
        invariant old(legacy) == OnlyUnroutable(old(legacy)) ==> homes == old(homes)
        decreases |todo|
      {
        var id :| id in todo;
        ghost var rows, before := legacy, homes;
        var one: nat;
        LeftBehind(old(legacy), legacy, todo);
        ok, one := MoveRow(kind, id);
        if sound { done' := MoveKeeps(kind, rows0, homes0, rows, before, done', id, legacy, homes); }
        if !ok { return; }
        moved := moved + one;
        LeftStep(old(legacy), rows, todo, id, legacy);
        todo := todo - {id};
      }
      LeftBehind(old(legacy), legacy, todo);
      ok := true;
    }

    /** Boots cut off anywhere, then one that is not: every routable row is at its destination
        exactly once, and only the unroutable ones are left behind. */
    method Restarts(kind: KeyKind, boots: seq<seq<bool>>)
      modifies this
      ensures legacy == OnlyUnroutable(old(legacy))
      ensures Clear(kind, old(legacy), old(homes)) ==> homes == old(homes) + multiset(Entries(old(legacy)))
      ensures forall id :: id in legacy <==> id in old(legacy) && !exists n :: n > 0 && Numbered(old(legacy)[id], n)
      ensures Clear(kind, old(legacy), old(homes)) ==>
        forall id, n: nat :: id in old(legacy) && n > 0 && Numbered(old(legacy)[id], n) ==>
          homes[Entry(n, old(legacy)[id])] == 1
    {
      ghost var rows0, homes0 := legacy, homes;
      ghost var done: set<Entry> := {};
      var ok: bool;
      var moved: nat;
      for i := 0 to |boots|
        invariant Clear(kind, rows0, homes0) ==> Underway(rows0, homes0, legacy, homes, done)
        invariant OnlyUnroutable(legacy) == OnlyUnroutable(rows0)
      {
        faults := boots[i];
        ok, moved, done := MigrateLegacyCollection(kind, rows0, homes0, done);
      }
      faults := [];
      ok, moved, done := MigrateLegacyCollection(kind, rows0, homes0, done);
      AllRouted(rows0);
      if Clear(kind, rows0, homes0) {
        AllDone(rows0, homes0, legacy, homes, done);
        EachOnce(kind, rows0, homes0);
      }
    }
  }

  lemma AllDone(rows0: map<nat, Doc>, homes0: multiset<Entry>, rows: map<nat, Doc>, homes: multiset<Entry>,
                done: set<Entry>)
    requires Underway(rows0, homes0, rows, homes, done) && forall id :: id in rows ==> !Routable(rows[id])
    ensures done == Entries(rows0) && rows.Keys == set id | id in rows0 && !Routable(rows0[id])
  {
    forall e | e in Entries(rows0) ensures e in done {
      var id :| id in rows0 && Routable(rows0[id]) && EntryOf(rows0[id]) == e;
      assert id !in rows;
    }
    forall id | id in rows0 && !Routable(rows0[id]) ensures id in rows {
    }
  }

  lemma AllRouted(rows: map<nat, Doc>)
    ensures forall id :: id in rows ==> (Routable(rows[id]) <==> exists n :: n > 0 && Numbered(rows[id], n))
    ensures forall id, n: nat :: id in rows && n > 0 && Numbered(rows[id], n) ==>
      EntryOf(rows[id]) == Entry(n, rows[id])
  {
    forall id | id in rows
      ensures Routable(rows[id]) <==> exists n :: n > 0 && Numbered(rows[id], n)
      ensures forall n: nat :: n > 0 && Numbered(rows[id], n) ==> EntryOf(rows[id]) == Entry(n, rows[id])
    {
      RoutedTo(rows[id]);
    }
  }

  /** Distinct keys keep rows apart: as many entries as routable rows, each there once. */
  lemma EachOnce(kind: KeyKind, rows: map<nat, Doc>, homes: multiset<Entry>)
    requires Clear(kind, rows, homes)
    ensures forall id :: id in rows && Routable(rows[id]) ==> (homes + multiset(Entries(rows)))[EntryOf(rows[id])] == 1
    ensures forall i, j :: i in rows && j in rows && Routable(rows[i]) && Routable(rows[j]) && i != j ==>
      EntryOf(rows[i]) != EntryOf(rows[j])
  {
    forall id | id in rows && Routable(rows[id]) ensures (homes + multiset(Entries(rows)))[EntryOf(rows[id])] == 1 {
      OwnEntryMatches(kind, rows[id]);
      assert EntryOf(rows[id]) in Entries(rows);
    }
  }
}
