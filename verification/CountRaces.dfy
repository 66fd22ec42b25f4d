/** Concurrent copies and deletes of the messages that share one body, interleaved call by call.

    A copy raises the count before it inserts its document; a delete removes the document, lowers the
    count and, when it read zero, removes the count row and then the body. Between these calls others
    come in. The module says which orders lose a body that a message names. */
module CountRaces {

  datatype Task =
    | Delete(doc: nat)     // has read its message, the document is to go
    | Drop                 // the count is to be lowered
    | Clear                // has read zero, the count row is to go
    | Erase                // the body is to go
    | Copy                 // has read a message, the count is to be raised
    | Insert               // the document is to be inserted

  datatype Row = NoRow | Count(n: int)

  /** One body: the documents naming it, its count row, whether it is stored, and who is at work. */
  datatype Body = Body(docs: set<nat>, row: Row, stored: bool, tasks: map<nat, Task>, next: nat)

  /** Undo: the insert of a copy fails, and the raised count is to be lowered again. */
  datatype Step = Begin(id: nat, t: Task) | Advance(id: nat) | Undo(id: nat) | Abandon(id: nat)

  predicate CanBegin(b: Body, t: Task) {
    (t.Delete? && t.doc in b.docs) || (t.Copy? && b.docs != {})
  }

  function Finish(b: Body, id: nat): Body {
    b.(tasks := b.tasks - {id})
  }

  function On(b: Body, id: nat, t: Task): Body {
    b.(tasks := b.tasks[id := t])
  }

  /** The next call of a task. */
  function Call(b: Body, id: nat, t: Task): Body {
    match t
    case Delete(doc) => On(b.(docs := b.docs - {doc}), id, Drop)
    case Drop =>
      if b.row.NoRow? then On(b, id, Erase)
      else if b.row.n - 1 <= 0 then On(b.(row := Count(b.row.n - 1)), id, Clear)
      else Finish(b.(row := Count(b.row.n - 1)), id)
    case Clear => On(b.(row := NoRow), id, Erase)
    case Erase => Finish(b.(stored := false), id)
    case Copy => if b.row.NoRow? then Finish(b, id) else On(b.(row := Count(b.row.n + 1)), id, Insert)
    case Insert => Finish(b.(docs := b.docs + {b.next}, next := b.next + 1), id)
  }

  function Next(b: Body, step: Step): Body {
    match step
    case Begin(id, t) => if id !in b.tasks && CanBegin(b, t) then On(b, id, t) else b
    case Advance(id) => if id in b.tasks then Call(b, id, b.tasks[id]) else b
    case Undo(id) => if id in b.tasks && b.tasks[id].Insert? then On(b, id, Drop) else b
    case Abandon(id) => Finish(b, id)
  }

  /** No document lacks its body, and the count covers them. */
  predicate Safe(b: Body) {
    b.docs != {} ==> b.stored && b.row.Count? && b.row.n >= |b.docs|
  }

  // ---- counting tasks -------------------------------------------------------------------------

  datatype Kind = Deleting | Dropping | Clearing | Erasing | Copying | Inserting

  function KindOf(t: Task): Kind {
    match t
    case Delete(_) => Deleting
    case Drop => Dropping
    case Clear => Clearing
    case Erase => Erasing
    case Copy => Copying
    case Insert => Inserting
  }

  function Those(tasks: map<nat, Task>, kind: Kind): set<nat> {
    set id | id in tasks && KindOf(tasks[id]) == kind
  }

  function Number(b: Body, kind: Kind): nat {
    |Those(b.tasks, kind)|
  }

  function One(yes: bool): nat {
    if yes then 1 else 0
  }

  lemma NumberWithout(tasks: map<nat, Task>, id: nat, kind: Kind)
    requires id in tasks
    ensures |Those(tasks - {id}, kind)| == |Those(tasks, kind)| - One(KindOf(tasks[id]) == kind)
  {
    assert Those(tasks - {id}, kind) == if KindOf(tasks[id]) == kind then Those(tasks, kind) - {id}
      else Those(tasks, kind);
  }

  lemma NumberWith(tasks: map<nat, Task>, id: nat, t: Task, kind: Kind)
    requires id !in tasks
    ensures |Those(tasks[id := t], kind)| == |Those(tasks, kind)| + One(KindOf(t) == kind)
  {
    assert Those(tasks[id := t], kind) == if KindOf(t) == kind then Those(tasks, kind) + {id} else Those(tasks, kind);
  }

  lemma NumberOn(tasks: map<nat, Task>, id: nat, t: Task, kind: Kind)
    requires id in tasks
    ensures |Those(tasks[id := t], kind)|
      == |Those(tasks, kind)| - One(KindOf(tasks[id]) == kind) + One(KindOf(t) == kind)
  {
    NumberWithout(tasks, id, kind);
    NumberWith(tasks - {id}, id, t, kind);
    assert (tasks - {id})[id := t] == tasks[id := t];
  }

  /** A task of that kind, if there is one. */
  lemma SomeTask(b: Body, kind: Kind) returns (id: nat)
    requires Number(b, kind) > 0
    ensures id in b.tasks && KindOf(b.tasks[id]) == kind
  {
    id :| id in Those(b.tasks, kind);
  }

  // ---- the ledger -----------------------------------------------------------------------------

  /** What the count has to cover: documents, documents to come, and references to be dropped. */
  function Weight(b: Body): nat {
    |b.docs| + Number(b, Inserting) + Number(b, Dropping)
  }

  /** Kept by every step: without a row nothing brings the body back, and with one it is stored. */
  ghost predicate Kept(b: Body) {
    && (forall d :: d in b.docs ==> d < b.next)
    && (Number(b, Erasing) > 0 ==> b.row.NoRow?) && (b.row.Count? ==> b.stored)
  }

  predicate Named(b: Body) {
    b.docs != {} || Number(b, Inserting) > 0
  }

  /** Nobody is about to remove the row of a body that is or will be named, and its count covers all. */
  predicate Sound(b: Body) {
    && (Named(b) ==> b.row.Count? && Number(b, Clearing) == 0)
    && (b.row.Count? && (Named(b) || Number(b, Copying) > 0) ==> b.row.n >= Weight(b))
  }

  lemma SoundIsSafe(b: Body)
    requires Kept(b) && Sound(b)
    ensures Safe(b)
  {
  }

  /** A delete of a document that is gone already, or a copy between the reading of zero and the
      removal of the row. */
  predicate Races(b: Body, step: Step) {
    step.Advance? && step.id in b.tasks && var t := b.tasks[step.id];
      (t.Delete? && t.doc !in b.docs) || (t.Copy? && b.row.Count? && Number(b, Clearing) > 0)
  }

  /** Those races that do harm: the second delete only if the count has nothing to spare. */
  predicate Harmful(b: Body, step: Step) {
    Races(b, step) && b.row.Count?
    && (b.tasks[step.id].Delete? ==> (Named(b) || Number(b, Copying) > 0) && b.row.n == Weight(b))
  }

  lemma NumbersOn(b: Body, id: nat, t: Task)
    requires id in b.tasks
    ensures forall kind :: |Those(b.tasks[id := t], kind)|
                        == Number(b, kind) - One(KindOf(b.tasks[id]) == kind) + One(KindOf(t) == kind)
  {
    forall kind ensures |Those(b.tasks[id := t], kind)|
                     == Number(b, kind) - One(KindOf(b.tasks[id]) == kind) + One(KindOf(t) == kind) {
      NumberOn(b.tasks, id, t, kind);
    }
  }

  lemma NumbersWithout(b: Body, id: nat)
    requires id in b.tasks
    ensures forall kind :: |Those(b.tasks - {id}, kind)| == Number(b, kind) - One(KindOf(b.tasks[id]) == kind)
  {
    forall kind ensures |Those(b.tasks - {id}, kind)| == Number(b, kind) - One(KindOf(b.tasks[id]) == kind) {
      NumberWithout(b.tasks, id, kind);
    }
  }

  lemma NumbersWith(b: Body, id: nat, t: Task)
    requires id !in b.tasks
    ensures forall kind :: |Those(b.tasks[id := t], kind)| == Number(b, kind) + One(KindOf(t) == kind)
  {
    forall kind ensures |Those(b.tasks[id := t], kind)| == Number(b, kind) + One(KindOf(t) == kind) {
      NumberWith(b.tasks, id, t, kind);
    }
  }

  /** How each call moves the numbers. */
  lemma CallNumbers(b: Body, id: nat)
    requires id in b.tasks
    ensures var b' := Call(b, id, b.tasks[id]);
            forall kind :: Number(b', kind) == Number(b, kind) - One(KindOf(b.tasks[id]) == kind)
                             + One(id in b'.tasks && KindOf(b'.tasks[id]) == kind)
  {
    var b' := Call(b, id, b.tasks[id]);
    NumbersWithout(b, id);
    if id in b'.tasks {
      NumbersOn(b, id, b'.tasks[id]);
      assert b'.tasks == b.tasks[id := b'.tasks[id]];
    } else {
      assert b'.tasks == b.tasks - {id};
    }
  }

  lemma NextKeeps(b: Body, step: Step)
    requires Kept(b)
    ensures Kept(Next(b, step))
  {
    match step
    case Begin(id, t) => if id !in b.tasks { NumbersWith(b, id, t); }
    case Advance(id) => if id in b.tasks { CallNumbers(b, id); }
    case Undo(id) => if id in b.tasks { NumbersOn(b, id, Drop); }
    case Abandon(id) => if id in b.tasks { NumbersWithout(b, id); } else { assert b.tasks - {id} == b.tasks; }
  }

  lemma DeleteSoundIff(b: Body, id: nat)
    requires Kept(b) && Sound(b) && id in b.tasks && b.tasks[id].Delete?
    ensures Sound(Call(b, id, b.tasks[id])) <==> !Harmful(b, Advance(id))
  {
    CallNumbers(b, id);
    var doc := b.tasks[id].doc;
    if doc in b.docs {
      assert |b.docs - {doc}| == |b.docs| - 1;
    } else {
      assert b.docs - {doc} == b.docs;
    }
  }

  lemma CopySoundIff(b: Body, id: nat)
    requires Kept(b) && Sound(b) && id in b.tasks && b.tasks[id].Copy?
    ensures Sound(Call(b, id, b.tasks[id])) <==> !Harmful(b, Advance(id))
  {
    CallNumbers(b, id);
  }

  lemma DropSound(b: Body, id: nat)
    requires Kept(b) && Sound(b) && id in b.tasks && (b.tasks[id].Drop? || b.tasks[id].Clear? || b.tasks[id].Erase?)
    ensures Sound(Call(b, id, b.tasks[id]))
  {
    CallNumbers(b, id);
  }

  lemma InsertSound(b: Body, id: nat)
    requires Kept(b) && Sound(b) && id in b.tasks && b.tasks[id].Insert?
    ensures Sound(Call(b, id, b.tasks[id]))
  {
    CallNumbers(b, id);
    assert |b.docs + {b.next}| == |b.docs| + 1;
  }

  lemma CallSoundIff(b: Body, id: nat)
    requires Kept(b) && Sound(b) && id in b.tasks
    ensures Sound(Call(b, id, b.tasks[id])) <==> !Harmful(b, Advance(id))
  {
    match b.tasks[id]
    case Delete(_) => DeleteSoundIff(b, id);
    case Copy => CopySoundIff(b, id);
    case Insert => InsertSound(b, id);
    case _ => DropSound(b, id);
  }

  /** A step keeps the ledger, if and only if it is not a harmful race. */
  lemma StepSoundIff(b: Body, step: Step)
    requires Kept(b) && Sound(b)
    ensures Sound(Next(b, step)) <==> !Harmful(b, step)
  {
    match step
    case Begin(id, t) => if id !in b.tasks { NumbersWith(b, id, t); }
    case Advance(id) => if id in b.tasks { CallSoundIff(b, id); }
    case Undo(id) => if id in b.tasks { NumbersOn(b, id, Drop); }
    case Abandon(id) => if id in b.tasks { NumbersWithout(b, id); } else { assert b.tasks - {id} == b.tasks; }
  }

  // ---- along runs -----------------------------------------------------------------------------

  predicate RaceFree(b: Body, steps: seq<Step>)
    decreases |steps|
  {
    steps != [] ==> !Races(b, steps[0]) && RaceFree(Next(b, steps[0]), steps[1..])
  }

  predicate Unharmed(b: Body, steps: seq<Step>)
    decreases |steps|
  {
    steps != [] ==> !Harmful(b, steps[0]) && Unharmed(Next(b, steps[0]), steps[1..])
  }

  predicate SafeAlong(b: Body, steps: seq<Step>)
    decreases |steps|
  {
    Safe(b) && (steps != [] ==> SafeAlong(Next(b, steps[0]), steps[1..]))
  }

  /** Without a harmful race no message ever lacks its body. */
  lemma {:induction false} UnharmedIsSafe(b: Body, steps: seq<Step>)
    requires Kept(b) && Sound(b) && Unharmed(b, steps)
    ensures SafeAlong(b, steps)
    decreases |steps|
  {
    SoundIsSafe(b);
    if steps != [] {
      NextKeeps(b, steps[0]);
      StepSoundIff(b, steps[0]);
      UnharmedIsSafe(Next(b, steps[0]), steps[1..]);
    }
  }

  lemma {:induction false} RaceFreeIsUnharmed(b: Body, steps: seq<Step>)
    requires RaceFree(b, steps)
    ensures Unharmed(b, steps)
    decreases |steps|
  {
    if steps != [] { RaceFreeIsUnharmed(Next(b, steps[0]), steps[1..]); }
  }

  function Left(b: Body): nat {
    2 * Number(b, Copying) + Number(b, Inserting) + 2 * Number(b, Dropping) + Number(b, Clearing)
  }

  /** Out of balance but not yet visibly so: some step, and no race, brings the loss nearer. */
  lemma LosesGround(b: Body) returns (step: Step)
    requires Kept(b) && !Sound(b) && Safe(b)
    ensures !Races(b, step) && !Sound(Next(b, step)) && Left(Next(b, step)) < Left(b)
  {
    if b.docs != {} && Number(b, Clearing) > 0 {
      step := ByCalling(b, Clearing);
    } else if Number(b, Inserting) > 0 {
      step := ByCalling(b, Inserting);
    } else if b.docs != {} {
      step := ByCalling(b, Dropping);
    } else if Number(b, Clearing) > 0 {
      var id := SomeTask(b, Clearing);
      step := Abandon(id);
      NumbersWithout(b, id);
    } else {
      step := ByCalling(b, Copying);
    }
  }

  /** The call of a task of that kind. */
  lemma ByCalling(b: Body, kind: Kind) returns (step: Step)
    requires Kept(b) && !Sound(b) && Safe(b) && Number(b, kind) > 0
    requires kind == Clearing ==> b.docs != {}
    requires kind == Dropping ==> b.docs != {} && Number(b, Clearing) == 0 && Number(b, Inserting) == 0
    requires kind == Copying ==> !Named(b) && Number(b, Clearing) == 0
    requires kind != Deleting && kind != Erasing
    ensures !Races(b, step) && !Sound(Next(b, step)) && Left(Next(b, step)) < Left(b)
  {
    var id := SomeTask(b, kind);
    step := Advance(id);
    CallNumbers(b, id);
    if kind == Inserting { assert |b.docs + {b.next}| == |b.docs| + 1; }
  }

  lemma {:induction false} Loses(b: Body) returns (steps: seq<Step>)
    requires Kept(b) && !Sound(b)
    ensures RaceFree(b, steps) && !SafeAlong(b, steps)
    decreases Left(b)
  {
    if !Safe(b) { return []; }
    var step := LosesGround(b);
    NextKeeps(b, step);
    var more := Loses(Next(b, step));
    steps := [step] + more;
    assert steps[1..] == more;
  }

  /** No race-free continuation loses a body, if and only if the ledger balances. */
  lemma SafeIffSound(b: Body)
    requires Kept(b)
    ensures (forall steps :: RaceFree(b, steps) ==> SafeAlong(b, steps)) <==> Sound(b)
  {
    if Sound(b) {
      forall steps | RaceFree(b, steps) ensures SafeAlong(b, steps) {
        RaceFreeIsUnharmed(b, steps);
        UnharmedIsSafe(b, steps);
      }
    } else {
      var steps := Loses(b);
    }
  }

  /** So a harmful race can always be followed by a loss, without another race. */
  lemma HarmfulLoses(b: Body, step: Step) returns (steps: seq<Step>)
    requires Kept(b) && Sound(b) && Harmful(b, step)
    ensures RaceFree(Next(b, step), steps) && !SafeAlong(Next(b, step), steps)
  {
    NextKeeps(b, step);
    StepSoundIff(b, step);
    steps := Loses(Next(b, step));
  }

  // ---- the two races, from ordinary states ----------------------------------------------------

  /** Two deletes of one of two messages sharing a body: the other is left without it. */
  lemma DoubleDelete(d: nat, e: nat, next: nat)
    requires d != e && d < next && e < next
    ensures var b := Body({d, e}, Count(2), true, map[1 := Delete(d), 2 := Delete(d)], next);
            Kept(b) && Sound(b) && Harmful(Next(b, Advance(1)), Advance(2))
  {
    var b := Body({d, e}, Count(2), true, map[1 := Delete(d), 2 := Delete(d)], next);
    NoneOf(b);
    CallNumbers(b, 1);
    assert |{d, e}| == 2 && {d, e} - {d} == {e};
  }

  /** A copy of the only message while it is deleted: the copy is left without a body. */
  lemma CopyRacesLastDelete(d: nat, next: nat)
    requires d < next
    ensures var b := Body({d}, Count(1), true, map[1 := Delete(d), 2 := Copy], next);
            Kept(b) && Sound(b) && Harmful(Next(Next(b, Advance(1)), Advance(1)), Advance(2))
  {
    var b := Body({d}, Count(1), true, map[1 := Delete(d), 2 := Copy], next);
    assert Those(b.tasks, Inserting) == {} && Those(b.tasks, Dropping) == {} && Those(b.tasks, Clearing) == {};
    assert Those(b.tasks, Erasing) == {};
    CallNumbers(b, 1);
    var b1 := Next(b, Advance(1));
    CallNumbers(b1, 1);
  }

  lemma NoneOf(b: Body)
    requires forall id :: id in b.tasks ==> b.tasks[id].Delete?
    ensures forall kind :: kind != Deleting ==> Number(b, kind) == 0
  {
    forall kind | kind != Deleting ensures Number(b, kind) == 0 {
      assert Those(b.tasks, kind) == {};
    }
  }
}
