/** What was stored is what is fetched, over whole runs of store operations. */
module Contents {
  import opened Database
  import opened MailStore
  import opened RefCounts

  /** The message keeps its header fields and its body, byte for byte. */
  ghost predicate SameContent(db: Db, db': Db, k: Key) {
    && k in db.messages && k in db'.messages
    && db'.messages[k].blob == db.messages[k].blob && db'.messages[k].info == db.messages[k].info
    && var key := db.messages[k].blob;
       key in db.blobs && key in db'.blobs && db'.blobs[key] == db.blobs[key]
  }

  /** Bodies that stay are not overwritten. */
  lemma BodiesStay(db: Db, op: Op, key: string)
    requires Exact(db) && Harmless(db, op) && key in db.refs && key in Step(db, op).blobs
    ensures key in db.blobs && Step(db, op).blobs[key] == db.blobs[key]
  {
    if op.DeleteMailbox? || op.DeleteAccount? || op.Delete? { FewerBodies(db, op); }
  }

  lemma FewerBodies(db: Db, op: Op)
    requires op.DeleteMailbox? || op.DeleteAccount? || op.Delete?
    ensures forall key :: key in Step(db, op).blobs ==> key in db.blobs && Step(db, op).blobs[key] == db.blobs[key]
  {
  }

  lemma FieldsStay(db: Db, op: Op, k: Key)
    requires Exact(db) && k in db.messages && k in Step(db, op).messages
    ensures var m, m' := db.messages[k], Step(db, op).messages[k]; m'.blob == m.blob && m'.info == m.info
  {
  }

  lemma StepKeepsContent(db: Db, op: Op, k: Key)
    requires Exact(db) && Harmless(db, op) && k in db.messages && k in Step(db, op).messages
    ensures SameContent(db, Step(db, op), k)
  {
    StepKeepsExact(db, op);
    FieldsStay(db, op, k);
    ReferrersPositive(db.messages, k);
    ReferrersPositive(Step(db, op).messages, k);
    BodiesStay(db, op, db.messages[k].blob);
  }

  /** An id is never handed out again. */
  lemma StepNeverReturns(db: Db, op: Op, k: Key)
    requires k.id < db.nextId && k !in db.messages
    ensures k.id < Step(db, op).nextId && k !in Step(db, op).messages
  {
  }

  lemma {:induction false} NeverReturns(db: Db, ops: seq<Op>, k: Key)
    requires k.id < db.nextId && k !in db.messages
    ensures k !in Run(db, ops).messages
    decreases |ops|
  {
    if ops != [] {
      StepNeverReturns(db, ops[0], k);
      NeverReturns(Step(db, ops[0]), ops[1..], k);
    }
  }

  /** As long as a message is there, whatever is done to it and to others, its content is the same. */
  lemma {:induction false} RunKeepsContent(db: Db, ops: seq<Op>, k: Key)
    requires Exact(db) && HarmlessRun(db, ops) && k in db.messages && k in Run(db, ops).messages
    ensures SameContent(db, Run(db, ops), k)
    decreases |ops|
  {
    ReferrersPositive(db.messages, k);
    if ops != [] {
      var next := Step(db, ops[0]);
      StepKeepsExact(db, ops[0]);
      if k !in next.messages {
        StepGrows(db, ops[0]);
        NeverReturns(next, ops[1..], k);
      }
      StepKeepsContent(db, ops[0], k);
      RunKeepsContent(next, ops[1..], k);
    }
  }

  lemma StepGrows(db: Db, op: Op)
    ensures Step(db, op).nextId >= db.nextId
  {
  }

  /** What was appended is what is fetched, after any run, as long as the message is there. */
  lemma AppendedIsFetched(db: Db, mb: Key, key: string, body: string, info: Info, flags: seq<string>, ops: seq<Op>)
    requires Exact(db) && mb in db.mailboxes && key !in db.refs
    requires HarmlessRun(db, [Append(mb, key, body, info, flags)] + ops)
    requires Key(mb.account, db.nextId) in Run(db, [Append(mb, key, body, info, flags)] + ops).messages
    ensures var after := Run(db, [Append(mb, key, body, info, flags)] + ops);
            var m := after.messages[Key(mb.account, db.nextId)];
            m.blob == key && m.info == info && key in after.blobs && after.blobs[key] == body
  {
    var op := Append(mb, key, body, info, flags);
    assert ([op] + ops)[1..] == ops;
    StepKeepsExact(db, op);
    RunKeepsContent(Step(db, op), ops, Key(mb.account, db.nextId));
  }

  /** A copy has the content of what was copied, and is not changed by what happens to that. */
  lemma CopyIsFetched(db: Db, k: Key, dest: nat, ops: seq<Op>)
    requires Exact(db) && k in db.messages && Key(k.account, dest) in db.mailboxes
    requires HarmlessRun(db, [Copy(k, dest)] + ops)
    requires Key(k.account, db.nextId) in Run(db, [Copy(k, dest)] + ops).messages
    ensures var after := Run(db, [Copy(k, dest)] + ops);
            var m, source := after.messages[Key(k.account, db.nextId)], db.messages[k];
            && m.info == source.info && m.blob in after.blobs && source.blob in db.blobs
            && after.blobs[m.blob] == db.blobs[source.blob]
  {
    var op := Copy(k, dest);
    assert ([op] + ops)[1..] == ops;
    StepKeepsExact(db, op);
    ReferrersPositive(db.messages, k);
    RunKeepsContent(Step(db, op), ops, Key(k.account, db.nextId));
  }
}
