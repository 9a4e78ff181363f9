/** The event store used directly: a read made to decide, and an append under the condition that read implies
    (packages/eventstore/src/EventStore.ts, `readToDecide`; packages/eventstore/src/AppendCondition.ts). The read and the
    append may be statements of different transactions. */
module DirectUse {
  import opened Options
  import opened Events
  import opened LogPositions
  import opened Store
  import opened StoreInvariant
  import opened StoreRuns
  import opened Commands
  import opened CommandProofs
  import P = Projection
  import RS = ReadSnapshot

  /** What the read could see: its cursor and its snapshot. */
  datatype DecisionPosition = DecisionPosition(logPosition: LogPosition, seen: Option<string>)

  function DecisionPositionOf(read: Read): DecisionPosition {
    DecisionPosition(LoadOne(read).logPosition, LoadOne(read).seen)
  }

  function FailIfEventsMatch(query: Query, after: Option<DecisionPosition>, idempotency: Option<Query>, firstWrite: bool): Condition {
    Condition(if after.Some? then after.value.logPosition else ZERO, query,
              if idempotency.Some? then idempotency.value else NO_CONDITION,
              if after.Some? && after.value.seen.Some? then RS.Parse(after.value.seen.value) else None, firstWrite)
  }

  function DecisionCondition(read: Read, idempotency: Option<Query>, firstWrite: bool): Condition {
    FailIfEventsMatch(read.query, Some(DecisionPositionOf(read)), idempotency, firstWrite)
  }

  /** The condition is on the query that was read, with the caller's key, and is the transaction's first write if asked. */
  lemma DecisionIsOnItsQuery(read: Read, idempotency: Option<Query>, firstWrite: bool)
    ensures var c := DecisionCondition(read, idempotency, firstWrite);
            && c.concurrency == read.query && c.firstWrite == firstWrite
            && c.idempotency == if idempotency.Some? then idempotency.value else Query([], false)
  {
  }

  lemma DecisionGuards(read: Read, idempotency: Option<Query>, firstWrite: bool)
    requires ProperRead(read)
    ensures Guards(DecisionCondition(read, idempotency, firstWrite), read)
  {
    LoadOneCovers(read);
    RS.ParseFormat(read.seen);
    var c := DecisionCondition(read, idempotency, firstWrite);
    forall r: Row | r.xid >= 1 && r.pos >= 1 && QueryMatches(read.query, r.event) && !Conflicts(c, None, r)
      ensures RS.Sees(read.seen, r.xid) || r.xid < read.settledBelow
    {
      assert ConditionMatches(LoadOne(read).boundary, r.event);
      if IsAfter(c.after, r.At()) {
        RS.UnseenIsNotSeen(read.seen, r.xid);
      }
    }
  }

  /** In every run: from the moment the append is accepted until its transaction ends, what others committed for the query is
      exactly what the read returned of others, whether the read and the append are statements of one transaction or not. */
  lemma DecisionIsCurrent(run: seq<Db>, steps: seq<Action>, i: nat, reader: nat, writer: nat, read: Read, req: Request, idempotency: Option<Query>, firstWrite: bool)
    requires IsRun(run, steps) && i < |run| && ProperRead(read)
    requires reader in run[i].txs && read in run[i].txs[reader].loads
    requires IsRunning(run[i], writer) && req in run[i].txs[writer].appended
    requires req.condition == DecisionCondition(read, idempotency, firstWrite)
    ensures forall r: Row :: Some(r.xid) != run[i].txs[reader].xid ==>
              (r in read.rows <==> IsCommitted(run[i], r) && QueryMatches(read.query, r.event))
  {
    EveryStateIsOk(run, steps, i);
    DecisionGuards(read, idempotency, firstWrite);
    assert StillHolds(run[i], req);
    assert ReadOk(run[i], run[i].txs[reader], read);
  }

  /** The append is refused as a conflict exactly for a committed event the query matches, after the read's cursor, that the
      read's snapshot could not see. */
  lemma RefusedExactlyForTheUnseen(db: Db, read: Read, idempotency: Option<Query>, firstWrite: bool)
    requires ProperRead(read)
    ensures var c := DecisionCondition(read, idempotency, firstWrite);
            (exists r :: Visible(db, None, r) && Conflicts(c, None, r))
            <==> (exists r :: IsCommitted(db, r) && QueryMatches(read.query, r.event) && !RS.Sees(read.seen, r.xid)
                              && IsAfter(DecisionPositionOf(read).logPosition, r.At()))
  {
    var c := DecisionCondition(read, idempotency, firstWrite);
    RS.ParseFormat(read.seen);
    ReadAndConditionAgree(read.query);
    forall r ensures Visible(db, None, r) && Conflicts(c, None, r)
                     <==> IsCommitted(db, r) && QueryMatches(read.query, r.event) && !RS.Sees(read.seen, r.xid) && IsAfter(c.after, r.At())
    {
      RS.UnseenIsNotSeen(read.seen, r.xid);
    }
  }

  /** In every run: of what the query matches, the append is refused exactly for an event that was committed since the read's
      snapshot and was not settled when the read ran, unless it is the reader's own, of an id the snapshot knew. */
  lemma RefusedExactlyForWhatCameSince(run: seq<Db>, steps: seq<Action>, i: nat, j: nat, reader: nat, read: Read, idempotency: Option<Query>, firstWrite: bool)
    requires IsRun(run, steps) && i <= j < |run| && ProperRead(read)
    requires reader in run[i].txs && TakenIn(run[i], run[i].txs[reader].xid, read.seen)
    requires reader in run[j].txs && read in run[j].txs[reader].loads
    ensures var c := DecisionCondition(read, idempotency, firstWrite);
            (exists r :: Visible(run[j], None, r) && Conflicts(c, None, r))
            <==> (exists r :: IsCommitted(run[j], r) && !IsCommitted(run[i], r) && QueryMatches(read.query, r.event) && r.xid >= read.settledBelow
                              && !IsKnownOwn(run[i].txs[reader], read.seen, r))
  {
    RefusedExactlyForTheUnseen(run[j], read, idempotency, firstWrite);
    EveryStateIsOk(run, steps, j);
    forall r | IsCommitted(run[j], r) && QueryMatches(read.query, r.event)
      ensures RS.Sees(read.seen, r.xid) <==> IsCommitted(run[i], r) || IsKnownOwn(run[i].txs[reader], read.seen, r)
      ensures IsAfter(DecisionPositionOf(read).logPosition, r.At()) && !IsCommitted(run[i], r) ==> r.xid >= read.settledBelow
      ensures r.xid >= read.settledBelow ==> IsAfter(DecisionPositionOf(read).logPosition, r.At())
    {
      SeenIsCommittedBefore(run, steps, i, j, run[i].txs[reader], read.seen, r);
      SettledIsNotAfter(run[j], run[j].txs[reader], read, r);
    }
  }

  /** A row of the reading transaction, which had its id when the snapshot was taken: the snapshot sees it. */
  predicate IsKnownOwn(tx: Tx, seen: RS.Parts, r: Row) {
    tx.xid == Some(r.xid) && r.xid < seen.xmax
  }

  lemma SeenIsCommittedBefore(run: seq<Db>, steps: seq<Action>, i: nat, j: nat, tx: Tx, seen: RS.Parts, r: Row)
    requires IsRun(run, steps) && i <= j < |run| && TakenIn(run[i], tx.xid, seen) && IsCommitted(run[j], r)
    ensures RS.Sees(seen, r.xid) <==> IsCommitted(run[i], r) || IsKnownOwn(tx, seen, r)
  {
    XidsInRun(run, steps, i);
    EveryStateIsOk(run, steps, j);
    LaterInRun(run, steps, i, j);
    SettledIsFinished(run[i], tx.xid, seen);
    if Finished(run[i], r.xid) {
      FinishedIsFinal(run[i], run[j], r);
    }
  }

  /** The read's cursor is its last settled row. */
  lemma SettledIsNotAfter(db: Db, tx: Tx, read: Read, r: Row)
    requires XidsOk(db) && RowsOk(db) && ReadOk(db, tx, read) && IsCommitted(db, r) && QueryMatches(read.query, r.event)
    ensures IsAfter(LoadOne(read).logPosition, r.At()) <==> r.xid >= read.settledBelow
  {
    CursorIsSettled(read.rows, read.settledBelow);
    forall k | 0 <= k < |read.rows| ensures read.rows[k].xid >= 1 {
      assert read.rows[k] in read.rows;
    }
    P.CursorIsTheLastSettled(read.rows, read.settledBelow);
  }
}
