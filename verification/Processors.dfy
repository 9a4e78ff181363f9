/** Background processors: any number of instances (a leader, a zombie that lost the lock, a successor) over one progress
    row, interleaved statement by statement with every other transaction of the store
    (packages/event-poller/src/EventProcessor.ts). */
module Processors {
  import opened Options
  import opened Events
  import opened LogPositions
  import opened Store
  import opened StoreInvariant
  import opened Pages
  import P = Progress
  import RS = ReadSnapshot

  /** A processor: its row, what it selects, and for a view the state its handler builds. */
  datatype Processor<!V> = Processor(id: string, wants: Event -> bool, initial: V, apply: (V, Row) -> V)

  function Applied<V>(p: Processor<V>, v: V, rows: seq<Row>): V {
    if rows == [] then v else p.apply(Applied(p, v, rows[..|rows| - 1]), rows[|rows| - 1])
  }

  /** Each row once, in order: whatever the states between the rows are, the last of them. */
  lemma {:induction false} AppliedStepByStep<V>(p: Processor<V>, rows: seq<Row>, vs: seq<V>)
    requires |vs| == |rows| + 1 && forall k :: 0 <= k < |rows| ==> vs[k + 1] == p.apply(vs[k], rows[k])
    ensures Applied(p, vs[0], rows) == vs[|rows|]
  {
    if rows != [] {
      AppliedStepByStep(p, rows[..|rows| - 1], vs[..|rows|]);
    }
  }

  /** A view that keeps what it was given. */
  ghost predicate AppendsRows(p: Processor<seq<Row>>) {
    p.initial == [] && forall v, r :: p.apply(v, r) == v + [r]
  }

  lemma {:induction false} AppliedIsAppended(p: Processor<seq<Row>>, v: seq<Row>, rows: seq<Row>)
    requires AppendsRows(p)
    ensures Applied(p, v, rows) == v + rows
  {
    if rows == [] {
      assert v + rows == v;
    } else {
      AppliedIsAppended(p, v, rows[..|rows| - 1]);
    }
  }

  lemma {:induction false} AppliedConcat<V>(p: Processor<V>, v: V, a: seq<Row>, b: seq<Row>)
    ensures Applied(p, v, a + b) == Applied(p, Applied(p, v, a), b)
  {
    if b == [] {
      assert a + b == a;
    } else {
      assert (a + b)[..|a + b| - 1] == a + b[..|b| - 1];
      AppliedConcat(p, v, a, b[..|b| - 1]);
    }
  }

  /** What the end of an atomic batch leaves: the cursor and the handler's writes together, when the cursor is still where
      the batch started; else nothing. */
  function Committing<V>(p: Processor<V>, table: P.Table, view: V, from: Cursor, batch: seq<Row>, written: V): (P.Table, V)
    requires batch != []
  {
    if p.id in table && table[p.id].cursor == from then (P.Moved(table, p.id, from, batch[|batch| - 1].At()), written)
    else (table, view)
  }

  /** The committed events the processor selects up to a cursor. */
  ghost predicate UpTo<V>(db: Db, p: Processor<V>, cursor: Cursor, r: Row) {
    IsCommitted(db, r) && p.wants(r.event) && r.At().AtOrBefore(cursor)
  }

  ghost predicate Closed(db: Db, cursor: Cursor) {
    forall x :: 1 <= x <= cursor.xid ==> Finished(db, x)
  }

  /** A batch a fetch returned: all that was selected from where it started to its last event, then and ever after. */
  ghost predicate BatchOk<V>(db: Db, p: Processor<V>, from: Cursor, batch: seq<Row>) {
    && batch != [] && Ordered(batch)
    && Closed(db, batch[|batch| - 1].At())
    && (forall r :: r in batch ==> IsCommitted(db, r) && p.wants(r.event) && from.Before(r.At()))
    && (forall r :: UpTo(db, p, batch[|batch| - 1].At(), r) && from.Before(r.At()) ==> r in batch)
  }

  lemma FetchedIsOk<V>(db: Db, p: Processor<V>, now: RS.Parts, from: Cursor, limit: nat, batch: seq<Row>)
    requires XidsOk(db) && IsPage(db, now, p.wants, from, limit, batch) && batch != []
    ensures BatchOk(db, p, from, batch)
  {
    SettledIsFinished(db, None, now);
    var last := batch[|batch| - 1];
    assert last in batch;
    forall r | UpTo(db, p, last.At(), r) && from.Before(r.At()) ensures r in batch {
      if r !in batch {
        assert Selects(db, now, p.wants, from, r);
        assert false;
      }
    }
  }

  lemma BatchStays<V>(db: Db, a: Action, p: Processor<V>, from: Cursor, batch: seq<Row>)
    requires XidsOk(db) && Enabled(db, a) && BatchOk(db, p, from, batch)
    ensures BatchOk(Apply(db, a), p, from, batch)
  {
    var db' := Apply(db, a);
    StepIsLater(db, a);
    var last := batch[|batch| - 1];
    ClosedStays(db, a, last.At());
    forall r | UpTo(db', p, last.At(), r) && from.Before(r.At()) ensures r in batch {
      UpToStays(db, a, p, last.At(), r);
    }
  }

  lemma ClosedStays(db: Db, a: Action, cursor: Cursor)
    requires XidsOk(db) && Enabled(db, a) && Closed(db, cursor)
    ensures Closed(Apply(db, a), cursor)
  {
    StepIsLater(db, a);
    forall x | 1 <= x <= cursor.xid ensures Finished(Apply(db, a), x) {
      assert Finished(db, x);
    }
  }

  /** Nothing selected ever appears at or before a closed cursor. */
  lemma UpToStays<V>(db: Db, a: Action, p: Processor<V>, cursor: Cursor, r: Row)
    requires XidsOk(db) && Enabled(db, a) && Closed(db, cursor)
    ensures UpTo(Apply(db, a), p, cursor, r) <==> UpTo(db, p, cursor, r)
  {
    var db' := Apply(db, a);
    StepIsLater(db, a);
    StepKeepsXids(db, a);
    if IsCommitted(db', r) && r.At().AtOrBefore(cursor) {
      assert 1 <= r.xid <= cursor.xid;
      assert Finished(db, r.xid);
      assert IsCommitted(db, r);
    }
  }

  /** Extending a cursor by a batch that starts there. */
  lemma UpToExtends<V>(db: Db, p: Processor<V>, from: Cursor, batch: seq<Row>, done: seq<Row>)
    requires BatchOk(db, p, from, batch) && Ordered(done)
    requires forall r :: r in done <==> UpTo(db, p, from, r)
    ensures var to := batch[|batch| - 1].At();
            from.Before(to) && Ordered(done + batch) && forall r :: r in done + batch <==> UpTo(db, p, to, r)
  {
    var to := batch[|batch| - 1].At();
    assert batch[|batch| - 1] in batch;
    if done != [] {
      assert done[|done| - 1] in done;
      forall r | r in batch ensures done[|done| - 1].At().Before(r.At()) {
        BeforeIsTransitive(done[|done| - 1].At(), from, r.At());
      }
    }
    OrderedConcat(done, batch);
    forall r | UpTo(db, p, to, r) ensures r in done + batch {
      if !from.Before(r.At()) {
        assert UpTo(db, p, from, r);
      }
    }
    forall r | r in done + batch ensures UpTo(db, p, to, r) {
      if r in batch {
        LastIsHighest(batch, r);
      } else {
        BeforeIsTransitive(r.At(), from, to);
      }
    }
  }
}
