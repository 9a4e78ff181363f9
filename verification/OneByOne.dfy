/** Runs in which one transaction writes at a time, for the statements about runs to have examples: each lemma takes a state
    some run leads to, and a transaction some statements further. */
module OneByOne {
  import opened Options
  import opened Events
  import opened WriterLocks
  import opened LogPositions
  import opened Store
  import opened StoreRuns
  import RS = ReadSnapshot

  /** Some run leads to this state. */
  ghost predicate Reached(db: Db) {
    exists run, steps :: IsRun(run, steps) && run[|run| - 1] == db
  }

  lemma Next(db: Db, step: Action, db': Db)
    requires Reached(db) && Enabled(db, step) && Apply(db, step) == db'
    ensures Reached(db')
  {
    var run, steps :| IsRun(run, steps) && run[|run| - 1] == db;
    assert IsRun(run + [db'], steps + [step]);
    assert (run + [db'])[|run + [db']| - 1] == db';
  }

  lemma Starts()
    ensures Reached(EMPTY)
  {
    assert IsRun([EMPTY], []);
    assert [EMPTY][|[EMPTY]| - 1] == EMPTY;
  }

  /** A command that has done nothing yet. */
  const BEGUN := Tx(true, Running, None, None, [], {}, Idle, [])

  lemma Begins(db: Db, t: nat)
    requires Reached(db) && t !in db.txs
    ensures Reached(With(db, t, BEGUN))
  {
    Next(db, Begin(t, true), With(db, t, BEGUN));
  }

  /** A command between its statements, before it writes. */
  predicate IsReading(db: Db, t: nat) {
    IsRunning(db, t) && db.txs[t].command && db.txs[t].xid.None? && db.txs[t].snapshot.None? && db.txs[t].call.Idle?
    && db.txs[t].locks == {} && db.txs[t].appended == []
  }

  lemma Reads(db: Db, t: nat, query: Query, now: RS.Parts, rows: seq<Row>)
    requires Reached(db) && IsReading(db, t) && TakenIn(db, None, now) && Ordered(rows)
    requires forall r :: r in rows <==> Visible(db, None, r) && QueryMatches(query, r.event)
    ensures var tx := db.txs[t]; Reached(With(db, t, tx.(loads := tx.loads + [Read(query, now, now.xmin, rows)])))
  {
    var tx := db.txs[t];
    var taken := With(db, t, tx.(snapshot := Some(now)));
    Next(db, TakeSnapshot(t, now), taken);
    var done := With(db, t, tx.(loads := tx.loads + [Read(query, now, now.xmin, rows)]));
    StillTaken(db, t, taken, now);
    forall r ensures Visible(taken, None, r) <==> Visible(db, None, r) {
    }
    assert done.txs == Apply(taken, RunRead(t, query, now, rows)).txs;
    Next(taken, RunRead(t, query, now, rows), done);
  }

  lemma StillTaken(db: Db, t: nat, taken: Db, now: RS.Parts)
    requires IsRunning(db, t) && IsRunning(taken, t) && taken == With(db, t, taken.txs[t]) && TakenIn(db, None, now)
    ensures TakenIn(taken, None, now)
  {
    forall x: nat ensures Finished(taken, x) <==> Finished(db, x) {
    }
  }

  /** Nobody else holds a lock. */
  predicate HasTheLocks(db: Db, t: nat) {
    forall u :: u in db.txs && u != t && db.txs[u].status == Running ==> db.txs[u].locks == {}
  }

  function AcceptedAt(db: Db, t: nat, req: Request): Db
    requires t in db.txs
  {
    With(db, t, db.txs[t].(locks := Needed(req), call := Accepted(req, req.events), appended := [req]))
  }

  /** The check finds nothing, and the append is accepted. */
  lemma Accepts(db: Db, t: nat, req: Request)
    requires Reached(db) && IsReading(db, t) && HasTheLocks(db, t) && req.events != [] && VerdictOf(db, None, req.condition) == Ok
    ensures Reached(AcceptedAt(db, t, req))
  {
    var tx := db.txs[t].(call := Locking(req));
    Next(db, StartAppend(t, req), With(db, t, tx));
    assert tx.(locks := {}) == tx && {} + Needed(req) == Needed(req);
    Locks(db, t, tx, {}, Needed(req));
    Passes(db, t, req, With(db, t, tx.(locks := Needed(req))));
  }

  lemma Passes(db: Db, t: nat, req: Request, locked: Db)
    requires IsReading(db, t) && VerdictOf(db, None, req.condition) == Ok
    requires locked == With(db, t, db.txs[t].(call := Locking(req), locks := Needed(req))) && Reached(locked)
    ensures Reached(AcceptedAt(db, t, req))
  {
    SameVerdict(db, t, locked, req.condition);
    assert [] + [req] == [req];
    assert Apply(locked, Check(t)).txs == AcceptedAt(db, t, req).txs;
    Next(locked, Check(t), AcceptedAt(db, t, req));
  }

  lemma SameVerdict(db: Db, t: nat, locked: Db, c: Condition)
    requires IsRunning(db, t) && IsRunning(locked, t) && locked == With(db, t, locked.txs[t]) && VerdictOf(db, None, c) == Ok
    ensures VerdictOf(locked, None, c) == Ok
  {
    forall r ensures Visible(locked, None, r) <==> Visible(db, None, r) {
    }
  }

  lemma {:induction false} Locks(db: Db, t: nat, tx: Tx, held: set<Lock<Key>>, todo: set<Lock<Key>>)
    requires IsRunning(db, t) && HasTheLocks(db, t) && tx.status == Running && tx.call.Locking? && todo <= Needed(tx.call.request)
    requires Reached(With(db, t, tx.(locks := held)))
    ensures Reached(With(db, t, tx.(locks := held + todo)))
    decreases |todo|
  {
    if todo == {} {
      assert held + todo == held;
    } else {
      assert (forall l :: l !in todo) ==> todo == {};
      var l :| l in todo;
      OneLock(db, t, tx.(locks := held), l);
      Locks(db, t, tx, held + {l}, todo - {l});
      assert held + {l} + (todo - {l}) == held + todo;
    }
  }

  lemma OneLock(db: Db, t: nat, tx: Tx, l: Lock<Key>)
    requires IsRunning(db, t) && HasTheLocks(db, t) && tx.status == Running && tx.call.Locking? && l in Needed(tx.call.request)
    requires Reached(With(db, t, tx))
    ensures Reached(With(db, t, tx.(locks := tx.locks + {l})))
  {
    var before, after := With(db, t, tx), With(db, t, tx.(locks := tx.locks + {l}));
    assert Apply(before, TakeLock(t, l)).txs == after.txs;
    Next(before, TakeLock(t, l), after);
  }

  /** With its one event inserted. */
  function WrittenAt(db: Db, t: nat, req: Request, e: Event): Db
    requires t in db.txs
  {
    With(db, t, db.txs[t].(xid := Some(db.nextXid), locks := Needed(req), appended := [req]))
      .(owners := db.owners[db.nextXid := t], nextXid := db.nextXid + 1, nextPos := db.nextPos + 1, rows := db.rows + {Row(db.nextXid, db.nextPos, e)})
  }

  lemma Writes(db: Db, t: nat, req: Request, e: Event)
    requires Reached(db) && IsReading(db, t) && HasTheLocks(db, t) && req.events == [e] && VerdictOf(db, None, req.condition) == Ok
    ensures Reached(WrittenAt(db, t, req, e))
  {
    Accepts(db, t, req);
    Inserts(db, t, req, e);
  }

  lemma Inserts(db: Db, t: nat, req: Request, e: Event)
    requires IsReading(db, t) && req.events == [e] && Reached(AcceptedAt(db, t, req))
    ensures Reached(WrittenAt(db, t, req, e))
  {
    var accepted, written := AcceptedAt(db, t, req), WrittenAt(db, t, req, e);
    var tx := accepted.txs[t].(xid := Some(db.nextXid));
    var known := With(accepted, t, tx).(owners := db.owners[db.nextXid := t], nextXid := db.nextXid + 1);
    Next(accepted, AssignXid(t), known);
    var inserted := With(written, t, tx.(call := Accepted(req, [])));
    assert [e][1..] == [];
    assert Apply(known, Insert(t)).txs == inserted.txs;
    Next(known, Insert(t), inserted);
    assert Apply(inserted, EndAppend(t)).txs == written.txs;
    Next(inserted, EndAppend(t), written);
  }

  function CommittedAt(db: Db, t: nat): Db
    requires t in db.txs
  {
    With(db, t, db.txs[t].(status := Committed, locks := {}))
  }

  lemma Commits(db: Db, t: nat)
    requires Reached(db) && IsRunning(db, t) && db.txs[t].call.Idle?
    ensures Reached(CommittedAt(db, t))
  {
    Next(db, Commit(t), CommittedAt(db, t));
  }

  /** An append without a condition, in a transaction of its own. */
  function Unconditioned(e: Event): Request {
    Request([e], Condition(ZERO, NO_CONDITION, NO_CONDITION, None, true))
  }

  function AppendedAt(db: Db, t: nat, e: Event): Db {
    CommittedAt(WrittenAt(With(db, t, BEGUN), t, Unconditioned(e), e), t)
  }

  lemma Appends(db: Db, t: nat, e: Event)
    requires Reached(db) && t !in db.txs && HasTheLocks(db, t)
    ensures Reached(AppendedAt(db, t, e))
  {
    Begins(db, t);
    var begun := With(db, t, BEGUN);
    assert VerdictOf(begun, None, Unconditioned(e).condition) == Ok;
    Writes(begun, t, Unconditioned(e), e);
    Commits(WrittenAt(begun, t, Unconditioned(e), e), t);
  }
}
