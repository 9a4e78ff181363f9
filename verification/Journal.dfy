/** What a transaction leaves in the log: its accepted appends, whole and in order, and nothing else
    (packages/db-migrations/sql/V6__crablet_append_sees_the_read.sql). */
module Journal {
  import opened Options
  import opened Events
  import opened Store
  import opened StoreInvariant
  import opened StoreRuns

  function EventsOf(rows: seq<Row>): (es: seq<Event>)
    ensures |es| == |rows| && forall i :: 0 <= i < |rows| ==> es[i] == rows[i].event
  {
    seq(|rows|, i requires 0 <= i < |rows| => rows[i].event)
  }

  /** The events of the appends, one after the other. */
  function Flat(reqs: seq<Request>): seq<Event> {
    if reqs == [] then [] else Flat(reqs[..|reqs| - 1]) + reqs[|reqs| - 1].events
  }

  /** What the call in progress has still to insert. */
  function Left(tx: Tx): seq<Event> {
    if tx.call.Accepted? then tx.call.left else []
  }

  /** `rows` are the rows of the transaction, in log order: its accepted appends up to what is left to insert. */
  ghost predicate Wrote(db: Db, t: nat, rows: seq<Row>)
    requires t in db.txs
  {
    && Ordered(rows)
    && (forall r :: r in rows <==> r in db.rows && db.txs[t].xid == Some(r.xid))
    && EventsOf(rows) + Left(db.txs[t]) == Flat(db.txs[t].appended)
  }

  ghost predicate JournalOk(db: Db) {
    forall t :: t in db.txs ==> exists rows :: Wrote(db, t, rows)
  }

  lemma InsertKeepsWrote(db: Db, a: Action, rows: seq<Row>)
    requires XidsOk(db) && RowsOk(db) && a.Insert? && Enabled(db, a) && Wrote(db, a.t, rows)
    ensures Wrote(Apply(db, a), a.t, rows + [Row(db.txs[a.t].xid.value, db.nextPos, db.txs[a.t].call.left[0])])
  {
    var tx := db.txs[a.t];
    var row := Row(tx.xid.value, db.nextPos, tx.call.left[0]);
    assert forall i :: 0 <= i < |rows| ==> rows[i] in rows && rows[i].pos < db.nextPos;
    assert EventsOf(rows + [row]) == EventsOf(rows) + [row.event];
    assert tx.call.left == [row.event] + tx.call.left[1..];
    assert EventsOf(rows + [row]) + tx.call.left[1..] == EventsOf(rows) + tx.call.left;
  }

  lemma AssignKeepsWrote(db: Db, a: Action, rows: seq<Row>)
    requires XidsOk(db) && RowsOk(db) && a.AssignXid? && Enabled(db, a) && Wrote(db, a.t, rows)
    ensures Wrote(Apply(db, a), a.t, rows)
  {
    assert forall r :: r in db.rows ==> r.xid != db.nextXid;
  }

  lemma CheckKeepsWrote(db: Db, a: Action, rows: seq<Row>)
    requires a.Check? && Enabled(db, a) && Wrote(db, a.t, rows)
    ensures Wrote(Apply(db, a), a.t, rows)
  {
    var tx := db.txs[a.t];
    assert (tx.appended + [tx.call.request])[..|tx.appended|] == tx.appended;
    assert EventsOf(rows) + [] == EventsOf(rows);
  }

  /** A step that changes neither the rows of `t` nor its appends. */
  lemma OtherKeepsWrote(db: Db, a: Action, t: nat, rows: seq<Row>)
    requires XidsOk(db) && RowsOk(db) && Enabled(db, a) && t in db.txs && Wrote(db, t, rows)
    requires a.t == t ==> !a.Insert? && !a.AssignXid? && !a.Check?
    ensures Wrote(Apply(db, a), t, rows)
  {
    var db' := Apply(db, a);
    assert db'.txs[t].xid == db.txs[t].xid && db'.txs[t].appended == db.txs[t].appended;
    assert Left(db'.txs[t]) == Left(db.txs[t]);
    assert forall r :: r in db'.rows && r !in db.rows ==> db.txs[a.t].xid == Some(r.xid);
  }

  lemma StepKeepsWrote(db: Db, a: Action, t: nat, rows: seq<Row>) returns (after: seq<Row>)
    requires XidsOk(db) && RowsOk(db) && Enabled(db, a) && t in db.txs && Wrote(db, t, rows)
    ensures Wrote(Apply(db, a), t, after)
  {
    after := rows;
    if a.t != t || !(a.Insert? || a.AssignXid? || a.Check?) {
      OtherKeepsWrote(db, a, t, rows);
    } else if a.Insert? {
      InsertKeepsWrote(db, a, rows);
      after := rows + [Row(db.txs[t].xid.value, db.nextPos, db.txs[t].call.left[0])];
    } else if a.AssignXid? {
      AssignKeepsWrote(db, a, rows);
    } else {
      CheckKeepsWrote(db, a, rows);
    }
  }

  lemma StepKeepsJournal(db: Db, a: Action)
    requires Inv(db) && JournalOk(db) && Enabled(db, a)
    ensures JournalOk(Apply(db, a))
  {
    var db' := Apply(db, a);
    forall t | t in db'.txs ensures exists rows :: Wrote(db', t, rows) {
      if t in db.txs {
        var rows :| Wrote(db, t, rows);
        var after := StepKeepsWrote(db, a, t, rows);
      } else {
        assert Wrote(db', t, []);
      }
    }
  }

  lemma {:induction false} EveryJournalIsOk(run: seq<Db>, steps: seq<Action>, i: nat)
    requires IsRun(run, steps) && i < |run|
    ensures JournalOk(run[i])
  {
    if i > 0 {
      EveryStateIsOk(run, steps, i - 1);
      EveryJournalIsOk(run, steps, i - 1);
      StepKeepsJournal(run[i - 1], steps[i - 1]);
    }
  }

  lemma {:induction false} CommittedIsIdle(run: seq<Db>, steps: seq<Action>, i: nat, t: nat)
    requires IsRun(run, steps) && i < |run| && t in run[i].txs && run[i].txs[t].status == Committed
    ensures run[i].txs[t].call.Idle?
  {
    if i > 0 && t in run[i - 1].txs && run[i - 1].txs[t].status == Committed {
      CommittedIsIdle(run, steps, i - 1, t);
    }
  }

  /** In every run, whatever ran beside it: a committed transaction's rows, in log order, are the events of its accepted
      appends, each append whole, none twice. */
  lemma AppendsAreWhole(run: seq<Db>, steps: seq<Action>, i: nat, t: nat, rows: seq<Row>)
    requires IsRun(run, steps) && i < |run| && t in run[i].txs && run[i].txs[t].status == Committed
    requires Ordered(rows) && forall r :: r in rows <==> r in run[i].rows && run[i].txs[t].xid == Some(r.xid)
    ensures EventsOf(rows) == Flat(run[i].txs[t].appended)
    ensures forall r :: r in rows ==> IsCommitted(run[i], r)
  {
    EveryStateIsOk(run, steps, i);
    EveryJournalIsOk(run, steps, i);
    CommittedIsIdle(run, steps, i, t);
    var wrote :| Wrote(run[i], t, wrote);
    OrderIsUnique(rows, wrote);
    assert EventsOf(wrote) + [] == EventsOf(wrote);
  }

  lemma OneAppend(db: Db, t: nat, req: Request)
    requires CallsOk(db) && t in db.txs && db.txs[t].command && req in db.txs[t].appended
    ensures Flat(db.txs[t].appended) == req.events
  {
    assert CallOk(db.txs[t]);
    assert db.txs[t].appended == [req];
    assert [req][..0] == [] && Flat([req]) == [] + req.events;
  }

  /** A committed command's rows: the events of its one append, in order. */
  lemma OwnRows(run: seq<Db>, steps: seq<Action>, i: nat, t: nat, req: Request) returns (own: seq<Row>)
    requires IsRun(run, steps) && i < |run| && t in run[i].txs && run[i].txs[t].status == Committed
    requires run[i].txs[t].command && run[i].txs[t].xid.Some? && req in run[i].txs[t].appended
    ensures Ordered(own) && EventsOf(own) == req.events
    ensures forall r :: r in own <==> IsCommitted(run[i], r) && r.xid == run[i].txs[t].xid.value
  {
    EveryStateIsOk(run, steps, i);
    EveryJournalIsOk(run, steps, i);
    own :| Wrote(run[i], t, own);
    AppendsAreWhole(run, steps, i, t, own);
    OneAppend(run[i], t, req);
  }

  /** The rows a query matches. */
  function Matched(q: Query, rows: seq<Row>): (r: seq<Row>)
    ensures forall x :: x in r <==> x in rows && QueryMatches(q, x.event)
  {
    if rows == [] then []
    else
      var last := rows[|rows| - 1];
      assert rows == rows[..|rows| - 1] + [last];
      Matched(q, rows[..|rows| - 1]) + if QueryMatches(q, last.event) then [last] else []
  }

  lemma {:induction false} MatchedIsOrdered(q: Query, rows: seq<Row>)
    requires Ordered(rows)
    ensures Ordered(Matched(q, rows))
  {
    if rows != [] {
      var front := rows[..|rows| - 1];
      MatchedIsOrdered(q, front);
      forall r | r in Matched(q, front) ensures r.At().Before(rows[|rows| - 1].At()) {
        var i :| 0 <= i < |front| && front[i] == r;
        assert rows[i] == r;
      }
    }
  }

  /** A result that holds some rows of lower ids and the matching rows of one transaction: those rows, then these. */
  lemma NextLoad(q: Query, read: seq<Row>, own: seq<Row>, xid: nat, again: seq<Row>)
    requires Ordered(read) && Ordered(own) && Ordered(again)
    requires forall r :: r in read ==> r.xid < xid
    requires forall r :: r in own ==> r.xid == xid
    requires forall r :: r in again <==> r in read || (r in own && QueryMatches(q, r.event))
    ensures again == read + Matched(q, own)
  {
    MatchedIsOrdered(q, own);
    var joined := read + Matched(q, own);
    forall i, j | 0 <= i < j < |joined| ensures joined[i].At().Before(joined[j].At()) {
      if i < |read| <= j {
        assert read[i] in read && Matched(q, own)[j - |read|] in own;
      }
    }
    OrderIsUnique(again, joined);
  }
}
