/** Whole runs of the store: every interleaving of any number of transactions, from the empty log. */
module StoreRuns {
  import opened Options
  import opened Store
  import opened StoreInvariant
  import RS = ReadSnapshot

  ghost predicate IsRun(run: seq<Db>, steps: seq<Action>) {
    && |run| == |steps| + 1
    && run[0] == EMPTY
    && forall i :: 0 <= i < |steps| ==> Enabled(run[i], steps[i]) && run[i + 1] == Apply(run[i], steps[i])
  }

  lemma StepKeepsInv(db: Db, a: Action)
    requires Inv(db) && Enabled(db, a)
    ensures Inv(Apply(db, a))
  {
    StepKeepsXids(db, a);
    StepKeepsRows(db, a);
    StepKeepsLocks(db, a);
    StepKeepsCalls(db, a);
    StepKeepsReads(db, a);
    StepKeepsHolds(db, a);
    StepKeepsOnce(db, a);
    StepKeepsOrder(db, a);
  }

  lemma {:induction false} EveryStateIsOk(run: seq<Db>, steps: seq<Action>, i: nat)
    requires IsRun(run, steps) && i < |run|
    ensures Inv(run[i])
  {
    if i > 0 {
      EveryStateIsOk(run, steps, i - 1);
      StepKeepsInv(run[i - 1], steps[i - 1]);
    }
  }

  lemma StepInRunIsLater(run: seq<Db>, steps: seq<Action>, j: nat)
    requires IsRun(run, steps) && j < |steps|
    ensures Later(run[j], run[j + 1])
  {
    EveryStateIsOk(run, steps, j);
    StepIsLater(run[j], steps[j]);
  }

  lemma CallsInRun(run: seq<Db>, steps: seq<Action>, i: nat)
    requires IsRun(run, steps) && i < |run|
    ensures CallsOk(run[i])
  {
    EveryStateIsOk(run, steps, i);
  }

  lemma {:induction false} LaterChain(run: seq<Db>, i: nat, j: nat)
    requires i <= j < |run| && forall k :: i <= k < j ==> Later(run[k], run[k + 1])
    ensures Later(run[i], run[j])
    decreases j - i
  {
    if i < j {
      LaterChain(run, i, j - 1);
      assert Later(run[j - 1], run[j - 1 + 1]);
      LaterIsTransitive(run[i], run[j - 1], run[j]);
    }
  }

  lemma LaterInRun(run: seq<Db>, steps: seq<Action>, i: nat, j: nat)
    requires IsRun(run, steps) && i <= j < |run|
    ensures Later(run[i], run[j])
  {
    forall k | i <= k < j ensures Later(run[k], run[k + 1]) {
      StepInRunIsLater(run, steps, k);
    }
    LaterChain(run, i, j);
  }

  /** With ids and positions in opposite orders and commits in any order: below the xmin of a snapshot, the committed
      rows never change again. So no event ever commits at or before a settled one. */
  lemma SettledIsFinal(run: seq<Db>, steps: seq<Action>, i: nat, j: nat, own: Option<nat>, now: RS.Parts, r: Row)
    requires IsRun(run, steps) && i <= j < |run|
    requires TakenIn(run[i], own, now) && 1 <= r.xid < now.xmin
    ensures IsCommitted(run[j], r) <==> IsCommitted(run[i], r)
  {
    XidsInRun(run, steps, i);
    XidsInRun(run, steps, j);
    LaterInRun(run, steps, i, j);
    SettledIsFinished(run[i], own, now);
    FinishedIsFinal(run[i], run[j], r);
  }

  lemma XidsInRun(run: seq<Db>, steps: seq<Action>, i: nat)
    requires IsRun(run, steps) && i < |run|
    ensures XidsOk(run[i])
  {
    EveryStateIsOk(run, steps, i);
  }

  lemma FinishedIsFinal(db: Db, later: Db, r: Row)
    requires XidsOk(db) && XidsOk(later) && Later(db, later) && Finished(db, r.xid)
    ensures IsCommitted(later, r) <==> IsCommitted(db, r)
  {
  }

  /** Log order is total on the rows, so a result has one order only. */
  lemma {:induction false} OrderIsUnique(a: seq<Row>, b: seq<Row>)
    requires Ordered(a) && Ordered(b) && forall r :: r in a <==> r in b
    ensures a == b
  {
    assert b != [] ==> b[0] in b;
    if a != [] {
      assert a[0] in b;
      assert b[0] in a;
      var i :| 0 <= i < |a| && a[i] == b[0];
      var j :| 0 <= j < |b| && b[j] == a[0];
      assert a[0] == b[0];
      forall r ensures r in a[1..] <==> r in b[1..] {
        if r in a[1..] {
          var k :| 1 <= k < |a| && a[k] == r;
          assert r in b && r != b[0];
        }
        if r in b[1..] {
          var k :| 1 <= k < |b| && b[k] == r;
          assert r in a && r != a[0];
        }
      }
      OrderIsUnique(a[1..], b[1..]);
    }
  }
}
