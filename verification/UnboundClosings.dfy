/** A period whose boundary misses one of its closings is not safe: a run in which a strict command that decided in it is
    accepted after it was closed. So the binding of the closing is what makes closed periods safe. */
module UnboundClosings {
  import opened Options
  import opened Events
  import opened Store
  import opened StoreRuns
  import opened Commands
  import opened CommandRuns
  import opened OneByOne
  import M = Models
  import opened Periods
  import opened ClosedPeriods
  import RS = ReadSnapshot

  /** In a state of some run, an attempt that decided in the period is accepted and runs on, and a closing of it is committed. */
  ghost predicate SlipsIn<S>(p: Periodic<S>, key: string, run: seq<Db>, steps: seq<Action>, i: nat, t: nat, a: Attempt, req: Request, here: Read, r: Row) {
    && IsRun(run, steps) && i < |run| && IsRunning(run[i], t)
    && Runs(run[i], t, a, req) && IsConditioned(a, req) && DecidedIn(a, p, key, here)
    && IsCommitted(run[i], r) && QueryMatches(ClosingQuery(p, key), r.event)
  }

  /** No command is ever accepted into a period that was closed exactly when the period's closing is bound. */
  lemma ClosedPeriodsAreSafeExactly<S>(p: Periodic<S>, key: string, q: Query, opening: Event)
    requires M.IsBoundary(In(p, key), false, q) && ConditionMatches(q, opening) && opening.etype == p.openedType != p.closedType
    ensures ClosingIsBound(p, key) <==> forall run, steps, i, t, a, req, here, r :: !SlipsIn(p, key, run, steps, i, t, a, req, here, r)
  {
    if ClosingIsBound(p, key) {
      forall run, steps, i, t, a, req, here, r ensures !SlipsIn(p, key, run, steps, i, t, a, req, here, r) {
        if SlipsIn(p, key, run, steps, i, t, a, req, here, r) {
          NeverIntoAClosedPeriod(run, steps, i, t, a, req, p, key, here, r);
        }
      }
    } else {
      ClosingIsInTheBoundary(p, key, q);
      var closing :| ConditionMatches(ClosingQuery(p, key), closing) && !ConditionMatches(q, closing);
      ASlip(p, key, q, opening, closing);
    }
  }

  // ---- The run ----

  const AFTER_ONE := RS.Parts(2, 2, [])

  function Here(q: Query, opening: Event): Read {
    Read(q, AFTER_ONE, 2, [Row(1, 1, opening)])
  }

  function Deciding<S>(p: Periodic<S>, key: string, here: Read): Attempt {
    Attempt(Some(One(here)), [], Some(ClosingQuery(p, key)), [], None, [Event("", [], "")], None)
  }

  function Deposited(opening: Event): Db {
    AppendedAt(EMPTY, 0, opening)
  }

  function HasDecided(q: Query, opening: Event): Db {
    With(Deposited(opening), 1, BEGUN.(loads := [Here(q, opening)]))
  }

  function HasClosed(q: Query, opening: Event, closing: Event): Db {
    AppendedAt(HasDecided(q, opening), 2, closing)
  }

  lemma Decides(q: Query, opening: Event)
    requires QueryMatches(q, opening)
    ensures Reached(HasDecided(q, opening)) && IsReading(HasDecided(q, opening), 1)
  {
    var db := Deposited(opening);
    Starts();
    Appends(EMPTY, 0, opening);
    Begins(db, 1);
    var begun := With(db, 1, BEGUN);
    assert begun.rows == {Row(1, 1, opening)} && begun.nextXid == 2 && Finished(begun, 1);
    assert TakenIn(begun, None, AFTER_ONE);
    Reads(begun, 1, q, AFTER_ONE, [Row(1, 1, opening)]);
    assert [] + [Here(q, opening)] == [Here(q, opening)];
    assert With(begun, 1, BEGUN.(loads := [Here(q, opening)])).txs == HasDecided(q, opening).txs;
  }

  lemma Closes(q: Query, opening: Event, closing: Event)
    requires QueryMatches(q, opening)
    ensures var db := HasClosed(q, opening, closing);
            && Reached(db) && IsReading(db, 1) && HasTheLocks(db, 1) && db.txs[1].loads == [Here(q, opening)]
            && db.rows == {Row(1, 1, opening), Row(2, 2, closing)} && IsCommitted(db, Row(2, 2, closing))
  {
    Decides(q, opening);
    Appends(HasDecided(q, opening), 2, closing);
  }

  /** A strict attempt that read the boundary and nothing else. */
  lemma ItIsStrict<S>(p: Periodic<S>, key: string, q: Query, here: Read) returns (req: Request)
    requires here.query == q && !q.all && !IsEmpty(q) && RS.WellFormed(here.seen) && here.seen.xmin >= 1
    ensures var a := Deciding(p, key, here);
            && ProperAttempt(a) && OutcomeOf(a) == Boundary(req) && req.events == [Event("", [], "")]
            && (forall read :: Depends(a, read) <==> read == here)
            && req.condition.idempotency == NO_CONDITION
            && forall e :: ConditionMatches(req.condition.concurrency, e) <==> ConditionMatches(q, e)
  {
    var a := Deciding(p, key, here);
    req := OutcomeOf(a).request;
    assert [] + [Event("", [], "")] == [Event("", [], "")];
    assert [LoadOne(here).boundary] + [] == [q];
    forall e ensures ConditionMatches(req.condition.concurrency, e) <==> ConditionMatches(q, e) {
      UnionMatches([q], e);
    }
  }

  lemma ItIsAccepted<S>(p: Periodic<S>, key: string, q: Query, opening: Event, closing: Event, req: Request)
    requires QueryMatches(q, opening) && !ConditionMatches(q, closing)
    requires var a := Deciding(p, key, Here(q, opening));
             && ProperAttempt(a) && OutcomeOf(a) == Boundary(req)
             && (forall read :: Depends(a, read) <==> read == Here(q, opening))
    requires req.condition.idempotency == NO_CONDITION && !ConditionMatches(req.condition.concurrency, closing)
    ensures VerdictOf(HasClosed(q, opening, closing), None, req.condition) == Ok
  {
    var db := HasClosed(q, opening, closing);
    Closes(q, opening, closing);
    if VerdictOf(db, None, req.condition) == Conflict {
      RefusedForTheUnseen(db, Deciding(p, key, Here(q, opening)), req);
      assert false;
    }
  }

  lemma ASlip<S>(p: Periodic<S>, key: string, q: Query, opening: Event, closing: Event)
    requires M.IsBoundary(In(p, key), false, q) && ConditionMatches(q, opening) && opening.etype == p.openedType != p.closedType
    requires ConditionMatches(ClosingQuery(p, key), closing) && !ConditionMatches(q, closing)
    ensures exists run, steps, i, t, a, req, here, r :: SlipsIn(p, key, run, steps, i, t, a, req, here, r)
  {
    var here := Here(q, opening);
    var req := ItIsStrict(p, key, q, here);
    Closes(q, opening, closing);
    ItIsAccepted(p, key, q, opening, closing, req);
    var db := HasClosed(q, opening, closing);
    Accepts(db, 1, req);
    var accepted := AcceptedAt(db, 1, req);
    Decided(p, key, q, opening);
    NowAccepted(db, 1, Deciding(p, key, here), req, here, Row(2, 2, closing));
    ReachedIsSomewhere(p, key, accepted, 1, Deciding(p, key, here), req, here, Row(2, 2, closing));
  }

  lemma NowAccepted(db: Db, t: nat, a: Attempt, req: Request, here: Read, r: Row)
    requires IsReading(db, t) && ProperAttempt(a) && db.txs[t].loads == [here] && (forall read :: Depends(a, read) <==> read == here)
    requires IsCommitted(db, r)
    ensures var accepted := AcceptedAt(db, t, req); IsRunning(accepted, t) && Runs(accepted, t, a, req) && IsCommitted(accepted, r)
  {
  }

  lemma ReachedIsSomewhere<S>(p: Periodic<S>, key: string, db: Db, t: nat, a: Attempt, req: Request, here: Read, r: Row)
    requires Reached(db) && IsRunning(db, t) && Runs(db, t, a, req) && IsConditioned(a, req) && DecidedIn(a, p, key, here)
    requires IsCommitted(db, r) && QueryMatches(ClosingQuery(p, key), r.event)
    ensures exists run, steps, i, t, a, req, here, r :: SlipsIn(p, key, run, steps, i, t, a, req, here, r)
  {
    var run, steps :| IsRun(run, steps) && run[|run| - 1] == db;
    assert SlipsIn(p, key, run, steps, |run| - 1, t, a, req, here, r);
  }

  lemma Decided<S>(p: Periodic<S>, key: string, q: Query, opening: Event)
    requires M.IsBoundary(In(p, key), false, q) && opening.etype == p.openedType != p.closedType
    ensures DecidedIn(Deciding(p, key, Here(q, opening)), p, key, Here(q, opening))
  {
    var here := Here(q, opening);
    assert Row(1, 1, opening) in here.rows;
    assert ReadIn(One(here), here);
  }
}
