/** A command that decided in an open period, over whole runs of the store: it is never accepted into a period that was
    closed, strict or guarded (packages/commands/src/Model.ts:275, 308-323; packages/commands/src/Command.ts:333-346). */
module ClosedPeriods {
  import opened Options
  import opened Events
  import opened Store
  import opened StoreRuns
  import opened Commands
  import opened CommandProofs
  import opened CommandRuns
  import M = Models
  import opened Periods

  function ClosingTags<S>(p: Periodic<S>, key: string): seq<Tag> {
    [Tag(M.Lower(p.model.key), p.model.id)] + p.tagsOf(key)
  }

  /** Some entry for the closing binds it by tags every closing of the period has. */
  ghost predicate ClosingIsBound<S>(p: Periodic<S>, key: string) {
    var m := In(p, key);
    exists i, way :: 0 <= i < |m.entries| && m.entries[i].etype == p.closedType && BindsThrough(p, key, i, way)
  }

  predicate BindsThrough<S>(p: Periodic<S>, key: string, i: nat, way: M.Way)
    requires i < |In(p, key).entries|
  {
    var m := In(p, key);
    M.BindsBy(m, i, way) && forall t :: t in M.TagsFor(way, m.id, m.scope) ==> t in ClosingTags(p, key)
  }

  /** Exactly then the boundary of a period holds every closing of the period, so that a strict command conflicts with it. */
  lemma ClosingIsInTheBoundary<S>(p: Periodic<S>, key: string, q: Query)
    requires M.IsBoundary(In(p, key), false, q)
    ensures (forall e :: ConditionMatches(ClosingQuery(p, key), e) ==> ConditionMatches(q, e)) <==> ClosingIsBound(p, key)
  {
    var m := In(p, key);
    if ClosingIsBound(p, key) {
      var i, way :| 0 <= i < |m.entries| && m.entries[i].etype == p.closedType && BindsThrough(p, key, i, way);
      forall e | ConditionMatches(ClosingQuery(p, key), e) ensures ConditionMatches(q, e) {
        assert e.etype == p.closedType && M.HasAll(ClosingTags(p, key), e);
        assert M.HasAll(M.TagsFor(way, m.id, m.scope), e);
        assert M.Reads(m, false, e);
      }
    }
    if forall e :: ConditionMatches(ClosingQuery(p, key), e) ==> ConditionMatches(q, e) {
      var e := Event(p.closedType, ClosingTags(p, key), "");
      assert ItemMatches(ClosingQuery(p, key).items[0], e) && ConditionMatches(ClosingQuery(p, key), e);
      var i, way :| 0 <= i < |m.entries| && M.BindsBy(m, i, way) && e.etype == m.entries[i].etype && M.HasAll(M.TagsFor(way, m.id, m.scope), e);
      assert BindsThrough(p, key, i, way);
    }
  }

  /** It is when no handler looks at it, or one that binds it through the model's own key. */
  lemma OwnKeyBindsTheClosing<S>(p: Periodic<S>, key: string)
    requires (forall i :: 0 <= i < |p.model.entries| ==> p.model.entries[i].etype != p.closedType)
             || exists i :: 0 <= i < |p.model.entries| && p.model.entries[i].etype == p.closedType && p.model.key in M.KeysOf(p.model, p.model.entries[i])
    ensures ClosingIsBound(p, key)
  {
    var m := In(p, key);
    var i: nat := |p.model.entries|;
    if j :| 0 <= j < |p.model.entries| && p.model.entries[j].etype == p.closedType && p.model.key in M.KeysOf(p.model, p.model.entries[j]) {
      i := j;
    }
    assert BindsThrough(p, key, i, M.Way(m.entries[i].lifecycle, p.model.key));
  }

  /** The attempt decided in the period: its read found it open, and its guard holds the closing of it. */
  ghost predicate DecidedIn<S>(a: Attempt, p: Periodic<S>, key: string, here: Read) {
    && a.model.Some? && Depends(a, here) && M.IsBoundary(In(p, key), false, here.query) && IsOpen(p, here)
    && a.guard.Some? && forall e :: ConditionMatches(ClosingQuery(p, key), e) ==> ConditionMatches(a.guard.value, e)
  }

  predicate IsConditioned(a: Attempt, req: Request) {
    OutcomeOf(a) == Boundary(req) || OutcomeOf(a) == Guard(req)
  }

  lemma GuardIsChecked(a: Attempt, req: Request, e: Event)
    requires OutcomeOf(a) == Guard(req) && a.model.Some? && a.guard.Some? && ConditionMatches(a.guard.value, e)
    ensures ConditionMatches(req.condition.concurrency, e)
  {
    var given := if a.given.Some? then a.given.value.guard else None;
    var parts := Listed(given) + [a.guard.value] + Listed(ReadsQuery(LoadsOf(a.lookups)));
    assert a.guard.value in parts;
    UnionMatches(parts, e);
  }

  /** A closing the read did not return, though it was committed: there is none. */
  lemma ClosingWasNotRead<S>(p: Periodic<S>, key: string, here: Read, r: Row)
    requires IsOpen(p, here) && QueryMatches(ClosingQuery(p, key), r.event)
    ensures r !in here.rows
  {
  }

  /** In every run, from the acceptance of the append to its commit, no closing of the period it was decided in is
      committed. */
  lemma NeverIntoAClosedPeriod<S>(run: seq<Db>, steps: seq<Action>, i: nat, t: nat, a: Attempt, req: Request,
                                  p: Periodic<S>, key: string, here: Read, r: Row)
    requires IsRun(run, steps) && i < |run| && IsRunning(run[i], t)
    requires Runs(run[i], t, a, req) && IsConditioned(a, req) && ClosingIsBound(p, key) && DecidedIn(a, p, key, here)
    requires IsCommitted(run[i], r)
    ensures !QueryMatches(ClosingQuery(p, key), r.event)
  {
    if QueryMatches(ClosingQuery(p, key), r.event) {
      ClosingIsInTheBoundary(p, key, here.query);
      assert ConditionMatches(ClosingQuery(p, key), r.event);
      ClosingWasNotRead(p, key, here, r);
      if OutcomeOf(a) == Guard(req) {
        GuardIsChecked(a, req, r.event);
        GuardHolds(run, steps, i, t, a, req, here, r);
      } else {
        EveryStateIsOk(run, steps, i);
        AttemptGuards(a, here);
        AcceptedMeansUnchanged(run[i], t, req, here);
      }
    }
  }

  /** And in log order: the closings commands committed come at or after the append. */
  lemma ClosingsComeAfter<S>(run: seq<Db>, steps: seq<Action>, i: nat, t: nat, a: Attempt, req: Request,
                             p: Periodic<S>, key: string, here: Read, r: Row)
    requires IsRun(run, steps) && i < |run| && t in run[i].txs && run[i].txs[t].status == Committed && run[i].txs[t].xid.Some?
    requires Runs(run[i], t, a, req) && IsConditioned(a, req) && ClosingIsBound(p, key) && DecidedIn(a, p, key, here)
    requires IsCommitted(run[i], r) && run[i].txs[run[i].owners[r.xid]].command
    ensures QueryMatches(ClosingQuery(p, key), r.event) ==> r.xid >= run[i].txs[t].xid.value
  {
    if QueryMatches(ClosingQuery(p, key), r.event) && r.xid < run[i].txs[t].xid.value {
      ClosingIsInTheBoundary(p, key, here.query);
      assert ConditionMatches(ClosingQuery(p, key), r.event);
      ClosingWasNotRead(p, key, here, r);
      if OutcomeOf(a) == Guard(req) {
        GuardIsChecked(a, req, r.event);
        GuardHoldsInLogOrder(run, steps, i, t, a, req, here, r);
      } else {
        CommandsAreSerial(run, steps, i, t, a, req, here, r);
      }
    }
  }
}
