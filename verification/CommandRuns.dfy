/** Commands over whole runs of the store: what an accepted append means, and what refuses one. */
module CommandRuns {
  import opened Options
  import opened Events
  import opened Store
  import opened StoreInvariant
  import opened StoreRuns
  import opened Commands
  import opened CommandProofs
  import RS = ReadSnapshot

  /** One attempt of a command, as its handler left it after `decide`. */
  datatype Attempt = Attempt(model: Option<Plan>, turn: seq<Event>, guard: Option<Query>, lookups: seq<Plan>,
                             given: Option<Consistency>, own: seq<Event>, idempotency: Option<Query>)

  function ModelOf(a: Attempt): Option<Model> {
    if a.model.Some? then Some(Model(LoadOf(a.model.value), a.turn, a.guard)) else None
  }

  /** A key that says nothing is refused before anything is read. */
  function OutcomeOf(a: Attempt): Outcome {
    if a.idempotency.Some? && IsEmpty(a.idempotency.value) then Refused(KeyIsEmpty)
    else BuildAppend(ModelOf(a), LoadsOf(a.lookups), a.given, a.own, a.idempotency)
  }

  predicate Depends(a: Attempt, read: Read) {
    (a.model.Some? && ReadIn(a.model.value, read)) || LookedUp(a, read)
  }

  predicate LookedUp(a: Attempt, read: Read) {
    exists p :: p in a.lookups && ReadIn(p, read)
  }

  predicate ProperAttempt(a: Attempt) {
    (a.model.Some? ==> Proper(a.model.value)) && forall p :: p in a.lookups ==> Proper(p)
  }

  lemma PartsUsable(a: Attempt)
    requires ProperAttempt(a)
    ensures forall l :: l in Parts(ModelOf(a), LoadsOf(a.lookups)) ==> Usable(l)
  {
    if a.model.Some? {
      PlanCovers(a.model.value);
    }
    forall i | 0 <= i < |a.lookups| ensures Usable(LoadOf(a.lookups[i])) {
      assert a.lookups[i] in a.lookups;
      PlanCovers(a.lookups[i]);
    }
  }

  /** The condition of an attempt lets nothing pass that one of its reads could have missed: a strict one is about all its
      reads matched, a guard about what its lookups did. */
  lemma AttemptGuards(a: Attempt, read: Read)
    requires ProperAttempt(a) && Depends(a, read)
    ensures match OutcomeOf(a)
            case Boundary(req) => LetsPassTheSeen(req.condition, read) && Guards(req.condition, read)
            case Guard(req) => LetsPassTheSeen(req.condition, read) && (LookedUp(a, read) ==> Guards(req.condition, read))
            case _ => true
  {
    PartsUsable(a);
    var loads := LoadsOf(a.lookups);
    if LookedUp(a, read) {
      var i :| 0 <= i < |a.lookups| && ReadIn(a.lookups[i], read);
      assert a.lookups[i] in a.lookups && loads[i] in loads;
      PlanCovers(a.lookups[i]);
      AppendGuards(ModelOf(a), loads, a.given, a.own, a.idempotency, loads[i], read);
    } else {
      PlanCovers(a.model.value);
      AppendGuards(ModelOf(a), loads, a.given, a.own, a.idempotency, LoadOf(a.model.value), read);
    }
  }

  /** The transaction `t` of the state `db` runs the attempt, its append accepted. */
  ghost predicate Runs(db: Db, t: nat, a: Attempt, req: Request) {
    && ProperAttempt(a) && t in db.txs && db.txs[t].command && req in db.txs[t].appended
    && forall read :: Depends(a, read) ==> read in db.txs[t].loads
  }

  /** In every run, from the check of a strict append to its commit: the committed events of every query the command read
      are exactly those its read returned, in the same order. */
  lemma AcceptedIsCurrent(run: seq<Db>, steps: seq<Action>, i: nat, t: nat, a: Attempt, req: Request, read: Read, again: seq<Row>)
    requires IsRun(run, steps) && i < |run| && IsRunning(run[i], t)
    requires Runs(run[i], t, a, req) && OutcomeOf(a) == Boundary(req) && Depends(a, read)
    requires Ordered(again) && forall r :: r in again <==> Visible(run[i], None, r) && QueryMatches(read.query, r.event)
    ensures again == read.rows
  {
    EveryStateIsOk(run, steps, i);
    AttemptGuards(a, read);
    ReloadIsTheSame(run[i], t, req, read, again);
  }

  /** In every run, a committed strict command stands in the log, by transaction id, exactly after the commands whose
      events it read: run one by one in that order, each reads what it read. */
  lemma CommandsAreSerial(run: seq<Db>, steps: seq<Action>, i: nat, t: nat, a: Attempt, req: Request, read: Read, r: Row)
    requires IsRun(run, steps) && i < |run| && t in run[i].txs && run[i].txs[t].status == Committed
    requires Runs(run[i], t, a, req) && OutcomeOf(a) == Boundary(req) && Depends(a, read)
    requires IsCommitted(run[i], r) && QueryMatches(read.query, r.event)
    requires r.xid in run[i].owners && run[i].owners[r.xid] in run[i].txs && run[i].txs[run[i].owners[r.xid]].command
    ensures run[i].txs[t].xid.Some?
    ensures r in read.rows <==> r.xid < run[i].txs[t].xid.value
  {
    EveryStateIsOk(run, steps, i);
    AttemptGuards(a, read);
    CommittedHasXid(run, steps, i, t);
    LogOrderIsSerial(run[i], t, req, read, r);
  }

  /** A command that appended took its transaction id with it. */
  lemma {:induction false} CommittedHasXid(run: seq<Db>, steps: seq<Action>, i: nat, t: nat)
    requires IsRun(run, steps) && i < |run| && t in run[i].txs && run[i].txs[t].status == Committed
    requires run[i].txs[t].command && run[i].txs[t].appended != []
    ensures run[i].txs[t].xid.Some?
  {
    if i > 0 {
      if t in run[i - 1].txs && run[i - 1].txs[t].status == Committed {
        CommittedStays(run, steps, i - 1, t);
        CommittedHasXid(run, steps, i - 1, t);
      } else {
        CallsInRun(run, steps, i - 1);
        CommitsWithXid(run[i - 1], steps[i - 1], t);
      }
    }
  }

  lemma CommittedStays(run: seq<Db>, steps: seq<Action>, i: nat, t: nat)
    requires IsRun(run, steps) && i + 1 < |run| && t in run[i].txs && run[i].txs[t].status == Committed
    ensures t in run[i + 1].txs && run[i + 1].txs[t] == run[i].txs[t]
  {
    StepInRunIsLater(run, steps, i);
  }

  lemma CommitsWithXid(db: Db, step: Action, t: nat)
    requires CallsOk(db) && Enabled(db, step) && !(t in db.txs && db.txs[t].status == Committed)
    requires t in Apply(db, step).txs && Apply(db, step).txs[t].status == Committed
    requires Apply(db, step).txs[t].command && Apply(db, step).txs[t].appended != []
    ensures Apply(db, step).txs[t].xid.Some?
  {
    assert step == Commit(t);
    assert CallOk(db.txs[t]);
  }

  // ---- Precision ----

  function Plans(a: Attempt): seq<Plan> {
    (if a.model.Some? then [a.model.value] else []) + a.lookups
  }

  lemma PlansAreTheParts(a: Attempt)
    requires ProperAttempt(a)
    ensures LoadsOf(Plans(a)) == Parts(ModelOf(a), LoadsOf(a.lookups))
    ensures forall p :: p in Plans(a) ==> Proper(p)
    ensures forall read :: ReadIn(All(Plans(a)), read) <==> Depends(a, read)
  {
    forall read ensures ReadIn(All(Plans(a)), read) <==> Depends(a, read) {
      assert forall p :: p in Plans(a) <==> (a.model == Some(p)) || p in a.lookups;
    }
  }

  /** What the condition says was seen is exactly what every read of the attempt saw. */
  lemma SeenForExact(a: Attempt)
    requires ProperAttempt(a) && Parts(ModelOf(a), LoadsOf(a.lookups)) != []
    ensures var seen := SeenFor(ModelOf(a), LoadsOf(a.lookups));
            seen.Some? && RS.IsSnapshotText(seen.value)
            && forall x :: RS.SeesText(seen.value, x) <==> forall read :: Depends(a, read) ==> RS.Sees(read.seen, x)
  {
    PlansAreTheParts(a);
    LoadsSeeExactly(Plans(a));
    forall x: nat ensures AllReadsSee(All(Plans(a)), x) <==> forall read :: Depends(a, read) ==> RS.Sees(read.seen, x) {
    }
  }

  lemma LoadsSeeExactly(plans: seq<Plan>)
    requires plans != [] && forall p :: p in plans ==> Proper(p)
    ensures var seen := SeenOf(RS.IntersectAll(Seens(LoadsOf(plans))));
            seen.Some? && RS.IsSnapshotText(seen.value) && forall x :: RS.SeesText(seen.value, x) <==> AllReadsSee(All(plans), x)
  {
    forall p | p in plans ensures SeesTheReads(p) && Usable(LoadOf(p)) {
      PlanSees(p);
    }
    forall l | l in LoadsOf(plans) ensures l.seen.Some? && RS.IsSnapshotText(l.seen.value) {
      var i :| 0 <= i < |plans| && LoadsOf(plans)[i] == l;
      assert plans[i] in plans;
    }
    SeensSeeExactly(LoadsOf(plans));
    forall x: nat ensures AllLoadsSee(LoadsOf(plans), x) <==> AllReadsSee(All(plans), x) {
      MembersSee(plans, x);
    }
  }

  /** A strict append is refused as a conflict only for a committed event of its boundary that one of the command's reads
      could not see. */
  lemma RefusedForTheUnseen(db: Db, a: Attempt, req: Request)
    requires ProperAttempt(a) && OutcomeOf(a) == Boundary(req)
    requires VerdictOf(db, None, req.condition) == Conflict
    ensures exists r, read :: IsCommitted(db, r) && ConditionMatches(req.condition.concurrency, r.event)
                              && Depends(a, read) && !RS.Sees(read.seen, r.xid)
  {
    var r :| Visible(db, None, r) && Conflicts(req.condition, None, r);
    ConflictIsUnseen(a, req, r);
    var read :| Depends(a, read) && !RS.Sees(read.seen, r.xid);
    assert IsCommitted(db, r) && ConditionMatches(req.condition.concurrency, r.event);
  }

  lemma ConflictIsUnseen(a: Attempt, req: Request, r: Row)
    requires ProperAttempt(a) && OutcomeOf(a) == Boundary(req) && Conflicts(req.condition, None, r)
    ensures exists read :: Depends(a, read) && !RS.Sees(read.seen, r.xid)
  {
    SeenForExact(a);
    var seen := SeenFor(ModelOf(a), LoadsOf(a.lookups));
    RS.UnseenIsNotSeen(RS.Parse(seen.value).value, r.xid);
    assert !RS.SeesText(seen.value, r.xid);
  }

  /** In every run: when everything the boundary matches was committed before the first of the command's snapshots, the
      append is not refused, however many unrelated transactions stay open. */
  lemma UncontestedIsAccepted(run: seq<Db>, steps: seq<Action>, i: nat, j: nat, t: nat, a: Attempt, req: Request)
    requires IsRun(run, steps) && i <= j < |run| && IsRunning(run[j], t) && run[j].txs[t].xid.None?
    requires ProperAttempt(a) && OutcomeOf(a) == Boundary(req)
    requires forall read :: Depends(a, read) ==> exists k :: i <= k <= j && TakenIn(run[k], None, read.seen)
    requires forall r :: IsCommitted(run[j], r) && ConditionMatches(req.condition.concurrency, r.event) ==> IsCommitted(run[i], r)
    ensures VerdictOf(run[j], None, req.condition) != Conflict
  {
    EveryStateIsOk(run, steps, j);
    if VerdictOf(run[j], None, req.condition) == Conflict {
      RefusedForTheUnseen(run[j], a, req);
      var r, read :| IsCommitted(run[j], r) && ConditionMatches(req.condition.concurrency, r.event)
                     && Depends(a, read) && !RS.Sees(read.seen, r.xid);
      var k :| i <= k <= j && TakenIn(run[k], None, read.seen);
      SeenOnceCommitted(run, steps, i, k, read.seen, r);
      assert false;
    }
  }

  lemma SeenOnceCommitted(run: seq<Db>, steps: seq<Action>, i: nat, k: nat, seen: RS.Parts, r: Row)
    requires IsRun(run, steps) && i <= k < |run| && IsCommitted(run[i], r) && TakenIn(run[k], None, seen)
    ensures RS.Sees(seen, r.xid)
  {
    LaterInRun(run, steps, i, k);
    EveryStateIsOk(run, steps, k);
    SettledIsFinished(run[k], None, seen);
  }

  predicate AppendsType(req: Request, etype: string) {
    exists e :: e in req.events && e.etype == etype
  }

  /** A guard is about nothing of the types the command appends, so that runs of one command never refuse each other by it,
      exactly when each of its items names a type. */
  lemma GuardIgnoresOwnTypes(a: Attempt, req: Request)
    requires OutcomeOf(a) == Guard(req) && req.events != []
    ensures (forall item :: item in req.condition.concurrency.items ==> item.types != [])
            <==> forall e: Event :: AppendsType(req, e.etype) ==> !ConditionMatches(req.condition.concurrency, e)
  {
    var q := req.condition.concurrency;
    assert !Types(q, req.events) && !q.all;
    forall item, e: Event | item in q.items && item.types != [] && AppendsType(req, e.etype) ensures !ItemMatches(item, e) {
      var own :| own in req.events && own.etype == e.etype;
      assert own.etype !in item.types;
    }
    forall item | item in q.items && item.types == []
      ensures exists e: Event :: AppendsType(req, e.etype) && ConditionMatches(q, e)
    {
      var e := Event(req.events[0].etype, item.tags, "");
      assert req.events[0] in req.events && AppendsType(req, e.etype);
      assert ItemMatches(item, e);
    }
  }

  /** In every run, from the check of a guarded or strict append to its commit: whatever is committed that the condition is
      about, a lifecycle event or the closing of a period, each read saw or had settled; and if the read's query matches it,
      the read returned it. */
  lemma GuardHolds(run: seq<Db>, steps: seq<Action>, i: nat, t: nat, a: Attempt, req: Request, read: Read, r: Row)
    requires IsRun(run, steps) && i < |run| && IsRunning(run[i], t)
    requires Runs(run[i], t, a, req) && (OutcomeOf(a) == Guard(req) || OutcomeOf(a) == Boundary(req)) && Depends(a, read)
    requires IsCommitted(run[i], r) && ConditionMatches(req.condition.concurrency, r.event)
    ensures RS.Sees(read.seen, r.xid) || r.xid < read.settledBelow
    ensures QueryMatches(read.query, r.event) ==> r in read.rows
  {
    EveryStateIsOk(run, steps, i);
    AttemptGuards(a, read);
    PassedIsRead(run[i], t, req, read, r);
  }

  lemma PassedIsRead(db: Db, t: nat, req: Request, read: Read, r: Row)
    requires Inv(db) && t in db.txs && db.txs[t].command && req in db.txs[t].appended && read in db.txs[t].loads
    requires LetsPassTheSeen(req.condition, read) && IsCommitted(db, r) && ConditionMatches(req.condition.concurrency, r.event)
    requires IsRunning(db, t) || (db.txs[t].xid.Some? && r.xid < db.txs[t].xid.value && db.txs[db.owners[r.xid]].command)
    ensures RS.Sees(read.seen, r.xid) || r.xid < read.settledBelow
    ensures QueryMatches(read.query, r.event) ==> r in read.rows
  {
    assert ReadOk(db, db.txs[t], read);
    if IsRunning(db, t) {
      assert StillHolds(db, req);
    } else {
      assert IsBefore(db.txs[db.owners[r.xid]], db.txs[t]);
      assert Precedes(db, db.txs[db.owners[r.xid]], req);
    }
  }

  /** And in log order: what commands with lower transaction ids committed that the condition is about, each read saw. */
  lemma GuardHoldsInLogOrder(run: seq<Db>, steps: seq<Action>, i: nat, t: nat, a: Attempt, req: Request, read: Read, r: Row)
    requires IsRun(run, steps) && i < |run| && t in run[i].txs && run[i].txs[t].status == Committed && run[i].txs[t].xid.Some?
    requires Runs(run[i], t, a, req) && (OutcomeOf(a) == Guard(req) || OutcomeOf(a) == Boundary(req)) && Depends(a, read)
    requires IsCommitted(run[i], r) && ConditionMatches(req.condition.concurrency, r.event)
    requires run[i].txs[run[i].owners[r.xid]].command && r.xid < run[i].txs[t].xid.value
    ensures RS.Sees(read.seen, r.xid) || r.xid < read.settledBelow
    ensures QueryMatches(read.query, r.event) ==> r in read.rows
  {
    EveryStateIsOk(run, steps, i);
    AttemptGuards(a, read);
    PassedIsRead(run[i], t, req, read, r);
  }

  /** In every run, once an event the key matches is committed, an append with that key is answered as a repeat, whatever else
      it would conflict with. */
  lemma RepeatIsADuplicate(run: seq<Db>, steps: seq<Action>, i: nat, j: nat, r: Row, own: Option<nat>, c: Condition)
    requires IsRun(run, steps) && i <= j < |run| && IsCommitted(run[i], r) && ConditionMatches(c.idempotency, r.event)
    ensures VerdictOf(run[j], own, c) == Duplicate
  {
    LaterInRun(run, steps, i, j);
    assert IsCommitted(run[j], r) && Visible(run[j], own, r);
  }

  /** In every run, an idempotency key that recognises its own repeat is spent once. */
  lemma KeyIsSpentOnce(run: seq<Db>, steps: seq<Action>, i: nat, key: Query, x: Row, y: Row)
    requires IsRun(run, steps) && i < |run| && IsCommitted(run[i], x) && IsCommitted(run[i], y)
    requires ConditionMatches(key, x.event) && ConditionMatches(key, y.event)
    requires exists p :: p in run[i].txs[run[i].owners[x.xid]].appended && p.condition.idempotency == key
    requires exists q :: q in run[i].txs[run[i].owners[y.xid]].appended && q.condition.idempotency == key
    ensures x.xid == y.xid
  {
    EveryStateIsOk(run, steps, i);
    OneAppendPerKey(run[i], key, x, y);
  }
}
