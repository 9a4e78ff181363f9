/** From what the load of a period answers to the statements about runs: the attempt its command makes is one that decided in
    an open period, or one that turned it (packages/commands/src/Model.ts:300-361, 474-493). */
module PeriodLoads {
  import opened Options
  import opened Events
  import opened Text
  import opened Store
  import opened StoreInvariant
  import opened StoreRuns
  import opened Commands
  import opened CommandRuns
  import opened Conditions
  import opened Journal
  import M = Models
  import opened Completion
  import opened Periods
  import opened PeriodRuns
  import opened ClosedPeriods

  /** A load of a period: what now is, what was read, and what the load answered. */
  datatype Loading<S> = Loading(tagKeys: seq<string>, target: string, first: Read, track: Read, other: Read, out: PeriodLoad<S>)

  /** The load of the period, from reads of its queries. */
  ghost predicate IsLoading<S>(p: Periodic<S>, l: Loading<S>) {
    var current := Tracking(p, EventsOf(l.track.rows));
    && M.IsBoundary(In(p, l.target), false, l.first.query) && l.track.query == TrackingQuery(p)
    && (current.Some? ==> M.IsBoundary(In(p, current.value), false, l.other.query))
    && IsLoad(p, l.tagKeys, l.target, l.first, l.track, l.other, l.out)
  }

  /** The reads behind the answer. */
  function PlanOf<S>(p: Periodic<S>, l: Loading<S>): Plan {
    if l.out.Turned? then Plan.Turn(l.first, l.track, if Tracking(p, EventsOf(l.track.rows)).Some? then Some(l.other) else None)
    else One(if IsOpen(p, l.first) then l.first else l.other)
  }

  /** They make the condition the load answers with. */
  lemma PlanIsTheLoad<S>(p: Periodic<S>, l: Loading<S>)
    requires IsLoading(p, l) && !l.out.Dies?
    ensures l.out.load == LoadOf(PlanOf(p, l))
  {
  }

  /** A model, or a member of `all`, at any depth. */
  predicate HasPart(plan: Plan, part: Plan) {
    plan == part || (plan.All? && exists m :: m in plan.members && HasPart(m, part))
  }

  lemma {:induction false} PartIsRead(plan: Plan, part: Plan, read: Read)
    requires HasPart(plan, part) && ReadIn(part, read)
    ensures ReadIn(plan, read)
    decreases plan
  {
    if plan != part {
      var m :| m in plan.members && HasPart(m, part);
      PartIsRead(m, part, read);
    }
  }

  /** The attempt of a command that loaded the period, alone or in `all`: it carries the load's turn, among turns of other
      entities, and the load's guard, among other guards; its own events open and close nothing. */
  ghost predicate Brings<S>(a: Attempt, p: Periodic<S>, l: Loading<S>) {
    && a.model.Some? && HasPart(a.model.value, PlanOf(p, l)) && Tracked(p, a.own) == []
    && (l.out.InOpen? ==> a.guard.Some? && forall e :: ConditionMatches(l.out.guard, e) ==> ConditionMatches(a.guard.value, e))
    && (l.out.Turned? ==> exists before, after :: IsAround(a.turn, before, l.out.turn, after) && Tracked(p, before) == [] && Tracked(p, after) == [])
  }

  predicate IsAround(all: seq<Event>, before: seq<Event>, turn: seq<Event>, after: seq<Event>) {
    all == before + turn + after
  }

  // ---- In the open period ----

  function HereOf<S>(p: Periodic<S>, l: Loading<S>): Read {
    if IsOpen(p, l.first) then l.first else l.other
  }

  lemma InOpenIsDecided<S>(a: Attempt, p: Periodic<S>, l: Loading<S>)
    requires IsLoading(p, l) && l.out.InOpen? && Brings(a, p, l)
    ensures DecidedIn(a, p, l.out.key, HereOf(p, l))
  {
    PartIsRead(a.model.value, PlanOf(p, l), HereOf(p, l));
  }

  /** In every run, from the acceptance of a command that loaded an open period to its commit, no closing of that period is
      committed. */
  lemma LoadedIsNotClosed<S>(run: seq<Db>, steps: seq<Action>, i: nat, t: nat, a: Attempt, req: Request, p: Periodic<S>, l: Loading<S>, r: Row)
    requires IsRun(run, steps) && i < |run| && IsRunning(run[i], t) && Runs(run[i], t, a, req) && IsConditioned(a, req)
    requires IsLoading(p, l) && l.out.InOpen? && Brings(a, p, l) && ClosingIsBound(p, l.out.key)
    requires IsCommitted(run[i], r)
    ensures !QueryMatches(ClosingQuery(p, l.out.key), r.event)
  {
    InOpenIsDecided(a, p, l);
    NeverIntoAClosedPeriod(run, steps, i, t, a, req, p, l.out.key, HereOf(p, l), r);
  }

  // ---- Turning ----

  lemma TurnIsAllTracked<S(!new)>(p: Periodic<S>, current: Option<string>, target: string, first: Read, other: Read)
    requires Faithful(p)
    ensures var turn := TurnOf(p, current, target, first, other); Tracked(p, turn) == turn
  {
    var turn := TurnOf(p, current, target, first, other);
    if current.None? {
      assert turn[..0] == [] && [] + [turn[0]] == turn;
    } else {
      assert turn[..1][..0] == [] && turn[..1] == [turn[0]] && [turn[0]] + [turn[1]] == turn;
      assert Tracked(p, turn[..1]) == [turn[0]];
    }
  }

  /** A committed command that loaded and turned. */
  ghost predicate TurnsByLoading<S>(db: Db, p: Periodic<S>, t: nat, a: Attempt, req: Request, l: Loading<S>) {
    && t in db.txs && db.txs[t].status == Committed && db.txs[t].xid.Some?
    && Runs(db, t, a, req) && OutcomeOf(a) == Boundary(req)
    && IsLoading(p, l) && l.out.Turned? && Brings(a, p, l)
  }

  function TurnerOf<S>(t: nat, a: Attempt, req: Request, l: Loading<S>): Turner {
    Turner(t, a, req, l.target, l.first, l.track, l.other)
  }

  lemma TrackedAmongOthers<S>(p: Periodic<S>, all: seq<Event>, before: seq<Event>, turn: seq<Event>, after: seq<Event>)
    requires IsAround(all, before, turn, after) && Tracked(p, before) == [] && Tracked(p, after) == [] && Tracked(p, turn) == turn
    ensures Tracked(p, all) == turn
  {
    TrackedConcat(p, before + turn, after);
    TrackedConcat(p, before, turn);
    assert [] + turn == turn && turn + [] == turn;
  }

  /** What a load that turned read and decided. */
  lemma LoadedTurn<S(!new)>(p: Periodic<S>, l: Loading<S>)
    requires Faithful(p) && IsLoading(p, l) && l.out.Turned?
    ensures var current := Tracking(p, EventsOf(l.track.rows));
            && (current.Some? ==> Less(current.value, l.target))
            && l.out.turn == TurnOf(p, current, l.target, l.first, l.other) && Tracked(p, l.out.turn) == l.out.turn
            && l.track.query == TrackingQuery(p) && ReadIn(PlanOf(p, l), l.track)
  {
    TurnIsAllTracked(p, Tracking(p, EventsOf(l.track.rows)), l.target, l.first, l.other);
  }

  lemma BroughtTurn<S(!new)>(a: Attempt, p: Periodic<S>, l: Loading<S>)
    requires Faithful(p) && IsLoading(p, l) && l.out.Turned? && Brings(a, p, l)
    ensures Depends(a, l.track) && Tracked(p, a.turn) == l.out.turn
  {
    var before, after :| IsAround(a.turn, before, l.out.turn, after) && Tracked(p, before) == [] && Tracked(p, after) == [];
    LoadedTurn(p, l);
    TrackedAmongOthers(p, a.turn, before, l.out.turn, after);
    PartIsRead(a.model.value, PlanOf(p, l), l.track);
  }

  lemma TurnedIsATurner<S(!new)>(db: Db, p: Periodic<S>, t: nat, a: Attempt, req: Request, l: Loading<S>)
    requires Faithful(p) && TurnsByLoading(db, p, t, a, req, l)
    ensures HasTurned(db, p, TurnerOf(t, a, req, l))
  {
    LoadedTurn(p, l);
    BroughtTurn(a, p, l);
  }

  /** The entity's openings and closings were appended by commands that loaded its period. */
  ghost predicate OnlyByLoading<S(!new)>(db: Db, p: Periodic<S>) {
    forall r :: IsCommitted(db, r) && QueryMatches(TrackingQuery(p), r.event) ==>
      exists t, a, req, l :: TurnsByLoading(db, p, t, a, req, l) && db.txs[t].xid == Some(r.xid)
  }

  /** In every run, what the loads' turns append of an entity is a period log. */
  lemma LoadsAlternate<S(!new)>(run: seq<Db>, steps: seq<Action>, i: nat, p: Periodic<S>, log: seq<Row>)
    requires IsRun(run, steps) && i < |run| && Faithful(p) && OnlyByLoading(run[i], p) && IsPeriodsOf(run[i], p, log)
    ensures OnlyTurns(run[i], p) && PeriodLog(p, EventsOf(log))
  {
    forall r | IsCommitted(run[i], r) && QueryMatches(TrackingQuery(p), r.event)
      ensures exists x :: HasTurned(run[i], p, x) && XidOf(run[i], x) == r.xid
    {
      var t, a, req, l :| TurnsByLoading(run[i], p, t, a, req, l) && run[i].txs[t].xid == Some(r.xid);
      TurnedIsATurner(run[i], p, t, a, req, l);
    }
    ItsPeriodsAreALog(run, steps, i, p, log);
  }

  // ---- The state a turn carries ----

  /** What a committed command read of a query is what commands with lower transaction ids committed of it. */
  lemma ReadIsTheLogBelow(run: seq<Db>, steps: seq<Action>, i: nat, t: nat, a: Attempt, req: Request, read: Read, log: seq<Row>)
    requires IsRun(run, steps) && i < |run| && t in run[i].txs && run[i].txs[t].status == Committed && run[i].txs[t].xid.Some?
    requires Runs(run[i], t, a, req) && OutcomeOf(a) == Boundary(req) && Depends(a, read)
    requires Ordered(log) && forall r :: r in log <==> IsCommitted(run[i], r) && QueryMatches(read.query, r.event) && r.xid < run[i].txs[t].xid.value
    requires forall r :: r in log ==> IsACommands(run[i], r)
    ensures read.rows == log
  {
    EveryStateIsOk(run, steps, i);
    assert ReadOk(run[i], run[i].txs[t], read);
    forall r ensures r in read.rows <==> r in log {
      if r in log {
        CommandsAreSerial(run, steps, i, t, a, req, read, r);
      }
    }
    OrderIsUnique(read.rows, log);
  }

  predicate IsACommands(db: Db, r: Row) {
    r.xid in db.owners && db.owners[r.xid] in db.txs && db.txs[db.owners[r.xid]].command
  }

  /** The openings and closings a committed turn wrote are those its load built. */
  lemma TurnIsWritten<S(!new)>(run: seq<Db>, steps: seq<Action>, i: nat, p: Periodic<S>, t: nat, a: Attempt, req: Request, l: Loading<S>) returns (own: seq<Row>)
    requires IsRun(run, steps) && i < |run| && Faithful(p) && TurnsByLoading(run[i], p, t, a, req, l)
    ensures Ordered(own) && EventsOf(own) == l.out.turn
    ensures forall r :: r in own <==> IsCommitted(run[i], r) && Some(r.xid) == run[i].txs[t].xid && QueryMatches(TrackingQuery(p), r.event)
  {
    var all := OwnRows(run, steps, i, t, req);
    own := Matched(TrackingQuery(p), all);
    MatchedIsOrdered(TrackingQuery(p), all);
    TrackedOf(p, all);
    BroughtTurn(a, p, l);
    RequestsItsEvents(a, req);
    TrackedConcat(p, a.turn, a.own);
    assert Tracked(p, a.turn) + [] == Tracked(p, a.turn);
  }

  /** In every run, a turn from the period `k` closes it and opens the next from one state: the fold of what commands with
      lower transaction ids committed in `k`. */
  lemma TheBalanceIsCarried<S(!new)>(run: seq<Db>, steps: seq<Action>, i: nat, p: Periodic<S>, t: nat, a: Attempt, req: Request, l: Loading<S>,
                                     k: string, log: seq<Row>) returns (own: seq<Row>)
    requires IsRun(run, steps) && i < |run| && Faithful(p) && TurnsByLoading(run[i], p, t, a, req, l)
    requires LeavesOpen(p, EventsOf(l.track.rows), k)
    requires Ordered(log)
    requires forall r :: r in log <==> IsCommitted(run[i], r) && QueryMatches(l.other.query, r.event) && r.xid < run[i].txs[t].xid.value
    requires forall r :: r in log ==> IsACommands(run[i], r)
    ensures M.IsBoundary(In(p, k), false, l.other.query)
    ensures Ordered(own) && forall r :: r in own <==> IsCommitted(run[i], r) && Some(r.xid) == run[i].txs[t].xid && QueryMatches(TrackingQuery(p), r.event)
    ensures var s := StateOf(In(p, k), log); EventsOf(own) == [p.closing(s, k), p.opening(s, l.target)]
  {
    TrackingExactly(p, EventsOf(l.track.rows), k);
    TurnCarriesOver(p, l.tagKeys, l.target, l.first, l.track, l.other, l.out);
    PartIsRead(a.model.value, PlanOf(p, l), l.other);
    ReadIsTheLogBelow(run, steps, i, t, a, req, l.other, log);
    own := TurnIsWritten(run, steps, i, p, t, a, req, l);
  }
}
