/** `idempotentBy: byModel()`: the model shows that the request was done, and the decision answers its repeat
    (packages/commands/src/Command.ts:118-126, 301-314, ADR-0034). */
module ByModel {
  import opened Options
  import opened Events
  import opened Store
  import opened StoreInvariant
  import opened StoreRuns
  import opened Commands
  import opened CommandRuns
  import opened Conditions
  import opened Journal
  import M = Models
  import opened Completion

  datatype Decision = Emit(events: seq<Event>) | Noop | Fail

  /** A command without periods: its members (one, or those of `all`) with their boundaries, and what it decides on their
      states; the input, and what was looked up, are the same for a repeat. */
  datatype Command<!S> = Command(members: seq<M.Model<S>>, boundaries: seq<Query>, decide: seq<S> -> Decision)

  ghost predicate Declared<S>(c: Command<S>) {
    && |c.members| == |c.boundaries| >= 1
    && forall k :: 0 <= k < |c.members| ==> M.IsBoundary(c.members[k], false, c.boundaries[k]) && !IsEmpty(c.boundaries[k])
  }

  /** The plan reads each member once. */
  predicate Loads(plan: Plan, loaded: seq<Read>) {
    (|loaded| == 1 && plan == One(loaded[0]))
    || (plan.All? && |plan.members| == |loaded| && forall k :: 0 <= k < |loaded| ==> plan.members[k] == One(loaded[k]))
  }

  ghost function States<S>(c: Command<S>, rows: seq<seq<Row>>): (states: seq<S>)
    requires |rows| == |c.members|
    ensures |states| == |rows| && forall k :: 0 <= k < |rows| ==> states[k] == StateOf(c.members[k], rows[k])
  {
    seq(|rows|, k requires 0 <= k < |rows| => StateOf(c.members[k], rows[k]))
  }

  ghost function RowsOf(loaded: seq<Read>): (rows: seq<seq<Row>>)
    ensures |rows| == |loaded| && forall k :: 0 <= k < |loaded| ==> rows[k] == loaded[k].rows
  {
    seq(|loaded|, k requires 0 <= k < |loaded| => loaded[k].rows)
  }

  /** The states after the command's own events, folded in memory. */
  ghost function Folded<S>(c: Command<S>, states: seq<S>, own: seq<Event>): (after: seq<S>)
    requires |states| == |c.members| == |c.boundaries|
    ensures |after| == |states| && forall k :: 0 <= k < |states| ==> after[k] == FoldWith(c.members[k], c.boundaries[k], states[k], own)
  {
    seq(|states|, k requires 0 <= k < |states| => FoldWith(c.members[k], c.boundaries[k], states[k], own))
  }

  /** One run of the command: its transaction, the plan of its load with the reads of the members, the lookups of
      `resolve`, the events it appended and the request it made. */
  datatype Run = Run(t: nat, plan: Plan, loaded: seq<Read>, lookups: seq<Plan>, own: seq<Event>, req: Request)

  function AttemptOf(x: Run): Attempt {
    Attempt(Some(x.plan), [], None, x.lookups, None, x.own, None)
  }

  predicate LoadsMembers<S>(c: Command<S>, loaded: seq<Read>) {
    |loaded| == |c.members| == |c.boundaries| && forall k :: 0 <= k < |loaded| ==> loaded[k].query == c.boundaries[k]
  }

  /** It read the members, decided to append, and by its own check a repeat after these events is nothing to do. */
  ghost predicate Decides<S>(c: Command<S>, loaded: seq<Read>, own: seq<Event>)
    requires Declared(c)
  {
    && LoadsMembers(c, loaded)
    && c.decide(States(c, RowsOf(loaded))).Emit?
    && own != [] && IsCompleted(c.members, c.decide(States(c, RowsOf(loaded))).events, own)
    && c.decide(Folded(c, States(c, RowsOf(loaded)), own)).Noop?
  }

  /** The store accepted its append, and it committed. */
  ghost predicate Appended(db: Db, x: Run) {
    && x.t in db.txs && db.txs[x.t].status == Committed && db.txs[x.t].xid.Some?
    && Loads(x.plan, x.loaded)
    && Runs(db, x.t, AttemptOf(x), x.req) && OutcomeOf(AttemptOf(x)) == Boundary(x.req)
  }

  function XidOf(db: Db, x: Run): nat
    requires x.t in db.txs && db.txs[x.t].xid.Some?
  {
    db.txs[x.t].xid.value
  }

  /** Nothing but the given transactions wrote the boundary since the reads. */
  ghost predicate OnlyWrittenBy(db: Db, xids: set<nat>, loaded: seq<Read>) {
    forall k, r :: 0 <= k < |loaded| && IsCommitted(db, r) && QueryMatches(loaded[k].query, r.event) && r.xid !in xids ==> r in loaded[k].rows
  }

  ghost predicate IsLoad(db: Db, q: Query, rows: seq<Row>) {
    Ordered(rows) && forall r :: r in rows <==> IsCommitted(db, r) && QueryMatches(q, r.event)
  }

  lemma ReadsAreReads(db: Db, x: Run)
    requires Inv(db) && Appended(db, x)
    ensures forall k :: 0 <= k < |x.loaded| ==> Depends(AttemptOf(x), x.loaded[k]) && ReadOk(db, db.txs[x.t], x.loaded[k])
  {
    forall k | 0 <= k < |x.loaded| ensures Depends(AttemptOf(x), x.loaded[k]) {
      LoadedIsIn(x.plan, x.loaded, k);
    }
  }

  lemma LoadedIsIn(plan: Plan, loaded: seq<Read>, k: nat)
    requires Loads(plan, loaded) && k < |loaded|
    ensures ReadIn(plan, loaded[k])
  {
    if plan.All? {
      assert plan.members[k] in plan.members && ReadIn(One(loaded[k]), loaded[k]);
    }
  }

  /** What a run read was committed before its own rows. */
  lemma ReadsComeFirst(run: seq<Db>, steps: seq<Action>, i: nat, x: Run, k: nat)
    requires IsRun(run, steps) && i < |run| && Appended(run[i], x) && k < |x.loaded|
    ensures Depends(AttemptOf(x), x.loaded[k]) && Ordered(x.loaded[k].rows)
    ensures forall r :: r in x.loaded[k].rows ==> IsCommitted(run[i], r) && QueryMatches(x.loaded[k].query, r.event) && r.xid < XidOf(run[i], x)
  {
    EveryStateIsOk(run, steps, i);
    ReadsAreReads(run[i], x);
    assert ReadOk(run[i], run[i].txs[x.t], x.loaded[k]);
  }

  lemma XidsAreTheirOwn(run: seq<Db>, steps: seq<Action>, i: nat, x: Run, y: Run)
    requires IsRun(run, steps) && i < |run| && Appended(run[i], x) && Appended(run[i], y)
    ensures XidOf(run[i], x) == XidOf(run[i], y) ==> x.t == y.t
    ensures XidOf(run[i], x) in run[i].owners && run[i].owners[XidOf(run[i], x)] == x.t
  {
    EveryStateIsOk(run, steps, i);
  }

  lemma EventsOfTheOutcome(a: Attempt, req: Request)
    requires OutcomeOf(a) == Boundary(req) && a.turn == []
    ensures req.events == a.own
  {
    assert [] + a.own == a.own;
    RequestsItsEvents(a, req);
  }

  /** A load that returns what the run read and what it appended. */
  ghost predicate AddsOwn(db: Db, x: Run, k: nat, again: seq<Row>)
    requires k < |x.loaded| && x.t in db.txs && db.txs[x.t].xid.Some?
  {
    Ordered(again)
    && forall r :: r in again <==> r in x.loaded[k].rows || (IsCommitted(db, r) && QueryMatches(x.loaded[k].query, r.event) && r.xid == XidOf(db, x))
  }

  /** The fold at the write is that load, member by member. */
  lemma WriteFoldIsTheNextLoad<S>(run: seq<Db>, steps: seq<Action>, i: nat, c: Command<S>, x: Run, again: seq<seq<Row>>)
    requires IsRun(run, steps) && i < |run| && Appended(run[i], x)
    requires LoadsMembers(c, x.loaded)
    requires |again| == |x.loaded| && forall k :: 0 <= k < |again| ==> AddsOwn(run[i], x, k, again[k])
    ensures States(c, again) == Folded(c, States(c, RowsOf(x.loaded)), x.own)
  {
    var rows := OwnRows(run, steps, i, x.t, x.req);
    EventsOfTheOutcome(AttemptOf(x), x.req);
    forall k | 0 <= k < |again|
      ensures StateOf(c.members[k], again[k]) == FoldWith(c.members[k], c.boundaries[k], StateOf(c.members[k], x.loaded[k].rows), x.own)
    {
      MemberFold(run, steps, i, c.members[k], x, k, rows, again[k]);
    }
    MemberByMember(c, x.loaded, x.own, again);
  }

  lemma MemberByMember<S>(c: Command<S>, loaded: seq<Read>, own: seq<Event>, again: seq<seq<Row>>)
    requires |c.members| == |c.boundaries| == |loaded| == |again|
    requires forall k :: 0 <= k < |again| ==>
               StateOf(c.members[k], again[k]) == FoldWith(c.members[k], c.boundaries[k], StateOf(c.members[k], loaded[k].rows), own)
    ensures States(c, again) == Folded(c, States(c, RowsOf(loaded)), own)
  {
  }

  lemma MemberFold<S>(run: seq<Db>, steps: seq<Action>, i: nat, m: M.Model<S>, x: Run, k: nat, rows: seq<Row>, again: seq<Row>)
    requires IsRun(run, steps) && i < |run| && Appended(run[i], x) && k < |x.loaded| && AddsOwn(run[i], x, k, again)
    requires Ordered(rows) && EventsOf(rows) == x.own && forall r :: r in rows <==> IsCommitted(run[i], r) && r.xid == XidOf(run[i], x)
    ensures StateOf(m, again) == FoldWith(m, x.loaded[k].query, StateOf(m, x.loaded[k].rows), x.own)
  {
    ReadsComeFirst(run, steps, i, x, k);
    NextLoad(x.loaded[k].query, x.loaded[k].rows, rows, XidOf(run[i], x), again);
    WriteFoldIsLoadFold(m, x.loaded[k].query, x.loaded[k].rows, rows);
  }

  /** In every run: once the command has appended, and nothing else wrote its boundary, a repeat of the request decides
      that there is nothing to do. */
  lemma RepeatIsNoop<S>(run: seq<Db>, steps: seq<Action>, i: nat, c: Command<S>, x: Run, again: seq<seq<Row>>)
    requires IsRun(run, steps) && i < |run| && Appended(run[i], x)
    requires Declared(c) && Decides(c, x.loaded, x.own)
    requires OnlyWrittenBy(run[i], {XidOf(run[i], x)}, x.loaded)
    requires |again| == |x.loaded| && forall k :: 0 <= k < |again| ==> IsLoad(run[i], x.loaded[k].query, again[k])
    ensures c.decide(States(c, again)).Noop?
  {
    forall k | 0 <= k < |again| ensures AddsOwn(run[i], x, k, again[k]) {
      RepeatReadsOwn(run, steps, i, x, k, again[k]);
    }
    WriteFoldIsTheNextLoad(run, steps, i, c, x, again);
  }

  lemma RepeatReadsOwn(run: seq<Db>, steps: seq<Action>, i: nat, x: Run, k: nat, again: seq<Row>)
    requires IsRun(run, steps) && i < |run| && Appended(run[i], x) && k < |x.loaded|
    requires OnlyWrittenBy(run[i], {XidOf(run[i], x)}, x.loaded) && IsLoad(run[i], x.loaded[k].query, again)
    ensures AddsOwn(run[i], x, k, again)
  {
    ReadsComeFirst(run, steps, i, x, k);
  }

  /** In every run: of two runs of the same request, at most one appends, when nothing else writes their boundary. */
  lemma AtMostOneAppends<S>(run: seq<Db>, steps: seq<Action>, i: nat, c: Command<S>, x: Run, y: Run)
    requires IsRun(run, steps) && i < |run| && Appended(run[i], x) && Appended(run[i], y)
    requires Declared(c) && Decides(c, x.loaded, x.own) && Decides(c, y.loaded, y.own)
    requires OnlyWrittenBy(run[i], {XidOf(run[i], x), XidOf(run[i], y)}, x.loaded)
    requires OnlyWrittenBy(run[i], {XidOf(run[i], x), XidOf(run[i], y)}, y.loaded)
    ensures x.t == y.t
  {
    XidsAreTheirOwn(run, steps, i, x, y);
    LaterReadsTheEarlier(run, steps, i, c, x, y);
    LaterReadsTheEarlier(run, steps, i, c, y, x);
  }

  /** Of two, the later one in the log read what the earlier one wrote, so it had nothing to append. */
  lemma LaterReadsTheEarlier<S>(run: seq<Db>, steps: seq<Action>, i: nat, c: Command<S>, x: Run, y: Run)
    requires IsRun(run, steps) && i < |run| && Appended(run[i], x) && Appended(run[i], y)
    requires Declared(c) && Decides(c, x.loaded, x.own) && Decides(c, y.loaded, y.own)
    requires OnlyWrittenBy(run[i], {XidOf(run[i], x), XidOf(run[i], y)}, x.loaded)
    requires OnlyWrittenBy(run[i], {XidOf(run[i], x), XidOf(run[i], y)}, y.loaded)
    ensures XidOf(run[i], x) >= XidOf(run[i], y)
  {
    if XidOf(run[i], x) < XidOf(run[i], y) {
      LaterDecidesOnTheEarlier(run, steps, i, c, x, y);
    }
  }

  lemma LaterDecidesOnTheEarlier<S>(run: seq<Db>, steps: seq<Action>, i: nat, c: Command<S>, x: Run, y: Run)
    requires IsRun(run, steps) && i < |run| && Appended(run[i], x) && Appended(run[i], y)
    requires LoadsMembers(c, x.loaded) && LoadsMembers(c, y.loaded)
    requires XidOf(run[i], x) < XidOf(run[i], y)
    requires OnlyWrittenBy(run[i], {XidOf(run[i], x), XidOf(run[i], y)}, x.loaded)
    requires OnlyWrittenBy(run[i], {XidOf(run[i], x), XidOf(run[i], y)}, y.loaded)
    ensures States(c, RowsOf(y.loaded)) == Folded(c, States(c, RowsOf(x.loaded)), x.own)
  {
    forall k | 0 <= k < |y.loaded| ensures AddsOwn(run[i], x, k, y.loaded[k].rows) {
      LaterRead(run, steps, i, x, y, k);
    }
    WriteFoldIsTheNextLoad(run, steps, i, c, x, RowsOf(y.loaded));
  }

  lemma LaterRead(run: seq<Db>, steps: seq<Action>, i: nat, x: Run, y: Run, k: nat)
    requires IsRun(run, steps) && i < |run| && Appended(run[i], x) && Appended(run[i], y)
    requires |x.loaded| == |y.loaded| && k < |x.loaded| && x.loaded[k].query == y.loaded[k].query
    requires XidOf(run[i], x) < XidOf(run[i], y)
    requires OnlyWrittenBy(run[i], {XidOf(run[i], x), XidOf(run[i], y)}, x.loaded)
    requires OnlyWrittenBy(run[i], {XidOf(run[i], x), XidOf(run[i], y)}, y.loaded)
    ensures AddsOwn(run[i], x, k, y.loaded[k].rows)
  {
    ReadsComeFirst(run, steps, i, x, k);
    ReadsComeFirst(run, steps, i, y, k);
    XidsAreTheirOwn(run, steps, i, x, y);
    forall r | IsCommitted(run[i], r) && QueryMatches(y.loaded[k].query, r.event) && r.xid == XidOf(run[i], x)
      ensures r in y.loaded[k].rows
    {
      CommandsAreSerial(run, steps, i, y.t, AttemptOf(y), y.req, y.loaded[k], r);
    }
  }
}
