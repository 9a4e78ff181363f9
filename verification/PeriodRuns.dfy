/** The periods of an entity over whole runs of the store: whatever the clocks of racing commands say, their openings and
    closings alternate (packages/commands/src/Model.ts:321-360, packages/commands/src/Command.ts:320, 333). */
module PeriodRuns {
  import opened Options
  import opened Events
  import opened Text
  import opened Store
  import opened StoreInvariant
  import opened StoreRuns
  import opened CommandRuns
  import opened Journal
  import opened Periods

  /** `open` and `close` copy the period they are given, and build events of their types about the entity. */
  ghost predicate Faithful<S(!new)>(p: Periodic<S>) {
    forall s, key ::
      var o, c := p.opening(s, key), p.closing(s, key);
      && o.etype == p.openedType && p.keyOf(o) == key && QueryMatches(TrackingQuery(p), o)
      && c.etype == p.closedType && p.keyOf(c) == key && QueryMatches(TrackingQuery(p), c)
  }

  /** The openings and closings of the entity among the events. */
  function Tracked<S>(p: Periodic<S>, es: seq<Event>): seq<Event> {
    if es == [] then []
    else Tracked(p, es[..|es| - 1]) + if QueryMatches(TrackingQuery(p), es[|es| - 1]) then [es[|es| - 1]] else []
  }

  /** A committed command that turned the period: of its turn, these events are about this entity, and its own events open
      and close nothing. With `all`, the turns of other entities go in the same append. */
  datatype Turner = Turner(t: nat, attempt: Attempt, req: Request, target: string, first: Read, track: Read, other: Read)

  ghost predicate HasTurned<S>(db: Db, p: Periodic<S>, x: Turner) {
    && x.t in db.txs && db.txs[x.t].status == Committed && db.txs[x.t].xid.Some?
    && Runs(db, x.t, x.attempt, x.req) && x.attempt.model.Some?
    && !OutcomeOf(x.attempt).Refused? && (OutcomeOf(x.attempt).Boundary? ==> OutcomeOf(x.attempt).request == x.req)
    && Depends(x.attempt, x.track) && x.track.query == TrackingQuery(p)
    && var current := Tracking(p, EventsOf(x.track.rows));
       (current.Some? ==> Less(current.value, x.target))
       && Tracked(p, x.attempt.turn) == TurnOf(p, current, x.target, x.first, x.other) && Tracked(p, x.attempt.own) == []
  }

  function XidOf(db: Db, x: Turner): nat
    requires x.t in db.txs && db.txs[x.t].xid.Some?
  {
    db.txs[x.t].xid.value
  }

  /** The openings and closings of the entity were appended by turns only. */
  ghost predicate OnlyTurns<S>(db: Db, p: Periodic<S>) {
    forall r :: IsCommitted(db, r) && QueryMatches(TrackingQuery(p), r.event) ==> exists x :: HasTurned(db, p, x) && XidOf(db, x) == r.xid
  }

  /** The committed openings and closings of transactions below `n`, in log order. */
  ghost predicate IsLogBelow<S>(db: Db, p: Periodic<S>, n: nat, log: seq<Row>) {
    Ordered(log) && forall r :: r in log <==> IsCommitted(db, r) && QueryMatches(TrackingQuery(p), r.event) && r.xid < n
  }

  /** An append that turns a period is conditioned on everything that was read, whatever consistency the command chose. */
  lemma TurnsAreStrict(a: Attempt)
    requires a.model.Some? && a.turn != [] && !OutcomeOf(a).Refused?
    ensures OutcomeOf(a).Boundary? && OutcomeOf(a).request.events == a.turn + a.own
  {
  }

  lemma FaithfulTurns<S(!new)>(p: Periodic<S>, current: Option<string>, target: string, first: Read, other: Read)
    requires Faithful(p) && (current.Some? ==> Less(current.value, target))
    ensures IsTurn(p, current, TurnOf(p, current, target, first, other))
  {
  }

  lemma {:induction false} TrackedOf<S>(p: Periodic<S>, rows: seq<Row>)
    ensures EventsOf(Matched(TrackingQuery(p), rows)) == Tracked(p, EventsOf(rows))
  {
    if rows != [] {
      TrackedOf(p, rows[..|rows| - 1]);
      assert EventsOf(rows)[..|rows| - 1] == EventsOf(rows[..|rows| - 1]);
    }
  }

  lemma {:induction false} TrackedConcat<S>(p: Periodic<S>, a: seq<Event>, b: seq<Event>)
    ensures Tracked(p, a + b) == Tracked(p, a) + Tracked(p, b)
  {
    if b == [] {
      assert a + b == a;
    } else {
      TrackedConcat(p, a, b[..|b| - 1]);
      assert (a + b)[..|a + b| - 1] == a + b[..|b| - 1];
    }
  }

  /** What a turner read of the openings and closings is all of them below its own transaction id. */
  lemma TrackIsTheLogBelow<S>(run: seq<Db>, steps: seq<Action>, i: nat, p: Periodic<S>, x: Turner)
    requires IsRun(run, steps) && i < |run| && OnlyTurns(run[i], p) && HasTurned(run[i], p, x)
    requires OutcomeOf(x.attempt).Boundary?
    ensures IsLogBelow(run[i], p, XidOf(run[i], x), x.track.rows)
  {
    TrackRows(run, steps, i, x);
    forall r | IsCommitted(run[i], r) && QueryMatches(TrackingQuery(p), r.event)
      ensures r in x.track.rows <==> r.xid < XidOf(run[i], x)
    {
      var y :| HasTurned(run[i], p, y) && XidOf(run[i], y) == r.xid;
      OwnerOf(run, steps, i, y.t);
      CommandsAreSerial(run, steps, i, x.t, x.attempt, x.req, x.track, r);
    }
  }

  lemma OwnerOf(run: seq<Db>, steps: seq<Action>, i: nat, t: nat)
    requires IsRun(run, steps) && i < |run| && t in run[i].txs && run[i].txs[t].xid.Some?
    ensures run[i].txs[t].xid.value in run[i].owners && run[i].owners[run[i].txs[t].xid.value] == t
  {
    EveryStateIsOk(run, steps, i);
  }

  lemma TrackRows(run: seq<Db>, steps: seq<Action>, i: nat, x: Turner)
    requires IsRun(run, steps) && i < |run| && Runs(run[i], x.t, x.attempt, x.req) && Depends(x.attempt, x.track)
    ensures Ordered(x.track.rows)
    ensures forall r :: r in x.track.rows ==> IsCommitted(run[i], r) && QueryMatches(x.track.query, r.event)
  {
    EveryStateIsOk(run, steps, i);
    assert ReadOk(run[i], run[i].txs[x.t], x.track);
  }

  /** In every run: an entity's openings and closings, in log order, start with an opening, alternate, have increasing keys,
      and leave exactly one period open. */
  lemma {:induction false} PeriodsAlternate<S(!new)>(run: seq<Db>, steps: seq<Action>, i: nat, p: Periodic<S>, n: nat, log: seq<Row>)
    requires IsRun(run, steps) && i < |run| && Faithful(p) && OnlyTurns(run[i], p) && IsLogBelow(run[i], p, n, log)
    ensures PeriodLog(p, EventsOf(log))
    decreases n
  {
    if log != [] {
      var x := EndsWithATurn(run[i], p, n, log);
      LastTurn(run, steps, i, p, x, log);
      PeriodsAlternate(run, steps, i, p, XidOf(run[i], x), x.track.rows);
      TurnerExtends(p, x);
    }
  }

  lemma TurnerExtends<S(!new)>(p: Periodic<S>, x: Turner)
    requires Faithful(p) && PeriodLog(p, EventsOf(x.track.rows))
    requires var current := Tracking(p, EventsOf(x.track.rows)); current.Some? ==> Less(current.value, x.target)
    ensures var es := EventsOf(x.track.rows); PeriodLog(p, es + TurnOf(p, Tracking(p, es), x.target, x.first, x.other))
  {
    var current := Tracking(p, EventsOf(x.track.rows));
    FaithfulTurns(p, current, x.target, x.first, x.other);
    TurnExtends(p, EventsOf(x.track.rows), TurnOf(p, current, x.target, x.first, x.other));
  }

  lemma LastHasTheHighestId(rows: seq<Row>)
    requires Ordered(rows) && rows != []
    ensures forall r :: r in rows ==> r.xid <= rows[|rows| - 1].xid
  {
    forall k | 0 <= k < |rows| ensures rows[k].xid <= rows[|rows| - 1].xid {
      assert k < |rows| - 1 ==> rows[k].At().Before(rows[|rows| - 1].At());
    }
  }

  lemma EndsWithATurn<S>(db: Db, p: Periodic<S>, n: nat, log: seq<Row>) returns (x: Turner)
    requires OnlyTurns(db, p) && IsLogBelow(db, p, n, log) && log != []
    ensures HasTurned(db, p, x) && XidOf(db, x) < n && IsLogBelow(db, p, XidOf(db, x) + 1, log)
  {
    var last := log[|log| - 1];
    assert last in log;
    x :| HasTurned(db, p, x) && XidOf(db, x) == last.xid;
    LastHasTheHighestId(log);
  }

  /** A log that ends with a turner's rows: what it read, then its turn. */
  lemma LastTurn<S>(run: seq<Db>, steps: seq<Action>, i: nat, p: Periodic<S>, x: Turner, log: seq<Row>)
    requires IsRun(run, steps) && i < |run| && OnlyTurns(run[i], p) && HasTurned(run[i], p, x)
    requires IsLogBelow(run[i], p, XidOf(run[i], x) + 1, log)
    ensures IsLogBelow(run[i], p, XidOf(run[i], x), x.track.rows)
    ensures var current := Tracking(p, EventsOf(x.track.rows));
            EventsOf(log) == EventsOf(x.track.rows) + TurnOf(p, current, x.target, x.first, x.other)
  {
    TurnIsTracked(run[i], p, x);
    TrackIsTheLogBelow(run, steps, i, p, x);
    var own := OwnRows(run, steps, i, x.t, x.req);
    NextLoad(TrackingQuery(p), x.track.rows, own, XidOf(run[i], x), log);
    TrackedOf(p, own);
    EventsOfBoth(x.track.rows, Matched(TrackingQuery(p), own));
  }

  lemma TurnIsTracked<S>(db: Db, p: Periodic<S>, x: Turner)
    requires HasTurned(db, p, x)
    ensures OutcomeOf(x.attempt).Boundary?
    ensures Tracked(p, x.req.events) == TurnOf(p, Tracking(p, EventsOf(x.track.rows)), x.target, x.first, x.other)
  {
    TrackedConcat(p, x.attempt.turn, x.attempt.own);
    TurnsAreStrict(x.attempt);
  }

  lemma EventsOfBoth(a: seq<Row>, b: seq<Row>)
    ensures EventsOf(a + b) == EventsOf(a) + EventsOf(b)
  {
  }

  /** All of an entity's committed openings and closings, in log order. */
  ghost predicate IsPeriodsOf<S>(db: Db, p: Periodic<S>, log: seq<Row>) {
    Ordered(log) && forall r :: r in log <==> IsCommitted(db, r) && QueryMatches(TrackingQuery(p), r.event)
  }

  lemma ItsPeriodsAreALog<S(!new)>(run: seq<Db>, steps: seq<Action>, i: nat, p: Periodic<S>, log: seq<Row>)
    requires IsRun(run, steps) && i < |run| && Faithful(p) && OnlyTurns(run[i], p) && IsPeriodsOf(run[i], p, log)
    ensures PeriodLog(p, EventsOf(log))
  {
    XidsAreBelow(run, steps, i);
    PeriodsAlternate(run, steps, i, p, run[i].nextXid, log);
  }

  /** In every run: as soon as there is one, their number is odd, the first and the last are openings, and the period of the
      last is the one that is open. */
  lemma OnePeriodIsOpen<S(!new)>(run: seq<Db>, steps: seq<Action>, i: nat, p: Periodic<S>, log: seq<Row>)
    requires IsRun(run, steps) && i < |run| && Faithful(p) && OnlyTurns(run[i], p)
    requires IsPeriodsOf(run[i], p, log) && log != []
    ensures |log| % 2 == 1 && log[0].event.etype == log[|log| - 1].event.etype == p.openedType
    ensures Tracking(p, EventsOf(log)) == Some(p.keyOf(log[|log| - 1].event))
  {
    ItsPeriodsAreALog(run, steps, i, p, log);
    PeriodLogEnds(p, EventsOf(log));
  }

  /** And every opening but the last is followed by its closing, and by openings of later periods only. */
  lemma PeriodsFollow<S(!new)>(run: seq<Db>, steps: seq<Action>, i: nat, p: Periodic<S>, log: seq<Row>, j: nat, k: nat)
    requires IsRun(run, steps) && i < |run| && Faithful(p) && OnlyTurns(run[i], p)
    requires IsPeriodsOf(run[i], p, log) && j < k < |log| && j % 2 == 0 && k % 2 == 0
    ensures log[j].event.etype == log[k].event.etype == p.openedType && Less(p.keyOf(log[j].event), p.keyOf(log[k].event))
    ensures log[j + 1].event.etype == p.closedType && p.keyOf(log[j + 1].event) == p.keyOf(log[j].event)
  {
    ItsPeriodsAreALog(run, steps, i, p, log);
    PeriodLogAt(p, EventsOf(log), j, k);
  }

  lemma XidsAreBelow(run: seq<Db>, steps: seq<Action>, i: nat)
    requires IsRun(run, steps) && i < |run|
    ensures forall r :: r in run[i].rows ==> r.xid < run[i].nextXid
  {
    EveryStateIsOk(run, steps, i);
  }
}
