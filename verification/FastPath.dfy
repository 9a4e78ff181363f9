/** The fast path of a period's load: reading the period's own events decides as reading all openings and closings does
    (packages/commands/src/Model.ts:276-291, 317-323). A query sees types and tags, the tracking the period an event says in
    its data; a turn's events agree on the two. */
module FastPath {
  import opened Options
  import opened Events
  import opened Store
  import opened StoreRuns
  import opened Journal
  import M = Models
  import opened Periods
  import opened PeriodRuns
  import opened Completion

  /** The openings and closings are handled, through the model's own key, and are not lifecycle events. */
  predicate BindsByOwnKey<S>(p: Periodic<S>) {
    && (exists i :: 0 <= i < |p.model.entries| && p.model.entries[i].etype == p.openedType)
    && forall i :: 0 <= i < |p.model.entries| ==> EntryBindsByOwnKey(p, p.model.entries[i])
  }

  predicate EntryBindsByOwnKey<S>(p: Periodic<S>, entry: M.Entry<S>) {
    entry.etype == p.openedType || entry.etype == p.closedType ==>
      && !entry.lifecycle && p.model.key in M.KeysOf(p.model, entry)
      && forall k :: k in M.KeysOf(p.model, entry) ==> M.Lower(k) == M.Lower(p.model.key)
  }

  /** Of the events `open` and `close` build, those of the period, and no others, carry the period's tags. */
  ghost predicate TagsTell<S(!new)>(p: Periodic<S>, key: string) {
    forall s, k :: (M.HasAll(p.tagsOf(key), p.opening(s, k)) <==> k == key) && (M.HasAll(p.tagsOf(key), p.closing(s, k)) <==> k == key)
  }

  predicate IsPeriodEvent<S>(p: Periodic<S>, e: Event) {
    e.etype == p.openedType || e.etype == p.closedType
  }

  lemma OwnEntry<S>(p: Periodic<S>, key: string, etype: string) returns (i: nat)
    requires BindsByOwnKey(p) && (etype == p.openedType || etype == p.closedType)
    ensures var m := In(p, key); i < |m.entries| && m.entries[i].etype == etype && EntryBindsByOwnKey(p, m.entries[i])
  {
    var m := In(p, key);
    if j :| 0 <= j < |p.model.entries| && p.model.entries[j].etype == etype {
      i := j;
    } else {
      i := |p.model.entries|;
    }
  }

  /** The boundary of a period matches an opening or a closing exactly when it carries the entity's tag and the period's. */
  lemma BoundaryByTags<S>(p: Periodic<S>, key: string, q: Query, e: Event)
    requires BindsByOwnKey(p) && M.IsBoundary(In(p, key), false, q) && IsPeriodEvent(p, e)
    ensures QueryMatches(q, e) <==> QueryMatches(TrackingQuery(p), e) && M.HasAll(p.tagsOf(key), e)
  {
    var m := In(p, key);
    var tag := Tag(M.Lower(p.model.key), p.model.id);
    BoundaryHasItems(p, key, q);
    assert QueryMatches(TrackingQuery(p), e) <==> tag in e.tags by {
      assert TrackingQuery(p).items[0] in TrackingQuery(p).items;
    }
    if M.Reads(m, false, e) {
      var i, way :| 0 <= i < |m.entries| && M.BindsBy(m, i, way) && e.etype == m.entries[i].etype && M.HasAll(M.TagsFor(way, m.id, m.scope), e);
      assert EntryBindsByOwnKey(p, m.entries[i]) && M.TagsFor(way, m.id, m.scope) == [tag] + p.tagsOf(key);
      TagsTogether(tag, p.tagsOf(key), e);
    }
    if tag in e.tags && M.HasAll(p.tagsOf(key), e) {
      var i := OwnEntry(p, key, e.etype);
      TagsTogether(tag, p.tagsOf(key), e);
      assert M.BindsBy(m, i, M.Way(false, p.model.key));
      assert M.Reads(m, false, e);
    }
  }

  lemma TagsTogether(tag: Tag, tags: seq<Tag>, e: Event)
    ensures M.HasAll([tag] + tags, e) <==> tag in e.tags && M.HasAll(tags, e)
  {
    if M.HasAll([tag] + tags, e) {
      assert ([tag] + tags)[0] == tag;
      forall t | t in tags ensures t in e.tags {
        assert t in [tag] + tags;
      }
    }
  }

  lemma BoundaryHasItems<S>(p: Periodic<S>, key: string, q: Query)
    requires BindsByOwnKey(p) && M.IsBoundary(In(p, key), false, q)
    ensures q.items != []
  {
    var m := In(p, key);
    var tag := Tag(M.Lower(p.model.key), p.model.id);
    var e := Event(p.openedType, [tag] + p.tagsOf(key), "");
    var i := OwnEntry(p, key, p.openedType);
    assert M.BindsBy(m, i, M.Way(false, p.model.key)) && M.HasAll(M.TagsFor(M.Way(false, p.model.key), m.id, m.scope), e);
    assert M.Reads(m, false, e);
  }

  // ---- What turns append ----

  lemma {:induction false} TrackedHolds<S>(p: Periodic<S>, es: seq<Event>, e: Event)
    requires e in es && QueryMatches(TrackingQuery(p), e)
    ensures e in Tracked(p, es)
  {
    if e != es[|es| - 1] {
      TrackedHolds(p, es[..|es| - 1], e);
    }
  }

  /** Every committed opening or closing of the entity is one that `open` or `close` built. */
  lemma BuiltByATurn<S>(run: seq<Db>, steps: seq<Action>, i: nat, p: Periodic<S>, r: Row) returns (s: S, k: string)
    requires IsRun(run, steps) && i < |run| && OnlyTurns(run[i], p) && IsCommitted(run[i], r) && QueryMatches(TrackingQuery(p), r.event)
    ensures r.event == p.opening(s, k) || r.event == p.closing(s, k)
  {
    var x :| HasTurned(run[i], p, x) && XidOf(run[i], x) == r.xid;
    TurnIsTracked(run[i], p, x);
    var own := OwnRows(run, steps, i, x.t, x.req);
    assert r in own;
    var n :| 0 <= n < |own| && own[n] == r;
    assert EventsOf(own)[n] == r.event;
    TrackedHolds(p, x.req.events, r.event);
    s, k := BuiltBy(p, Tracking(p, EventsOf(x.track.rows)), x.target, x.first, x.other, r.event);
  }

  lemma BuiltBy<S>(p: Periodic<S>, current: Option<string>, target: string, first: Read, other: Read, e: Event) returns (s: S, k: string)
    requires e in TurnOf(p, current, target, first, other)
    ensures e == p.opening(s, k) || e == p.closing(s, k)
  {
    if current.None? {
      s, k := StateOf(In(p, target), first.rows), target;
    } else {
      s := StateOf(In(p, current.value), other.rows);
      k := if e == p.opening(s, target) then target else current.value;
    }
  }

  /** So of the entity's committed openings and closings the period's boundary matches those that say they are of the period. */
  lemma BoundaryByPeriod<S(!new)>(run: seq<Db>, steps: seq<Action>, i: nat, p: Periodic<S>, key: string, q: Query, r: Row)
    requires IsRun(run, steps) && i < |run| && Faithful(p) && OnlyTurns(run[i], p)
    requires BindsByOwnKey(p) && TagsTell(p, key) && M.IsBoundary(In(p, key), false, q)
    requires IsCommitted(run[i], r) && IsPeriodEvent(p, r.event)
    ensures QueryMatches(q, r.event) <==> QueryMatches(TrackingQuery(p), r.event) && p.keyOf(r.event) == key
  {
    BoundaryByTags(p, key, q, r.event);
    if QueryMatches(TrackingQuery(p), r.event) {
      var s, k := BuiltByATurn(run, steps, i, p, r);
      assert p.keyOf(p.opening(s, k)) == k && p.keyOf(p.closing(s, k)) == k;
    }
  }

  lemma HoldsItsEvents<S(!new)>(run: seq<Db>, steps: seq<Action>, i: nat, p: Periodic<S>, key: string, read: Read, log: seq<Row>, etype: string)
    requires IsRun(run, steps) && i < |run| && Faithful(p) && OnlyTurns(run[i], p)
    requires BindsByOwnKey(p) && TagsTell(p, key) && M.IsBoundary(In(p, key), false, read.query)
    requires IsPeriodsOf(run[i], p, log) && (etype == p.openedType || etype == p.closedType)
    requires forall r :: r in read.rows <==> IsCommitted(run[i], r) && QueryMatches(read.query, r.event)
    ensures Holds(read.rows, etype) <==> HasOf(p, EventsOf(log), etype, key)
  {
    if r :| r in read.rows && r.event.etype == etype {
      BoundaryByPeriod(run, steps, i, p, key, read.query, r);
      var k :| 0 <= k < |log| && log[k] == r;
      assert EventsOf(log)[k] == r.event;
    }
    if k :| 0 <= k < |log| && EventsOf(log)[k].etype == etype && p.keyOf(EventsOf(log)[k]) == key {
      assert log[k] in log;
      BoundaryByPeriod(run, steps, i, p, key, read.query, log[k]);
    }
  }

  /** In every run, a read of the period finds it open exactly when the log of the entity's openings and closings leaves it
      open: the load decides with one read as it would with two. */
  lemma FastPathIsTheOpenPeriod<S(!new)>(run: seq<Db>, steps: seq<Action>, i: nat, p: Periodic<S>, key: string, read: Read, log: seq<Row>)
    requires IsRun(run, steps) && i < |run| && Faithful(p) && OnlyTurns(run[i], p) && p.openedType != p.closedType
    requires BindsByOwnKey(p) && TagsTell(p, key) && M.IsBoundary(In(p, key), false, read.query)
    requires IsPeriodsOf(run[i], p, log)
    requires forall r :: r in read.rows <==> IsCommitted(run[i], r) && QueryMatches(read.query, r.event)
    ensures IsOpen(p, read) <==> Tracking(p, EventsOf(log)) == Some(key)
  {
    ItsPeriodsAreALog(run, steps, i, p, log);
    OpenedAndNotClosed(p, EventsOf(log), key);
    HoldsItsEvents(run, steps, i, p, key, read, log, p.openedType);
    HoldsItsEvents(run, steps, i, p, key, read, log, p.closedType);
  }
}
