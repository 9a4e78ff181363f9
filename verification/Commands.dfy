/** How a command turns what it read into the condition of its one append, and what an accepted append then means
    (packages/commands/src/Command.ts, packages/commands/src/CommandDecision.ts, packages/commands/src/Model.ts). */
module Commands {
  import opened Options
  import opened Events
  import opened LogPositions
  import opened Store
  import RS = ReadSnapshot

  /** What a load hands to the handler: the query to condition on, the cursor of a lone read, a cursor before anything
      the load could have missed, and the text of what all its reads saw. */
  datatype Loaded = Loaded(boundary: Query, logPosition: LogPosition, horizon: LogPosition, seen: Option<string>)

  /** The last settled row of a read, or the start of the log. */
  function CursorOf(rows: seq<Row>, settledBelow: nat): Cursor {
    if rows == [] then START
    else if rows[|rows| - 1].xid < settledBelow then rows[|rows| - 1].At()
    else CursorOf(rows[..|rows| - 1], settledBelow)
  }

  function HorizonOf(read: Read): LogPosition {
    LogPosition(0, Some(read.seen.xmin))
  }

  /** One model: one read. */
  function LoadOne(read: Read): Loaded {
    Loaded(read.query, At(CursorOf(read.rows, read.settledBelow)), HorizonOf(read), Some(RS.Format(read.seen)))
  }

  function SeenOf(c: RS.Combined): Option<string> {
    if c.Seen? then Some(c.text) else None
  }

  function Seens(parts: seq<Loaded>): seq<Option<string>>
    ensures |Seens(parts)| == |parts| && forall i :: 0 <= i < |parts| ==> Seens(parts)[i] == parts[i].seen
  {
    seq(|parts|, i requires 0 <= i < |parts| => parts[i].seen)
  }

  function Boundaries(parts: seq<Loaded>): seq<Query>
    ensures |Boundaries(parts)| == |parts| && forall i :: 0 <= i < |parts| ==> Boundaries(parts)[i] == parts[i].boundary
  {
    seq(|parts|, i requires 0 <= i < |parts| => parts[i].boundary)
  }

  function EarliestHorizon(parts: seq<Loaded>): LogPosition
    requires parts != []
  {
    if |parts| == 1 then parts[0].horizon
    else Earliest(EarliestHorizon(parts[..|parts| - 1]), parts[|parts| - 1].horizon)
  }

  /** `all(...)`: the union of the members' queries, the earliest of their horizons, what every member saw. */
  function LoadAll(members: seq<Loaded>): Loaded {
    var horizon := if members == [] then ZERO else EarliestHorizon(members);
    Loaded(Union(Boundaries(members)), horizon, horizon, SeenOf(RS.IntersectAll(Seens(members))))
  }

  /** The turn of a period: the period now falls in, the entity's openings and closings, and the period to close if
      one is open; combined pair by pair as `load` does it. */
  function LoadTurn(first: Loaded, track: Loaded, open: Option<Loaded>): Loaded {
    var two := LoadAll([first, track]);
    if open.None? then two else LoadAll([two, open.value])
  }

  /** What a load is made of: one model's read, several models together, or the reads of a turn. */
  datatype Plan = One(read: Read) | All(members: seq<Plan>) | Turn(first: Read, track: Read, open: Option<Read>)

  function LoadOf(plan: Plan): Loaded {
    match plan
    case One(read) => LoadOne(read)
    case All(members) => LoadAll(LoadsOf(members))
    case Turn(first, track, open) => LoadTurn(LoadOne(first), LoadOne(track), if open.Some? then Some(LoadOne(open.value)) else None)
  }

  function LoadsOf(plans: seq<Plan>): (ls: seq<Loaded>)
    ensures |ls| == |plans| && forall i :: 0 <= i < |plans| ==> ls[i] == LoadOf(plans[i])
  {
    if plans == [] then [] else [LoadOf(plans[0])] + LoadsOf(plans[1..])
  }

  predicate ReadIn(plan: Plan, read: Read) {
    match plan
    case One(r) => r == read
    case All(members) => exists m :: m in members && ReadIn(m, read)
    case Turn(first, track, open) => read == first || read == track || open == Some(read)
  }

  datatype Consistency = Strict | Concurrent(guard: Option<Query>)

  /** What the model's load brought: the load itself, the events that turn a period, and the guard of its period. */
  datatype Model = Model(load: Loaded, turn: seq<Event>, guard: Option<Query>)

  datatype Defect = StrictNeedsModel | GuardNeedsModel | GuardIsAll | GuardOverlaps | KeyIsEmpty

  datatype Outcome =
    | Refused(defect: Defect)
    | Boundary(request: Request)
    | Guard(request: Request)
    | Commuting(request: Request)

  function ReadsQuery(lookups: seq<Loaded>): Option<Query> {
    if lookups == [] then None else Some(Union(Boundaries(lookups)))
  }

  /** The condition's cursor: the model's own position when nothing was looked up, else the earliest horizon. */
  function CursorFor(model: Option<Model>, lookups: seq<Loaded>): LogPosition {
    if model.Some? && lookups == [] then model.value.load.logPosition
    else
      var parts := (if model.Some? then [model.value.load] else []) + lookups;
      if parts == [] then ZERO else EarliestHorizon(parts)
  }

  function SeenFor(model: Option<Model>, lookups: seq<Loaded>): Option<string> {
    SeenOf(RS.IntersectAll(Seens((if model.Some? then [model.value.load] else []) + lookups)))
  }

  predicate Types(q: Query, es: seq<Event>) {
    exists item, e :: item in q.items && e in es && e.etype in item.types
  }

  function Conditioned(es: seq<Event>, after: LogPosition, concurrency: Query, idempotency: Option<Query>, seen: Option<string>): Request {
    var parts := if seen.Some? then RS.Parse(seen.value) else None;
    Request(es, Condition(after, concurrency, if idempotency.Some? then idempotency.value else NO_CONDITION, parts, true))
  }

  function Listed(q: Option<Query>): seq<Query> {
    if q.Some? then [q.value] else []
  }

  /** Everything that was read. */
  function StrictBoundary(model: Option<Model>, lookups: seq<Loaded>): Query {
    Union((if model.Some? then [model.value.load.boundary] else []) + Listed(ReadsQuery(lookups)))
  }

  /** The guard given, the guard of the model's period, and what was looked up. */
  function GuardQuery(model: Option<Model>, lookups: seq<Loaded>, given: Option<Query>): Query {
    Union(Listed(given) + (if model.Some? then Listed(model.value.guard) else []) + Listed(ReadsQuery(lookups)))
  }

  /** Step 5 of the handler: the events of the turn ahead of the command's own, under the condition the consistency
      implies. */
  function BuildAppend(model: Option<Model>, lookups: seq<Loaded>, given: Option<Consistency>, own: seq<Event>, idempotency: Option<Query>): Outcome {
    var consistency := if given.Some? then given.value else if model.Some? then Strict else Concurrent(None);
    var turn := if model.Some? then model.value.turn else [];
    var es := turn + own;
    var readQuery := ReadsQuery(lookups);
    var overlaps := readQuery.Some? && (readQuery.value.all || Types(readQuery.value, es));
    var seen := SeenFor(model, lookups);
    if consistency.Strict? || turn != [] || overlaps then
      if model.None? && readQuery.None? then Refused(StrictNeedsModel)
      else
        Boundary(Conditioned(es, CursorFor(model, lookups), StrictBoundary(model, lookups), idempotency, seen))
    else if consistency.guard.Some? || (model.Some? && model.value.guard.Some?) || readQuery.Some? then
      if model.None? && readQuery.None? then Refused(GuardNeedsModel)
      else
        var guard := GuardQuery(model, lookups, consistency.guard);
        if guard.all then Refused(GuardIsAll)
        else if Types(guard, es) then Refused(GuardOverlaps)
        else Guard(Conditioned(es, CursorFor(model, lookups), guard, idempotency, seen))
    else Commuting(Conditioned(es, ZERO, NO_CONDITION, idempotency, None))
  }
}

/** What the handler's condition is worth, over the store. */
module CommandProofs {
  import opened Options
  import opened Events
  import opened LogPositions
  import opened Store
  import opened StoreInvariant
  import opened StoreRuns
  import opened Commands
  import RS = ReadSnapshot

  /** A load's horizon and snapshot as the store makes them. */
  ghost predicate Usable(l: Loaded) {
    && l.horizon.xid.Some? && l.horizon.xid.value >= 1 && l.horizon.pos == 0
    && (l.seen.Some? ==> RS.IsSnapshotText(l.seen.value))
  }

  /** A load answers for a read: its boundary covers the read's query, its cursors skip nothing the read could have
      missed, and what it says was seen, the read saw. */
  ghost predicate Covers(l: Loaded, read: Read) {
    && (forall e :: QueryMatches(read.query, e) ==> ConditionMatches(l.boundary, e))
    && Bounds(l.horizon, read) && Bounds(l.logPosition, read)
    && (l.seen.Some? ==> forall x :: RS.SeesText(l.seen.value, x) ==> RS.Sees(read.seen, x))
  }

  /** Every point of the log the cursor skips was seen by the read's snapshot, or settled for the read. */
  ghost predicate Bounds(after: LogPosition, read: Read) {
    forall c: Cursor :: c.xid >= 1 && c.pos >= 1 && !IsAfter(after, c) ==> RS.Sees(read.seen, c.xid) || c.xid < read.settledBelow
  }

  /** The condition refuses every matching row the read could have missed. */
  ghost predicate Guards(c: Condition, read: Read) {
    forall r: Row :: r.xid >= 1 && r.pos >= 1 && QueryMatches(read.query, r.event) && !Conflicts(c, None, r)
      ==> RS.Sees(read.seen, r.xid) || r.xid < read.settledBelow
  }

  /** Every row the condition is about and lets pass was seen by the read, or settled for it. */
  ghost predicate LetsPassTheSeen(c: Condition, read: Read) {
    forall r: Row :: r.xid >= 1 && r.pos >= 1 && ConditionMatches(c.concurrency, r.event) && !Conflicts(c, None, r)
      ==> RS.Sees(read.seen, r.xid) || r.xid < read.settledBelow
  }

  lemma {:induction false} CursorIsSettled(rows: seq<Row>, settledBelow: nat)
    ensures var c := CursorOf(rows, settledBelow); c == START || c.xid < settledBelow
  {
    if rows != [] && rows[|rows| - 1].xid >= settledBelow {
      CursorIsSettled(rows[..|rows| - 1], settledBelow);
    }
  }

  /** A lone read's load answers for it exactly when its query is not the one without items, which reads everything and
      conditions on nothing. */
  lemma LoadOneCovers(read: Read)
    requires RS.WellFormed(read.seen) && read.seen.xmin >= 1 && WellBuilt(read.query)
    ensures Usable(LoadOne(read)) && (Covers(LoadOne(read), read) <==> !IsEmpty(read.query))
  {
    CursorIsSettled(read.rows, read.settledBelow);
    RS.ParseFormat(read.seen);
    ReadAndConditionAgree(read.query);
    var e := Event("", [], "");
    assert IsEmpty(read.query) ==> QueryMatches(read.query, e) && !ConditionMatches(LoadOne(read).boundary, e);
  }

  lemma {:induction false} EarliestHorizonIsLowest(parts: seq<Loaded>)
    requires parts != [] && forall l :: l in parts ==> Usable(l)
    ensures var h := EarliestHorizon(parts); h.xid.Some? && h.xid.value >= 1 && h.pos == 0
    ensures forall l :: l in parts ==> Usable(l) && EarliestHorizon(parts).xid.value <= l.horizon.xid.value
  {
    var last := parts[|parts| - 1];
    assert last in parts;
    if |parts| > 1 {
      var front := parts[..|parts| - 1];
      assert parts == front + [last];
      EarliestHorizonIsLowest(front);
      EarliestIsLower(EarliestHorizon(front), last.horizon);
      forall l | l in parts ensures EarliestHorizon(parts).xid.value <= l.horizon.xid.value {
        assert l == last || l in front;
      }
    }
  }

  lemma EarliestIsLower(a: LogPosition, b: LogPosition)
    requires a.xid.Some? && a.xid.value >= 1 && a.pos == 0 && b.xid.Some? && b.xid.value >= 1 && b.pos == 0
    ensures Earliest(a, b) in {a, b}
    ensures Earliest(a, b).xid.value <= a.xid.value && Earliest(a, b).xid.value <= b.xid.value
  {
  }

  lemma SeensSeeAll(parts: seq<Loaded>)
    requires forall l :: l in parts ==> Usable(l)
    ensures var seen := SeenOf(RS.IntersectAll(Seens(parts)));
            seen.Some? ==> RS.IsSnapshotText(seen.value)
                           && forall l, x :: l in parts && RS.SeesText(seen.value, x) ==> l.seen.Some? && RS.SeesText(l.seen.value, x)
  {
    var texts := Seens(parts);
    forall t | t in texts && t.Some? ensures RS.IsSnapshotText(t.value) {
      var i :| 0 <= i < |parts| && texts[i] == t;
      assert parts[i] in parts;
    }
    RS.IntersectAllSeesAll(texts);
    var seen := SeenOf(RS.IntersectAll(texts));
    if seen.Some? {
      forall l, x | l in parts && RS.SeesText(seen.value, x) ensures l.seen.Some? && RS.SeesText(l.seen.value, x) {
        var i :| 0 <= i < |parts| && parts[i] == l;
        assert texts[i] in texts;
      }
    }
  }

  lemma LowerHorizonBounds(h: LogPosition, l: Loaded, read: Read)
    requires Usable(l) && Bounds(l.horizon, read)
    requires h.xid.Some? && h.pos == 0 && h.xid.value <= l.horizon.xid.value
    ensures Bounds(h, read)
  {
    forall c: Cursor | c.xid >= 1 && c.pos >= 1 && !IsAfter(h, c)
      ensures RS.Sees(read.seen, c.xid) || c.xid < read.settledBelow
    {
      assert !IsAfter(l.horizon, c);
    }
  }

  /** Loads combined, members of `all` or reads of a turn, answer for every read each of them answered for. */
  lemma LoadAllCovers(members: seq<Loaded>)
    requires members != [] && forall l :: l in members ==> Usable(l)
    ensures Usable(LoadAll(members))
    ensures forall l, read :: l in members && Covers(l, read) ==> Covers(LoadAll(members), read)
  {
    EarliestHorizonIsLowest(members);
    SeensSeeAll(members);
    forall l, read | l in members && Covers(l, read) ensures Covers(LoadAll(members), read) {
      LowerHorizonBounds(EarliestHorizon(members), l, read);
      forall e | QueryMatches(read.query, e) ensures ConditionMatches(LoadAll(members).boundary, e) {
        UnionMatches(Boundaries(members), e);
        var i :| 0 <= i < |members| && members[i] == l;
        assert Boundaries(members)[i] in Boundaries(members);
      }
    }
  }

  lemma LoadTurnCovers(first: Loaded, track: Loaded, open: Option<Loaded>)
    requires Usable(first) && Usable(track) && (open.Some? ==> Usable(open.value))
    ensures Usable(LoadTurn(first, track, open))
    ensures forall l, read :: (l == first || l == track || open == Some(l)) && Covers(l, read) ==> Covers(LoadTurn(first, track, open), read)
  {
    LoadAllCovers([first, track]);
    if open.Some? {
      LoadAllCovers([LoadAll([first, track]), open.value]);
    }
  }

  /** What every load of this store satisfies: its reads carry the snapshot they were taken after and a query of their
      own, and no `all` is empty. */
  predicate Proper(plan: Plan) {
    match plan
    case One(read) => ProperRead(read)
    case All(members) => members != [] && forall m :: m in members ==> Proper(m)
    case Turn(first, track, open) => ProperRead(first) && ProperRead(track) && (open.Some? ==> ProperRead(open.value))
  }

  predicate ProperRead(read: Read) {
    RS.WellFormed(read.seen) && read.seen.xmin >= 1 && WellBuilt(read.query) && !IsEmpty(read.query)
  }

  ghost predicate AllReadsSee(plan: Plan, x: nat) {
    forall read :: ReadIn(plan, read) ==> RS.Sees(read.seen, x)
  }

  ghost predicate AllLoadsSee(loads: seq<Loaded>, x: nat) {
    forall l :: l in loads ==> l.seen.Some? && RS.SeesText(l.seen.value, x)
  }

  /** What a load saw is exactly what all its reads saw. */
  ghost predicate SeesTheReads(plan: Plan) {
    var seen := LoadOf(plan).seen;
    seen.Some? && forall x :: RS.SeesText(seen.value, x) <==> AllReadsSee(plan, x)
  }

  lemma {:induction false} PlanCovers(plan: Plan)
    requires Proper(plan)
    ensures Usable(LoadOf(plan))
    ensures forall read :: ReadIn(plan, read) ==> Covers(LoadOf(plan), read)
    decreases plan
  {
    match plan
    case One(read) => LoadOneCovers(read);
    case All(members) =>
      var loads := LoadsOf(members);
      forall m | m in members ensures Usable(LoadOf(m)) && forall read :: ReadIn(m, read) ==> Covers(LoadOf(m), read) {
        PlanCovers(m);
      }
      LoadAllCovers(loads);
      forall read | ReadIn(plan, read) ensures Covers(LoadOf(plan), read) {
        var i :| 0 <= i < |members| && ReadIn(members[i], read);
        assert loads[i] in loads && Covers(loads[i], read);
      }
    case Turn(first, track, open) =>
      LoadOneCovers(first);
      LoadOneCovers(track);
      if open.Some? {
        LoadOneCovers(open.value);
      }
      LoadTurnCovers(LoadOne(first), LoadOne(track), if open.Some? then Some(LoadOne(open.value)) else None);
  }

  /** `seen` of several loads: exactly what each of them saw. */
  lemma SeensSeeExactly(parts: seq<Loaded>)
    requires parts != [] && forall l :: l in parts ==> l.seen.Some? && RS.IsSnapshotText(l.seen.value)
    ensures var seen := SeenOf(RS.IntersectAll(Seens(parts)));
            seen.Some? && RS.IsSnapshotText(seen.value)
            && forall x :: RS.SeesText(seen.value, x) <==> AllLoadsSee(parts, x)
  {
    var texts := Seens(parts);
    forall t | t in texts ensures t.Some? && RS.IsSnapshotText(t.value) {
      var i :| 0 <= i < |parts| && texts[i] == t;
      assert parts[i] in parts;
    }
    RS.IntersectAllSeesAll(texts);
    var seen := SeenOf(RS.IntersectAll(texts));
    forall x ensures RS.SeesText(seen.value, x) <==> AllLoadsSee(parts, x) {
      if forall t :: t in texts ==> RS.SeesText(t.value, x) {
        forall l | l in parts ensures RS.SeesText(l.seen.value, x) {
          var i :| 0 <= i < |parts| && parts[i] == l;
          assert texts[i] in texts;
        }
      }
      if AllLoadsSee(parts, x) {
        forall t | t in texts ensures RS.SeesText(t.value, x) {
          var i :| 0 <= i < |parts| && texts[i] == t;
          assert parts[i] in parts;
        }
      }
    }
  }

  lemma {:induction false} PlanSees(plan: Plan)
    requires Proper(plan)
    ensures Usable(LoadOf(plan)) && SeesTheReads(plan)
    decreases plan
  {
    PlanCovers(plan);
    match plan
    case One(read) => RS.ParseFormat(read.seen);
    case All(members) =>
      var loads := LoadsOf(members);
      forall i | 0 <= i < |members| ensures loads[i].seen.Some? && Usable(loads[i]) && SeesTheReads(members[i]) && members[i] in members {
        PlanSees(members[i]);
      }
      SeensSeeExactly(loads);
      forall x: nat ensures AllLoadsSee(loads, x) <==> AllReadsSee(plan, x) {
        MembersSee(members, x);
      }
    case Turn(first, track, open) =>
      TurnSees(first, track, open);
  }

  lemma PairSees(a: Loaded, b: Loaded)
    requires a.seen.Some? && RS.IsSnapshotText(a.seen.value) && b.seen.Some? && RS.IsSnapshotText(b.seen.value)
    ensures var seen := LoadAll([a, b]).seen;
            seen.Some? && RS.IsSnapshotText(seen.value)
            && forall x :: RS.SeesText(seen.value, x) <==> RS.SeesText(a.seen.value, x) && RS.SeesText(b.seen.value, x)
  {
    SeensSeeExactly([a, b]);
    forall x: nat ensures AllLoadsSee([a, b], x) <==> RS.SeesText(a.seen.value, x) && RS.SeesText(b.seen.value, x) {
      assert a in [a, b] && b in [a, b];
    }
  }

  /** What the loads of a turn saw, put together in its order. */
  lemma TurnSeesItsLoads(first: Loaded, track: Loaded, open: Option<Loaded>)
    requires first.seen.Some? && RS.IsSnapshotText(first.seen.value) && track.seen.Some? && RS.IsSnapshotText(track.seen.value)
    requires open.Some? ==> open.value.seen.Some? && RS.IsSnapshotText(open.value.seen.value)
    ensures var seen := LoadTurn(first, track, open).seen;
            seen.Some? && forall x :: RS.SeesText(seen.value, x) <==>
              RS.SeesText(first.seen.value, x) && RS.SeesText(track.seen.value, x) && (open.Some? ==> RS.SeesText(open.value.seen.value, x))
  {
    PairSees(first, track);
    if open.Some? {
      PairSees(LoadAll([first, track]), open.value);
    }
  }

  lemma TurnSees(first: Read, track: Read, open: Option<Read>)
    requires Proper(Turn(first, track, open))
    ensures SeesTheReads(Turn(first, track, open))
  {
    var plan := Turn(first, track, open);
    RS.ParseFormat(first.seen);
    RS.ParseFormat(track.seen);
    if open.Some? {
      RS.ParseFormat(open.value.seen);
    }
    TurnSeesItsLoads(LoadOne(first), LoadOne(track), if open.Some? then Some(LoadOne(open.value)) else None);
    forall x: nat
      ensures AllReadsSee(plan, x) <==> RS.Sees(first.seen, x) && RS.Sees(track.seen, x) && (open.Some? ==> RS.Sees(open.value.seen, x))
    {
      assert ReadIn(plan, first) && ReadIn(plan, track) && (open.Some? ==> ReadIn(plan, open.value));
    }
  }

  lemma MembersSee(members: seq<Plan>, x: nat)
    requires forall m :: m in members ==> SeesTheReads(m)
    ensures AllLoadsSee(LoadsOf(members), x) <==> AllReadsSee(All(members), x)
  {
    var loads := LoadsOf(members);
    if AllLoadsSee(loads, x) {
      forall read | ReadIn(All(members), read) ensures RS.Sees(read.seen, x) {
        var i :| 0 <= i < |members| && ReadIn(members[i], read);
        assert loads[i] in loads && members[i] in members;
        assert AllReadsSee(members[i], x);
      }
    }
    if AllReadsSee(All(members), x) {
      forall l | l in loads ensures l.seen.Some? && RS.SeesText(l.seen.value, x) {
        var i :| 0 <= i < |members| && loads[i] == l;
        assert members[i] in members;
        forall read | ReadIn(members[i], read) ensures RS.Sees(read.seen, x) {
          assert ReadIn(All(members), read);
        }
        assert AllReadsSee(members[i], x);
      }
    }
  }

  /** Everything the handler loaded: the model's load, then the lookups'. */
  function Parts(model: Option<Model>, lookups: seq<Loaded>): seq<Loaded> {
    (if model.Some? then [model.value.load] else []) + lookups
  }

  /** What either branch of the handler's condition is about and lets pass, every read behind the model and the lookups
      saw. The strict branch is about everything those reads matched; the guard branch, about what the lookups matched. */
  lemma AppendGuards(model: Option<Model>, lookups: seq<Loaded>, given: Option<Consistency>, own: seq<Event>, idempotency: Option<Query>, l: Loaded, read: Read)
    requires forall p :: p in Parts(model, lookups) ==> Usable(p)
    requires l in Parts(model, lookups) && Covers(l, read)
    ensures match BuildAppend(model, lookups, given, own, idempotency)
            case Boundary(req) => LetsPassTheSeen(req.condition, read) && Guards(req.condition, read)
            case Guard(req) => LetsPassTheSeen(req.condition, read) && (l in lookups ==> Guards(req.condition, read))
            case _ => true
  {
    var out := BuildAppend(model, lookups, given, own, idempotency);
    if out.Boundary? {
      BoundaryCovers(model, lookups, l, read);
      PartsLetPassTheSeen(out.request, model, lookups, StrictBoundary(model, lookups), idempotency, l, read);
    } else if out.Guard? {
      var guard := if given.Some? then given.value.guard else None;
      if l in lookups {
        GuardCovers(model, lookups, guard, l, read);
      }
      PartsLetPassTheSeen(out.request, model, lookups, GuardQuery(model, lookups, guard), idempotency, l, read);
    }
  }

  /** A condition over any query, with the cursor and the snapshot of all that was loaded. */
  lemma PartsLetPassTheSeen(req: Request, model: Option<Model>, lookups: seq<Loaded>, q: Query, idempotency: Option<Query>, l: Loaded, read: Read)
    requires forall p :: p in Parts(model, lookups) ==> Usable(p)
    requires l in Parts(model, lookups) && Covers(l, read)
    requires req == Conditioned(req.events, CursorFor(model, lookups), q, idempotency, SeenFor(model, lookups))
    ensures LetsPassTheSeen(req.condition, read)
  {
    CursorBounds(model, lookups, l, read);
    SeensSeeAll(Parts(model, lookups));
    BoundedLetsPassTheSeen(req, idempotency, CursorFor(model, lookups), q, SeenFor(model, lookups), read);
  }

  lemma CursorBounds(model: Option<Model>, lookups: seq<Loaded>, l: Loaded, read: Read)
    requires forall p :: p in Parts(model, lookups) ==> Usable(p)
    requires l in Parts(model, lookups) && Covers(l, read)
    ensures Bounds(CursorFor(model, lookups), read)
  {
    var parts := Parts(model, lookups);
    if !(model.Some? && lookups == []) {
      EarliestHorizonIsLowest(parts);
      LowerHorizonBounds(EarliestHorizon(parts), l, read);
    }
  }

  lemma BoundedLetsPassTheSeen(req: Request, idempotency: Option<Query>, after: LogPosition, q: Query, seen: Option<string>, read: Read)
    requires req == Conditioned(req.events, after, q, idempotency, seen)
    requires Bounds(after, read)
    requires seen.Some? ==> RS.IsSnapshotText(seen.value) && forall x :: RS.SeesText(seen.value, x) ==> RS.Sees(read.seen, x)
    ensures LetsPassTheSeen(req.condition, read)
  {
    forall r: Row | r.xid >= 1 && r.pos >= 1 && ConditionMatches(q, r.event) && !Conflicts(req.condition, None, r)
      ensures RS.Sees(read.seen, r.xid) || r.xid < read.settledBelow
    {
      if IsAfter(after, r.At()) {
        RS.UnseenIsNotSeen(RS.Parse(seen.value).value, r.xid);
        assert RS.SeesText(seen.value, r.xid);
      }
    }
  }

  lemma LookupsCover(lookups: seq<Loaded>, l: Loaded, read: Read)
    requires l in lookups && Covers(l, read)
    ensures forall e :: QueryMatches(read.query, e) ==> ConditionMatches(ReadsQuery(lookups).value, e)
  {
    var i :| 0 <= i < |lookups| && lookups[i] == l;
    assert Boundaries(lookups)[i] in Boundaries(lookups);
    forall e | QueryMatches(read.query, e) ensures ConditionMatches(ReadsQuery(lookups).value, e) {
      UnionMatches(Boundaries(lookups), e);
    }
  }

  lemma BoundaryCovers(model: Option<Model>, lookups: seq<Loaded>, l: Loaded, read: Read)
    requires l in Parts(model, lookups) && Covers(l, read)
    ensures forall e :: QueryMatches(read.query, e) ==> ConditionMatches(StrictBoundary(model, lookups), e)
  {
    if l in lookups {
      LookupsCover(lookups, l, read);
    }
    forall e | QueryMatches(read.query, e) ensures ConditionMatches(StrictBoundary(model, lookups), e) {
      UnionMatches((if model.Some? then [model.value.load.boundary] else []) + Listed(ReadsQuery(lookups)), e);
    }
  }

  lemma GuardCovers(model: Option<Model>, lookups: seq<Loaded>, given: Option<Query>, l: Loaded, read: Read)
    requires l in lookups && Covers(l, read)
    ensures forall e :: QueryMatches(read.query, e) ==> ConditionMatches(GuardQuery(model, lookups, given), e)
  {
    LookupsCover(lookups, l, read);
    var parts := Listed(given) + (if model.Some? then Listed(model.value.guard) else []) + Listed(ReadsQuery(lookups));
    assert ReadsQuery(lookups).value == parts[|parts| - 1];
    forall e | QueryMatches(read.query, e) ensures ConditionMatches(GuardQuery(model, lookups, given), e) {
      UnionMatches(parts, e);
    }
  }

  /** From the moment a command's append is accepted until it commits, whatever other transactions do: what is committed
      for a query it read is exactly what that read returned. */
  lemma AcceptedMeansUnchanged(db: Db, t: nat, req: Request, read: Read)
    requires Inv(db) && IsRunning(db, t) && db.txs[t].command
    requires req in db.txs[t].appended && read in db.txs[t].loads && Guards(req.condition, read)
    ensures forall r :: r in read.rows <==> IsCommitted(db, r) && QueryMatches(read.query, r.event)
  {
    assert StillHolds(db, req);
    assert ReadOk(db, db.txs[t], read);
  }

  /** So a reload at that moment returns the same rows in the same order, and a decision made on it is the same. */
  lemma ReloadIsTheSame(db: Db, t: nat, req: Request, read: Read, again: seq<Row>)
    requires Inv(db) && IsRunning(db, t) && db.txs[t].command
    requires req in db.txs[t].appended && read in db.txs[t].loads && Guards(req.condition, read)
    requires Ordered(again) && forall r :: r in again <==> Visible(db, None, r) && QueryMatches(read.query, r.event)
    ensures again == read.rows
  {
    AcceptedMeansUnchanged(db, t, req, read);
    assert ReadOk(db, db.txs[t], read);
    OrderIsUnique(again, read.rows);
  }

  /** Committed strict commands are serialisable in log order: replayed by transaction id, each would read exactly what
      it read, the rows of the commands before it and no others. */
  lemma LogOrderIsSerial(db: Db, t: nat, req: Request, read: Read, r: Row)
    requires Inv(db) && t in db.txs && db.txs[t].command && db.txs[t].status == Committed && db.txs[t].xid.Some?
    requires req in db.txs[t].appended && read in db.txs[t].loads && Guards(req.condition, read)
    requires IsCommitted(db, r) && QueryMatches(read.query, r.event) && db.txs[db.owners[r.xid]].command
    ensures r in read.rows <==> r.xid < db.txs[t].xid.value
  {
    var u := db.owners[r.xid];
    assert ReadOk(db, db.txs[t], read);
    if r.xid < db.txs[t].xid.value {
      assert IsBefore(db.txs[u], db.txs[t]);
      assert Precedes(db, db.txs[u], req);
    }
  }

  /** Causal order: a command's own rows come after every row it read, whoever wrote it. */
  lemma ReadsComeBefore(db: Db, t: nat, read: Read, r: Row, own: Row)
    requires Inv(db) && t in db.txs && db.txs[t].command && read in db.txs[t].loads && r in read.rows
    requires own in db.rows && db.owners[own.xid] == t
    ensures r.At().Before(own.At())
  {
    assert ReadOk(db, db.txs[t], read);
  }

  /** A key that recognises its own repeats is used once: of two committed appends under the same idempotency query,
      one does not match it. */
  lemma OneAppendPerKey(db: Db, key: Query, a: Row, b: Row)
    requires Inv(db) && IsCommitted(db, a) && IsCommitted(db, b)
    requires ConditionMatches(key, a.event) && ConditionMatches(key, b.event)
    requires exists p :: p in db.txs[db.owners[a.xid]].appended && p.condition.idempotency == key
    requires exists q :: q in db.txs[db.owners[b.xid]].appended && q.condition.idempotency == key
    ensures a.xid == b.xid
  {
    var p :| p in db.txs[db.owners[a.xid]].appended && p.condition.idempotency == key;
    var q :| q in db.txs[db.owners[b.xid]].appended && q.condition.idempotency == key;
    assert Finds(db, a.xid, q) && Finds(db, b.xid, p);
    assert a.xid != b.xid ==> ExclusiveOnce(db, a.xid, b.xid);
  }
}
