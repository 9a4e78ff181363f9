/** What the handler decides about its append, for every attempt: when it is strict, guarded, commuting or refused, and every
    field of the request, from the reads, the guards and the key of the attempt alone
    (packages/commands/src/Command.ts:252-255, 316-350, packages/commands/src/CommandDecision.ts:60-97). */
module Conditions {
  import opened Options
  import opened Events
  import opened LogPositions
  import opened Store
  import opened StoreRuns
  import opened Commands
  import opened CommandProofs
  import opened CommandRuns
  import RS = ReadSnapshot

  // ---- What a query is about ----

  /** Everything, or some item of it has the property. */
  ghost predicate IsAbout(q: Query, p: QueryItem -> bool) {
    q.all || exists item :: item in q.items && p(item)
  }

  lemma UnionIsAbout(qs: seq<Query>, p: QueryItem -> bool)
    ensures IsAbout(Union(qs), p) <==> exists q :: q in qs && IsAbout(q, p)
  {
    if !exists q :: q in qs && q.all {
      if IsAbout(Union(qs), p) {
        var item :| item in Union(qs).items && p(item);
        ItemsOfMember(qs, item);
        var q :| q in qs && item in q.items;
        assert IsAbout(q, p);
      }
      if q :| q in qs && IsAbout(q, p) {
        var item :| item in q.items && p(item);
        ItemsOfMember(qs, item);
        assert item in Union(qs).items;
      }
    } else {
      var q :| q in qs && q.all;
      assert IsAbout(q, p);
    }
  }

  lemma AllLoadsAreAbout(parts: seq<Loaded>, p: QueryItem -> bool)
    ensures IsAbout(Union(Boundaries(parts)), p) <==> exists i :: 0 <= i < |parts| && IsAbout(parts[i].boundary, p)
  {
    UnionIsAbout(Boundaries(parts), p);
    if q :| q in Boundaries(parts) && IsAbout(q, p) {
      var i :| 0 <= i < |parts| && Boundaries(parts)[i] == q;
      assert IsAbout(parts[i].boundary, p);
    }
    if i :| 0 <= i < |parts| && IsAbout(parts[i].boundary, p) {
      assert Boundaries(parts)[i] in Boundaries(parts);
    }
  }

  /** The boundary of a load is about what the queries of its reads are about. */
  lemma {:induction false} PlanIsAbout(plan: Plan, p: QueryItem -> bool)
    ensures IsAbout(LoadOf(plan).boundary, p) <==> exists read :: ReadIn(plan, read) && IsAbout(read.query, p)
    decreases plan
  {
    match plan
    case One(read) =>
      assert ReadIn(plan, read);
    case All(members) =>
      var loads := LoadsOf(members);
      AllLoadsAreAbout(loads, p);
      forall i | 0 <= i < |members|
        ensures IsAbout(loads[i].boundary, p) <==> exists read :: ReadIn(members[i], read) && IsAbout(read.query, p)
      {
        PlanIsAbout(members[i], p);
      }
      if i :| 0 <= i < |loads| && IsAbout(loads[i].boundary, p) {
        var read :| ReadIn(members[i], read) && IsAbout(read.query, p);
        assert members[i] in members && ReadIn(plan, read);
      }
      if read :| ReadIn(plan, read) && IsAbout(read.query, p) {
        var m :| m in members && ReadIn(m, read);
        var i :| 0 <= i < |members| && members[i] == m;
        assert IsAbout(loads[i].boundary, p);
      }
    case Turn(first, track, open) =>
      TurnIsAbout(first, track, open, p);
  }

  lemma TurnIsAbout(first: Read, track: Read, open: Option<Read>, p: QueryItem -> bool)
    ensures var plan := Turn(first, track, open); IsAbout(LoadOf(plan).boundary, p) <==> exists read :: ReadIn(plan, read) && IsAbout(read.query, p)
  {
    var plan := Turn(first, track, open);
    PairIsAbout(LoadOne(first), LoadOne(track), p);
    if open.Some? {
      PairIsAbout(LoadAll([LoadOne(first), LoadOne(track)]), LoadOne(open.value), p);
      assert ReadIn(plan, open.value);
    }
    assert ReadIn(plan, first) && ReadIn(plan, track);
  }

  lemma PairIsAbout(a: Loaded, b: Loaded, p: QueryItem -> bool)
    ensures IsAbout(LoadAll([a, b]).boundary, p) <==> IsAbout(a.boundary, p) || IsAbout(b.boundary, p)
  {
    AllLoadsAreAbout([a, b], p);
    assert [a, b][0] == a && [a, b][1] == b;
  }

  lemma LookupsAreAbout(a: Attempt, p: QueryItem -> bool)
    requires a.lookups != []
    ensures IsAbout(ReadsQuery(LoadsOf(a.lookups)).value, p) <==> exists read :: LookedUp(a, read) && IsAbout(read.query, p)
  {
    AllLoadsAreAbout(LoadsOf(a.lookups), p);
    if i :| 0 <= i < |a.lookups| && IsAbout(LoadsOf(a.lookups)[i].boundary, p) {
      PlanIsAbout(a.lookups[i], p);
      var read :| ReadIn(a.lookups[i], read) && IsAbout(read.query, p);
      assert a.lookups[i] in a.lookups && LookedUp(a, read);
    }
    if read :| LookedUp(a, read) && IsAbout(read.query, p) {
      var i :| 0 <= i < |a.lookups| && ReadIn(a.lookups[i], read);
      PlanIsAbout(a.lookups[i], p);
      assert IsAbout(LoadsOf(a.lookups)[i].boundary, p);
    }
  }

  // ---- The attempt in its own terms ----

  /** The turn ahead of the command's own events. */
  function AppendedBy(a: Attempt): seq<Event> {
    if a.model.Some? then a.turn + a.own else a.own
  }

  /** A command with a model is strict unless it says otherwise. */
  predicate IsStrict(a: Attempt) {
    a.given == Some(Strict) || (a.given.None? && a.model.Some?)
  }

  /** The item names a type the attempt appends. */
  predicate NamesOwnType(a: Attempt, item: QueryItem) {
    exists e :: e in AppendedBy(a) && e.etype in item.types
  }

  ghost predicate LooksUpOwnTypes(a: Attempt) {
    exists read :: LookedUp(a, read) && (read.query.all || exists item :: item in read.query.items && NamesOwnType(a, item))
  }

  /** Strict by choice, because it turns a period, or because a lookup could not be a guard. */
  ghost predicate IsAboutEverything(a: Attempt) {
    IsStrict(a) || (a.model.Some? && a.turn != []) || LooksUpOwnTypes(a)
  }

  /** The guard the command gave, or that of the period it decided in. */
  predicate IsGuard(a: Attempt, q: Query) {
    (a.given.Some? && a.given.value == Concurrent(Some(q))) || (a.model.Some? && a.guard == Some(q))
  }

  predicate HasRead(a: Attempt) {
    a.model.Some? || a.lookups != []
  }

  ghost predicate HasGuard(a: Attempt) {
    a.lookups != [] || exists q :: IsGuard(a, q)
  }

  ghost predicate GuardsEverything(a: Attempt) {
    exists q :: IsGuard(a, q) && q.all
  }

  ghost predicate GuardsOwnTypes(a: Attempt) {
    exists q, item :: IsGuard(a, q) && item in q.items && NamesOwnType(a, item)
  }

  // ---- Which outcome ----

  /** The consistency the handler settles on, and what it hands to the append. */
  lemma LookupsOverlap(a: Attempt)
    requires a.lookups != []
    ensures var q := ReadsQuery(LoadsOf(a.lookups)).value; q.all || Types(q, AppendedBy(a)) <==> LooksUpOwnTypes(a)
  {
    var q := ReadsQuery(LoadsOf(a.lookups)).value;
    var p := (item: QueryItem) => NamesOwnType(a, item);
    LookupsAreAbout(a, p);
    if Types(q, AppendedBy(a)) {
      var item, e :| item in q.items && e in AppendedBy(a) && e.etype in item.types;
      assert p(item);
    }
    if IsAbout(q, p) && !q.all {
      var item :| item in q.items && p(item);
      assert NamesOwnType(a, item);
    }
    if LooksUpOwnTypes(a) {
      var read :| LookedUp(a, read) && (read.query.all || exists item :: item in read.query.items && NamesOwnType(a, item));
      if !read.query.all {
        var item :| item in read.query.items && NamesOwnType(a, item);
        assert p(item);
      }
      assert IsAbout(read.query, p);
    }
  }

  function GivenGuard(a: Attempt): Option<Query> {
    if a.given.Some? && a.given.value.Concurrent? then a.given.value.guard else None
  }

  lemma ListedIn(q: Option<Query>, x: Query)
    ensures x in Listed(q) <==> q == Some(x)
  {
  }

  /** The guard is about what the given guard, the period's and the lookups' queries are about. */
  lemma GuardIsAbout(a: Attempt, p: QueryItem -> bool)
    ensures var q := GuardQuery(ModelOf(a), LoadsOf(a.lookups), GivenGuard(a));
            IsAbout(q, p) <==> (exists g :: IsGuard(a, g) && IsAbout(g, p)) || (exists read :: LookedUp(a, read) && IsAbout(read.query, p))
  {
    var lookedUp := ReadsQuery(LoadsOf(a.lookups));
    var own := if a.model.Some? then Listed(a.guard) else [];
    var parts := Listed(GivenGuard(a)) + own + Listed(lookedUp);
    UnionIsAbout(parts, p);
    if a.lookups != [] {
      LookupsAreAbout(a, p);
    }
    forall g ensures g in parts <==> IsGuard(a, g) || lookedUp == Some(g) {
      ListedIn(GivenGuard(a), g);
      ListedIn(a.guard, g);
      ListedIn(lookedUp, g);
    }
  }

  lemma GuardChecks(a: Attempt)
    requires !LooksUpOwnTypes(a)
    ensures var q := GuardQuery(ModelOf(a), LoadsOf(a.lookups), GivenGuard(a));
            (q.all <==> GuardsEverything(a)) && (!q.all ==> (Types(q, AppendedBy(a)) <==> GuardsOwnTypes(a)))
  {
    var q := GuardQuery(ModelOf(a), LoadsOf(a.lookups), GivenGuard(a));
    var none, own := (item: QueryItem) => false, (item: QueryItem) => NamesOwnType(a, item);
    GuardIsAbout(a, none);
    GuardIsAbout(a, own);
    assert forall x: Query :: IsAbout(x, none) <==> x.all;
    forall read | LookedUp(a, read) ensures !IsAbout(read.query, own) && !read.query.all {
    }
    assert q.all <==> GuardsEverything(a);
    if !q.all {
      assert forall g :: IsGuard(a, g) ==> !g.all;
      TypesAreNamed(a, q, own);
    }
  }

  lemma TypesAreNamed(a: Attempt, q: Query, own: QueryItem -> bool)
    requires !q.all && own == (item => NamesOwnType(a, item))
    requires IsAbout(q, own) <==> exists g :: IsGuard(a, g) && IsAbout(g, own)
    requires forall g :: IsGuard(a, g) ==> !g.all
    ensures Types(q, AppendedBy(a)) <==> GuardsOwnTypes(a)
  {
    if Types(q, AppendedBy(a)) {
      var item, e :| item in q.items && e in AppendedBy(a) && e.etype in item.types;
      assert own(item) && IsAbout(q, own);
    }
    if IsAbout(q, own) {
      var g :| IsGuard(a, g) && IsAbout(g, own);
      var item :| item in g.items && own(item);
      assert GuardsOwnTypes(a);
      var i :| i in q.items && own(i);
      assert Types(q, AppendedBy(a));
    }
    if GuardsOwnTypes(a) {
      var g, item :| IsGuard(a, g) && item in g.items && NamesOwnType(a, item);
      assert own(item) && IsAbout(g, own);
    }
  }

  predicate KeySaysNothing(a: Attempt) {
    a.idempotency.Some? && IsEmpty(a.idempotency.value)
  }

  lemma EverythingIsNeeded(a: Attempt)
    ensures var model := ModelOf(a);
            var lookedUp := ReadsQuery(LoadsOf(a.lookups));
            var es := (if model.Some? then model.value.turn else []) + a.own;
            && es == AppendedBy(a)
            && (lookedUp.Some? && (lookedUp.value.all || Types(lookedUp.value, es)) <==> LooksUpOwnTypes(a))
  {
    assert [] + a.own == a.own;
    if a.lookups != [] {
      LookupsOverlap(a);
    }
  }

  lemma GuardsAreThere(a: Attempt)
    ensures HasGuard(a) <==> GivenGuard(a).Some? || (a.model.Some? && a.guard.Some?) || ReadsQuery(LoadsOf(a.lookups)).Some?
  {
    if GivenGuard(a).Some? {
      assert IsGuard(a, GivenGuard(a).value);
    }
    if a.model.Some? && a.guard.Some? {
      assert IsGuard(a, a.guard.value);
    }
  }

  /** The handler's branches, in the order it takes them. */
  predicate IsBranch(out: Outcome, strict: bool, guarded: bool, hasRead: bool, everything: bool, ownTypes: bool) {
    if strict then (if hasRead then out.Boundary? else out == Refused(StrictNeedsModel))
    else if !guarded then out.Commuting?
    else if !hasRead then out == Refused(GuardNeedsModel)
    else if everything then out == Refused(GuardIsAll)
    else if ownTypes then out == Refused(GuardOverlaps)
    else out.Guard?
  }

  lemma AppendBranches(model: Option<Model>, lookups: seq<Loaded>, given: Option<Consistency>, own: seq<Event>, idempotency: Option<Query>)
    ensures var lookedUp := ReadsQuery(lookups);
            var es := (if model.Some? then model.value.turn else []) + own;
            var guard := if given.Some? && given.value.Concurrent? then given.value.guard else None;
            var q := GuardQuery(model, lookups, guard);
            IsBranch(BuildAppend(model, lookups, given, own, idempotency),
                     given == Some(Strict) || (given.None? && model.Some?) || (model.Some? && model.value.turn != [])
                     || (lookedUp.Some? && (lookedUp.value.all || Types(lookedUp.value, es))),
                     guard.Some? || (model.Some? && model.value.guard.Some?) || lookedUp.Some?, model.Some? || lookedUp.Some?, q.all, Types(q, es))
  {
  }

  lemma OutcomeIsBranch(a: Attempt)
    requires !KeySaysNothing(a)
    ensures IsBranch(OutcomeOf(a), IsAboutEverything(a), HasGuard(a), HasRead(a), GuardsEverything(a), GuardsOwnTypes(a))
  {
    EverythingIsNeeded(a);
    GuardsAreThere(a);
    AppendBranches(ModelOf(a), LoadsOf(a.lookups), a.given, a.own, a.idempotency);
    if !LooksUpOwnTypes(a) {
      GuardChecks(a);
    }
  }

  /** When the append is strict: a strict command, a turn, or a lookup of a type it appends; refused without a read. */
  lemma StrictExactly(a: Attempt)
    ensures OutcomeOf(a).Boundary? <==> !KeySaysNothing(a) && IsAboutEverything(a) && HasRead(a)
    ensures OutcomeOf(a) == Refused(StrictNeedsModel) <==> !KeySaysNothing(a) && IsAboutEverything(a) && !HasRead(a)
    ensures OutcomeOf(a) == Refused(KeyIsEmpty) <==> KeySaysNothing(a)
  {
    if !KeySaysNothing(a) {
      OutcomeIsBranch(a);
    }
  }

  /** When it is guarded, and when a guard is refused: without a read, about everything, or about a type it appends. */
  lemma GuardedExactly(a: Attempt)
    ensures OutcomeOf(a).Guard?
            <==> !KeySaysNothing(a) && !IsAboutEverything(a) && HasGuard(a) && HasRead(a) && !GuardsEverything(a) && !GuardsOwnTypes(a)
    ensures OutcomeOf(a) == Refused(GuardNeedsModel) <==> !KeySaysNothing(a) && !IsAboutEverything(a) && HasGuard(a) && !HasRead(a)
    ensures OutcomeOf(a) == Refused(GuardIsAll)
            <==> !KeySaysNothing(a) && !IsAboutEverything(a) && HasRead(a) && GuardsEverything(a)
    ensures OutcomeOf(a) == Refused(GuardOverlaps)
            <==> !KeySaysNothing(a) && !IsAboutEverything(a) && HasRead(a) && !GuardsEverything(a) && GuardsOwnTypes(a)
  {
    GuardsAreGuards(a);
    if !KeySaysNothing(a) {
      OutcomeIsBranch(a);
    }
  }

  lemma GuardsAreGuards(a: Attempt)
    ensures GuardsEverything(a) || GuardsOwnTypes(a) ==> HasGuard(a)
  {
  }

  /** And otherwise it commutes with everything. */
  lemma CommutesExactly(a: Attempt)
    ensures OutcomeOf(a).Commuting? <==> !KeySaysNothing(a) && !IsAboutEverything(a) && !HasGuard(a)
  {
    if !KeySaysNothing(a) {
      OutcomeIsBranch(a);
    }
  }

  // ---- What the request says ----

  predicate Requests(a: Attempt, req: Request) {
    OutcomeOf(a) == Boundary(req) || OutcomeOf(a) == Guard(req) || OutcomeOf(a) == Commuting(req)
  }

  lemma AppendIsConditioned(model: Option<Model>, lookups: seq<Loaded>, given: Option<Consistency>, own: seq<Event>, idempotency: Option<Query>)
    ensures var out := BuildAppend(model, lookups, given, own, idempotency);
            var es := (if model.Some? then model.value.turn else []) + own;
            var guard := if given.Some? && given.value.Concurrent? then given.value.guard else None;
            && (out.Boundary? ==> out.request == Conditioned(es, CursorFor(model, lookups), StrictBoundary(model, lookups), idempotency, SeenFor(model, lookups)))
            && (out.Guard? ==> out.request == Conditioned(es, CursorFor(model, lookups), GuardQuery(model, lookups, guard), idempotency, SeenFor(model, lookups)))
            && (out.Commuting? ==> out.request == Conditioned(es, ZERO, NO_CONDITION, idempotency, None))
  {
  }

  lemma ConditionedSays(es: seq<Event>, after: LogPosition, q: Query, idempotency: Option<Query>, seen: Option<string>)
    ensures var req := Conditioned(es, after, q, idempotency, seen);
            && req.events == es && req.condition.after == after && req.condition.concurrency == q && req.condition.firstWrite
            && req.condition.idempotency == (if idempotency.Some? then idempotency.value else NO_CONDITION)
            && req.condition.seen == if seen.Some? then RS.Parse(seen.value) else None
  {
  }

  lemma RequestIsConditioned(a: Attempt, req: Request)
    requires Requests(a, req)
    ensures req.events == AppendedBy(a) && req.condition.firstWrite
    ensures req.condition.idempotency == if a.idempotency.Some? then a.idempotency.value else NO_CONDITION
    ensures var seen := SeenFor(ModelOf(a), LoadsOf(a.lookups));
            !OutcomeOf(a).Commuting? ==> req.condition.after == CursorFor(ModelOf(a), LoadsOf(a.lookups))
                                         && req.condition.seen == if seen.Some? then RS.Parse(seen.value) else None
    ensures OutcomeOf(a).Commuting? ==> req.condition.concurrency == NO_CONDITION && req.condition.seen.None?
  {
    var model, lookups := ModelOf(a), LoadsOf(a.lookups);
    var guard := GivenGuard(a);
    EverythingIsNeeded(a);
    AppendIsConditioned(model, lookups, a.given, a.own, a.idempotency);
    ConditionedSays(AppendedBy(a), CursorFor(model, lookups), StrictBoundary(model, lookups), a.idempotency, SeenFor(model, lookups));
    ConditionedSays(AppendedBy(a), CursorFor(model, lookups), GuardQuery(model, lookups, guard), a.idempotency, SeenFor(model, lookups));
    ConditionedSays(AppendedBy(a), ZERO, NO_CONDITION, a.idempotency, None);
  }

  lemma ConditionedHasRead(a: Attempt, req: Request)
    requires OutcomeOf(a) == Boundary(req) || OutcomeOf(a) == Guard(req)
    ensures HasRead(a)
  {
    StrictExactly(a);
    GuardedExactly(a);
  }

  /** The turn's events ahead of the command's own, its key, and that the append must be the transaction's first write. */
  lemma RequestsItsEvents(a: Attempt, req: Request)
    requires Requests(a, req)
    ensures req.events == if a.model.Some? then a.turn + a.own else a.own
    ensures req.condition.idempotency == if a.idempotency.Some? then a.idempotency.value else Query([], false)
    ensures req.condition.firstWrite
    ensures OutcomeOf(a).Commuting? ==> req.condition.concurrency == Query([], false) && req.condition.seen.None?
  {
    RequestIsConditioned(a, req);
  }

  /** A strict append is refused for exactly the events some query it read matches. */
  lemma StrictIsAboutItsReads(a: Attempt, req: Request, e: Event)
    requires OutcomeOf(a) == Boundary(req)
    ensures ConditionMatches(req.condition.concurrency, e) <==> exists read :: Depends(a, read) && ConditionMatches(read.query, e)
  {
    var p := (item: QueryItem) => ItemMatches(item, e);
    assert forall q: Query :: IsAbout(q, p) <==> ConditionMatches(q, e);
    StrictIsAbout(a, p);
  }

  lemma StrictIsAbout(a: Attempt, p: QueryItem -> bool)
    ensures IsAbout(StrictBoundary(ModelOf(a), LoadsOf(a.lookups)), p) <==> exists read :: Depends(a, read) && IsAbout(read.query, p)
  {
    var model := if a.model.Some? then [LoadOf(a.model.value).boundary] else [];
    var lookedUp := ReadsQuery(LoadsOf(a.lookups));
    UnionIsAbout(model + Listed(lookedUp), p);
    if a.model.Some? {
      PlanIsAbout(a.model.value, p);
    }
    if a.lookups != [] {
      LookupsAreAbout(a, p);
    }
    forall q ensures q in model + Listed(lookedUp) <==> (a.model.Some? && q == LoadOf(a.model.value).boundary) || lookedUp == Some(q) {
      ListedIn(lookedUp, q);
    }
  }

  /** A guarded one for exactly those the given guard, the guard of its period, or the query of some lookup matches. */
  lemma GuardIsAboutItsGuards(a: Attempt, req: Request, e: Event)
    requires OutcomeOf(a) == Guard(req)
    ensures ConditionMatches(req.condition.concurrency, e)
            <==> (a.given.Some? && a.given.value.guard.Some? && ConditionMatches(a.given.value.guard.value, e))
                 || (a.model.Some? && a.guard.Some? && ConditionMatches(a.guard.value, e))
                 || exists read :: LookedUp(a, read) && ConditionMatches(read.query, e)
  {
    var p := (item: QueryItem) => ItemMatches(item, e);
    assert forall q: Query :: IsAbout(q, p) <==> ConditionMatches(q, e);
    GuardedExactly(a);
    GuardIsAbout(a, p);
    if a.given.Some? && a.given.value.guard.Some? {
      assert IsGuard(a, a.given.value.guard.value);
    }
    if a.model.Some? && a.guard.Some? {
      assert IsGuard(a, a.guard.value);
    }
  }

  lemma UnseenInText(text: string, parts: Option<RS.Parts>, x: nat)
    requires RS.IsSnapshotText(text) && parts == RS.Parse(text)
    ensures parts.Some? && (RS.Unseen(parts.value, x) <==> !RS.SeesText(text, x))
  {
    RS.UnseenIsNotSeen(parts.value, x);
  }

  /** What every read of the attempt saw, as the condition says it. */
  lemma SeenByAll(a: Attempt, parts: Option<RS.Parts>, x: nat)
    requires ProperAttempt(a) && HasRead(a)
    requires var seen := SeenFor(ModelOf(a), LoadsOf(a.lookups)); parts == if seen.Some? then RS.Parse(seen.value) else None
    ensures parts.Some? && (RS.Unseen(parts.value, x) <==> exists read :: Depends(a, read) && !RS.Sees(read.seen, x))
  {
    SeenForExact(a);
    UnseenInText(SeenFor(ModelOf(a), LoadsOf(a.lookups)).value, parts, x);
  }

  /** Of both, only events that one of the reads could not see count. */
  lemma OnlyTheUnseenCount(a: Attempt, req: Request, x: nat)
    requires ProperAttempt(a) && (OutcomeOf(a) == Boundary(req) || OutcomeOf(a) == Guard(req))
    ensures req.condition.seen.Some?
    ensures RS.Unseen(req.condition.seen.value, x) <==> exists read :: Depends(a, read) && !RS.Sees(read.seen, x)
  {
    RequestIsConditioned(a, req);
    ConditionedHasRead(a, req);
    SeenByAll(a, req.condition.seen, x);
  }

  // ---- The cursor ----

  lemma {:induction false} EarliestIsLeast(parts: seq<Loaded>)
    requires parts != [] && forall l :: l in parts ==> Usable(l)
    ensures exists l :: l in parts && EarliestHorizon(parts) == l.horizon
    ensures EarliestHorizon(parts).xid.Some? && forall l :: l in parts ==> l.horizon.xid.Some? && EarliestHorizon(parts).xid.value <= l.horizon.xid.value
  {
    EarliestHorizonIsLowest(parts);
    var front, last := parts[..|parts| - 1], parts[|parts| - 1];
    if |parts| > 1 {
      EarliestIsLeast(front);
      EarliestHorizonIsLowest(front);
      EarliestIsLower(EarliestHorizon(front), last.horizon);
    }
    assert last in parts && forall l :: l in front ==> l in parts;
  }

  /** The oldest transaction that was running when some read took its snapshot. */
  ghost predicate IsOldest(plan: Plan, x: nat) {
    (exists read :: ReadIn(plan, read) && read.seen.xmin == x) && forall read :: ReadIn(plan, read) ==> x <= read.seen.xmin
  }

  lemma {:induction false} HorizonIsOldest(plan: Plan)
    requires Proper(plan)
    ensures LoadOf(plan).horizon.pos == 0 && LoadOf(plan).horizon.xid.Some? && IsOldest(plan, LoadOf(plan).horizon.xid.value)
    decreases plan
  {
    match plan
    case One(read) => assert ReadIn(plan, read);
    case All(members) =>
      forall m | m in members ensures Usable(LoadOf(m)) && IsOldest(m, LoadOf(m).horizon.xid.value) {
        HorizonIsOldest(m);
        PlanCovers(m);
      }
      MembersOldest(members);
    case Turn(first, track, open) =>
      PlanCovers(One(first));
      PlanCovers(One(track));
      PairIsOldest(LoadOne(first), LoadOne(track));
      if open.Some? {
        PlanCovers(One(open.value));
        LoadAllCovers([LoadOne(first), LoadOne(track)]);
        PairIsOldest(LoadAll([LoadOne(first), LoadOne(track)]), LoadOne(open.value));
        assert ReadIn(plan, open.value);
      }
      assert ReadIn(plan, first) && ReadIn(plan, track);
  }

  lemma PairIsOldest(a: Loaded, b: Loaded)
    requires Usable(a) && Usable(b)
    ensures var h := LoadAll([a, b]).horizon;
            h.pos == 0 && h.xid == Some(if a.horizon.xid.value < b.horizon.xid.value then a.horizon.xid.value else b.horizon.xid.value)
  {
    EarliestIsLeast([a, b]);
    assert a in [a, b] && b in [a, b];
  }

  lemma MembersOldest(members: seq<Plan>)
    requires members != [] && forall m :: m in members ==> Usable(LoadOf(m)) && IsOldest(m, LoadOf(m).horizon.xid.value)
    ensures var h := EarliestHorizon(LoadsOf(members)); h.pos == 0 && h.xid.Some? && IsOldest(All(members), h.xid.value)
  {
    var loads := LoadsOf(members);
    forall i | 0 <= i < |loads| ensures Usable(loads[i]) && loads[i] == LoadOf(members[i]) && members[i] in members {
    }
    EarliestIsLeast(loads);
    var l :| l in loads && EarliestHorizon(loads) == l.horizon;
    var i :| 0 <= i < |loads| && loads[i] == l;
    var read :| ReadIn(members[i], read) && read.seen.xmin == l.horizon.xid.value;
    assert ReadIn(All(members), read);
    forall other | ReadIn(All(members), other) ensures l.horizon.xid.value <= other.seen.xmin {
      var k :| 0 <= k < |members| && ReadIn(members[k], other);
      assert loads[k] in loads;
    }
  }

  /** With one model read once and no lookup, the cursor is the last settled row the read returned; with more reads, it lies
      before the oldest transaction that was running at any of them. */
  lemma CursorIsTheReads(a: Attempt, req: Request)
    requires ProperAttempt(a) && (OutcomeOf(a) == Boundary(req) || OutcomeOf(a) == Guard(req))
    ensures if a.model.Some? && a.model.value.One? && a.lookups == []
            then req.condition.after == At(CursorOf(a.model.value.read.rows, a.model.value.read.settledBelow))
            else req.condition.after.pos == 0 && req.condition.after.xid.Some? && IsOldest(All(Plans(a)), req.condition.after.xid.value)
  {
    RequestIsConditioned(a, req);
    ConditionedHasRead(a, req);
    if a.model.Some? && a.lookups == [] {
      if !a.model.value.One? {
        HorizonIsOldest(a.model.value);
        assert forall read :: ReadIn(All([a.model.value]), read) <==> ReadIn(a.model.value, read);
        assert Plans(a) == [a.model.value];
      }
    } else {
      PlansAreTheParts(a);
      HorizonIsOldest(All(Plans(a)));
    }
  }

  // ---- Over runs ----

  /** In every run, from the acceptance of a guarded append to its commit: every committed event that the guard the command
      gave matches was seen by each of its reads, or was settled when it ran, and returned if the read asked for it. */
  lemma GivenGuardHolds(run: seq<Db>, steps: seq<Action>, i: nat, t: nat, a: Attempt, req: Request, guard: Query, read: Read, r: Row)
    requires IsRun(run, steps) && i < |run| && IsRunning(run[i], t)
    requires Runs(run[i], t, a, req) && OutcomeOf(a) == Guard(req) && a.given == Some(Concurrent(Some(guard))) && Depends(a, read)
    requires IsCommitted(run[i], r) && ConditionMatches(guard, r.event)
    ensures RS.Sees(read.seen, r.xid) || r.xid < read.settledBelow
    ensures QueryMatches(read.query, r.event) ==> r in read.rows
  {
    GuardIsAboutItsGuards(a, req, r.event);
    GuardHolds(run, steps, i, t, a, req, read, r);
  }

  /** In every run: of two committed attempts with the same key, each of which appended an event the key matches, one is the
      other. */
  lemma OneAttemptPerKey(run: seq<Db>, steps: seq<Action>, i: nat, key: Query, t: nat, a: Attempt, x: Request, u: nat, b: Attempt, y: Request, r: Row, q: Row)
    requires IsRun(run, steps) && i < |run| && Runs(run[i], t, a, x) && Requests(a, x) && Runs(run[i], u, b, y) && Requests(b, y)
    requires a.idempotency == b.idempotency == Some(key) && ConditionMatches(key, r.event) && ConditionMatches(key, q.event)
    requires IsCommitted(run[i], r) && run[i].owners[r.xid] == t && IsCommitted(run[i], q) && run[i].owners[q.xid] == u
    ensures t == u
  {
    RequestsItsEvents(a, x);
    RequestsItsEvents(b, y);
    KeyIsSpentOnce(run, steps, i, key, r, q);
  }
}
