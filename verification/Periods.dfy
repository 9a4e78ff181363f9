/** Models with a period: closing the books and opening the next page in the command's own append
    (packages/commands/src/Model.ts:197-375). A period is named by its key; keys compare as strings. */
module Periods {
  import opened Options
  import opened Events
  import opened Text
  import opened Store
  import opened Commands
  import opened Journal
  import M = Models
  import opened Completion

  /** `opening` and `closing` are the events `open` and `close` build, `keyOf` the period an event says it opens or closes. */
  datatype Periodic<!S> = Periodic(
    model: M.Model<S>,
    openedType: string,
    closedType: string,
    keyOf: Event -> string,
    tagsOf: string -> seq<Tag>,
    opening: (S, string) -> Event,
    closing: (S, string) -> Event)

  /** The model as it is read in one period: its closing counts, whether or not a handler looks at it. */
  function In<S>(p: Periodic<S>, key: string): M.Model<S> {
    var entries := p.model.entries;
    var counted := if HandlerOf(entries, p.closedType).Some? then entries
                   else entries + [M.Entry(p.closedType, false, None, (s, e, id) => s)];
    p.model.(entries := counted, scope := p.tagsOf(key))
  }

  function TrackingQuery<S>(p: Periodic<S>): Query {
    Query([QueryItem([p.openedType, p.closedType], [Tag(M.Lower(p.model.key), p.model.id)])], false)
  }

  function ClosingQuery<S>(p: Periodic<S>, key: string): Query {
    Query([QueryItem([p.closedType], [Tag(M.Lower(p.model.key), p.model.id)] + p.tagsOf(key))], false)
  }

  /** The period the openings and closings leave open. */
  function Tracking<S>(p: Periodic<S>, es: seq<Event>): Option<string> {
    if es == [] then None
    else
      var e := es[|es| - 1];
      var open := Tracking(p, es[..|es| - 1]);
      if e.etype == p.openedType then Some(p.keyOf(e))
      else if open == Some(p.keyOf(e)) then None
      else open
  }

  /** An opening of the period, and after it no opening and no closing of the period. */
  predicate LeavesOpen<S>(p: Periodic<S>, es: seq<Event>, key: string) {
    exists i :: 0 <= i < |es| && OpensAt(p, es, key, i)
  }

  predicate OpensAt<S>(p: Periodic<S>, es: seq<Event>, key: string, i: int) {
    && 0 <= i < |es| && es[i].etype == p.openedType && p.keyOf(es[i]) == key
    && forall j :: i < j < |es| ==> es[j].etype != p.openedType && p.keyOf(es[j]) != key
  }

  /** What the tracking finds open, event by event, is what the openings and closings leave open. */
  lemma {:induction false} TrackingExactly<S>(p: Periodic<S>, es: seq<Event>, key: string)
    ensures Tracking(p, es) == Some(key) <==> LeavesOpen(p, es, key)
  {
    if es != [] {
      var front, last := es[..|es| - 1], es[|es| - 1];
      TrackingExactly(p, front, key);
      OneEventMore(p, front, last, key);
      assert es == front + [last];
    }
  }

  lemma OneEventMore<S>(p: Periodic<S>, front: seq<Event>, last: Event, key: string)
    ensures LeavesOpen(p, front + [last], key)
            <==> if last.etype == p.openedType then p.keyOf(last) == key else LeavesOpen(p, front, key) && p.keyOf(last) != key
  {
    var es := front + [last];
    if last.etype != p.openedType && LeavesOpen(p, front, key) && p.keyOf(last) != key {
      var i :| 0 <= i < |front| && OpensAt(p, front, key, i);
      assert es[i] == front[i];
      assert OpensAt(p, es, key, i);
    }
    if last.etype == p.openedType && p.keyOf(last) == key {
      assert OpensAt(p, es, key, |front|);
    }
    if i :| 0 <= i < |es| && OpensAt(p, es, key, i) {
      assert es[|front|] == last && forall j :: 0 <= j < |front| ==> front[j] == es[j];
      assert i < |front| ==> OpensAt(p, front, key, i);
    }
  }

  predicate Holds(rows: seq<Row>, etype: string) {
    exists r :: r in rows && r.event.etype == etype
  }

  // ---- The load ----

  datatype PeriodLoad<S> =
    | InOpen(key: string, state: S, load: Loaded, guard: Query)
    | Turned(key: string, state: S, load: Loaded, turn: seq<Event>)
    | Dies

  predicate Carries<S>(p: Periodic<S>, keys: seq<string>, e: Event) {
    forall k :: k in [p.model.key] + keys ==> HasKey(e.tags, k)
  }

  /** The handler of the opening. */
  function Opened<S>(p: Periodic<S>, s: S, e: Event): S {
    var i := HandlerOf(p.model.entries, p.openedType);
    if i.None? then s else p.model.entries[i.value].apply(s, e, p.model.id)
  }

  predicate IsOpen<S>(p: Periodic<S>, read: Read) {
    Holds(read.rows, p.openedType) && !Holds(read.rows, p.closedType)
  }

  /** Never back to an earlier period: the command decides in the one the log has open. */
  ghost predicate DecidesInOpen<S>(p: Periodic<S>, target: string, track: Read, other: Read, out: PeriodLoad<S>) {
    var current := Tracking(p, EventsOf(track.rows));
    && current.Some? && !Less(current.value, target) && IsOpen(p, other)
    && out == InOpen(current.value, StateOf(In(p, current.value), other.rows), LoadOne(other), ClosingQuery(p, current.value))
  }

  /** From the open period to a later one, or to the first. */
  ghost predicate Turns<S>(p: Periodic<S>, tagKeys: seq<string>, target: string, first: Read, track: Read, other: Read, out: PeriodLoad<S>) {
    var current := Tracking(p, EventsOf(track.rows));
    && (if current.Some? then Less(current.value, target) else !Holds(first.rows, p.closedType))
    && (forall e :: e in TurnOf(p, current, target, first, other) ==> Carries(p, tagKeys, e))
    && out == TurnedTo(p, current, target, first, track, other)
  }

  /** What a turn loads: the state its opening makes, and the condition of all its reads. */
  ghost function TurnedTo<S>(p: Periodic<S>, current: Option<string>, target: string, first: Read, track: Read, other: Read): PeriodLoad<S> {
    var turn := TurnOf(p, current, target, first, other);
    Turned(target, Opened(p, StateOf(In(p, target), first.rows), turn[|turn| - 1]),
           LoadTurn(LoadOne(first), LoadOne(track), if current.Some? then Some(LoadOne(other)) else None), turn)
  }

  /** The reads contradict each other, a closed period would be opened again, or a turn's event lacks a tag. */
  ghost predicate CannotDecide<S>(p: Periodic<S>, tagKeys: seq<string>, target: string, first: Read, track: Read, other: Read) {
    var current := Tracking(p, EventsOf(track.rows));
    if current.Some? && !Less(current.value, target) then !IsOpen(p, other)
    else (current.None? && Holds(first.rows, p.closedType))
         || !(forall e :: e in TurnOf(p, current, target, first, other) ==> Carries(p, tagKeys, e))
  }

  ghost predicate IsLoad<S>(p: Periodic<S>, tagKeys: seq<string>, target: string, first: Read, track: Read, other: Read, out: PeriodLoad<S>) {
    && (IsOpen(p, first) ==> out == InOpen(target, StateOf(In(p, target), first.rows), LoadOne(first), ClosingQuery(p, target)))
    && (!IsOpen(p, first) && out.InOpen? ==> DecidesInOpen(p, target, track, other, out))
    && (out.Turned? ==> !IsOpen(p, first) && Turns(p, tagKeys, target, first, track, other, out))
    && (out.Dies? ==> !IsOpen(p, first) && CannotDecide(p, tagKeys, target, first, track, other))
  }

  /** `load`: `first` is the read of the period now falls in, `track` that of the openings and closings, `other` that of
      the period the log has open. Never back to an earlier period, and never again into a closed one. */
  method Load<S>(p: Periodic<S>, tagKeys: seq<string>, target: string, first: Read, track: Read, other: Read) returns (out: PeriodLoad<S>)
    ensures IsLoad(p, tagKeys, target, first, track, other, out)
  {
    if IsOpen(p, first) {
      return InOpen(target, StateOf(In(p, target), first.rows), LoadOne(first), ClosingQuery(p, target));
    }
    var current := Tracking(p, EventsOf(track.rows));
    if current.Some? {
      LessTotal(current.value, target);
    }
    if current.Some? && (current.value == target || Less(target, current.value)) {
      if !IsOpen(p, other) {
        return Dies;
      }
      return InOpen(current.value, StateOf(In(p, current.value), other.rows), LoadOne(other), ClosingQuery(p, current.value));
    }
    if current.None? && Holds(first.rows, p.closedType) {
      return Dies;
    }
    out := Turn(p, tagKeys, target, current, first, track, other);
  }

  /** From the open period, if there is one, to the one now falls in. */
  method Turn<S>(p: Periodic<S>, tagKeys: seq<string>, target: string, current: Option<string>, first: Read, track: Read, other: Read) returns (out: PeriodLoad<S>)
    ensures out == if forall e :: e in TurnOf(p, current, target, first, other) ==> Carries(p, tagKeys, e)
                   then TurnedTo(p, current, target, first, track, other)
                   else Dies
  {
    var firstState := StateOf(In(p, target), first.rows);
    var carry := firstState;
    var load := LoadAll([LoadOne(first), LoadOne(track)]);
    var turn: seq<Event> := [];
    if current.Some? {
      carry := StateOf(In(p, current.value), other.rows);
      load := LoadAll([load, LoadOne(other)]);
      var close := p.closing(carry, current.value);
      assert TurnOf(p, current, target, first, other) == [close, p.opening(carry, target)];
      assert close in TurnOf(p, current, target, first, other);
      if !Carries(p, tagKeys, close) {
        return Dies;
      }
      turn := [close];
    }
    var opening := p.opening(carry, target);
    turn := turn + [opening];
    assert TurnOf(p, current, target, first, other) == turn;
    assert opening in turn;
    if !Carries(p, tagKeys, opening) {
      return Dies;
    }
    return Turned(target, Opened(p, firstState, opening), load, turn);
  }

  /** The events of a turn: the old period closed with its state, the new one opened with what is carried over. */
  function TurnOf<S>(p: Periodic<S>, current: Option<string>, target: string, first: Read, other: Read): (turn: seq<Event>)
    ensures turn != []
  {
    if current.None? then [p.opening(StateOf(In(p, target), first.rows), target)]
    else
      var carry := StateOf(In(p, current.value), other.rows);
      [p.closing(carry, current.value), p.opening(carry, target)]
  }

  // ---- What a load answers, in the terms of its reads ----

  /** Every event of the turn carries the model's key and the level's. */
  predicate AllCarry<S>(p: Periodic<S>, tagKeys: seq<string>, es: seq<Event>) {
    forall e, k :: e in es && k in [p.model.key] + tagKeys ==> exists t :: t in e.tags && t.key == k
  }

  /** A turn closes the open period with its state and opens the later one with that same state; the first opening is made of
      what the first period already holds. Its events carry their tags, and the state it loads is the opening's handler on
      what the later period already holds. */
  lemma TurnCarriesOver<S>(p: Periodic<S>, tagKeys: seq<string>, target: string, first: Read, track: Read, other: Read, out: PeriodLoad<S>)
    requires IsLoad(p, tagKeys, target, first, track, other, out) && out.Turned?
    ensures forall k :: LeavesOpen(p, EventsOf(track.rows), k) ==>
              Less(k, target) && var s := StateOf(In(p, k), other.rows); out.turn == [p.closing(s, k), p.opening(s, target)]
    ensures (forall k :: !LeavesOpen(p, EventsOf(track.rows), k)) ==>
              !Holds(first.rows, p.closedType) && out.turn == [p.opening(StateOf(In(p, target), first.rows), target)]
    ensures out.key == target && AllCarry(p, tagKeys, out.turn)
    ensures forall i: nat :: IsHandler(p.model.entries, i, p.openedType) ==>
              out.state == p.model.entries[i].apply(StateOf(In(p, target), first.rows), out.turn[|out.turn| - 1], p.model.id)
  {
    var current := Tracking(p, EventsOf(track.rows));
    forall k ensures current == Some(k) <==> LeavesOpen(p, EventsOf(track.rows), k) {
      TrackingExactly(p, EventsOf(track.rows), k);
    }
    forall i: nat | IsHandler(p.model.entries, i, p.openedType) ensures HandlerOf(p.model.entries, p.openedType) == Some(i) {
      HandlerIs(p.model.entries, i, p.openedType);
    }
  }

  /** A period found open: its state, and a guard that is about exactly its closings. */
  lemma OpenPeriodIsGuarded<S>(p: Periodic<S>, tagKeys: seq<string>, target: string, first: Read, track: Read, other: Read, out: PeriodLoad<S>, e: Event)
    requires IsLoad(p, tagKeys, target, first, track, other, out) && out.InOpen?
    ensures IsOpen(p, first) ==> out.key == target && out.state == StateOf(In(p, target), first.rows)
    ensures !IsOpen(p, first) ==> LeavesOpen(p, EventsOf(track.rows), out.key) && out.state == StateOf(In(p, out.key), other.rows)
    ensures ConditionMatches(out.guard, e)
            <==> e.etype == p.closedType && Tag(M.Lower(p.model.key), p.model.id) in e.tags && forall t :: t in p.tagsOf(out.key) ==> t in e.tags
  {
    TrackingExactly(p, EventsOf(track.rows), out.key);
    var tag := Tag(M.Lower(p.model.key), p.model.id);
    var item := QueryItem([p.closedType], [tag] + p.tagsOf(out.key));
    assert out.guard == Query([item], false);
    assert item.tags[0] == tag && forall t :: t in p.tagsOf(out.key) ==> t in item.tags;
    if ConditionMatches(out.guard, e) {
      assert ItemMatches(item, e) && tag in item.tags;
    }
    assert item in out.guard.items;
  }

  /** Which of the three it answers: it decides in a period its read found open; it turns when none of the two is, towards a
      later period or a first one that was not closed, with events that carry their tags; and else it dies. */
  lemma LoadsExactly<S>(p: Periodic<S>, tagKeys: seq<string>, target: string, first: Read, track: Read, other: Read, out: PeriodLoad<S>)
    requires IsLoad(p, tagKeys, target, first, track, other, out)
    ensures out.InOpen? <==> IsOpen(p, first) || ((exists k :: LeavesOpen(p, EventsOf(track.rows), k) && !Less(k, target)) && IsOpen(p, other))
    ensures var later := exists k :: LeavesOpen(p, EventsOf(track.rows), k) && Less(k, target);
            var firstEver := (forall k :: !LeavesOpen(p, EventsOf(track.rows), k)) && !Holds(first.rows, p.closedType);
            out.Turned? <==> !IsOpen(p, first) && (later || firstEver) && CarriesTags(p, tagKeys, target, first, track, other)
  {
    var current := Tracking(p, EventsOf(track.rows));
    forall k ensures current == Some(k) <==> LeavesOpen(p, EventsOf(track.rows), k) {
      TrackingExactly(p, EventsOf(track.rows), k);
    }
    if current.Some? {
      assert LeavesOpen(p, EventsOf(track.rows), current.value);
    }
  }

  /** The events the turn would append carry their tags. */
  ghost predicate CarriesTags<S>(p: Periodic<S>, tagKeys: seq<string>, target: string, first: Read, track: Read, other: Read) {
    forall e :: e in TurnOf(p, Tracking(p, EventsOf(track.rows)), target, first, other) ==> Carries(p, tagKeys, e)
  }

  // ---- The log of an entity's periods ----

  /** Nothing, an opening, or such a log followed by a turn: the closing of the period it left open, then the opening of a
      later one. */
  predicate PeriodLog<S>(p: Periodic<S>, es: seq<Event>) {
    if |es| < 2 then |es| == 0 || es[0].etype == p.openedType
    else
      var before := es[..|es| - 2];
      before != [] && PeriodLog(p, before) && IsTurn(p, Some(p.keyOf(before[|before| - 1])), es[|es| - 2..])
  }

  /** A turn's openings and closings of the entity, made from a log that left `current` open. */
  predicate IsTurn<S>(p: Periodic<S>, current: Option<string>, es: seq<Event>) {
    match current
    case None => |es| == 1 && es[0].etype == p.openedType
    case Some(key) =>
      |es| == 2 && es[0].etype == p.closedType && p.keyOf(es[0]) == key
      && es[1].etype == p.openedType && Less(key, p.keyOf(es[1]))
  }

  /** One period is open: the last opened. */
  lemma {:induction false} OneIsOpen<S>(p: Periodic<S>, es: seq<Event>)
    requires PeriodLog(p, es)
    ensures Tracking(p, es) == if es == [] then None else Some(p.keyOf(es[|es| - 1]))
    ensures es != [] ==> es[|es| - 1].etype == p.openedType
  {
    if |es| >= 2 {
      assert es[|es| - 2..][1] == es[|es| - 1];
    }
  }

  lemma TurnExtends<S>(p: Periodic<S>, es: seq<Event>, turn: seq<Event>)
    requires PeriodLog(p, es) && IsTurn(p, Tracking(p, es), turn)
    ensures PeriodLog(p, es + turn)
  {
    OneIsOpen(p, es);
    if es == [] {
      assert es + turn == turn;
    } else {
      assert (es + turn)[..|es + turn| - 2] == es && (es + turn)[|es + turn| - 2..] == turn;
    }
  }

  /** Openings and closings alternate, each closing closes the period opened before it, and an opening is the last. */
  lemma {:induction false} OpeningsAlternate<S>(p: Periodic<S>, es: seq<Event>, i: nat)
    requires PeriodLog(p, es) && i < |es|
    ensures |es| % 2 == 1
    ensures es[i].etype == if i % 2 == 0 then p.openedType else p.closedType
    ensures i % 2 == 1 ==> p.keyOf(es[i]) == p.keyOf(es[i - 1])
    decreases |es|
  {
    if |es| >= 2 {
      var before := es[..|es| - 2];
      OpeningsAlternate(p, before, if i < |before| then i else 0);
      assert es[|es| - 2..] == [es[|es| - 2], es[|es| - 1]];
    }
  }

  /** Every later opening has a greater key. */
  lemma {:induction false} KeysIncrease<S>(p: Periodic<S>, es: seq<Event>, i: nat, j: nat)
    requires PeriodLog(p, es) && i < j < |es| && i % 2 == 0 && j % 2 == 0
    ensures Less(p.keyOf(es[i]), p.keyOf(es[j]))
    decreases |es|
  {
    var before := es[..|es| - 2];
    OpeningsAlternate(p, es, 0);
    assert es[|es| - 2..] == [es[|es| - 2], es[|es| - 1]];
    if j < |before| {
      KeysIncrease(p, before, i, j);
    } else {
      assert j == |es| - 1;
      var open := |before| - 1;
      if i < open {
        KeysIncrease(p, before, i, open);
        LessTransitive(p.keyOf(es[i]), p.keyOf(es[open]), p.keyOf(es[j]));
      }
    }
  }

  predicate HasOf<S>(p: Periodic<S>, es: seq<Event>, etype: string, key: string) {
    exists i :: 0 <= i < |es| && es[i].etype == etype && p.keyOf(es[i]) == key
  }

  lemma {:induction false} ClosedBeforeTheLast<S>(p: Periodic<S>, es: seq<Event>, i: nat)
    requires PeriodLog(p, es) && p.openedType != p.closedType && i < |es| && es[i].etype == p.closedType
    ensures Less(p.keyOf(es[i]), p.keyOf(es[|es| - 1]))
    decreases |es|
  {
    if |es| >= 2 {
      var before := es[..|es| - 2];
      assert es[|es| - 2..] == [es[|es| - 2], es[|es| - 1]];
      if i < |before| {
        ClosedBeforeTheLast(p, before, i);
        LessTransitive(p.keyOf(es[i]), p.keyOf(before[|before| - 1]), p.keyOf(es[|es| - 1]));
      }
    }
  }

  lemma OpenedBeforeTheLast<S>(p: Periodic<S>, es: seq<Event>, i: nat)
    requires PeriodLog(p, es) && p.openedType != p.closedType && i < |es| - 1 && es[i].etype == p.openedType
    ensures HasOf(p, es, p.closedType, p.keyOf(es[i]))
  {
    OpeningsAlternate(p, es, i);
    OpeningsAlternate(p, es, i + 1);
    assert es[i + 1].etype == p.closedType && p.keyOf(es[i + 1]) == p.keyOf(es[i]);
  }

  /** The fast path of the load agrees with the tracking: a period that was opened and not closed is the open one. */
  lemma OpenedAndNotClosed<S>(p: Periodic<S>, es: seq<Event>, key: string)
    requires PeriodLog(p, es) && p.openedType != p.closedType
    ensures HasOf(p, es, p.openedType, key) && !HasOf(p, es, p.closedType, key) <==> Tracking(p, es) == Some(key)
  {
    OneIsOpen(p, es);
    forall i: nat | i < |es| && es[i].etype == p.closedType ensures p.keyOf(es[i]) != p.keyOf(es[|es| - 1]) {
      ClosedBeforeTheLast(p, es, i);
      LessTotal(p.keyOf(es[i]), p.keyOf(es[i]));
    }
    forall i: nat | i < |es| - 1 && es[i].etype == p.openedType ensures HasOf(p, es, p.closedType, p.keyOf(es[i])) {
      OpenedBeforeTheLast(p, es, i);
    }
  }

  /** An odd number of events, the last period opened the one that is open. */
  lemma PeriodLogEnds<S>(p: Periodic<S>, es: seq<Event>)
    requires PeriodLog(p, es) && es != []
    ensures |es| % 2 == 1 && es[0].etype == es[|es| - 1].etype == p.openedType
    ensures Tracking(p, es) == Some(p.keyOf(es[|es| - 1]))
  {
    OpeningsAlternate(p, es, 0);
    OneIsOpen(p, es);
  }

  /** Two openings: the first is closed, and the later one is of a later period. */
  lemma PeriodLogAt<S>(p: Periodic<S>, es: seq<Event>, j: nat, k: nat)
    requires PeriodLog(p, es) && j < k < |es| && j % 2 == 0 && k % 2 == 0
    ensures es[j].etype == es[k].etype == p.openedType && Less(p.keyOf(es[j]), p.keyOf(es[k]))
    ensures es[j + 1].etype == p.closedType && p.keyOf(es[j + 1]) == p.keyOf(es[j])
  {
    OpeningsAlternate(p, es, j);
    OpeningsAlternate(p, es, j + 1);
    OpeningsAlternate(p, es, k);
    KeysIncrease(p, es, j, k);
  }
}
