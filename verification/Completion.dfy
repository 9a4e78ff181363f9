/** What a model does with events: the handler of a type, the fold of a load and of a write, and the tags an event needs
    to be read back (packages/commands/src/Model.ts:131-168, 417-444, 482-493). */
module Completion {
  import opened Options
  import opened Events
  import opened LogPositions
  import opened Store
  import C = Commands
  import opened Journal
  import opened Models
  import TagCodec
  import P = Projection

  /** The last entry of a type wins. */
  function HandlerOf<S>(entries: seq<Entry<S>>, etype: string): (i: Option<nat>)
    ensures i.Some? ==> i.value < |entries| && entries[i.value].etype == etype && forall j :: i.value < j < |entries| ==> entries[j].etype != etype
    ensures i.None? ==> forall j :: 0 <= j < |entries| ==> entries[j].etype != etype
  {
    if entries == [] then None
    else if entries[|entries| - 1].etype == etype then Some(|entries| - 1)
    else HandlerOf(entries[..|entries| - 1], etype)
  }

  function Transition<S>(m: Model<S>, s: S, e: Event): S {
    var i := HandlerOf(m.entries, e.etype);
    if i.None? then s else m.entries[i.value].apply(s, e, m.id)
  }

  function FoldFrom<S>(m: Model<S>, s: S, es: seq<Event>): S {
    if es == [] then s else Transition(m, FoldFrom(m, s, es[..|es| - 1]), es[|es| - 1])
  }

  /** The state a load makes of the rows its read returned. */
  function StateOf<S>(m: Model<S>, rows: seq<Row>): S {
    FoldFrom(m, m.initial, EventsOf(rows))
  }

  function TypesOf<S>(entries: seq<Entry<S>>): (types: seq<string>)
    ensures forall e :: HandlerOf(entries, e).Some? ==> e in types
    ensures entries == [] <==> types == []
  {
    var types := seq(|entries|, i requires 0 <= i < |entries| => entries[i].etype);
    assert forall i :: 0 <= i < |entries| ==> types[i] == entries[i].etype;
    types
  }

  function ProjectorOf<S>(m: Model<S>): P.Projector<S> {
    P.Projector(TypesOf(m.entries), m.initial, (s, r: Row) => Some(Transition(m, s, r.event)))
  }

  /** A model's load: whatever the store's row loop answers for its projector is the state of the rows, with the cursor the
      command conditions on. */
  lemma ModelLoads<S>(m: Model<S>, read: Read, out: P.Outcome<S>)
    requires P.IsProjection([ProjectorOf(m)], read.rows, read.settledBelow, ZERO, out)
    ensures out.Projected? && out.state == StateOf(m, read.rows) && out.logPosition == C.LoadOne(read).logPosition
  {
    LoadIsTheProjection(m, read.rows);
    P.FromTheStart([ProjectorOf(m)], read, out);
  }

  lemma {:induction false} LoadIsTheProjection<S>(m: Model<S>, rows: seq<Row>)
    ensures P.Fold(m.initial, [ProjectorOf(m)], rows) == Some(StateOf(m, rows))
  {
    if rows != [] {
      var front := rows[..|rows| - 1];
      var last := rows[|rows| - 1];
      LoadIsTheProjection(m, front);
      assert EventsOf(rows)[..|rows| - 1] == EventsOf(front);
      var ps := [ProjectorOf(m)];
      var before := StateOf(m, front);
      assert P.StepRow(Transition(m, before, last.event), ps[1..], last) == Some(Transition(m, before, last.event));
      if !P.Handles(ps[0], last) {
        assert Transition(m, before, last.event) == before;
      }
    }
  }

  /** The fold of a write: what the query does not match is not read back. */
  function FoldWith<S>(m: Model<S>, q: Query, s: S, es: seq<Event>): S {
    if es == [] then s
    else
      var before := FoldWith(m, q, s, es[..|es| - 1]);
      var e := es[|es| - 1];
      var i := HandlerOf(m.entries, e.etype);
      if i.Some? && QueryMatches(q, e) then m.entries[i.value].apply(before, e, m.id) else before
  }

  lemma OneRowMore<S>(m: Model<S>, rows: seq<Row>, r: Row)
    ensures StateOf(m, rows + [r]) == Transition(m, StateOf(m, rows), r.event)
  {
    assert EventsOf(rows + [r])[..|rows|] == EventsOf(rows);
  }

  /** The entry that handles a type: the last one declared for it, a lifecycle entry or not. */
  predicate IsHandler<S>(entries: seq<Entry<S>>, i: nat, etype: string) {
    i < |entries| && entries[i].etype == etype && forall j :: i < j < |entries| ==> entries[j].etype != etype
  }

  lemma HandlerIs<S>(entries: seq<Entry<S>>, i: nat, etype: string)
    requires IsHandler(entries, i, etype)
    ensures HandlerOf(entries, etype) == Some(i)
  {
  }

  /** A load runs the handler of each row, in order, from the initial state. */
  lemma LoadsRunTheHandlers<S>(m: Model<S>, rows: seq<Row>, r: Row)
    ensures StateOf(m, []) == m.initial
    ensures forall i: nat :: IsHandler(m.entries, i, r.event.etype) ==> StateOf(m, rows + [r]) == m.entries[i].apply(StateOf(m, rows), r.event, m.id)
    ensures (forall i :: 0 <= i < |m.entries| ==> m.entries[i].etype != r.event.etype) ==> StateOf(m, rows + [r]) == StateOf(m, rows)
  {
    OneRowMore(m, rows, r);
    forall i: nat | IsHandler(m.entries, i, r.event.etype) ensures HandlerOf(m.entries, r.event.etype) == Some(i) {
      HandlerIs(m.entries, i, r.event.etype);
    }
  }

  /** A write's fold runs the handler of each event that its query matches, and no other. */
  lemma WritesRunTheHandlers<S>(m: Model<S>, q: Query, s: S, es: seq<Event>, e: Event)
    ensures FoldWith(m, q, s, []) == s
    ensures forall i: nat :: IsHandler(m.entries, i, e.etype) && QueryMatches(q, e) ==> FoldWith(m, q, s, es + [e]) == m.entries[i].apply(FoldWith(m, q, s, es), e, m.id)
    ensures !QueryMatches(q, e) || (forall i :: 0 <= i < |m.entries| ==> m.entries[i].etype != e.etype) ==> FoldWith(m, q, s, es + [e]) == FoldWith(m, q, s, es)
  {
    assert (es + [e])[..|es|] == es;
    forall i: nat | IsHandler(m.entries, i, e.etype) ensures HandlerOf(m.entries, e.etype) == Some(i) {
      HandlerIs(m.entries, i, e.etype);
    }
  }

  /** The fold of a write is the fold of the next load over the same rows. */
  lemma {:induction false} WriteFoldIsLoadFold<S>(m: Model<S>, q: Query, read: seq<Row>, own: seq<Row>)
    ensures FoldWith(m, q, StateOf(m, read), EventsOf(own)) == StateOf(m, read + Matched(q, own))
  {
    if own == [] {
      assert read + Matched(q, own) == read;
    } else {
      var front := own[..|own| - 1];
      var last := own[|own| - 1];
      WriteFoldIsLoadFold(m, q, read, front);
      assert EventsOf(own)[..|own| - 1] == EventsOf(front);
      if QueryMatches(q, last.event) {
        assert read + Matched(q, own) == (read + Matched(q, front)) + [last];
        OneRowMore(m, read + Matched(q, front), last);
      } else {
        assert Matched(q, own) == Matched(q, front);
      }
    }
  }

  // ---- Completing ----

  predicate HasKey(tags: seq<Tag>, key: string) {
    exists t :: t in tags && t.key == key
  }

  /** The tags of `scope` that are not in `tags`, those of a key it has (`clashing`) or those of a key it lacks. */
  function Lacking(scope: seq<Tag>, tags: seq<Tag>, clashing: bool): (r: seq<Tag>)
    ensures forall t :: t in r <==> t in scope && t !in tags && (HasKey(tags, t.key) <==> clashing)
  {
    if scope == [] then []
    else
      assert scope == [scope[0]] + scope[1..];
      (if scope[0] !in tags && (HasKey(tags, scope[0].key) <==> clashing) then [scope[0]] else []) + Lacking(scope[1..], tags, clashing)
  }

  datatype Completed = Completed(event: Event, conflicts: seq<string>)

  predicate AboutEntity<S>(m: Model<S>, i: nat, e: Event)
    requires i < |m.entries|
  {
    exists k :: k in KeysOf(m, m.entries[i]) && Tag(k, m.id) in e.tags
  }

  function Complete<S>(m: Model<S>, e: Event): Completed {
    var i := HandlerOf(m.entries, e.etype);
    if i.None? || m.entries[i.value].lifecycle || !AboutEntity(m, i.value, e) then Completed(e, [])
    else Completed(e.(tags := e.tags + Lacking(m.scope, e.tags, false)), TagCodec.EncodeAll(Lacking(m.scope, e.tags, true)))
  }

  /** The conflicts it names are the texts of the scope's tags whose key the event has with other values only. */
  lemma ConflictsAreNamed<S>(m: Model<S>, e: Event)
    ensures forall text :: text in Complete(m, e).conflicts <==>
              IsAbout(m, e) && !IsLifecycle(m, e.etype)
              && exists t :: t in m.scope && t !in e.tags && text == TagCodec.Encode(t) && exists other :: other in e.tags && other.key == t.key
  {
    var clash := Lacking(m.scope, e.tags, true);
    var texts := TagCodec.EncodeAll(clash);
    forall text ensures text in texts <==> exists t :: t in clash && text == TagCodec.Encode(t) {
      if text in texts {
        var i :| 0 <= i < |texts| && texts[i] == text;
        assert clash[i] in clash;
      }
      if t :| t in clash && text == TagCodec.Encode(t) {
        var i :| 0 <= i < |clash| && clash[i] == t;
        assert texts[i] == text;
      }
    }
  }

  /** Completing never removes or changes anything: it adds tags of the scope under keys the event did not have. */
  lemma CompleteOnlyAdds<S>(m: Model<S>, e: Event)
    ensures var c := Complete(m, e).event;
            c.etype == e.etype && c.data == e.data && e.tags <= c.tags
            && forall t :: t in c.tags[|e.tags|..] ==> t in m.scope && !HasKey(e.tags, t.key)
  {
  }

  /** Bound to the entity as the boundary binds it: by one of its handler's keys in lower case, and the entity's id. */
  predicate IsBound<S>(m: Model<S>, e: Event) {
    var i := HandlerOf(m.entries, e.etype);
    i.Some? && exists k :: k in KeysOf(m, m.entries[i.value]) && Tag(Lower(k), m.id) in e.tags
  }

  /** What completing looks for: one of the handler's keys as the model writes it. */
  predicate IsAbout<S>(m: Model<S>, e: Event) {
    var i := HandlerOf(m.entries, e.etype);
    i.Some? && AboutEntity(m, i.value, e)
  }

  predicate IsLifecycle<S>(m: Model<S>, etype: string) {
    var i := HandlerOf(m.entries, etype);
    i.Some? && m.entries[i.value].lifecycle
  }

  /** Tags as they are made: keys in lower case. */
  predicate LowerTags(e: Event) {
    forall t :: t in e.tags ==> Lower(t.key) == t.key
  }

  /** For such tags the two agree through the keys the model writes in lower case, and only through those. */
  lemma AboutInLowerCase<S>(m: Model<S>, e: Event)
    requires LowerTags(e) && HandlerOf(m.entries, e.etype).Some?
    ensures IsAbout(m, e) <==> exists k :: k in KeysOf(m, m.entries[HandlerOf(m.entries, e.etype).value]) && Lower(k) == k && Tag(k, m.id) in e.tags
  {
    var keys := KeysOf(m, m.entries[HandlerOf(m.entries, e.etype).value]);
    forall k | k in keys && Tag(k, m.id) in e.tags ensures Lower(k) == k {
      assert Lower(Tag(k, m.id).key) == k;
    }
  }

  /** The entry that handles the event reads it. */
  ghost predicate ReadsAsHandled<S>(m: Model<S>, e: Event) {
    var i := HandlerOf(m.entries, e.etype);
    i.Some? && exists way :: BindsBy(m, i.value, way) && HasAll(TagsFor(way, m.id, m.scope), e)
  }

  lemma BoundIsReadInScope<S>(m: Model<S>, e: Event)
    requires IsBound(m, e)
    ensures ReadsAsHandled(m, e) <==> IsLifecycle(m, e.etype) || HasAll(m.scope, e)
  {
    var i := HandlerOf(m.entries, e.etype).value;
    var key :| key in KeysOf(m, m.entries[i]) && Tag(Lower(key), m.id) in e.tags;
    var way := Way(m.entries[i].lifecycle, key);
    assert BindsBy(m, i, way);
    if HasAll(m.scope, e) || m.entries[i].lifecycle {
      assert HasAll(TagsFor(way, m.id, m.scope), e);
    }
    forall other | BindsBy(m, i, other) && HasAll(TagsFor(other, m.id, m.scope), e) && !m.entries[i].lifecycle ensures HasAll(m.scope, e) {
      forall t | t in m.scope ensures t in e.tags {
        assert t in TagsFor(other, m.id, m.scope);
      }
    }
  }

  /** Completing gives an event the whole scope exactly when it had it, or when it looked and found no conflict. */
  lemma CompletedHasTheScope<S>(m: Model<S>, e: Event)
    requires IsBound(m, e) && !IsLifecycle(m, e.etype)
    ensures HasAll(m.scope, Complete(m, e).event) <==> HasAll(m.scope, e) || (IsAbout(m, e) && Complete(m, e).conflicts == [])
  {
    var c := Complete(m, e).event;
    var absent, clash := Lacking(m.scope, e.tags, false), Lacking(m.scope, e.tags, true);
    if IsAbout(m, e) {
      assert |TagCodec.EncodeAll(clash)| == |clash|;
      if clash == [] {
        forall t | t in m.scope ensures t in c.tags {
          assert t in e.tags || t in absent || t in clash;
        }
      } else {
        assert clash[0] in clash && clash[0] !in e.tags && clash[0] !in absent;
      }
    }
  }

  /** An event the boundary binds to the entity is read back through its handler's entry, once completed, exactly when that is
      a lifecycle entry, or it had the whole scope, or it carried a key as the model writes it and completing found no
      conflict. */
  lemma CompletedIsReadBack<S>(m: Model<S>, e: Event)
    requires IsBound(m, e)
    ensures ReadsAsHandled(m, Complete(m, e).event)
            <==> IsLifecycle(m, e.etype) || HasAll(m.scope, e) || (IsAbout(m, e) && Complete(m, e).conflicts == [])
  {
    CompleteOnlyAdds(m, e);
    StillBound(m, e, Complete(m, e).event);
    BoundIsReadInScope(m, Complete(m, e).event);
    if !IsLifecycle(m, e.etype) {
      CompletedHasTheScope(m, e);
    }
  }

  lemma StillBound<S>(m: Model<S>, e: Event, e': Event)
    requires e'.etype == e.etype && e.tags <= e'.tags
    ensures IsBound(m, e) ==> IsBound(m, e')
    ensures IsAbout(m, e) ==> IsAbout(m, e')
    ensures HasAll(m.scope, e) ==> HasAll(m.scope, e')
  {
    assert forall t :: t in e.tags ==> t in e'.tags;
  }

  /** `defineModel({ by: "W" })`, in the year 2026, for the entity 1. */
  function UpperCaseModel(): Model<int> {
    Model([Entry("Deposit", false, None, (s, e, id) => s + 1)], "W", "1", [Tag("year", "2026")], 0)
  }

  /** The scope would make it read, but completing does not see that the event is about the entity: the boundary asks for `w`,
      completing for `W`. */
  lemma UpperCaseKeysAreNotCompleted()
    ensures var m, e := UpperCaseModel(), Event("Deposit", [Tag("w", "1")], "");
            && LowerTags(e) && IsBound(m, e) && Complete(m, e) == Completed(e, []) && !Reads(m, false, e)
            && Reads(m, false, e.(tags := e.tags + m.scope))
  {
    var m, e := UpperCaseModel(), Event("Deposit", [Tag("w", "1")], "");
    assert Lower("W") == "w" && Lower("w") == "w" && "W"[0] != "w"[0];
    assert HandlerOf(m.entries, "Deposit") == Some(0) && KeysOf(m, m.entries[0]) == ["W"];
    assert !AboutEntity(m, 0, e);
    forall way | BindsBy(m, 0, way) ensures !HasAll(TagsFor(way, m.id, m.scope), e) {
      assert Tag("year", "2026") in TagsFor(way, m.id, m.scope) && |"year"| != |"w"|;
    }
    var completed := e.(tags := e.tags + m.scope);
    assert TagsFor(Way(false, "W"), "1", m.scope) == completed.tags;
    assert BindsBy(m, 0, Way(false, "W")) && HasAll(TagsFor(Way(false, "W"), m.id, m.scope), completed);
  }

  lemma HandledIsInTheBoundary<S>(m: Model<S>, q: Query, e: Event)
    requires IsBoundary(m, false, q) && ReadsAsHandled(m, e)
    ensures ConditionMatches(q, e) && QueryMatches(q, e)
  {
    var i := HandlerOf(m.entries, e.etype).value;
    var way :| BindsBy(m, i, way) && HasAll(TagsFor(way, m.id, m.scope), e);
    assert e.etype == m.entries[i].etype;
    assert Reads(m, false, e);
  }

  predicate IsOnlyEntry<S>(m: Model<S>, etype: string) {
    forall i, j :: 0 <= i < j < |m.entries| && m.entries[i].etype == etype ==> m.entries[j].etype != etype
  }

  /** So the next load and the boundary see it; and only so, when its type has one entry. */
  lemma CompletedIsSeen<S>(m: Model<S>, q: Query, e: Event)
    requires IsBound(m, e) && IsBoundary(m, false, q)
    ensures IsLifecycle(m, e.etype) || HasAll(m.scope, e) || (IsAbout(m, e) && Complete(m, e).conflicts == [])
            ==> ConditionMatches(q, Complete(m, e).event) && QueryMatches(q, Complete(m, e).event)
    ensures IsOnlyEntry(m, e.etype) && ConditionMatches(q, Complete(m, e).event)
            ==> IsLifecycle(m, e.etype) || HasAll(m.scope, e) || (IsAbout(m, e) && Complete(m, e).conflicts == [])
  {
    var c := Complete(m, e).event;
    CompletedIsReadBack(m, e);
    CompleteOnlyAdds(m, e);
    if ReadsAsHandled(m, c) {
      HandledIsInTheBoundary(m, q, c);
    }
    if IsOnlyEntry(m, e.etype) && ConditionMatches(q, c) {
      var i, way :| 0 <= i < |m.entries| && BindsBy(m, i, way) && c.etype == m.entries[i].etype && HasAll(TagsFor(way, m.id, m.scope), c);
      assert i == HandlerOf(m.entries, e.etype).value;
    }
  }

  /** `all`: each member in turn adds the tags it reads by. */
  function CompleteAll<S>(ms: seq<Model<S>>, e: Event): Completed {
    if ms == [] then Completed(e, [])
    else
      var before := CompleteAll(ms[..|ms| - 1], e);
      var next := Complete(ms[|ms| - 1], before.event);
      Completed(next.event, before.conflicts + next.conflicts)
  }

  lemma {:induction false} CompleteAllOnlyAdds<S>(ms: seq<Model<S>>, e: Event)
    ensures var c := CompleteAll(ms, e).event; c.etype == e.etype && c.data == e.data && e.tags <= c.tags
  {
    if ms != [] {
      CompleteAllOnlyAdds(ms[..|ms| - 1], e);
    }
  }

  /** In `all`, an event completed without conflicts is read back by a member whose boundary binds it exactly when that
      member's entry is a lifecycle entry, or it carried a key as that member writes it, or else it has the member's whole
      scope in the end. */
  lemma {:induction false} CompletedIsReadByEveryMember<S>(ms: seq<Model<S>>, e: Event, k: nat)
    requires k < |ms| && IsBound(ms[k], e)
    requires CompleteAll(ms, e).conflicts == []
    ensures ReadsAsHandled(ms[k], CompleteAll(ms, e).event)
            <==> IsLifecycle(ms[k], e.etype) || IsAbout(ms[k], e) || HasAll(ms[k].scope, CompleteAll(ms, e).event)
  {
    CompleteAllOnlyAdds(ms, e);
    StillBound(ms[k], e, CompleteAll(ms, e).event);
    BoundIsReadInScope(ms[k], CompleteAll(ms, e).event);
    if IsAbout(ms[k], e) && !IsLifecycle(ms[k], e.etype) {
      GivenTheScope(ms, e, k);
    }
  }

  lemma {:induction false} GivenTheScope<S>(ms: seq<Model<S>>, e: Event, k: nat)
    requires k < |ms| && IsBound(ms[k], e) && IsAbout(ms[k], e) && !IsLifecycle(ms[k], e.etype)
    requires CompleteAll(ms, e).conflicts == []
    ensures HasAll(ms[k].scope, CompleteAll(ms, e).event)
  {
    var front := ms[..|ms| - 1];
    var before := CompleteAll(front, e);
    CompleteAllOnlyAdds(front, e);
    StillBound(ms[k], e, before.event);
    if k == |ms| - 1 {
      CompletedHasTheScope(ms[k], before.event);
    } else {
      GivenTheScope(front, e, k);
      CompleteOnlyAdds(ms[|ms| - 1], before.event);
      StillBound(ms[k], before.event, CompleteAll(ms, e).event);
    }
  }

  // ---- The handler's own events ----

  datatype OwnEvents = Own(events: seq<Event>) | Conflicting(at: nat, conflicts: seq<string>)

  /** The command's events as they are appended, or the first that cannot be read back
      (packages/commands/src/Command.ts:284-299). */
  method CompleteOwn<S>(ms: seq<Model<S>>, decided: seq<Event>) returns (r: OwnEvents)
    ensures r.Own? ==> IsCompleted(ms, decided, r.events)
    ensures r.Conflicting? ==> r.at < |decided| && r.conflicts == CompleteAll(ms, decided[r.at]).conflicts != []
    ensures r.Conflicting? ==> forall j :: 0 <= j < r.at ==> CompleteAll(ms, decided[j]).conflicts == []
  {
    var own: seq<Event> := [];
    for i := 0 to |decided|
      invariant |own| == i
      invariant forall j :: 0 <= j < i ==> CompleteAll(ms, decided[j]) == Completed(own[j], [])
    {
      var completed := CompleteAll(ms, decided[i]);
      if completed.conflicts != [] {
        return Conflicting(i, completed.conflicts);
      }
      own := own + [completed.event];
    }
    return Own(own);
  }

  predicate IsCompleted<S>(ms: seq<Model<S>>, decided: seq<Event>, own: seq<Event>) {
    |own| == |decided| && forall i :: 0 <= i < |decided| ==> CompleteAll(ms, decided[i]) == Completed(own[i], [])
  }
}
