/** Wake-ups: what an append announces, what a subscriber asks for, and the filter between them
    (packages/eventstore/src/NotifyPayload.ts, packages/eventstore/src/Listen.ts, packages/event-poller/src/EventSelection.ts). */
module NotifyPayload {
  import opened Options
  import opened Events
  import opened Text

  const MAX_PAYLOAD_LENGTH := 7900

  predicate HoldsSeparator(s: string) {
    ',' in s || '|' in s
  }

  function InsertName(s: string, names: seq<string>): (r: seq<string>)
    ensures |r| == |names| + 1 && forall n :: n in r <==> n in names || n == s
  {
    if names == [] || !Less(names[0], s) then [s] + names
    else
      assert names == [names[0]] + names[1..];
      [names[0]] + InsertName(s, names[1..])
  }

  /** The names in string order. */
  function SortNames(names: seq<string>): (r: seq<string>)
    ensures |r| == |names| && forall n :: n in r <==> n in names
  {
    if names == [] then []
    else
      assert names == [names[0]] + names[1..];
      InsertName(names[0], SortNames(names[1..]))
  }

  function TypesPart(types: seq<string>): string {
    Join(SortNames(types), ',')
  }

  function Both(types: seq<string>, keys: seq<string>): string {
    TypesPart(types) + "|" + Join(SortNames(keys), ',')
  }

  /** The two sets are given in any order. */
  function EncodePayload(types: seq<string>, keys: seq<string>): (payload: string)
    ensures |payload| <= MAX_PAYLOAD_LENGTH
  {
    if types == [] then "*"
    else if exists t :: t in types && HoldsSeparator(t) then "*"
    else if keys != [] && (forall k :: k in keys ==> !HoldsSeparator(k)) && |Both(types, keys)| <= MAX_PAYLOAD_LENGTH then Both(types, keys)
    else if |TypesPart(types)| <= MAX_PAYLOAD_LENGTH then TypesPart(types)
    else "*"
  }

  /** Whether the payload leaves out the tag keys it was given. */
  predicate TagsDropped(types: seq<string>, keys: seq<string>) {
    keys != [] && ((exists k :: k in keys && HoldsSeparator(k)) || |Both(types, keys)| > MAX_PAYLOAD_LENGTH)
  }

  predicate IsSpace(c: char) {
    c in {' ', '\t', '\n', '\r', '\U{B}', '\U{C}', '\U{A0}', '\U{1680}', '\U{2028}', '\U{2029}', '\U{202F}', '\U{205F}', '\U{3000}', '\U{FEFF}'}
    || '\U{2000}' <= c <= '\U{200A}'
  }

  predicate IsWildcard(payload: Option<string>) {
    payload.None? || (forall c :: c in payload.value ==> IsSpace(c)) || payload.value == "*"
  }

  datatype Batch = Batch(wildcard: bool, types: set<string>, tagKeys: set<string>)

  const WILDCARD := Batch(true, {}, {})

  function NonEmpty(parts: seq<string>): set<string> {
    set p | p in parts && p != ""
  }

  function DecodePayload(payload: Option<string>): Batch {
    if IsWildcard(payload) then WILDCARD
    else
      var bar := IndexOf(payload.value, '|');
      var types := payload.value[..bar];
      var keys := if bar < |payload.value| then payload.value[bar + 1..] else "";
      Batch(false, NonEmpty(Split(types, ',')), NonEmpty(Split(keys, ',')))
  }

  datatype Filter = Filter(eventTypes: Option<set<string>>, requiredTagKeys: Option<set<string>>,
                           anyOfTagKeys: Option<set<string>>, exactTagKeys: Option<set<string>>)

  function Asked(names: Option<set<string>>): set<string> {
    if names.Some? then names.value else {}
  }

  predicate ShouldWake(batch: Batch, filter: Filter) {
    batch.wildcard
    || ((Asked(filter.eventTypes) == {} || exists t :: t in Asked(filter.eventTypes) && t in batch.types)
        && (batch.tagKeys == {}
            || ((forall k :: k in Asked(filter.requiredTagKeys) ==> k in batch.tagKeys)
                && (Asked(filter.anyOfTagKeys) == {} || exists k :: k in Asked(filter.anyOfTagKeys) && k in batch.tagKeys)
                && (forall k :: k in Asked(filter.exactTagKeys) ==> k in batch.tagKeys))))
  }

  datatype Selection = Selection(eventTypes: set<string>, requiredTags: set<string>, anyOfTags: set<string>, exactTags: map<string, string>)

  predicate HasKey(e: Event, key: string) {
    exists t :: t in e.tags && t.key == key
  }

  /** What a poller fetches for the selection. */
  predicate Selects(s: Selection, e: Event) {
    && (s.eventTypes == {} || e.etype in s.eventTypes)
    && (forall k :: k in s.requiredTags ==> HasKey(e, k))
    && (s.anyOfTags == {} || exists k :: k in s.anyOfTags && HasKey(e, k))
    && (forall k :: k in s.exactTags ==> Tag(k, s.exactTags[k]) in e.tags)
  }

  function FilterOf(s: Selection): Filter {
    Filter(Some(s.eventTypes), Some(s.requiredTags), Some(s.anyOfTags), Some(s.exactTags.Keys))
  }

  // ---- Encode and decode agree ----

  /** The names the decoder can give back: it drops an empty one. */
  function Named(names: seq<string>): set<string> {
    set n | n in names && n != ""
  }

  lemma SplitNames(names: seq<string>)
    requires forall n :: n in names ==> ',' !in n
    ensures NonEmpty(Split(Join(SortNames(names), ','), ',')) == Named(names)
  {
    var sorted := SortNames(names);
    if names != [] {
      SplitJoin(sorted, ',');
      assert forall n :: n in sorted <==> n in names;
    }
  }

  /** What an announcement says once decoded. */
  function Announced(types: seq<string>, keys: seq<string>): Batch {
    DecodePayload(Some(EncodePayload(types, keys)))
  }

  /** Everything, or exactly the types announced and either all tag keys or, when they were dropped, none. */
  lemma DecodeEncode(types: seq<string>, keys: seq<string>)
    ensures var b := Announced(types, keys);
            b == WILDCARD || b == Batch(false, Named(types), if TagsDropped(types, keys) then {} else Named(keys))
  {
    var payload := EncodePayload(types, keys);
    if payload == TypesPart(types) && payload != "*" {
      JoinHoldsOnly(SortNames(types), ',', '|');
      SplitNames(types);
      assert payload[..|payload|] == payload;
      assert IndexOf(payload, '|') == |payload|;
    } else if payload != "*" {
      JoinHoldsOnly(SortNames(types), ',', '|');
      SplitNames(types);
      SplitNames(keys);
      IndexOfFirst(TypesPart(types), Join(SortNames(keys), ','), '|');
      assert payload == TypesPart(types) + ['|'] + Join(SortNames(keys), ',');
      assert payload[..|TypesPart(types)|] == TypesPart(types);
      assert payload[|TypesPart(types)| + 1..] == Join(SortNames(keys), ',');
    }
  }

  predicate IsBlank(s: string) {
    forall c :: c in s ==> IsSpace(c)
  }

  predicate HoldsAny(names: seq<string>) {
    exists n :: n in names && (',' in n || '|' in n)
  }

  /** The tag keys are given and fit, with the types, into 7900 characters. */
  predicate KeepsKeys(types: seq<string>, keys: seq<string>) {
    keys != [] && !HoldsAny(keys) && |Join(SortNames(types), ',')| + 1 + |Join(SortNames(keys), ',')| <= 7900
  }

  /** When a payload says nothing in particular: no type, a type it cannot hold, too many of them, or a lone type that looks
      like a wildcard. */
  predicate SaysEverything(types: seq<string>, keys: seq<string>) {
    types == [] || HoldsAny(types)
    || (!KeepsKeys(types, keys) && (|Join(SortNames(types), ',')| > 7900 || (|types| == 1 && (types[0] == "*" || IsBlank(types[0])))))
  }

  lemma TwoNamesHoldAComma(names: seq<string>)
    requires |names| >= 2
    ensures ',' in Join(names, ',')
  {
    assert Join(names, ',') == names[0] + [','] + Join(names[1..], ',');
  }

  lemma OneNameIsItself(names: seq<string>)
    requires |names| == 1
    ensures Join(SortNames(names), ',') == names[0]
  {
    assert SortNames(names)[0] in SortNames(names);
  }

  /** A payload in full: the types in order, and the keys in order when they are kept; or a wildcard. */
  lemma PayloadExactly(types: seq<string>, keys: seq<string>)
    ensures var payload := EncodePayload(types, keys);
            var ts := Join(SortNames(types), ',');
            if types == [] || HoldsAny(types) then payload == "*"
            else if KeepsKeys(types, keys) then payload == ts + "|" + Join(SortNames(keys), ',')
            else payload == if |ts| <= 7900 then ts else "*"
    ensures TagsDropped(types, keys) <==> keys != [] && !KeepsKeys(types, keys)
  {
    var ks := Join(SortNames(keys), ',');
    assert |Both(types, keys)| == |TypesPart(types)| + 1 + |ks|;
    assert HoldsAny(types) <==> exists t :: t in types && HoldsSeparator(t);
    assert HoldsAny(keys) <==> exists k :: k in keys && HoldsSeparator(k);
  }

  /** It decodes to a wildcard exactly then. */
  lemma WildcardExactly(types: seq<string>, keys: seq<string>)
    ensures Announced(types, keys) == WILDCARD <==> SaysEverything(types, keys)
    ensures !SaysEverything(types, keys) ==> Announced(types, keys) == Batch(false, Named(types), if KeepsKeys(types, keys) then Named(keys) else {})
  {
    var payload := EncodePayload(types, keys);
    var ts := Join(SortNames(types), ',');
    PayloadExactly(types, keys);
    DecodeEncode(types, keys);
    if types != [] && !HoldsAny(types) && !KeepsKeys(types, keys) && |ts| <= 7900 {
      if |types| == 1 {
        OneNameIsItself(types);
      } else {
        TwoNamesHoldAComma(SortNames(types));
        assert !IsSpace(',') && payload != "*";
      }
    } else if types != [] && !HoldsAny(types) && KeepsKeys(types, keys) {
      assert payload[|ts|] == '|' && !IsSpace('|') && '|' in payload;
      assert payload != "*";
    }
  }

  predicate InOrder(names: seq<string>) {
    forall i, j :: 0 <= i < j < |names| ==> !Less(names[j], names[i])
  }

  lemma {:induction false} InsertedInOrder(s: string, names: seq<string>)
    requires InOrder(names)
    ensures InOrder(InsertName(s, names)) && multiset(InsertName(s, names)) == multiset(names) + multiset{s}
  {
    if names != [] && Less(names[0], s) {
      InsertedInOrder(s, names[1..]);
      var rest := InsertName(s, names[1..]);
      assert names == [names[0]] + names[1..];
      forall j | 0 <= j < |rest| ensures !Less(rest[j], names[0]) {
        NoneIsBefore(s, names, rest[j]);
      }
    } else if names != [] {
      forall j | 0 <= j < |names| ensures !Less(names[j], s) {
        FollowsInOrder(s, names[0], names[j]);
      }
    }
  }

  lemma NoneIsBefore(s: string, names: seq<string>, n: string)
    requires InOrder(names) && names != [] && Less(names[0], s) && n in InsertName(s, names[1..])
    ensures !Less(n, names[0])
  {
    LessTotal(names[0], s);
    if n in names[1..] {
      var i :| 0 <= i < |names| - 1 && names[1..][i] == n;
      assert names[i + 1] == n;
    }
  }

  lemma FollowsInOrder(a: string, b: string, c: string)
    requires !Less(b, a) && (!Less(c, b) || b == c)
    ensures !Less(c, a)
  {
    LessTotal(a, b);
    LessTotal(b, c);
    if Less(c, a) {
      if a != b { LessTransitive(c, a, b); }
      assert false;
    }
  }

  /** The names in a payload stand in string order, each as often as it was given. */
  lemma {:induction false} NamesAreSorted(names: seq<string>)
    ensures InOrder(SortNames(names)) && multiset(SortNames(names)) == multiset(names)
  {
    if names != [] {
      NamesAreSorted(names[1..]);
      InsertedInOrder(names[0], SortNames(names[1..]));
      assert names == [names[0]] + names[1..];
    }
  }

  // ---- No wake-up is lost ----

  /** The batch announces the event: its type, and its tag keys when it names any. */
  predicate Announces(b: Batch, e: Event) {
    b.wildcard || (e.etype in b.types && (b.tagKeys == {} || forall t :: t in e.tags ==> t.key in b.tagKeys))
  }

  /** A batch wakes every subscriber that selects the event exactly when it announces the event. */
  lemma WakesExactlyWhenAnnounced(b: Batch, e: Event)
    ensures Announces(b, e) <==> forall s :: Selects(s, e) ==> ShouldWake(b, FilterOf(s))
  {
    if Announces(b, e) {
      forall s | Selects(s, e) ensures ShouldWake(b, FilterOf(s)) {
        forall k | HasKey(e, k) ensures b.wildcard || b.tagKeys == {} || k in b.tagKeys {
          var t :| t in e.tags && t.key == k;
        }
        forall k | k in s.exactTags ensures HasKey(e, k) {
          assert Tag(k, s.exactTags[k]) in e.tags;
        }
      }
    }
    if forall s :: Selects(s, e) ==> ShouldWake(b, FilterOf(s)) {
      var s := Selection({e.etype}, set t | t in e.tags :: t.key, {}, map[]);
      assert Selects(s, e);
      assert ShouldWake(b, FilterOf(s));
    }
  }

  /** And it wakes nobody in vain, as far as it says: a subscriber is woken exactly when some event the batch announces is one
      it selects. */
  lemma WakesExactlyWhenPossible(b: Batch, s: Selection)
    requires b.wildcard || b.types != {}
    ensures ShouldWake(b, FilterOf(s)) <==> exists e :: Announces(b, e) && Selects(s, e)
  {
    if ShouldWake(b, FilterOf(s)) {
      var etype: string := "";
      if b.wildcard {
        if s.eventTypes != {} { etype :| etype in s.eventTypes; }
      } else if s.eventTypes == {} {
        etype :| etype in b.types;
      } else {
        etype :| etype in s.eventTypes && etype in b.types;
      }
      var more: set<string> := {};
      if s.anyOfTags != {} {
        var k: string;
        if b.wildcard || b.tagKeys == {} { k :| k in s.anyOfTags; } else { k :| k in s.anyOfTags && k in b.tagKeys; }
        more := {k};
      }
      var e := EventFor(etype, s, more);
      assert Announces(b, e) && Selects(s, e);
    }
    if e :| Announces(b, e) && Selects(s, e) {
      WakesExactlyWhenAnnounced(b, e);
    }
  }

  /** An event with the tags a selection asks for, and the given keys. */
  lemma EventFor(etype: string, s: Selection, more: set<string>) returns (e: Event)
    ensures e.etype == etype
    ensures forall k :: HasKey(e, k) <==> k in s.requiredTags || k in s.exactTags || k in more
    ensures forall k :: k in s.exactTags ==> Tag(k, s.exactTags[k]) in e.tags
  {
    var keys := s.requiredTags + s.exactTags.Keys + more;
    var tags := TagsOf(keys, s.exactTags);
    e := Event(etype, tags, "");
    forall k ensures HasKey(e, k) <==> k in keys {
      if k in keys {
        var t := Tag(k, if k in s.exactTags then s.exactTags[k] else "");
        assert t in e.tags && t.key == k;
      }
    }
  }

  lemma {:induction false} TagsOf(keys: set<string>, values: map<string, string>) returns (tags: seq<Tag>)
    ensures forall t :: t in tags <==> t.key in keys && t.value == if t.key in values then values[t.key] else ""
    decreases keys
  {
    tags := [];
    if keys != {} {
      var k :| k in keys;
      var rest := TagsOf(keys - {k}, values);
      tags := [Tag(k, if k in values then values[k] else "")] + rest;
    }
  }

  /** What several notifications within one window are merged into. */
  ghost predicate IsMerge(payloads: seq<Batch>, b: Batch) {
    && (b.wildcard <==> exists p :: p in payloads && p.wildcard)
    && (forall t :: t in b.types <==> !b.wildcard && exists p :: p in payloads && t in p.types)
    && (forall k :: k in b.tagKeys <==> !b.wildcard && exists p :: p in payloads && k in p.tagKeys)
  }

  method MergeBatch(payloads: seq<Batch>) returns (b: Batch)
    ensures IsMerge(payloads, b)
  {
    if exists p :: p in payloads && p.wildcard {
      return WILDCARD;
    }
    var types: set<string>, tagKeys: set<string> := {}, {};
    for i := 0 to |payloads|
      invariant forall t :: t in types <==> exists j :: 0 <= j < i && t in payloads[j].types
      invariant forall k :: k in tagKeys <==> exists j :: 0 <= j < i && k in payloads[j].tagKeys
    {
      types := types + payloads[i].types;
      tagKeys := tagKeys + payloads[i].tagKeys;
    }
    b := Batch(false, types, tagKeys);
    assert forall p :: p in payloads <==> exists j :: 0 <= j < |payloads| && payloads[j] == p;
  }

  /** The announcement's sets hold the event's type and tag keys. */
  predicate Includes(types: seq<string>, keys: seq<string>, e: Event) {
    e.etype in types && forall t :: t in e.tags ==> t.key in keys
  }

  predicate KeysAreNamed(e: Event) {
    forall t :: t in e.tags ==> t.key != ""
  }

  /** From the append to the subscriber: whatever else it was made of, an announcement wakes every subscriber that selects
      the event exactly when it is a wildcard, or the event's type is not the empty text and, unless no key is named, none of
      its keys is. */
  lemma NoWakeupIsLost(types: seq<string>, keys: seq<string>, e: Event)
    requires Includes(types, keys, e)
    ensures (forall s :: Selects(s, e) ==> ShouldWake(Announced(types, keys), FilterOf(s)))
            <==> Announced(types, keys).wildcard || (e.etype != "" && (Announced(types, keys).tagKeys == {} || KeysAreNamed(e)))
  {
    DecodeEncode(types, keys);
    WakesExactlyWhenAnnounced(Announced(types, keys), e);
  }

  ghost predicate IsAnnouncement(b: Batch) {
    exists types, keys :: b == Announced(types, keys)
  }

  /** Whatever announcements it is merged with, the batch wakes every subscriber that selects the event. */
  ghost predicate SafeInEveryMerge(own: Batch, e: Event) {
    forall payloads, b, s ::
      own in payloads && (forall p :: p in payloads ==> IsAnnouncement(p)) && IsMerge(payloads, b) && Selects(s, e) ==> ShouldWake(b, FilterOf(s))
  }

  /** The condition on the announcement itself: a wildcard, or an event without tags, or tags that are named and were not
      dropped. */
  predicate NamesItsKeys(types: seq<string>, keys: seq<string>, e: Event) {
    Announced(types, keys).wildcard || (e.etype != "" && (e.tags == [] || (KeysAreNamed(e) && !TagsDropped(types, keys))))
  }

  /** Exactly when no wake-up is lost in any merge. */
  lemma NoWakeupIsLostInAMerge(types: seq<string>, keys: seq<string>, e: Event)
    requires Includes(types, keys, e)
    ensures SafeInEveryMerge(Announced(types, keys), e) <==> NamesItsKeys(types, keys, e)
  {
    var own := Announced(types, keys);
    DecodeEncode(types, keys);
    if NamesItsKeys(types, keys, e) {
      forall payloads, b, s | own in payloads && IsMerge(payloads, b) && Selects(s, e) ensures ShouldWake(b, FilterOf(s)) {
        assert Announces(b, e);
        WakesExactlyWhenAnnounced(b, e);
      }
    } else {
      var payloads, b := LosesAWakeup(types, keys, e);
      WakesExactlyWhenAnnounced(b, e);
    }
  }

  /** A merge that loses one: of the announcement alone, or with a short one that names another key. */
  lemma LosesAWakeup(types: seq<string>, keys: seq<string>, e: Event) returns (payloads: seq<Batch>, b: Batch)
    requires Includes(types, keys, e) && !NamesItsKeys(types, keys, e)
    ensures Announced(types, keys) in payloads && (forall p :: p in payloads ==> IsAnnouncement(p))
    ensures IsMerge(payloads, b) && !Announces(b, e)
  {
    var own := Announced(types, keys);
    DecodeEncode(types, keys);
    if e.etype == "" {
      payloads, b := [own], own;
    } else {
      var t := MissingKey(types, keys, e);
      payloads, b := MergedWithAShortOne(own, e, t);
    }
  }

  lemma MergedWithAShortOne(own: Batch, e: Event, t: Tag) returns (payloads: seq<Batch>, b: Batch)
    requires IsAnnouncement(own) && !own.wildcard && t in e.tags && t.key !in own.tagKeys
    ensures own in payloads && (forall p :: p in payloads ==> IsAnnouncement(p))
    ensures IsMerge(payloads, b) && !Announces(b, e)
  {
    var other := if t.key == "z" then 'y' else 'z';
    OtherKey(other);
    var short := Batch(false, {"B"}, {[other]});
    payloads := [own, short];
    b := Batch(false, own.types + short.types, own.tagKeys + short.tagKeys);
    MergeOfTwo(own, short);
    assert [other] != t.key;
    MergeMissesIt(own, short, b, e, t);
  }

  lemma MergeMissesIt(own: Batch, short: Batch, b: Batch, e: Event, t: Tag)
    requires b == Batch(false, own.types + short.types, own.tagKeys + short.tagKeys)
    requires t in e.tags && t.key !in own.tagKeys && t.key !in short.tagKeys && short.tagKeys != {}
    ensures !Announces(b, e)
  {
    var k :| k in short.tagKeys;
    assert k in b.tagKeys && t.key !in b.tagKeys;
  }

  /** A tag whose key the announcement does not name. */
  lemma MissingKey(types: seq<string>, keys: seq<string>, e: Event) returns (t: Tag)
    requires Includes(types, keys, e) && !NamesItsKeys(types, keys, e) && e.etype != ""
    ensures t in e.tags && t.key !in Announced(types, keys).tagKeys
  {
    DecodeEncode(types, keys);
    if KeysAreNamed(e) {
      t := e.tags[0];
    } else {
      t :| t in e.tags && t.key == "";
    }
  }

  lemma MergeOfTwo(p: Batch, q: Batch)
    requires !p.wildcard && !q.wildcard
    ensures IsMerge([p, q], Batch(false, p.types + q.types, p.tagKeys + q.tagKeys))
  {
    assert [p, q][0] == p && [p, q][1] == q;
    assert p in [p, q] && q in [p, q];
  }

  /** A short announcement that names one key. */
  lemma OtherKey(c: char)
    requires c == 'y' || c == 'z'
    ensures IsAnnouncement(Batch(false, {"B"}, {[c]}))
  {
    OtherPayload(c);
    DecodeOther(c);
    assert Announced(["B"], [[c]]) == Batch(false, {"B"}, {[c]});
  }

  lemma OtherPayload(c: char)
    requires c == 'y' || c == 'z'
    ensures EncodePayload(["B"], [[c]]) == "B|" + [c]
  {
    assert !HoldsSeparator("B") && !HoldsSeparator([c]);
    assert SortNames(["B"]) == ["B"] && SortNames([[c]]) == [[c]];
  }

  lemma DecodeOther(c: char)
    requires c == 'y' || c == 'z'
    ensures DecodePayload(Some("B|" + [c])) == Batch(false, {"B"}, {[c]})
  {
    var payload := "B|" + [c];
    assert payload[0] == 'B' && !IsSpace('B');
    IndexOfFirst("B", [c], '|');
    assert "B" + ['|'] + [c] == payload;
    assert payload[..1] == "B" && payload[2..] == [c];
    SplitNone("B", ',');
    SplitNone([c], ',');
    assert NonEmpty(["B"]) == {"B"} && NonEmpty([[c]]) == {[c]};
  }
}
