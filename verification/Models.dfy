/** Models: one declaration gives the fold of an entity's events and the boundary that guards it
    (packages/commands/src/Model.ts). */
module Models {
  import opened Options
  import opened Events

  /** One `.on` or `.lifecycle`. `keys`: the tag keys it binds through instead of the model's own. A handler looks at the
      event's type, tags and data, and at the entity's id. */
  datatype Entry<!S> = Entry(etype: string, lifecycle: bool, keys: Option<seq<string>>, apply: (S, Event, string) -> S)

  /** A model of one entity. `scope`: the tags that narrow the events that are not lifecycle events. */
  datatype Model<!S> = Model(entries: seq<Entry<S>>, key: string, id: string, scope: seq<Tag>, initial: S)

  /** Tag keys are kept in lower case. */
  function Lower(s: string): (r: string)
    ensures |r| == |s|
  {
    seq(|s|, i requires 0 <= i < |s| => if 'A' <= s[i] <= 'Z' then 'a' + (s[i] - 'A') else s[i])
  }

  function KeysOf<S>(m: Model<S>, entry: Entry<S>): seq<string> {
    if entry.keys.Some? then entry.keys.value else [m.key]
  }

  // ---- The boundary ----

  /** A way of binding an event to the entity: what groups the entries into items. The code keeps a group under a text, `L|`
      or `S|` and the key, which is another for every way. */
  datatype Way = Way(lifecycle: bool, key: string)

  /** The tags an event bound this way is read by. */
  function TagsFor(way: Way, id: string, scope: seq<Tag>): seq<Tag> {
    [Tag(Lower(way.key), id)] + if way.lifecycle then [] else scope
  }

  predicate HasAll(tags: seq<Tag>, e: Event) {
    forall t :: t in tags ==> t in e.tags
  }

  predicate BindsBy<S>(m: Model<S>, i: nat, way: Way)
    requires i < |m.entries|
  {
    way.lifecycle == m.entries[i].lifecycle && way.key in KeysOf(m, m.entries[i])
  }

  /** An event some entry is bound to: of its type, about this entity, in its scope. */
  ghost predicate Reads<S>(m: Model<S>, lifecycleOnly: bool, e: Event) {
    exists i, way :: 0 <= i < |m.entries| && BindsBy(m, i, way) && (lifecycleOnly ==> way.lifecycle)
                     && e.etype == m.entries[i].etype && HasAll(TagsFor(way, m.id, m.scope), e)
  }

  /** The boundary of a model: exactly the events its entries are bound to, every item naming its types. */
  ghost predicate IsBoundary<S>(m: Model<S>, lifecycleOnly: bool, q: Query) {
    && !q.all
    && (forall item :: item in q.items ==> item.types != [])
    && forall e :: ConditionMatches(q, e) <==> Reads(m, lifecycleOnly, e)
  }

  predicate IsReadBy<S>(m: Model<S>, entry: Entry<S>, key: string, e: Event) {
    && e.etype == entry.etype && Tag(Lower(key), m.id) in e.tags && (entry.keys.None? ==> key == m.key) && (entry.keys.Some? ==> key in entry.keys.value)
    && (entry.lifecycle || forall t :: t in m.scope ==> t in e.tags)
  }

  /** In tags: an event is read exactly when some entry of its type finds one of the keys it binds through (its own, or else
      the model's), in lower case, with the entity's id, and the whole scope, unless it is a lifecycle entry. */
  lemma ReadsExactly<S>(m: Model<S>, lifecycleOnly: bool, e: Event)
    ensures Reads(m, lifecycleOnly, e)
            <==> exists entry, key :: entry in m.entries && (lifecycleOnly ==> entry.lifecycle) && IsReadBy(m, entry, key, e)
  {
    if Reads(m, lifecycleOnly, e) {
      var i, way :| 0 <= i < |m.entries| && BindsBy(m, i, way) && (lifecycleOnly ==> way.lifecycle)
                    && e.etype == m.entries[i].etype && HasAll(TagsFor(way, m.id, m.scope), e);
      var tags := TagsFor(way, m.id, m.scope);
      assert tags[0] in tags && forall t :: t in tags[1..] ==> t in tags;
      assert IsReadBy(m, m.entries[i], way.key, e);
    }
    if entry, key :| entry in m.entries && (lifecycleOnly ==> entry.lifecycle) && IsReadBy(m, entry, key, e) {
      var i :| 0 <= i < |m.entries| && m.entries[i] == entry;
      var way := Way(entry.lifecycle, key);
      assert BindsBy(m, i, way) && HasAll(TagsFor(way, m.id, m.scope), e);
    }
  }

  /** The groups hold the types put in, each under its way, and nothing else. */
  ghost predicate Grouped(id: string, scope: seq<Tag>, put: iset<(Way, string)>, groups: map<Way, QueryItem>) {
    && (forall p :: p in put ==> p.0 in groups && p.1 in groups[p.0].types)
    && (forall way :: way in groups ==> groups[way].types != [] && groups[way].tags == TagsFor(way, id, scope))
    && (forall way, t :: way in groups && t in groups[way].types ==> (way, t) in put)
  }

  function Into(groups: map<Way, QueryItem>, way: Way, etype: string, id: string, scope: seq<Tag>): map<Way, QueryItem> {
    var group := if way in groups then groups[way] else QueryItem([], TagsFor(way, id, scope));
    groups[way := if etype in group.types then group else QueryItem(group.types + [etype], group.tags)]
  }

  lemma GroupedOneMore(id: string, scope: seq<Tag>, put: iset<(Way, string)>, groups: map<Way, QueryItem>, way: Way, etype: string)
    requires Grouped(id, scope, put, groups)
    ensures Grouped(id, scope, put + iset{(way, etype)}, Into(groups, way, etype, id, scope))
  {
  }

  /** One item for each group. */
  lemma GroupsAreItems(id: string, scope: seq<Tag>, put: iset<(Way, string)>, order: seq<Way>, groups: map<Way, QueryItem>, q: Query, e: Event)
    requires Grouped(id, scope, put, groups) && !q.all
    requires forall way :: way in order <==> way in groups
    requires |q.items| == |order| && forall n :: 0 <= n < |order| ==> q.items[n] == groups[order[n]]
    ensures ConditionMatches(q, e) <==> exists way :: (way, e.etype) in put && HasAll(TagsFor(way, id, scope), e)
    ensures forall item :: item in q.items ==> item.types != []
  {
    if ConditionMatches(q, e) {
      var item :| item in q.items && ItemMatches(item, e);
      var n :| 0 <= n < |order| && q.items[n] == item;
      assert (order[n], e.etype) in put;
    }
    if way :| (way, e.etype) in put && HasAll(TagsFor(way, id, scope), e) {
      var p := (way, e.etype);
      assert p.0 in groups && p.1 in groups[p.0].types;
      var n :| 0 <= n < |order| && order[n] == way;
      assert q.items[n] in q.items && ItemMatches(q.items[n], e);
    }
  }

  /** What the first `n` entries put in. */
  ghost function PutBy<S>(m: Model<S>, n: nat, lifecycleOnly: bool): iset<(Way, string)>
    requires n <= |m.entries|
  {
    iset p: (Way, string) | (lifecycleOnly ==> p.0.lifecycle) && exists i :: 0 <= i < n && BindsBy(m, i, p.0) && p.1 == m.entries[i].etype
  }

  lemma OneMoreEntry<S>(m: Model<S>, n: nat, lifecycleOnly: bool)
    requires n < |m.entries|
    ensures PutBy(m, n + 1, lifecycleOnly)
              == PutBy(m, n, lifecycleOnly) + iset p: (Way, string) | (lifecycleOnly ==> p.0.lifecycle) && BindsBy(m, n, p.0) && p.1 == m.entries[n].etype
  {
  }

  ghost function PutWith(put: iset<(Way, string)>, lifecycle: bool, keys: seq<string>, etype: string): iset<(Way, string)> {
    put + iset p: (Way, string) | p.0.lifecycle == lifecycle && p.0.key in keys && p.1 == etype
  }

  lemma OneMoreWay(put: iset<(Way, string)>, lifecycle: bool, keys: seq<string>, key: string, etype: string)
    ensures PutWith(put, lifecycle, keys + [key], etype) == PutWith(put, lifecycle, keys, etype) + iset{(Way(lifecycle, key), etype)}
  {
  }

  /** One entry, bound through each of its keys. */
  method PutEntry<S>(m: Model<S>, i: nat, order: seq<Way>, groups: map<Way, QueryItem>, ghost put: iset<(Way, string)>)
    returns (order': seq<Way>, groups': map<Way, QueryItem>)
    requires i < |m.entries| && Grouped(m.id, m.scope, put, groups)
    requires forall way :: way in order <==> way in groups
    ensures forall way :: way in order' <==> way in groups'
    ensures Grouped(m.id, m.scope, put + (iset p: (Way, string) | BindsBy(m, i, p.0) && p.1 == m.entries[i].etype), groups')
  {
    order', groups' := order, groups;
    var entry := m.entries[i];
    var keys := KeysOf(m, entry);
    ghost var sofar := put;
    for j := 0 to |keys|
      invariant Grouped(m.id, m.scope, sofar, groups')
      invariant forall way :: way in order' <==> way in groups'
      invariant sofar == PutWith(put, entry.lifecycle, keys[..j], entry.etype)
    {
      var way := Way(entry.lifecycle, keys[j]);
      GroupedOneMore(m.id, m.scope, sofar, groups', way, entry.etype);
      if way !in groups' {
        order' := order' + [way];
      }
      groups' := Into(groups', way, entry.etype, m.id, m.scope);
      assert keys[..j + 1] == keys[..j] + [keys[j]];
      OneMoreWay(put, entry.lifecycle, keys[..j], keys[j], entry.etype);
      sofar := sofar + iset{(way, entry.etype)};
    }
    assert keys[..|keys|] == keys;
    assert sofar == put + iset p: (Way, string) | BindsBy(m, i, p.0) && p.1 == m.entries[i].etype;
  }

  /** The query of a model: entries that bind the same way share an item. */
  method QueryOf<S>(m: Model<S>, lifecycleOnly: bool) returns (q: Query)
    ensures IsBoundary(m, lifecycleOnly, q)
  {
    var order: seq<Way>, groups: map<Way, QueryItem> := [], map[];
    for i := 0 to |m.entries|
      invariant Grouped(m.id, m.scope, PutBy(m, i, lifecycleOnly), groups)
      invariant forall way :: way in order <==> way in groups
    {
      OneMoreEntry(m, i, lifecycleOnly);
      if lifecycleOnly && !m.entries[i].lifecycle {
        assert PutBy(m, i + 1, lifecycleOnly) == PutBy(m, i, lifecycleOnly);
        continue;
      }
      order, groups := PutEntry(m, i, order, groups, PutBy(m, i, lifecycleOnly));
      assert PutBy(m, i + 1, lifecycleOnly)
          == PutBy(m, i, lifecycleOnly) + iset p: (Way, string) | BindsBy(m, i, p.0) && p.1 == m.entries[i].etype;
    }
    var items: seq<QueryItem> := [];
    for n := 0 to |order|
      invariant |items| == n && forall h :: 0 <= h < n ==> items[h] == groups[order[h]]
    {
      items := items + [groups[order[n]]];
    }
    q := Query(items, false);
    GroupsAreTheBoundary(m, lifecycleOnly, order, groups, q);
  }

  lemma GroupsAreTheBoundary<S>(m: Model<S>, lifecycleOnly: bool, order: seq<Way>, groups: map<Way, QueryItem>, q: Query)
    requires Grouped(m.id, m.scope, PutBy(m, |m.entries|, lifecycleOnly), groups) && !q.all
    requires forall way :: way in order <==> way in groups
    requires |q.items| == |order| && forall n :: 0 <= n < |order| ==> q.items[n] == groups[order[n]]
    ensures IsBoundary(m, lifecycleOnly, q)
  {
    var put := PutBy(m, |m.entries|, lifecycleOnly);
    forall e ensures ConditionMatches(q, e) <==> Reads(m, lifecycleOnly, e) {
      GroupsAreItems(m.id, m.scope, put, order, groups, q, e);
      if Reads(m, lifecycleOnly, e) {
        var i, way :| 0 <= i < |m.entries| && BindsBy(m, i, way) && (lifecycleOnly ==> way.lifecycle)
                      && e.etype == m.entries[i].etype && HasAll(TagsFor(way, m.id, m.scope), e);
        assert (way, e.etype) in put;
      }
    }
    GroupsAreItems(m.id, m.scope, put, order, groups, q, Event("", [], ""));
  }
}
