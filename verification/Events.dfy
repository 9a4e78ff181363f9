/** Options, the events an application appends, and the queries that select them
    (packages/eventstore/src/Query.ts, packages/eventstore/src/spec/Spec.ts). */
module Options {
  datatype Option<+T> = None | Some(value: T)
}

module Events {
  datatype Tag = Tag(key: string, value: string)

  /** An event as it is appended. `data` stands for the JSON text of the payload; nothing here looks into it. */
  datatype Event = Event(etype: string, tags: seq<Tag>, data: string)

  /** Any of the types (none: every type) and all of the tags. */
  datatype QueryItem = QueryItem(types: seq<string>, tags: seq<Tag>)

  /** `all`: every event, with no items. */
  datatype Query = Query(items: seq<QueryItem>, all: bool)

  const NO_CONDITION := Query([], false)

  predicate ItemMatches(item: QueryItem, e: Event) {
    (item.types == [] || e.etype in item.types) && forall t :: t in item.tags ==> t in e.tags
  }

  /** What a read with this query returns: with no items, everything. */
  predicate QueryMatches(q: Query, e: Event) {
    q.items == [] || exists item :: item in q.items && ItemMatches(item, e)
  }

  /** What an append condition with this query checks: with no items and not `all`, nothing. */
  predicate ConditionMatches(q: Query, e: Event) {
    q.all || exists item :: item in q.items && ItemMatches(item, e)
  }

  predicate IsEmpty(q: Query) {
    q.items == [] && !q.all
  }

  /** A query as `Query.of` and `Query.all` build it. */
  predicate WellBuilt(q: Query) {
    q.all ==> q.items == []
  }

  function ItemsOf(qs: seq<Query>): seq<QueryItem> {
    if qs == [] then [] else qs[0].items + ItemsOf(qs[1..])
  }

  function Union(qs: seq<Query>): Query {
    if exists q :: q in qs && q.all then Query([], true) else Query(ItemsOf(qs), false)
  }

  lemma {:induction false} ItemsOfMember(qs: seq<Query>, item: QueryItem)
    ensures item in ItemsOf(qs) <==> exists q :: q in qs && item in q.items
  {
    if qs != [] {
      ItemsOfMember(qs[1..], item);
      if item in ItemsOf(qs[1..]) {
        var q :| q in qs[1..] && item in q.items;
        assert q in qs;
      }
      if item in qs[0].items {
        assert qs[0] in qs;
      }
      if exists q :: q in qs && item in q.items {
        var q :| q in qs && item in q.items;
        assert q == qs[0] || q in qs[1..];
      }
    }
  }

  /** A condition over several queries refuses exactly what one of them would refuse. */
  lemma UnionMatches(qs: seq<Query>, e: Event)
    ensures ConditionMatches(Union(qs), e) <==> exists q :: q in qs && ConditionMatches(q, e)
    ensures WellBuilt(Union(qs))
  {
    var u := Union(qs);
    if exists q :: q in qs && q.all {
      var q :| q in qs && q.all;
      assert ConditionMatches(q, e);
    } else {
      if ConditionMatches(u, e) {
        var item :| item in u.items && ItemMatches(item, e);
        ItemsOfMember(qs, item);
        var q :| q in qs && item in q.items;
        assert ConditionMatches(q, e);
      }
      if exists q :: q in qs && ConditionMatches(q, e) {
        var q :| q in qs && ConditionMatches(q, e);
        var item :| item in q.items && ItemMatches(item, e);
        ItemsOfMember(qs, item);
        assert item in u.items;
      }
    }
  }

  /** A query reads and conditions on the same events exactly when it is not the empty one: with no items a read
      returns everything and a condition checks nothing. */
  lemma ReadAndConditionAgree(q: Query)
    requires WellBuilt(q)
    ensures !IsEmpty(q) <==> forall e :: QueryMatches(q, e) == ConditionMatches(q, e)
  {
    if IsEmpty(q) {
      var e := Event("", [], "");
      assert QueryMatches(q, e) && !ConditionMatches(q, e);
    }
  }
}
