/** The advisory locks one append takes before it checks its condition: crablet_writer_lock_keys in
    packages/db-migrations/sql/V2__crablet_append.sql. */
module WriterLocks {
  import opened Events

  datatype Key = Leaf(etype: string, tag: Tag) | TypeKey(etype: string) | Global

  datatype Lock<K> = Lock(key: K, exclusive: bool)

  /** Two locks that two transactions cannot hold at the same time. */
  predicate Excludes<K(==)>(a: Lock<K>, b: Lock<K>) {
    a.key == b.key && (a.exclusive || b.exclusive)
  }

  /** What the append of `e` takes for `e` itself. */
  function EventLocks(e: Event): set<Lock<Key>> {
    (set t | t in e.tags :: Lock(Leaf(e.etype, t), true)) + {Lock(TypeKey(e.etype), false), Lock(Global, false)}
  }

  /** What an append takes for one item of its condition. */
  function ItemLocks(item: QueryItem): set<Lock<Key>> {
    if item.types == [] then {Lock(Global, true)}
    else if item.tags == [] then set y | y in item.types :: Lock(TypeKey(y), true)
    else set y, t | y in item.types && t in item.tags :: Lock(Leaf(y, t), true)
  }

  /** A condition's items as they are sent: `all` is one item with neither types nor tags (internal/sql.ts). */
  function SentItems(q: Query): seq<QueryItem> {
    if q.all then [QueryItem([], [])] else q.items
  }

  function QueryLocks(q: Query): set<Lock<Key>> {
    set item, l | item in SentItems(q) && l in ItemLocks(item) :: l
  }

  function EventsLocks(es: seq<Event>): set<Lock<Key>> {
    set e, l | e in es && l in EventLocks(e) :: l
  }

  /** An event an item matches is never appended while the item is being relied on: each side takes a lock the
      other cannot hold together with it. */
  lemma MatchIsExcluded(e: Event, item: QueryItem)
    requires ItemMatches(item, e)
    ensures exists a, b :: a in EventLocks(e) && b in ItemLocks(item) && Excludes(a, b)
  {
    if item.types == [] {
      assert Lock(Global, false) in EventLocks(e) && Lock(Global, true) in ItemLocks(item)
             && Excludes(Lock(Global, false), Lock(Global, true));
    } else if item.tags == [] {
      var y := e.etype;
      assert Lock(TypeKey(y), false) in EventLocks(e) && Lock(TypeKey(y), true) in ItemLocks(item)
             && Excludes(Lock(TypeKey(y), false), Lock(TypeKey(y), true));
    } else {
      var t := item.tags[0];
      assert t in item.tags;
      var l := Lock(Leaf(e.etype, t), true);
      assert l in EventLocks(e) && l in ItemLocks(item) && Excludes(l, l);
    }
  }

  /** And only such events queue behind it: an event and an item meet exactly when the item asks for any type, or for the
      event's type and no tag, or for one of its tags. */
  lemma LocksMeetExactly(e: Event, item: QueryItem)
    ensures (exists a, b :: a in EventLocks(e) && b in ItemLocks(item) && Excludes(a, b))
            <==> item.types == [] || (e.etype in item.types && (item.tags == [] || exists t :: t in item.tags && t in e.tags))
  {
    if a, b :| a in EventLocks(e) && b in ItemLocks(item) && Excludes(a, b) {
      assert item.types != [] && item.tags != [] ==> b.key.Leaf? && b.key.tag in item.tags && b.key.tag in e.tags;
    }
    if item.types == [] {
      assert Excludes(Lock(Global, false), Lock(Global, true)) && Lock(Global, true) in ItemLocks(item);
    } else if item.tags == [] && e.etype in item.types {
      assert Lock(TypeKey(e.etype), true) in ItemLocks(item) && Excludes(Lock(TypeKey(e.etype), false), Lock(TypeKey(e.etype), true));
    } else if t :| t in item.tags && t in e.tags && e.etype in item.types {
      var l := Lock(Leaf(e.etype, t), true);
      assert l in EventLocks(e) && l in ItemLocks(item) && Excludes(l, l);
    }
  }

  /** Two events queue for each other exactly when they are of one type and share a tag. */
  lemma EventsMeetExactly(e: Event, f: Event)
    ensures (exists a, b :: a in EventLocks(e) && b in EventLocks(f) && Excludes(a, b)) <==> e.etype == f.etype && exists t :: t in e.tags && t in f.tags
  {
    if t :| t in e.tags && t in f.tags && e.etype == f.etype {
      var l := Lock(Leaf(e.etype, t), true);
      assert l in EventLocks(e) && l in EventLocks(f) && Excludes(l, l);
    }
  }

  /** The same for a whole condition. */
  lemma ConditionIsExcluded(e: Event, q: Query)
    requires ConditionMatches(q, e)
    ensures exists a, b :: a in EventLocks(e) && b in QueryLocks(q) && Excludes(a, b)
  {
    var item: QueryItem;
    if q.all {
      item := QueryItem([], []);
    } else {
      item :| item in q.items && ItemMatches(item, e);
    }
    assert item in SentItems(q);
    MatchIsExcluded(e, item);
    var a, b :| a in EventLocks(e) && b in ItemLocks(item) && Excludes(a, b);
    assert b in QueryLocks(q);
  }

  /** The database locks hashes of the keys, one row per hash, exclusive if any use is. Whatever the hash, even with
      collisions, the two sides still exclude each other. */
  lemma HashingKeepsExclusion(e: Event, q: Query, hash: Key -> int, write: set<Lock<int>>, check: set<Lock<int>>)
    requires ConditionMatches(q, e)
    requires forall l :: l in EventLocks(e) ==> exists x :: x in write && x.key == hash(l.key) && (l.exclusive ==> x.exclusive)
    requires forall l :: l in QueryLocks(q) ==> exists x :: x in check && x.key == hash(l.key) && (l.exclusive ==> x.exclusive)
    ensures exists a, b :: a in write && b in check && Excludes(a, b)
  {
    ConditionIsExcluded(e, q);
    var a, b :| a in EventLocks(e) && b in QueryLocks(q) && Excludes(a, b);
    var x :| x in write && x.key == hash(a.key) && (a.exclusive ==> x.exclusive);
    var y :| y in check && y.key == hash(b.key) && (b.exclusive ==> y.exclusive);
    assert Excludes(x, y);
  }

  /** An append in its locking loop: its keys in increasing order, each once, of which it holds the first `taken`. */
  datatype Taking = Taking(keys: seq<int>, taken: nat)

  predicate InOrder(a: Taking) {
    a.taken <= |a.keys| && forall i, j :: 0 <= i < j < |a.keys| ==> a.keys[i] < a.keys[j]
  }

  /** The key it asks for next is one the other holds. */
  predicate WaitsFor(a: Taking, b: Taking)
    requires InOrder(a) && InOrder(b)
  {
    a.taken < |a.keys| && a.keys[a.taken] in b.keys[..b.taken]
  }

  /** Commands cannot deadlock each other: of any that are taking their locks, one waits for none of the others. */
  lemma {:induction false} OneProceeds(all: seq<Taking>) returns (i: nat)
    requires all != [] && forall a :: a in all ==> InOrder(a)
    ensures i < |all| && forall j :: 0 <= j < |all| && j != i ==> !WaitsFor(all[i], all[j])
    ensures all[i].taken < |all[i].keys| ==>
              forall j :: 0 <= j < |all| ==> all[j].taken < |all[j].keys| && all[j].keys[all[j].taken] <= all[i].keys[all[i].taken]
  {
    var last := all[|all| - 1];
    assert last in all;
    if |all| == 1 {
      return 0;
    }
    var front := all[..|all| - 1];
    assert forall a :: a in front ==> a in all;
    i := OneProceeds(front);
    if last.taken == |last.keys| || (all[i].taken < |all[i].keys| && all[i].keys[all[i].taken] < last.keys[last.taken]) {
      i := |all| - 1;
    }
    forall j | 0 <= j < |all| && j != i ensures !WaitsFor(all[i], all[j]) {
      assert all[j] in all;
      assert j < |front| ==> front[j] == all[j];
    }
  }
}
