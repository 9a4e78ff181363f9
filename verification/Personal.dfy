/** Personal data: what the event log may show of a value, by the marks in its schema
    (packages/commands/src/Personal.ts:81-169). */
module Personal {
  import opened Options

  datatype Schema = Schema(marked: bool, kind: Kind)

  datatype Kind =
    | Scalar
    | Objects(properties: seq<Property>, indexes: seq<Schema>)
    | Arrays(elements: seq<Schema>, rest: seq<Schema>)
    | Union(types: seq<Schema>)
    | Other

  datatype Property = Property(name: string, schema: Schema)

  datatype Value = Undefined | Null | Text(text: string) | Number(number: int) | Boolean(truth: bool) | Items(items: seq<Value>) | Record(fields: map<string, Value>)

  const REDACTED := "[redacted]"

  predicate IsNothing(v: Value) {
    v.Undefined? || v.Null?
  }

  /** Among the first `n` properties the last of a name, as a later one overwrites an earlier. */
  function PropertyAt(properties: seq<Property>, n: nat, name: string): (i: Option<nat>)
    requires n <= |properties|
    ensures i.Some? ==> i.value < n && properties[i.value].name == name
    ensures i.None? ==> forall h :: 0 <= h < n ==> properties[h].name != name
  {
    if n == 0 then None
    else if properties[n - 1].name == name then Some(n - 1)
    else PropertyAt(properties, n - 1, name)
  }

  datatype Step = Key(name: string) | Item(n: nat)

  /** What a schema says about the value a step below: the first index signature or rest type stands for the keys and items
      it does not list. */
  function Under(s: Schema, step: Step): (t: Option<Schema>)
    ensures t.Some? ==> t.value < s
  {
    match s.kind
    case Objects(properties, indexes) =>
      if step.Item? then None
      else
        var i := PropertyAt(properties, |properties|, step.name);
        if i.Some? then Some(properties[i.value].schema) else if indexes != [] then Some(indexes[0]) else None
    case Arrays(elements, rest) =>
      if step.Key? then None
      else if step.n < |elements| then Some(elements[step.n])
      else if rest != [] then Some(rest[0]) else None
    case _ => None
  }

  // ---- redact ----

  function Redacted(s: Schema, v: Value, replacement: string): Value
    decreases s, 1, 0
  {
    if IsNothing(v) then v
    else if s.marked then Text(replacement)
    else
      match s.kind
      case Objects(_, _) =>
        if !v.Record? then v
        else Record(map k | k in v.fields :: if Under(s, Key(k)).Some? then Redacted(Under(s, Key(k)).value, v.fields[k], replacement) else v.fields[k])
      case Arrays(_, _) =>
        if !v.Items? then v
        else Items(seq(|v.items|, n requires 0 <= n < |v.items| =>
          if Under(s, Item(n)).Some? then Redacted(Under(s, Item(n)).value, v.items[n], replacement) else v.items[n]))
      case Union(_) => FirstChanged(s, 0, v, replacement)
      case _ => v
  }

  /** The first member of a union that changes the value. */
  function FirstChanged(s: Schema, i: nat, v: Value, replacement: string): Value
    requires s.kind.Union? && i <= |s.kind.types|
    decreases s, 0, |s.kind.types| - i
  {
    if i == |s.kind.types| then v
    else
      var next := Redacted(s.kind.types[i], v, replacement);
      if next != v then next else FirstChanged(s, i + 1, v, replacement)
  }

  // ---- exposed ----

  predicate CanHold(s: Schema, v: Value) {
    match s.kind
    case Objects(_, _) => v.Record?
    case Arrays(_, _) => v.Items?
    case Scalar => false
    case _ => true
  }

  /** How many keys `Object.keys` lists. */
  function Size(v: Value): nat {
    match v
    case Record(fields) => |fields|
    case Items(items) => |items|
    case Text(text) => |text|
    case _ => 0
  }

  function Kept(s: Schema, v: Value): Value
    decreases s, 1, 0
  {
    if IsNothing(v) then v
    else
      match s.kind
      case Objects(_, _) =>
        if !v.Record? then v
        else Record(map k | k in v.fields && Under(s, Key(k)).Some? :: Kept(Under(s, Key(k)).value, v.fields[k]))
      case Arrays(_, _) =>
        if !v.Items? then v
        else Items(seq(|v.items|, n requires 0 <= n < |v.items| =>
          if Under(s, Item(n)).Some? then Kept(Under(s, Item(n)).value, v.items[n]) else v.items[n]))
      case Union(_) => var best := Best(s, |s.kind.types|, v); if best.Some? then best.value else v
      case _ => v
  }

  /** Of the first `i` members of a union that can hold the value, the one that keeps the most keys, the first on a tie. */
  function Best(s: Schema, i: nat, v: Value): Option<Value>
    requires s.kind.Union? && i <= |s.kind.types|
    decreases s, 0, i
  {
    if i == 0 then None
    else
      var best := Best(s, i - 1, v);
      if !CanHold(s.kind.types[i - 1], v) then best
      else
        var next := Kept(s.kind.types[i - 1], v);
        if best.None? || Size(next) > Size(best.value) then Some(next) else best
  }

  function Exposed(s: Schema, v: Value): Value {
    Kept(s, Redacted(s, v, REDACTED))
  }

  // ---- The loops ----

  predicate NamesAreDistinct(s: Schema) {
    match s.kind
    case Objects(properties, indexes) =>
      && (forall i, j :: 0 <= i < j < |properties| ==> properties[i].name != properties[j].name)
      && (forall p :: p in properties ==> NamesAreDistinct(p.schema)) && forall t :: t in indexes ==> NamesAreDistinct(t)
    case Arrays(elements, rest) => (forall t :: t in elements ==> NamesAreDistinct(t)) && forall t :: t in rest ==> NamesAreDistinct(t)
    case Union(types) => forall t :: t in types ==> NamesAreDistinct(t)
    case _ => true
  }

  /** A copy on write. */
  method Redact(s: Schema, v: Value, replacement: string) returns (out: Value)
    requires NamesAreDistinct(s)
    ensures out == Redacted(s, v, replacement)
    decreases s, 1
  {
    if IsNothing(v) { return v; }
    if s.marked { return Text(replacement); }
    match s.kind {
      case Objects(_, _) =>
        if !v.Record? { return v; }
        var fields := RedactProperties(s, v, replacement);
        fields := RedactOthers(s, v, replacement, fields);
        assert fields == Redacted(s, v, replacement).fields;
        out := Record(fields);
      case Arrays(_, _) =>
        if !v.Items? { return v; }
        var items := RedactItems(s, v, replacement);
        assert items == Redacted(s, v, replacement).items;
        out := Items(items);
      case Union(types) =>
        for i := 0 to |types|
          invariant FirstChanged(s, 0, v, replacement) == FirstChanged(s, i, v, replacement)
        {
          var next := Redact(types[i], v, replacement);
          if next != v { return next; }
        }
        out := v;
      case _ => out := v;
    }
  }

  /** Every property the value has. */
  method RedactProperties(s: Schema, v: Value, replacement: string) returns (fields: map<string, Value>)
    requires NamesAreDistinct(s) && s.kind.Objects? && v.Record?
    ensures fields.Keys == v.fields.Keys
    ensures forall k :: k in fields ==>
              var at := PropertyAt(s.kind.properties, |s.kind.properties|, k);
              fields[k] == if at.Some? then Redacted(s.kind.properties[at.value].schema, v.fields[k], replacement) else v.fields[k]
    decreases s, 0
  {
    var properties := s.kind.properties;
    fields := v.fields;
    for i := 0 to |properties|
      invariant fields.Keys == v.fields.Keys
      invariant forall k :: k in fields ==>
                  var at := PropertyAt(properties, i, k);
                  fields[k] == if at.Some? then Redacted(properties[at.value].schema, v.fields[k], replacement) else v.fields[k]
    {
      var p := properties[i];
      if p.name in v.fields {
        var next := Redact(p.schema, v.fields[p.name], replacement);
        if next != v.fields[p.name] { fields := fields[p.name := next]; }
      }
    }
  }

  /** Every other key, under the index signature if there is one. */
  method RedactOthers(s: Schema, v: Value, replacement: string, known: map<string, Value>) returns (fields: map<string, Value>)
    requires NamesAreDistinct(s) && s.kind.Objects? && v.Record? && known.Keys == v.fields.Keys
    requires forall k :: k in known && PropertyAt(s.kind.properties, |s.kind.properties|, k).None? ==> known[k] == v.fields[k]
    ensures fields.Keys == v.fields.Keys
    ensures forall k :: k in fields ==>
              fields[k] == if PropertyAt(s.kind.properties, |s.kind.properties|, k).Some? then known[k]
                           else if s.kind.indexes != [] then Redacted(s.kind.indexes[0], v.fields[k], replacement) else v.fields[k]
    decreases s, 0
  {
    fields := known;
    if s.kind.indexes != [] {
      var index := s.kind.indexes[0];
      var todo := v.fields.Keys;
      while todo != {}
        invariant todo <= v.fields.Keys && fields.Keys == v.fields.Keys
        invariant forall k :: k in fields ==>
                    fields[k] == if k in todo || PropertyAt(s.kind.properties, |s.kind.properties|, k).Some? then known[k] else Redacted(index, v.fields[k], replacement)
        decreases |todo|
      {
        assert (forall k :: k !in todo) ==> todo == {};
        var k :| k in todo;
        if PropertyAt(s.kind.properties, |s.kind.properties|, k).None? {
          var next := Redact(index, v.fields[k], replacement);
          if next != v.fields[k] { fields := fields[k := next]; }
        }
        todo := todo - {k};
      }
    }
  }

  method RedactItems(s: Schema, v: Value, replacement: string) returns (items: seq<Value>)
    requires NamesAreDistinct(s) && s.kind.Arrays? && v.Items?
    ensures |items| == |v.items|
    ensures forall n: nat :: n < |items| ==>
              items[n] == if Under(s, Item(n)).Some? then Redacted(Under(s, Item(n)).value, v.items[n], replacement) else v.items[n]
    decreases s, 0
  {
    items := [];
    for n := 0 to |v.items|
      invariant |items| == n
      invariant forall h: nat :: h < n ==>
                  items[h] == if Under(s, Item(h)).Some? then Redacted(Under(s, Item(h)).value, v.items[h], replacement) else v.items[h]
    {
      var item := v.items[n];
      if n < |s.kind.elements| {
        item := Redact(s.kind.elements[n], item, replacement);
      } else if s.kind.rest != [] {
        item := Redact(s.kind.rest[0], item, replacement);
      }
      items := items + [item];
    }
  }

  /** A new value with the keys the schema covers. */
  method Keep(s: Schema, v: Value) returns (out: Value)
    requires NamesAreDistinct(s)
    ensures out == Kept(s, v)
    decreases s, 2
  {
    if IsNothing(v) { return v; }
    match s.kind {
      case Objects(_, _) =>
        if !v.Record? { return v; }
        out := KeepRecord(s, v);
      case Arrays(_, _) =>
        if !v.Items? { return v; }
        var items := KeepItems(s, v);
        assert items == Kept(s, v).items;
        out := Items(items);
      case Union(types) =>
        var best := KeepBest(s, v);
        out := if best.Some? then best.value else v;
      case _ => out := v;
    }
  }

  method KeepBest(s: Schema, v: Value) returns (best: Option<Value>)
    requires NamesAreDistinct(s) && s.kind.Union?
    ensures best == Best(s, |s.kind.types|, v)
    decreases s, 0
  {
    best := None;
    for i := 0 to |s.kind.types|
      invariant best == Best(s, i, v)
    {
      if CanHold(s.kind.types[i], v) {
        var next := Keep(s.kind.types[i], v);
        if best.None? || Size(next) > Size(best.value) { best := Some(next); }
      }
    }
  }

  method KeepRecord(s: Schema, v: Value) returns (out: Value)
    requires NamesAreDistinct(s) && s.kind.Objects? && v.Record?
    ensures out == Kept(s, v)
    decreases s, 1
  {
    var fields := KeepProperties(s, v);
    fields := KeepOthers(s, v, fields);
    assert fields == Kept(s, v).fields;
    out := Record(fields);
  }

  method KeepProperties(s: Schema, v: Value) returns (fields: map<string, Value>)
    requires NamesAreDistinct(s) && s.kind.Objects? && v.Record?
    ensures forall k :: k in fields <==> k in v.fields && PropertyAt(s.kind.properties, |s.kind.properties|, k).Some?
    ensures forall k :: k in fields ==> fields[k] == Kept(s.kind.properties[PropertyAt(s.kind.properties, |s.kind.properties|, k).value].schema, v.fields[k])
    decreases s, 0
  {
    var properties := s.kind.properties;
    fields := map[];
    for i := 0 to |properties|
      invariant forall k :: k in fields <==> k in v.fields && PropertyAt(properties, i, k).Some?
      invariant forall k :: k in fields ==> fields[k] == Kept(properties[PropertyAt(properties, i, k).value].schema, v.fields[k])
    {
      var p := properties[i];
      if p.name in v.fields {
        var kept := Keep(p.schema, v.fields[p.name]);
        fields := fields[p.name := kept];
      }
    }
  }

  method KeepOthers(s: Schema, v: Value, known: map<string, Value>) returns (fields: map<string, Value>)
    requires NamesAreDistinct(s) && s.kind.Objects? && v.Record?
    requires forall k :: k in known <==> k in v.fields && PropertyAt(s.kind.properties, |s.kind.properties|, k).Some?
    ensures forall k :: k in fields <==> k in v.fields && (k in known || s.kind.indexes != [])
    ensures forall k :: k in fields ==> fields[k] == if k in known then known[k] else Kept(s.kind.indexes[0], v.fields[k])
    decreases s, 0
  {
    fields := known;
    if s.kind.indexes != [] {
      var index := s.kind.indexes[0];
      var todo := v.fields.Keys;
      while todo != {}
        invariant todo <= v.fields.Keys
        invariant forall k :: k in fields <==> k in v.fields && (k in known || k !in todo)
        invariant forall k :: k in fields ==> fields[k] == if k in known then known[k] else Kept(index, v.fields[k])
        decreases |todo|
      {
        assert (forall k :: k !in todo) ==> todo == {};
        var k :| k in todo;
        if k !in fields {
          var kept := Keep(index, v.fields[k]);
          fields := fields[k := kept];
        }
        todo := todo - {k};
      }
    }
  }

  method KeepItems(s: Schema, v: Value) returns (items: seq<Value>)
    requires NamesAreDistinct(s) && s.kind.Arrays? && v.Items?
    ensures |items| == |v.items|
    ensures forall n: nat :: n < |items| ==> items[n] == if Under(s, Item(n)).Some? then Kept(Under(s, Item(n)).value, v.items[n]) else v.items[n]
    decreases s, 0
  {
    items := [];
    for n := 0 to |v.items|
      invariant |items| == n
      invariant forall h: nat :: h < n ==> items[h] == if Under(s, Item(h)).Some? then Kept(Under(s, Item(h)).value, v.items[h]) else v.items[h]
    {
      var item := v.items[n];
      if n < |s.kind.elements| {
        item := Keep(s.kind.elements[n], item);
      } else if s.kind.rest != [] {
        item := Keep(s.kind.rest[0], item);
      }
      items := items + [item];
    }
  }

  /** `exposed`: redacted, then kept. */
  method Expose(s: Schema, v: Value) returns (out: Value)
    requires NamesAreDistinct(s)
    ensures out == Exposed(s, v)
  {
    out := Redact(s, v, REDACTED);
    out := Keep(s, out);
  }

  // ---- Paths ----

  function Child(v: Value, step: Step): (c: Option<Value>)
    ensures c.Some? ==> !IsNothing(v)
  {
    match step
    case Key(k) => if v.Record? && k in v.fields then Some(v.fields[k]) else None
    case Item(n) => if v.Items? && n < |v.items| then Some(v.items[n]) else None
  }

  function ValueAt(v: Value, path: seq<Step>): Option<Value> {
    if path == [] then Some(v)
    else
      var child := Child(v, path[0]);
      if child.None? then None else ValueAt(child.value, path[1..])
  }

  lemma StepDown(step: Step, rest: seq<Step>)
    ensures var path := [step] + rest; path[0] == step && path[1..] == rest
  {
  }

  /** Nothing personal shows: there is nothing, or the mark's text. */
  predicate IsHidden(v: Value) {
    IsNothing(v) || v == Text(REDACTED)
  }

  /** The same record keys, the same number of items, or the same scalar. */
  predicate SameTop(v: Value, w: Value) {
    match v
    case Record(fields) => w.Record? && w.fields.Keys == fields.Keys
    case Items(items) => w.Items? && |w.items| == |items|
    case _ => w == v
  }

  /** The same, with fewer record keys. */
  predicate Within(v: Value, w: Value) {
    if v.Record? then w.Record? && v.fields.Keys <= w.fields.Keys else SameTop(v, w)
  }

  // ---- What a schema does to a value, place by place ----

  /** The first member of a union that changes the value, from the `i`th on. */
  function ChangedBy(s: Schema, i: nat, v: Value): (m: Option<nat>)
    requires s.kind.Union? && i <= |s.kind.types|
    ensures m.Some? ==> i <= m.value < |s.kind.types| && Redacted(s.kind.types[m.value], v, REDACTED) != v
    ensures m.None? ==> forall h :: i <= h < |s.kind.types| ==> Redacted(s.kind.types[h], v, REDACTED) == v
    ensures FirstChanged(s, i, v, REDACTED) == if m.Some? then Redacted(s.kind.types[m.value], v, REDACTED) else v
    decreases |s.kind.types| - i
  {
    if i == |s.kind.types| then None
    else if Redacted(s.kind.types[i], v, REDACTED) != v then Some(i)
    else ChangedBy(s, i + 1, v)
  }

  /** The member of a union that `exposed` shows the value by, among the first `n`. */
  function ShownBy(s: Schema, n: nat, v: Value): (j: Option<nat>)
    requires s.kind.Union? && n <= |s.kind.types|
    ensures j.Some? ==> j.value < n && CanHold(s.kind.types[j.value], v)
    ensures Best(s, n, v) == if j.Some? then Some(Kept(s.kind.types[j.value], v)) else None
    decreases n
  {
    if n == 0 then None
    else
      var j := ShownBy(s, n - 1, v);
      if CanHold(s.kind.types[n - 1], v) && (j.None? || Size(Kept(s.kind.types[n - 1], v)) > Size(Kept(s.kind.types[j.value], v)))
      then Some(n - 1) else j
  }

  /** A mark the schema can reach at exactly this path, by some choice of union members. */
  predicate SomeMark(s: Schema, path: seq<Step>)
    decreases s
  {
    if s.marked then path == []
    else if s.kind.Union? then exists t :: t in s.kind.types && SomeMark(t, path)
    else path != [] && Under(s, path[0]).Some? && SomeMark(Under(s, path[0]).value, path[1..])
  }

  /** The mark of the members that change the value which the path is at, or so many steps below. */
  function RedactsFrom(s: Schema, v: Value, path: seq<Step>): (below: Option<nat>)
    ensures below.Some? ==> below.value <= |path|
    decreases s
  {
    if s.marked then Some(|path|)
    else if s.kind.Union? then
      var i := ChangedBy(s, 0, v);
      if i.Some? then RedactsFrom(s.kind.types[i.value], v, path) else None
    else if path != [] && Child(v, path[0]).Some? && Under(s, path[0]).Some? then
      RedactsFrom(Under(s, path[0]).value, Child(v, path[0]).value, path[1..])
    else None
  }

  /** The members that show the value do not drop what the path leads to. */
  predicate ShowsAt(s: Schema, v: Value, path: seq<Step>)
    decreases s
  {
    path == [] || Child(v, path[0]).None? ||
    match s.kind
    case Objects(_, _) => v.Record? ==> Under(s, path[0]).Some? && ShowsAt(Under(s, path[0]).value, Child(v, path[0]).value, path[1..])
    case Arrays(_, _) => v.Items? && Under(s, path[0]).Some? ==> ShowsAt(Under(s, path[0]).value, Child(v, path[0]).value, path[1..])
    case Union(types) => var j := ShownBy(s, |types|, v); j.Some? ==> ShowsAt(types[j.value], v, path)
    case _ => true
  }

  /** A mark of the members that show the value, at exactly this path. */
  predicate ShownMark(s: Schema, v: Value, path: seq<Step>)
    decreases s
  {
    if s.marked then path == []
    else if s.kind.Union? then
      var j := ShownBy(s, |s.kind.types|, v);
      j.Some? && ShownMark(s.kind.types[j.value], v, path)
    else
      path != [] && Child(v, path[0]).Some? && Under(s, path[0]).Some?
      && ShownMark(Under(s, path[0]).value, Child(v, path[0]).value, path[1..])
  }

  /** A named property's schema is its own; another key's, or an item's past the listed ones, is the first index signature or
      rest type; and nothing else is covered. */
  lemma CoversExactly(s: Schema, k: string, n: nat)
    requires NamesAreDistinct(s)
    ensures s.kind.Objects? ==>
              && (forall p :: p in s.kind.properties && p.name == k ==> Under(s, Key(k)) == Some(p.schema))
              && ((forall p :: p in s.kind.properties ==> p.name != k) ==> Under(s, Key(k)) == if s.kind.indexes == [] then None else Some(s.kind.indexes[0]))
    ensures s.kind.Arrays? ==>
              Under(s, Item(n)) == if n < |s.kind.elements| then Some(s.kind.elements[n]) else if s.kind.rest == [] then None else Some(s.kind.rest[0])
    ensures !s.kind.Objects? ==> Under(s, Key(k)) == None
    ensures !s.kind.Arrays? ==> Under(s, Item(n)) == None
  {
    if s.kind.Objects? {
      var at := PropertyAt(s.kind.properties, |s.kind.properties|, k);
      if p :| p in s.kind.properties && p.name == k {
        var i :| 0 <= i < |s.kind.properties| && s.kind.properties[i] == p;
        assert at.Some?;
      }
    }
  }

  /** A record is shown by an object of the union, or by a schema of no shape, and of those by the first that keeps the most of
      its keys; a scalar member never shows it. */
  lemma RecordsAreShownByTheMostKeys(s: Schema, v: Value)
    requires s.kind.Union? && v.Record?
    ensures var j := ShownBy(s, |s.kind.types|, v);
            && (j.None? <==> forall t :: t in s.kind.types ==> t.kind.Scalar? || t.kind.Arrays?)
            && (j.Some? ==>
                  && !s.kind.types[j.value].kind.Scalar? && !s.kind.types[j.value].kind.Arrays?
                  && forall i: nat :: i < |s.kind.types| && !s.kind.types[i].kind.Scalar? && !s.kind.types[i].kind.Arrays? ==>
                       var kept, best := Kept(s.kind.types[i], v), Kept(s.kind.types[j.value], v);
                       kept.Record? && best.Record? && |kept.fields| <= |best.fields| && (i < j.value ==> |kept.fields| < |best.fields|))
  {
    var types := s.kind.types;
    var j := ShownBy(s, |types|, v);
    forall i: nat | i < |types| && CanHold(types[i], v)
      ensures j.Some? && Kept(types[i], v).Record?
      ensures Size(Kept(types[i], v)) <= Size(Kept(types[j.value], v)) && (i < j.value ==> Size(Kept(types[i], v)) < Size(Kept(types[j.value], v)))
    {
      BestIsLargest(s, |types|, v, i);
      KeptIsWithin(types[i], v);
    }
    if t :| t in types && !t.kind.Scalar? && !t.kind.Arrays? {
      var i :| 0 <= i < |types| && types[i] == t;
      assert CanHold(types[i], v);
    }
  }

  /** So `NullOr` of an object shows what the object shows. */
  lemma NullableShowsItsMember(t: Schema, v: Value)
    requires t.kind.Objects? && v.Record?
    ensures Exposed(Schema(false, Union([Schema(false, Scalar), t])), v) == Exposed(t, v)
  {
    var nothing := Schema(false, Scalar);
    var s := Schema(false, Union([nothing, t]));
    assert FirstChanged(s, 2, v, REDACTED) == v;
    assert FirstChanged(s, 1, v, REDACTED) == Redacted(t, v, REDACTED);
    assert FirstChanged(s, 0, v, REDACTED) == Redacted(t, v, REDACTED);
    var redacted := Redacted(t, v, REDACTED);
    KeptIsWithin(t, redacted);
    assert Best(s, 0, redacted) == None && Best(s, 1, redacted) == None;
    if redacted.Record? {
      assert Best(s, 2, redacted) == Some(Kept(t, redacted));
    } else {
      assert Best(s, 2, redacted) == None;
    }
  }

  // ---- Redaction, place by place ----

  /** Above the path's end, the same keys and items. */
  predicate SameAbove(v: Value, w: Value, path: seq<Step>)
    decreases |path|
  {
    path == [] || Child(v, path[0]).None? ||
    (SameTop(v, w) && SameAbove(Child(v, path[0]).value, Child(w, path[0]).value, path[1..]))
  }

  lemma RedactedStep(s: Schema, v: Value, step: Step)
    requires !s.marked && !s.kind.Union? && Child(v, step).Some?
    ensures var redacted := Redacted(s, v, REDACTED);
            && SameTop(v, redacted)
            && Child(redacted, step) == Some(if Under(s, step).Some? then Redacted(Under(s, step).value, Child(v, step).value, REDACTED) else Child(v, step).value)
  {
  }

  /** Below a mark there is nothing, at it "[redacted]"; everything else has the keys and items it had. */
  ghost predicate IsRedactedAt(v: Value, redacted: Value, path: seq<Step>, from: Option<nat>)
    requires ValueAt(v, path).Some?
  {
    var was, now := ValueAt(v, path).value, ValueAt(redacted, path);
    match from
    case Some(below) =>
      if below > 0 then now.None?
      else SameAbove(v, redacted, path) && now == Some(if IsNothing(was) then was else Text(REDACTED))
    case None => SameAbove(v, redacted, path) && now.Some? && SameTop(was, now.value)
  }

  lemma {:induction false} RedactedAt(s: Schema, v: Value, path: seq<Step>)
    requires ValueAt(v, path).Some?
    ensures IsRedactedAt(v, Redacted(s, v, REDACTED), path, RedactsFrom(s, v, path))
    decreases s
  {
    if s.marked {
      MarkedAt(s, v, path);
    } else if s.kind.Union? {
      var i := ChangedBy(s, 0, v);
      if i.Some? {
        RedactedAt(s.kind.types[i.value], v, path);
        assert Redacted(s, v, REDACTED) == Redacted(s.kind.types[i.value], v, REDACTED);
      } else {
        SameAsItself(v, path);
      }
    } else if path != [] {
      var child, rest := Child(v, path[0]).value, path[1..];
      RedactedStep(s, v, path[0]);
      if Under(s, path[0]).Some? {
        RedactedAt(Under(s, path[0]).value, child, rest);
        OneStepUp(v, Redacted(s, v, REDACTED), path, RedactsFrom(s, v, path));
      } else {
        SameAsItself(child, rest);
      }
    }
  }

  lemma MarkedAt(s: Schema, v: Value, path: seq<Step>)
    requires s.marked && ValueAt(v, path).Some?
    ensures IsRedactedAt(v, Redacted(s, v, REDACTED), path, Some(|path|))
  {
  }

  lemma OneStepUp(v: Value, redacted: Value, path: seq<Step>, from: Option<nat>)
    requires path != [] && ValueAt(v, path).Some? && SameTop(v, redacted)
    requires IsRedactedAt(Child(v, path[0]).value, Child(redacted, path[0]).value, path[1..], from)
    ensures IsRedactedAt(v, redacted, path, from)
  {
  }

  lemma {:induction false} SameAsItself(v: Value, path: seq<Step>)
    ensures SameAbove(v, v, path)
    decreases |path|
  {
    if path != [] && Child(v, path[0]).Some? {
      SameAsItself(Child(v, path[0]).value, path[1..]);
    }
  }

  lemma {:induction false} RedactionAddsNothing(s: Schema, v: Value, path: seq<Step>)
    requires ValueAt(v, path).None?
    ensures ValueAt(Redacted(s, v, REDACTED), path).None?
    decreases s
  {
    if !s.marked && s.kind.Union? {
      var i := ChangedBy(s, 0, v);
      if i.Some? {
        RedactionAddsNothing(s.kind.types[i.value], v, path);
      }
    } else if !s.marked && Child(v, path[0]).Some? && Under(s, path[0]).Some? {
      RedactionAddsNothing(Under(s, path[0]).value, Child(v, path[0]).value, path[1..]);
    }
  }

  /** A value is left as it is exactly when whatever a mark can reach in it is hidden, for any choice of union members. */
  lemma RedactionFindsExactly(s: Schema, v: Value)
    ensures Redacted(s, v, REDACTED) == v <==> forall path :: SomeMark(s, path) && ValueAt(v, path).Some? ==> IsHidden(ValueAt(v, path).value)
  {
    if Redacted(s, v, REDACTED) == v {
      forall path | SomeMark(s, path) && ValueAt(v, path).Some? ensures IsHidden(ValueAt(v, path).value) {
        UnchangedIsHidden(s, v, path);
      }
    } else {
      var path := ChangedSomewhere(s, v);
    }
  }

  lemma {:induction false} UnchangedIsHidden(s: Schema, v: Value, path: seq<Step>)
    requires Redacted(s, v, REDACTED) == v && SomeMark(s, path) && ValueAt(v, path).Some?
    ensures IsHidden(ValueAt(v, path).value)
    decreases s
  {
    if !s.marked && s.kind.Union? {
      var t :| t in s.kind.types && SomeMark(t, path);
      assert ChangedBy(s, 0, v).None?;
      UnchangedIsHidden(t, v, path);
    } else if !s.marked {
      var child := Child(v, path[0]).value;
      assert Child(Redacted(s, v, REDACTED), path[0]) == Some(Redacted(Under(s, path[0]).value, child, REDACTED));
      UnchangedIsHidden(Under(s, path[0]).value, child, path[1..]);
    }
  }

  /** Where a changed value was changed: a mark that was reached, and showed something. */
  lemma {:induction false} ChangedSomewhere(s: Schema, v: Value) returns (path: seq<Step>)
    requires Redacted(s, v, REDACTED) != v
    ensures SomeMark(s, path) && RedactsFrom(s, v, path) == Some(0)
    ensures ValueAt(v, path).Some? && !IsHidden(ValueAt(v, path).value)
    decreases s
  {
    if s.marked {
      path := [];
    } else if s.kind.Union? {
      var i := ChangedBy(s, 0, v).value;
      path := ChangedSomewhere(s.kind.types[i], v);
      assert s.kind.types[i] in s.kind.types;
    } else {
      var step := ChangedStep(s, v);
      var rest := ChangedSomewhere(Under(s, step).value, Child(v, step).value);
      path := [step] + rest;
      StepDown(step, rest);
    }
  }

  lemma ChangedStep(s: Schema, v: Value) returns (step: Step)
    requires !s.marked && !s.kind.Union? && Redacted(s, v, REDACTED) != v
    ensures Child(v, step).Some? && Under(s, step).Some? && Redacted(Under(s, step).value, Child(v, step).value, REDACTED) != Child(v, step).value
  {
    var redacted := Redacted(s, v, REDACTED);
    if s.kind.Objects? {
      assert redacted.fields != v.fields;
      var k :| k in v.fields && redacted.fields[k] != v.fields[k];
      step := Key(k);
    } else {
      assert redacted.items != v.items;
      var n :| 0 <= n < |v.items| && redacted.items[n] != v.items[n];
      step := Item(n);
    }
  }

  // ---- Keeping, place by place ----

  lemma {:induction false} KeptIsWithin(s: Schema, v: Value)
    ensures Within(Kept(s, v), v)
    decreases s
  {
    if !IsNothing(v) && s.kind.Union? {
      var j := ShownBy(s, |s.kind.types|, v);
      if j.Some? {
        KeptIsWithin(s.kind.types[j.value], v);
      }
    }
  }

  lemma {:induction false} KeptAt(s: Schema, v: Value, path: seq<Step>)
    ensures var shown := ValueAt(Kept(s, v), path);
            if ValueAt(v, path).Some? && ShowsAt(s, v, path) then shown.Some? && Within(shown.value, ValueAt(v, path).value) else shown.None?
    decreases s
  {
    KeptIsWithin(s, v);
    if path != [] && Child(v, path[0]).Some? {
      if s.kind.Union? {
        var j := ShownBy(s, |s.kind.types|, v);
        if j.Some? {
          KeptAt(s.kind.types[j.value], v, path);
        } else {
          ItselfIsWithin(v, path);
        }
      } else if Under(s, path[0]).Some? {
        KeptAt(Under(s, path[0]).value, Child(v, path[0]).value, path[1..]);
      } else {
        ItselfIsWithin(Child(v, path[0]).value, path[1..]);
      }
    }
  }

  lemma ItselfIsWithin(v: Value, path: seq<Step>)
    ensures ValueAt(v, path).Some? ==> Within(ValueAt(v, path).value, ValueAt(v, path).value)
  {
  }

  /** How much a member keeps depends on the top of the value only. */
  lemma {:induction false} SizeOfTop(s: Schema, v: Value, w: Value)
    requires SameTop(v, w)
    ensures Size(Kept(s, v)) == Size(Kept(s, w))
    decreases s, 1, 0
  {
    if s.kind.Objects? && v.Record? {
      assert Kept(s, v).fields.Keys == Kept(s, w).fields.Keys;
      SizeIsKeys(Kept(s, v).fields, Kept(s, w).fields);
    } else if v.Record? && !s.kind.Union? {
      SizeIsKeys(v.fields, w.fields);
    } else if s.kind.Union? && !IsNothing(v) {
      ShownByTop(s, |s.kind.types|, v, w);
      var j := ShownBy(s, |s.kind.types|, v);
      if j.Some? {
        SizeOfTop(s.kind.types[j.value], v, w);
      } else if v.Record? {
        SizeIsKeys(v.fields, w.fields);
      }
    }
  }

  lemma SizeIsKeys(a: map<string, Value>, b: map<string, Value>)
    requires a.Keys == b.Keys
    ensures |a| == |b|
  {
    assert |a| == |a.Keys| && |b| == |b.Keys|;
  }

  lemma {:induction false} ShownByTop(s: Schema, n: nat, v: Value, w: Value)
    requires s.kind.Union? && n <= |s.kind.types| && SameTop(v, w)
    ensures ShownBy(s, n, v) == ShownBy(s, n, w)
    decreases s, 0, n
  {
    if n > 0 {
      ShownByTop(s, n - 1, v, w);
      SizeOfTop(s.kind.types[n - 1], v, w);
      var j := ShownBy(s, n - 1, v);
      if j.Some? {
        SizeOfTop(s.kind.types[j.value], v, w);
      }
    }
  }

  lemma {:induction false} ShowsAlike(s: Schema, v: Value, w: Value, path: seq<Step>)
    requires SameAbove(v, w, path) && ValueAt(v, path).Some?
    ensures ShowsAt(s, v, path) <==> ShowsAt(s, w, path)
    decreases s
  {
    if path != [] {
      if s.kind.Union? {
        ShownByTop(s, |s.kind.types|, v, w);
        var j := ShownBy(s, |s.kind.types|, v);
        if j.Some? {
          ShowsAlike(s.kind.types[j.value], v, w, path);
        }
      } else if Under(s, path[0]).Some? {
        ShowsAlike(Under(s, path[0]).value, Child(v, path[0]).value, Child(w, path[0]).value, path[1..]);
      }
    }
  }

  // ---- What is exposed ----

  /** At every path of any value, for any schema: nothing is there that was not; below a reached mark there is nothing, and
      at it "[redacted]" or what was nothing; anywhere else, exactly what the members that show the value cover is there, a
      scalar unchanged, a list as long, a record with no key it did not have. */
  lemma ExposedAtEveryPlace(s: Schema, v: Value, path: seq<Step>)
    ensures var was, shown := ValueAt(v, path), ValueAt(Exposed(s, v), path);
            if was.None? then shown.None?
            else
              match RedactsFrom(s, v, path)
              case Some(below) =>
                if below > 0 || !ShowsAt(s, v, path) then shown.None?
                else shown == Some(if IsNothing(was.value) then was.value else Text(REDACTED))
              case None => (shown.Some? <==> ShowsAt(s, v, path)) && (shown.Some? ==> Within(shown.value, was.value))
  {
    var redacted := Redacted(s, v, REDACTED);
    KeptAt(s, redacted, path);
    if ValueAt(v, path).None? {
      RedactionAddsNothing(s, v, path);
    } else {
      RedactedAt(s, v, path);
      if SameAbove(v, redacted, path) {
        ShowsAlike(s, v, redacted, path);
      }
    }
  }

  predicate IsHiddenAt(v: Value, path: seq<Step>) {
    var there := ValueAt(v, path);
    there.Some? ==> IsHidden(there.value)
  }

  lemma {:induction false} ShownMarksAreShown(s: Schema, v: Value, path: seq<Step>)
    requires ShownMark(s, v, path)
    ensures ShowsAt(s, v, path)
    decreases s
  {
    if !s.marked && s.kind.Union? {
      ShownMarksAreShown(s.kind.types[ShownBy(s, |s.kind.types|, v).value], v, path);
    } else if !s.marked {
      ShownMarksAreShown(Under(s, path[0]).value, Child(v, path[0]).value, path[1..]);
    }
  }

  /** What is exposed hides every mark of the members it is shown by exactly when each of them that has something to hide is
      at or below a mark of the members that first change the value. */
  lemma MarksAreHiddenExactly(s: Schema, v: Value)
    ensures (forall path :: ShownMark(s, v, path) ==> IsHiddenAt(Exposed(s, v), path))
            <==> (forall path :: ShownMark(s, v, path) && !IsHiddenAt(v, path) ==> RedactsFrom(s, v, path).Some?)
  {
    forall path | ShownMark(s, v, path)
      ensures IsHiddenAt(Exposed(s, v), path) <==> IsHiddenAt(v, path) || RedactsFrom(s, v, path).Some?
    {
      ShownMarksAreShown(s, v, path);
      ExposedAtEveryPlace(s, v, path);
    }
  }

  // ---- Exposing again ----

  lemma {:induction false} KeepsAllExactly(s: Schema, v: Value)
    ensures Kept(s, v) == v <==> forall path :: ValueAt(v, path).Some? ==> ShowsAt(s, v, path)
    decreases s
  {
    if Kept(s, v) == v {
      forall path | ValueAt(v, path).Some? ensures ShowsAt(s, v, path) {
        KeptAt(s, v, path);
      }
    } else {
      var path := DroppedSomewhere(s, v);
    }
  }

  lemma {:induction false} DroppedSomewhere(s: Schema, v: Value) returns (path: seq<Step>)
    requires Kept(s, v) != v
    ensures ValueAt(v, path).Some? && !ShowsAt(s, v, path)
    decreases s
  {
    if s.kind.Union? {
      var j := ShownBy(s, |s.kind.types|, v).value;
      path := DroppedSomewhere(s.kind.types[j], v);
    } else {
      var step := DroppedStep(s, v);
      var rest: seq<Step> := [];
      if Under(s, step).Some? {
        rest := DroppedSomewhere(Under(s, step).value, Child(v, step).value);
      }
      path := [step] + rest;
      StepDown(step, rest);
    }
  }

  lemma DroppedStep(s: Schema, v: Value) returns (step: Step)
    requires !s.kind.Union? && Kept(s, v) != v
    ensures Child(v, step).Some? && (s.kind.Objects? ==> v.Record?) && (s.kind.Arrays? ==> v.Items?) && (s.kind.Objects? || s.kind.Arrays?)
    ensures Under(s, step).Some? ==> Kept(Under(s, step).value, Child(v, step).value) != Child(v, step).value
    ensures Under(s, step).None? ==> s.kind.Objects?
  {
    var kept := Kept(s, v);
    if s.kind.Objects? {
      if k :| k in v.fields && Under(s, Key(k)).None? {
        step := Key(k);
      } else {
        assert kept.fields != v.fields;
        var k :| k in v.fields && kept.fields[k] != v.fields[k];
        step := Key(k);
      }
    } else {
      assert kept.items != v.items;
      var n :| 0 <= n < |v.items| && kept.items[n] != v.items[n];
      step := Item(n);
    }
  }

  /** Exactly the values in which everything is covered, and all that any mark can reach is hidden, are exposed as they are. */
  lemma UnchangedExactly(s: Schema, v: Value)
    ensures Exposed(s, v) == v
            <==> forall path :: ValueAt(v, path).Some? ==> ShowsAt(s, v, path) && (SomeMark(s, path) ==> IsHidden(ValueAt(v, path).value))
  {
    RedactionFindsExactly(s, v);
    KeepsAllExactly(s, v);
    if Redacted(s, v, REDACTED) != v {
      var path := ChangedSomewhere(s, v);
      ExposedAtEveryPlace(s, v, path);
    }
  }

  lemma SubsetSize<T>(a: set<T>, b: set<T>)
    requires a <= b
    ensures |a| <= |b|
  {
    assert b == a + (b - a);
  }

  lemma SizeIsWithin(v: Value, w: Value)
    requires Within(v, w)
    ensures Size(v) <= Size(w)
  {
    if v.Record? {
      assert |v.fields| == |v.fields.Keys| && |w.fields| == |w.fields.Keys|;
      SubsetSize(v.fields.Keys, w.fields.Keys);
    }
  }

  lemma {:induction false} BestIsLargest(s: Schema, n: nat, v: Value, i: nat)
    requires s.kind.Union? && i < n <= |s.kind.types| && CanHold(s.kind.types[i], v)
    ensures var j := ShownBy(s, n, v);
            && j.Some? && Size(Kept(s.kind.types[i], v)) <= Size(Kept(s.kind.types[j.value], v))
            && (i < j.value ==> Size(Kept(s.kind.types[i], v)) < Size(Kept(s.kind.types[j.value], v)))
    decreases n
  {
    if i < n - 1 {
      BestIsLargest(s, n - 1, v, i);
    }
  }

  lemma {:induction false} TheLargestIsBest(s: Schema, n: nat, v: Value, j: nat)
    requires s.kind.Union? && j < n <= |s.kind.types| && CanHold(s.kind.types[j], v)
    requires forall i :: 0 <= i < n && CanHold(s.kind.types[i], v) ==> Size(Kept(s.kind.types[i], v)) <= Size(Kept(s.kind.types[j], v))
    requires forall i :: 0 <= i < j && CanHold(s.kind.types[i], v) ==> Size(Kept(s.kind.types[i], v)) < Size(Kept(s.kind.types[j], v))
    ensures ShownBy(s, n, v) == Some(j)
    decreases n
  {
    if j < n - 1 {
      TheLargestIsBest(s, n - 1, v, j);
    }
  }

  /** Of a value with fewer keys, no schema keeps more. */
  lemma {:induction false} FewerKeysAreKept(s: Schema, v: Value, w: Value)
    requires Within(v, w)
    ensures Size(Kept(s, v)) <= Size(Kept(s, w))
    decreases s
  {
    SizeIsWithin(v, w);
    if s.kind.Objects? && v.Record? {
      SizeIsWithin(Kept(s, v), Kept(s, w));
    } else if s.kind.Union? && !IsNothing(v) {
      var types := s.kind.types;
      var i, j := ShownBy(s, |types|, v), ShownBy(s, |types|, w);
      if i.Some? {
        FewerKeysAreKept(types[i.value], v, w);
        BestIsLargest(s, |types|, w, i.value);
      } else if j.Some? {
        BestIsLargest(s, |types|, v, j.value);
      }
    }
  }

  lemma {:induction false} KeptTwice(s: Schema, v: Value)
    ensures Kept(s, Kept(s, v)) == Kept(s, v)
    decreases s, 1
  {
    var kept := Kept(s, v);
    if s.kind.Objects? && v.Record? {
      forall k | k in kept.fields ensures Kept(s, kept).fields[k] == kept.fields[k] {
        KeptTwice(Under(s, Key(k)).value, v.fields[k]);
      }
      assert Kept(s, kept).fields == kept.fields;
    } else if s.kind.Arrays? && v.Items? {
      forall n: nat | n < |kept.items| ensures Kept(s, kept).items[n] == kept.items[n] {
        if Under(s, Item(n)).Some? {
          KeptTwice(Under(s, Item(n)).value, v.items[n]);
        }
      }
      assert Kept(s, kept).items == kept.items;
    } else if s.kind.Union? && !IsNothing(v) {
      var j := ShownBy(s, |s.kind.types|, v);
      if j.Some? {
        KeptTwice(s.kind.types[j.value], v);
        SameMemberAgain(s, v, j.value);
      }
    }
  }

  /** What a union's member keeps is shown by it again. */
  lemma SameMemberAgain(s: Schema, v: Value, j: nat)
    requires s.kind.Union? && !IsNothing(v) && ShownBy(s, |s.kind.types|, v) == Some(j)
    requires Kept(s.kind.types[j], Kept(s, v)) == Kept(s, v)
    ensures ShownBy(s, |s.kind.types|, Kept(s, v)) == Some(j)
  {
    var types, kept := s.kind.types, Kept(s, v);
    KeptIsWithin(s, v);
    forall i | 0 <= i < |types| && CanHold(types[i], kept)
      ensures Size(Kept(types[i], kept)) <= Size(kept) && (i < j ==> Size(Kept(types[i], kept)) < Size(kept))
    {
      FewerKeysAreKept(types[i], kept, v);
      BestIsLargest(s, |types|, v, i);
    }
    TheLargestIsBest(s, |types|, kept, j);
  }

  /** Exposing twice is exposing once exactly when whatever is shown, and no member that first changes the value redacts, is
      hidden from every mark. */
  lemma ExposedTwiceExactly(s: Schema, v: Value)
    ensures Exposed(s, Exposed(s, v)) == Exposed(s, v)
            <==> forall path :: SomeMark(s, path) && ShowsAt(s, v, path) && !IsHiddenAt(v, path) ==> RedactsFrom(s, v, path).Some?
  {
    var shown := Exposed(s, v);
    KeptTwice(s, Redacted(s, v, REDACTED));
    UnchangedExactly(s, shown);
    RedactionFindsExactly(s, shown);
    forall path | SomeMark(s, path)
      ensures IsHiddenAt(shown, path) <==> (ShowsAt(s, v, path) && !IsHiddenAt(v, path) ==> RedactsFrom(s, v, path).Some?)
    {
      ExposedAtEveryPlace(s, v, path);
    }
  }

  // ---- Unions with one marked member ----

  predicate HasMarks(s: Schema) {
    s.marked ||
    match s.kind
    case Objects(properties, indexes) => (exists p :: p in properties && HasMarks(p.schema)) || exists t :: t in indexes && HasMarks(t)
    case Arrays(elements, rest) => (exists t :: t in elements && HasMarks(t)) || exists t :: t in rest && HasMarks(t)
    case Union(types) => exists t :: t in types && HasMarks(t)
    case _ => false
  }

  /** Of every union one member at most has marks, as of NullOr, UndefinedOr and unions of literals. */
  predicate MarksOneMember(s: Schema) {
    match s.kind
    case Objects(properties, indexes) => (forall p :: p in properties ==> MarksOneMember(p.schema)) && forall t :: t in indexes ==> MarksOneMember(t)
    case Arrays(elements, rest) => (forall t :: t in elements ==> MarksOneMember(t)) && forall t :: t in rest ==> MarksOneMember(t)
    case Union(types) => (forall t :: t in types ==> MarksOneMember(t)) && forall i, j :: 0 <= i < j < |types| ==> !HasMarks(types[i]) || !HasMarks(types[j])
    case _ => true
  }

  lemma UnderIsPart(s: Schema, step: Step)
    requires Under(s, step).Some?
    ensures MarksOneMember(s) ==> MarksOneMember(Under(s, step).value)
    ensures HasMarks(Under(s, step).value) ==> HasMarks(s)
  {
    if s.kind.Objects? && PropertyAt(s.kind.properties, |s.kind.properties|, step.name).Some? {
      assert s.kind.properties[PropertyAt(s.kind.properties, |s.kind.properties|, step.name).value] in s.kind.properties;
    }
  }

  lemma {:induction false} ReachedMarksAreThere(s: Schema, path: seq<Step>)
    requires SomeMark(s, path)
    ensures HasMarks(s)
    decreases s
  {
    if !s.marked && s.kind.Union? {
      var t :| t in s.kind.types && SomeMark(t, path);
      ReachedMarksAreThere(t, path);
    } else if !s.marked {
      ReachedMarksAreThere(Under(s, path[0]).value, path[1..]);
      UnderIsPart(s, path[0]);
    }
  }

  lemma MarkedMemberChanges(s: Schema, t: Schema, v: Value, path: seq<Step>)
    requires s.kind.Union? && MarksOneMember(s) && t in s.kind.types && SomeMark(t, path) && !IsHiddenAt(v, path)
    ensures var i := ChangedBy(s, 0, v); i.Some? && s.kind.types[i.value] == t
  {
    ReachedMarksAreThere(t, path);
    if Redacted(t, v, REDACTED) == v {
      UnchangedIsHidden(t, v, path);
      assert false;
    }
    var changed := s.kind.types[ChangedBy(s, 0, v).value];
    var reached := ChangedSomewhere(changed, v);
    ReachedMarksAreThere(changed, reached);
  }

  /** Then whatever a mark can reach is redacted. */
  lemma {:induction false} MarksAreReached(s: Schema, v: Value, path: seq<Step>)
    requires MarksOneMember(s) && SomeMark(s, path) && !IsHiddenAt(v, path)
    ensures RedactsFrom(s, v, path).Some?
    decreases s
  {
    if !s.marked && s.kind.Union? {
      var t :| t in s.kind.types && SomeMark(t, path);
      MarkedMemberChanges(s, t, v, path);
      MarksAreReached(t, v, path);
    } else if !s.marked {
      UnderIsPart(s, path[0]);
      MarksAreReached(Under(s, path[0]).value, Child(v, path[0]).value, path[1..]);
    }
  }

  /** And so nothing personal is shown, whatever the value's shape, and exposing twice is exposing once. */
  lemma OneMarkedMemberIsSafe(s: Schema, v: Value)
    requires MarksOneMember(s)
    ensures forall path :: SomeMark(s, path) ==> IsHiddenAt(Exposed(s, v), path)
    ensures Exposed(s, Exposed(s, v)) == Exposed(s, v)
  {
    forall path | SomeMark(s, path) ensures IsHiddenAt(Exposed(s, v), path) && (!IsHiddenAt(v, path) ==> RedactsFrom(s, v, path).Some?) {
      ExposedAtEveryPlace(s, v, path);
      if !IsHiddenAt(v, path) {
        MarksAreReached(s, v, path);
      }
    }
    ExposedTwiceExactly(s, v);
  }

  /** `{ a: personal }`, a record of personal texts, and a value with two keys. */
  const FIRST := Schema(false, Objects([Property("a", Schema(true, Scalar))], []))
  const SECOND := Schema(false, Objects([], [Schema(true, Scalar)]))
  const EITHER := Schema(false, Union([FIRST, SECOND]))
  const BOTH := Record(map["a" := Text("1"), "b" := Text("2")])
  const HALF := Record(map["a" := Text(REDACTED), "b" := Text("2")])

  lemma OnlyFirstCovers(k: string)
    ensures Under(FIRST, Key(k)) == if k == "a" then Some(Schema(true, Scalar)) else None
    ensures Under(SECOND, Key(k)) == Some(Schema(true, Scalar))
  {
    var properties := FIRST.kind.properties;
    assert PropertyAt(properties, 0, k) == None;
    assert PropertyAt(properties, 1, k) == if k == "a" then Some(0) else None;
  }

  lemma FirstRedacts()
    ensures Redacted(EITHER, BOTH, REDACTED) == HALF
  {
    OnlyFirstCovers("a");
    OnlyFirstCovers("b");
    assert Redacted(FIRST, BOTH, REDACTED) == HALF;
    assert HALF.fields["a"] != BOTH.fields["a"];
    assert FirstChanged(EITHER, 0, BOTH, REDACTED) == HALF;
  }

  lemma FirstKeepsOne()
    ensures Kept(FIRST, HALF) == Record(map["a" := Text(REDACTED)])
  {
    OnlyFirstCovers("a");
    OnlyFirstCovers("b");
  }

  lemma SecondKeepsAll()
    ensures Kept(SECOND, HALF) == HALF
  {
    OnlyFirstCovers("a");
    OnlyFirstCovers("b");
  }

  lemma SecondShows()
    ensures Kept(EITHER, HALF) == HALF && ShownBy(EITHER, 2, HALF) == Some(1)
  {
    FirstKeepsOne();
    SecondKeepsAll();
    assert ShownBy(EITHER, 0, HALF) == None;
    assert ShownBy(EITHER, 1, HALF) == Some(0);
    assert ShownBy(EITHER, 2, HALF) == Some(1);
  }

  lemma SecondMarks()
    ensures SomeMark(SECOND, [Key("b")]) && ShownMark(SECOND, BOTH, [Key("b")])
  {
    OnlyFirstCovers("b");
    assert [Key("b")][1..] == [];
    assert SomeMark(Schema(true, Scalar), []) && ShownMark(Schema(true, Scalar), Text("2"), []);
  }

  lemma HalfShows()
    ensures ValueAt(HALF, [Key("b")]) == Some(Text("2")) && !IsHidden(Text("2"))
  {
    assert Child(HALF, Key("b")) == Some(Text("2")) && [Key("b")][1..] == [];
    assert "2" != REDACTED;
  }

  /** Both conditions can fail: the first member redacts `a`, and the second, which keeps more keys, shows its own mark `b`;
      exposed again, it would be redacted. */
  lemma UnionsCanShowAMark()
    ensures Exposed(EITHER, BOTH) == HALF
    ensures ShownMark(EITHER, BOTH, [Key("b")]) && !IsHiddenAt(HALF, [Key("b")])
    ensures Exposed(EITHER, HALF) != HALF
  {
    FirstRedacts();
    SecondShows();
    ShownByTop(EITHER, 2, BOTH, HALF);
    SecondMarks();
    HalfShows();
    assert SECOND in EITHER.kind.types && SomeMark(EITHER, [Key("b")]);
    UnchangedExactly(EITHER, HALF);
  }
}
