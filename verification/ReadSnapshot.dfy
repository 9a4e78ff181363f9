/** What a read could see (packages/eventstore/src/ReadSnapshot.ts). */
module ReadSnapshot {
  import opened Options
  import opened Text

  datatype Parts = Parts(xmin: nat, xmax: nat, xip: seq<nat>)

  /** How Postgres makes one: the running transactions lie between xmin and xmax. */
  predicate WellFormed(p: Parts) {
    p.xmin <= p.xmax && forall x :: x in p.xip ==> p.xmin <= x < p.xmax
  }

  predicate Sees(p: Parts, x: nat) {
    x < p.xmin || (x < p.xmax && x !in p.xip)
  }

  /** The append's own form of the test: from xmax on, or running. */
  predicate Unseen(p: Parts, x: nat) {
    x >= p.xmax || x in p.xip
  }

  lemma UnseenIsNotSeen(p: Parts, x: nat)
    requires WellFormed(p)
    ensures Unseen(p, x) <==> !Sees(p, x)
  {
  }

  predicate Increasing(s: seq<nat>) {
    forall i, j :: 0 <= i < j < |s| ==> s[i] < s[j]
  }

  lemma HeadAndTail(s: seq<nat>)
    requires s != []
    ensures forall y :: y in s <==> y == s[0] || y in s[1..]
  {
    assert s == [s[0]] + s[1..];
  }

  /** `s` with `x` put in its place, once. */
  function Insert(s: seq<nat>, x: nat): (r: seq<nat>)
    requires Increasing(s)
    ensures Increasing(r)
    ensures forall y :: y in r <==> y in s || y == x
  {
    if s == [] || x < s[0] then [x] + s
    else if x == s[0] then s
    else
      var rest := Insert(s[1..], x);
      HeadAndTail(s);
      assert forall j :: 0 <= j < |rest| ==> rest[j] in rest && s[0] < rest[j];
      [s[0]] + rest
  }

  /** The ids of `s` below `limit`, sorted, each once. */
  function Sorted(s: seq<nat>, limit: nat): (r: seq<nat>)
    ensures Increasing(r)
    ensures forall y :: y in r <==> y in s && y < limit
  {
    if s == [] then []
    else
      HeadAndTail(s);
      var rest := Sorted(s[1..], limit);
      if s[0] < limit then Insert(rest, s[0]) else rest
  }

  function Min(a: nat, b: nat): nat {
    if a < b then a else b
  }

  function Intersect(a: Parts, b: Parts): Parts {
    var xmax := Min(a.xmax, b.xmax);
    Parts(Min(a.xmin, b.xmin), xmax, Sorted(a.xip + b.xip, xmax))
  }

  lemma IntersectSeesBoth(a: Parts, b: Parts)
    requires WellFormed(a) && WellFormed(b)
    ensures WellFormed(Intersect(a, b)) && Increasing(Intersect(a, b).xip)
    ensures forall x :: Sees(Intersect(a, b), x) <==> Sees(a, x) && Sees(b, x)
  {
  }

  /** The text form, `xmin:xmax:xip1,xip2,...`. */
  function Format(p: Parts): string {
    Decimal(p.xmin) + ":" + Decimal(p.xmax) + ":" + Join(Decimals(p.xip), ',')
  }

  function Decimals(xs: seq<nat>): (r: seq<string>)
    ensures |r| == |xs| && forall i :: 0 <= i < |xs| ==> r[i] == Decimal(xs[i])
  {
    seq(|xs|, i requires 0 <= i < |xs| => Decimal(xs[i]))
  }

  predicate AllNumbers(parts: seq<string>) {
    forall i :: 0 <= i < |parts| ==> AllDigits(parts[i])
  }

  function Numbers(parts: seq<string>): seq<nat>
    requires AllNumbers(parts)
  {
    seq(|parts|, i requires 0 <= i < |parts| => Number(parts[i]))
  }

  /** Three fields between colons, the first two digits and not empty, the third digits and commas; else not a snapshot. */
  function Parse(text: string): Option<Parts> {
    var fields := Split(text, ':');
    if |fields| != 3 || fields[0] == "" || fields[1] == "" || !AllDigits(fields[0]) || !AllDigits(fields[1]) then None
    else
      var ids := Split(fields[2], ',');
      if !AllNumbers(ids) then None
      else Some(Parts(Number(fields[0]), Number(fields[1]), if fields[2] == "" then [] else Numbers(ids)))
  }

  lemma DigitsHoldNo(s: string, c: char)
    requires AllDigits(s) && !IsDigit(c)
    ensures c !in s
  {
  }

  lemma ParseFormat(p: Parts)
    ensures Parse(Format(p)) == Some(p)
  {
    var a, b, ids := Decimal(p.xmin), Decimal(p.xmax), Decimals(p.xip);
    var c := Join(ids, ',');
    forall s | s in ids ensures ':' !in s && ',' !in s && AllDigits(s) {
      DigitsHoldNo(s, ':');
      DigitsHoldNo(s, ',');
    }
    JoinHoldsOnly(ids, ',', ':');
    SplitFields(a, b, c);
    NumberOfDecimal(p.xmin);
    NumberOfDecimal(p.xmax);
    if p.xip == [] {
      assert AllNumbers(Split(c, ','));
    } else {
      SplitJoin(ids, ',');
      forall i | 0 <= i < |p.xip| ensures Number(ids[i]) == p.xip[i] {
        NumberOfDecimal(p.xip[i]);
      }
      assert Numbers(ids) == p.xip;
      assert ids[0] == Decimal(p.xip[0]);
      assert c != "";
    }
  }

  /** The first field is xmin, the second xmax, the third the running ids. */
  lemma ParsesTheFields(a: string, b: string, ids: seq<string>)
    requires a != "" && b != "" && AllDigits(a) && AllDigits(b) && ids != [] && forall s :: s in ids ==> s != "" && AllDigits(s)
    ensures var p := Parse(a + ":" + b + ":" + Join(ids, ','));
            && p.Some? && p.value.xmin == Number(a) && p.value.xmax == Number(b)
            && |p.value.xip| == |ids| && forall i :: 0 <= i < |ids| ==> p.value.xip[i] == Number(ids[i])
  {
    var c := Join(ids, ',');
    forall s | s in ids ensures ':' !in s && ',' !in s {
      DigitsHoldNo(s, ':');
      DigitsHoldNo(s, ',');
    }
    JoinHoldsOnly(ids, ',', ':');
    SplitFields(a, b, c);
    SplitJoin(ids, ',');
    assert ids[0] in ids && c != "";
  }

  lemma SplitFields(a: string, b: string, c: string)
    requires AllDigits(a) && AllDigits(b) && ':' !in c
    ensures Split(a + ":" + b + ":" + c, ':') == [a, b, c]
  {
    DigitsHoldNo(a, ':');
    DigitsHoldNo(b, ':');
    assert a + ":" + b + ":" + c == a + [':'] + (b + [':'] + c);
    SplitFirst(a, b + [':'] + c, ':');
    SplitFirst(b, c, ':');
    SplitNone(c, ':');
  }

  /** `intersect` on texts; None is the exception `parse` throws. */
  function IntersectText(a: string, b: string): Option<string> {
    var pa, pb := Parse(a), Parse(b);
    if pa.None? || pb.None? then None else Some(Format(Intersect(pa.value, pb.value)))
  }

  /** `intersectAll`, outcome by outcome: a read without a snapshot leaves nothing to refine with. */
  datatype Combined = Absent | NotASnapshot | Seen(text: string)

  function IntersectAll(texts: seq<Option<string>>): Combined {
    if texts == [] || None in texts then Absent
    else Reduce(texts[0].value, texts[1..])
  }

  function Reduce(first: string, rest: seq<Option<string>>): Combined
    requires None !in rest
    decreases |rest|
  {
    if rest == [] then Seen(first)
    else
      var next := IntersectText(first, rest[0].value);
      if next.None? then NotASnapshot else Reduce(next.value, rest[1..])
  }

  predicate IsSnapshotText(t: string) {
    Parse(t).Some? && WellFormed(Parse(t).value)
  }

  predicate SeesText(t: string, x: nat) {
    Parse(t).Some? && Sees(Parse(t).value, x)
  }

  lemma {:induction false} ReduceSeesAll(first: string, rest: seq<Option<string>>)
    requires IsSnapshotText(first)
    requires None !in rest && forall t :: t in rest ==> IsSnapshotText(t.value)
    ensures var r := Reduce(first, rest);
            r.Seen? && IsSnapshotText(r.text)
            && (forall x :: SeesText(r.text, x) <==> SeesText(first, x) && forall t :: t in rest ==> SeesText(t.value, x))
    ensures rest != [] ==> Increasing(Parse(Reduce(first, rest).text).value.xip)
    decreases |rest|
  {
    if rest != [] {
      assert rest[0] in rest;
      var pa, pb := Parse(first).value, Parse(rest[0].value).value;
      IntersectSeesBoth(pa, pb);
      ParseFormat(Intersect(pa, pb));
      var next := Format(Intersect(pa, pb));
      ReduceSeesAll(next, rest[1..]);
      if rest[1..] == [] {
        assert Reduce(next, rest[1..]) == Seen(next);
      }
      forall x ensures SeesText(Reduce(first, rest).text, x) <==> SeesText(first, x) && forall t :: t in rest ==> SeesText(t.value, x) {
        assert SeesText(next, x) <==> SeesText(first, x) && SeesText(rest[0].value, x);
        assert forall t :: t in rest <==> t == rest[0] || t in rest[1..];
      }
    }
  }

  /** What several reads saw together, through the text and back: a transaction is seen exactly when every read saw it;
      with a read that carries no snapshot, nothing is. The result is again a snapshot, of sorted distinct ids. */
  lemma IntersectAllSeesAll(texts: seq<Option<string>>)
    requires forall t :: t in texts && t.Some? ==> IsSnapshotText(t.value)
    ensures IntersectAll(texts) == Absent <==> texts == [] || None in texts
    ensures IntersectAll(texts) != NotASnapshot
    ensures var r := IntersectAll(texts);
            r.Seen? ==> IsSnapshotText(r.text)
                        && (|texts| > 1 ==> Increasing(Parse(r.text).value.xip))
                        && forall x :: SeesText(r.text, x) <==> forall t :: t in texts ==> SeesText(t.value, x)
  {
    if texts != [] && None !in texts {
      assert texts[0] in texts;
      ReduceSeesAll(texts[0].value, texts[1..]);
      var r := IntersectAll(texts);
      forall x ensures SeesText(r.text, x) <==> forall t :: t in texts ==> SeesText(t.value, x) {
        assert forall t :: t in texts <==> t == texts[0] || t in texts[1..];
      }
    }
  }
}
