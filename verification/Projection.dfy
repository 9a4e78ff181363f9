/** The read a decision is made on: rows folded into a state, with the cursors a condition is built from
    (packages/eventstore/src/EventStore.ts, `project`). */
module Projection {
  import opened Options
  import opened LogPositions
  import opened Store
  import opened Commands

  /** `transition` answers None for a stored event its definition cannot read. */
  datatype Projector<!S> = Projector(types: seq<string>, initial: S, transition: (S, Row) -> Option<S>)

  predicate Handles<S>(p: Projector<S>, r: Row) {
    p.types == [] || r.event.etype in p.types
  }

  datatype Outcome<S> = Projected(state: S, logPosition: LogPosition, latest: LogPosition) | Unreadable(row: Row)

  /** One row through every projector that handles its type, in turn. */
  function StepRow<S>(s: S, ps: seq<Projector<S>>, r: Row): Option<S> {
    if ps == [] then Some(s)
    else if !Handles(ps[0], r) then StepRow(s, ps[1..], r)
    else
      var next := ps[0].transition(s, r);
      if next.None? then None else StepRow(next.value, ps[1..], r)
  }

  function Fold<S>(s: S, ps: seq<Projector<S>>, rows: seq<Row>): Option<S> {
    if rows == [] then Some(s)
    else
      var before := Fold(s, ps, rows[..|rows| - 1]);
      if before.None? then None else StepRow(before.value, ps, rows[|rows| - 1])
  }

  /** A projector sees the rows of the types it lists, or of every type when it lists none, in order, from its initial state. */
  lemma ProjectorsSeeTheirTypes<S>(p: Projector<S>, s: S, rows: seq<Row>, r: Row)
    ensures Fold(s, [p], []) == Some(s)
    ensures var before := Fold(s, [p], rows);
            Fold(s, [p], rows + [r]) ==
              if before.None? then None
              else if p.types != [] && r.event.etype !in p.types then before
              else p.transition(before.value, r)
  {
    assert (rows + [r])[..|rows|] == rows;
    var before := Fold(s, [p], rows);
    if before.Some? {
      assert [p][1..] == [];
      var next := p.transition(before.value, r);
      assert next.Some? ==> StepRow(next.value, [], r) == next;
      assert StepRow(before.value, [], r) == before;
    }
  }

  /** Several see each row one after the other. */
  lemma {:induction false} ProjectorsTakeTurns<S>(s: S, ps: seq<Projector<S>>, qs: seq<Projector<S>>, r: Row)
    ensures var after := StepRow(s, ps, r); StepRow(s, ps + qs, r) == if after.None? then None else StepRow(after.value, qs, r)
  {
    if ps == [] {
      assert ps + qs == qs;
    } else {
      assert (ps + qs)[0] == ps[0] && (ps + qs)[1..] == ps[1..] + qs;
      if !Handles(ps[0], r) {
        ProjectorsTakeTurns(s, ps[1..], qs, r);
      } else if ps[0].transition(s, r).Some? {
        ProjectorsTakeTurns(ps[0].transition(s, r).value, ps[1..], qs, r);
      }
    }
  }

  /** `latest` is the last row of the result, settled or not. */
  lemma LatestIsTheLast<S>(ps: seq<Projector<S>>, rows: seq<Row>, settledBelow: nat, after: LogPosition, out: Outcome<S>)
    requires ps != [] && IsProjection(ps, rows, settledBelow, after, out) && out.Projected?
    ensures out.latest == if rows == [] then after else LogPosition(rows[|rows| - 1].pos, Some(rows[|rows| - 1].xid))
  {
  }

  /** The cursor of a read that started at `after`. */
  function SettledPosition(rows: seq<Row>, settledBelow: nat, after: LogPosition): LogPosition {
    var c := CursorOf(rows, settledBelow);
    if c == START then after else At(c)
  }

  function LatestOf(rows: seq<Row>, after: LogPosition): LogPosition {
    if rows == [] then after else At(rows[|rows| - 1].At())
  }

  /** The row at which the fold stops. */
  predicate IsFirstUnreadable<S>(ps: seq<Projector<S>>, rows: seq<Row>, r: Row)
    requires ps != []
  {
    exists k :: 0 <= k < |rows| && rows[k] == r && Fold(ps[0].initial, ps, rows[..k]).Some? && Fold(ps[0].initial, ps, rows[..k + 1]).None?
  }

  /** All the rows folded, with the last settled one and the last one; or the row that could not be read. */
  ghost predicate IsProjection<S>(ps: seq<Projector<S>>, rows: seq<Row>, settledBelow: nat, after: LogPosition, out: Outcome<S>)
    requires ps != []
  {
    match Fold(ps[0].initial, ps, rows)
    case Some(state) => out == Projected(state, SettledPosition(rows, settledBelow, after), LatestOf(rows, after))
    case None => out.Unreadable? && IsFirstUnreadable(ps, rows, out.row)
  }

  lemma {:induction false} NoneStaysNone<S>(s: S, ps: seq<Projector<S>>, rows: seq<Row>, k: nat)
    requires k <= |rows| && Fold(s, ps, rows[..k]).None?
    ensures Fold(s, ps, rows).None?
    decreases |rows|
  {
    if k < |rows| {
      assert rows[..|rows| - 1][..k] == rows[..k];
      NoneStaysNone(s, ps, rows[..|rows| - 1], k);
    } else {
      assert rows[..k] == rows;
    }
  }

  /** The loop of `project`: nothing is skipped, the cursor stops at the last settled row, `latest` at the last one; a
      row that cannot be read stops everything and is named. */
  method Project<S>(rows: seq<Row>, settledBelow: nat, after: LogPosition, projectors: seq<Projector<S>>) returns (out: Outcome<S>)
    requires projectors != []
    requires forall i :: 0 <= i < |rows| ==> rows[i].xid >= 1
    ensures IsProjection(projectors, rows, settledBelow, after, out)
  {
    var state := projectors[0].initial;
    var logPosition, latest := after, after;
    var i := 0;
    while i < |rows|
      invariant 0 <= i <= |rows|
      invariant Fold(projectors[0].initial, projectors, rows[..i]) == Some(state)
      invariant logPosition == SettledPosition(rows[..i], settledBelow, after)
      invariant latest == LatestOf(rows[..i], after)
    {
      var row := rows[i];
      assert rows[..i + 1][..i] == rows[..i];
      ghost var before := state;
      var j := 0;
      while j < |projectors|
        invariant 0 <= j <= |projectors|
        invariant StepRow(before, projectors, row) == StepRow(state, projectors[j..], row)
      {
        if Handles(projectors[j], row) {
          var next := projectors[j].transition(state, row);
          if next.None? {
            NoneStaysNone(projectors[0].initial, projectors, rows, i + 1);
            return Unreadable(row);
          }
          state := next.value;
        }
        j := j + 1;
      }
      if row.xid < settledBelow {
        logPosition := At(row.At());
      }
      latest := At(row.At());
      i := i + 1;
    }
    assert rows[..i] == rows;
    return Projected(state, logPosition, latest);
  }

  /** Started at the beginning, the loop's cursor is the one a load conditions on. */
  lemma FromTheStart<S>(ps: seq<Projector<S>>, read: Read, out: Outcome<S>)
    requires ps != [] && IsProjection(ps, read.rows, read.settledBelow, ZERO, out) && out.Projected?
    ensures out.logPosition == LoadOne(read).logPosition
  {
    assert SettledPosition(read.rows, read.settledBelow, ZERO) == At(CursorOf(read.rows, read.settledBelow));
  }

  /** In a result in log order the settled rows come first, so no settled row lies after the cursor. */
  lemma {:induction false} CursorIsTheLastSettled(rows: seq<Row>, settledBelow: nat)
    requires Ordered(rows) && forall i :: 0 <= i < |rows| ==> rows[i].xid >= 1
    ensures forall r :: r in rows ==> (r.xid < settledBelow <==> r.At().AtOrBefore(CursorOf(rows, settledBelow)) && CursorOf(rows, settledBelow) != START)
  {
    if rows != [] {
      var last := rows[|rows| - 1];
      var front := rows[..|rows| - 1];
      assert rows == front + [last];
      if last.xid >= settledBelow {
        CursorIsTheLastSettled(front, settledBelow);
        CursorIsInFront(front, settledBelow, last);
      } else {
        forall r | r in rows ensures r.At().AtOrBefore(last.At()) {
          var i :| 0 <= i < |rows| && rows[i] == r;
          assert i < |rows| - 1 ==> rows[i].At().Before(rows[|rows| - 1].At());
        }
      }
    }
  }

  lemma {:induction false} CursorIsInFront(rows: seq<Row>, settledBelow: nat, last: Row)
    requires Ordered(rows + [last])
    ensures CursorOf(rows, settledBelow) == START || CursorOf(rows, settledBelow).Before(last.At())
  {
    if rows != [] {
      assert (rows + [last])[|rows| - 1] == rows[|rows| - 1] && (rows + [last])[|rows|] == last;
      if rows[|rows| - 1].xid >= settledBelow {
        var front := rows[..|rows| - 1];
        assert Ordered(front + [last]) by {
          forall i, j | 0 <= i < j < |front + [last]| ensures (front + [last])[i].At().Before((front + [last])[j].At()) {
            assert (rows + [last])[i] == (front + [last])[i];
            assert j < |front| ==> (rows + [last])[j] == (front + [last])[j];
          }
        }
        CursorIsInFront(front, settledBelow, last);
      }
    }
  }
}
