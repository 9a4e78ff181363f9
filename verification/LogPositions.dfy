/** Points in the one shared log, in (transaction id, position) order
    (packages/eventstore/src/LogPosition.ts, packages/event-poller/src/ProgressCursor.ts). */
module LogPositions {
  import opened Options

  /** A point of the log. */
  datatype Cursor = Cursor(xid: nat, pos: nat) {
    predicate Before(other: Cursor) {
      xid < other.xid || (xid == other.xid && pos < other.pos)
    }

    predicate AtOrBefore(other: Cursor) {
      this == other || Before(other)
    }
  }

  const START := Cursor(0, 0)

  /** A condition's cursor; without a transaction id it compares by position alone. */
  datatype LogPosition = LogPosition(pos: nat, xid: Option<nat>)

  const ZERO := LogPosition(0, Some(0))

  function At(c: Cursor): LogPosition {
    LogPosition(c.pos, Some(c.xid))
  }

  function Earliest(a: LogPosition, b: LogPosition): LogPosition {
    if a.xid.Some? && a.xid.value != 0 && b.xid.Some? && b.xid.value != 0 && a.xid.value != b.xid.value
    then (if a.xid.value < b.xid.value then a else b)
    else (if a.pos <= b.pos then a else b)
  }

  /** Whether an event lies after the cursor, as the append compares them. */
  predicate IsAfter(after: LogPosition, c: Cursor) {
    match after.xid
    case None => c.pos > after.pos
    case Some(x) => Cursor(x, after.pos).Before(c)
  }
}
