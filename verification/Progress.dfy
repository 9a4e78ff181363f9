/** The progress row of a processor and the statements that read and change it
    (packages/event-poller/src/PostgresProgressTracker.ts). */
module Progress {
  import opened Options
  import opened LogPositions

  datatype Status = Active | Paused | Failed

  datatype Row = Row(instance: string, status: Status, cursor: Cursor, errors: nat, lastError: Option<string>)

  type Table = map<string, Row>

  function StatusOf(t: Table, id: string): Status {
    if id in t then t[id].status else Active
  }

  function CursorOf(t: Table, id: string): Cursor {
    if id in t then t[id].cursor else START
  }

  /** The row when the statement's WHERE finds it, changed by `f`. */
  function Update(t: Table, id: string, f: Row -> Row): Table {
    if id in t then t[id := f(t[id])] else t
  }

  function Registered(t: Table, id: string, instance: string): Table {
    if id in t then t else t[id := Row(instance, Active, START, 0, None)]
  }

  /** The compare-and-set: the row moves only from where the batch started. */
  function Moved(t: Table, id: string, from: Cursor, to: Cursor): Table {
    Update(t, id, (r: Row) => if r.cursor == from then r.(cursor := to) else r)
  }

  function Erred(t: Table, id: string, error: string, maxErrors: int): Table {
    Update(t, id, (r: Row) => r.(errors := r.errors + 1, lastError := Some(error), status := if r.errors + 1 >= maxErrors then Failed else r.status))
  }

  function Cleared(t: Table, id: string): Table {
    Update(t, id, (r: Row) => r.(errors := 0))
  }

  function WithStatus(t: Table, id: string, status: Status): Table {
    Update(t, id, (r: Row) => r.(status := status))
  }

  /** The table and its statements; each one is atomic, and touches one processor's row only. */
  class PostgresProgressTracker {
    var rows: Table

    constructor ()
      ensures rows == map[]
    {
      rows := map[];
    }

    method GetStatus(id: string) returns (status: Status)
      ensures status == StatusOf(rows, id) == if id in rows then rows[id].status else Active
    {
      status := if id in rows then rows[id].status else Active;
    }

    method GetCursor(id: string) returns (cursor: Cursor)
      ensures cursor == CursorOf(rows, id) == if id in rows then rows[id].cursor else Cursor(0, 0)
    {
      cursor := if id in rows then rows[id].cursor else START;
    }

    /** Answers whether the cursor moved: exactly when a row was there and still where the batch started. */
    method MoveCursor(id: string, from: Cursor, to: Cursor) returns (moved: bool)
      modifies this
      ensures rows == Moved(old(rows), id, from, to)
      ensures moved <==> id in old(rows) && old(rows)[id].cursor == from
      ensures moved ==> CursorOf(rows, id) == to
      ensures !moved ==> rows == old(rows)
      ensures forall other :: other != id && other in old(rows) ==> other in rows && rows[other] == old(rows)[other]
    {
      moved := id in rows && rows[id].cursor == from;
      if moved {
        rows := rows[id := rows[id].(cursor := to)];
      }
    }

    method RecordError(id: string, error: string, maxErrors: int)
      modifies this
      ensures rows == Erred(old(rows), id, error, maxErrors)
      ensures rows.Keys == old(rows).Keys && forall other :: other in rows && other != id ==> rows[other] == old(rows)[other]
      ensures id in rows ==>
                var was, row := old(rows)[id], rows[id];
                && row.errors == was.errors + 1 && row.lastError == Some(error) && row.cursor == was.cursor && row.instance == was.instance
                && row.status == if was.errors + 1 >= maxErrors then Failed else was.status
    {
      if id in rows {
        var row := rows[id];
        var count := row.errors + 1;
        rows := rows[id := row.(errors := count, lastError := Some(error), status := if count >= maxErrors then Failed else row.status)];
      }
    }

    method ResetErrorCount(id: string)
      modifies this
      ensures rows == Cleared(old(rows), id)
      ensures rows.Keys == old(rows).Keys && forall other :: other in rows && other != id ==> rows[other] == old(rows)[other]
      ensures id in rows ==> var was := old(rows)[id]; rows[id] == Row(was.instance, was.status, was.cursor, 0, was.lastError)
    {
      if id in rows {
        rows := rows[id := rows[id].(errors := 0)];
      }
    }

    method SetStatus(id: string, status: Status)
      modifies this
      ensures rows == WithStatus(old(rows), id, status)
      ensures rows.Keys == old(rows).Keys && forall other :: other in rows && other != id ==> rows[other] == old(rows)[other]
      ensures id in rows ==> var was := old(rows)[id]; rows[id] == Row(was.instance, status, was.cursor, was.errors, was.lastError)
    {
      if id in rows {
        rows := rows[id := rows[id].(status := status)];
      }
    }

    method AutoRegister(id: string, instance: string)
      modifies this
      ensures rows == Registered(old(rows), id, instance)
      ensures rows == if id in old(rows) then old(rows) else old(rows)[id := Row(instance, Active, Cursor(0, 0), 0, None)]
    {
      if id !in rows {
        rows := rows[id := Row(instance, Active, START, 0, None)];
      }
    }
  }

  /** `n` failures in a row. */
  function Failing(t: Table, id: string, errors: seq<string>, maxErrors: int): Table {
    if errors == [] then t
    else Erred(Failing(t, id, errors[..|errors| - 1], maxErrors), id, errors[|errors| - 1], maxErrors)
  }

  /** A processor that was active with a clean count is FAILED after a run of failures exactly when the run reached the
      limit, and its cursor has not moved. */
  lemma {:induction false} FailsAtTheLimit(t: Table, id: string, errors: seq<string>, maxErrors: int)
    requires id in t && t[id].status == Active && t[id].errors == 0
    ensures var after := Failing(t, id, errors, maxErrors);
            id in after && after[id].errors == |errors| && after[id].cursor == t[id].cursor
            && (after[id].status == Failed <==> errors != [] && |errors| >= maxErrors)
            && (after[id].status != Failed ==> after[id].status == Active)
  {
    if errors != [] {
      FailsAtTheLimit(t, id, errors[..|errors| - 1], maxErrors);
    }
  }
}
