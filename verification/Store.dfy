/** The event log as Postgres keeps it: transactions of any number of sessions, interleaved statement by statement.
    A transaction takes its id at its first write, a row takes its position from a sequence of its own, so the two
    orders can invert; an append takes its locks one at a time, checks, and inserts row by row; nothing is visible to
    others before the commit.
    (packages/db-migrations/sql/V6__crablet_append_sees_the_read.sql, V7__crablet_event_metadata.sql,
    packages/eventstore/src/internal/sql.ts) */
module Store {
  import opened Options
  import opened Events
  import opened WriterLocks
  import opened LogPositions
  import RS = ReadSnapshot

  datatype Row = Row(xid: nat, pos: nat, event: Event) {
    function At(): Cursor { Cursor(xid, pos) }
  }

  datatype Condition = Condition(after: LogPosition, concurrency: Query, idempotency: Query, seen: Option<RS.Parts>, firstWrite: bool)

  datatype Request = Request(events: seq<Event>, condition: Condition)

  /** One read as a caller keeps it: the snapshot taken just before it, and the rows of the statement itself, of which
      those below `settledBelow` came back marked settled. */
  datatype Read = Read(query: Query, seen: RS.Parts, settledBelow: nat, rows: seq<Row>)

  datatype Status = Running | Committed | Aborted

  /** Where the session is inside append_events_if. */
  datatype Call = Idle | Locking(request: Request) | Accepted(request: Request, left: seq<Event>)

  /** `command`: run by the command executor, which makes the append the transaction's first write. */
  datatype Tx = Tx(command: bool, status: Status, xid: Option<nat>, snapshot: Option<RS.Parts>, loads: seq<Read>,
                   locks: set<Lock<Key>>, call: Call, appended: seq<Request>)

  datatype Db = Db(txs: map<nat, Tx>, owners: map<nat, nat>, nextXid: nat, nextPos: nat, rows: set<Row>)

  const EMPTY := Db(map[], map[], 1, 1, {})

  // ---- What a statement can see ----

  predicate IsRunning(db: Db, t: nat) {
    t in db.txs && db.txs[t].status == Running
  }

  predicate HasStatus(db: Db, x: nat, status: Status) {
    x in db.owners && db.owners[x] in db.txs && db.txs[db.owners[x]].status == status
  }

  predicate Finished(db: Db, x: nat) {
    HasStatus(db, x, Committed) || HasStatus(db, x, Aborted)
  }

  predicate IsCommitted(db: Db, r: Row) {
    r in db.rows && HasStatus(db, r.xid, Committed)
  }

  /** READ COMMITTED: what others committed before the statement, and the transaction's own rows. */
  predicate Visible(db: Db, own: Option<nat>, r: Row) {
    r in db.rows && (HasStatus(db, r.xid, Committed) || own == Some(r.xid))
  }

  /** pg_current_snapshot() of a transaction with the id `own`, if it has one: xmax is one past the newest finished
      transaction, xip the running ones below it but itself, xmin the oldest of those and itself, or xmax. */
  ghost predicate TakenIn(db: Db, own: Option<nat>, p: RS.Parts) {
    && RS.WellFormed(p)
    && 1 <= p.xmin && p.xmax <= db.nextXid
    && (forall x: nat :: Finished(db, x) ==> x < p.xmax)
    && (p.xmax == 1 || Finished(db, p.xmax - 1))
    && (forall x :: x in p.xip <==> x in db.owners && x < p.xmax && !Finished(db, x) && own != Some(x))
    && (p.xmin < p.xmax ==> p.xmin in p.xip || own == Some(p.xmin))
    && (own.Some? && own.value < p.xmax ==> p.xmin <= own.value)
  }

  predicate Ordered(rows: seq<Row>) {
    forall i, j :: 0 <= i < j < |rows| ==> rows[i].At().Before(rows[j].At())
  }

  // ---- The append's check ----

  /** Whether the committed row `r` refuses an append of the transaction `own`. */
  predicate Conflicts(c: Condition, own: Option<nat>, r: Row) {
    && ConditionMatches(c.concurrency, r.event)
    && IsAfter(c.after, r.At())
    && (c.after.xid.None? || own != Some(r.xid))
    && (c.seen.Some? ==> RS.Unseen(c.seen.value, r.xid))
  }

  datatype Verdict = Ok | Duplicate | Conflict

  ghost function VerdictOf(db: Db, own: Option<nat>, c: Condition): Verdict {
    if exists r :: Visible(db, own, r) && ConditionMatches(c.idempotency, r.event) then Duplicate
    else if exists r :: Visible(db, own, r) && Conflicts(c, own, r) then Conflict
    else Ok
  }

  function Needed(req: Request): set<Lock<Key>> {
    EventsLocks(req.events) + QueryLocks(req.condition.concurrency) + QueryLocks(req.condition.idempotency)
  }

  predicate Free(db: Db, t: nat, l: Lock<Key>) {
    forall u, m :: u in db.txs && u != t && db.txs[u].status == Running && m in db.txs[u].locks ==> !Excludes(l, m)
  }

  // ---- The steps ----

  datatype Action =
    | Begin(t: nat, command: bool)
    | AssignXid(t: nat)
    | TakeSnapshot(t: nat, now: RS.Parts)
    | RunRead(t: nat, query: Query, now: RS.Parts, rows: seq<Row>)
    | StartAppend(t: nat, request: Request)
    | TakeLock(t: nat, lock: Lock<Key>)
    | Check(t: nat)
    | Insert(t: nat)
    | EndAppend(t: nat)
    | Commit(t: nat)
    | Abort(t: nat)

  ghost predicate Enabled(db: Db, a: Action) {
    if a.Begin? then a.t !in db.txs
    else
      && IsRunning(db, a.t)
      && var tx := db.txs[a.t];
         match a
         case AssignXid(t) => tx.xid.None? && !tx.call.Locking? && (tx.command ==> tx.call.Accepted?)
         case TakeSnapshot(t, now) => tx.call.Idle? && TakenIn(db, tx.xid, now)
         case RunRead(t, query, now, rows) =>
           && tx.call.Idle? && tx.snapshot.Some? && (tx.command ==> tx.appended == [])
           && TakenIn(db, tx.xid, now) && Ordered(rows)
           && forall r :: r in rows <==> Visible(db, tx.xid, r) && QueryMatches(query, r.event)
         case StartAppend(t, req) =>
           tx.call.Idle? && req.events != [] && (tx.command || req.condition.firstWrite ==> tx.xid.None?)
         case TakeLock(t, l) => tx.call.Locking? && l in Needed(tx.call.request) && Free(db, t, l)
         case Check(t) => tx.call.Locking? && Needed(tx.call.request) <= tx.locks
         case Insert(t) => tx.call.Accepted? && tx.call.left != [] && tx.xid.Some?
         case EndAppend(t) => tx.call.Accepted? && tx.call.left == []
         case Commit(t) => tx.call.Idle?
         case Abort(t) => true
  }

  function With(db: Db, t: nat, tx: Tx): Db {
    db.(txs := db.txs[t := tx])
  }

  ghost function Apply(db: Db, a: Action): Db
    requires Enabled(db, a)
  {
    match a
    case Begin(t, command) => With(db, t, Tx(command, Running, None, None, [], {}, Idle, []))
    case AssignXid(t) =>
      With(db, t, db.txs[t].(xid := Some(db.nextXid))).(owners := db.owners[db.nextXid := t], nextXid := db.nextXid + 1)
    case TakeSnapshot(t, now) => With(db, t, db.txs[t].(snapshot := Some(now)))
    case RunRead(t, query, now, rows) =>
      var tx := db.txs[t];
      With(db, t, tx.(snapshot := None, loads := tx.loads + [Read(query, tx.snapshot.value, now.xmin, rows)]))
    case StartAppend(t, req) => With(db, t, db.txs[t].(call := Locking(req)))
    case TakeLock(t, l) => With(db, t, db.txs[t].(locks := db.txs[t].locks + {l}))
    // Several statements in the function, one for each item: they see the same rows (StoreInvariant.CheckSeesOneState).
    case Check(t) =>
      var tx := db.txs[t];
      var req := tx.call.request;
      With(db, t, if VerdictOf(db, tx.xid, req.condition) == Ok
                  then tx.(call := Accepted(req, req.events), appended := tx.appended + [req])
                  else tx.(call := Idle))
    case Insert(t) =>
      var tx := db.txs[t];
      With(db, t, tx.(call := tx.call.(left := tx.call.left[1..])))
        .(nextPos := db.nextPos + 1, rows := db.rows + {Row(tx.xid.value, db.nextPos, tx.call.left[0])})
    case EndAppend(t) => With(db, t, db.txs[t].(call := Idle))
    case Commit(t) => With(db, t, db.txs[t].(status := Committed, locks := {}))
    case Abort(t) => With(db, t, db.txs[t].(status := Aborted, locks := {}))
  }
}
