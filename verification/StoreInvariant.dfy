/** What every step of the store keeps, and so holds in every reachable state of any number of transactions. */
module StoreInvariant {
  import opened Options
  import opened Events
  import opened WriterLocks
  import opened Store
  import RS = ReadSnapshot

  // ---- What every step keeps ----

  ghost predicate XidsOk(db: Db) {
    && db.nextXid >= 1 && db.nextPos >= 1
    && (forall x :: x in db.owners <==> 1 <= x < db.nextXid)
    && (forall x :: x in db.owners ==> db.owners[x] in db.txs && db.txs[db.owners[x]].xid == Some(x))
    && (forall t :: t in db.txs && db.txs[t].xid.Some? ==> db.txs[t].xid.value in db.owners && db.owners[db.txs[t].xid.value] == t)
  }

  ghost predicate Appended(tx: Tx, e: Event) {
    exists req :: req in tx.appended && e in req.events
  }

  ghost predicate RowsOk(db: Db) {
    && (forall r :: r in db.rows ==> 1 <= r.pos < db.nextPos && r.xid in db.owners && db.owners[r.xid] in db.txs
                                     && Appended(db.txs[db.owners[r.xid]], r.event))
    && (forall r, q :: r in db.rows && q in db.rows && r.pos == q.pos ==> r == q)
  }

  ghost predicate LocksOk(db: Db) {
    forall t :: IsRunning(db, t) ==>
      && (forall l :: l in db.txs[t].locks ==> Free(db, t, l))
      && (forall req :: req in db.txs[t].appended ==> Needed(req) <= db.txs[t].locks)
  }

  ghost predicate CallOk(tx: Tx) {
    && (tx.call.Accepted? ==> tx.call.request in tx.appended && forall e :: e in tx.call.left ==> e in tx.call.request.events)
    && (tx.command ==>
          && |tx.appended| <= 1
          && (tx.xid.Some? ==> tx.appended != [])
          && (tx.xid.None? && tx.appended != [] ==> tx.call.Accepted? && tx.call.left == tx.call.request.events != []))
          && (tx.call.Locking? ==> tx.command ==> tx.appended == [] && tx.xid.None?)
          && (tx.call.Locking? ==> tx.call.request.events != [])
  }

  ghost predicate CallsOk(db: Db) {
    forall t :: t in db.txs ==> CallOk(db.txs[t])
  }

  /** What a snapshot saw finished stays finished; it sees its own transaction too. */
  ghost predicate SnapshotOk(db: Db, own: Option<nat>, p: RS.Parts) {
    RS.WellFormed(p) && forall x :: x >= 1 && RS.Sees(p, x) ==> Finished(db, x) || own == Some(x)
  }

  predicate MustReturn(tx: Tx, read: Read, r: Row) {
    r.xid < read.settledBelow || (RS.Sees(read.seen, r.xid) && (tx.command || tx.xid != Some(r.xid)))
  }

  /** A read of the transaction `tx`: it returned every committed row of its query that its snapshot saw, or that was
      settled when it ran, then and ever after; but for rows of its own, which it may write later (a command has no id yet
      when it reads). */
  ghost predicate ReadOk(db: Db, tx: Tx, read: Read) {
    && SnapshotOk(db, if tx.command then None else tx.xid, read.seen)
    && Ordered(read.rows)
    && (forall x :: 1 <= x < read.settledBelow ==> Finished(db, x))
    && (forall r | IsCommitted(db, r) && QueryMatches(read.query, r.event) :: MustReturn(tx, read, r) ==> r in read.rows)
    && (forall r :: r in read.rows ==>
          && Visible(db, tx.xid, r) && QueryMatches(read.query, r.event)
          && (tx.command ==> IsCommitted(db, r) && (tx.xid.Some? ==> r.xid < tx.xid.value)))
  }

  ghost predicate ReadsOk(db: Db) {
    forall t :: t in db.txs ==>
      && (db.txs[t].snapshot.Some? ==> SnapshotOk(db, db.txs[t].xid, db.txs[t].snapshot.value))
      && forall read :: read in db.txs[t].loads ==> ReadOk(db, db.txs[t], read)
  }

  /** No committed row refuses the condition of an append already accepted. */
  ghost predicate StillHolds(db: Db, req: Request) {
    forall r :: IsCommitted(db, r) ==> !Conflicts(req.condition, None, r) && !ConditionMatches(req.condition.idempotency, r.event)
  }

  ghost predicate HoldsOk(db: Db) {
    forall t, req :: IsRunning(db, t) && req in db.txs[t].appended ==> StillHolds(db, req)
  }

  /** Of two committed appends, at most one was allowed to ignore the other: the second found the first. */
  ghost predicate Finds(db: Db, x: nat, req: Request) {
    exists r :: r in db.rows && r.xid == x && ConditionMatches(req.condition.idempotency, r.event)
  }

  ghost predicate ExclusiveOnce(db: Db, x: nat, y: nat)
    requires HasStatus(db, x, Committed) && HasStatus(db, y, Committed)
  {
    forall r, q :: r in db.txs[db.owners[x]].appended && q in db.txs[db.owners[y]].appended ==> !(Finds(db, x, q) && Finds(db, y, r))
  }

  ghost predicate OnceOk(db: Db) {
    forall x, y :: x != y && HasStatus(db, x, Committed) && HasStatus(db, y, Committed) ==> ExclusiveOnce(db, x, y)
  }

  /** Among commands, a lower transaction id with a row the append's condition covers was committed before the check. */
  ghost predicate Precedes(db: Db, low: Tx, high: Request) {
    && (low.status == Running ==> forall e :: Appended(low, e) ==> !ConditionMatches(high.condition.concurrency, e))
    && (forall r :: IsCommitted(db, r) && Some(r.xid) == low.xid ==> !Conflicts(high.condition, None, r))
  }

  predicate IsBefore(low: Tx, high: Tx) {
    low.command && high.command && low.xid.Some? && high.xid.Some? && low.xid.value < high.xid.value
  }

  ghost predicate OrderOk(db: Db) {
    forall t, u | t in db.txs && u in db.txs && IsBefore(db.txs[u], db.txs[t]) ::
      forall req :: req in db.txs[t].appended ==> Precedes(db, db.txs[u], req)
  }

  ghost predicate Inv(db: Db) {
    && XidsOk(db) && RowsOk(db) && LocksOk(db) && CallsOk(db) && ReadsOk(db)
    && HoldsOk(db) && OnceOk(db) && OrderOk(db)
  }

  // ---- Time passing: what a later state keeps of an earlier one ----

  ghost predicate Later(db: Db, db': Db) {
    && db.nextXid <= db'.nextXid
    && db.rows <= db'.rows
    && (forall x, s :: s != Running && HasStatus(db, x, s) ==> HasStatus(db', x, s))
    && (forall r :: r in db'.rows && r !in db.rows ==> !Finished(db, r.xid))
    && (forall t :: t in db.txs && db.txs[t].status != Running ==> t in db'.txs && db'.txs[t] == db.txs[t])
  }

  lemma LaterIsTransitive(a: Db, b: Db, c: Db)
    requires Later(a, b) && Later(b, c)
    ensures Later(a, c)
  {
    forall r | r in c.rows && r !in a.rows ensures !Finished(a, r.xid) {
      if Finished(a, r.xid) {
        assert Finished(b, r.xid);
      }
    }
  }

  lemma StepIsLater(db: Db, a: Action)
    requires XidsOk(db) && Enabled(db, a)
    ensures Later(db, Apply(db, a))
  {
  }

  lemma StepKeepsXids(db: Db, a: Action)
    requires XidsOk(db) && Enabled(db, a)
    ensures XidsOk(Apply(db, a))
  {
    var db' := Apply(db, a);
    forall x | x in db'.owners ensures db'.owners[x] in db'.txs && db'.txs[db'.owners[x]].xid == Some(x) {
      OwnerHasTheId(db, a, x);
    }
    forall t | t in db'.txs && db'.txs[t].xid.Some? ensures db'.txs[t].xid.value in db'.owners && db'.owners[db'.txs[t].xid.value] == t {
      IdHasTheOwner(db, a, t);
    }
  }

  lemma OwnerHasTheId(db: Db, a: Action, x: nat)
    requires XidsOk(db) && Enabled(db, a) && x in Apply(db, a).owners
    ensures var db' := Apply(db, a); db'.owners[x] in db'.txs && db'.txs[db'.owners[x]].xid == Some(x)
  {
  }

  lemma IdHasTheOwner(db: Db, a: Action, t: nat)
    requires XidsOk(db) && Enabled(db, a) && t in Apply(db, a).txs && Apply(db, a).txs[t].xid.Some?
    ensures var db' := Apply(db, a); db'.txs[t].xid.value in db'.owners && db'.owners[db'.txs[t].xid.value] == t
  {
  }

  lemma StepKeepsCalls(db: Db, a: Action)
    requires CallsOk(db) && Enabled(db, a)
    ensures CallsOk(Apply(db, a))
  {
  }

  lemma StepKeepsRows(db: Db, a: Action)
    requires XidsOk(db) && RowsOk(db) && CallsOk(db) && Enabled(db, a)
    ensures RowsOk(Apply(db, a))
  {
    var db' := Apply(db, a);
    forall r | r in db'.rows
      ensures 1 <= r.pos < db'.nextPos && r.xid in db'.owners && db'.owners[r.xid] in db'.txs
      ensures Appended(db'.txs[db'.owners[r.xid]], r.event)
    {
      if r in db.rows {
        OldRowStays(db, a, r);
      } else {
        NewRowIsAppended(db, a, r);
      }
    }
    PositionsStayApart(db, a);
  }

  lemma OldRowStays(db: Db, a: Action, r: Row)
    requires XidsOk(db) && RowsOk(db) && Enabled(db, a) && r in db.rows
    ensures var db' := Apply(db, a);
            1 <= r.pos < db'.nextPos && r.xid in db'.owners && db'.owners[r.xid] in db'.txs && Appended(db'.txs[db'.owners[r.xid]], r.event)
  {
    var req :| req in db.txs[db.owners[r.xid]].appended && r.event in req.events;
    assert req in Apply(db, a).txs[db.owners[r.xid]].appended;
  }

  lemma NewRowIsAppended(db: Db, a: Action, r: Row)
    requires XidsOk(db) && CallsOk(db) && Enabled(db, a) && r in Apply(db, a).rows && r !in db.rows
    ensures var db' := Apply(db, a);
            1 <= r.pos < db'.nextPos && r.xid in db'.owners && db'.owners[r.xid] in db'.txs && Appended(db'.txs[db'.owners[r.xid]], r.event)
  {
    assert a == Insert(a.t) && CallOk(db.txs[a.t]);
    assert db.txs[a.t].call.request in Apply(db, a).txs[a.t].appended;
    assert r.event in db.txs[a.t].call.left;
  }

  lemma PositionsStayApart(db: Db, a: Action)
    requires RowsOk(db) && Enabled(db, a)
    ensures forall r, q :: r in Apply(db, a).rows && q in Apply(db, a).rows && r.pos == q.pos ==> r == q
  {
  }

  lemma StepKeepsLocks(db: Db, a: Action)
    requires LocksOk(db) && CallsOk(db) && Enabled(db, a)
    ensures LocksOk(Apply(db, a))
  {
    var db' := Apply(db, a);
    forall t, l | IsRunning(db', t) && l in db'.txs[t].locks ensures Free(db', t, l) {
      forall u, m | IsRunning(db', u) && u != t && m in db'.txs[u].locks ensures !Excludes(l, m) {
        LocksStayApart(db, a, t, l, u, m);
      }
    }
    forall t, req | IsRunning(db', t) && req in db'.txs[t].appended ensures Needed(req) <= db'.txs[t].locks {
      NeededStayHeld(db, a, t, req);
    }
  }

  lemma NeededStayHeld(db: Db, a: Action, t: nat, req: Request)
    requires LocksOk(db) && Enabled(db, a) && IsRunning(Apply(db, a), t) && req in Apply(db, a).txs[t].appended
    ensures Needed(req) <= Apply(db, a).txs[t].locks
  {
    if a.Check? && t == a.t && req == db.txs[t].call.request {
    } else {
      assert IsRunning(db, t) && req in db.txs[t].appended;
    }
  }

  lemma LocksStayApart(db: Db, a: Action, t: nat, l: Lock<Key>, u: nat, m: Lock<Key>)
    requires LocksOk(db) && Enabled(db, a) && t != u
    requires IsRunning(Apply(db, a), t) && l in Apply(db, a).txs[t].locks
    requires IsRunning(Apply(db, a), u) && m in Apply(db, a).txs[u].locks
    ensures !Excludes(l, m)
  {
    assert t != a.t || !a.Begin?;
    assert u != a.t || !a.Begin?;
    assert IsRunning(db, t) && IsRunning(db, u);
    if l !in db.txs[t].locks {
      assert Free(db, t, l) && m in db.txs[u].locks;
    } else if m !in db.txs[u].locks {
      assert Free(db, u, m) && l in db.txs[t].locks;
      assert !Excludes(m, l);
    } else {
      assert Free(db, t, l) && m in db.txs[u].locks;
    }
  }

  /** A transaction's row that another transaction's accepted condition covers cannot be committed under it: the two
      hold locks that exclude each other. */
  lemma NoPeerMatches(db: Db, t: nat, u: nat, req: Request, e: Event)
    requires LocksOk(db) && IsRunning(db, t) && IsRunning(db, u) && t != u
    requires Needed(req) <= db.txs[t].locks && Appended(db.txs[u], e)
    ensures !ConditionMatches(req.condition.concurrency, e) && !ConditionMatches(req.condition.idempotency, e)
  {
    if ConditionMatches(req.condition.concurrency, e) {
      var a, b := MatchingLocks(db.txs[u], db.txs[t].locks, req, e, req.condition.concurrency);
      assert false;
    }
    if ConditionMatches(req.condition.idempotency, e) {
      var a, b := MatchingLocks(db.txs[u], db.txs[t].locks, req, e, req.condition.idempotency);
      assert false;
    }
  }

  lemma MatchingLocks(writer: Tx, held: set<Lock<Key>>, req: Request, e: Event, q: Query) returns (a: Lock<Key>, b: Lock<Key>)
    requires Appended(writer, e) && forall r :: r in writer.appended ==> Needed(r) <= writer.locks
    requires Needed(req) <= held
    requires q in {req.condition.concurrency, req.condition.idempotency} && ConditionMatches(q, e)
    ensures a in writer.locks && b in held && Excludes(a, b)
  {
    ConditionIsExcluded(e, q);
    a, b :| a in EventLocks(e) && b in QueryLocks(q) && Excludes(a, b);
    var other :| other in writer.appended && e in other.events;
    assert a in Needed(other) && b in Needed(req);
  }

  lemma StepKeepsHolds(db: Db, a: Action)
    requires XidsOk(db) && RowsOk(db) && LocksOk(db) && HoldsOk(db) && Enabled(db, a)
    ensures HoldsOk(Apply(db, a))
  {
    var db' := Apply(db, a);
    forall t, req, r | IsRunning(db', t) && req in db'.txs[t].appended && IsCommitted(db', r)
      ensures !Conflicts(req.condition, None, r) && !ConditionMatches(req.condition.idempotency, r.event)
    {
      RowStaysHarmless(db, a, t, req, r);
    }
  }

  /** One committed row and one accepted append: found by the check, harmless before, or of a peer that just committed. */
  lemma RowStaysHarmless(db: Db, a: Action, t: nat, req: Request, r: Row)
    requires XidsOk(db) && RowsOk(db) && LocksOk(db) && HoldsOk(db) && Enabled(db, a)
    requires IsRunning(Apply(db, a), t) && req in Apply(db, a).txs[t].appended && IsCommitted(Apply(db, a), r)
    ensures !Conflicts(req.condition, None, r) && !ConditionMatches(req.condition.idempotency, r.event)
  {
    if a.Check? && t == a.t && req !in db.txs[t].appended {
      CheckedIsHarmless(db, a, req, r);
    } else if IsCommitted(db, r) {
      WasAccepted(db, a, t, req);
      assert StillHolds(db, req);
    } else {
      WasAccepted(db, a, t, req);
      PeerCommitted(db, a, t, r);
      NoPeerMatches(db, t, a.t, req, r.event);
    }
  }

  lemma CheckedIsHarmless(db: Db, a: Action, req: Request, r: Row)
    requires XidsOk(db) && a.Check? && Enabled(db, a) && IsCommitted(Apply(db, a), r)
    requires req in Apply(db, a).txs[a.t].appended && req !in db.txs[a.t].appended
    ensures !Conflicts(req.condition, None, r) && !ConditionMatches(req.condition.idempotency, r.event)
  {
    assert Visible(db, db.txs[a.t].xid, r);
  }

  lemma WasAccepted(db: Db, a: Action, t: nat, req: Request)
    requires Enabled(db, a) && IsRunning(Apply(db, a), t) && req in Apply(db, a).txs[t].appended
    requires !(a.Check? && t == a.t && req !in db.txs[t].appended)
    ensures IsRunning(db, t) && req in db.txs[t].appended
  {
  }

  lemma PeerCommitted(db: Db, a: Action, t: nat, r: Row)
    requires XidsOk(db) && RowsOk(db) && Enabled(db, a) && IsRunning(Apply(db, a), t)
    requires IsCommitted(Apply(db, a), r) && !IsCommitted(db, r)
    ensures a.t != t && IsRunning(db, a.t) && Appended(db.txs[a.t], r.event)
  {
    assert a == Commit(a.t);
    assert r in db.rows && db.owners[r.xid] == a.t;
  }

  // ---- The check, statement by statement ----

  /** An append that has its locks and not yet its verdict. */
  ghost predicate IsChecking(db: Db, t: nat) {
    IsRunning(db, t) && db.txs[t].call.Locking? && Needed(db.txs[t].call.request) <= db.txs[t].locks
  }

  ghost predicate ChecksFor(req: Request, e: Event) {
    ConditionMatches(req.condition.concurrency, e) || ConditionMatches(req.condition.idempotency, e)
  }

  /** While an append that has its locks checks item by item, no step of another transaction makes a row visible that its
      condition is about: every statement of the check sees the same, so they answer together as one. */
  lemma CheckSeesOneState(db: Db, a: Action, t: nat, r: Row)
    requires XidsOk(db) && RowsOk(db) && LocksOk(db) && Enabled(db, a) && IsChecking(db, t) && a.t != t
    requires ChecksFor(db.txs[t].call.request, r.event)
    ensures IsChecking(Apply(db, a), t) && Apply(db, a).txs[t] == db.txs[t]
    ensures Visible(Apply(db, a), db.txs[t].xid, r) <==> Visible(db, db.txs[t].xid, r)
  {
    OtherTxStays(db, a, t);
    if IsCommitted(Apply(db, a), r) && !IsCommitted(db, r) {
      PeerCommitted(db, a, t, r);
      NoPeerMatches(db, t, a.t, db.txs[t].call.request, r.event);
      assert false;
    }
    FinishedRowOrNew(db, a, r);
  }

  lemma OtherTxStays(db: Db, a: Action, t: nat)
    requires Enabled(db, a) && t in db.txs && a.t != t
    ensures t in Apply(db, a).txs && Apply(db, a).txs[t] == db.txs[t]
  {
  }

  lemma FinishedRowOrNew(db: Db, a: Action, r: Row)
    requires XidsOk(db) && Enabled(db, a)
    ensures IsCommitted(db, r) ==> IsCommitted(Apply(db, a), r)
    ensures r in Apply(db, a).rows && r !in db.rows ==> db.txs[a.t].xid == Some(r.xid)
    ensures r in db.rows ==> r in Apply(db, a).rows
  {
    StepIsLater(db, a);
  }

  lemma VerdictStays(db: Db, a: Action, t: nat)
    requires XidsOk(db) && RowsOk(db) && LocksOk(db) && Enabled(db, a) && IsChecking(db, t) && a.t != t
    ensures var tx := db.txs[t]; VerdictOf(Apply(db, a), tx.xid, tx.call.request.condition) == VerdictOf(db, tx.xid, tx.call.request.condition)
  {
    var req := db.txs[t].call.request;
    forall r: Row | ChecksFor(req, r.event) ensures Visible(Apply(db, a), db.txs[t].xid, r) <==> Visible(db, db.txs[t].xid, r) {
      CheckSeesOneState(db, a, t, r);
    }
    SameRowsSameVerdict(db, Apply(db, a), db.txs[t].xid, req);
  }

  /** An append that must be its transaction's first write, and every command's, is refused once the transaction has an id. */
  lemma AppendComesFirst(db: Db, t: nat, req: Request)
    requires t in db.txs && (db.txs[t].command || req.condition.firstWrite) && db.txs[t].xid.Some?
    ensures !Enabled(db, StartAppend(t, req))
  {
  }

  /** Its own earlier events never refuse an append: under a cursor with a transaction id, when nothing else that is visible
      matches, there is no conflict. */
  lemma OwnEventsNeverRefuse(db: Db, own: nat, c: Condition)
    requires c.after.xid.Some?
    requires forall r :: Visible(db, Some(own), r) && ConditionMatches(c.concurrency, r.event) ==> r.xid == own
    ensures VerdictOf(db, Some(own), c) != Conflict
  {
  }

  lemma SameRowsSameVerdict(db: Db, db': Db, own: Option<nat>, req: Request)
    requires forall r: Row :: ChecksFor(req, r.event) ==> (Visible(db', own, r) <==> Visible(db, own, r))
    ensures VerdictOf(db', own, req.condition) == VerdictOf(db, own, req.condition)
  {
    forall r: Row ensures Visible(db', own, r) && Conflicts(req.condition, own, r) <==> Visible(db, own, r) && Conflicts(req.condition, own, r) {
    }
  }

  /** The rows of a finished transaction id are all there. */
  lemma FindsStays(db: Db, a: Action, x: nat, q: Request)
    requires XidsOk(db) && Enabled(db, a) && Finished(db, x)
    ensures Finds(Apply(db, a), x, q) ==> Finds(db, x, q)
  {
    StepIsLater(db, a);
  }

  lemma HeldMeansNotFound(db: Db, x: nat, q: Request)
    requires StillHolds(db, q) && HasStatus(db, x, Committed)
    ensures !Finds(db, x, q)
  {
  }

  lemma StepKeepsOnce(db: Db, a: Action)
    requires XidsOk(db) && HoldsOk(db) && OnceOk(db) && Enabled(db, a)
    ensures OnceOk(Apply(db, a))
  {
    var db' := Apply(db, a);
    forall x, y | x != y && HasStatus(db', x, Committed) && HasStatus(db', y, Committed)
      ensures ExclusiveOnce(db', x, y)
    {
      CommittedOnce(db, a, x, y);
    }
  }

  lemma CommittedOnce(db: Db, a: Action, x: nat, y: nat)
    requires XidsOk(db) && HoldsOk(db) && OnceOk(db) && Enabled(db, a)
    requires x != y && HasStatus(Apply(db, a), x, Committed) && HasStatus(Apply(db, a), y, Committed)
    ensures ExclusiveOnce(Apply(db, a), x, y)
  {
    var db' := Apply(db, a);
    forall r, q | r in db'.txs[db'.owners[x]].appended && q in db'.txs[db'.owners[y]].appended
      ensures !(Finds(db', x, q) && Finds(db', y, r))
    {
      if HasStatus(db, x, Committed) {
        FindsStays(db, a, x, q);
        if HasStatus(db, y, Committed) {
          FindsStays(db, a, y, r);
          assert ExclusiveOnce(db, x, y);
        } else {
          HeldMeansNotFound(db, x, q);
        }
      } else {
        FindsStays(db, a, y, r);
        HeldMeansNotFound(db, y, r);
      }
    }
  }

  lemma StepKeepsOrder(db: Db, a: Action)
    requires XidsOk(db) && RowsOk(db) && CallsOk(db) && LocksOk(db) && HoldsOk(db) && OrderOk(db) && Enabled(db, a)
    ensures OrderOk(Apply(db, a))
  {
    var db' := Apply(db, a);
    forall t, u, req | t in db'.txs && u in db'.txs && IsBefore(db'.txs[u], db'.txs[t]) && req in db'.txs[t].appended
      ensures Precedes(db', db'.txs[u], req)
    {
      PairStaysOrdered(db, a, t, u, req);
    }
  }

  lemma PairStaysOrdered(db: Db, a: Action, t: nat, u: nat, req: Request)
    requires XidsOk(db) && RowsOk(db) && CallsOk(db) && LocksOk(db) && HoldsOk(db) && OrderOk(db) && Enabled(db, a)
    requires t in Apply(db, a).txs && u in Apply(db, a).txs
    requires IsBefore(Apply(db, a).txs[u], Apply(db, a).txs[t]) && req in Apply(db, a).txs[t].appended
    ensures Precedes(Apply(db, a), Apply(db, a).txs[u], req)
  {
    if a.AssignXid? && t == a.t {
      FirstWriteStaysAfter(db, a, u, req);
    } else {
      WasBefore(db, a, t, u, req);
      assert Precedes(db, db.txs[u], req);
      PrecedesStays(db, a, u, req);
    }
  }

  lemma FirstWriteStaysAfter(db: Db, a: Action, u: nat, req: Request)
    requires XidsOk(db) && RowsOk(db) && CallsOk(db) && LocksOk(db) && HoldsOk(db) && a.AssignXid? && Enabled(db, a)
    requires u in Apply(db, a).txs && IsBefore(Apply(db, a).txs[u], Apply(db, a).txs[a.t]) && req in Apply(db, a).txs[a.t].appended
    ensures Precedes(Apply(db, a), Apply(db, a).txs[u], req)
  {
    assert u != a.t && db.txs[u] == Apply(db, a).txs[u];
    FirstWriteComesAfter(db, a.t, u, req);
    PrecedesStays(db, a, u, req);
  }

  lemma WasBefore(db: Db, a: Action, t: nat, u: nat, req: Request)
    requires XidsOk(db) && CallsOk(db) && Enabled(db, a) && !(a.AssignXid? && t == a.t)
    requires t in Apply(db, a).txs && u in Apply(db, a).txs
    requires IsBefore(Apply(db, a).txs[u], Apply(db, a).txs[t]) && req in Apply(db, a).txs[t].appended
    ensures t in db.txs && u in db.txs && IsBefore(db.txs[u], db.txs[t]) && req in db.txs[t].appended
  {
    CommandWas(db, a, t);
    NewIdIsHighest(db, a, t, u);
    CommandWas(db, a, u);
  }

  /** A command that has an id, and did not get it in this step, has what it appended since before. */
  lemma CommandWas(db: Db, a: Action, t: nat)
    requires CallsOk(db) && Enabled(db, a) && !(a.AssignXid? && t == a.t)
    requires t in Apply(db, a).txs && Apply(db, a).txs[t].xid.Some? && Apply(db, a).txs[t].command
    ensures t in db.txs && db.txs[t].command && db.txs[t].xid == Apply(db, a).txs[t].xid && db.txs[t].appended == Apply(db, a).txs[t].appended
  {
    assert t in db.txs ==> CallOk(db.txs[t]);
  }

  lemma NewIdIsHighest(db: Db, a: Action, t: nat, u: nat)
    requires XidsOk(db) && Enabled(db, a) && t in db.txs && db.txs[t].xid.Some? && u in Apply(db, a).txs
    requires Apply(db, a).txs[u].xid.Some? && Apply(db, a).txs[u].xid.value < db.txs[t].xid.value
    ensures !(a.AssignXid? && u == a.t)
  {
  }

  /** When a command's append takes the transaction id, every lower id is either out of the way or already found. */
  lemma FirstWriteComesAfter(db: Db, t: nat, u: nat, req: Request)
    requires XidsOk(db) && LocksOk(db) && HoldsOk(db) && t != u
    requires IsRunning(db, t) && req in db.txs[t].appended && u in db.txs
    ensures Precedes(db, db.txs[u], req)
  {
    assert StillHolds(db, req);
    if IsRunning(db, u) {
      forall e | Appended(db.txs[u], e) ensures !ConditionMatches(req.condition.concurrency, e) {
        NoPeerMatches(db, t, u, req, e);
      }
    }
  }

  lemma PrecedesStays(db: Db, a: Action, u: nat, req: Request)
    requires XidsOk(db) && RowsOk(db) && CallsOk(db) && Enabled(db, a)
    requires u in db.txs && db.txs[u].command && db.txs[u].xid.Some? && Precedes(db, db.txs[u], req)
    ensures Precedes(Apply(db, a), Apply(db, a).txs[u], req)
  {
    var db' := Apply(db, a);
    assert db'.txs[u].appended == db.txs[u].appended;
    assert db'.txs[u].status == Running ==> db.txs[u].status == Running;
    forall r | IsCommitted(db', r) && Some(r.xid) == db'.txs[u].xid
      ensures !Conflicts(req.condition, None, r)
    {
      if !IsCommitted(db, r) {
        assert a == Commit(u);
        assert Appended(db.txs[u], r.event);
      }
    }
  }

  lemma StepKeepsReads(db: Db, a: Action)
    requires XidsOk(db) && RowsOk(db) && CallsOk(db) && ReadsOk(db) && Enabled(db, a)
    ensures ReadsOk(Apply(db, a))
  {
    var db' := Apply(db, a);
    forall t | t in db'.txs
      ensures db'.txs[t].snapshot.Some? ==> SnapshotOk(db', db'.txs[t].xid, db'.txs[t].snapshot.value)
    {
      SnapshotStays(db, a, t);
    }
    forall t, read | t in db'.txs && read in db'.txs[t].loads
      ensures ReadOk(db', db'.txs[t], read)
    {
      if t in db.txs && read in db.txs[t].loads {
        assert ReadOk(db, db.txs[t], read);
        ReadStays(db, a, t, read);
      } else {
        NewRead(db, a);
      }
    }
  }

  lemma SnapshotStays(db: Db, a: Action, t: nat)
    requires XidsOk(db) && ReadsOk(db) && Enabled(db, a) && t in Apply(db, a).txs
    ensures var tx := Apply(db, a).txs[t]; tx.snapshot.Some? ==> SnapshotOk(Apply(db, a), tx.xid, tx.snapshot.value)
  {
    FinishedStays(db, a);
    if a.TakeSnapshot? && t == a.t {
      SettledIsFinished(db, db.txs[t].xid, a.now);
    } else if t in db.txs && Apply(db, a).txs[t].snapshot.Some? {
      IdStays(db, a, t);
      OldSnapshot(db, a, t);
      SnapshotIsLater(db, Apply(db, a), db.txs[t].xid, Apply(db, a).txs[t].xid, db.txs[t].snapshot.value);
    }
  }

  lemma OldSnapshot(db: Db, a: Action, t: nat)
    requires Enabled(db, a) && t in db.txs && !(a.TakeSnapshot? && t == a.t) && Apply(db, a).txs[t].snapshot.Some?
    ensures db.txs[t].snapshot == Apply(db, a).txs[t].snapshot
  {
  }

  lemma SnapshotIsLater(db: Db, later: Db, own: Option<nat>, own': Option<nat>, p: RS.Parts)
    requires SnapshotOk(db, own, p) && (own.Some? ==> own' == own) && forall x: nat :: Finished(db, x) ==> Finished(later, x)
    ensures SnapshotOk(later, own', p)
  {
  }

  lemma NewRead(db: Db, a: Action)
    requires XidsOk(db) && CallsOk(db) && ReadsOk(db) && a.RunRead? && Enabled(db, a)
    ensures var tx := Apply(db, a).txs[a.t]; ReadOk(Apply(db, a), tx, tx.loads[|tx.loads| - 1])
  {
    var db' := Apply(db, a);
    SettledIsFinished(db, db.txs[a.t].xid, a.now);
  }

  /** Below a snapshot's xmin everything has finished; it sees what has, and itself. */
  lemma SettledIsFinished(db: Db, own: Option<nat>, now: RS.Parts)
    requires XidsOk(db) && TakenIn(db, own, now)
    ensures forall x :: 1 <= x < now.xmin ==> Finished(db, x)
    ensures forall x :: x >= 1 ==> (RS.Sees(now, x) <==> Finished(db, x) || (own == Some(x) && x < now.xmax))
  {
  }

  lemma ReadStays(db: Db, a: Action, t: nat, read: Read)
    requires XidsOk(db) && CallsOk(db) && Enabled(db, a)
    requires t in db.txs && ReadOk(db, db.txs[t], read)
    ensures ReadOk(Apply(db, a), Apply(db, a).txs[t], read)
  {
    var db' := Apply(db, a);
    FinishedStays(db, a);
    forall x | 1 <= x < read.settledBelow ensures Finished(db', x) {
      assert Finished(db, x);
    }
    forall r | r in read.rows
      ensures Visible(db', db'.txs[t].xid, r) && QueryMatches(read.query, r.event)
      ensures db'.txs[t].command ==> IsCommitted(db', r) && (db'.txs[t].xid.Some? ==> r.xid < db'.txs[t].xid.value)
    {
      ReturnedRowStays(db, a, t, read, r);
    }
    forall r | IsCommitted(db', r) && QueryMatches(read.query, r.event) && MustReturn(db'.txs[t], read, r)
      ensures r in read.rows
    {
      CoveredRowWasThere(db, a, t, read, r);
    }
  }

  lemma FinishedStays(db: Db, a: Action)
    requires XidsOk(db) && Enabled(db, a)
    ensures forall x: nat :: Finished(db, x) ==> Finished(Apply(db, a), x)
  {
    StepIsLater(db, a);
  }

  lemma ReturnedRowStays(db: Db, a: Action, t: nat, read: Read, r: Row)
    requires XidsOk(db) && CallsOk(db) && Enabled(db, a)
    requires t in db.txs && ReadOk(db, db.txs[t], read) && r in read.rows
    ensures var db' := Apply(db, a); var tx := db'.txs[t];
            Visible(db', tx.xid, r) && (tx.command ==> IsCommitted(db', r) && (tx.xid.Some? ==> r.xid < tx.xid.value))
  {
    assert Visible(db, db.txs[t].xid, r);
    FinishedRowStays(db, a, r);
    IdStays(db, a, t);
  }

  lemma FinishedRowStays(db: Db, a: Action, r: Row)
    requires XidsOk(db) && Enabled(db, a) && r in db.rows
    ensures r in Apply(db, a).rows && (IsCommitted(db, r) ==> IsCommitted(Apply(db, a), r) && r.xid < db.nextXid)
  {
    StepIsLater(db, a);
  }

  lemma IdStays(db: Db, a: Action, t: nat)
    requires Enabled(db, a) && t in db.txs
    ensures var tx := Apply(db, a).txs[t];
            && tx.command == db.txs[t].command
            && (tx.xid == db.txs[t].xid || (db.txs[t].xid.None? && tx.xid == Some(db.nextXid)))
  {
  }

  lemma CoveredRowWasThere(db: Db, a: Action, t: nat, read: Read, r: Row)
    requires XidsOk(db) && Enabled(db, a) && t in db.txs && ReadOk(db, db.txs[t], read)
    requires IsCommitted(Apply(db, a), r) && QueryMatches(read.query, r.event)
    requires MustReturn(Apply(db, a).txs[t], read, r)
    ensures r in read.rows
  {
    StepIsLater(db, a);
    IdStays(db, a, t);
    assert r.xid in Apply(db, a).owners;
    assert r.xid >= 1 by {
      StepKeepsXids(db, a);
    }
    assert Finished(db, r.xid);
    assert IsCommitted(db, r);
  }
}
