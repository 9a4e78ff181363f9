/** The path of the outbox and the automations, whose effects cannot be rolled back: handled at least once, with the
    cursor moved after the fact (packages/event-poller/src/EventProcessor.ts). */
module Deliveries {
  import opened LogPositions
  import opened Store
  import opened StoreInvariant
  import opened StoreRuns
  import opened Pages
  import opened Processors
  import P = Progress
  import RS = ReadSnapshot

  /** `Sent`: the first `count` events of the batch were handled for good; all of them, or a handled prefix. */
  datatype Instance =
    | Resting
    | Ready(from: Cursor)
    | Fetched(from: Cursor, batch: seq<Row>)
    | Sent(from: Cursor, batch: seq<Row>, count: nat)

  datatype System = System(db: Db, table: P.Table, handled: set<Row>, instances: map<nat, Instance>)

  datatype Act =
    | StoreStep(a: Action)
    | Register(instance: string)
    | RecordError(error: string, maxErrors: int)
    | ResetErrors
    | SetStatus(status: P.Status)
    | ReadCursor(i: nat)
    | Fetch(i: nat, now: RS.Parts, limit: nat, batch: seq<Row>)
    | Handle(i: nat, count: nat)
    | MoveCursor(i: nat)
    | Stop(i: nat)

  function InstanceOf(s: System, i: nat): Instance {
    if i in s.instances then s.instances[i] else Resting
  }

  ghost predicate CanAct<V>(p: Processor<V>, s: System, act: Act) {
    match act
    case StoreStep(a) => Enabled(s.db, a)
    case ReadCursor(i) => InstanceOf(s, i).Resting? && P.StatusOf(s.table, p.id).Active?
    case Fetch(i, now, limit, batch) =>
      InstanceOf(s, i).Ready? && batch != [] && IsPage(s.db, now, p.wants, InstanceOf(s, i).from, limit, batch)
    case Handle(i, count) => InstanceOf(s, i).Fetched? && count <= |InstanceOf(s, i).batch|
    case MoveCursor(i) => InstanceOf(s, i).Sent? && 1 <= InstanceOf(s, i).count <= |InstanceOf(s, i).batch|
    case _ => true
  }

  ghost function Does<V>(p: Processor<V>, s: System, act: Act): System
    requires CanAct(p, s, act)
  {
    match act
    case StoreStep(a) => s.(db := Apply(s.db, a))
    case Register(instance) => s.(table := P.Registered(s.table, p.id, instance))
    case RecordError(error, maxErrors) => s.(table := P.Erred(s.table, p.id, error, maxErrors))
    case ResetErrors => s.(table := P.Cleared(s.table, p.id))
    case SetStatus(status) => s.(table := P.WithStatus(s.table, p.id, status))
    case ReadCursor(i) => s.(instances := s.instances[i := Ready(P.CursorOf(s.table, p.id))])
    case Fetch(i, now, limit, batch) => s.(instances := s.instances[i := Fetched(InstanceOf(s, i).from, batch)])
    case Handle(i, count) =>
      var inst := InstanceOf(s, i);
      s.(instances := s.instances[i := Sent(inst.from, inst.batch, count)], handled := s.handled + (set r | r in inst.batch[..count]))
    case MoveCursor(i) =>
      var inst := InstanceOf(s, i);
      s.(instances := s.instances[i := Resting], table := P.Moved(s.table, p.id, inst.from, inst.batch[inst.count - 1].At()))
    case Stop(i) => s.(instances := s.instances[i := Resting])
  }

  ghost predicate InstanceOk<V>(p: Processor<V>, s: System, inst: Instance) {
    match inst
    case Resting => true
    case Ready(from) => true
    case Fetched(from, batch) => BatchOk(s.db, p, from, batch)
    case Sent(from, batch, count) => BatchOk(s.db, p, from, batch) && count <= |batch| && forall r :: r in batch[..count] ==> r in s.handled
  }

  ghost predicate DeliveryOk<V>(p: Processor<V>, s: System) {
    var cursor := P.CursorOf(s.table, p.id);
    && Inv(s.db)
    && Closed(s.db, cursor)
    && (forall r :: UpTo(s.db, p, cursor, r) ==> r in s.handled)
    && forall i :: i in s.instances ==> InstanceOk(p, s, s.instances[i])
  }

  /** A handled prefix is everything up to its last event. */
  lemma PrefixIsUpTo<V>(db: Db, p: Processor<V>, from: Cursor, batch: seq<Row>, count: nat)
    requires BatchOk(db, p, from, batch) && 1 <= count <= |batch|
    ensures var to := batch[count - 1].At();
            from.Before(to) && Closed(db, to)
            && forall r :: UpTo(db, p, to, r) ==> UpTo(db, p, from, r) || r in batch[..count]
  {
    var to := batch[count - 1].At();
    assert batch[count - 1] in batch;
    LastIsHighest(batch, batch[count - 1]);
    forall r | UpTo(db, p, to, r) && !UpTo(db, p, from, r) ensures r in batch[..count] {
      assert UpTo(db, p, batch[|batch| - 1].At(), r);
      var k :| 0 <= k < |batch| && batch[k] == r;
      assert k >= count ==> to.Before(batch[k].At());
      assert batch[..count][k] == r;
    }
  }

  lemma StepKeepsDelivery<V>(p: Processor<V>, s: System, act: Act)
    requires DeliveryOk(p, s) && CanAct(p, s, act)
    ensures DeliveryOk(p, Does(p, s, act))
    ensures P.CursorOf(s.table, p.id).AtOrBefore(P.CursorOf(Does(p, s, act).table, p.id))
  {
    match act
    case StoreStep(a) => StoreStepKeeps(p, s, a);
    case MoveCursor(i) => MoveKeeps(p, s, i);
    case Fetch(_, _, _, _) => FetchKeeps(p, s, act);
    case ReadCursor(i) => OthersKeep(p, s, Does(p, s, act), i);
    case Handle(i, _) => HandleKeeps(p, s, act);
    case Stop(i) => OthersKeep(p, s, Does(p, s, act), i);
    case _ => TableKeeps(p, s, act);
  }

  lemma MoveKeeps<V>(p: Processor<V>, s: System, i: nat)
    requires DeliveryOk(p, s) && CanAct(p, s, MoveCursor(i))
    ensures DeliveryOk(p, Does(p, s, MoveCursor(i)))
    ensures P.CursorOf(s.table, p.id).AtOrBefore(P.CursorOf(Does(p, s, MoveCursor(i)).table, p.id))
  {
    var s' := Does(p, s, MoveCursor(i));
    assert InstanceOk(p, s, InstanceOf(s, i)) && AllHandled(s.db, p, s.handled, P.CursorOf(s.table, p.id));
    HandledUpTo(p, s, InstanceOf(s, i));
    MovesOrStays(p, s, i);
    OthersKeep(p, s, s', i);
  }

  lemma MovesOrStays<V>(p: Processor<V>, s: System, i: nat)
    requires CanAct(p, s, MoveCursor(i))
    ensures var inst, cursor := InstanceOf(s, i), P.CursorOf(Does(p, s, MoveCursor(i)).table, p.id);
            cursor == P.CursorOf(s.table, p.id) || (P.CursorOf(s.table, p.id) == inst.from && cursor == inst.batch[inst.count - 1].At())
  {
  }

  /** Where an instance would move the cursor to, if it is still where the batch started. */
  lemma HandledUpTo<V>(p: Processor<V>, s: System, inst: Instance)
    requires InstanceOk(p, s, inst) && AllHandled(s.db, p, s.handled, P.CursorOf(s.table, p.id)) && inst.Sent? && 1 <= inst.count <= |inst.batch|
    ensures var to := inst.batch[inst.count - 1].At();
            && Closed(s.db, to) && inst.from.Before(to)
            && (P.CursorOf(s.table, p.id) == inst.from ==> AllHandled(s.db, p, s.handled, to))
  {
    PrefixIsHandled(s.db, p, s.handled, inst.from, inst.batch, inst.count);
  }

  ghost predicate AllHandled<V>(db: Db, p: Processor<V>, handled: set<Row>, to: Cursor) {
    forall r :: UpTo(db, p, to, r) ==> r in handled
  }

  lemma PrefixIsHandled<V>(db: Db, p: Processor<V>, handled: set<Row>, from: Cursor, batch: seq<Row>, count: nat)
    requires BatchOk(db, p, from, batch) && 1 <= count <= |batch| && forall r :: r in batch[..count] ==> r in handled
    ensures var to := batch[count - 1].At();
            Closed(db, to) && from.Before(to) && (AllHandled(db, p, handled, from) ==> AllHandled(db, p, handled, to))
  {
    PrefixIsUpTo(db, p, from, batch, count);
  }

  lemma FetchKeeps<V>(p: Processor<V>, s: System, act: Act)
    requires DeliveryOk(p, s) && act.Fetch? && CanAct(p, s, act)
    ensures DeliveryOk(p, Does(p, s, act)) && Does(p, s, act).table == s.table
  {
    FetchedIsOk(s.db, p, act.now, InstanceOf(s, act.i).from, act.limit, act.batch);
    OthersKeep(p, s, Does(p, s, act), act.i);
  }

  lemma HandleKeeps<V>(p: Processor<V>, s: System, act: Act)
    requires DeliveryOk(p, s) && act.Handle? && CanAct(p, s, act)
    ensures DeliveryOk(p, Does(p, s, act)) && Does(p, s, act).table == s.table
  {
    assert InstanceOk(p, s, InstanceOf(s, act.i));
    OthersKeep(p, s, Does(p, s, act), act.i);
  }

  /** A statement on the row that leaves the cursor alone. */
  lemma TableKeeps<V>(p: Processor<V>, s: System, act: Act)
    requires DeliveryOk(p, s) && (act.Register? || act.RecordError? || act.ResetErrors? || act.SetStatus?)
    ensures DeliveryOk(p, Does(p, s, act)) && P.CursorOf(s.table, p.id) == P.CursorOf(Does(p, s, act).table, p.id)
  {
    AllKeep(p, s, Does(p, s, act));
  }

  lemma AllKeep<V>(p: Processor<V>, s: System, s': System)
    requires DeliveryOk(p, s) && s'.db == s.db && s.handled <= s'.handled && s'.instances == s.instances
    ensures forall j :: j in s'.instances ==> InstanceOk(p, s', s'.instances[j])
  {
    forall j | j in s'.instances ensures InstanceOk(p, s', s'.instances[j]) {
      assert InstanceOk(p, s, s.instances[j]);
    }
  }

  lemma StoreStepKeeps<V>(p: Processor<V>, s: System, a: Action)
    requires DeliveryOk(p, s) && Enabled(s.db, a)
    ensures DeliveryOk(p, s.(db := Apply(s.db, a)))
  {
    var s' := s.(db := Apply(s.db, a));
    var cursor := P.CursorOf(s.table, p.id);
    StepKeepsInv(s.db, a);
    ClosedStays(s.db, a, cursor);
    forall r | UpTo(s'.db, p, cursor, r) ensures r in s.handled {
      UpToStays(s.db, a, p, cursor, r);
    }
    forall i | i in s.instances ensures InstanceOk(p, s', s.instances[i]) {
      var inst := s.instances[i];
      assert InstanceOk(p, s, inst);
      if inst.Fetched? || inst.Sent? {
        BatchStays(s.db, a, p, inst.from, inst.batch);
      }
    }
  }

  lemma OthersKeep<V>(p: Processor<V>, s: System, s': System, i: nat)
    requires DeliveryOk(p, s) && s'.db == s.db && s.handled <= s'.handled
    requires i in s'.instances && s'.instances == s.instances[i := s'.instances[i]] && InstanceOk(p, s', s'.instances[i])
    ensures forall j :: j in s'.instances ==> InstanceOk(p, s', s'.instances[j])
  {
    forall j | j in s'.instances ensures InstanceOk(p, s', s'.instances[j]) {
      if j != i {
        assert InstanceOk(p, s, s.instances[j]);
      }
    }
  }

  ghost predicate IsRun<V>(p: Processor<V>, run: seq<System>, acts: seq<Act>) {
    && |run| == |acts| + 1
    && run[0] == System(EMPTY, map[], {}, map[])
    && forall k :: 0 <= k < |acts| ==> CanAct(p, run[k], acts[k]) && run[k + 1] == Does(p, run[k], acts[k])
  }

  lemma {:induction false} EveryDeliveryIsOk<V>(p: Processor<V>, run: seq<System>, acts: seq<Act>, k: nat)
    requires IsRun(p, run, acts) && k < |run|
    ensures DeliveryOk(p, run[k])
  {
    if k > 0 {
      EveryDeliveryIsOk(p, run, acts, k - 1);
      StepKeepsDelivery(p, run[k - 1], acts[k - 1]);
    }
  }

  /** In every run, with handlers that stop part-way and instances that compete: every selected event at or before the
      cursor was handled. */
  lemma AtLeastOnce<V>(p: Processor<V>, run: seq<System>, acts: seq<Act>, k: nat, r: Row)
    requires IsRun(p, run, acts) && k < |run|
    requires IsCommitted(run[k].db, r) && p.wants(r.event) && r.At().AtOrBefore(P.CursorOf(run[k].table, p.id))
    ensures r in run[k].handled
  {
    EveryDeliveryIsOk(p, run, acts, k);
    assert UpTo(run[k].db, p, P.CursorOf(run[k].table, p.id), r);
  }

  /** A tick starts where the row stands, or at the start of the log, and only for an active processor; what it handled moves
      the cursor to the last of those events, if the row is still there. */
  lemma TicksMoveTheCursor<V>(p: Processor<V>, s: System, act: Act)
    requires CanAct(p, s, act)
    ensures act.ReadCursor? ==>
              && (p.id in s.table ==> s.table[p.id].status.Active?)
              && Does(p, s, act).instances == s.instances[act.i := Ready(if p.id in s.table then s.table[p.id].cursor else Cursor(0, 0))]
    ensures act.Fetch? ==> InstanceOf(s, act.i).Ready? && Does(p, s, act).instances == s.instances[act.i := Fetched(InstanceOf(s, act.i).from, act.batch)]
    ensures act.MoveCursor? && p.id in s.table ==>
              var sent, row := InstanceOf(s, act.i), s.table[p.id];
              sent.Sent? && Does(p, s, act).table == s.table[p.id := if row.cursor == sent.from then row.(cursor := sent.batch[sent.count - 1].At()) else row]
  {
  }

  /** Handling counts the first events of the batch, as many as were handled, and no other. */
  lemma HandlesExactly<V>(p: Processor<V>, s: System, i: nat, count: nat, r: Row)
    requires CanAct(p, s, Handle(i, count))
    ensures r in Does(p, s, Handle(i, count)).handled
            <==> r in s.handled || exists n :: 0 <= n < count && InstanceOf(s, i).batch[n] == r
  {
    var first := InstanceOf(s, i).batch[..count];
    if r in first {
      var n :| 0 <= n < |first| && first[n] == r;
      assert InstanceOf(s, i).batch[n] == r;
    }
    if n :| 0 <= n < count && InstanceOf(s, i).batch[n] == r {
      assert first[n] == r;
    }
  }

  lemma NewlyHandled<V>(p: Processor<V>, s: System, act: Act, r: Row)
    requires DeliveryOk(p, s) && CanAct(p, s, act) && r !in s.handled && r in Does(p, s, act).handled
    ensures Does(p, s, act).db == s.db && IsCommitted(s.db, r) && p.wants(r.event)
  {
    assert act.Handle?;
    assert InstanceOk(p, s, InstanceOf(s, act.i));
    HandlesExactly(p, s, act.i, act.count, r);
    var n :| 0 <= n < act.count && InstanceOf(s, act.i).batch[n] == r;
    assert InstanceOf(s, act.i).batch[n] in InstanceOf(s, act.i).batch;
  }

  /** And nothing is handled that was not committed and selected. */
  lemma {:induction false} HandledWasSelected<V>(p: Processor<V>, run: seq<System>, acts: seq<Act>, k: nat, r: Row)
    requires IsRun(p, run, acts) && k < |run| && r in run[k].handled
    ensures IsCommitted(run[k].db, r) && p.wants(r.event)
  {
    if k > 0 {
      EveryDeliveryIsOk(p, run, acts, k - 1);
      var s, act := run[k - 1], acts[k - 1];
      if r in s.handled {
        HandledWasSelected(p, run, acts, k - 1, r);
        if act.StoreStep? {
          StepIsLater(s.db, act.a);
        }
      } else {
        NewlyHandled(p, s, act, r);
      }
    }
  }

  /** And the cursor never moves back. */
  lemma CursorMovesForward<V>(p: Processor<V>, run: seq<System>, acts: seq<Act>, k: nat)
    requires IsRun(p, run, acts) && k < |acts|
    ensures P.CursorOf(run[k].table, p.id).AtOrBefore(P.CursorOf(run[k + 1].table, p.id))
  {
    EveryDeliveryIsOk(p, run, acts, k);
    StepKeepsDelivery(p, run[k], acts[k]);
  }
}
