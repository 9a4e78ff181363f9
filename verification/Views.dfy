/** The atomic path, of views: the handler's writes and the cursor move commit together or not at all
    (packages/event-poller/src/EventProcessor.ts, `atomicBatch`). */
module Views {
  import opened LogPositions
  import opened Store
  import opened StoreInvariant
  import opened StoreRuns
  import opened Pages
  import opened Processors
  import P = Progress
  import RS = ReadSnapshot

  /** Where an instance is in its tick. `Handled` is inside the transaction: the view it wrote, not yet committed. */
  datatype Instance<V> =
    | Resting
    | Ready(from: Cursor)
    | Fetched(from: Cursor, batch: seq<Row>)
    | Handled(from: Cursor, batch: seq<Row>, written: V)

  /** `done` is history: every event whose effect was committed, in the order it was. */
  datatype System<V> = System(db: Db, table: P.Table, view: V, instances: map<nat, Instance<V>>, done: seq<Row>)

  datatype Act =
    | StoreStep(a: Action)
    | Register(instance: string)
    | RecordError(error: string, maxErrors: int)
    | ResetErrors
    | SetStatus(status: P.Status)
    | ReadCursor(i: nat)
    | Fetch(i: nat, now: RS.Parts, limit: nat, batch: seq<Row>)
    | Handle(i: nat)
    | CommitBatch(i: nat)
    | Stop(i: nat)

  function InstanceOf<V>(s: System<V>, i: nat): Instance<V> {
    if i in s.instances then s.instances[i] else Resting
  }

  ghost predicate CanAct<V>(p: Processor<V>, s: System<V>, act: Act) {
    match act
    case StoreStep(a) => Enabled(s.db, a)
    case ReadCursor(i) => InstanceOf(s, i).Resting? && P.StatusOf(s.table, p.id).Active?
    case Fetch(i, now, limit, batch) =>
      InstanceOf(s, i).Ready? && batch != [] && IsPage(s.db, now, p.wants, InstanceOf(s, i).from, limit, batch)
    case Handle(i) => InstanceOf(s, i).Fetched?
    case CommitBatch(i) => InstanceOf(s, i).Handled? && InstanceOf(s, i).batch != []
    case _ => true
  }

  ghost function Does<V>(p: Processor<V>, s: System<V>, act: Act): System<V>
    requires CanAct(p, s, act)
  {
    match act
    case StoreStep(a) => s.(db := Apply(s.db, a))
    case Register(instance) => s.(table := P.Registered(s.table, p.id, instance))
    case RecordError(error, maxErrors) => s.(table := P.Erred(s.table, p.id, error, maxErrors))
    case ResetErrors => s.(table := P.Cleared(s.table, p.id))
    case SetStatus(status) => s.(table := P.WithStatus(s.table, p.id, status))
    case ReadCursor(i) => s.(instances := s.instances[i := Ready(P.CursorOf(s.table, p.id))])
    case Fetch(i, now, limit, batch) => s.(instances := s.instances[i := Fetched(InstanceOf(s, i).from, batch)])
    case Handle(i) =>
      var inst := InstanceOf(s, i);
      s.(instances := s.instances[i := Handled(inst.from, inst.batch, Applied(p, s.view, inst.batch))])
    case CommitBatch(i) =>
      var inst := InstanceOf(s, i);
      var rest := s.instances[i := Resting];
      var (table, view) := Committing(p, s.table, s.view, inst.from, inst.batch, inst.written);
      System(s.db, table, view, rest, if P.CursorOf(s.table, p.id) == inst.from && p.id in s.table then s.done + inst.batch else s.done)
    case Stop(i) => s.(instances := s.instances[i := Resting])
  }

  // ---- What every step keeps ----

  ghost predicate InstanceOk<V>(p: Processor<V>, s: System<V>, inst: Instance<V>) {
    var cursor := P.CursorOf(s.table, p.id);
    match inst
    case Resting => true
    case Ready(from) => from.AtOrBefore(cursor)
    case Fetched(from, batch) => from.AtOrBefore(cursor) && BatchOk(s.db, p, from, batch)
    case Handled(from, batch, written) =>
      from.AtOrBefore(cursor) && BatchOk(s.db, p, from, batch) && (from == cursor ==> written == Applied(p, s.view, batch))
  }

  ghost predicate ViewOk<V>(p: Processor<V>, s: System<V>) {
    var cursor := P.CursorOf(s.table, p.id);
    && Inv(s.db)
    && Closed(s.db, cursor)
    && Ordered(s.done) && (forall r :: r in s.done <==> UpTo(s.db, p, cursor, r))
    && s.view == Applied(p, p.initial, s.done)
    && forall i :: i in s.instances ==> InstanceOk(p, s, s.instances[i])
  }

  lemma StoreStepKeeps<V>(p: Processor<V>, s: System<V>, a: Action)
    requires ViewOk(p, s) && Enabled(s.db, a)
    ensures ViewOk(p, s.(db := Apply(s.db, a)))
  {
    var s' := s.(db := Apply(s.db, a));
    var cursor := P.CursorOf(s.table, p.id);
    StepKeepsInv(s.db, a);
    ClosedStays(s.db, a, cursor);
    forall r ensures r in s.done <==> UpTo(s'.db, p, cursor, r) {
      UpToStays(s.db, a, p, cursor, r);
    }
    forall i | i in s.instances ensures InstanceOk(p, s', s.instances[i]) {
      var inst := s.instances[i];
      assert InstanceOk(p, s, inst);
      if inst.Fetched? || inst.Handled? {
        BatchStays(s.db, a, p, inst.from, inst.batch);
      }
    }
  }

  lemma CommitKeeps<V>(p: Processor<V>, s: System<V>, i: nat)
    requires ViewOk(p, s) && InstanceOf(s, i).Handled? && InstanceOf(s, i).batch != []
    ensures ViewOk(p, Does(p, s, CommitBatch(i)))
  {
    var s' := Does(p, s, CommitBatch(i));
    var inst := InstanceOf(s, i);
    assert InstanceOk(p, s, inst);
    if p.id in s.table && s.table[p.id].cursor == inst.from {
      UpToExtends(s.db, p, inst.from, inst.batch, s.done);
      AppliedConcat(p, p.initial, s.done, inst.batch);
      var to := inst.batch[|inst.batch| - 1].At();
      forall j | j in s'.instances ensures InstanceOk(p, s', s'.instances[j]) {
        if j != i {
          assert InstanceOk(p, s, s.instances[j]);
          if !s.instances[j].Resting? {
            BeforeIsTransitive(s.instances[j].from, inst.from, to);
          }
        }
      }
    } else {
      forall j | j in s'.instances ensures InstanceOk(p, s', s'.instances[j]) {
        if j != i {
          assert InstanceOk(p, s, s.instances[j]);
        }
      }
    }
  }

  lemma StepKeepsView<V>(p: Processor<V>, s: System<V>, act: Act)
    requires ViewOk(p, s) && CanAct(p, s, act)
    ensures ViewOk(p, Does(p, s, act))
  {
    var s' := Does(p, s, act);
    match act
    case StoreStep(a) => StoreStepKeeps(p, s, a);
    case CommitBatch(i) => CommitKeeps(p, s, i);
    case Fetch(i, now, limit, batch) =>
      FetchedIsOk(s.db, p, now, InstanceOf(s, i).from, limit, batch);
      OthersKeep(p, s, s', i);
    case ReadCursor(i) => OthersKeep(p, s, s', i);
    case Handle(i) => OthersKeep(p, s, s', i);
    case Stop(i) => OthersKeep(p, s, s', i);
    case _ =>
      assert P.CursorOf(s'.table, p.id) == P.CursorOf(s.table, p.id);
      forall j | j in s'.instances ensures InstanceOk(p, s', s'.instances[j]) {
        assert InstanceOk(p, s, s.instances[j]);
      }
  }

  /** A step of one instance alone changes nothing the others rely on. */
  lemma OthersKeep<V>(p: Processor<V>, s: System<V>, s': System<V>, i: nat)
    requires ViewOk(p, s) && i in s'.instances && s' == s.(instances := s.instances[i := s'.instances[i]])
    requires InstanceOk(p, s', s'.instances[i])
    ensures ViewOk(p, s')
  {
    forall j | j in s'.instances ensures InstanceOk(p, s', s'.instances[j]) {
      if j != i {
        assert InstanceOk(p, s, s.instances[j]);
      }
    }
  }

  /** A tick starts where the row stands, or at the start of the log, and only for an active processor; its batch starts there,
      and its handler on the view as it is. */
  lemma TicksStartAtTheCursor<V>(p: Processor<V>, s: System<V>, act: Act)
    requires CanAct(p, s, act)
    ensures act.ReadCursor? ==>
              && (p.id in s.table ==> s.table[p.id].status.Active?)
              && Does(p, s, act).instances == s.instances[act.i := Ready(if p.id in s.table then s.table[p.id].cursor else Cursor(0, 0))]
    ensures act.Fetch? ==> InstanceOf(s, act.i).Ready? && Does(p, s, act).instances == s.instances[act.i := Fetched(InstanceOf(s, act.i).from, act.batch)]
    ensures act.Handle? ==>
              && InstanceOf(s, act.i).Fetched? && Does(p, s, act).view == s.view
              && Does(p, s, act).instances
                   == s.instances[act.i := Handled(InstanceOf(s, act.i).from, InstanceOf(s, act.i).batch, Applied(p, s.view, InstanceOf(s, act.i).batch))]
  {
  }

  // ---- Every run ----

  function Start<V>(p: Processor<V>): System<V> {
    System(EMPTY, map[], p.initial, map[], [])
  }

  ghost predicate IsRun<V>(p: Processor<V>, run: seq<System<V>>, acts: seq<Act>) {
    && |run| == |acts| + 1
    && run[0] == Start(p)
    && forall k :: 0 <= k < |acts| ==> CanAct(p, run[k], acts[k]) && run[k + 1] == Does(p, run[k], acts[k])
  }

  lemma {:induction false} EveryViewIsOk<V>(p: Processor<V>, run: seq<System<V>>, acts: seq<Act>, k: nat)
    requires IsRun(p, run, acts) && k < |run|
    ensures ViewOk(p, run[k])
  {
    if k > 0 {
      EveryViewIsOk(p, run, acts, k - 1);
      StepKeepsView(p, run[k - 1], acts[k - 1]);
    }
  }

  /** In every run of any number of instances: the view is the fold, in log order, of each selected event up to the stored
      cursor, applied once. */
  lemma ViewIsTheFold<V>(p: Processor<V>, run: seq<System<V>>, acts: seq<Act>, k: nat, upTo: seq<Row>)
    requires IsRun(p, run, acts) && k < |run|
    requires Ordered(upTo) && forall r :: r in upTo <==> UpTo(run[k].db, p, P.CursorOf(run[k].table, p.id), r)
    ensures run[k].view == Applied(p, p.initial, upTo)
    ensures run[k].done == upTo
  {
    EveryViewIsOk(p, run, acts, k);
    OrderIsUnique(upTo, run[k].done);
  }

  /** In every run, a view that keeps every row it is given holds exactly the selected events up to the stored cursor, in log
      order, each once. */
  lemma EveryEventOnce(p: Processor<seq<Row>>, run: seq<System<seq<Row>>>, acts: seq<Act>, k: nat)
    requires AppendsRows(p) && IsRun(p, run, acts) && k < |run|
    ensures Ordered(run[k].view) && forall r :: r in run[k].view <==> UpTo(run[k].db, p, P.CursorOf(run[k].table, p.id), r)
  {
    EveryViewIsOk(p, run, acts, k);
    AppliedIsAppended(p, p.initial, run[k].done);
    assert [] + run[k].done == run[k].done;
  }

  /** The cursor never moves back, and a batch moves it forward. */
  lemma CursorMovesForward<V>(p: Processor<V>, run: seq<System<V>>, acts: seq<Act>, k: nat)
    requires IsRun(p, run, acts) && k < |acts|
    ensures P.CursorOf(run[k].table, p.id).AtOrBefore(P.CursorOf(run[k + 1].table, p.id))
    ensures run[k].view != run[k + 1].view ==> P.CursorOf(run[k].table, p.id).Before(P.CursorOf(run[k + 1].table, p.id))
  {
    EveryViewIsOk(p, run, acts, k);
    if acts[k].CommitBatch? {
      var inst := InstanceOf(run[k], acts[k].i);
      assert InstanceOk(p, run[k], inst);
      assert inst.batch[|inst.batch| - 1] in inst.batch;
    }
  }
}
