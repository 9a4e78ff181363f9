/** One tick of one instance over the batch it fetched, as it runs: the fence, the handler, the fence again, the cursor
    (packages/event-poller/src/EventProcessor.ts, `processWith`). */
module EventProcessor {
  import opened Options
  import opened LogPositions
  import opened Store
  import opened Processors
  import P = Progress

  /** What the handler does with a batch: all of it, nothing for good, or the first events for good. */
  datatype Handling = All | Fails(error: string) | HandledPrefix(count: nat, cause: string)

  /** What the tick answers. */
  datatype Tick = Processed(count: nat) | Superseded | LeadershipLost | Failed(error: string)

  function ErrorOf(h: Handling): string
    requires !h.All?
  {
    if h.Fails? then h.error else h.cause
  }

  class EventProcessor<V> {
    const processor: Processor<V>
    const tracker: P.PostgresProgressTracker
    const maxErrors: int
    /** The view's tables, for a processor that keeps one. */
    var view: V

    constructor (processor: Processor<V>, tracker: P.PostgresProgressTracker, maxErrors: int)
      ensures this.processor == processor && this.tracker == tracker && this.maxErrors == maxErrors
      ensures view == processor.initial
    {
      this.processor := processor;
      this.tracker := tracker;
      this.maxErrors := maxErrors;
      view := processor.initial;
    }

    /** Where the tick fetches from, or nothing when the processor is paused or failed. A row is there afterwards, at the
        start of the log if there was none. */
    method Start(instance: string) returns (from: Option<Cursor>)
      modifies tracker
      ensures from.None? <==> processor.id in old(tracker.rows) && old(tracker.rows)[processor.id].status != P.Active
      ensures from.None? ==> tracker.rows == old(tracker.rows)
      ensures from.Some? ==> tracker.rows == P.Registered(old(tracker.rows), processor.id, instance)
      ensures from.Some? ==> processor.id in tracker.rows && tracker.rows[processor.id].status == P.Active && tracker.rows[processor.id].cursor == from.value
      ensures from.Some? ==> from.value == P.CursorOf(old(tracker.rows), processor.id)
    {
      var status := tracker.GetStatus(processor.id);
      if status == P.Paused || status == P.Failed {
        return None;
      }
      tracker.AutoRegister(processor.id, instance);
      var cursor := tracker.GetCursor(processor.id);
      return Some(cursor);
    }

    /** Views: one transaction for the handler's writes and the cursor. Whatever fails, neither stays; an error is recorded
        after the rollback, and only the handler's. `leads` and `stillLeads` are what the two fences answer. */
    method AtomicBatch(from: Cursor, batch: seq<Row>, leads: bool, handling: Handling, stillLeads: bool) returns (tick: Tick)
      requires batch != []
      modifies this, tracker
      ensures var (table, after) := Committing(processor, old(tracker.rows), old(view), from, batch, Applied(processor, old(view), batch));
              match tick
              case Processed(n) =>
                n == |batch| && leads && handling.All? && stillLeads && view == after && tracker.rows == P.Cleared(table, processor.id)
                && P.CursorOf(old(tracker.rows), processor.id) == from && P.CursorOf(tracker.rows, processor.id) == batch[|batch| - 1].At()
              case Superseded =>
                leads && handling.All? && stillLeads && !(processor.id in old(tracker.rows) && old(tracker.rows)[processor.id].cursor == from)
                && view == old(view) && tracker.rows == old(tracker.rows)
              case LeadershipLost => (!leads || (handling.All? && !stillLeads)) && view == old(view) && tracker.rows == old(tracker.rows)
              case Failed(error) =>
                leads && !handling.All? && error == ErrorOf(handling)
                && view == old(view) && tracker.rows == P.Erred(old(tracker.rows), processor.id, error, maxErrors)
    {
      var before := view;
      if !leads {
        return LeadershipLost;
      }
      if !handling.All? {
        tracker.RecordError(processor.id, ErrorOf(handling), maxErrors);
        return Failed(ErrorOf(handling));
      }
      view := Applied(processor, view, batch);
      if !stillLeads {
        view := before;
        return LeadershipLost;
      }
      var moved := tracker.MoveCursor(processor.id, from, batch[|batch| - 1].At());
      if !moved {
        view := before;
        return Superseded;
      }
      tracker.ResetErrorCount(processor.id);
      return Processed(|batch|);
    }

    /** The outbox and the automations: what was handled stays handled. `delivered` is the number of the batch's events
        handled for good; the cursor moves to the last of them or not at all, and only from where the batch started. */
    method PlainBatch(from: Cursor, batch: seq<Row>, leads: bool, handling: Handling, stillLeads: bool) returns (tick: Tick, delivered: nat)
      requires batch != [] && (handling.HandledPrefix? ==> handling.count <= |batch|)
      modifies tracker
      ensures view == old(view)
      ensures delivered == if !leads || handling.Fails? then 0 else if handling.HandledPrefix? then handling.count else |batch|
      ensures tick != Superseded
      ensures var cursor := P.CursorOf(tracker.rows, processor.id);
              cursor == P.CursorOf(old(tracker.rows), processor.id)
              || (delivered > 0 && leads && stillLeads && P.CursorOf(old(tracker.rows), processor.id) == from && cursor == batch[delivered - 1].At())
      ensures tick.LeadershipLost? ==> (!leads || !stillLeads) && tracker.rows == old(tracker.rows)
      ensures tick.Processed? <==> leads && handling.All? && stillLeads
      ensures tick.Processed? ==> tracker.rows == P.Cleared(P.Moved(old(tracker.rows), processor.id, from, batch[|batch| - 1].At()), processor.id)
      ensures tick.Failed? ==> leads && !handling.All? && tick.error == ErrorOf(handling)
      ensures tick.Failed? ==>
                var moved := if delivered > 0 then P.Moved(old(tracker.rows), processor.id, from, batch[delivered - 1].At()) else old(tracker.rows);
                tracker.rows == P.Erred(moved, processor.id, tick.error, maxErrors)
    {
      delivered := 0;
      if !leads {
        return LeadershipLost, delivered;
      }
      match handling
      case Fails(error) =>
        tracker.RecordError(processor.id, error, maxErrors);
        return Failed(error), delivered;
      case HandledPrefix(count, cause) =>
        delivered := count;
        if count > 0 {
          if !stillLeads {
            return LeadershipLost, delivered;
          }
          var moved := tracker.MoveCursor(processor.id, from, batch[count - 1].At());
        }
        tracker.RecordError(processor.id, cause, maxErrors);
        return Failed(cause), delivered;
      case All =>
        delivered := |batch|;
        if !stillLeads {
          return LeadershipLost, delivered;
        }
        var moved := tracker.MoveCursor(processor.id, from, batch[|batch| - 1].At());
        tracker.ResetErrorCount(processor.id);
        return Processed(|batch|), delivered;
    }
  }
}
