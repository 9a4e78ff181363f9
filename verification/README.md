# The event store's protocols, in Dafny

A model of the concurrency protocols of this event store, with proofs of what they promise. `dafny verify dfyconfig.toml`
checks the whole project.

**The store** (`Store`, `StoreInvariant`, `StoreRuns`, `Journal`, `WriterLocks`). Postgres is a step machine. Any number of
transactions are interleaved statement by statement: a transaction takes its id at its first write; a row takes its position
from a sequence of its own, so the two orders can invert; a snapshot is taken in a state and lists what was running; an
append takes its writer locks one at a time, checks its condition, inserts row by row, and keeps the locks to the end of its
transaction; rows become visible to others at the commit. The locks are not an assumption: their keys are those of
`crablet_writer_lock_keys`, and `NoPeerMatches` and its companions derive from them that no other open transaction can hold
an event a checked condition matches. Eight invariants hold in every reachable state of every run.

**Commands** (`Commands`, `CommandRuns`, `Conditions`, `Projection`, `DirectUse`, `ByModel`). What a command read (its model, every member
of `all`, the reads of a period's turn, every lookup of `resolve`) is a tree of reads; the handler makes one condition of
it. Proved over every run: an accepted strict append means that the committed events of every query that was read are those
the read returned; accepted strict commands stand in the log, by transaction id, as if they had run one after the other; an
append is refused only for an event one of the reads could not see; a repeat under `byModel()` finds nothing to do, and of
two racing ones at most one appends.

**Models and periods** (`Models`, `Completion`, `Periods`, `PeriodRuns`, `PeriodLoads`, `ClosedPeriods`, `UnboundClosings`,
`FastPath`, `PeriodLevels`, `Calendar`). The derived boundary query matches exactly the events a model's entries are bound
to; which completed events are read back is stated exactly; an entity's openings and closings alternate whatever the clocks
say; no command is accepted into a period that was closed, exactly when the closing is bound; the keys of every level sort
in time.

**Readers and processors** (`Pages`, `Progress`, `Processors`, `Views`, `Deliveries`, `EventProcessor`). Pages and streams
of settled events miss nothing; a view is the fold of each event up to its cursor, once; an outbox or an automation handles
every event at least once. Any number of instances run at any time: fences and leadership are not relied on.

**Leadership** (`Leadership`, `LeaderSessions`, `Lease`). The session machine of one process, and the object that performs
its steps; the timing of the lease over real numbers.

**Formats** (`ReadSnapshot`, `TagCodec`, `NotifyPayload`, `Personal`, `Text`).

Conventions. An event's data is text nothing looks into; `decide`, `apply`, `open` and `close` are function parameters, so
every statement holds for any of them. A `lemma` over a `run` speaks of every interleaving from the empty store. Code that
updates things in place is a class or a method with loops, tied by its `ensures` to the function the lemmas are about.
`OneByOne`, `FirstCommand` and `FirstPeriod` build runs, so that the statements about runs are known not to be empty.
Where the code and its own documentation differ, the model follows the code; the differences are under "Left out".

## Model

| member | source | states |
|---|---|---|
| WriterLocks.MatchIsExcluded | packages/db-migrations/sql/V2__crablet_append.sql:13-19 | an event that an item matches and an append that relies on the item always ask for one key that the two cannot hold together |
| WriterLocks.LocksMeetExactly | packages/db-migrations/sql/V2__crablet_append.sql:13-19 | and no other event queues behind an item: the two meet exactly when the item asks for any type, or for the event's type and no tag, or for one of its tags |
| WriterLocks.EventsMeetExactly | packages/db-migrations/sql/V2__crablet_append.sql:17 | two events queue for each other exactly when they are of one type and share a tag |
| WriterLocks.ConditionIsExcluded | packages/db-migrations/sql/V2__crablet_append.sql:40-83 | the same for whole conditions, `all()` included, as they are sent to the function |
| WriterLocks.HashingKeepsExclusion | packages/db-migrations/sql/V2__crablet_append.sql:34-83 | hashing the keys and merging equal hashes keeps the exclusion, for any hash with any collisions |
| WriterLocks.OneProceeds | packages/db-migrations/sql/V7__crablet_event_metadata.sql:101-109 | appends that take their keys in one sorted order cannot deadlock: of any set of them, one waits for none of the others |
| StoreInvariant.StepKeepsHolds | packages/db-migrations/sql/V6__crablet_append_sees_the_read.sql:20-55 | from its check until it ends, no row that commits refuses the condition of an accepted append |
| StoreInvariant.StepKeepsOrder | packages/commands/src/CommandExecutor.ts:177-191 | among commands, a transaction with a lower id can no longer commit anything a higher one's accepted condition covers |
| StoreInvariant.StepKeepsReads | packages/eventstore/src/EventStore.ts:241-245 | a read that took its snapshot first has every committed row its snapshot saw and every settled one, then and ever after, but for rows its own transaction writes later |
| StoreInvariant.OwnEventsNeverRefuse | packages/db-migrations/sql/V6__crablet_append_sees_the_read.sql:38-41 | a transaction's own earlier events never refuse its append |
| StoreInvariant.AppendComesFirst | packages/db-migrations/sql/V7__crablet_event_metadata.sql:94-99 | a command's append, and any that must be its transaction's first write, is refused once the transaction has an id |
| StoreInvariant.VerdictStays | packages/db-migrations/sql/V7__crablet_event_metadata.sql:112-120 | while an append that has its locks runs the statements of its check, no step of another transaction changes what they answer, so the check is one step |
| StoreRuns.EveryStateIsOk | packages/db-migrations/sql/V7__crablet_event_metadata.sql:67-205 | all invariants hold in every state of every run |
| StoreRuns.SettledIsFinal | packages/eventstore/src/internal/sql.ts:248-281 | with ids and positions in opposite orders and commits in any order, the committed rows below a snapshot's xmin never change again |
| Journal.AppendsAreWhole | packages/db-migrations/sql/V7__crablet_event_metadata.sql:140-205 | in every run, a committed transaction's rows in log order are the events of its accepted appends, whole, in order, none twice |
| Events.UnionMatches | packages/eventstore/src/Query.ts:40-41 | a condition on a union refuses exactly what one of its queries would refuse |
| Events.ReadAndConditionAgree | packages/eventstore/src/spec/Spec.ts:26-33 | a query reads and conditions on the same events exactly when it is not the query without items |
| ReadSnapshot.ParseFormat | packages/eventstore/src/ReadSnapshot.ts:20-27 | a snapshot printed and parsed comes back |
| ReadSnapshot.ParsesTheFields | packages/eventstore/src/ReadSnapshot.ts:20-25 | of a text of three fields the first is read as xmin, the second as xmax, the third as the running ids |
| ReadSnapshot.IntersectSeesBoth | packages/eventstore/src/ReadSnapshot.ts:35-44 | the intersection of two is well formed, its ids sorted and distinct, and it sees exactly what both see |
| ReadSnapshot.IntersectAllSeesAll | packages/eventstore/src/ReadSnapshot.ts:46-51 | of any list, through the texts: a transaction is seen exactly when every member sees it; one missing member makes the result absent, and nothing else does |
| Projection.Project | packages/eventstore/src/EventStore.ts:247-274 | the row loop folds every row through every projector that handles it, its cursor is the last settled row, `latest` the last row, and the first row that cannot be read stops it and is named |
| Projection.ProjectorsSeeTheirTypes | packages/eventstore/src/EventStore.ts:247-274 | a projector sees, from its initial state, the rows of the types it lists (of every type when it lists none), in order |
| Projection.ProjectorsTakeTurns | packages/eventstore/src/EventStore.ts:247-274 | several see each row one after the other |
| Projection.LatestIsTheLast | packages/eventstore/src/EventStore.ts:264-270 | `latest` is the last row of the result, settled or not |
| Projection.CursorIsTheLastSettled | packages/eventstore/src/EventStore.ts:264-270 | in a result in log order, the rows at or before the cursor are exactly the settled ones |
| CommandProofs.LoadOneCovers | packages/eventstore/src/EventStore.ts:232-275 | a load's query, cursor, horizon and snapshot skip nothing its read could have missed, exactly when its query is not the one without items |
| CommandProofs.LoadAllCovers | packages/commands/src/Model.ts:464-504 | loads put together, with the union of the queries, the earliest horizon and what all saw, still skip nothing any member could have missed |
| CommandProofs.LoadTurnCovers | packages/commands/src/Model.ts:342-354 | the same for the two or three reads of a period's turn, put together step by step |
| CommandProofs.PlanCovers | packages/commands/src/Model.ts:461-505 | the same for any nesting of `all` over models and turns, for every read in it |
| CommandProofs.PlanSees | packages/commands/src/Model.ts:474-475 | what a load says it saw is exactly what every one of its reads saw |
| CommandProofs.AppendGuards | packages/commands/src/Command.ts:316-349 | the condition the handler builds, strict or guarding, passes over nothing any read could have missed; it is about everything every read matched when it is strict, and what the lookups matched when it is a guard |
| Conditions.StrictExactly | packages/commands/src/Command.ts:333-339 | when an append is strict: by choice or for want of one, because it turns a period, or because a lookup is of a type it appends; when that is refused for want of a read; and when the key is |
| Conditions.GuardedExactly | packages/commands/src/Command.ts:340-346 | when it is guarded instead, and when a guard is refused: without a read, about everything, or about a type it appends |
| Conditions.CommutesExactly | packages/commands/src/Command.ts:347-349 | when it commutes with everything: neither |
| Conditions.RequestsItsEvents | packages/commands/src/Command.ts:320-350 | the request: the turn's events ahead of the command's own, its key, the first write of its transaction |
| Conditions.StrictIsAboutItsReads | packages/commands/src/Command.ts:338-339 | a strict condition is about exactly the events some query the command read matches |
| Conditions.GuardIsAboutItsGuards | packages/commands/src/Command.ts:344-346 | a guard is about exactly those that the guard the command gave, the guard of its period, or the query of some lookup matches |
| Conditions.OnlyTheUnseenCount | packages/commands/src/Command.ts:326-327 | of both, exactly the events that one of the reads could not see count |
| Conditions.CursorIsTheReads | packages/commands/src/Command.ts:322-325 | their cursor is the last settled row of a lone read, or lies at the oldest transaction that was running at any of the reads |
| CommandRuns.AcceptedIsCurrent | packages/commands/src/Command.ts:316-339 | in every run, from the acceptance of a strict append to its commit, reading any query the command read gives the same rows in the same order |
| CommandRuns.GuardHolds | packages/commands/src/CommandDecision.ts:69-90 | in every run, from the acceptance of a guarded or strict append to its commit, every committed event its condition is about (a lifecycle event, the closing of a period, what a lookup matched) was seen by each of its reads, and returned by those whose query matches it |
| Conditions.GivenGuardHolds | packages/commands/src/Command.ts:344-346 | in every run, from the acceptance of a guarded append to its commit, every committed event that the guard the command gave matches was seen by each of its reads, or was settled when it ran |
| CommandRuns.CommandsAreSerial | packages/commands/src/CommandExecutor.ts:177-191 | in every run, a committed strict command read exactly the matching events of the commands with lower transaction ids: commands are serialisable in log order |
| CommandRuns.GuardHoldsInLogOrder | packages/commands/src/CommandExecutor.ts:177-191 | the same for a committed command and what the commands with lower transaction ids committed |
| CommandProofs.ReadsComeBefore | packages/commands/src/CommandExecutor.ts:178-179 | a command's events come in the log after every event it read, whoever wrote it |
| CommandRuns.CommittedHasXid | packages/db-migrations/sql/V7__crablet_event_metadata.sql:94-99 | in every run, a command that appended and committed has a transaction id, taken by that append |
| CommandRuns.SeenForExact | packages/commands/src/Command.ts:326-327 | the condition's snapshot, parsed back, sees exactly what every read of the command saw |
| CommandRuns.RefusedForTheUnseen | packages/eventstore/src/AppendCondition.ts:16-19 | a strict append is refused as a conflict only for a committed event of its boundary that one of its reads could not see |
| CommandRuns.UncontestedIsAccepted | packages/commands/src/Command.ts:322-339 | in every run, when all the boundary matches was committed before the first snapshot, the append is not refused, whatever stays open elsewhere |
| CommandRuns.GuardIgnoresOwnTypes | packages/commands/src/CommandDecision.ts:69-90 | a guard counts no event of a type the command appends exactly when each of its items names a type |
| CommandRuns.KeyIsSpentOnce | packages/commands/src/CommandDecision.ts:60-67 | in every run, two commits under one idempotency query that both match it are one commit |
| Conditions.OneAttemptPerKey | packages/commands/src/Command.ts:247-263 | in every run, two committed attempts with one key, each of which appended an event it matches, are one |
| CommandRuns.RepeatIsADuplicate | packages/commands/src/CommandDecision.ts:60-67 | in every run, once an event the key matches is committed, an append with that key is answered as a repeat, whatever else it conflicts with |
| FirstCommand.ACommandAppends | packages/commands/src/Command.ts:316-339 | there are runs in which a strict command reads, is accepted, and commits: the statements about runs are not empty |
| DirectUse.DecisionIsCurrent | packages/eventstore/src/EventStore.ts:399-423 | in every run, an accepted append after `readToDecide`, in the same or another transaction, wherever that stands, finds committed exactly what that read returned, the reader's own rows aside |
| DirectUse.DecisionIsOnItsQuery | packages/eventstore/src/AppendCondition.ts:44-54 | the condition is on the query that was read, with the caller's key |
| DirectUse.RefusedExactlyForWhatCameSince | packages/eventstore/src/AppendCondition.ts:44-54 | in every run it is refused exactly for a matching event that was committed since the read's snapshot and was not settled when the read ran, unless it is the reader's own, of an id the snapshot knew |
| Models.QueryOf | packages/commands/src/Model.ts:112-129 | the derived query matches exactly the events some entry is bound to (its type, one of its keys with the id, its scope unless it is a lifecycle entry), and every item names a type |
| Models.ReadsExactly | packages/commands/src/Model.ts:114-128 | that is: of the entry's type, with one of the entry's keys, or else the model's, in lower case and the entity's id, and all tags of the scope unless it is a lifecycle entry |
| Completion.LoadIsTheProjection | packages/commands/src/Model.ts:420-442 | a model's load is the store's projection of its boundary, with the last entry of a type as its handler |
| Completion.LoadsRunTheHandlers | packages/commands/src/Model.ts:420-442 | a load's state: initial without rows, and for each further row the last entry of its type applied to it, a lifecycle entry or not; unchanged without one |
| Completion.WritesRunTheHandlers | packages/commands/src/Model.ts:137-146 | a write's fold: the last entry of each event's type applied to it exactly when the query matches it |
| Completion.ModelLoads | packages/commands/src/Model.ts:420-442 | and its row loop ends with that state and the cursor the command's condition is built from |
| Completion.WriteFoldIsLoadFold | packages/commands/src/Model.ts:137-146 | the fold of events about to be appended equals the fold of a load that returns them after what was read |
| Completion.CompleteOnlyAdds | packages/commands/src/Model.ts:153-168 | completing keeps every tag and adds only scope tags under keys the event lacked |
| Completion.ConflictsAreNamed | packages/commands/src/Model.ts:162-164 | the conflicts are the texts of exactly those tags of the scope whose key the event has with other values only |
| Completion.CompletedIsReadBack | packages/commands/src/Model.ts:155-166 | an event the boundary binds to the entity is read back through its handler's entry, once completed, exactly when that is a lifecycle entry, or it had the whole scope, or it carried a key as the model writes it and completing found no conflict |
| Completion.AboutInLowerCase | packages/commands/src/Model.ts:160-161 | for tags as they are made, completing recognises an event only through the keys the model writes in lower case |
| Completion.UpperCaseKeysAreNotCompleted | packages/commands/src/Model.ts:114-161 | so with the key `W` an event tagged `w` is bound by the boundary, left as it is without a conflict, and never read back |
| Completion.CompletedIsSeen | packages/commands/src/Model.ts:114-129 | under the same condition the model's boundary query matches it, and only then when its type has one entry |
| Completion.CompletedIsReadByEveryMember | packages/commands/src/Model.ts:488-493 | in `all`, an event completed without conflicts is read back by a member whose boundary binds it exactly when that member's entry is a lifecycle entry, or it carried a key as that member writes it, or it has the member's scope in the end |
| Completion.CompleteOwn | packages/commands/src/Command.ts:284-299 | the handler's loop completes every decided event, or stops at the first that cannot be read back and names its conflicts |
| ByModel.WriteFoldIsTheNextLoad | packages/commands/src/Command.ts:301-314 | in every run, the states folded in memory at a write are those of a load that returns what was read and what was appended |
| ByModel.RepeatIsNoop | packages/commands/src/Command.ts:301-314 | in every run, a repeat of a command that appended, when nothing else wrote its boundary, decides that there is nothing to do |
| ByModel.AtMostOneAppends | packages/commands/src/Command.ts:118-126 | in every run, two runs of the same request that both appended are one transaction, when nothing else wrote their boundary |
| Periods.Load | packages/commands/src/Model.ts:294-361 | the load of a period decides in the open period, or in a later one it turns to, with the condition of all its reads; never in an earlier one, and it dies only when its reads contradict each other, a closed period would be opened again, or a turn's event lacks a tag |
| Periods.LoadsExactly | packages/commands/src/Model.ts:317-360 | which it answers: the open period exactly when its own read or that of the period the log leaves open says so; a turn exactly towards a later period, or a first one that was not closed, with events that carry their tags |
| Periods.OpenPeriodIsGuarded | packages/commands/src/Model.ts:308-323 | an open period's state is the fold of its read, and its guard is about exactly the entity's closings of that period |
| Periods.TurnCarriesOver | packages/commands/src/Model.ts:342-360 | a turn from the open period closes it and opens the target with one state, the fold of the old period's read; a first opening is made of the target's own; each event carries its tags, and the state loaded is the opening's handler on the target's rows |
| Periods.TrackingExactly | packages/commands/src/Model.ts:259-274 | the tracking finds a period open exactly when it was opened and after that neither another opened nor it closed |
| Periods.Turn | packages/commands/src/Model.ts:342-360 | a turn closes the open period with its state, opens the target with what is carried over, and is conditioned on every read it used |
| Periods.OpeningsAlternate | packages/commands/src/Model.ts:259-274 | a period log has an odd length, openings at even places, and closings of the period opened just before at odd ones |
| Periods.KeysIncrease | packages/commands/src/Model.ts:326-341 | every later opening has a greater key |
| Periods.OpenedAndNotClosed | packages/commands/src/Model.ts:321-329 | a period that was opened and not closed is the one the tracking finds open, and only that one: the fast path decides as the slow one |
| PeriodRuns.TrackIsTheLogBelow | packages/commands/src/Model.ts:326 | in every run, what a turn read of the openings and closings is all of those with lower transaction ids |
| PeriodRuns.PeriodsAlternate | packages/commands/src/Model.ts:259-272 | in every run, an entity's openings and closings made by turns form a period log: they start with an opening, alternate, increase, and leave one period open |
| PeriodRuns.OnePeriodIsOpen | packages/commands/src/Model.ts:321-360 | so in every run, as soon as there is one, the number of them is odd, the first and the last are openings, and the last one's period is the one the tracking finds open |
| PeriodRuns.PeriodsFollow | packages/commands/src/Model.ts:326-341 | and every opening but the last is followed by its closing, and then only by openings of later periods |
| PeriodLoads.PlanIsTheLoad | packages/commands/src/Model.ts:308-360 | the condition a period's load answers with is that of the reads behind its answer: the open period's alone, or those of the turn |
| PeriodLoads.LoadsAlternate | packages/commands/src/Model.ts:300-361 | the same of what `load` returns: the openings and closings that commands append whose loads turned the period, alone or in `all`, are a period log |
| PeriodLoads.TheBalanceIsCarried | packages/commands/src/Model.ts:347-360 | in every run, the closing and the opening a committed turn wrote are built from one state, the fold of what commands with lower transaction ids committed in the closed period |
| ClosedPeriods.NeverIntoAClosedPeriod | packages/commands/src/Model.ts:308-323 | in every run, from the acceptance of a command that decided in an open period to its commit, strict or guarded, no closing of that period is committed |
| ClosedPeriods.ClosingsComeAfter | packages/commands/src/Command.ts:333-346 | so in log order the closings that commands commit come at or after the events of the commands that decided in the period |
| ClosedPeriods.ClosingIsInTheBoundary | packages/commands/src/Model.ts:240-245 | a period's boundary conflicts with every closing of the period exactly when some entry binds the closing by tags it always has |
| ClosedPeriods.OwnKeyBindsTheClosing | packages/commands/src/Model.ts:240-245 | as it does when the model declares no handler for its closing, or one by its own key |
| UnboundClosings.ClosedPeriodsAreSafeExactly | packages/commands/src/Model.ts:240-245 | over all runs, no command that decided in a period is accepted after it was closed exactly when the closing is so bound; otherwise there is a run in which a strict one is |
| PeriodLoads.LoadedIsNotClosed | packages/commands/src/Model.ts:308-332 | the same of what `load` returns: a command whose load found a period open, alone or in `all`, is never accepted into it once it was closed |
| FastPath.BoundaryByPeriod | packages/commands/src/Model.ts:276-291 | in every run, of the committed openings and closings of the entity, a period's boundary, which sees tags, matches exactly those whose data says the period |
| FastPath.FastPathIsTheOpenPeriod | packages/commands/src/Model.ts:317-323 | in every run, a read of a period finds it open exactly when the log of all openings and closings leaves it open: one read decides as two |
| FirstPeriod.ItIsAPeriodModel | packages/commands/src/Period.ts:139 | there is a model, its period in its data and in a tag, that meets all that is asked of models with a period |
| FirstPeriod.APeriodOpens | packages/commands/src/Model.ts:339-360 | and a run in which a command loads it, turns it, and commits its first opening |
| Calendar.EarlierIsLower | packages/commands/src/Period.ts:57-60 | day numbers are in the order of the Gregorian calendar and tell dates apart |
| Calendar.DaysAreNumbered | packages/commands/src/Period.ts:57-60 | they have no gaps, start at 1 January 1970, a Thursday, and know the lengths of the months |
| PeriodLevels.PadSorts | packages/commands/src/Period.ts:28 | numbers padded to a width they fit sort as strings as they do as numbers |
| PeriodLevels.KeysSortInTime | packages/commands/src/Period.ts:76-107 | day, month and year keys of the years -1 to 9999 sort as strings in the order of time |
| PeriodLevels.KeysSortExactly | packages/commands/src/Period.ts:76-107 | and no further: the day, month and year keys of a range of years around zero sort exactly when it lies within those |
| PeriodLevels.KeysAreWritten | packages/commands/src/Period.ts:76-131 | the keys are written as 2026-10-09, 2026-10, 2026 and 2026-W05 |
| PeriodLevels.WeekIsRightExactly | packages/commands/src/Period.ts:115-131 | for every date and both first days, the level gives the week of the calendar exactly when the year is not one of 0 to 99 |
| PeriodLevels.WeeksStart | packages/commands/src/Period.ts:115-118 | a week starts on its first day, the last one not after the date |
| PeriodLevels.WeekKeysSortInTime | packages/commands/src/Period.ts:115-131 | of such dates, as far as the texts of years sort, two have the same week key exactly when they are in the same week, a later week has a greater key as a string, and the number is 1 to 53 |
| PeriodLevels.WeeksCount | packages/commands/src/Period.ts:109-113 | from one week to the next the number grows by one, or starts again at 1 in the next year, for all dates the level counts rightly |
| PeriodLevels.FirstWeekHoldsTheFourth | packages/commands/src/Period.ts:109-113 | week 1 is the week of 4 January (with Monday, section 2.2.10 of ISO 8601:2004) |
| PeriodLevels.FourDigitYearsAreInRange | packages/commands/src/Period.ts:119-126 | every date of the years 100 to 9998 has a week year whose text sorts |
| PeriodLevels.YearsBelowOneHundredAreMisread | packages/commands/src/Period.ts:121-125 | every date of the years 0 to 99 gets a week 1899 to 1901 years later |
| Pages.StoreClauseIsAfter | packages/eventstore/src/internal/sql.ts:199-240 | the clause written for a cursor says "after it" for every event exactly for the start and for cursors an event can have |
| Pages.PageIsTheFirst | packages/eventstore/src/internal/sql.ts:199-240 | a page is the first of all settled wanted events after the cursor, as many as the limit allows |
| Pages.PageIsFinal | packages/eventstore/src/EventStore.ts:347-360 | in every run, no wanted event ever commits at or before a cursor a page has returned, except those the page held |
| Pages.StreamIsOrdered | packages/eventstore/src/EventStore.ts:372-383 | a stream yields wanted events after its start, strictly increasing, none twice |
| Pages.StreamIsComplete | packages/eventstore/src/EventStore.ts:372-383 | in every run, a stream yields every wanted event after its start that was settled when its last page was read |
| Progress.PostgresProgressTracker.MoveCursor | packages/event-poller/src/PostgresProgressTracker.ts:84-108 | the cursor moves exactly when the row is still where the batch started; it answers whether it did, and touches no other row |
| Progress.PostgresProgressTracker.RecordError | packages/event-poller/src/PostgresProgressTracker.ts:110-121 | the count grows by one, the error is kept, and the status is FAILED from the limit on |
| Progress.PostgresProgressTracker.ResetErrorCount | packages/event-poller/src/PostgresProgressTracker.ts:123-124 | only the count is reset |
| Progress.PostgresProgressTracker.SetStatus | packages/event-poller/src/PostgresProgressTracker.ts:126-127 | only the status of an existing row changes |
| Progress.PostgresProgressTracker.AutoRegister | packages/event-poller/src/PostgresProgressTracker.ts:129-138 | a row is made at the start of the log, and an existing one is left alone |
| Progress.FailsAtTheLimit | packages/event-poller/src/PostgresProgressTracker.ts:110-121 | after a run of failures a processor is FAILED exactly when the run reached the limit, its cursor where it was |
| Views.StepKeepsView | packages/event-poller/src/EventProcessor.ts:200-224 | every step of any instance or of the store keeps the view equal to the fold up to its cursor, and every batch in flight complete from where it started |
| Views.ViewIsTheFold | packages/event-poller/src/EventProcessor.ts:190-224 | in every run of any number of instances, the view is the fold in log order of each selected event up to the stored cursor |
| Views.EveryEventOnce | packages/event-poller/src/EventProcessor.ts:190-224 | in every run, a view that keeps what it is given holds exactly the selected events up to the stored cursor, in log order, each once |
| Views.TicksStartAtTheCursor | packages/event-poller/src/EventProcessor.ts:174-200 | a tick starts where the row stands, only for an active processor, and hands its handler the batch from there and the view as it is |
| Processors.AppliedStepByStep | packages/event-poller/src/EventProcessor.ts:200-210 | and the fold of any view applies its handler to each row once, one after the other |
| Views.CursorMovesForward | packages/event-poller/src/PostgresProgressTracker.ts:84-108 | the cursor never moves back, and the view changes only when it moves forward |
| Deliveries.PrefixIsUpTo | packages/event-poller/src/EventProcessor.ts:232-244 | a handled prefix of a batch is every selected event up to its last one |
| Deliveries.AtLeastOnce | packages/event-poller/src/EventProcessor.ts:229-255 | in every state of every run, with partial prefixes and competing instances, every selected event at or before the cursor was handled |
| Deliveries.HandlesExactly | packages/event-poller/src/EventProcessor.ts:232-244 | a prefix that was handled counts for its events and no other |
| Deliveries.TicksMoveTheCursor | packages/event-poller/src/EventProcessor.ts:174-255 | a tick starts where the row stands, only for an active processor, and moves it to the last event it handled, if it still stands there |
| Deliveries.HandledWasSelected | packages/event-poller/src/EventProcessor.ts:229-255 | and in every run nothing was handled that was not committed and selected |
| Deliveries.CursorMovesForward | packages/event-poller/src/PostgresProgressTracker.ts:84-108 | and the cursor never moves back |
| EventProcessor.EventProcessor.Start | packages/event-poller/src/EventProcessor.ts:174-190 | a tick starts from the stored cursor, which it makes if there was none, exactly when the processor is neither paused nor failed; otherwise it changes nothing |
| EventProcessor.EventProcessor.AtomicBatch | packages/event-poller/src/EventProcessor.ts:200-224 | one batch leaves the handler's writes and the moved cursor together, or neither; an error is recorded exactly for a handler that failed |
| EventProcessor.EventProcessor.PlainBatch | packages/event-poller/src/EventProcessor.ts:229-255 | what was handled stays; the cursor moves to the last handled event or not at all, and only from where the batch started |
| Leadership.LostAfterARun | packages/eventstore/src/Leader.ts:110-116 | a leader is lost exactly when so many checks in a row failed; a good one starts the count again |
| Leadership.ChecksExactly | packages/eventstore/src/Leader.ts:276-291 | a check loses or counts for each leader it asked for: a key that came back starts the count again, anything else, no answer too, is one failure more, and the option's number of them loses it |
| Leadership.SilenceEndsLeadership | packages/eventstore/src/Leader.ts:276-291 | in every run, after that many checks without a good one in between the member does not lead |
| Leadership.BeginsExactly | packages/eventstore/src/Leader.ts:312-333 | an attempt asks on the session it finds with a leader, unless it holds the key, and else on a new connection, if there is one |
| Leadership.AnswersExactly | packages/eventstore/src/Leader.ts:333-376 | what each answer does to members, sessions and permit: the lock waits for the lease or joins, the connection goes back, the shared session loses its leaders and is tried once more, or it is abandoned |
| Leadership.LeaseAnswersExactly | packages/eventstore/src/Leader.ts:347-361 | the same for the lease |
| Leadership.ReleasesExactly | packages/eventstore/src/Leader.ts:218-234 | a release closes its member and takes its key from the session, and awaits the unlock on a live one |
| Leadership.GivesBackExactly | packages/eventstore/src/Leader.ts:231-257 | the last unlock and the interrupt of an abandoned session give the connection back, and nothing else |
| Leadership.StepKeepsLeadership | packages/eventstore/src/Leader.ts:208-387 | every attempt, answer, check, release and give-back keeps the machine's invariant, and makes no member lead that did not |
| Leadership.LeadersAreAlone | packages/eventstore/src/Leader.ts:312-387 | in every run, at most one member per key leads, on the current session, which is neither abandoned nor given back, and no connection is given back twice |
| Leadership.StoppedForGood | packages/eventstore/src/Leader.ts:241-291 | in every run, a member that stopped leading never leads again |
| LeaderSessions.Sessions.LoseAll | packages/eventstore/src/Leader.ts:241-250 | the loop over a session's keys loses exactly the leaders of that session |
| LeaderSessions.Sessions.Once | packages/eventstore/src/Leader.ts:312-333 | an attempt lets go of a session without a leader, refuses a key held here, and reserves a session only when there is none |
| LeaderSessions.Sessions.Answer | packages/eventstore/src/Leader.ts:333-376 | each answer to an attempt, and none, does the machine's step in place |
| LeaderSessions.Sessions.LeaseAnswer | packages/eventstore/src/Leader.ts:347-361 | the same for the lease, which the session's first lock needs before it counts |
| LeaderSessions.Sessions.Check | packages/eventstore/src/Leader.ts:276-291 | a check's loop counts each leading member's answer once, and releases exactly those it lost |
| LeaderSessions.Sessions.Release | packages/eventstore/src/Leader.ts:218-234 | a release closes its member once, and unlocks only on a session that is not abandoned |
| LeaderSessions.Sessions.Unlocked | packages/eventstore/src/Leader.ts:231-233 | the last release gives the connection back |
| LeaderSessions.Sessions.GiveBack | packages/eventstore/src/Leader.ts:252-257 | an abandoned session's connection goes back once its late statement was interrupted |
| Lease.TimesIsProduct | packages/eventstore/src/Leader.ts:55-60 | so many whole checks take that many times heartbeat plus timeout |
| Lease.LeaseIsSafe | packages/eventstore/src/Leader.ts:49-60 | whatever the silence is like, the leader has stopped strictly before the server frees the lock exactly when the timeout exceeds the whole number of checks it takes to lose it by the delay of the last answer, for any real `failuresBeforeLost` |
| Lease.TheMachineStops | packages/eventstore/src/Leader.ts:276-291 | in every run of the sessions' machine, a member whose connection goes silent does not lead at the time the lease says it has stopped |
| Lease.AcceptedLeasesAreSafe | packages/eventstore/src/Leader.ts:75-86 | after an answer without delay, safe options are accepted, and accepted ones are unsafe exactly when the timeout lies above the code's bound and not above the whole checks |
| Lease.WholeFailuresAreSafe | packages/eventstore/src/Leader.ts:75-86 | so all accepted timeouts are safe exactly when the number of failures is whole (or checks take no time) |
| Lease.OneAndAHalfFailures | packages/eventstore/src/Leader.ts:55-60 | with 1.5 failures a timeout of 5 seconds is accepted, and the leader can outlive the lock |
| Lease.DefaultsAreSafe | packages/eventstore/src/Leader.ts:39-60 | without options the leader stops within 6 seconds and the server waits 15: safe exactly for answers delayed by less than 9 |
| Lease.Monitor | packages/eventstore/src/Leader.ts:363-375 | the heartbeat's loop on a silent connection ends with the leader lost, no later than the whole checks after the last answer |
| TagCodec.EncodedKeyHoldsNoSeparator | packages/eventstore/src/TagCodec.ts:14-15 | an encoded key holds no `=` |
| TagCodec.RoundTrip | packages/eventstore/src/TagCodec.ts:14-25 | any tag, with any characters, comes back from its text |
| TagCodec.KeyComesFirst | packages/eventstore/src/TagCodec.ts:20 | in the text the value stands as it is after the first `=`, the encoded key before it |
| TagCodec.ContainmentOfTexts | packages/eventstore/src/TagCodec.ts:20 | containment of the stored texts is containment of the tags |
| TagCodec.KeyTextsSurvive | packages/eventstore/src/TagCodec.ts:17-18 | a stored key read and written again is the same exactly when this codec could have written it |
| NotifyPayload.EncodePayload | packages/eventstore/src/NotifyPayload.ts:20-32 | a payload is never longer than 7900 |
| NotifyPayload.PayloadExactly | packages/eventstore/src/NotifyPayload.ts:20-32 | the payload in full, and exactly when the tag keys are kept |
| NotifyPayload.NamesAreSorted | packages/eventstore/src/NotifyPayload.ts:23-28 | its names stand in string order, each as often as it was given |
| NotifyPayload.DecodeEncode | packages/eventstore/src/NotifyPayload.ts:20-56 | a payload of any names says everything, or exactly the types announced and either all tag keys or, when they were dropped, none; the empty name is lost |
| NotifyPayload.WildcardExactly | packages/eventstore/src/NotifyPayload.ts:20-37 | it says everything exactly when there is no type, a type holds a separator, the types alone are too long, or a lone type without keys is blank or `*` |
| NotifyPayload.WakesExactlyWhenAnnounced | packages/eventstore/src/NotifyPayload.ts:65-91 | a batch wakes every subscriber that selects an event exactly when it names the event's type and, if it names tag keys, all of the event's |
| NotifyPayload.WakesExactlyWhenPossible | packages/eventstore/src/NotifyPayload.ts:65-91 | and it wakes a subscriber exactly when some event the batch announces is one it selects |
| NotifyPayload.MergeBatch | packages/eventstore/src/Listen.ts:102-113 | a merged batch is a wildcard when one is, else the union of the types and of the keys |
| NotifyPayload.NoWakeupIsLost | packages/eventstore/src/NotifyPayload.ts:15-17 | from announcement to subscriber, whatever else is announced with the event, every subscriber that selects it is woken exactly when the payload is a wildcard, or neither the event's type nor, unless no key is named, one of its keys is the empty text |
| NotifyPayload.NoWakeupIsLostInAMerge | packages/eventstore/src/Listen.ts:102-113 | and after every merge exactly when its own announcement is a wildcard, or its type is not empty and it has no tags, or tags that are not empty and were not dropped |
| NotifyPayload.LosesAWakeup | packages/eventstore/src/NotifyPayload.ts:24-31 | any other announcement loses a wake-up in some merge with a short one, which is given |
| Personal.Redact | packages/commands/src/Personal.ts:91-129 | the copy-on-write loops compute the redacted value, unions included |
| Personal.Keep | packages/commands/src/Personal.ts:139-168 | the loops that drop unknown keys compute the kept value, unions included |
| Personal.Expose | packages/commands/src/Personal.ts:139-169 | one loop after the other computes the exposed value |
| Personal.CoversExactly | packages/commands/src/Personal.ts:93-103 | a named property's schema is its own; other keys and further items have the first index signature or rest type |
| Personal.RecordsAreShownByTheMostKeys | packages/commands/src/Personal.ts:156-162 | of a union a record is shown by the first of the members that can hold it which keeps the most keys, never by a scalar |
| Personal.NullableShowsItsMember | packages/commands/src/Personal.ts:158-159 | so `NullOr` of an object shows what the object shows |
| Personal.RedactionFindsExactly | packages/commands/src/Personal.ts:91-129 | for any schema, a value is left as it is exactly when whatever a mark can reach in it, by any choice of union members, is nothing or the replacement |
| Personal.ExposedAtEveryPlace | packages/commands/src/Personal.ts:136-169 | for any schema, value and path: nothing is shown that was not there; at a mark of the members that first change the value "[redacted]" or what was nothing, below it nothing; elsewhere exactly what the members that show the value cover, a scalar unchanged, a list as long, a record with no new key |
| Personal.MarksAreHiddenExactly | packages/commands/src/Personal.ts:139-169 | for any schema, unions included, what is shown hides every mark of the members it is shown by exactly when each mark with something to hide is at or below a mark of the members that first change the value |
| Personal.UnchangedExactly | packages/commands/src/Personal.ts:81-90 | for any schema, exactly the values in which everything is covered and every mark is hidden are shown as they are |
| Personal.ExposedTwiceExactly | packages/commands/src/Personal.ts:139-169 | for any schema, exposing twice is exposing once exactly when whatever is shown and not redacted is hidden from every mark of every union member |
| Personal.OneMarkedMemberIsSafe | packages/commands/src/Personal.ts:116-122 | when of every union one member at most has marks (`NullOr`, literals), nothing marked is ever shown, and exposing twice is exposing once |
| Personal.UnionsCanShowAMark | packages/commands/src/Personal.ts:156-162 | and both can fail: one member redacts its key and another, which keeps more, shows a marked one; exposed again, it would not be |

## Left out

- HTTP, OpenAPI, the in-memory store, dashboards, metrics, spans and the Effect runtime: each region between two awaits, and each SQL statement, is one step.
- The SQL text and the driver: the model has what the functions do, from the migrations V2, V6 and V7; subtransaction ids, `statement_timestamp` and the audit row are not part of it.
- The emit key of an automation's trigger (the backstop under a cause) and request fingerprints: an append without a cause.
- Retries: `withConflictRetry` re-runs a whole attempt, each of which the statements above are about.
- Reads with a query without items: such a read returns everything and such a condition checks nothing (`Events.ReadAndConditionAgree`), so the statements about commands take queries that have items or are `all()`, as the handler demands of lookups.
- Position-only cursors (a null transaction id): modelled in the check, but no read makes one.
- JSON, schemas' decoding and `Intl` time zones: data is opaque text, and the calendar is UTC.
- The width of numbers and of characters: transaction ids and positions are unbounded, lengths count characters.
- CommandRuns.CommandsAreSerial: about the rows of commands; an application transaction that wrote before it appended can take its id earlier than what it read, which is why commands must not.
- StoreRuns.SettledIsFinal: below the snapshot's xmin, which is what "settled" means to the store; above it rows may still appear.
- Models: handlers look at an event's type, tags and data and at the entity's id, and do not fail; a stored event its definition cannot read is in `Projection.Project`. `Models.Lower` maps A to Z only, where the code's `toLowerCase` maps every letter.
- ByModel.RepeatIsNoop: for models without periods and a `decide` that does not look at the time, as the code's own check assumes.
- Periods.Load: the reads are given; a load that dies because the open period was closed between two of its reads is a defect of that attempt and is not shown to be rare.
- PeriodRuns.PeriodsAlternate: openings and closings are appended by turns only and copy the period they are given.
- ClosedPeriods.NeverIntoAClosedPeriod: for a model that binds its closing (`ClosedPeriods.ClosingIsBound`); for any other it is false (`UnboundClosings.ClosedPeriodsAreSafeExactly`).
- FastPath.FastPathIsTheOpenPeriod: for a model that binds its openings and closings through its own key only, not as lifecycle events, and whose events carry the tags of their own period and of no other; the openings and closings are those its turns appended.
- PeriodLevels.WeekKeysSortInTime: week years -1 to 9999, beyond which the texts of years do not sort (`PeriodLevels.KeysSortExactly`).
- Views: the handler reads the view's tables in one step; the transaction's isolation from a handler of another instance is the row it updates.
- LeaderSessions: one client with one set of options; that Postgres gives an advisory lock to one session at a time, and `pg_is_in_recovery`, are outside, as is the server's lock after an unlock that timed out.
- Lease.LeaseIsSafe: a session with one leader, and one check in flight at a time; a member that joins while a check is in flight is not covered. `failuresBeforeLost` is any real number; NaN and infinity are not modelled.
- Personal.ExposedAtEveryPlace: keys an object inherits are not modelled.
- Easy members beside these: `Marker.ts`, `Cursor.ts`, `BackoffState.ts`, `SharedListen.ts`, `ModelImpact.ts`, `personalPaths`, the levels' `fieldsOf`.
