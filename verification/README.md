# A verified model of kine's multi-version log

kine serves the etcd API from a SQL table, or from memory. This project models the parts of it whose
correctness rests on interleavings, and proves what they keep.

- **The SQL log.** One table holds every version of every key. A write is an unprotected read and then an
  insert; the unique index on (name, prev_revision) is the only guard. Compaction deletes rows from under
  it. `KineTable` gives the statements as functions on the table, `Compaction` says what the compaction
  statement means, `SqlReads` what reads see of it. `Writers` is the protocol of creates, updates, deletes
  and compactions; `LogStructured` has the calls themselves. `ReliefLag` puts a clock beside the protocol
  and proves the argument for the quota's relief lag. `ReservedWriters` and `ReservedLag` are the same two
  for databases where a row becomes visible after later ids have. `Poller` is the polling loop that turns
  rows into one event stream while inserts commit in any order, and `PollerExact` shows what may take an event
  from it. `SqlLog` has the loops of the compactor, the relief and the poller, and `LogHistory` what they find
  between two of their transactions. `Watching` joins a catch-up query to the live stream, and `Broadcaster`
  copies that stream to its subscribers. Files that end in `Trace` hold complete runs from the initial state.
- **The quota.** `QuotaLedger` is the lock-free byte ledger, one atomic load, store or add per step;
  `QuotaWrites` has the admission calls over it, `QuotaCharge` what they charge, `QuotaSampler` the
  goroutine that schedules compaction and statistics refreshes, and `QuotaTicks` exactly when it does which.
- **The in-memory backend.** `Memory` proves that its compaction is invisible against a store that never
  forgets, `MemoryWatch` what happens to its log and its watchers, `MemoryMeaning` says what its answers and
  events mean in terms of the operations so far, and `MemoryBackend` has the calls.

A protocol is a state, a datatype of actions, a deterministic `Apply`, and a predicate `Allowed` that says
which step can come; its theorems are about `Run` over every sequence of allowed actions. Where the code
updates fields in place there is a class whose methods are proved against the same functions. A method
`Interfere` stands for what everybody else does between two atomic steps of a call: its caller knows only
what it ensures. Ghost history (`full`, the uncompacted table; `trace`, `history`, `sampled`, `sent`) exists
for the specification and steers nothing.

Read first: `Writers.NoLostUpdate` and `Writers.SafeIffExact`, `ReliefTrace.LagIsExact`,
`ReservedTrace.TwoTimeoutsAreExact`, `Poller.DeliversExactlyOnce`, `PollerExact.CompactionIffExact`,
`Watching.WatchIsExact`, `SqlReads.CompactionInvisible`, `SqlLog.Log.RelieveQuota`,
`QuotaLedger.TornReadsReadHigh`, `QuotaLedger.FigureStaysWithin`, `QuotaSampler.RefreshesAreSafe`,
`QuotaTicks.TickDecides`, `MemoryStore.CompactionIsInvisible`, `MemoryMeaning.WritesMean`, `MemoryMeaning.PassTells`.

## Findings

Places where the code does less than its own comments say. Each names the exact condition, and an input or
a run from the initial state that reaches it.

- pkg/logstructured/logstructured.go:108-113. A create that read a tombstone links to it; once that tombstone
  is compacted, a second create and the first both succeed. `Writers.TombstoneCompactedLosesCreate` for every
  such state, `Writers.SafeIffExact` for the exact condition on a compaction, `WritersTrace.TwoCreatesSucceed`
  from the empty table: create a, delete a, create b, read for a create of a, compact to 2, create a. No
  timeout and no lag of the relief prevents it: `ReliefTrace.TombstoneLostAtAnyLag`.
- pkg/server/kubehz_quota.go:130-138. A compaction past a pending read lets an update of a deleted key
  succeed: `Writers.TargetPastReadLosesDelete`, and from the empty table `WritersTrace.StaleUpdateSucceeds`.
  `Writers.SafeIffExact` is the exact condition on one compaction. With rows visible in the order of their ids
  the lag prevents it if and only if the timeout is at most the lag (`ReliefTrace.LagIsExact`; the run is
  `ReliefTrace.LongTimeoutBreaksAnUpdate`).
- pkg/server/kubehz_quota.go:130-138 again. The comment compares the lag with one timeout. Where rows become
  visible out of the order of their ids that is not enough: an operation can be beaten by a row whose id is a
  timeout older than its read. There the lag must be two timeouts, as 60 s and 2 min just are, also with the
  poller that lowers every pass to what it has sent: `ReservedTrace.TwoTimeoutsAreExact`, with the run
  `ReservedTrace.ShortLagBreaksAnUpdate`.
- pkg/drivers/generic/generic.go:471-474. A fill row that is compacted while its id is still reserved loses
  that insert's event: `PollerExact.CompactedFillLosesEvent`, and from the start
  `PollerTrace.HeldSlotLosesEvent`. `PollerExact.SlotsIffExact` is the exact condition on one compaction.
- pkg/logstructured/sqllog/sql.go:256-262. The periodic compactor never looks at the poller, and loses what it
  takes ahead of it. `PollerExact.UnreadIffDeliverable` says exactly when: what is lost no further run sends,
  all else some further run does. From the start: `PollerTrace.UnreadRowIsLost`. A compactor that retains as
  many revisions as the poller is behind is safe (`Poller.RetainKeepsBehind`).
- pkg/logstructured/sqllog/sql.go:586-589. The skip fallback can lose an event: exactly when it jumps a visible
  row that is not in the batch, or an id whose insert can still commit (`PollerExact.SkipIffExact`). From the
  start: `PollerTrace.JumpedSlotLosesEvent`.
- pkg/logstructured/logstructured.go:241-243. A watch misses rows exactly in the cases of `Watching.Missed`
  (`Watching.WatchIsExact`): revision 1 is not reduced before the list, so row 1 is not in it, and a row that
  commits late below the head of the list comes with neither half. From the start: `WatchTrace.RowOneIsMissed`
  and `WatchTrace.LateRowIsMissed`.
- pkg/logstructured/sqllog/sql.go:101-107. With several compact-revision rows, start-up keeps one if and only
  if some row was not created and holds a revision, because scanning drops the previous revision of created
  rows (`SqlLog.Log.CompactStart`); two created rows are an input that leaves none.
- pkg/drivers/memory/memory.go:480-483, against the comment at 167-172. The log keeps the entry at the target
  of each compaction, and its index assumes that it does not: after n compactions every pass of a watch that is
  up to date sends n entries again (`MemoryWatch.NeverSkipsInWindow`, `MemoryWatch.IdlePassRepeats`).
- pkg/server/kubehz_quota.go:403-409. A put that loaded the figure before a good sample is admitted on the old
  figure, however high the new sample (`QuotaLedger.StaleFigurePasses`). By how much is bounded by
  `QuotaLedger.FigureStaysWithin`, and `QuotaLedger.BoundIsReached` is a run from the start that reaches it.

## Model

| member | source | states |
|---|---|---|
| KineTable.MaxId | pkg/drivers/generic/generic.go:41 | MAX(id): an upper bound of all ids that is one of them, 0 for an empty table |
| KineTable.CompactRev | pkg/drivers/generic/generic.go:42 | the largest prev_revision among rows named compact_rev_key, 0 without one |
| KineTable.Selected | pkg/drivers/generic/generic.go:34-48 | the list join: a name is there iff it is in range and its newest row up to the revision exists and is not deleted (or deleted rows are asked for), and it carries that newest row |
| KineTable.AfterKeepsOldest | pkg/drivers/generic/generic.go:448-469 | only rows in range past the revision; with a limit that many of them, the oldest, with none left out before the last |
| Watching.AfterExact | pkg/drivers/generic/generic.go:448-469 | without a limit the query returns every matching row past the revision and nothing else, each once |
| Compaction.SqlIsLive | pkg/drivers/sqlite/sqlite.go:91-106 | on a table whose rows of a key are chained, the statement, which deletes by link, removes exactly the rows superseded or deleted at the target |
| Compaction.DeletesPrefix | pkg/drivers/sqlite/sqlite.go:91-106 | whatever it deletes of a key, it deletes everything older of that key too |
| Compaction.CompactKeepsChain | pkg/drivers/sqlite/sqlite.go:91-106 | compaction keeps the chain of every key and the row of the compact revision |
| Compaction.LiveSelectedWithDeleted | pkg/logstructured/logstructured.go:95-113 | a read that also shows tombstones, as Create's, changes exactly when the newest row is a compacted tombstone |
| Compaction.BatchesAreOne | pkg/logstructured/sqllog/sql.go:166-187 | any rising sequence of batch compactions yields the table of one compaction to the last target |
| SqlReads.CompactionInvisible | pkg/logstructured/sqllog/sql.go:341-389 | List and Count at head, or at any revision from the target on, answer the same before and after a compaction, for every range, limit and kind; below the target both refuse |
| SqlReads.ListShows | pkg/logstructured/sqllog/sql.go:341-389 | a list at a revision has, without old values, the rows a list had when that revision was the newest; refused exactly past the header's revision and before the compact revision; the header is MAX(id), or the cached revision for an empty result |
| SqlReads.CountShows | pkg/logstructured/sqllog/sql.go:655-673 | the same for Count: the number of live names of the range then, 0 with no end |
| SqlReads.LaterRowsChangeNothing | pkg/drivers/generic/generic.go:198-199 | rows past a revision never change the rows of a list or the result of a count at that revision |
| SqlReads.HeadKept | pkg/logstructured/sqllog/kubehz_relief.go:161 | MAX(id) survives a compaction if and only if the head is not one of its victims |
| Writers.InsertIffUntouched | pkg/drivers/sqlite/sqlite.go:42 | in every reachable state the unique index refuses a pending insert exactly when its key was written since its read |
| Writers.NoLostUpdate | pkg/logstructured/logstructured.go:89-226 | over every interleaving of reads, inserts, aborts and compactions that keep what SafeIffExact says they must, the history of every key is one line, the index decides exactly, and reads at head or from the floor on show what the whole history shows |
| Writers.CreateRevisionsHold | pkg/logstructured/sqllog/sql.go:748-755 | in every run each row of an update carries the id of the row that last created its key, with no create or delete of the key in between |
| Writers.SafeIffExact | pkg/logstructured/logstructured.go:89-226 | the exact condition on a compaction: every further run of the writers decides every insert correctly if and only if each beaten operation keeps its index entry and each create that can still succeed keeps its tombstone |
| Writers.BoundIsSafe | pkg/server/kubehz_quota.go:130-138 | the bound a caller can check is enough: at most the head of each pending read, below each tombstone a pending create read |
| Writers.TombstoneCompactedLosesCreate | pkg/logstructured/logstructured.go:108-113 | without the tombstone hypothesis: from any state with an untouched create over a tombstone, compacting that tombstone lets two creates succeed and breaks the line |
| WritersTrace.TwoCreatesSucceed | pkg/logstructured/logstructured.go:95-115 | a run from the empty table, with a compaction below the head, in which two creates of one key both succeed |
| Writers.TargetPastReadLosesDelete | pkg/server/kubehz_quota.go:130-138 | from every state with an untouched update or delete: one delete of its key and one compaction past the read let it succeed on a key that is gone |
| Writers.DeletedThenCompacted | pkg/server/kubehz_quota.go:130-138 | the same wherever the compaction came from: any target from the key's tombstone on |
| WritersTrace.StaleUpdateSucceeds | pkg/server/kubehz_quota.go:130-138 | a run from the empty table, with a compaction below the head: create, read for an update, delete, another key, compaction, update |
| LogStructured.Backend.Append | pkg/logstructured/sqllog/sql.go:675-708 | the insert is the protocol's step; it succeeds iff the key is untouched since the read, and then the row follows directly on the row read |
| LogStructured.Backend.Create | pkg/logstructured/logstructured.go:89-117 | KeyExists iff the key is live at the read, and then nothing was begun; otherwise the call is its read, others' steps, and one insert or none; a success is a created row with this value and lease on top of nothing or of a tombstone, and comes iff nobody wrote the key in between |
| LogStructured.Backend.Update | pkg/logstructured/logstructured.go:180-226 | a mismatch or a missing key is answered from the read, with what the read shows, and begins nothing; otherwise read, others' steps, one insert or none; a success has this value and lease, replaced exactly the compared revision, carries its value and the id of the key's last create, and comes iff that revision is live and newest when the insert runs; a lost race answers with what the key shows then |
| LogStructured.Backend.Delete | pkg/logstructured/logstructured.go:119-158 | a written delete is a tombstone right on the live row it reports; deleted without a write means that no row of the key exists; not deleted means a tombstone, another revision, or a write in between, and then the newest row is the answer; an unwritten call without a lost answer left only others' steps behind |
| LogStructured.Backend.TtlDelete | pkg/logstructured/kubehz_ttl.go:51-59 | whatever became of the statement: deleted means that the tombstone was written or no row exists; a plain "not deleted" comes only before the deadline and means that the key was gone, changed or of another revision; past the deadline that answer is an error |
| ReliefLag.BatchIsSafe | pkg/logstructured/sqllog/kubehz_relief.go:61-82 | no target a relief pass can hold exceeds the head under which any pending operation read, however late the batch |
| ReliefLag.ReliefMeetsTheBound | pkg/server/kubehz_quota.go:581-592 | over every clocked run with a timeout of at most the lag, relief meets the writers' bound and no update is lost, as long as no pending create loses its tombstone |
| ReliefLag.ConstantsMeetTheBound | pkg/server/kubehz_quota.go:138-268 | the same for the constants in use, 60 s and 2 min |
| ReliefLag.LongTimeoutBreaksTheBound | pkg/server/kubehz_quota.go:130-138 | with a timeout above the lag, two ticks hand a pass a target above a pending operation's head |
| ReliefTrace.LongTimeoutBreaksAnUpdate | pkg/server/kubehz_quota.go:130-138 | a clocked run from the empty table, for every such timeout, in which a batch below the head makes a pending update succeed on a deleted key |
| ReliefTrace.LagIsExact | pkg/server/kubehz_quota.go:130-138 | among runs in which no pending create loses its tombstone: no batch takes from the index what it must not, if and only if the timeout is at most the lag |
| ReliefTrace.TombstoneLostAtAnyLag | pkg/logstructured/logstructured.go:108-113 | without that exclusion, for every positive timeout and every lag: a clocked run from the empty table in which a relief batch makes two creates of one key succeed |
| ReservedWriters.NoLostUpdateOutOfOrder | pkg/drivers/pgsql/pgsql.go:36-53 | where an insert takes its id before its row is visible: over every interleaving with compactions below every id some read under way has not seen, the history of every key is one line, the index decides exactly, and reads see no compaction |
| ReservedLag.TargetIsOld | pkg/server/kubehz_quota.go:629-641 | a revision two timeouts old is below every id that can still come and that some operation under way has not seen |
| ReservedLag.TwoTimeoutsMeetTheBound | pkg/server/kubehz_quota.go:130-138 | over every clocked run with a lag of two timeouts, the poller filling and polling in between and lowering every pass, every batch is below those ids, and no update is lost |
| ReservedLag.ConstantsMeetTwoTimeouts | pkg/server/kubehz_quota.go:138-268 | the same for the constants in use |
| ReservedTrace.ShortLagBreaksAnUpdate | pkg/server/kubehz_quota.go:130-138 | a clocked run from the empty table, for every lag two seconds or more short of two timeouts: a delete with an older id commits after an update read, is sent by the poller and compacted, and the update succeeds |
| ReservedTrace.TwoTimeoutsAreExact | pkg/logstructured/sqllog/kubehz_relief.go:61-66 | over the same runs, every insert is decided correctly if and only if the lag is two timeouts, in whole seconds |
| Poller.EventsBetweenExact | pkg/logstructured/sqllog/sql.go:578-641 | what watchers are owed over a span of slots: each visible row that is no fill row, once, ascending, and nothing else |
| Poller.DecideExact | pkg/logstructured/sqllog/sql.go:572-641 | without the fallback the loop over one batch passes consecutive slots only and hands out exactly what they owe |
| Poller.BatchTarget | pkg/logstructured/sqllog/kubehz_relief.go:148-163 | a batch moves past the compact revision, by at most the batch size, stays within the target and below the head |
| Poller.DeliversExactlyOnce | pkg/logstructured/sqllog/sql.go:477-649 | over every run of reserving, committing and failing inserts, fills, jumps, polls and compactions that meet the exact conditions, exactly the owed rows were sent, once, in order; an insert that still holds a slot the poller has come past changes nothing or is taken for a fill row; every owed row not in hand yet is in the table |
| Poller.ReliefStaysBehind | pkg/logstructured/sqllog/kubehz_relief.go:61-66 | in every run a relief batch deletes only rows up to what was polled, below the head, that were sent, are fill rows or precede the poller; MAX(id) stays |
| Poller.ReliefKeepsToTarget | pkg/logstructured/sqllog/kubehz_relief.go:61-66 | until the next pass begins, a relief pass deletes nothing past the target it was given |
| Poller.CachesMoveForward | pkg/logstructured/sqllog/sql.go:684-705 | over every run currentRev, polledRev, the compact revision and MAX(id) never move back, and both caches stay at or below MAX(id) |
| Poller.CacheFollowsPoller | pkg/logstructured/sqllog/sql.go:634-637 | once the cached revision is the poller's, it follows it in every run while no writer moves it |
| Poller.WritersMoveCache | pkg/logstructured/sqllog/sql.go:684-705 | a writer moves the cache to its own row when nobody moved it since its load; of two that loaded the same revision only the first does, and the cache stays behind the other's row |
| Poller.QueryFillsCache | pkg/logstructured/sqllog/sql.go:295-308 | an empty cache is filled with MAX(id) as it was read |
| Poller.SyncMeansSent | pkg/logstructured/sqllog/sql.go:810-816 | when WaitForSyncTo may return, every row up to the revision since the poller's start was handed out |
| PollerExact.SyncReturns | pkg/logstructured/sqllog/sql.go:810-816 | whatever the poller is at, its next steps alone bring the polled revision to what it has in hand, and by then all of that was sent, so the wait ends |
| PollerExact.OnlySkippingLeavesGaps | pkg/logstructured/sqllog/sql.go:586-589 | a slot that was not in the batch is passed if and only if the fallback was taken |
| PollerExact.SkipIffExact | pkg/logstructured/sqllog/sql.go:586-589 | every further run hands out exactly what it passes if and only if the jump passes no visible row outside the batch and no slot whose insert can still commit a row of its own |
| PollerTrace.JumpedSlotLosesEvent | pkg/logstructured/sqllog/sql.go:586-589 | a run from the start in which the fallback jumps an id, its insert commits, and its event is not among what is sent |
| PollerExact.CompactedFillLosesEvent | pkg/drivers/generic/generic.go:471-474 | compacting a fill row whose id is still reserved lets that insert commit into a passed slot: owed, and not sent |
| PollerExact.SlotsIffExact | pkg/drivers/generic/generic.go:471-474 | of a compaction below the head that takes nothing unread: every further run hands out exactly what is owed if and only if each slot an insert still holds is taken, ahead of the poller, or harmless |
| Poller.RetainKeepsBehind | pkg/logstructured/sqllog/sql.go:256-262 | a periodic compactor that retains a revision, and as many as the poller is behind the head, takes no row the poller has not read |
| PollerExact.LostIsNeverSent | pkg/logstructured/sqllog/sql.go:545-570 | an event whose row is gone, unsent and not in hand is sent by no further run, whatever writers, compactions and poller do |
| PollerExact.UnreadIffDeliverable | pkg/logstructured/sqllog/sql.go:256-262 | for a compaction to any target: each row that was owed and unsent is sent by some further run, if and only if no client row ahead of what the poller has in hand is taken |
| PollerExact.CompactionIffExact | pkg/logstructured/sqllog/sql.go:256-262 | the exact condition on a compaction below the head: every further run hands out exactly what it passes and all that was owed can still be sent, if and only if slots and unread rows are safe |
| PollerTrace.UnreadRowIsLost | pkg/logstructured/sqllog/sql.go:256-262 | a run from the start: create, update and another row while the poller stands still, a compaction that retains one revision; no further run sends the create |
| PollerTrace.HeldSlotLosesEvent | pkg/logstructured/sqllog/sql.go:586-610 | a run from the start: an insert holds id 2, the poller fills and passes it, a compaction of the retained kind, and the insert's event is lost |
| Poller.SafeCompactRev | pkg/logstructured/sqllog/sql.go:764-773 | at most the target, never inside the newest retained revisions, and the largest such revision |
| SqlLog.Log.Compact | pkg/logstructured/sqllog/sql.go:230-284 | one transaction: compacted to the safe target exactly on Ok; otherwise nothing changed, and ErrCompacted says why; on a failure, early or late, both returned revisions are 0 |
| SqlLog.Log.CompactIter | pkg/logstructured/sqllog/sql.go:143-217 | the loop ends; with writers and other compactors between any two transactions and whatever fails, the table stays everything written, compacted once, by this pass no further than the safe target; with no failure and no other compaction at least as far as the head it began with allows; with another compact revision than the caller's not at all |
| LogHistory.CompactEvolves | pkg/logstructured/sqllog/sql.go:230-284 | a transaction on a table that is everything written, compacted to its compact revision, leaves everything written, compacted to the new target |
| LogHistory.GoneStaysGone | pkg/logstructured/sqllog/sql.go:166-187 | a row that is out of the table stays out, whatever is written and compacted next |
| LogHistory.RetainedRowsStay | pkg/logstructured/sqllog/sql.go:256-262 | a row past the compact revision that the table ends with is still in it, whoever compacted |
| LogHistory.AppendIsOthers | pkg/logstructured/sqllog/sql.go:675-708 | another client's insert is one of the steps a pass allows for between its transactions |
| SqlLog.Log.ReliefBatch | pkg/logstructured/sqllog/kubehz_relief.go:141-174 | what one relief transaction does and reports for each way it can end: before MAX(id) is read, before the compact revision is, in the delete, at a commit of unknown effect |
| SqlLog.Log.RelieveQuota | pkg/logstructured/sqllog/kubehz_relief.go:50-95 | the pass ends; with writers and other compactors between its batches the table stays everything written, compacted once, by this pass within target, poller and head, and exactly so when nothing fails and nobody else compacts; it counts the rows it took out, none is gone without a stale result, and MAX(id) never moves back by its work |
| SqlLog.Log.PollBatch | pkg/logstructured/sqllog/sql.go:572-641 | the loop with its slot array, skip and saveLast computes the verdict the protocol uses |
| SqlLog.Log.CompactStart | pkg/logstructured/sqllog/sql.go:63-119 | creates the row when there is none; of several keeps the best one that was not created, so one is left iff such a row holds a revision |
| Watching.RangesAgree | pkg/server/types.go:95-97 | the statement's range and the live filter agree on all names if and only if the end is not at or before the key |
| Watching.FilterRange | pkg/logstructured/sqllog/sql.go:432-449 | keeps exactly the events in range, in order, and tells whether any is left |
| Watching.FilterNewer | pkg/logstructured/logstructured.go:282-288 | dropping leading events drops all at or below the revision on an ascending batch |
| Watching.Watch | pkg/logstructured/logstructured.go:228-280 | accepted iff the start is 0 or not below the compact revision; what is sent is the list and then the stream cut at the head of the list, or at the start when it is empty |
| Watching.WatchIsExact | pkg/logstructured/logstructured.go:228-280 | in every run what is sent is owed, once, ascending; and it is all that is owed if and only if no row is Missed |
| WatchTrace.LateRowIsMissed | pkg/logstructured/logstructured.go:244-270 | a run from the start: a row that commits below the head of the list is never sent, however the run goes on |
| WatchTrace.RowOneIsMissed | pkg/logstructured/logstructured.go:241-243 | a watch from revision 1 on a table whose first row is a client's does not send it |
| Watching.AcceptedWatchSendsAll | pkg/logstructured/sqllog/sql.go:314-339 | with ids visible in order, an accepted watch from any revision from 2 on, or from 0 while nothing was compacted, sends exactly the matching rows from the requested revision on; compaction removed none of them |
| Watching.NoneReservedMeansExact | pkg/logstructured/logstructured.go:231-270 | when no id is reserved at the list (SQLite), every run keeps ids in order, so the same watches are exact |
| Broadcasting.SubscribersSeeTheStream | pkg/broadcaster/broadcaster.go:18-85 | in every interleaving no channel is closed twice or sent to after close; a subscriber gets an ordered part of the stream since its subscription, whole up to the first refused batch, never among its first hundred |
| Broadcasting.CompleteIffNothingRefused | pkg/broadcaster/broadcaster.go:64-76 | a subscriber is complete iff nothing was refused; one dropped as slow had a refusal |
| Broadcasting.Broadcaster.Subscribe | pkg/broadcaster/broadcaster.go:18-40 | a failed connect changes nothing; otherwise an open, empty channel joins at the current end of the stream |
| Broadcasting.Broadcaster.Unsub | pkg/broadcaster/broadcaster.go:42-53 | closes a channel at most once, whoever calls it and however often |
| Broadcasting.Broadcaster.SendAll | pkg/broadcaster/broadcaster.go:66-77 | each subscriber is offered the item once, nobody else's channel changes, and exactly those with a full buffer are reported slow |
| Broadcasting.Broadcaster.StreamEnd | pkg/broadcaster/broadcaster.go:79-84 | every subscriber is closed once under one lock, and a new subscription may start a stream |
| QuotaLedger.LedgerBalances | pkg/server/kubehz_quota.go:436-443 | in every interleaving written is committed plus all outstanding reservations; base is committed at the start of the good sample two samples back; base <= marks <= committed <= written |
| QuotaLedger.TornReadsReadHigh | pkg/server/kubehz_quota.go:398-409 | whatever samples run between its loads, a put compares at least the live figure it saw plus written less the base of that sample, so all bytes committed since and all outstanding ones are in it |
| QuotaLedger.AdmittedWithinLane | pkg/server/kubehz_quota.go:414-430 | at the moment of any admission the kept figure without the put is below the limit, or with it within the cap, by as much as the put's figure is older and lower than the present one |
| QuotaLedger.FigureStaysWithin | pkg/server/kubehz_quota.go:75-82 | from any state of any run until a good figure is stored, over every interleaving: the kept figure ends no higher than it was, or than the highest threshold of any put, by the deficit of puts that loaded before the last sample; head markers aside |
| QuotaLedger.BoundIsReached | pkg/server/kubehz_quota.go:403-409 | a run from the start, for every limit, write and sample, that ends exactly at that bound |
| QuotaLedger.NothingReadsLow | pkg/server/kubehz_quota.go:398-409 | the deficit is 0 at the start, and after a sample at whose store no put was between its loads and its add, until the next |
| QuotaLedger.OrdinaryPutsPassByOneWrite | pkg/server/kubehz_quota.go:41-42 | ordinary puts pass the limit by less than one write and the deficit |
| QuotaLedger.LanesEndAtTheCeiling | pkg/server/kubehz_quota.go:363-367 | with creates, cleanup and control updates at work too, the figure ends within the ceiling, or one ordinary write above the limit, and the deficit |
| QuotaLedger.LanesEnd | pkg/server/kubehz_quota.go:359-367 | exactly when each lane admits, by the figure the put compares: below the limit, and up to 16 MiB above it, twice it and 32 MiB, twice it and 64 MiB |
| QuotaLedger.ControlHasRoom | pkg/server/kubehz_quota.go:182-184 | right after any cleanup write that is admitted, a control update of up to 32 MiB still is |
| QuotaLedger.StaleFigurePasses | pkg/server/kubehz_quota.go:403-409 | the deficit is no artefact: a put that loaded below the limit passes after the next good sample, however high |
| QuotaLedger.FailsClosed | pkg/server/kubehz_quota.go:37-39 | once committed bytes alone fill the quota, every ordinary put is refused until a good sample, but one that has held a lower figure from before the last one all the while |
| QuotaLedger.EventuallyAllRefused | pkg/server/kubehz_quota.go:37-39 | with only failing samples, as many landed puts as there are bytes left close the quota for good, with the same exception |
| QuotaLedger.LandedIsBounded | pkg/server/kubehz_quota.go:37-39 | with only failing samples the number of puts that land is bounded by the thresholds and the deficit |
| QuotaWrites.QuotaBackend.Reserve | pkg/server/kubehz_quota.go:403-430 | with everybody else in between: the ledger reaches a state in which the put holds a figure, and kept or refused is what that figure says there; kept, the call ends with that add, within its lane; refused, it is given back |
| QuotaWrites.QuotaBackend.Settle | pkg/server/kubehz_quota.go:437-443 | a write that happened, or may have, commits its cost; any other gives exactly it back |
| QuotaWrites.QuotaBackend.Create | pkg/server/kubehz_quota.go:751-765 | charged key plus value iff passed on and not KeyExists, from an admission the run goes through; a create that passes otherwise than below the limit was refused there first, and is small and of a control key, within the create cap and its bucket |
| QuotaWrites.QuotaBackend.Update | pkg/server/kubehz_quota.go:785-801 | which charge each admission carries, at which moment of the run it was admitted, what is committed, and that one that cannot write is passed with no reservation |
| QuotaWrites.QuotaBackend.AdmitUpdate | pkg/server/kubehz_quota.go:812-851 | while full: free iff it cannot write, else charged to the byte, grown by at most the slack, and admitted at a moment of the run within the cap of its own lane and its bucket |
| QuotaWrites.ControlLaneIs | pkg/server/kubehz_quota.go:197-203 | the control lane takes exactly keys with one of the three prefixes and values up to 4 KiB |
| QuotaWrites.QuotaBackend.Sample | pkg/server/kubehz_quota.go:499-532 | a failed sample changes neither term; a good one stores its figure and, when it advances, shifts base and marks by one sample |
| QuotaCharge.ChargeIs | pkg/server/kubehz_quota.go:46-54 | charge less row bytes is exactly the net change of the value less what updates while full added |
| QuotaCharge.ChargeCoversRows | pkg/server/kubehz_quota.go:46-54 | at every point of a key's life the charge covers the bytes written less the first value and 64 bytes per update while full; below the limit it falls short iff the value is smaller than the first |
| QuotaSampler.RefreshesAreSafe | pkg/server/kubehz_quota.go:597-625 | over all tick sequences passes never overlap, no refresh starts within the settle time of any deleting pass, and no unpaused compaction comes before a refresh succeeded since |
| QuotaSampler.RefreshComesFirst | pkg/server/kubehz_quota.go:601-619 | a tick runs one pass at most; with a refresh owed for deleted rows, the first unpaused tick past the settle time refreshes, and earlier ones run nothing |
| QuotaSampler.PauseNeedsFailures | pkg/server/kubehz_quota.go:660-669 | a pause lasts ten minutes from the end of at least a third failed refresh in a row |
| QuotaSampler.MarkersAreLagApart | pkg/server/kubehz_quota.go:702-713 | head markers that took effect come from ticks at least a lag apart |
| QuotaTicks.TickDecides | pkg/server/kubehz_quota.go:571-612 | a tick compacts iff the quota is full, a tick at least a lag ago read a revision, and no refresh is owed or it is paused; it refreshes iff one is owed, unpaused and settled; it leaves a head marker iff the compaction left the head alone, did not fail and the quota is still full; all told from the ticks and passes so far |
| QuotaSampler.Quota.Target | pkg/server/kubehz_quota.go:629-641 | the loop finds the newest record at least a lag old and drops the older ones |
| QuotaSampler.Quota.Tick | pkg/server/kubehz_quota.go:571-612 | the in-place tick is the step the theorems are about |
| MemoryStore.TrimTwice | pkg/drivers/memory/memory.go:437-469 | trimming a history to one revision and then to a later one is trimming it to the later |
| MemoryStore.WriteSame | pkg/drivers/memory/memory.go:196-274 | on a compacted history and on the full one, every write answers alike and appends the same entry, up to the previous revision of a dropped tombstone |
| MemoryStore.CompactionIsInvisible | pkg/drivers/memory/memory.go:423-487 | after any operations the compacted store and one that forgot nothing answer every next operation and every List alike |
| MemoryMeaning.WritesMean | pkg/drivers/memory/memory.go:196-274 | after any operations a write appends iff the key's newest entry of everything written allows it (missing or deleted; live with exactly this revision; live with this revision or any for 0), and field by field the entry is the one asked for, with the revision of the key's last create and one version more; else the store stays as it is |
| MemoryMeaning.AnswersMean | pkg/drivers/memory/memory.go:196-274 | the answer: the new revision and what was written or removed, or the current revision and what is live |
| MemoryMeaning.CompactionMeans | pkg/drivers/memory/memory.go:423-434 | a compaction is refused exactly past the newest revision and at or before the last one that succeeded |
| MemoryMeaning.ListMeans | pkg/drivers/memory/memory.go:276-327 | a list shows, by name and up to the limit, what was live in the range when everything written ended at the revision; refused exactly past the newest revision and before the last compaction |
| MemoryWatch.LogArithmetic | pkg/drivers/memory/memory.go:475-485 | after n compactions the log is dense, has current - compact + n entries from compact + 1 - n on, and is the tail of the log that was never trimmed |
| MemoryWatch.TrimInBounds | pkg/drivers/memory/memory.go:480-483 | the next trim never exceeds the log and never empties it |
| MemoryWatch.EventsAgree | pkg/drivers/memory/memory.go:371-384 | an event differs from that of the store that forgot nothing in its previous value alone, and only where that was at or below the compact revision |
| MemoryMeaning.EventTells | pkg/drivers/memory/memory.go:371-384 | the event of an entry tells of the one operation that wrote its revision: create or delete, key, value, lease, create revision, version, and the entry it replaced, which only at or below the compact revision may be known by its revision alone |
| MemoryMeaning.PassTells | pkg/drivers/memory/memory.go:369-387 | a pass sends exactly one such event, in order, for each revision it covers whose operation touched a key in range |
| MemoryWatch.NeverSkipsInWindow | pkg/drivers/memory/memory.go:167-182 | from a position between the compact and the current revision a pass sends exactly the revisions from lastSeen + 1 - n on: no skip, and no repeat iff n is 0 |
| MemoryWatch.SkipsIffFarBehind | pkg/drivers/memory/memory.go:167-182 | a pass loses a revision iff compaction is more than n past the watcher |
| MemoryWatch.NothingIsSkipped | pkg/drivers/memory/memory.go:361-402 | over any writes, compactions and passes, a watch that keeps up is sent every revision from its start on |
| MemoryWatch.AcceptedWatchGetsAll | pkg/drivers/memory/memory.go:337-402 | a watch that is not refused is sent every revision from the requested one on, or past the current one when none is requested, to the current one of its last pass, while no compaction goes past what it was sent |
| MemoryWatch.ExactWithoutCompaction | pkg/drivers/memory/memory.go:361-402 | without compaction every revision exactly once, in order |
| MemoryWatch.IdlePassRepeats | pkg/drivers/memory/memory.go:167-182 | a pass with nothing new sends as many entries again as there were compactions |
| MemoryBackend.Memory.Create | pkg/drivers/memory/memory.go:196-222 | the new store and the answer are those of the store the theorems are about |
| MemoryBackend.Memory.Update | pkg/drivers/memory/memory.go:224-248 | the same for an update |
| MemoryBackend.Memory.Delete | pkg/drivers/memory/memory.go:250-274 | the same for a delete |
| MemoryBackend.Memory.Walk | pkg/drivers/memory/memory.go:291-326 | the walk over the tree with its early exits yields the visible entries of the range in order of name, up to the limit |
| MemoryBackend.Memory.List | pkg/drivers/memory/memory.go:276-327 | the checks on the revision and the walk together give the specified reply |
| MemoryBackend.Memory.Get | pkg/drivers/memory/memory.go:185-194 | at most one entry, there iff the key is visible at the revision |
| MemoryBackend.Memory.WatchPass | pkg/drivers/memory/memory.go:369-387 | the loop over the log sends the events of the pass in range and moves lastSeen to its last entry |
| MemoryBackend.Memory.TrimHistories | pkg/drivers/memory/memory.go:435-473 | the scan, in any order of keys, trims every history, removes the emptied ones and clears exactly the pointers of shortened ones |
| MemoryBackend.Memory.Compact | pkg/drivers/memory/memory.go:423-487 | the in-place compaction is the one the simulation is about, and the cut stays in bounds |

## Left out

- Writers.NoLostUpdate: for compactions that meet the exact condition of Writers.SafeIffExact; others break it, as that lemma shows.
- ReliefLag.ReliefMeetsTheBound: assumes that no pending create that could still succeed loses its tombstone, which no lag gives (ReliefTrace.TombstoneLostAtAnyLag); an operation's context is over at its deadline, and its cancel is taken to be effective then.
- ReservedLag.TwoTimeoutsMeetTheBound: the same two assumptions; the poller is its revision and the ids it fills, any time and as seldom as it likes, and passes no id an insert still holds, which Poller.DeliversExactlyOnce proves of its loop.
- Poller.DeliversExactlyOnce: excludes compactions and jumps that break the exact conditions of PollerExact.CompactionIffExact and PollerExact.SkipIffExact; for the relief only the condition on reserved slots is assumed.
- PollerExact.UnreadIffDeliverable: in the further runs the fallback jumps a gap only in a batch whose rows are still in the table.
- SqlLog.Log.CompactIter: rows that others commit during a pass have ids past the compact revision of the time; a commit that fails ends the process there, and is not modelled.
- SqlLog.Log.RelieveQuota: rows that others commit during a pass have ids past the compact revision of the time.
- Watching.AcceptedWatchSendsAll: assumes ids that become visible in order, and leaves out an accepted watch from revision 0 on a table that was compacted, which is sent what is left; for those and for other drivers Watching.WatchIsExact gives the exact set of missed rows.
- Watching.WatchIsExact: for a range that holds no gap- name and not the compact-revision key, and whose end, when given, lies past its key; batches reach the watch without a slow-consumer drop.
- QuotaSampler.MarkersAreLagApart: a marker takes effect before its pass ends, or not at all; the cached revision at most MAX(id) is what Poller.CachesMoveForward proves.
- QuotaCharge.ChargeCoversRows: one life of a key, from its create to before its delete; deletes are not charged.
- MemoryStore.CompactionIsInvisible: lists do not show previous revisions, which differ for a create over a dropped tombstone.
- MemoryWatch.NothingIsSkipped: for passes that compaction has not overtaken by more than the extra entries; the others skip, exactly as MemoryWatch.SkipsIffFarBehind says.
- Database connections, transactions, retries of inserts, schema set-up and migrations: a statement is its function on the table, and fates say whether it ran, failed, or lost its answer.
- The retry loop of inserts that collide with a fill row: in the protocol such an insert reserves a new id.
- The calls of LogStructured run over writers that reserve no ids, as in SQLite; ReservedWriters has the protocol with reservations and not the calls.
- The revision a call returns beside its result, and adjustRevision.
- Driver-specific start keys, size figures, VACUUM, the WAL checkpoint after a compaction.
- The token buckets: a boolean that can only refuse. Metrics, logging, gauges.
- Cancellation of the sampler's context: it ends the run.
- The wake-up channels of poller and watchers: a poll or a pass may come at any time.
- A memory watch reads the compact revision and the current revision in one step.
- The health key written at start, the TTL queue, gRPC and transaction shapes, the NATS and t4 drivers.
- Values and keys are strings, integers are unbounded, time is in whole seconds.
