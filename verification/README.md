# pg_search: a verification model

This project models the parts of pg_search, a Postgres index access method that stores full-text
segments, in which several processes or several data structures have to agree, and proves that they
do. `dafny verify dfyconfig.toml` checks all of it.

| file | what it models |
|---|---|
| `VacuumProtocol.dfy` | merges, one vacuum and scans, coordinating through the cleanup lock, the MergeLock, the MergeList, the vacuum list and its sentinel, as a transition system over all interleavings |
| `VacuumProgress.dfy` | that these never block each other for good and can all finish |
| `MergePolicy.dfy` | the layered merge policy: a greedy packer over several layers, with pruning and a one-shot flag |
| `MergeQuiescence.dfy` | when a fresh run of the policy finds nothing more to merge |
| `SharedAggregates.dfy` | the shared byte buffer of length-prefixed aggregate results, compacted in place |
| `ScanClaims.dfy` | segments claimed by the workers of a parallel scan, and the report about them |
| `WorkDivision.dfy` | quotas of build and aggregate workers, and the interleaved checkout of segments |
| `BuildWorker.dfy` | the merges a build worker does on the way to its target number of segments |
| `MessageQueues.dfy` | the leader draining its workers' queues, against all interleavings of sends and detaches |
| `InsertMode.dfy`, `MutableSegment.dfy` | the rows of one statement, placed in a mutable segment and then in immutable ones; the log of a mutable segment and its snapshots |
| `JsonbReader.dfy` | the two-stack machine that rebuilds a JSON value from its event stream |
| `CodeTokenizer.dfy`, `CjkTokenizer.dfy`, `TokenText.dfy` | the two resumable tokenizers against a split of the whole text |
| `AvlTree.dfy`, `AvlArena.dfy` | the array-backed balanced tree of the free space map, with its list of unused slots and its tags |
| `Options.dfy` | a value that may be missing |

Pure code is modelled by functions, code that updates objects or arrays by classes and methods proved
against functions, and protocols by steps, runs and invariants.

What the proofs brought to light, each with the exact condition under which the promise holds:

- A vacuum that edits only mutable segments has no delete metas to save, so it takes no barrier
  before it returns. A merge that opened such a segment before the edit can then bring a deleted
  document back (`VacuumProtocol.SkippedBarrierRevivesDocument`). Conservation is proved for all runs
  without such a return, and `VacuumProtocol.OutdatedViewBreaksConservation` shows that this is the
  weakest condition on the return.
- The locks of a crashed merger are released before its transaction ends. A vacuum that comes in
  between finds an entry it cannot collect and fails (`VacuumProtocol.UnendedTransactionFailsVacuum`,
  `VacuumProtocol.AssertionHoldsIff`).
- A failed append to the shared aggregate buffer counts its segments as reported. If it was the last,
  a waiting process can take the first frame for the final result
  (`SharedAggregates.FailedAppendIsPolled`; `SharedAggregates.ParallelAggregates.PollAfterFailure` has
  the condition).
- A fresh run of the merge policy over what a run left behind can find something to merge if a hash
  map lists the segments in another order (`MergeQuiescence.OrderMatters`), which takes two segments
  of the same adjusted size, one heavy and one not (`MergeQuiescence.QuietInAnyOrderIff`). It panics
  if what is left has no documents (`MergeQuiescence.SimulateLeftovers`).
- The length checks of the shared aggregate buffer do not count the eight bytes of the prefix.
  A result can pass the check and not fit (`SharedAggregates.PrefixDoesNotFit`);
  `SharedAggregates.ParallelAggregates.Append` succeeds if and only if the frame fits with them.
- A build worker whose scan ends exactly with a written segment skips its last merge and can exceed
  its target (`BuildWorker.TargetExceeded`; `BuildWorker.TargetKeptIff` has the condition).
- A segment that fits a layer by its size without deleted documents but fills a candidate with its
  actual size is planned alone and then pruned, also if it has no document at all
  (`MergePolicy.EmptySegmentIsPruned`, `MergePolicy.NothingPrunedIff`).
- Writing the vacuum list leaves later pages of a longer earlier list as they are
  (pg_search/src/postgres/storage/merge.rs:122-195), so that a reader may see more ids than were
  written. The protocol allows for any such ids; they only keep merges from more segments.
- The merge sizes of a build worker are counted from one past the last chunk, so that the last merge
  can be two larger than the first (`BuildWorker.UnevenLayout`, `BuildWorker.LayoutIsEvenIff`).
- A mutable segment created with as many rows as the limit stays open, whereas one that reaches the
  limit by addition is frozen (`InsertMode.FullButOpen`, `InsertMode.FullSegmentStaysOpen`).
- An aggregate participant with a quota of zero would take every segment
  (`WorkDivision.AggregateState.CheckoutSegments`); the number of participants is planned so that no
  quota is zero (`WorkDivision.NoChunkIsEmpty`, `WorkDivision.ParticipantsAreNumbered`).
- The range of ideographs starts at U+4500 in the code and at U+4E00 in the comment above it
  (tokenizers/src/cjk.rs:39-53). The model follows the code.

## Model

| member | source | states |
|---|---|---|
| `VacuumProtocol.Apply` | pg_search/src/postgres/delete.rs:52-171 | one atomic step of any writer, merger, vacuum or scan; dead documents stay dead, and only a scan that pins the cleanup lock becomes a new open scan |
| `VacuumProtocol.WriterEffect` | pg_search/src/postgres/insert.rs:354-435 | a backend adds a segment or rows to an open mutable segment without touching the vacuum or any scan |
| `VacuumProtocol.MergerEffect` | pg_search/src/postgres/merge.rs:338-423 | the steps of a merge (lock, open, plan and claim, commit a candidate, remove the claim, crash, and later the end of a crashed merger's transaction) leave the vacuum, the scans and the dead documents alone |
| `VacuumProtocol.VacuumEffect` | pg_search/src/postgres/delete.rs:52-171 | the steps of a vacuum (exclude, collect stale claims, fail if any are left, list, pin, mark, save, barrier, return) only ever add dead documents and open no scan |
| `VacuumProtocol.ScanEffect` | pg_search/src/index/reader/index.rs:306-324 | the steps of a scan (pin the cleanup lock, then read the segment list, then close) leave the vacuum and the dead documents alone, and only pinning opens a scan |
| `VacuumProtocol.StepKeepsSafe` | pg_search/src/postgres/merge.rs:347-402 | every step of every actor keeps: lock owners agree with phases, claims are disjoint, claimed and listed segments are live, nobody claims a listed segment |
| `VacuumProtocol.SafeAfterPlan` | pg_search/src/index/merge_policy.rs:211-233 | choosing candidates among the segments that neither the vacuum list nor the MergeList names keeps all claims disjoint from each other and from the vacuum |
| `VacuumProtocol.SafeAfterCommit` | pg_search/src/postgres/merge.rs:383-394 | replacing a candidate by its merged segment keeps every other claim and the vacuum list live |
| `VacuumProtocol.SafeAfterListing` | pg_search/src/postgres/delete.rs:73-83 | listing the open segments, with whatever entries of an earlier list remain, and pinning the sentinel before releasing the MergeLock shuts every later merge out of them |
| `VacuumProtocol.SafeAfterFencing` | pg_search/src/postgres/delete.rs:52-71 | shutting out mergers, collecting the entries of ended transactions, failing if an entry is left, and otherwise opening the segments keep the invariant |
| `VacuumProtocol.AlwaysSafe` | pg_search/src/postgres/delete.rs:52-83 | all of that in every state of every run, for any number of mergers, crashes, writers and scans |
| `VacuumProtocol.MergesAndVacuumNeverOverlap` | pg_search/src/postgres/delete.rs:66-83 | in every reachable state claims are pairwise disjoint and, while the sentinel is pinned, disjoint from the vacuum list; the segments of the vacuum are listed and live; and from its assertion until it has listed them nothing is claimed |
| `VacuumProtocol.AssertionHoldsIff` | pg_search/src/postgres/delete.rs:58-70 | the assertion that no merge is active holds if and only if no entry is left of a crashed merger whose transaction has still to end |
| `VacuumProtocol.UnendedTransactionFailsVacuum` | pg_search/src/postgres/storage/buffer.rs:170-182 | a concrete run: a merger crashes, its locks are released, and the vacuum fails before its transaction has ended |
| `VacuumProtocol.LookupsSucceed` | pg_search/src/postgres/delete.rs:103-107 | in every run a merge finds the segments it replaces and the entry it removes, and the vacuum finds every segment it edits or saves deletes for |
| `VacuumProtocol.StepKeepsExact` | pg_search/src/postgres/merge.rs:367-402 | every step that does not lose a delete keeps live documents = inserted minus dead, each in one segment, and keeps every view a merge may still use up to date |
| `VacuumProtocol.ExactAfterMark` | pg_search/src/postgres/delete.rs:112-133 | looking at a segment deletes exactly its documents that were reported dead, at once if it is mutable; an immutable one is marked if and only if it has any; no other segment changes |
| `VacuumProtocol.ExactAfterSave` | pg_search/src/postgres/delete.rs:148-153 | saving all delete metas in one step deletes exactly the reported documents from all segments, and makes exactly those dead that were live |
| `VacuumProtocol.ExactAfterCommit` | pg_search/src/postgres/merge.rs:383-394 | a merge neither loses nor revives a document |
| `VacuumProtocol.MergeReplacesInputs` | pg_search/src/postgres/merge.rs:383-394 | the inputs are gone, exactly their documents are in one new immutable segment, or in none if there are none, and no other segment changes |
| `VacuumProtocol.AlwaysExact` | pg_search/src/postgres/merge.rs:367-402 | the exact invariant in every state of every run in which no vacuum returned under an outdated view |
| `VacuumProtocol.DocumentsConserved` | pg_search/src/postgres/delete.rs:85-134 | in every such state the live documents are those written and not dead, each in exactly one segment; dead are exactly those reported to the vacuums that returned and, of the one at work, some once it deletes and all once it has saved |
| `VacuumProtocol.StepHistory` | pg_search/src/postgres/delete.rs:112-153 | a step inserts exactly the documents it writes, and makes only documents dead that were reported to the vacuum at work, while it marks |
| `VacuumProtocol.History` | pg_search/src/postgres/delete.rs:85-153 | in every run, whatever goes wrong: what is inserted is what the steps wrote, and nothing is dead that was not reported to a vacuum that returned or deletes |
| `VacuumProtocol.DeadWasReported` | pg_search/src/postgres/delete.rs:119-123 | in every run, a dead document was reported to a vacuum earlier in the run |
| `VacuumProtocol.SettledIsDead` | pg_search/src/postgres/delete.rs:148-171 | what was reported to a vacuum that returned is dead |
| `VacuumProtocol.ScanReadsLiveDocuments` | pg_search/src/index/reader/index.rs:306-324 | a scan that reads the segment list finds exactly the documents written and not dead |
| `VacuumProtocol.DeadStaysDead` | pg_search/src/postgres/delete.rs:148-153 | over any stretch of a run the dead documents only grow |
| `VacuumProtocol.DeletesAreFinal` | pg_search/src/postgres/delete.rs:155-171 | once a vacuum has returned, no document it was told is dead is ever live again |
| `VacuumProtocol.BarrierBetween` | pg_search/src/postgres/delete.rs:148-164 | between saving delete metas and returning, every vacuum that saved any passes its barrier |
| `VacuumProtocol.OpenedSince` | pg_search/src/index/reader/index.rs:306-316 | a scan open now but not at an earlier state pinned the cleanup lock in between |
| `VacuumProtocol.ScansAtReturnAreNew` | pg_search/src/postgres/delete.rs:148-171 | whenever delete metas were saved, every scan open at the return was opened after the save |
| `VacuumProtocol.ScansAtReturnSeeNoDeadDocument` | pg_search/src/postgres/delete.rs:155-164 | and such a scan holds no document the callback reported dead |
| `VacuumProtocol.OutdatedViewBreaksConservation` | pg_search/src/postgres/delete.rs:246-261 | the condition on those results cannot be weakened: whenever a vacuum that took no barrier returns under an outdated view, the merge holding that view can break conservation |
| `VacuumProtocol.OutdatedViewIsPlanned` | pg_search/src/postgres/merge.rs:367-381 | after such a return nothing keeps the merge from planning and claiming the outdated segment |
| `VacuumProtocol.OutdatedCommitBreaksConservation` | pg_search/src/postgres/merge.rs:383-394 | committing a merge of a segment whose view differs from what is live breaks conservation |
| `VacuumProtocol.ReturnWithoutBarrier` | pg_search/src/postgres/delete.rs:246-261 | a concrete run: the vacuum edits only a mutable segment, has nothing to save, and returns while an older scan still holds the deleted document |
| `VacuumProtocol.SkippedBarrierRevivesDocument` | pg_search/src/postgres/delete.rs:246-261 | the same run continued: a merge that opened the segment before the edit commits, and a deleted document is live again |
| `VacuumProgress.SomebodyGoesOn` | pg_search/src/postgres/delete.rs:52-171 | whatever the merge policy chooses, whenever a merger or a vacuum is at work, one of them or a closing scan can take a step other than a crash after which there is less to go, without waiting for an ending transaction |
| `VacuumProgress.NoDeadlock` | pg_search/src/postgres/delete.rs:52-171 | so in no state of any run do the cleanup lock and the MergeLock block everybody |
| `VacuumProgress.WeightDrops` | pg_search/src/postgres/merge.rs:338-423 | a rank that is lowered, or goes, makes the sum of all ranks less |
| `VacuumProgress.WorkCanFinish` | pg_search/src/postgres/delete.rs:52-171 | from every safe state all merges and the vacuum can be brought to their end without a crash: mergers plan what the policy chooses and stop only when all of it is merged, and no vacuum fails that is not about to |
| `VacuumProgress.NotFailing` | pg_search/src/postgres/delete.rs:58-70 | once all transactions of crashed mergers have ended, no vacuum gets to fail its assertion |
| `VacuumProgress.EveryRunCanFinish` | pg_search/src/postgres/delete.rs:52-171 | so from every state of every run |
| `MergePolicy.AliveBytes` | pg_search/src/index/merge_policy.rs:318-335 | the size adjusted for deleted documents never exceeds the actual size, and equals it when nothing is deleted |
| `MergePolicy.AliveShare` | pg_search/src/index/merge_policy.rs:318-335 | it is the bytes times the documents that are not deleted by all documents, rounded down |
| `MergePolicy.AverageIsIrrelevant` | pg_search/src/index/merge_policy.rs:306-335 | for every mergeable segment the average document size plays no part in either size |
| `MergePolicy.CollectFacts` | pg_search/src/index/merge_policy.rs:282-298 | the collected segments are exactly the given, mergeable, unclaimed ones, each once, largest first |
| `MergePolicy.SortedBySizeIsStable` | pg_search/src/index/merge_policy.rs:296 | and segments of the same size stay in order |
| `MergePolicy.BinsSplitFitting` | pg_search/src/index/merge_policy.rs:98-120 | the closed candidates of a layer and the open one together are exactly the segments that fit, in order |
| `MergePolicy.BinsAreFull` | pg_search/src/index/merge_policy.rs:109-119 | every closed candidate reaches four thirds of the layer size, and falls below without its last member |
| `MergePolicy.BinsAreGood` | pg_search/src/index/merge_policy.rs:98-125 | one layer builds full, disjoint candidates of fitting segments only |
| `MergePolicy.LayerPlanIsGood` | pg_search/src/index/merge_policy.rs:82-131 | the same over all layers, largest first, with what is claimed carried from layer to layer |
| `MergePolicy.PlanIsGood` | pg_search/src/index/merge_policy.rs:68-131 | every candidate is one mutable segment or a layer candidate; all are disjoint, duplicate-free and drawn from given mergeable segments |
| `MergePolicy.LayerPlanLeavesLittle` | pg_search/src/index/merge_policy.rs:82-131 | after the layers, the unclaimed segments that fit a layer total less than four thirds of its size |
| `MergePolicy.PlanLeavesLittle` | pg_search/src/index/merge_policy.rs:82-131 | the same for the whole plan, mutable conversions included |
| `MergePolicy.PlanIsQuiescent` | pg_search/src/index/merge_policy.rs:82-131 | a fresh run over only the unclaimed segments builds no candidate |
| `MergePolicy.PruneShort` | pg_search/src/index/merge_policy.rs:140-161 | the remove-and-restart loop terminates and is the order-preserving filter |
| `MergePolicy.SingleIffHeavy` | pg_search/src/index/merge_policy.rs:98-120 | a candidate of a layer has one member if and only if its first is heavy: it fits the layer without its deleted documents and fills a candidate with them |
| `MergePolicy.NothingPrunedIff` | pg_search/src/index/merge_policy.rs:140-161 | pruning removes nothing if and only if no candidate of a layer starts with a heavy segment |
| `MergePolicy.NothingPruned` | pg_search/src/index/merge_policy.rs:140-161 | in particular if no given immutable segment is heavy for any layer |
| `MergePolicy.UndeletedIsHeavyIff` | pg_search/src/index/merge_policy.rs:318-335 | without deleted documents a segment is heavy for a layer of three bytes or more if and only if it has no document at all and four thirds of the layer size in bytes |
| `MergePolicy.UndeletedCandidateHasTwo` | pg_search/src/index/merge_policy.rs:85-120 | if no immutable segment has deleted documents and each has a document, a candidate of a layer of three bytes or more has two members |
| `MergePolicy.UndeletedPrunesNothing` | pg_search/src/index/merge_policy.rs:140-161 | and with such segments and layers pruning removes nothing |
| `MergePolicy.HeavySegmentIsPruned` | pg_search/src/index/merge_policy.rs:85-161 | every heavy segment on its own is planned and then pruned |
| `MergePolicy.EmptySegmentIsPruned` | pg_search/src/index/merge_policy.rs:85-161 | a concrete one without any document |
| `MergePolicy.LayerPlanOfWithout` | pg_search/src/index/merge_policy.rs:82-161 | a second run over what the kept candidates leave behind plans exactly the dropped candidates again |
| `MergePolicy.ResultIsQuiescent` | pg_search/src/index/merge_policy.rs:26-195 | also after pruning, a fresh plan over the segments in no returned candidate, listed in the same order, is pruned to nothing |
| `MergePolicy.ResultIsGood` | pg_search/src/index/merge_policy.rs:26-195 | the returned lists are disjoint, duplicate-free, drawn from given mergeable segments, and convert every given mutable segment on its own |
| `MergePolicy.CandidateFillsLayer` | pg_search/src/index/merge_policy.rs:85-120 | the byte sizes of the segments of a candidate add up to four thirds of its layer, but not without the last, and each fits the layer without its deleted documents |
| `MergePolicy.ListsFillLayers` | pg_search/src/index/merge_policy.rs:26-195 | so every returned list is a mutable segment on its own, or enough segments that fill one of the layers |
| `MergePolicy.AverageDocSize` | pg_search/src/index/merge_policy.rs:57-66 | the bytes of all mergeable segments divided by their documents; dividing fails exactly when there is no document |
| `MergePolicy.SameSum` | pg_search/src/index/merge_policy.rs:57-66 | in whatever order the hash map lists them |
| `MergePolicy.FindSegment` | pg_search/src/index/merge_policy.rs:74-75 | the segment with that id, or none if there is none |
| `MergePolicy.ConvertMutables` | pg_search/src/index/merge_policy.rs:71-80 | one single-segment candidate for each given mutable segment |
| `MergePolicy.FillLayer` | pg_search/src/index/merge_policy.rs:92-125 | the loop that fills the last candidate of the list and throws an unfull one away builds exactly the candidates of one layer |
| `MergePolicy.BuildCandidates` | pg_search/src/index/merge_policy.rs:68-131 | the nested loops build exactly the plan |
| `MergePolicy.LayeredMergePolicy.constructor` | pg_search/src/index/merge_policy.rs:199-209 | a fresh policy: two segments at least, nothing mergeable, not processed |
| `MergePolicy.LayeredMergePolicy.SetMergeable` | pg_search/src/index/merge_policy.rs:211-233 | mergeable is everything neither the vacuum nor a merge has claimed |
| `MergePolicy.LayeredMergePolicy.ComputeMergeCandidates` | pg_search/src/index/merge_policy.rs:41-195 | nothing on no segments or after a call that returned something; a panic exactly without documents; otherwise the pruned plan |
| `MergePolicy.LayeredMergePolicy.SegmentMetas` | pg_search/src/index/merge_policy.rs:256-261 | one meta for each mergeable segment |
| `MergePolicy.LayeredMergePolicy.Simulate` | pg_search/src/index/merge_policy.rs:245-276 | the pruned plan over its segments listed in some order; every list is a mutable segment or fills a layer, in bytes; what stays mergeable is exactly the union of the lists; each mutable segment is its own; a second call returns none |
| `MergeQuiescence.SinglesIff` | pg_search/src/index/merge_policy.rs:98-125 | all candidates of a layer are single segments if and only if no light segment comes before a heavy one and the light ones fill no candidate |
| `MergeQuiescence.LightTotalSame` | pg_search/src/index/merge_policy.rs:98-125 | what the light segments add up to does not depend on their order |
| `MergeQuiescence.PlanSame` | pg_search/src/index/merge_policy.rs:82-131 | without a heavy and a light segment of the same adjusted size, whether all candidates are single does not depend on the order of the segments |
| `MergeQuiescence.TieBreaks` | pg_search/src/index/merge_policy.rs:282-298 | with such a pair there is an order in which something is to be merged |
| `MergeQuiescence.QuietInAnyOrderIff` | pg_search/src/index/merge_policy.rs:26-195 | so a run that returns nothing returns nothing in every order if and only if there is no such pair |
| `MergeQuiescence.LeftoversAreQuiet` | pg_search/src/index/merge_policy.rs:26-195 | and then a run over the leftovers of another, listed in any order, returns nothing |
| `MergeQuiescence.SimulateLeftovers` | pg_search/src/index/merge_policy.rs:41-276 | a run of the policy and a fresh one over the segments in no returned candidate: it panics if and only if there are such segments but no document in them; otherwise, without such a pair, it returns nothing |
| `MergeQuiescence.OrderMatters` | pg_search/src/index/merge_policy.rs:245-298 | a concrete pair: nothing is returned in one order, and both in the other |
| `JsonbReader.Step` | pg_search/src/postgres/jsonb_support.rs:71-165 | one round of the reader consumes at least one event and at most those there are |
| `JsonbReader.CloseFrame` | pg_search/src/postgres/jsonb_support.rs:83-121 | the end of a container moves it into its parent, with the last dangling key if that is an object, and fails exactly on malformed nesting |
| `JsonbReader.ReadValueOf` | pg_search/src/postgres/jsonb_support.rs:122-149 | the event after a key adds a pair, or opens a container and leaves the key dangling, and fails exactly on any other event |
| `JsonbReader.InsertFacts` | pg_search/src/postgres/jsonb_support.rs:83-149 | a new key comes last in an object; one that is there keeps its place, and no other value changes |
| `JsonbReader.JsonbIterate` | pg_search/src/postgres/jsonb_support.rs:62-172 | the loop over the events computes what the stack machine does |
| `JsonbReader.EmitIsFlat` | pg_search/src/postgres/jsonb_support.rs:62-75 | the events of a container carry only scalars, between a begin and an end of its kind |
| `JsonbReader.FillArray` | pg_search/src/postgres/jsonb_support.rs:75-99 | from any aligned state, the events of items append exactly these to the array on top |
| `JsonbReader.FillObject` | pg_search/src/postgres/jsonb_support.rs:100-149 | the same for the pairs of an object with distinct keys |
| `JsonbReader.FillFrame` | pg_search/src/postgres/jsonb_support.rs:75-149 | the events of a nested container fill exactly that container, whatever is below it on the stack |
| `JsonbReader.ReadsBackContainer` | pg_search/src/postgres/jsonb_support.rs:62-172 | arrays and objects, nested to any depth, are read back |
| `JsonbReader.ReadsBackScalar` | pg_search/src/postgres/jsonb_support.rs:75-82 | a raw scalar at the root is read back |
| `JsonbReader.ReadsBack` | pg_search/src/postgres/jsonb_support.rs:62-172 | for every JSON value: no malformed-input failure, the value itself as the result, and at every step one dangling key for each open frame inside an object |
| `SharedAggregates.PrefixRoundTrip` | pg_search/src/postgres/mod.rs:478-480 | the little-endian length prefix reads back as the length |
| `SharedAggregates.LowByteFirst` | pg_search/src/postgres/mod.rs:478-480 | and its low byte comes first |
| `SharedAggregates.FirstFrame` | pg_search/src/postgres/mod.rs:496-510 | the first frame of a run of frames can be cut off knowing only the bytes |
| `SharedAggregates.NextFrame` | pg_search/src/postgres/mod.rs:496-510 | the same at any offset at which a frame starts |
| `SharedAggregates.MergeAllAppend` | pg_search/src/postgres/mod.rs:506-509 | merging one more result is independent of the order of the others |
| `SharedAggregates.MergeFrames` | pg_search/src/postgres/mod.rs:492-510 | the decoding loop merges exactly the results the frames hold |
| `SharedAggregates.CopyInto` | pg_search/src/postgres/mod.rs:478-483 | copying into a stretch of the buffer changes that stretch and nothing before it |
| `SharedAggregates.ParallelAggregates.constructor` | pg_search/src/postgres/mod.rs:343-365 | a zeroed header and a buffer of the configured size |
| `SharedAggregates.ParallelAggregates.WriteFrame` | pg_search/src/postgres/mod.rs:476-487 | appends one frame to the bytes below the watermark |
| `SharedAggregates.ParallelAggregates.Compact` | pg_search/src/postgres/mod.rs:490-530 | all frames and the new result become one frame in place; fails exactly when that is too long, then changing nothing, or without room for eight bytes of prefix, then leaving the prefix and no frame |
| `SharedAggregates.ParallelAggregates.Append` | pg_search/src/postgres/mod.rs:447-531 | succeeds exactly when the result, or the merged result, fits with its prefix; then, if nothing failed before, the frames stand for everything appended, and once all segments have reported there is one frame; on failure the segments count as reported unless the result itself is too long, and the frames are kept or lost |
| `SharedAggregates.ParallelAggregates.Poll` | pg_search/src/postgres/mod.rs:535-570 | not ready until all count as reported, then the first frame; if nothing failed, that is the merge of everything appended |
| `SharedAggregates.ParallelAggregates.PollAfterFailure` | pg_search/src/postgres/mod.rs:447-570 | after a failed append a waiting process gets a result if and only if all segments count as reported, there were frames, and it was not the room for the prefix that was missing; it is the first frame alone |
| `SharedAggregates.FailedAppendIsPolled` | pg_search/src/postgres/mod.rs:463-519 | a concrete failure on the last result after which the first is handed out as final |
| `SharedAggregates.StandForMore` | pg_search/src/postgres/mod.rs:490-530 | a written frame and a compaction both keep that the frames stand for everything appended |
| `SharedAggregates.PrefixDoesNotFit` | pg_search/src/postgres/mod.rs:463-469 | a concrete result of 15 bytes passes the length check of 16 and cannot be written |
| `SharedAggregates.SameTotal` | pg_search/src/postgres/mod.rs:490-530 | compaction does not change what the frames stand for |
| `ScanClaims.ParallelScanState.constructor` | pg_search/src/postgres/mod.rs:281-284 | all segments unclaimed |
| `ScanClaims.ParallelScanState.Checkout` | pg_search/src/postgres/mod.rs:573-609 | the last unclaimed segment is claimed by the caller, so indexes are claimed once each in strictly descending order; none only when none is left |
| `ScanClaims.ParallelScanState.IncrementQueryCount` | pg_search/src/postgres/mod.rs:430-443 | one more query of the worker, up to the greatest sixteen-bit number, and no other counter changes |
| `ScanClaims.Explain` | pg_search/src/postgres/mod.rs:620-638 | the report lists exactly the workers with a claim, each with its segments from the back |
| `ScanClaims.ClaimedByMembers` | pg_search/src/postgres/mod.rs:624-637 | a worker is listed with exactly the indexes whose claim is its own |
| `ScanClaims.ClaimedByDescends` | pg_search/src/postgres/mod.rs:624-637 | and in descending order, so each once |
| `ScanClaims.EachClaimIsListedOnce` | pg_search/src/postgres/mod.rs:620-650 | every claimed segment is listed under exactly its claimer, an unclaimed one nowhere |
| `ScanClaims.TotalWithout` | pg_search/src/postgres/mod.rs:639-644 | the total is the sum over the listed workers, whatever the order |
| `ScanClaims.CountQueries` | pg_search/src/postgres/mod.rs:639-644 | the loop over the listed workers gives each its counter, if it has one, and adds these up |
| `ScanClaims.ParallelScanState.ExplainData` | pg_search/src/postgres/mod.rs:620-650 | after any sequence of checkouts and queries the report lists exactly the workers with a claim, each with the segments of its claims and its number of queries (saturated; none beyond the counted workers), and the sum of these |
| `WorkDivision.ChunksTile` | pg_search/src/parallel_worker/mod.rs:579-585 | the chunks lie end to end and fill the whole range |
| `WorkDivision.ChunksAreEven` | pg_search/src/parallel_worker/mod.rs:579-585 | lengths differ by one at most and never grow; an index past the last chunk has the last length |
| `WorkDivision.NoChunkIsEmpty` | pg_search/src/parallel_worker/mod.rs:579-585 | no chunk is empty if and only if there are no more chunks than elements |
| `WorkDivision.LengthsAddUp` | pg_search/src/parallel_worker/mod.rs:579-585 | the lengths of the first chunks add up to where the next starts |
| `WorkDivision.BuildTargetsAddUp` | pg_search/src/postgres/build_parallel.rs:243-260 | for every setting and every number of workers launched, with or without the leader, who passes the number of participants as index, the targets are positive and add up to the target segment count |
| `WorkDivision.OneEach` | pg_search/src/postgres/build_parallel.rs:246-258 | with as many participants as segments or more each is to make one |
| `WorkDivision.SmallTableIsOneSegment` | pg_search/src/postgres/build_parallel.rs:737-759 | a table with few rows or a heap of 15 MiB or less is built without workers into one segment; any other has its target divided |
| `WorkDivision.BuildWorkersIsLargest` | pg_search/src/postgres/build_parallel.rs:668-734 | the number of workers asked for is the largest the settings allow with all participants at most half as many as the segments, and none for one segment |
| `WorkDivision.AggregateWorkersIsLargest` | pg_search/src/aggregate/mod.rs:380-387 | the number of workers asked for is the largest allowed with no more participants than segments |
| `WorkDivision.ParticipantsAreNumbered` | pg_search/src/aggregate/mod.rs:380-424 | aggregate participants number themselves from 0 without gaps, are no more than the segments, and include the leader if and only if it takes part |
| `WorkDivision.SegmentIsLeft` | pg_search/src/aggregate/mod.rs:197-224 | under every interleaving a participant below its quota finds a segment |
| `WorkDivision.StepKeepsGood` | pg_search/src/aggregate/mod.rs:197-224 | each checkout keeps: nobody over quota, who is done has its quota, what is held and what remains is each segment once; a participant is done if and only if it has its quota, and no other changes |
| `WorkDivision.AlwaysGood` | pg_search/src/aggregate/mod.rs:197-224 | that in every state of every run; the remaining count is the sum of the unfilled quotas, and each checkout takes one |
| `WorkDivision.EverySegmentIsAggregatedOnce` | pg_search/src/aggregate/mod.rs:197-224 | when all are done each participant has exactly its quota and together they have every segment once |
| `WorkDivision.AggregateState.constructor` | pg_search/src/aggregate/mod.rs:455-459 | all segments remain |
| `WorkDivision.AggregateState.CheckoutSegment` | pg_search/src/aggregate/mod.rs:214-224 | the last remaining segment, or none |
| `WorkDivision.AggregateState.CheckoutSegments` | pg_search/src/aggregate/mod.rs:197-212 | alone, a participant takes its quota from the back, or what is left; a quota of zero takes everything |
| `BuildWorker.EstimateIsLeast` | pg_search/src/postgres/build_parallel.rs:465-473 | the estimate is the least number of segments of that size that hold the rows of one worker, if that fits 64 bits; none for no rows, and the most for segments without rows |
| `BuildWorker.SortedByDocsFacts` | pg_search/src/postgres/build_parallel.rs:432-436 | sorting by document count is an ascending permutation |
| `BuildWorker.SortedByDocsIsStable` | pg_search/src/postgres/build_parallel.rs:432 | and segments with as many documents stay in order |
| `BuildWorker.SmallestMergedFacts` | pg_search/src/postgres/build_parallel.rs:432-436 | segments taken from the front are ascending, none larger than any of the rest, and none is lost |
| `BuildWorker.PlannedSizesGrow` | pg_search/src/postgres/build_parallel.rs:387-404 | the intended merge sizes never shrink and differ by one at most |
| `BuildWorker.LeftForTheLast` | pg_search/src/postgres/build_parallel.rs:397-404 | what the planned sizes leave for the last merge, in closed form |
| `BuildWorker.PlannedClosed` | pg_search/src/postgres/build_parallel.rs:397-404 | how many segments the first merges are planned to take, in closed form |
| `BuildWorker.MergesDoneIs` | pg_search/src/postgres/build_parallel.rs:385-413 | the number of merges done during a scan is the one number of planned merges that are all filled while the next is not |
| `BuildWorker.MergesFollow` | pg_search/src/postgres/build_parallel.rs:385-413 | and a worker that puts no merge off has done exactly so many |
| `BuildWorker.WorkerBuildState.constructor` | pg_search/src/postgres/build_parallel.rs:316-360 | nothing written, merged or estimated |
| `BuildWorker.WorkerBuildState.EstimatedSegments` | pg_search/src/postgres/build_parallel.rs:465-473 | the first estimate is kept |
| `BuildWorker.WorkerBuildState.Merge` | pg_search/src/postgres/build_parallel.rs:432-457 | the smallest unmerged segments, sorted, become one, none of them larger than any that is left, and no document is lost |
| `BuildWorker.WorkerBuildState.MergeDue` | pg_search/src/postgres/build_parallel.rs:385-413 | a merge is due exactly when its planned size is reached, and not the last time; all that is unmerged is then just enough |
| `BuildWorker.WorkerBuildState.TryMerge` | pg_search/src/postgres/build_parallel.rs:378-460 | a due merge takes everything unmerged |
| `BuildWorker.WorkerBuildState.LastMerge` | pg_search/src/postgres/build_parallel.rs:414-436 | the last merge is done if and only if there are more segments than the target, takes the smallest and leaves exactly the target |
| `BuildWorker.WorkerBuildState.SegmentWritten` | pg_search/src/postgres/build_parallel.rs:520-526 | during the scan the number of merges stays below the target, merges follow the planned sizes and none is put off, each merges exactly what was unmerged, and documents are conserved |
| `BuildWorker.WorkerBuildState.Commit` | pg_search/src/postgres/build_parallel.rs:362-374 | with a last segment the smaller of the target and the count with it remain, the smallest merged if there are too many; without one the last merge is skipped and nothing changes |
| `BuildWorker.InStretches` | pg_search/src/postgres/build_parallel.rs:378-436 | every merge of a scan has exactly a planned stretch of the segments written |
| `BuildWorker.Scan` | pg_search/src/postgres/build_parallel.rs:520-526 | a scan of any segments keeps to the plan for the number estimated from the first |
| `BuildWorker.ScanAndCommit` | pg_search/src/postgres/build_parallel.rs:239-283 | a scan and a commit leave what the inputs determine |
| `BuildWorker.OnlyTheLastRemains` | pg_search/src/postgres/build_parallel.rs:378-436 | if the estimate was right, all merges but the last are done when one segment is missing |
| `BuildWorker.Build` | pg_search/src/postgres/build_parallel.rs:239-283 | over a whole build documents are conserved and the number of segments is exactly what the inputs determine, never above the target with a last segment; each merge of the scan has a planned stretch of what was written, and the last the smallest of the rest; with a right estimate the target is met exactly by merges of the planned sizes |
| `BuildWorker.LayoutIsEvenIff` | pg_search/src/postgres/build_parallel.rs:397-404 | the final segments are as even as chunks if and only if at most one chunk is longer than the others, because the plan starts one past the last chunk |
| `BuildWorker.TargetExceeded` | pg_search/src/postgres/build_parallel.rs:362-374 | a concrete build: a target of one, two written segments and none at the end leave two |
| `BuildWorker.TargetKeptIff` | pg_search/src/postgres/build_parallel.rs:362-374 | a build without a last segment keeps its target if and only if the segments written beyond the filled merges are no more than the merges not done |
| `BuildWorker.UnevenLayout` | pg_search/src/postgres/build_parallel.rs:397-404 | a concrete plan: eight segments for a target of three become two, two and four |
| `MessageQueues.StepKeepsInv` | pg_search/src/parallel_worker/builder.rs:229-306 | every send, detach and step of the iterator keeps: what a worker sent is what was handed out, then what is in the batch, then what is queued |
| `MessageQueues.ReceiveKeepsInv` | pg_search/src/parallel_worker/builder.rs:233-241 | a poll takes at most one message of each worker, so popping a batch from its end keeps each worker's order |
| `MessageQueues.AlwaysInv` | pg_search/src/parallel_worker/builder.rs:201-306 | that in every state of every run |
| `MessageQueues.EveryMessageArrivesOnce` | pg_search/src/parallel_worker/builder.rs:201-306 | for every interleaving, what is handed out is a prefix of what was sent, the check for leftover messages never fails, and the iterator ends only when all are detached and everything was handed out |
| `MessageQueues.IteratorEnds` | pg_search/src/parallel_worker/builder.rs:288-306 | once all workers have detached the iterator comes to its end |
| `MessageQueues.PollEnds` | pg_search/src/parallel_worker/builder.rs:229-255 | a poll never waits: it is over after one look at each queue, whatever the workers do |
| `MessageQueues.StartIsOpen` | pg_search/src/parallel_worker/builder.rs:201-255 | at the start every worker can send and nothing has been sent |
| `MessageQueues.DetachIsFinal` | pg_search/src/parallel_worker/builder.rs:229-255 | a worker that has detached sends nothing more |
| `MessageQueues.RecvReturnsEverything` | pg_search/src/parallel_worker/builder.rs:201-227 | the blocking receive, for every interleaving: what it has of a worker is a prefix of what was sent, each round takes one message of each worker not found detached, and at its end it has everything in order |
| `MessageQueues.RecvEnds` | pg_search/src/parallel_worker/builder.rs:201-227 | once all workers have detached it comes to its end |
| `CodeTokenizer.SplitIsOrdered` | tokenizers/src/code.rs:106-195 | the tokens of the lookahead split are ordered, non-empty, hold no delimiter, break nowhere inside and end where they must |
| `CodeTokenizer.SplitCovers` | tokenizers/src/code.rs:106-195 | every alphabetic and every numeric character is in a token and nothing else is |
| `CodeTokenizer.TokensJoin` | tokenizers/src/code.rs:106-215 | a token goes on from one character to the next if and only if both are digits, or both letters and the second does not start a word: an upper case letter after one that is not, or before one that is not |
| `CodeTokenizer.AdvanceState` | tokenizers/src/code.rs:106-181 | one character ends no token or one token, and leaves the state given by the next-state function |
| `CodeTokenizer.StepDescribes` | tokenizers/src/code.rs:106-181 | from any state that describes a text so far, one character ends no token or the next token of the split, and the new state describes the rest |
| `CodeTokenizer.LastToken` | tokenizers/src/code.rs:183-195 | at the end of the text the state holds the last token or none |
| `CodeTokenizer.CodeTokenStream.constructor` | tokenizers/src/code.rs:22-38 | the whole split is pending |
| `CodeTokenizer.CodeTokenStream.Advance` | tokenizers/src/code.rs:41-65 | hands out the next pending token with its byte offsets and text, or says there is none |
| `CodeTokenizer.CodeTokenStream.TakeChar` | tokenizers/src/code.rs:45-53 | one character of the loop |
| `CodeTokenizer.CodeTokenStream.Finalize` | tokenizers/src/code.rs:183-195 | the token in the making is the last one |
| `CodeTokenizer.Drain` | tokenizers/src/code.rs:41-65 | asking until there is none gives all pending tokens, numbered on |
| `CodeTokenizer.Tokenize` | tokenizers/src/code.rs:41-65 | for every text the resumable tokenizer emits exactly the lookahead split, on character boundaries, with positions from 0 |
| `TokenText.CutToken` | tokenizers/src/code.rs:77-83 | cutting the text at the byte offsets of a token gives its characters |
| `TokenText.CharAtOffset` | tokenizers/src/code.rs:77-83 | the offset of a character is a place where the text can be cut |
| `TokenText.OffsetsAddUp` | tokenizers/src/code.rs:45 | byte offsets add up over the characters |
| `CjkTokenizer.SplitIsOrdered` | tokenizers/src/cjk.rs:62-111 | tokens are in order; each is one ideograph or a run that can be made longer at neither end |
| `CjkTokenizer.SplitCovers` | tokenizers/src/cjk.rs:62-111 | every alphabetic and every numeric character is in a token and nothing else is |
| `CjkTokenizer.TokensJoin` | tokenizers/src/cjk.rs:39-111 | a token goes on from one character to the next if and only if both are letters or digits and neither is in the ranges of ideographs, written out |
| `CjkTokenizer.ChineseTokenStream.constructor` | tokenizers/src/cjk.rs:18-30 | the whole split is pending |
| `CjkTokenizer.ChineseTokenStream.NextChar` | tokenizers/src/cjk.rs:79-81 | the character kept from the last call first, then those of the text |
| `CjkTokenizer.ChineseTokenStream.FindRunEnd` | tokenizers/src/cjk.rs:83-92 | reads to the first character outside the run and keeps it for the next call |
| `CjkTokenizer.ChineseTokenStream.TokenFrom` | tokenizers/src/cjk.rs:82-107 | the token that starts with a character, unless that is ignored |
| `CjkTokenizer.ChineseTokenStream.Advance` | tokenizers/src/cjk.rs:75-111 | hands out the next token of the split, or says there is none |
| `CjkTokenizer.Drain` | tokenizers/src/cjk.rs:75-111 | asking until there is none gives all pending tokens, numbered on |
| `CjkTokenizer.Tokenize` | tokenizers/src/cjk.rs:75-111 | for every text the resumable tokenizer emits exactly the split, on character boundaries, with positions from 0 |
| `InsertMode.WithRowsFacts` | pg_search/src/postgres/insert.rs:398-435 | the rows are appended once, in order, to the first open segment or a new one, nothing else changes, and no mutable segment outgrows twice the limit; the segment stays open if and only if it has fewer rows than the limit, and a new one is open |
| `InsertMode.FullButOpen` | pg_search/src/postgres/insert.rs:420-434 | a full segment stays open if and only if it was made new with that many rows |
| `InsertMode.FullSegmentStaysOpen` | pg_search/src/postgres/insert.rs:420-434 | a concrete insertion of two rows with a limit of two |
| `InsertMode.Index.constructor` | pg_search/src/postgres/insert.rs:398-435 | an index without segments |
| `InsertMode.WithoutRowsFacts` | pg_search/src/postgres/storage/block.rs:434-455 | removing rows that are there leaves exactly the others |
| `InsertMode.Index.AddMutable` | pg_search/src/postgres/insert.rs:398-435 | the search for an open segment and the update or creation give exactly that index |
| `InsertMode.Index.AddImmutable` | pg_search/src/postgres/insert.rs:391-396 | one finished segment with the written rows |
| `InsertMode.InsertState.constructor` | pg_search/src/postgres/insert.rs:86-130 | collecting if a row limit is configured, writing otherwise |
| `InsertMode.InsertState.Insert` | pg_search/src/postgres/insert.rs:272-329 | a null key and a finished series are refused without effect; any other row is placed once, with at most one switch from collecting to writing |
| `InsertMode.InsertState.Write` | pg_search/src/index/writer/index.rs:198-250 | a row is pending, or, exactly when the memory is used up, finished with all pending ones in one segment |
| `InsertMode.RowsAreFinished` | pg_search/src/index/writer/index.rs:198-250 | all rows written are, in order, in finished segments, none of them empty, or pending |
| `InsertMode.SegmentsEndWhereFull` | pg_search/src/index/writer/index.rs:198-250 | a finished segment ends exactly where a row used up the memory |
| `InsertMode.InsertState.Cleanup` | pg_search/src/postgres/insert.rs:354-435 | what was collected or is pending is put into the index |
| `InsertMode.InsertState.InsertRows` | pg_search/src/postgres/insert.rs:272-329 | a series of rows leaves exactly these placed |
| `InsertMode.InsertAll` | pg_search/src/postgres/insert.rs:272-435 | a whole series and its cleanup: the first rows up to the limit in a mutable segment, the rest in order in new immutable ones, each row once; these end where the memory was used up or the series ends |
| `MutableSegment.ReplayAdds` | pg_search/src/postgres/storage/block.rs:407-430 | adding rows that are not there leaves those there and the new ones |
| `MutableSegment.ReplayRemoves` | pg_search/src/postgres/storage/block.rs:434-455 | removing rows that are there leaves the others |
| `MutableSegment.ReplaySize` | pg_search/src/postgres/storage/block.rs:471-485 | a proper log leaves as many rows as its counts say, so the assertion holds |
| `MutableSegment.Sorted` | pg_search/src/postgres/storage/block.rs:482-483 | the rows of a set in ascending order, each once |
| `MutableSegment.MutableSnapshot` | pg_search/src/postgres/storage/block.rs:458-485 | the rows as of when the entry was read, although the log may have grown, in ascending order; an error exactly for a segment that is not mutable |
| `AvlTree.RebalanceKeepsItems` | pg_search/src/postgres/storage/avl.rs:443-467 | rotations and rebalancing do not change the items or their order |
| `AvlTree.RebalanceBalances` | pg_search/src/postgres/storage/avl.rs:443-467 | subtrees two apart in height at most become a balanced tree, at most one lower |
| `AvlTree.InsertItems` | pg_search/src/postgres/storage/avl.rs:495-557 | insertion into the tree is insertion into the ordered items |
| `AvlTree.InsertBalanced` | pg_search/src/postgres/storage/avl.rs:495-557 | insertion keeps balance and adds at most one level |
| `AvlTree.DeleteItems` | pg_search/src/postgres/storage/avl.rs:559-634 | removal from the tree is removal from the ordered items; with two children the next item moves into the slot |
| `AvlTree.DeleteBalanced` | pg_search/src/postgres/storage/avl.rs:559-634 | removal keeps balance and takes away at most one level |
| `AvlTree.InsertedContents` | pg_search/src/postgres/storage/avl.rs:343-364 | insertion sets one key, which keeps its tag if it was there |
| `AvlTree.RemovedContents` | pg_search/src/postgres/storage/avl.rs:366-376 | removal takes out one key with its value and tag |
| `AvlTree.HeightIsLogarithmic` | pg_search/src/postgres/storage/avl.rs:286-296 | a balanced tree of height h has at least 2^(h/2) - 1 nodes |
| `AvlArena.LinkFree` | pg_search/src/postgres/storage/avl.rs:306-320 | all slots become one list of unused slots of height 0 and keep their tags |
| `AvlArena.IndexRoundTrip` | pg_search/src/postgres/storage/avl.rs:21-34 | a slot number survives its sixteen-bit form if and only if it is below the capacity of 65535 |
| `AvlArena.AvlTreeMap.constructor` | pg_search/src/postgres/storage/avl.rs:306-324 | an empty map over the given slots |
| `AvlArena.AvlTreeMap.Insert` | pg_search/src/postgres/storage/avl.rs:346-364 | full exactly for a new key without an unused slot, and then nothing changes; otherwise the key has the value, a new key takes the first free tag, and all other tags stay |
| `AvlArena.AvlTreeMap.Remove` | pg_search/src/postgres/storage/avl.rs:367-376 | the key is gone, its value is returned, its tag is the first free one, and no other key loses its tag |
| `AvlArena.AvlTreeMap.Get` | pg_search/src/postgres/storage/avl.rs:175-187 | the value and tag of the key, or none |
| `AvlArena.AvlTreeMap.GetLte` | pg_search/src/postgres/storage/avl.rs:197-222 | the entry with the greatest key not above the given one, or none |
| `AvlArena.AvlTreeMap.Len` | pg_search/src/postgres/storage/avl.rs:162-164 | the number of keys |
| `AvlArena.AvlTreeMap.UpdateHeight` | pg_search/src/postgres/storage/avl.rs:408-413 | the height from those of the children |
| `AvlArena.AvlTreeMap.RotateRight` | pg_search/src/postgres/storage/avl.rs:415-428 | the slots stand for the rotated tree, and no other slot changes |
| `AvlArena.AvlTreeMap.RotateLeft` | pg_search/src/postgres/storage/avl.rs:430-441 | the same to the left |
| `AvlArena.AvlTreeMap.Rebalance` | pg_search/src/postgres/storage/avl.rs:443-467 | the slots stand for the rebalanced tree |
| `AvlArena.AvlTreeMap.AllocSlot` | pg_search/src/postgres/storage/avl.rs:469-483 | the first unused slot, which keeps its tag, or full |
| `AvlArena.AvlTreeMap.FreeSlot` | pg_search/src/postgres/storage/avl.rs:485-493 | the slot becomes the first unused one and keeps its tag |
| `AvlArena.AvlTreeMap.InsertRec` | pg_search/src/postgres/storage/avl.rs:495-557 | the slots stand for the tree after insertion; only its own slots and the new one change; on full nothing does |
| `AvlArena.AvlTreeMap.MinIndex` | pg_search/src/postgres/storage/avl.rs:236-241 | the slot of the first node |
| `AvlArena.AvlTreeMap.MoveUp` | pg_search/src/postgres/storage/avl.rs:605-622 | the successor moves up and the two tags are swapped |
| `AvlArena.AvlTreeMap.DeleteRec` | pg_search/src/postgres/storage/avl.rs:559-634 | the slots stand for the tree after removal, the freed slot is the first unused one and holds the tag of the removed key |
| `AvlArena.HeightFits` | pg_search/src/postgres/storage/avl.rs:36-53 | no height written while a tree fits an arena, also before a rotation, when only the trees below the root are balanced, reaches the seven bits of a stored height or the iterator's stack of 128 |
| `AvlArena.AvlIter.constructor` | pg_search/src/postgres/storage/avl.rs:643-650 | all items are to come |
| `AvlArena.AvlIter.PushLeftChain` | pg_search/src/postgres/storage/avl.rs:655-663 | goes down to the left within the fixed stack, changing nothing that is to come |
| `AvlArena.AvlIter.Next` | pg_search/src/postgres/storage/avl.rs:669-686 | hands out the next item |
| `AvlArena.Entries` | pg_search/src/postgres/storage/avl.rs:643-686 | iteration lists every key once, in ascending order, with its value |

## Left out

- VacuumProtocol: cancellation of a vacuum between its steps, errors of a merge other than a crash, the physical recycling of pages, transaction visibility and the delete epoch; a crash releases all locks of a merger in one step, before its transaction ends, and there is one vacuum at a time, as Postgres enforces.
- VacuumProtocol: an open mutable segment nobody adds to because the row limit was removed from the options counts as frozen; configuring a limit again later, which would open it for writing again, is not modelled.
- VacuumProtocol.DocumentsConserved: holds for runs in which no vacuum returned without its barrier under an outdated view, because it is false otherwise (`SkippedBarrierRevivesDocument`).
- MergePolicy.AliveBytes: the ratio of live documents is taken as an integer division rounded down instead of a 64-bit floating point product; 64-bit overflow of sums of sizes is not modelled.
- MergePolicy: the order in which a hash map lists segments is left open; logging is not modelled.
- SharedAggregates: serialization is any round trip, and merging any associative and commutative operation; errors of either, and a reset of the scan within a run, are not modelled.
- ScanClaims: the wait of the leader under debug_parallel_query, and the reset on a rescan.
- JsonbReader: the conversion of numbers, strings, dates and times to JSON scalars; scalars are values that are passed on.
- WorkDivision: warnings about few workers, memory budgets, and the estimates of row and page counts, which are parameters; the target segment count is at least one, as its options guarantee.
- BuildWorker.Estimate: a quotient of reals rounded up instead of 64-bit floating point; 32-bit casts of counts are not modelled.
- MessageQueues: messages arrive whole; the bytes of the shared ring buffers and their blocking belong to Postgres.
- InsertMode: other backends inserting at the same time, the merge that may follow a cleanup, the conversion of a row to a document other than the check of its key, and row counts beyond 32 bits.
- CodeTokenizer, CjkTokenizer: the Unicode tables behind a character's properties, which are parameters; offsets beyond 64 bits.
- AvlArena: keys, values and tags are integers; access to a slot for update, the greatest slot, and the byte layout of a slot are not modelled.
- The query planner and executor hooks, heap and catalog access, column types and their conversions, the other tokenizers, whose segmentation is in foreign libraries, the block storage and the rest of the free space map.
