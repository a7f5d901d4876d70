# BloodTrail: verified models

BloodTrail answers graph queries from an in-memory replica of PostgreSQL. These
files model the parts of it that must not go wrong and prove, for every input
and every run, what each of them promises:

- **Write-through** (`GraphStore`, `Overlay`, `Candidates`, `Tracking`, `Replica`,
  `Agreement`, `Orphans`, `Stranding`, `Healing`, `FileBoot`, `BootJoin`). Writers commit to
  PostgreSQL at any moment. Applies run later, one at a time, in any order, and read
  their keys back row by row while further writes commit. Rebuilds load beside them
  and are adopted only if the epoch has not moved. `Replica` is this as a transition
  system, `Overlay` and `Candidates` are the segment and candidate code it runs on.
  `Orphans`, `Stranding` and `Healing` say exactly which commits can spoil the replica
  and which lookups mend it, `FileBoot` adds a boot from a saved snapshot, and `BootJoin` says what its verdict guarantees.
- **Recovery** (`Recovery`). Fallback callers, the one rebuild loop, its
  compare-and-swap flag and its recheck, one atomic step at a time.
- **Settlement** (`Engines`, `History`, `Observers`, `Recognizers`, `WriteCalls`,
  `Driver`, `Recording`). The driver's entry points over classes that share one mutable scope slot, for
  every script a delegate can run and every ending of every call. `Recording` hands
  what they record over to the replica.
- **Reads that write** (`ReadTransactions`). What the engine may still serve inside
  one read transaction.
- **Boot gap** (`BootGap`). The buffer that accounts for writes made during boot,
  and the verdict on their counters.
- **Graph kernel** (`Csr`, `Bitsets`, `Paths`, `Bfs`, `BiBfs`). Counting-sort build,
  filtered breadth-first search, bidirectional search.
- **.env editor** (`Texts`, `EnvLines`, `EnvScan`, `EnvEntries`, `EnvSpelling`, `EnvRelist`,
  `EnvFile`, `EnvRemoval`). The line-by-line reader, the same as one scan of the text,
  the spellings it takes, and the edits it is for.
- **Generated identifiers** (`HashIds`, `Identifiers`).

PostgreSQL, the embedded driver and the scheduler are nondeterministic: their
outcomes are parameters (`Reply`, `BumpResult`, `ReadOutcome`, a step of a run). As
the source assumes, a delegate error rolls a transaction back, a batch
autocommits, ids are never reused, and deleting a node deletes its edges.

Where a method of the source loops or updates fields, the model is a method over
arrays or a class, proved against a function or predicate. The meaning of that
function or predicate is then the subject of lemmas.

## Findings

Four statements of the source or its comments do not hold as written. Each has a run
or a call that shows it and an exact condition for all of them.

- **A deleted node can stay visible.** internal/engine/apply.go:493-498 says that a
  row whose stale copy a kind-scoped delete does not match belongs to another pending
  write, whose own read-back will find it absent. For a write keyed by objectid it need
  not: read-back re-reads the nodes the view knows under an objectid only when no row
  carries it any more (internal/engine/readback.go:491-498). When one write changes a
  node by objectid, a second deletes it by kinds its stale copy does not match, and a
  third creates another node under the same objectid, nothing looks at the first node
  again: `Orphans.AnOrphanIsServed`. A commit *strands* a node it deletes when the view,
  or a load that may become the view, holds it and no write to be applied by then names
  its id, is a fallback, or matches the row held there. All of that can be seen before
  the commit. `Stranding.StrandedExactly`: some way of going on ends with everything
  applied and the engine serving the node, if and only if the commit strands it.
  `Orphans.AgreementUnlessStranded`: a run whose commits strand nothing ends in
  agreement. `Orphans.AgreementWhenGuarded` needs no look at the view: it is enough that
  no commit deletes a node, other than by id, whose objectid a write not yet applied is
  keyed by. That one goes one way only: such a delete does no harm while the view's row
  of the node is not stale. `Healing.OnlyMisledLookups` says what else it takes: every
  later lookup of the objectid the view has the node under must find some other row, or
  come while a stale load waits to be adopted. One lookup that finds none mends the view.
- **Final criteria of a relationship query can go missing.** A node query taints
  itself when `Query` hands final criteria to PostgreSQL, because they stay on its
  builder (node_query.go:36-41). A relationship query does not
  (relationship_query.go:309-325). If they stay there too, a later `Count`, and a later
  `Query` as well, are served without them: `ReadTransactions.ACountMissesFinalCriteria`
  and `ASecondQueryMissesFinalCriteria`. `RecordingRelationshipQuery.Read`, `QueryRows`
  and `Query` each state that what is served is what the builder asks for if and only if
  the builder holds no final criteria.
- **A wipe can be durable and abandoned.** `WipeGraph` settles by whether its delegate
  returned nil (driver.go:720-745, 791-794). A delegate handed the embedded driver's
  transaction may commit it and then return an error or panic. The truncation is then
  durable and its scope abandoned: `Driver.ACommittedWipeIsAbandoned`.
  `Driver.WipeGraph` states, for every delegate, that all is settled if and only if
  nothing was committed by a delegate that then failed or panicked. A delegate that never
  commits is safe (`NoCommitNothingCommitted`). `Driver.Run` has no such delegate and is
  always settled.
- **A bumped scope can also be marked as failed.** internal/engine/changes_scope.go:115
  says that a scope whose first bump failed has no way to become bumped. `ensureBumped`
  retries it on the next call, which may succeed:
  `Engines.ABumpedScopeIsMarkedAsFailed`. `Engines.EnsureBumpedEachTime` says when, for
  every sequence of calls on one scope, and that the accounting survives it.

Beside `Agreement.ReplicaAgreement` stands one more way to be out of date, which the
source documents itself (internal/engine/readback.go:352-356): an edge keyed by the
objectids of its endpoints, committed inside a batch that failed, is skipped when neither
endpoint can be named. Edges keyed that way are not among the runs of `Replica`, and no
orphan stands for them.

Nor is every list read back as it was kept. Taking the override out leaves the other
names as written (internal/compose/envfile.go:449-450). Bare in an unquoted entry, a list
that now begins with `#` or a blank, or ends in a blank or a return, is read as another:
`EnvRemoval.TakeOutIsRead` gives the exact condition, `ANameTurnsIntoAComment` an example.

## Model

| member | source | states |
|---|---|---|
| Agreement.ReplicaAgreement | internal/engine/apply.go:71-109 | After any run, a serving engine with nothing pending shows exactly PostgreSQL's visible graph if and only if no orphan is left |
| Agreement.DifferencesAreCovered | internal/engine/apply.go:644-653 | Whatever run led here, every row on which a serving view is wrong is covered by a committed write still to be applied, hangs on a deleted node, or is an orphan |
| Agreement.RunKeepsInv | internal/engine/apply.go:142-284 | Any sequence of commits, Applies, single reads, failures, panics and rebuilds keeps the replica and every adoptable load tracked |
| Agreement.StepKeepsInv | internal/engine/apply.go:142-284 | Each single step does |
| Agreement.CommitKeepsInv | internal/engine/apply.go:484-498 | A commit at any moment, also between two reads of a running Apply, is covered by its own change log in the view and in every load |
| Agreement.BeginApplyKeepsInv | internal/engine/apply.go:156-230 | Taking a write off the pending ones moves the epoch and loses no coverage: its keys and its candidates become the agenda, or the engine gives up serving |
| Agreement.ReadNodeKeepsInv | internal/engine/readback.go:795-850 | A read of one node at any moment may discharge that node's id |
| Agreement.ReadObjectIdKeepsInv | internal/engine/readback.go:491-506 | A lookup by objectid may discharge it, given that known nodes become candidates when no row carries it |
| Agreement.ReadTripleKeepsInv | internal/engine/readback.go:1336-1356 | A lookup by triple may discharge it |
| Agreement.PublishKeepsInv | internal/engine/apply.go:244-284 | Laying the segment over the view, cascades and dead triples included, leaves it tracked without the Apply that made it |
| Agreement.EndLoadKeepsInv | internal/engine/engine.go:621-647 | A snapshot adopted under an unmoved epoch has missed no applied write, so adopting it re-establishes the invariant |
| Orphans.AnOrphanIsServed | internal/engine/readback.go:491-498 | A run of fourteen steps after which a settled, serving engine shows a node PostgreSQL has deleted |
| Orphans.AgreementUnlessStranded | internal/engine/apply.go:484-498 | A run whose commits strand no node ends, whenever it is settled and serving, in a view that is exact |
| Orphans.AgreementWhenGuarded | internal/engine/apply.go:493-498 | So does one whose commits delete no node, other than by id, under an objectid that a write not yet applied is keyed by |
| Orphans.GuardedStrandsNothing | internal/engine/apply.go:493-498 | Such a commit strands no node, in the view or in any load that may still be adopted |
| Orphans.AgreementWithoutTheMix | internal/engine/apply.go:493-498 | In particular a run without objectid-keyed writes, or without kind-scoped node deletes |
| Stranding.StrandedExactly | internal/engine/readback.go:491-506 | A commit's deletion of a node is lost on some continuation that ends settled and serving if and only if the commit strands the node |
| Stranding.SettleHeld | internal/engine/apply.go:142-284 | Whatever is outstanding, applying it key by key ends settled and serving, and heals no node that nothing outstanding names and that has a namesake under its objectids |
| Healing.LookupIsAnswered | internal/engine/readback.go:491-506 | When a lookup finds no row under an objectid, every node the view has under it is answered by the time the Apply publishes, and a deleted one not read before is gone from what it publishes |
| Healing.TripleIsAnswered | internal/engine/apply.go:459-480 | An edge the view showed of a triple looked up and found absent is gone from what the Apply publishes |
| Healing.OnlyMisledLookups | internal/engine/readback.go:491-506 | Over any run: a deleted node still served at the end was missed by every lookup of the objectid the view had it under, each of which found another row or came beside a stale load |
| Healing.LostOnlyIfStrandedAndMisled | internal/engine/readback.go:491-506 | A commit's deletion is lost on a continuation only if the commit strands the node and all those lookups are misled |
| FileBoot.BootedReplicaAgreement | internal/engine/bootgap.go:50-61 | With the adoption of a saved snapshot among the steps, a settled, serving engine still shows exactly PostgreSQL's visible graph, up to orphans |
| FileBoot.BootStepKeepsInv | internal/engine/apply.go:78-86 | At every step before it is adopted, the file is wrong only where a write still to be applied or buffered will look again |
| FileBoot.BeginApplyKeepsFile | internal/engine/bootgap.go:110-127 | A write applied while there is no view either joins the buffer, leaves nothing to replay, or rules the file out |
| FileBoot.AdoptFileKeepsInv | internal/engine/boot.go:863-905 | Once adopted, the buffered writes cover the file as pending ones do, and no rebuild beside it is harmed |
| BootJoin.CoveredFileIsTracked | internal/engine/boot.go:841-870 | If every commit since the file was taken bumped a counter past the file's and the verdict on the observed counters is a cover, the file is wrong only where a buffered or pending write looks again |
| BootJoin.CoveredFileAgrees | internal/engine/boot.go:841-905 | Adopting such a file, with no premise about what PostgreSQL held at process start, ends in agreement once everything is applied or replayed, up to orphans |
| BootJoin.ChainKeepsTracks | internal/engine/bootgap.go:50-61 | Any chain of commits keeps a copy tracked by change logs that include theirs |
| Tracking.CommitKeepsTracks | internal/engine/changes.go:240-262 | A commit keeps any copy tracked by the writes still to be applied, up to the orphans it makes |
| Overlay.EffectiveIsNewest | internal/engine/snapshot/view.go:791-840 | An edge's effective row is its newest segment record, and the base row only when no segment has one |
| Overlay.BuildApplySegment | internal/engine/apply.go:352-379 | The segment staged step by step is the declared one: tombstones for every absent key, cascade and dead triple, overruled by every row found; none when a property bag does not parse |
| Overlay.PublishedRows | internal/engine/apply.go:352-480 | What publishing makes of every node and edge: found rows as found, absent ids gone, visible edges of absent nodes and triples gone unless found, all else unchanged |
| Overlay.SegmentBuilder.TombstoneNodeWithCascade | internal/engine/apply.go:427-442 | A node's tombstone takes exactly its visible edges with it |
| Overlay.SegmentBuilder.AddNodeStates | internal/engine/apply.go:369-373 | Staging stops at the first bag that does not parse and otherwise stages every row |
| Candidates.ViewCandidates.NodesByObjectID | internal/engine/snapshot/view.go:1205-1234 | The merged delta, where an id's newest record decides it, and the base under what it overrides yield, once each, exactly the live nodes under an objectid |
| Overlay.EffectiveNodeIsNewest | internal/engine/snapshot/view.go:517-530 | A node's effective row is its newest segment record, and the base row only when no segment has one |
| Candidates.ViewCandidates.AddNodeKindCriteria | internal/engine/apply.go:592-643 | Adds exactly the nodes meeting the criteria, all of them when it includes no kind, minus the excluded kinds |
| Candidates.ViewCandidates.AddEdgeKindCriteria | internal/engine/apply.go:654-701 | The newest-first segment scan with its decided set and the base scan yield, once each, exactly the edges whose newest record is live with a wanted kind, hidden edges included |
| Candidates.ViewCandidates.ScanSegment | internal/engine/apply.go:660-685 | One segment decides exactly the ids no newer one decided |
| Candidates.ViewCandidates.Collect | internal/engine/apply.go:514-530 | The candidates of a whole change log are exactly the agenda's additions |
| Engines.Engine.Apply | internal/engine/apply.go:142-284 | Whatever PostgreSQL answers: a write that names anything leaves a serving engine with a view serving exactly when its segment was staged and fits, the bump is resolved once, a failed bump settles, and the accounts stay valid |
| Engines.AppliedOrNotServing | internal/engine/apply.go:230-267 | For every outcome of the read-back: the write's segment is laid over the view, or the engine stops serving; no write is dropped |
| Engines.Engine.ReplayOntoView | internal/engine/apply.go:186-284 | Every path after the accounts moves the epoch, and leaving serving starts recovery |
| Engines.Engine.FallBackOnApplyPanic | internal/engine/apply.go:294-314 | A recovered panic moves the epoch again and enters fallback |
| Engines.ApplyIsTheTransition | internal/engine/apply.go:142-314 | The engine's Apply is the transition system's: beginning one and then publishing, or failing on every other outcome, panics included, has exactly its effect |
| Engines.Engine.AdoptRebuiltView | internal/engine/engine.go:621-647 | Adopts exactly under the unmoved epoch; the resolved generation never goes back nor past the settled one |
| Engines.Engine.FinishFallbackRebuild | internal/engine/apply.go:1018-1026 | After clearing the flag, an engine back in fallback has claimed it again |
| Engines.Engine.EnterFallback | internal/engine/apply.go:733-738 | Stops serving, and an enabled engine has its rebuild flag claimed |
| Engines.Engine.ClaimRebuildLoop | internal/engine/apply.go:776-785 | One claim wins until the flag is cleared; a disabled engine claims nothing |
| Engines.Engine.EnsureBumped | write_observer.go:66-100 | A scope is bumped at most once however often it is asked; a failed bump opens one generation and makes the scope a fallback |
| Engines.EnsureBumpedEachTime | write_observer.go:66-100 | After any sequence of calls a scope is bumped iff one advanced, and marked as failed iff one failed before the first that advanced; one generation and at most one bump come of it |
| Engines.ABumpedScopeIsMarkedAsFailed | internal/engine/changes_scope.go:115 | A scope that is both |
| Engines.Engine.NoteWatermarkBumpFailure | internal/engine/watermark.go:514-545 | Opens a generation only for a scope that carries none |
| Engines.Engine.SettleWatermarkFailure | internal/engine/watermark.go:597-610 | Consumes a scope's mark at most once |
| Engines.Engine.NoteSelfSettlingWatermarkFailure | internal/engine/watermark.go:561-568 | A failure that guards no write settles as it is noted |
| Engines.Engine.ResolveAbandonedWrite | internal/engine/watermark.go:634-655 | Resolves the bump and settles its failure without an Apply |
| Engines.Engine.GenerationsAgreeWhenAllSettled | internal/engine/changes_scope.go:103-145 | Settled failures never exceed noted ones, and are as many exactly when no scope carries a mark |
| Engines.Engine.TrustLeavesNothingUnsettled | internal/engine/watermark.go:860-895 | When every noted failure is resolved, no scope carries one |
| Engines.WriteScope.TakeWatermarkBumpFailure | internal/engine/changes_scope.go:141-145 | Reports the mark and consumes it |
| History.NothingOwedMeansNothingLost | driver.go:330-366 | With no debt left, every durable row was followed by an Apply whose change log names it or forces a rebuild |
| History.NothingOpenMeansSettledOnce | write_observer.go:102-120 | With no bump open, each counter was resolved exactly as often as it was bumped |
| Observers.ApplyWrite | internal/engine/apply.go:142-170 | Applying a scope that covers the debt leaves neither debt nor open bump |
| Observers.Abandon | write_observer.go:107-112 | Abandoning is right when nothing durable is owed |
| Observers.Observer.Named | write_observer.go:249-259 | A call whose keys are known is covered before it runs, whatever becomes of it |
| Observers.Observer.Returned | write_observer.go:236-248 | A call named by its result is covered when it succeeds, and leaves nothing durable otherwise |
| Observers.Observer.ReturnedOrFallback | write_observer.go:1142-1167 | One whose failure may come after its rows are durable is covered by a fallback |
| Observers.Observer.Opaque | write_observer.go:338-346 | One nothing can name is covered by a fallback from before it runs |
| Observers.Observer.WithGraph | write_observer.go:352-364 | The child writes into the slot of its parent |
| Observers.Observer.CommitTransaction | write_observer.go:403-449 | A commit in the middle applies its scope, as unknown unless it succeeded, and puts a fresh one in the shared slot |
| Observers.Observer.CommitBatch | write_observer.go:1402-1445 | A batch's commit applies and replaces the scope exactly when it succeeded |
| Recognizers.RecognizedKindsAreExact | write_observer.go:833-870 | The kinds recognized in a criteria are exactly the edge kinds PostgreSQL selects by it |
| Recognizers.NothingIsDropped | write_observer.go:784-825 | A conjunction's kinds are recognized if and only if every part is a kind matcher on the edge |
| Recognizers.UpdatingClauseIsFound | write_observer.go:1512-1530 | Final criteria are called updating exactly when the statement built from them has an updating clause |
| Driver.ObservingQuery.Write | write_observer.go:562-590 | A delete or update through a query keeps the shared scope covering whatever rows its criteria reach, and records exactly its targets when they are recognized |
| Recognizers.TargetsAreExact | write_observer.go:927-960 | The keys recorded for a query name a row if and only if PostgreSQL's reading of its criteria reaches that row |
| WriteCalls.EveryRowIsRecorded | write_observer.go:1066-1310 | For each writing call of a transaction or batch not recorded as a fallback, its keys name every row the call can change |
| WriteCalls.EveryKeyIsAnswered | write_observer.go:1066-1310 | Each key recorded leads to some row the call can change |
| Recording.CoveredRowsCommit | internal/engine/changes.go:240-262 | A scope that covers the rows of a commit is a change log that names everything the commit changed |
| Recording.RecordedCommitKeepsInv | internal/engine/apply.go:484-498 | So at any moment of any run the replica keeps up with a commit recorded that way |
| Driver.Step | write_observer.go:122-147 | So does any action on any wrapper or query held, before or after any commit |
| Driver.RunDelegate | driver.go:367-412 | So does any script a delegate runs, up to where it panics |
| Driver.WriteTransaction | driver.go:367-464 | However it ends, nothing durable is left unapplied, every bump is resolved once, and no possibly durable write is abandoned; one that succeeds with every action named ends in an Apply without a fallback |
| Driver.ResolveWriteTransactionFailure | driver.go:454-464 | Only an error after the delegate, with something written, is applied as unknown |
| Driver.BatchOperation | driver.go:521-570 | The same for a batch, whose chunks are durable as they flush |
| Driver.Run | driver.go:671-698 | The same for Run: abandoned exactly when its statement did not succeed, applied as unknown otherwise |
| Driver.WipeGraph | driver.go:710-745 | For every delegate: nothing is owed, and all is settled, if and only if nothing was committed by a delegate that then failed or panicked; what is owed otherwise is exactly what it committed |
| Driver.ACommittedWipeIsAbandoned | driver.go:791-794 | A delegate that commits and then fails leaves the truncation durable and its scope abandoned |
| Driver.NoCommitNothingCommitted | driver.go:736-740 | A delegate that never commits leaves nothing durable before the wipe's own commit |
| Driver.SetDefaultGraph | driver.go:838-862 | The same for retargeting the driver: abandoned exactly on an error |
| Driver.DeleteByKinds | driver.go:875-969 | The same for the two deletes by kinds: a success applies its criteria alone, a failure is abandoned only when nothing was executed, anything else is applied as unknown |
| ReadTransactions.ReadTransaction | driver.go:262-268 | However often the delegate is invoked: no served read follows a write of the call or a retarget of its invocation, and what was written is applied once, as a fallback |
| ReadTransactions.ServedReadsAreCurrent | transaction.go:139-141 | What a safe trace means for any two of its events |
| ReadTransactions.ReadWrites.Note | transaction.go:111-120 | A write is bumped and on record before it is delegated |
| ReadTransactions.ReadWrites.Settle | transaction.go:129-134 | Applies once if anything was written, else does nothing |
| ReadTransactions.WrappedTransaction.WithGraph | transaction.go:162-172 | Declines the receiver and the wrapper it returns |
| ReadTransactions.WrappedTransaction.Query | transaction.go:240-250 | Text is served, noted and delegated, or delegated, exactly as it mutates and the engine answers |
| ReadTransactions.RecordingNodeQuery.Read | node_query.go:141-188 | Served exactly when untainted, serveable and answered, and then for the one filter the builder holds |
| ReadTransactions.RecordingNodeQuery.Run | node_query.go:88-134 | Taints, and is a write exactly when the criteria update |
| ReadTransactions.RecordingRelationshipQuery.Read | relationship_query.go:160-250 | Served for exactly what the builder holds if and only if no earlier final criteria stayed there |
| ReadTransactions.RecordingRelationshipQuery.QueryRows | relationship_query.go:309-325 | Served rows are what the builder asks for, one filter and perhaps edge-id order, if and only if no earlier final criteria stayed there; unserved final criteria stay |
| ReadTransactions.RecordingRelationshipQuery.Query | relationship_query.go:309-325 | The same, and an updating clause taints the query and is a write instead |
| ReadTransactions.ACountMissesFinalCriteria | relationship_query.go:309-325 | For every final criteria that updates nothing: a count served although the builder holds them |
| ReadTransactions.ASecondQueryMissesFinalCriteria | relationship_query.go:309-325 | Rows of a second Query served although the builder holds the first one's final criteria |
| Recovery.NeverStranded | internal/engine/apply.go:974-1026 | After any interleaving, an enabled engine in fallback has a goroutine that gets it serving again in at most five steps of its own |
| Recovery.OneLoopAtMost | internal/engine/apply.go:755-785 | At most one rebuild loop runs, and it holds the flag |
| Recovery.StepKeepsInv | internal/engine/apply.go:827-856 | Every atomic step keeps the flag and the loops in agreement, a loop's own panic included |
| Recovery.GoroutineRecovers | internal/engine/background_panic.go:42-67 | From wherever it stands a goroutine is a fixed number of steps from adopting a rebuild |
| BootGap.BootGapCoveredAt | internal/engine/bootgap.go:319-348 | The verdict is the declared one on the multiset of counters, in any order, wraparound included |
| BootGap.OnlyContradictionsAreFinal | internal/engine/bootgap.go:285-316 | A verdict is a contradiction if and only if no further counters can make it a cover |
| BootGap.ContradictionStays | internal/engine/bootgap.go:303-316 | More counters never heal a contradiction |
| BootGap.CoverIsKept | internal/engine/bootgap.go:290-302 | More counters never open a hole in a cover |
| BootGap.ScanIsExact | internal/engine/bootgap.go:326-348 | The scan's last counter and hole decide the verdict |
| BootGap.NoDoubtMeansAccounted | internal/engine/bootgap.go:128-160 | Without a doubt, every bumped or changing observation has its entry with all its keys |
| BootGap.DoubtIsForCause | internal/engine/bootgap.go:128-201 | A history has no doubt if and only if each observation is accountable and together they fit the caps |
| BootGap.DoubtIsPermanent | internal/engine/bootgap.go:203-211 | The first doubt stays, whatever is observed after it |
| BootGap.Buffer.Deactivate | internal/engine/bootgap.go:104-110 | Disarms the buffer and frees what it held |
| BootGap.Buffer.Observe | internal/engine/bootgap.go:128-160 | Keeps the buffer equal to its history while armed, and within its caps |
| BootGap.Buffer.ObserveAbandoned | internal/engine/bootgap.go:171-184 | The same for an abandoned write's counter |
| BootGap.Buffer.Append | internal/engine/bootgap.go:187-201 | Refuses past 4096 entries or 2^18 keys, poisoning the buffer |
| BootGap.Buffer.Take | internal/engine/bootgap.go:224-234 | Hands over exactly what was recorded, or the first doubt, and disarms |
| BootGap.AdoptAttempt | internal/engine/boot.go:841-871 | A covered attempt replays exactly the bumped scopes observed; any doubt refuses the file |
| BootGap.CoverMeansAllObserved | internal/engine/boot.go:841-870 | Every counter the file misses up to the target belongs to an observed write |
| Csr.BuildCSR | bench/csrbench/main.go:34-54 | Offsets rise from 0 to the number of edges, and each node's slice is its edges in input order with their kinds |
| Csr.CountOffsets | bench/csrbench/main.go:36-42 | The offsets are the running counts |
| Csr.StartCountsEveryEdge | bench/csrbench/main.go:36-42 | The last offset is the number of edges |
| Csr.SwappedIsTranspose | bench/csrbench/main.go:34-54 | Building from swapped arrays gives the transpose, arc for arc and kind for kind |
| Bitsets.Bitset.Set | bench/csrbench/main.go:58-60 | Adds exactly one number to the set |
| Bitsets.Bitset.Clear | bench/csrbench/main.go:61-65 | Empties the set |
| Bfs.Search | bench/csrbench/main.go:69-105 | Visits exactly the nodes within the depth limit, stamps each with its distance modulo 256, counts every level, and scans exactly the arcs above the limit |
| Bfs.SearchIsComplete | bench/csrbench/main.go:78-104 | A search that stopped has gone as far as any way goes, or as the limit lets it |
| Bfs.MaskAllowsListed | bench/csrbench/main.go:67-68 | The mask of a list of kinds allows exactly those, and a zero mask every kind |
| Bfs.LinkIsAllowedEdge | bench/csrbench/main.go:84 | A search follows exactly the edges whose kind's bit is set, or all of them |
| Bfs.SearchFollowsListed | bench/csrbench/main.go:84 | A search for a list of kinds follows exactly the edges of those kinds |
| BiBfs.Search | bench/csrbench/main.go:108-171 | Returns the fewest hops over allowed kinds, or -1 exactly when no way exists within the limit, and counts the arcs out of each node it expanded, once a side |
| BiBfs.SmallGraphsAreInRange | bench/csrbench/main.go:113-117 | No graph of at most 2^31 nodes makes a search store a depth that 32 bits cannot hold |
| BiBfs.MeetingIsShortest | bench/csrbench/main.go:136-138 | The first arc to meet the other side is on a shortest way, the balls having been disjoint |
| BiBfs.NoWayEver | bench/csrbench/main.go:121-124 | An empty frontier on either side proves there is no way at all |
| Paths.SearchesMeet | bench/csrbench/main.go:118-124 | A way of at most a + b arcs has a node within a of its start and within b of its end |
| Paths.WalkIsWithin | bench/csrbench/main.go:67-79 | A walk of k arcs stays within k, and with WithinHasWalk the other way round |
| EnvFile.ParsePrint | internal/compose/envfile.go:510-535 | Printing a parsed file gives back every character |
| EnvFile.PrintParse | internal/compose/envfile.go:510-535 | Parsing a printed file gives back its lines and its byte order mark |
| EnvEntries.RenderIsIdentity | internal/compose/envfile.go:29-31 | Rendering an entry with its own files gives back its line |
| EnvEntries.LineMore | internal/compose/envfile.go:221-256 | Rendered with one more clean name, an entry is read as exactly the longer list, prefix, quotes, comment and line ending unchanged |
| EnvFile.AddThenRemove | internal/compose/envfile.go:408-500 | Extending an entry and taking the override out again restores every character |
| EnvFile.AddedIsListed | internal/compose/envfile.go:408-426 | After an addition the file is read as listing what it listed, or what discovery would have found, followed by the override |
| EnvFile.NamedAlike | internal/compose/envfile.go:420-437 | A list of absolute paths stays one, and one with a relative name gets the override by name |
| EnvRemoval.WithoutKeepsTheRest | internal/compose/envfile.go:484-489 | No name of the override stays, and every other name as often as it was listed |
| EnvRemoval.WithoutKeepsOrder | internal/compose/envfile.go:484-489 | Each part of a list loses its own, so the order is kept |
| EnvRemoval.TakeOutIsRead | internal/compose/envfile.go:478-498 | With the override taken out the entry is read as exactly the names that stay if and only if that list survives where it stands; no other line changes, and a kept empty line lists one empty name |
| EnvRemoval.TakeOutDropsTheLine | internal/compose/envfile.go:492-516 | When nothing is left and the line is not kept, or it goes whatever it lists, the line is removed |
| EnvRemoval.DroppedLine | internal/compose/envfile.go:556-563 | Without that line the others are read as before and set nothing; parsed again they are the same unless a byte order mark comes to the front |
| EnvRemoval.ANameTurnsIntoAComment | internal/compose/envfile.go:449-450 | A file whose one other name is not read back once the override is taken out |
| EnvRelist.LineRelisted | internal/compose/envfile.go:29-31 | An entry's line with any list of its own characters is read as an entry in its place, with that list if and only if it survives |
| EnvFile.AppendThenDrop | internal/compose/envfile.go:505-563 | Dropping an appended line restores an empty or newline-terminated file; any other keeps one line ending more |
| EnvFile.AddTwice | internal/compose/envfile.go:408-426 | Adding the override twice equals adding it once |
| EnvFile.RewrittenLine | internal/compose/envfile.go:73-119 | Rewriting the entry's line changes no other line's reading |
| EnvLines.FindComposeFileEntries | internal/compose/envfile.go:73-119 | The loop finds what reading the lines one after another finds |
| EnvLines.ScanClosingQuote | internal/compose/envfile.go:183-198 | The scan with its escape flag finds the first quote no backslash escapes |
| EnvScan.ReaderAgreesWithScan | internal/compose/envfile.go:73-119 | For every text, reading it line by line gives what one scan of the unsplit text gives, where a quoted value runs on across breaks to its closing quote: the same open quote, the same entries on the same lines, the same error |
| EnvScan.AgreesAtEveryLineEnd | internal/compose/envfile.go:49-53 | And so it does at the end of every line on the way |
| EnvLines.OpenRunsOn | internal/compose/envfile.go:79-90 | Inside an open quote no line sets anything |
| EnvFile.FirstProblemIsExact | internal/compose/envfile.go:132-152 | A list is accepted exactly when every name is nonempty and free of outer spaces |
| EnvSpelling.EverySpellingIsRead | internal/compose/envfile.go:36-41 | Indented or not, exported or not, spaced or not around = or :, quoted either way or bare, with or without a comment: the line is read as exactly the list it spells |
| EnvSpelling.ReadLiterally | internal/compose/envfile.go:41-45 | No list is ever read that holds an escape, an interpolation or a quote of its own |
| HashIds.ComputeHash | bench/shgen/generate.go:82-93 | The loop computes the declared hash |
| HashIds.RoundIsABijection | bench/shgen/generate.go:84-91 | For each part, a round is a bijection modulo 2^64, with its inverse |
| HashIds.HashSeparates | bench/shgen/generate.go:82-93 | Tuples that differ in one position hash differently |
| Identifiers.DomainSidsDiffer | bench/shgen/generate.go:142-148 | Domains have different SIDs |
| Identifiers.DomainSidIsOfItsHashes | bench/shgen/generate.go:142-148 | A domain's SID is S-1-5-21-a-b-c, a and b the low and high half of its first hash, c the low half of its second |
| Identifiers.GuidIsOfItsHashes | bench/shgen/generate.go:185-195 | A GUID's groups of 8, 4, 4 and 4, 12 digits are the digits of its two hashes |
| Identifiers.PrincipalsDiffer | bench/shgen/generate.go:160-181 | Every principal of every domain has its own SID while the classes stay in their ranges |
| Identifiers.GuidsDiffer | bench/shgen/generate.go:183-194 | Objects of one kind and domain have different GUIDs |

## Left out

- Agreement.ReplicaAgreement: is about runs without edges keyed by the objectids of
  their endpoints. Their second pass of lookups and fan-outs is not modelled, nor the
  edges of a failed batch it skips.
- FileBoot.BootedReplicaAgreement: takes the file to hold what PostgreSQL did when the
  process started, and adopts it without asking for the verdict. `BootJoin.CoveredFileAgrees`
  replaces that premise by the verdict.
- FileBoot.AdoptFileKeepsInv: has the replay of buffered writes be the Applies they would
  have been, in any order and beside other Applies; the source replays them in counter
  order under the lock.
- Upserts of relationships by the objectids of their endpoints are not among the calls of
  `WriteCalls`, nor is their key among the keys.
- A panic in the maintenance that follows a publication: the engine has left serving then,
  with a view `Engines.Engine.Apply` does not tell apart from the one before.
- Compaction, the snapshot file's format, lineages and the settle wait.
- Engines.Engine.Apply: takes the read-back's answer as a parameter, which `Replica` and
  `Overlay` model key by key, and does not feed the boot buffer, which `BootGap.Buffer`
  models on its own.
- Driver.WriteTransaction: like the other entry points of the driver, is proved for calls
  that do not overlap: each begins on an engine with everything settled. What runs beside
  one another is modelled in `Replica` and `Recovery`.
- Kind ids: kinds are names, and one unknown to the view simply matches nothing there.
- The resolved-counter ledger of internal/engine/watermark.go is the multiset of
  resolved counters; its interval list is not modelled.
- Stopping the engine, and when the trust limiter launches a rebuild: a launch is a
  free choice.
- Delegates that recover a panic of their own call and go on.
- `deleteNeverExecuted` is an oracle that is true only when nothing ran; Cypher text is
  its parse result.
- Which shapes the engine recognizes and answers: serving is a free choice wherever the
  wrapper asks.
- Log lines, error texts and line numbers in errors. Errors are an enumeration.
- BiBfs.Search: says nothing of a search without a limit below 2^31 on a graph that has a
  node exactly 2^31 hops away from either end, because depths are stored in 32 bits.
- First, Fetch and FetchDirection of a relationship query, which go to PostgreSQL unchanged.
- Names in an .env file are sequences of Unicode characters: bytes that are not UTF-8 are
  not modelled. Whether another spelling leads to the override file is an oracle.
- EnvFile.AddThenRemove: is stated for names free of separators, quotes, escapes,
  interpolation, white space and comment marks.
- The benchmarks' generators, random numbers and reports beyond the identifiers; the
  installer, settings and backup commands: only easy claims.
