# Air Sync: a verified model of the sync core

Air Sync keeps a local vault and a remote provider equal. It remembers, for every provider object, the last
correspondence it committed (a sync record, keyed by the provider's identity, with a unique path), decides each address
by comparing both sides with that record, executes the decisions, and commits a remote checkpoint only when a cycle is
clean. This project models that core and proves what it promises over every input, every interleaving and every run.

## How the model is built

- **The record store and folder relocation.** `SyncState` holds both object stores as maps, with the unique path index
  as a third map, and each compare-and-swap route as a method over them; any interleaving of the routes is a run of
  atomic steps. `FolderCommit` follows a folder rename from its bound children through the serial executor and the
  receipt join to the one atomic relocation.
- **Whole runs.** `LocalTracker`, `PriorityBatch`, `CycleCloseout` and `SyncRuns` model the change tracker, the batch
  state, the closeout of one attempt, and the run loop with its mutex and its two remote cursors. A run is any sequence
  of local reports, remote changes, requests, attempt ends (with throws before and after the commit, and failing store
  calls), acknowledgments, other holders of the mutex, priority pulls and crashes.
- **One address.** `AddressDecision` is the comparison, the exact-path rule and the conflict policy; `AddressRelocation`
  is the rule for a row stored elsewhere, executed and published; `AddressExecution` is the execution on two
  filesystems, and `Survival` what survives it. Contents are bytes, digests tell contents apart.
- **The preservation cover.** `PreservationCover` decides and executes the cover as atomic steps that can stop anywhere;
  `ConflictNames` prints and parses the preservation addresses; `CoverNames` joins the two.
- **Schedulers.** `PriorityCoordination`, `AdaptivePools` and `MutationBarriers` are classes whose methods are the
  synchronous stretches between awaits. Each method is proved to be one event of a transition function, and the theorems
  are about every sequence of events.
- **Graphs.** `PathGraphs` (union-find), `BatchFacts`, `CoverLinks` and `FactComponents` (the components of one batch,
  with the links that finished covers add), `ClosureLoops`, `CollisionComponents` and `ReportChain` are proved against
  walks over a relation (`Reachability`). `PathPrefix` is the binary search they use.
- **Transformations.** `MergeHunks`, `SharedHunks` and `ThreeWay` (the three-way merge and its splice loop), `QuickXor`
  (the 160-bit ring) and `PruneParents` (the empty-directory cascade).
- **Shared definitions.** `SyncTypes`, `Wrappers`, `Sequences`, `Strings`.

## Results about the code that a reader may not expect

- **Remote changes.** A cycle without a committed checkpoint, or with a changed scope, lists the whole remote side, and
  so does an attempt without rows (src/sync/orchestrator.ts:202-208, src/sync/change-detector.ts:125-155); any other
  reads on from its working view. Over every run, the durable cursor has passed only changes that an attempt saw which
  closed clean, unless an attempt that only read on has committed from a view ahead of the durable one, and no attempt
  that listed has committed, nor the checkpoint been reset, since (`SyncRuns.RemoteRunCovered`). The view runs ahead
  exactly by an abort that throws after a read, until an attempt closes, a reset, or a restart
  (`SyncRuns.ViewRunsAhead`). Where no abort throws, every passed change was seen (`SyncRuns.WorkingAbortsCover`). The
  caching file system's own abort only assigns fields and cannot reject (src/fs/caching/remote-fs.ts:491-501), so the
  run in which a second cycle commits past a change it never saw, `SyncRuns.FailedAbortSkips`, needs a checkpoint whose
  abort rejects; the closeout allows for one (src/sync/sync-cycle-finalization.ts:40-46). Local changes are never
  forgotten (`SyncRuns.RunKeeps`), and a clean cycle with no report since it began leaves none pending
  (`SyncRuns.QuietCycleClearsAll`).
- **Late throws.** When saving the settings throws after the commit (src/sync/orchestrator.ts:547-550), the retry runs
  with the same snapshot although the durable cursor has moved (`SyncRuns.RetryKeepsSnapshot`).
- **Requests.** A pending request is consumed by a cycle with a fresh snapshot, by a completed `clearSyncState`, or by a
  crash, and by nothing else (`SyncRuns.RequestGetsACycle`).
- **Conflicts.** Which version a conflict destroys is exact for every policy and merge: `Survival.ConflictLoss`.
  Auto-merge gives up a version for an accepted merge that differs from it, or for a side known to be newer; local-win
  gives up the remote one. For every decision nothing else is lost but the baseline's content or an edit that looked
  unchanged (`Survival.NothingElseIsDestroyed`).
- **Shared hunks.** A hunk both sides made is spliced twice by the merge loop (src/sync/merge.ts:96-101).
  `ThreeWay.SharedInsertionDoubled` is a whole merge in which both sides insert one line, one side also edits another,
  and the result holds the inserted line twice. `ThreeWay.SharedMerge` says when the result is the intended one: if and
  only if the text behind the first shared hunk, read from left to right with each shared hunk's surplus lines repeated
  or as many lines eaten as it lacks, is what was asked for there. Where no shared hunk shrinks, that is so if and only
  if none changes its line count; where none grows, if and only if each keeps its count or has nothing left behind it.
  Lines that both sides claim with different hunks are never a clean merge (`ThreeWay.MergedExactly`,
  `Survival.ContestIsReported`).
- **Names.** A conflict name parses back to its base if and only if the base's file name is not empty, has no line end
  before its extension, and its extension is not another digest's conflict suffix (`ConflictNames.PrintParses`).
- **Edits.** An edit on one side only ends on both sides and touches nothing else (`AddressExecution.LoneEditWins`), if
  it is seen. It is seen as a change if and only if it does not look unchanged: no digest to compare, and the same
  positive modification time and size (`AddressExecution.EditIsDetected`). A deletion takes an edited file exactly in
  that case (`AddressExecution.DeletionTakesOnlyUnseenEdits`; one such file: `AddressExecution.UnseenEditDeleted`).
- **Settling.** A settled address is decided again as "nothing to do" if and only if both endpoints can be compared with
  the row (`AddressExecution.SettledNeedsNothing`; one that is repeated: `AddressExecution.IncomparableIsRepeated`). A
  row that moved with its files is matched at the new address if and only if their evidence can be compared
  (`AddressRelocation.RelocationExactly`). Executing any action of the exact-path rule settles the address; a moved row
  then leaves its old address, and its publication passes the store's comparison if and only if no row is stored at the
  new one (`AddressRelocation.RelocationMoves`).
- **The cover.** Deciding the cover again after a candidate was completed on both sides under a row with its digest
  skips a publication that would only name the row's object again; that is the only difference from running on
  (`PreservationCover.Ahead`). A candidate's child can be carried out if and only if its object is committed at no other
  address (`PreservationCover.ChildRunsExactly`). Deciding a cover does not establish that, so a publication can be
  refused; wherever the executor stops, there too, the same cover is decided again for exactly the unpublished versions
  (`PreservationCover.StoppedRestarts`). Only that it gets to its end asks for the publications to be possible
  (`PreservationCover.FinishedCover`, `PreservationCover.EveryVersionPreserved`).
- **Cover links.** While components are built, an alias group finds the entries connected to it exactly as long as no
  link of an earlier group has put its class under another root; after that it finds none
  (`FactComponents.TurnSeesItsClass`).
- **Folders.** A folder finds every child's receipt if and only if each of those actions published itself; a child
  replaced by a priority publication would leave it without one (`FolderCommit.ParentFindsEveryChild`). Bound on the
  stored rows, and with its children's actions published, a folder commits (`FolderCommit.FolderCommits`), and every row
  then stands below the new root (`FolderCommit.FolderMoves`). Only actions that are alone in their component are
  offered for that (src/sync/plan-admission.ts:118-131).
- **The empty path.** `PathGraph` takes an empty path for a missing parent, so a group led by the empty path links
  nothing until another group has put that path under its own. Roots then tell connected paths apart exactly in that
  case (`PathGraphs.RootsAgreeExactly`; for one group `PathGraphs.LeadingEmptySeparates`).

## Model

| member | source | states |
|---|---|---|
| SyncState.SyncStateStore.Get | src/sync/state.ts:103-109 | The index lookup returns exactly the row stored at the path, or none when no row has that path |
| SyncState.SyncStateStore.Put | src/sync/state.ts:168-173 | The put aborts, changing nothing, exactly when another identity holds the path; the index stays right |
| SyncState.SyncStateStore.EndRows | src/sync/state.ts:57-63 | Ends exactly the compared rows the terminal does not carry, with their merge bases |
| SyncState.SyncStateStore.PublishRecord | src/sync/state.ts:51-66 | When only rows it ends or carries hold the path, the publication never hits the unique index and leaves the published image |
| SyncState.SyncStateStore.CompareAndPut | src/sync/state.ts:183-208 | Succeeds exactly when every captured row still stands and the path's occupant is the expected one; otherwise nothing changes |
| SyncState.SyncStateStore.CompareAndDelete | src/sync/state.ts:216-232 | Succeeds exactly when the path holds the expected row, and then removes that row and its base only |
| SyncState.SyncStateStore.CompareAndPutContent | src/sync/state.ts:304-318 | Stores content exactly when the captured row still stands; other content is untouched |
| SyncState.SyncStateStore.StoreMergeBase | src/sync/state-committer.ts:65-92 | A base is stored exactly when the bytes have the row's size and hash and the row still stands |
| SyncState.SyncStateStore.CompareAndRewritePaths | src/sync/state.ts:250-279 | Accepted exactly when the mapping is one-to-one and every captured row stands; then the image is the exact relocation, else unchanged |
| SyncState.OccupantUnique | src/sync/state.ts:103-109 | A path has one occupant, so an expected occupant is met by one value only |
| SyncState.PublicationExactly | src/sync/state.ts:37-66 | A publication that passed leaves its row, no row it compared under another identity and every other row; merge bases go with their rows, and its own stays only over the same digest and size |
| SyncState.DisplacedSnoc | src/sync/state.ts:267-276 | Publishing one more item displaces exactly that item's destination, and never a row another item moves |
| SyncState.DestinationVacated | src/sync/state.ts:267-276 | When an item's turn comes, only the row it ends or carries can stand at its terminal path, so no put aborts |
| SyncState.OneMoreRelocated | src/sync/state.ts:267-276 | One publication turns the relocation of the first i items into that of the first i + 1 |
| SyncState.RelocationKeepsPathsUnique | src/sync/state.ts:250-279 | After every intermediate put no two rows share a path and each row is under its own identity |
| SyncState.RelocatedBases | src/sync/state.ts:37-45 | After a relocation every surviving merge base still matches the hash and size of the row it belongs to |
| SyncState.StepKeepsConsistent | src/sync/state.ts:183-318 | Each route, passing or failing its comparison, keeps identities, unique paths and attached merge bases |
| SyncState.RunKeepsConsistent | src/sync/state.ts:183-318 | Every image of every interleaving of the routes is consistent |
| FolderCommit.DecideDescendants | src/sync/identity-component-decision.ts:848-869 | Actions in binding order, one entry per surviving row with its baseline and what is expected at its new address |
| FolderCommit.ActionIsListed | src/sync/identity-component-decision.ts:848-856 | Every binding's action is among the actions to execute, removals included |
| FolderCommit.PrefixIsFirstFailure | src/sync/plan-executor.ts:179-196 | The settled prefix is all publications and replacements, and ends at the first action that is blocked, fails or throws |
| FolderCommit.ExecuteComponent | src/sync/plan-executor.ts:179-196 | Actions publish in order until one is blocked, fails or throws; replaced ones are listed apart and do not stop the rest; after a block or failure everything later is blocked |
| FolderCommit.ScanFor | src/sync/execution-result.ts:59-74 | The cursor stops behind the next receipt of the wanted action, or at the end |
| FolderCommit.OrderedChildReceipts | src/sync/execution-result.ts:59-74 | The cursor loop is the greedy join of children with completed actions |
| FolderCommit.JoinFindsAll | src/sync/execution-result.ts:59-74 | The join finds every waited-for receipt if and only if those actions completed in child order |
| FolderCommit.ParentFindsEveryChild | src/sync/execution-result.ts:59-74 | Whatever completed earlier, the folder finds each child's own receipt if and only if every waited-for action published itself |
| FolderCommit.CommitFolder | src/sync/state-committer.ts:109-121 | The folder commits exactly when every child's row is known and all rows still stand; then the store holds the exact relocation, else it is unchanged |
| FolderCommit.SharedPathNests | src/sync/identity-component-decision.ts:860-861 | Two folders share a path below them only if they are equal or nested |
| FolderCommit.FolderMappingIsAdmissible | src/sync/identity-component-decision.ts:848-877 | For roots that are not nested, the mapping is always one-to-one and free of chains and cycles |
| FolderCommit.FolderCommits | src/sync/state-committer.ts:109-121 | A folder bound on the stored rows commits once its children's actions have all published: every child has its row, and the whole mapping passes the store's comparison |
| FolderCommit.FolderMoves | src/sync/state.ts:250-279 | After that commit every child's row, its baseline or what its action published, stands under its object at the same suffix below the new root; whatever else stood there is gone, and every other row is as it was |
| MergeHunks.ApplyHunks | src/sync/merge.ts:96-101 | The loop is the splicing of both sides' hunks in descending stable order |
| MergeHunks.SortIsReversedUnion | src/sync/merge.ts:97 | For disjoint lists the sorted list is the reversed ascending union, whichever side comes first |
| MergeHunks.SpliceBackwards | src/sync/merge.ts:98-101 | Splicing from the last hunk to the first is applying them left to right |
| MergeHunks.LoopIsPatch | src/sync/merge.ts:88-103 | For in-range, separated, disjoint lists the loop is the left-to-right patch of their union, in both orders |
| MergeHunks.MergeIsRebase | src/sync/merge.ts:88-103 | The merge is the local text with the remote hunks, shifted by the local drift, applied to it |
| MergeHunks.BothSidesRebase | src/sync/merge.ts:88-103 | The same merge is either side's text with the other side's shifted hunks; disjoint lists are never a conflict |
| MergeHunks.UnionCommutes | src/sync/merge.ts:88-103 | The union of disjoint lists does not depend on which is called local |
| ThreeWay.ThreeWayMerge | src/sync/merge.ts:64-119 | The early returns for unchanged and equal sides, the overlap conflict and the splice loop; what they come to is `ThreeWay.MergedExactly` |
| ThreeWay.MergedExactly | src/sync/merge.ts:69-118 | The merge conflicts if and only if all three texts differ and two different hunks claim one base line; an unchanged side yields the other text, equal sides yield theirs |
| ThreeWay.OverlapIsShared | src/sync/merge.ts:35-39 | Two ranges overlap exactly when they claim a line together, an insertion claiming the line it stands before |
| ThreeWay.DisjointMerge | src/sync/merge.ts:64-119 | Without an overlap the merge is each side's text with the other side's edits re-addressed onto it |
| ThreeWay.SharedMerge | src/sync/merge.ts:64-119 | A merge with shared hunks is what both sides asked for if and only if the text behind the first shared hunk is; for growing and for shrinking hunks this is told from the hunks; never when the repeats add lines on balance |
| SharedHunks.LoopOnAdmitted | src/sync/merge.ts:88-103 | For every pair of lists the overlap test admits, the loop resplices their union, shared hunks twice |
| SharedHunks.HarmlessIsIntended | src/sync/merge.ts:96-101 | Splicing twice leaves the intended text when every repeated hunk keeps its count or shrinks the very end |
| SharedHunks.GrownLength | src/sync/merge.ts:96-101 | With only growing repeats the text is never too short, and right in length only if no repeat changes its count |
| SharedHunks.ShrunkLength | src/sync/merge.ts:96-101 | With only shrinking repeats the text is never too long, and right in length only if every repeat is harmless |
| SharedHunks.NetLength | src/sync/merge.ts:96-101 | The loop leaves at least as many lines as the intended text and the repeats' own changes together |
| SharedHunks.LoopText | src/sync/merge.ts:96-101 | The loop, which splices the whole text from right to left, leaves what one pass from left to right describes: behind each shared hunk its surplus lines again, or as many lines less as it lacks |
| SharedHunks.IntendedExactly | src/sync/merge.ts:96-101 | The loop leaves the intended text if and only if what it leaves behind the first shared hunk is what was asked for there |
| SharedHunks.RepeatsAreShared | src/sync/merge.ts:41-46 | The hunks listed twice are exactly those both sides made |
| SharedHunks.SharedHunkMerge | src/sync/merge.ts:88-103 | The same at the splice loop, for every pair of admitted lists, unequal or not |
| ThreeWay.SharedInsertionDoubled | src/sync/merge.ts:64-119 | A whole merge of three texts in which both sides insert one line and the result holds it twice |
| ThreeWay.MixedListsCancel | src/sync/merge.ts:64-119 | A whole merge in which a growing and a shrinking shared hunk cancel, so neither count alone decides mixed lists |
| PathGraphs.SameRootIsConnected | src/sync/plan-admission-graph.ts:174-204 | Two paths have one root if and only if a chain of linked groups connects them |
| PathGraphs.MergeExtendsGroup | src/sync/plan-admission-graph.ts:177-181 | Joining a path to a group's first path makes the partition that of the longer group |
| PathGraphs.CompressedForest | src/sync/plan-admission-graph.ts:187-193 | Pointing a path straight at its root changes no root |
| PathGraphs.JoinedForest | src/sync/plan-admission-graph.ts:199-203 | Putting one root under another moves exactly its class and keeps the forest free of cycles |
| PathGraphs.JoiningAre | src/sync/plan-admission-graph.ts:177-203 | Every group joins if none is led by the empty path |
| PathGraphs.RootsAgreeExactly | src/sync/plan-admission-graph.ts:177-203 | Roots agree with the groups if and only if no group led by the empty path, linked before that path had a parent, connects anything new |
| PathGraphs.LeadingEmptySeparates | src/sync/plan-admission-graph.ts:187-203 | A group led by the empty path keeps its paths apart exactly while that path is its own root and the group connects something new |
| PathGraphs.EmptyPathSeparates | src/sync/plan-admission-graph.ts:187-203 | Two paths linked only through a leading empty path have different roots |
| PathGraphs.PathGraph.constructor | src/sync/plan-admission-graph.ts:174-175 | A new graph knows no path and links nothing |
| PathGraphs.PathGraph.Root | src/sync/plan-admission-graph.ts:187-193 | Terminates by the height of the forest, returns the class's representative, and compression changes no class |
| PathGraphs.PathGraph.SameRoot | src/sync/plan-admission-graph.ts:187-193 | Comparing roots answers connectedness by the groups that join anything |
| PathGraphs.PathGraph.RootOf | src/sync/plan-admission-graph.ts:187-193 | A path's root is its class's representative, and an unknown path is its own |
| PathGraphs.PathGraph.Add | src/sync/plan-admission-graph.ts:195-197 | A new path becomes known; every class and root stays as it is |
| PathGraphs.PathGraph.Union | src/sync/plan-admission-graph.ts:199-203 | The right path's whole class joins the left path's class, unless the empty path is the left root: then nothing joins |
| PathGraphs.PathGraph.Connect | src/sync/plan-admission-graph.ts:177-181 | The group is linked, its paths are known, the classes are those of all groups linked so far, and its first path's root is the one that stays |
| PathPrefix.PrefixesAreContiguous | src/utils/path.ts:57-72 | In code-unit order, whatever lies between a prefix and a string that has it has it too |
| PathPrefix.PathsWithPrefix | src/utils/path.ts:57-72 | In a sorted list the binary search and scan find exactly the paths with the prefix, in order |
| FactComponents.FolderDescendantPaths | src/sync/plan-admission-graph.ts:149-158 | Exactly the known paths below either root of a folder relation |
| FactComponents.IdentityPaths | src/sync/plan-admission-graph.ts:39-50 | Files under every identity exactly its committed and current paths |
| FactComponents.RelatedExactly | src/sync/plan-admission-graph.ts:16-60 | Two paths are tied exactly by an entry, a claim or an observation that names both, for folders with what is known below them, by one object at both, or by a cover link |
| CoverLinks.GroupIs | src/sync/plan-admission-graph.ts:53-60 | A group is all the file aliases whose requested path has one root, and has at least one |
| CoverLinks.GroupAliases | src/sync/plan-admission-graph.ts:53-60 | The loop files every file alias under the root of its requested path, in order |
| CoverLinks.VersionsAre | src/sync/plan-admission-graph.ts:64-87 | A content is a version if and only if an entry of the class holds it or a candidate fact of the anchor obliges it |
| CoverLinks.HintsExactly | src/sync/plan-admission-graph.ts:61-107 | A candidate obliges a cover exactly when its address parses to the anchor and the digest of the only content it holds |
| CoverLinks.CollectVersions | src/sync/plan-admission-graph.ts:64-87 | The two loops collect exactly those versions, with the roots of that moment |
| CoverLinks.LinksAre | src/sync/plan-admission-graph.ts:88-106 | One link for every covered version, and no other |
| CoverLinks.TurnLinksExactly | src/sync/plan-admission-graph.ts:61-107 | A content is linked to its candidate if and only if it is a version of the group and both sides of the candidate are proven to hold it and nothing else |
| CoverLinks.CoversExactly | src/sync/plan-admission-graph.ts:61-107 | A candidate is covered exactly when both sides are proven, by the content or by an absence, and the content is on one of them |
| CoverLinks.CoveredIsTied | src/sync/plan-admission-graph.ts:61-107 | A covered content of the class is tied by one link to its anchor, its candidate, what stands there and a place that holds it |
| CoverLinks.WantedAre | src/sync/plan-admission-graph.ts:61-107 | The candidate facts looked at are exactly the first ones recorded for the versions' candidates |
| CoverLinks.RootKept | src/sync/plan-admission-graph.ts:61-107 | A root stays one if and only if no link so far has put its class under another |
| CoverLinks.ConnectCandidates | src/sync/plan-admission-graph.ts:88-106 | The inner loop connects exactly the covered candidates and notes the fact of every candidate |
| CoverLinks.LinkCovers | src/sync/plan-admission-graph.ts:61-107 | The outer loop takes one turn a group, each with the roots the turns before it have left |
| FactComponents.ConnectSnapshot | src/sync/plan-admission-graph.ts:15-51 | Two paths are linked exactly when an entry, claim, observation or identity of the batch ties them |
| FactComponents.ConnectBatch | src/sync/plan-admission-graph.ts:15-107 | After the cover loop two paths are linked exactly when a fact or a cover link ties them |
| FactComponents.TurnSeesItsClass | src/sync/plan-admission-graph.ts:61-71 | A group finds exactly the entries connected to its aliases, if and only if no earlier link has put its class under another root; otherwise it finds none |
| FactComponents.DistributeFacts | src/sync/plan-admission-graph.ts:127-130 | Each recorded candidate fact goes to the component of its anchor, once |
| FactComponents.GroupPaths | src/sync/plan-admission-graph.ts:109-120 | Every known path is in the set of its own root, and in no other |
| FactComponents.Distribute | src/sync/plan-admission-graph.ts:121-126 | Every fact goes, in order, to the component of its key's root |
| FactComponents.BuildFactComponents | src/sync/plan-admission-graph.ts:15-137 | Components are disjoint, each is one whole class of paths that facts and cover links relate, each entry, claim and unresolved observation is in the one its key belongs to, and each has exactly its anchors' candidate facts |
| FactComponents.FactIsInside | src/sync/plan-admission-graph.ts:109-145 | A component that holds a fact holds every path the fact names, for folders with what is known below them |
| ClosureLoops.IdentityEdges | src/sync/hot-acquisition-completeness.ts:11-33 | The edges reach exactly what the claims' groups connect |
| ClosureLoops.StarsConnect | src/sync/hot-acquisition-completeness.ts:11-33 | Pairing a group's first path with the others connects what linking all pairs would |
| ClosureLoops.ConnectedPaths | src/sync/hot-acquisition-completeness.ts:35-47 | The sweeps end at exactly the reflexive-transitive closure of the start |
| ClosureLoops.NeedsWarmComponentAcquisition | src/sync/hot-acquisition-completeness.ts:50-73 | Skipping visited paths answers as testing every entry's own component afresh would |
| ClosureLoops.IncompleteMeans | src/sync/hot-acquisition-completeness.ts:1-60 | A component is incomplete exactly when something connected to its path occurs or is dirty, and nothing connected to it was ever committed |
| ClosureLoops.Sweep | src/sync/change-hash-enrichment.ts:235-250 | A sweep only absorbs reachable paths, and a sweep that absorbs nothing leaves every touching group inside |
| ClosureLoops.ConnectedEvidencePaths | src/sync/change-hash-enrichment.ts:232-252 | The fixpoint is exactly the component of the base path |
| CollisionComponents.BuildAdjacency | src/sync/collision-content-observation.ts:73-90 | The map holds exactly the paired edges, in both directions, for exactly their end points |
| CollisionComponents.Search | src/sync/collision-content-observation.ts:99-113 | The stack search visits exactly what is reachable from its first path |
| CollisionComponents.PairsConnect | src/sync/collision-content-observation.ts:73-97 | The paired edges connect exactly what aliases and claims together connect |
| CollisionComponents.PotentialCollisionComponents | src/sync/collision-content-observation.ts:69-115 | Exactly the whole classes that hold an alias path, each once, and every alias path in one |
| ReportChain.IsLocalChain | src/sync/identity-component-report-family.ts:80-93 | True if and only if the claims are local file claims that form one simple path with no claim over |
| ReportChain.FullWalkIsPath | src/sync/identity-component-report-family.ts:86-92 | A walk over as many claims as there are, from an address that is no target, is the single path |
| ReportChain.PathHasOneStart | src/sync/identity-component-report-family.ts:83-85 | A single path has exactly one claim that starts at no target |
| ReportChain.StoppedWalk | src/sync/identity-component-report-family.ts:86-92 | A walk that stops early or never ends means the claims are no single path |
| PriorityCoordination.RunKeeps | src/sync/priority-coordinator.ts:32-135 | In every run: exclusion, no lost wakeup, every call counted once, and runs only answer earlier requests |
| PriorityCoordination.DrainLoopKeeps | src/sync/priority-coordinator.ts:95-135 | Each round of the drain loop restores the invariants, whichever queue it serves |
| PriorityCoordination.EventShape | src/sync/priority-coordinator.ts:32-135 | Every event is one direct change and at most one entry into the drain loop |
| PriorityCoordination.IdleMeansAnswered | src/sync/priority-coordinator.ts:124-134 | With nothing running and no permit held, every call ever made was answered |
| PriorityCoordination.SettledByRun | src/sync/priority-coordinator.ts:102-118 | Only the end of a run settles calls, and exactly those that waited for it |
| PriorityCoordination.AnswersAreFinal | src/sync/priority-coordinator.ts:102-134 | No call is settled or granted twice |
| PriorityCoordination.StartOrder | src/sync/priority-coordinator.ts:97-122 | A started finalizer leaves no priority work pending; priority work starts from the head of the queue |
| PriorityCoordination.RunInCallOrder | src/sync/priority-coordinator.ts:30-63 | In every run each queue is in call order, and so is each coalesced node among its own waiters |
| PriorityCoordination.GrantExactly | src/sync/priority-coordinator.ts:30-40 | A permit is granted at once exactly when nothing drains and nothing is queued, however many are held; otherwise the call waits last |
| PriorityCoordination.EnqueueExactly | src/sync/priority-coordinator.ts:42-54 | Work for a queued path joins the node that is there, which keeps its place and its work; other work is queued last, or starts at once on a free coordinator |
| PriorityCoordination.DoubleRelease | src/sync/priority-coordinator.ts:79-87 | Releasing a permit again changes nothing |
| PriorityCoordination.Progress | src/sync/priority-coordinator.ts:79-135 | Every end of a run and every first release strictly lowers what is left |
| PriorityCoordination.NeverStuck | src/sync/priority-coordinator.ts:89-135 | While anything is left, a run is under way or a permit is held |
| PriorityCoordination.PriorityCoordinator.AcquireNormalPermit | src/sync/priority-coordinator.ts:32-40 | A permit at once exactly when nothing drains or is queued, else the caller waits; the whole new state |
| PriorityCoordination.PriorityCoordinator.Enqueue | src/sync/priority-coordinator.ts:42-53 | A request for a pending path joins it, another is queued and asks for a drain; the whole new state |
| PriorityCoordination.PriorityCoordinator.Finalize | src/sync/priority-coordinator.ts:55-60 | The finalizer is queued behind all others and asks for a drain; the whole new state |
| PriorityCoordination.PriorityCoordinator.MakePermit | src/sync/priority-coordinator.ts:79-87 | Each permit is new and counted as held |
| PriorityCoordination.PriorityCoordinator.Release | src/sync/priority-coordinator.ts:80-86 | The first release frees the permit and asks for a drain; the whole new state |
| PriorityCoordination.PriorityCoordinator.RequestDrain | src/sync/priority-coordinator.ts:89-93 | A drain begins exactly when none is under way and no permit is held |
| PriorityCoordination.PriorityCoordinator.Drain | src/sync/priority-coordinator.ts:95-135 | From the top of the loop to its next await or out; its own second drain request is never needed |
| PriorityCoordination.PriorityCoordinator.Settle | src/sync/priority-coordinator.ts:102-119 | The awaited run answers its waiters and the loop goes on; the whole new state |
| AdaptivePools.PoolKeeps | src/backend-api/async-queue.ts:132-257 | In every run: counts and bytes describe the tasks in flight, both bounds hold, arrival order is start order, and only a head that does not fit waits |
| AdaptivePools.StartsOnce | src/backend-api/async-queue.ts:195-215 | The started tasks are a growing prefix of the arrivals, so none starts twice or overtakes |
| AdaptivePools.StartsExactly | src/backend-api/async-queue.ts:177-215 | A task starts at once exactly when nobody waits and there is a slot and room for its bytes; a backlog means there is none for its head |
| AdaptivePools.LimitMoves | src/backend-api/async-queue.ts:216-256 | The limit rises by one after enough successes, halves down to its lowest by the first hit of an episode, and stays otherwise; what the streak becomes in each case |
| AdaptivePools.FinishedLeaves | src/backend-api/async-queue.ts:216-237 | The task that ended leaves, every other stays, and waiters from the front come in behind |
| AdaptivePools.FinishProgress | src/backend-api/async-queue.ts:216-237 | Each finished task leaves one fewer to run or end, and waiters exist only beside a running task |
| AdaptivePools.CountBacklog | src/backend-api/async-queue.ts:203-215 | Without a byte budget a backlog means the count limit is reached |
| AdaptivePools.BurstFloor | src/backend-api/async-queue.ts:252-256 | Any burst at fixed running r from limit L leaves at least max(min, min(L, r/2)) and never more than L |
| AdaptivePools.AdaptivePool.constructor | src/backend-api/async-queue.ts:143-152 | An empty pool whose limit is the start value clamped to its bounds |
| AdaptivePools.StartLimit | src/backend-api/async-queue.ts:143-152 | A new pool is empty, and its limit is the start value brought between its bounds |
| AdaptivePools.AdaptivePool.AdmitTask | src/backend-api/async-queue.ts:183-186 | The slot and the bytes are reserved; the whole new state |
| AdaptivePools.AdaptivePool.DrainWaiting | src/backend-api/async-queue.ts:195-201 | Waiters are admitted front to back until the head does not fit; the whole new state |
| AdaptivePools.AdaptivePool.RunTask | src/backend-api/async-queue.ts:203-215 | Admitted at once only without a backlog, else queued; the whole new state |
| AdaptivePools.AdaptivePool.FinishTask | src/backend-api/async-queue.ts:216-237 | Success counts towards the ramp, failure ends the streak, and the slot and bytes come back; the whole new state |
| AdaptivePools.AdaptivePool.NoteRateLimited | src/backend-api/async-queue.ts:252-256 | The limit halves once an episode, never below its minimum; the whole new state |
| MutationBarriers.RunKeeps | src/sync/local-mutation-barrier.ts:7-34 | In every run operations under way have disjoint paths, the active set is their union, and each waiter overlaps it |
| MutationBarriers.CallsKeepTheirPaths | src/sync/local-mutation-barrier.ts:7-34 | In every run each call waits or is under way on exactly the paths it declared, until it has ended |
| MutationBarriers.WaiterHasBlocker | src/sync/local-mutation-barrier.ts:20-33 | Each waiting operation overlaps one under way, so nothing waits when nothing runs |
| MutationBarriers.SubsetNeverOvertaken | src/sync/local-mutation-barrier.ts:20-33 | Nothing starts while an earlier operation whose paths are among its own waits |
| MutationBarriers.FinishProgress | src/sync/local-mutation-barrier.ts:20-33 | Each end leaves one fewer operation, and waiters exist only beside a running one |
| MutationBarriers.LocalMutationBarrier.RunOperation | src/sync/local-mutation-barrier.ts:7-18 | The operation is queued last and the scan runs; the whole new state |
| MutationBarriers.LocalMutationBarrier.DrainPending | src/sync/local-mutation-barrier.ts:20-33 | The scan begins, in order, each waiter that overlaps nothing active at its turn; the whole new state |
| MutationBarriers.LocalMutationBarrier.FinishOperation | src/sync/local-mutation-barrier.ts:28-31 | The operation's paths are freed and the scan runs again; the whole new state |
| LocalTracker.MarksGrow | src/sync/local-tracker.ts:42-74 | Generations never go back, grow on every named path, and a grown path is dirty |
| LocalTracker.ReportTouchesExactly | src/sync/local-tracker.ts:42-74 | A report moves by one the generation of exactly the paths it names and of where the renamed file or folder first was, and dirties them |
| LocalTracker.AcknowledgeKeepsLaterMarks | src/sync/local-tracker.ts:113-124 | What stays dirty after an acknowledgment is exactly what was touched after its snapshot |
| LocalTracker.AcknowledgeKeepsLaterPairs | src/sync/local-tracker.ts:22-33 | Of rename and folder pairs alike, an acknowledgment removes exactly the captured ones still live with the same value, neither of whose ends was touched since the snapshot; dirty paths stay |
| LocalTracker.CollapseRefinesFilesystem | src/sync/local-tracker.ts:51-62 | From an empty tracker the pairs are exactly the map from current to original path of moved files, swaps and returns included |
| LocalTracker.FoldersCollapseAlike | src/sync/local-tracker.ts:64-74 | Folder renames collapse on their own pairs exactly as file renames do on theirs |
| LocalTracker.LocalChangeTracker.MarkDirty | src/sync/local-tracker.ts:46-49 | The path is dirty with a new generation; the whole new state |
| LocalTracker.LocalChangeTracker.MarkRenamed | src/sync/local-tracker.ts:51-62 | The chain is collapsed, a return cancels, all addresses are dirty; the whole new state |
| LocalTracker.LocalChangeTracker.MarkFolderRenamed | src/sync/local-tracker.ts:64-74 | The same for folders, on the folder pairs; the whole new state |
| LocalTracker.LocalChangeTracker.TakeSnapshot | src/sync/local-tracker.ts:96-104 | The snapshot is the whole state with its generations |
| LocalTracker.LocalChangeTracker.DeleteMatchingPairs | src/sync/local-tracker.ts:22-33 | Removes exactly the captured pairs still live with both ends untouched |
| LocalTracker.LocalChangeTracker.AcknowledgeRelations | src/sync/local-tracker.ts:133-136 | Only captured, untouched pairs go; dirty paths stay |
| LocalTracker.LocalChangeTracker.Acknowledge | src/sync/local-tracker.ts:113-124 | Captured, untouched paths and pairs go, and the tracker counts as initialized |
| LocalTracker.LocalChangeTracker.AcknowledgePath | src/sync/local-tracker.ts:145-149 | The path is cleaned only while its generation is the expected one |
| PriorityBatch.BatchKeeps | src/sync/priority-batch-state.ts:12-78 | In every run each action has one fate: it waits, was begun once, replaced by its own object's publication, or invalidated |
| PriorityBatch.AbortIsTerminal | src/sync/priority-batch-state.ts:23-59 | After an abort nothing begins, nothing is offered to a pull, and the abort stays |
| PriorityBatch.FatesAreFinal | src/sync/priority-batch-state.ts:35-78 | Sealed fates and a blocked checkpoint stay, and nothing becomes pending again |
| PriorityBatch.EventSeals | src/sync/priority-batch-state.ts:23-78 | Which event seals which fate of a pending action, the terminal a replacement keeps, and that nothing else moves |
| PriorityBatch.ToldByFate | src/sync/priority-batch-state.ts:53-63 | The executor is told to run an action exactly when it is pending in a live batch, and of its replacement exactly when it has one |
| PriorityBatch.TargetExactly | src/sync/priority-batch-state.ts:43-51 | During transfer a pull is independent exactly outside the plan, and supersedes exactly the pending marked pull of the first disposition that lists its path |
| PriorityBatch.OfferedIsSupersedable | src/sync/priority-batch-state.ts:43-72 | An offered pull is superseded by any terminal at its own address and object, and by no other |
| PriorityBatch.PriorityBatchState.SetPhase | src/sync/priority-batch-state.ts:23-29 | The phase changes unless the batch was aborted |
| PriorityBatch.PriorityBatchState.TargetOf | src/sync/priority-batch-state.ts:43-51 | Independent outside the plan, superseding for a marked pull still pending, deferred otherwise and after transfer |
| PriorityBatch.PriorityBatchState.BeginAction | src/sync/priority-batch-state.ts:53-59 | Runs exactly a pending action of a live batch, and takes it out of the pending set |
| PriorityBatch.PriorityBatchState.Supersede | src/sync/priority-batch-state.ts:65-72 | Succeeds exactly for a pending marked pull with its own address and object |
| PriorityBatch.PriorityBatchState.Invalidate | src/sync/priority-batch-state.ts:74-78 | Succeeds exactly for a pending action |
| CycleCloseout.TerminalMeans | src/sync/sync-cycle-finalization.ts:55-72 | An action is done if and only if its last success has the proof it needs, or its own object's publication replaced it |
| CycleCloseout.CleanExactly | src/sync/sync-cycle-finalization.ts:48-72 | Clean if and only if nothing failed or was blocked, every authorized action is done, no component failed and the checkpoint is not blocked |
| CycleCloseout.CleanIsCommitted | src/sync/sync-cycle-finalization.ts:80-110 | An attempt closes clean if and only if its commit worked |
| CycleCloseout.ClosingExactly | src/sync/sync-cycle-finalization.ts:80-110 | When an attempt throws, when its abort does, and with which completion it returns otherwise |
| CycleCloseout.BatchReplacementIsTerminal | src/sync/sync-cycle-finalization.ts:55-72 | Every replacement the batch makes passes the closeout's own test |
| CycleCloseout.Checkpoint.RunSyncCycleAttempt | src/sync/sync-cycle-finalization.ts:80-110 | One commit and no abort on a clean attempt whose commit works, which leaves a committed checkpoint, else exactly one abort and the durable cursor unmoved; the working view is the durable one unless the abort threw |
| CycleCloseout.Checkpoint.AbortWorkingView | src/sync/sync-cycle-finalization.ts:40-46 | An abort returns the working view to the durable one, or reports that it could not |
| SyncRuns.RunKeeps | src/sync/orchestrator.ts:182-346 | Over every run with throws before and after the commit, aborts, retries, new edits, priority pulls, other holders of the mutex and crashes, no local change is forgotten, and only what the durable cursor has passed counts as seen |
| SyncRuns.RemoteRunCovered | src/sync/orchestrator.ts:284-346 | Over every run, every remote change the durable cursor has passed was seen by an attempt that closed clean, unless one that only read on has committed from a view that had run ahead, and no listing was committed and nothing reset since |
| SyncRuns.ViewRunsAhead | src/sync/sync-cycle-finalization.ts:40-110 | The working view runs ahead exactly by an abort that throws after a read, and stays so until an attempt closes, a reset or a restart |
| SyncRuns.WorkingAbortsCover | src/fs/caching/remote-fs.ts:491-501 | In every run in which no abort throws, the view is level between attempts and every change the cursor has passed was seen |
| SyncRuns.CommitCovers | src/sync/sync-cycle-finalization.ts:80-110 | A commit after a listing leaves every passed change seen; any other does if and only if that was so before and the view was level with the cursor |
| SyncRuns.UnseenIsRead | src/sync/change-detector.ts:125-155 | An attempt that reads to the end sees every change no clean attempt has seen, if it lists or its view is level; one that only reads on from a level view sees no other |
| SyncRuns.FailedAbortSkips | src/sync/sync-cycle-finalization.ts:40-110 | After a first clean cycle, a run in which an abort throws and a second clean cycle then commits past a change that no clean attempt saw |
| SyncRuns.AcknowledgmentKeeps | src/sync/orchestrator.ts:253-260 | The acknowledgment clears only what the clean cycle covered; everything later stays dirty |
| SyncRuns.AcknowledgmentClears | src/sync/orchestrator.ts:253-260 | A clean cycle clears exactly the captured paths untouched since and ends the cold state, any other clears no path; either way exactly the captured pairs with both ends untouched go |
| SyncRuns.QuietCycleClearsAll | src/sync/orchestrator.ts:253-260 | In every run, a clean acknowledgment with no report since its cycle began leaves no dirty path and no pair |
| SyncRuns.PullClears | src/sync/local-tracker.ts:145-149 | A verified pull clears its path, and the rename to it, exactly while nobody touched the path since |
| SyncRuns.DurableMovesOnClean | src/sync/orchestrator.ts:284-346 | The durable cursor rises exactly by a commit that has read on, and falls exactly by a reset; after a commit a late throw leads to a retry of the same snapshot or to an unacknowledged end |
| SyncRuns.DirtyClearsOnClean | src/sync/orchestrator.ts:253-260 | A dirty path clears only by a clean cycle that captured it untouched, by a verified pull, or with the process |
| SyncRuns.WarmsOnClean | src/sync/local-tracker.ts:113-124 | The tracker leaves its cold state only by a clean cycle |
| SyncRuns.LaterMarkSurvives | src/sync/orchestrator.ts:253-260 | A path marked after the snapshot is dirty when the cycle has acknowledged |
| SyncRuns.RequestGetsACycle | src/sync/orchestrator.ts:177-208 | A request begins a cycle with a fresh snapshot, forced to list exactly without a checkpoint or on a changed scope, or fills the slot; the slot is emptied if and only if such a cycle begins, a clear completes or the process crashes |
| SyncRuns.RetryKeepsSnapshot | src/sync/orchestrator.ts:284-346 | Every attempt of a cycle uses its one snapshot and its one choice to list, at most three are made, only a throw is retried, from a level view; only a throw after the commit retries with a moved cursor |
| SyncRuns.AttemptLeadsTo | src/sync/orchestrator.ts:284-346 | An outcome closes the cycle unless saving the settings throws; a retryable throw below the limit leads to the next attempt; everything else releases the mutex |
| SyncRuns.MutexInOrder | src/backend-api/async-queue.ts:8-55 | A hold takes the free mutex at once; otherwise the mutex goes round in the order of asking |
| SyncRuns.CheckpointStands | src/fs/caching/remote-fs.ts:469-488 | A checkpoint is committed from the first clean attempt on, until a reset |
| SyncRuns.SyncOrchestrator.RunSync | src/sync/orchestrator.ts:177-183 | A request while a cycle is open only fills the one slot; otherwise a cycle begins; the whole new state |
| SyncRuns.SyncOrchestrator.BeginCycle | src/sync/orchestrator.ts:182-208 | The slot is emptied before the one snapshot of the cycle is taken and the listing chosen; the whole new state |
| SyncRuns.SyncOrchestrator.CloseAttempt | src/sync/sync-cycle-finalization.ts:80-110 | The closeout of an attempt over the live checkpoint, with what a listing or a read on has seen; the whole new state |
| SyncRuns.SyncOrchestrator.TakeOutcome | src/sync/orchestrator.ts:284-346 | The retry decision on what the attempt returned or threw, late throws included; the whole new state |
| SyncRuns.SyncOrchestrator.EndAttempt | src/sync/orchestrator.ts:284-346 | One turn of the retry loop over the live checkpoint; the whole new state |
| SyncRuns.SyncOrchestrator.AbandonCycle | src/sync/orchestrator.ts:182-260 | A throw of the cycle's own awaits releases the mutex with nothing acknowledged; the whole new state |
| SyncRuns.SyncOrchestrator.AskHold | src/sync/orchestrator.ts:103-150 | A clear or a rescan takes the free mutex or waits its turn; the whole new state |
| SyncRuns.SyncOrchestrator.EndHold | src/sync/orchestrator.ts:103-150 | A completed clear empties the request slot, a completed reset forgets the checkpoint, and the mutex goes on; the whole new state |
| SyncRuns.SyncOrchestrator.Acknowledge | src/sync/orchestrator.ts:255-260 | A clean cycle acknowledges all, any other only relations, then a filled slot begins the next cycle; the whole new state |
| AddressDecision.AdmittedConflictPasses | src/sync/conflict-policy-admission.ts:23-46 | Every conflict the exact-path rule admits passes the executor's contract check |
| AddressDecision.PassedContractMeans | src/sync/conflict-action-contract.ts:12-47 | What passes the executor's check: auto-merge only under its strategy, a local-win only on three known, different digests at one address and for the row's object |
| AddressDecision.DeletionsAreProven | src/sync/identity-component-decision.ts:601-695 | A deletion is decided if and only if the file is unchanged and present sides are not kept; a local one needs the provider's own word |
| AddressDecision.PolicyExactly | src/sync/conflict-policy-admission.ts:23-46 | The mode of a decided conflict is the strategy's own; preferring local wins if and only if it is allowed and the three digests at one address, of one object, are known and all different |
| AddressDecision.RefusedExactly | src/sync/identity-component-decision.ts:601-695 | Refused if and only if a side was not observed, or an unchanged local file's deletion is not confirmed |
| AddressRelocation.ExactIsPath | src/sync/identity-component-decision.ts:601-670 | For a row that is stored where it is continued, the exact-path rule is the one-address decision |
| AddressRelocation.MovedIsPath | src/sync/identity-component-decision.ts:601-670 | For a row whose object was seen here, the rule is the one-address decision on that row as if stored here, save that nothing to do becomes the relocation and local never wins |
| AddressRelocation.OneAddressEach | src/sync/identity-component-decision.ts:601-670 | No row is continued at two addresses |
| AddressRelocation.RowFollowsObject | src/sync/identity-component-decision.ts:613-640 | An address continues its own row while that row's object is not seen elsewhere, else the row of the object seen here, wherever it is stored |
| AddressRelocation.MatchIsProven | src/sync/identity-component-decision.ts:601-670 | A decided match, relocations included, is between equal bytes |
| AddressRelocation.SynchronizedIsBase | src/sync/content-identity.ts:51-59 | Endpoints that count as synchronized through the row both hold the row's content |
| AddressRelocation.RelocationExactly | src/sync/identity-component-decision.ts:601-670 | A moved row whose files still hold its content is matched at the new address if and only if their evidence can be compared, and refused otherwise |
| AddressRelocation.ExactConverges | src/sync/plan-executor.ts:377-466 | Any action of the exact-path rule, a match on a moved row included, leaves both sides and the row agreeing, or all absent, when executed undisturbed |
| AddressRelocation.RelocationMoves | src/sync/identity-component-decision.ts:613-640 | Publishing a moved row carries it to the new address, leaves no row at the old one, touches no other, and passes the comparison if and only if the new address holds no row |
| AddressExecution.SameContentSameBytes | src/sync/content-identity.ts:21-45 | Entities with one content key hold the same bytes |
| AddressExecution.BuiltRowDescribes | src/sync/state-committer.ts:40-58 | The committed row describes the bytes both sides hold and names the provider object |
| AddressExecution.EffectsAgree | src/sync/plan-executor.ts:402-466 | After any decision's effects both sides hold the same bytes, or nothing |
| AddressExecution.Converges | src/sync/plan-executor.ts:377-466 | Any admitted action, executed undisturbed, leaves both sides and the row agreeing, or all absent |
| AddressExecution.EditTravels | src/sync/decision-engine.ts:6-26 | With both files and their row: no edit, nothing; provably equal, a match with no file written; edits on both sides, a conflict; an edit on one side, its bytes end on the other, whose file alone is written, in its own object |
| AddressExecution.LoneEditWins | src/sync/decision-engine.ts:6-26 | On bytes: when one file is what was synchronized and shows it, and the other was edited without looking unchanged, the edit ends on both sides and nothing else is touched |
| AddressExecution.FirstSight | src/sync/decision-engine.ts:6-26 | Without a row, or with one side missing where present sides are kept: what one side has travels to the other, provably equal files are matched unwritten, others conflict |
| AddressExecution.ReplacementConflicts | src/sync/identity-component-decision.ts:681-687 | Against a row of another object neither version travels: the files are equal, or they conflict |
| AddressExecution.DeletionsTakeOne | src/sync/plan-executor.ts:402-466 | A deletion takes exactly the file at the address; a cleanup is decided exactly for a row with neither file, and writes none |
| AddressExecution.ConflictWrites | src/sync/conflict-resolver.ts:116-210 | A conflict writes its address and the free copy address and no other; preserve mode leaves the local version at the address and the remote one in the copy |
| AddressExecution.ConvergedIsQuiet | src/sync/state-committer.ts:40-58 | After executing, a cycle that sees the same entities decides nothing if and only if each reported a digest or a time: the committed row keeps whatever evidence they had |
| AddressExecution.SettledNeedsNothing | src/sync/decision-engine.ts:6-26 | On a settled address the next decision is nothing if and only if both endpoints are comparable with the row; what a side's edit leads to is `AddressExecution.EditTravels` |
| AddressExecution.IncomparableIsRepeated | src/sync/decision-engine.ts:6-26 | A settled address whose local file reports neither a digest nor a time is pushed again |
| AddressExecution.EditIsDetected | src/sync/change-compare.ts:31-84 | An edit counts as a change if and only if it does not look unchanged |
| AddressExecution.EditNeverLosesToDeletion | src/sync/conflict-resolver.ts:92-180 | A detected edit against a deletion ends up on both sides, under every strategy |
| AddressExecution.DeletionTakesOnlyUnseenEdits | src/sync/identity-component-decision.ts:601-695 | An edited file is deleted if and only if it looked unchanged, the deletion is proven and present sides are not kept |
| AddressExecution.UnseenEditDeleted | src/sync/identity-component-decision.ts:601-695 | An edited file with its old size and time, and no digest, is deleted |
| Survival.PreserveKeepsEveryVersion | src/sync/conflict-resolver.ts:116-210 | In preserve mode, and after a rejected merge, every version is at the address or in the copy |
| Survival.NothingElseIsDestroyed | src/sync/plan-executor.ts:377-466 | Under every decision, conflicts of all modes included, what is destroyed is the baseline's content, an edit that looked unchanged, or exactly what the conflict's policy gives up |
| Survival.ConflictLoss | src/sync/conflict-resolver.ts:116-210 | Of two conflicting versions one is gone if and only if it stood nowhere else and the mode gives it up: for an accepted merge that is not it, for a side known to be newer, or for a proven local-win |
| Survival.LoneVersionKept | src/sync/conflict-resolver.ts:92-115 | With one side gone no strategy loses the other: both sides get it |
| Survival.MergeKeepsBothEdits | src/sync/conflict-resolver.ts:116-180 | An accepted merge without overlaps leaves on both sides each version with the other's edits re-addressed onto it |
| Survival.ContestIsReported | src/sync/conflict-resolver.ts:138-163 | Contested lines are never a clean merge: the result is reported with markers, or of a structured file refused with both versions kept; an uncontested merge is clean, and with one side unchanged it is the other's text |
| Survival.LocalWinIsProven | src/sync/conflict-policy-admission.ts:23-46 | A local-win is decided only with the proof the executor asks for |
| AddressExecution.Endpoints.RunActionIO | src/sync/plan-executor.ts:402-466 | Each action writes or deletes only its own side and refuses without its source; the whole new state |
| AddressExecution.Endpoints.ExecuteConflict | src/sync/plan-executor.ts:697-788 | The copy is made before the target is written on both sides; the whole new state, or none on refusal |
| AddressExecution.Endpoints.ExecuteDecision | src/sync/plan-executor.ts:377-391 | Effects, then the row; a refusal anywhere publishes no row |
| PreservationCover.DecideCover | src/sync/identity-component-decision.ts:241-325 | No cover exactly without witnesses or two sources, or for a standing relation whose cover was never begun with a committed original or one version; unknown exactly for sources without a hash; refused only when a candidate is out of scope, unobserved or holds other content; else exactly one child per unpublished version, with the sides it lacks, and one cleanup per stale row |
| PreservationCover.GateExactly | src/sync/identity-component-decision.ts:280-288 | The gate stays shut exactly for a standing relation, no trace of a cover, and a committed original or a single version; an abandoned relation or two versions without a row open it from the start |
| PreservationCover.StepKeeps | src/sync/plan-executor.ts:924-999 | Where every publication is possible, the first step left can be taken, overwrites nothing, and a new decision is what was left |
| PreservationCover.ChildRunsExactly | src/sync/plan-executor.ts:959-999 | A candidate's child can be carried out if and only if the object it publishes is committed at no other address |
| PreservationCover.StepIsSafe | src/sync/plan-executor.ts:924-999 | No step, whoever made its list, destroys a file or a row it was not given, nor makes a second row for an object |
| PreservationCover.PublishedTruly | src/sync/plan-executor.ts:959-999 | A publication that passed names what both sides hold, with its digest and the remote file's object |
| PreservationCover.Restartable | src/sync/plan-executor.ts:924-999 | Stopped after any prefix of steps that ran and decided again from the same versions in any order: same candidates, the children are exactly the unpublished versions, less is left; every prefix runs where the publications are possible |
| PreservationCover.StoppedRestarts | src/sync/plan-executor.ts:924-999 | Wherever the executor stops, at a refused publication too, it has overwritten nothing and the same cover is decided again for exactly the unpublished versions |
| PreservationCover.FinishedCover | src/sync/identity-component-decision.ts:289-325 | Where every publication is possible, the decision is empty exactly when every version is published and no stale row remains, and a full run gets there |
| PreservationCover.EveryVersionPreserved | src/sync/plan-executor.ts:924-999 | Where every publication is possible, a full run has overwritten nothing and left every version at its candidate on both sides, under a row with its digest |
| PreservationCover.OnlyCandidatesWritten | src/sync/plan-executor.ts:959-999 | No step of a decided cover that ran touches a file at an address that is no candidate |
| PreservationCover.RestartSeesSameVersions | src/sync/identity-component-decision.ts:264-279 | After any prefix that ran the observed contents are the same set of versions, with or without finished candidates as sources |
| PreservationCover.GateStaysOpen | src/sync/identity-component-decision.ts:280-288 | After the first step the cover is decided again even if the reports that called for it are gone |
| PreservationCover.DecidedCoverPasses | src/sync/conflict-action-contract.ts:49-86 | Every decided cover passes the executor's list and child conditions |
| PreservationCover.CheckedCover | src/sync/conflict-action-contract.ts:49-92 | A cover that passes the check splits its candidates into preserved ones and one child each; a child writes its version, at its candidate, to exactly the sides on which it expects nothing |
| PreservationCover.Stores.ExecuteChild | src/sync/plan-executor.ts:959-999 | Success is exactly the child's steps; a failure, of the capture, a write or the publication, has taken exactly a first part of them |
| PreservationCover.Stores.ExecuteChildren | src/sync/plan-executor.ts:924-949 | Each child is carried out before the next; a failure has taken exactly a first part of all their steps |
| PreservationCover.Stores.ExecutePreservationCover | src/sync/plan-executor.ts:924-949 | Success is exactly the cover's steps; a failure has taken exactly a first part of them, so the cover can be decided again |
| CoverNames.AnchoredNamesApart | src/utils/path.ts:79-86 | Distinct digests give distinct candidates under every anchor |
| CoverNames.AnchoredCoverPasses | src/sync/conflict-action-contract.ts:49-105 | On an anchor that parses, every decided cover passes the whole contract check, canonical addresses included |
| CoverNames.UnparsableAnchorFails | src/sync/conflict-action-contract.ts:101-105 | On any other anchor a candidate is not canonical, unless the extension carries its own digest |
| ConflictNames.PrintsName | src/utils/path.ts:79-86 | Printing keeps the directory and puts the suffix before the file name's extension |
| ConflictNames.WhereItMatches | src/sync/conflict.ts:66-78 | The expression matches a printed name at the printed place, and elsewhere only at a conflict extension |
| ConflictNames.ParsedPlace | src/sync/conflict.ts:66-78 | Which of the two places the greedy parser takes |
| ConflictNames.PrintParses | src/sync/conflict.ts:66-78 | Parsing a printed address returns its base and digest, if and only if the base is one of the parsable ones |
| ConflictNames.ParsedPrintsBack | src/sync/conflict.ts:66-78 | Whatever parses prints back to itself, with a full digest |
| ConflictNames.PrintIsInjective | src/utils/path.ts:79-86 | Distinct digests give distinct addresses, for every base |
| QuickXor.XorByteAtBit | src/utils/quickxor.ts:37-45 | Exactly the ring bits the value covers, wrapping around, are flipped |
| QuickXor.FoldBytes | src/utils/quickxor.ts:54-61 | The data loop folds every byte at its place, skipped zero bytes included |
| QuickXor.FoldLength | src/utils/quickxor.ts:63-70 | The length is folded into bits 96 to 159, little-endian |
| QuickXor.QuickXorRing | src/utils/quickxor.ts:52-73 | The twenty bytes are the fold of the data with the length term |
| QuickXor.OffsetIsModular | src/utils/quickxor.ts:54-61 | The running offset of byte i is 11 i modulo 160 |
| QuickXor.FoldIsParity | src/utils/quickxor.ts:52-73 | Ring bit g is set if and only if an odd number of set bits k of bytes i have (11 i + k) mod 160 = g |
| QuickXor.HashIsLinear | src/utils/quickxor.ts:52-73 | For equal lengths the hash of an exclusive or is the exclusive or of the hashes, up to the length term |
| QuickXor.SwapKeepsHash | src/utils/quickxor.ts:52-73 | Swapping bytes a multiple of 160 apart leaves the hash unchanged |
| PruneParents.PruneCandidateChain | src/sync/identity-component-decision.ts:742-753 | The chain is exactly the ancestors with no out-of-scope one at or below them, nearest first |
| PruneParents.CollectCandidates | src/sync/prune-empty-parents.ts:33-40 | Every directory of every chain once |
| PruneParents.BlockPruneAncestors | src/sync/prune-empty-parents.ts:76-89 | Blocks exactly the candidates that are strict ancestors on that side |
| PruneParents.PruneInOrder | src/sync/prune-empty-parents.ts:42-72 | One deepest-first pass removes exactly the removable candidates, each deleted only while empty, none visited twice |
| PruneParents.PruneEmptiedDirectories | src/sync/prune-empty-parents.ts:29-73 | Removes exactly the candidates whose whole content is candidates and meets no failure; nothing else goes |
| PruneParents.SurvivorIsOccupied | src/sync/prune-empty-parents.ts:29-73 | Without failures a candidate survives only if something in it survives |

## Left out

- OAuth, HTTP transport, the provider clients, the settings page, logging, notices and the wake lock: network and user interface.
- IndexedDB itself: each transaction is one atomic step on maps; record comparison by JSON text is value equality, so key order is not modelled. The uncompared `put`, `delete` and `putContent` routes are not part of this model.
- SyncState.SyncStateStore.CompareAndRewritePaths: asks that every terminal is its source at another path, because that is how the committer builds each item (src/sync/state-committer.ts:109-121).
- FolderCommit.DecideDescendants: the binding of suffixes to current files, and what action each needs, come in as inputs.
- FolderCommit.FolderCommits: what the children's own publications left in the store is stated row by row, not replayed publication by publication.
- FolderCommit.FolderMappingIsAdmissible: asks that every row stands at its suffix below the old or the new root; a row continued from elsewhere is compared by the store.
- ThreeWay.ThreeWayMerge: the difference library is an input that must return in-range, separated hunks; the text between conflict markers, line splitting and line-end style are not modelled. The early returns for an empty hunk list (src/sync/merge.ts:85-86) cannot be reached by such lists once the texts differ.
- FactComponents.BuildFactComponents: the order of components is not modelled; no fact may name an empty path; the smallest path under the UTF-8 order is a parameter that only has to pick one of the paths.
- Binding files to identities and the HOT, WARM and COLD acquisitions: observations and claims are inputs.
- PriorityCoordination.RunKeeps: the diagnostics counters are not modelled; a task's own work is one run that ends well or badly.
- MutationBarriers.RunKeeps: an operation that calls the barrier again while it starts is not modelled.
- `AsyncPool` and `AsyncMutex`: the first gives no concurrency bound, since a new arrival can take a freed slot before a woken waiter; the second would add only easy members.
- SyncRuns.RunKeeps: a cycle of a fresh tracker is taken to see every local change, and a clean cycle to cover what its snapshot saw; an edit that keeps size and time is the subject of `AddressExecution.EditIsDetected`. Retry delays and error classes are a free choice to retry or not. The commit of the checkpoint is one atomic step. A reset of the checkpoint outside the mutex, when the backend is replaced, is not an event.
- SyncRuns.RequestGetsACycle: a request made while a cycle ends in a fatal error stays in the slot until the next trigger, as in the source; no cycle is promised for it.
- SyncRuns.RemoteRunCovered: remote changes are numbered in the order a provider reports them, and an attempt sees those between its working view and where it reads to, or all up to there when it lists. File systems without a checkpoint or a metadata store, which never commit a cursor, are not modelled; a checkpoint that cannot be read counts as one with a changed scope.
- AddressDecision.DeletionsAreProven: one row stored under the address; a row stored elsewhere is the subject of `AddressRelocation`, further occupants of the address are not modelled.
- AddressRelocation.RelocationExactly: which row and object an address is bound to come in as the three rows of one observation.
- AddressExecution.Converges: the proof steps' own refusals are taken to pass, which is what undisturbed means; eligibility of the three-way merge by size and extension, and whether it is enabled, come in as whether a merge exists.
- Survival.MergeKeepsBothEdits: the merge is tied to the three texts through a decoding and an encoding that are parameters.
- Digests are taken to tell contents apart; a provider checksum may do so for its own algorithm.
- PreservationCover.DecideCover: which witnesses start a cover, how many sources there are, which addresses are in scope and which candidates were observed come in as facts; the decision on them is the member.
- The probing for a free copy address (src/sync/conflict.ts:39-63): a free address is an input.
- Text is a sequence of characters, not of UTF-16 units.
- QuickXor.QuickXorRing: the base64 text of the twenty bytes is not modelled.
- PruneParents.PruneEmptiedDirectories: entries are not told apart as files and directories, so a candidate that is a file counts as an empty directory, as `hasChildren` counts it; candidates are directories where the caller's chains are built.
