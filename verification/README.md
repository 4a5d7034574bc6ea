# mini-container-ecosystem: a verified model

Dafny models of the parts of this repository that keep state or compute, with proofs of what they
are for. `dafny verify dfyconfig.toml` checks everything.

Most parts come in two layers. A *value* layer (datatypes, functions, lemmas) says what one
operation does to a state and proves what holds over all states, runs and inputs. An *object* layer
(classes and methods with loops) follows the Go code and is proved equal, call by call, to the value
layer, so that everything proved about values holds of the objects.

- **Scheduler of mini-kueue.** `KueueResources`, `KueueTypes`: resource lists, flavors, workloads.
  `KueueOrder`: the stable sort. `KueueAdmission`: one queue's pass as a left fold of first-fit.
  `KueueLedger`: the quota ledger. `KueueSystem`: all queues, events and runs. `KueueClusterQueue`,
  `KueueScheduler`: the objects, with queue maps visited in any order.
- **Snapshotter of mini-containerd.** `SnapshotModel`: the forest under Prepare, View, Commit and
  Remove, and the ancestor walk. `Snapshots`: the object and its overlay mounts. `LayerUnpack`:
  layers stacked on each other and what the resulting mount shows. `LayerPull`: the layer loop of a
  pull over snapshotter and content store together.
- **Content store of mini-containerd.** `ContentModel`: uploads, the running hash, blobs and files.
  `ContentHistory`: which blobs a run leaves recorded. `ContentRestart`: what a new store finds on
  disk. `ContentService`: the message protocol, its client, and `storeContent`. `ContentProtocol`:
  the messages one by one, and other streams. `ContentUploads`: the client's upload over leftovers
  and among other callers. `ContentStore`, `ContentServer`: the objects and loops.
- **Name parsers.** `Reference` (mini-nerdctl) and `DockerRef` (mini-docker), over the string
  searches in `Strings`; `PullRef`, the two in a row, as a pull of mini-nerdctl uses them.
- **Shell words.** `ShellWords`, the word splitter of the Dockerfile parser.
- **Task manager of mini-containerd.** `TaskModel`: API calls, waiters and exit monitors as
  interleaved atomic steps, for any number of tasks. `TaskManager`: the objects.

Several claims that sound right are false of the code. For each there is the exact condition under
which it holds: `FinishInRunIff` and `SubmitInRunIff` (a workload finished twice or before it is
admitted, or submitted again), `CommitFaithfulIff` (an upload that was rewound), `UploadIff`,
`StoreContentIff` and `PullIff` (uploads left by an earlier attempt), `LowerdirIsReversed` (colons in
paths), `WritesShownIff` (mounts of Committed snapshots), `RestartForgets` (blobs after a restart),
`TargetIff` (names that two parsers read differently), `FixedPointIff` and
`NormalizeIdempotentIff` (names with a digest; names of Docker Hub images), `RoundTripIff` (empty
words), `StoppedIffSeen` (an exit before Start or during Pause). One consequence, `OneAttempt`, is
that a layer can be pulled once: neither a second pull nor a retry after wrong bytes succeeds.

Where code and documentation disagree the model follows the code:

- `mini-kueue/internal/scheduler/doc.go:12-18` describes head-of-line blocking; `Schedule` passes a
  workload over and tries the later ones.
- `mini-containerd/internal/task/task.go:47` says that the wait channel is closed at exit; the
  monitor sends one value into it, which is why only one Wait returns.
- `mini-nerdctl/pkg/reference/reference.go:28-36` promises a fully qualified reference; behind a
  digest without a tag before it, `Normalize` puts the default tag, and one more on every round.

SHA-256 is a parameter: any function from bytes to 64 characters. Clock readings are parameters.

## Model

| member | source | states |
|---|---|---|
| KueueSystem.OrderIrrelevant | mini-kueue/pkg/scheduler/scheduler.go:59-82 | every visiting order of the queue map ends in the same state: one pass over each queue |
| KueueScheduler.Scheduler.Schedule | mini-kueue/pkg/scheduler/scheduler.go:59-82 | the in-place pass, with the map visited in any order, makes the whole state one pass over every queue, and returns the admissions queue by queue in that order, each in queue order |
| KueueSystem.NothingFitsAfterSchedule | mini-kueue/pkg/scheduler/scheduler.go:59-82 | in every run, after Schedule no pending workload fits any flavor of its queue |
| KueueSystem.ScheduleIdempotent | mini-kueue/pkg/scheduler/scheduler.go:59-82 | in every run, a second Schedule admits nothing and leaves the whole state as it is |
| KueueSystem.PriorityRespected | mini-kueue/pkg/scheduler/scheduler.go:59-82 | in every run, a pending workload that the next Schedule admits never passes one of higher priority, or of the same and older, that asks for no more: that one is admitted too |
| KueueSystem.PriorityInStep | mini-kueue/pkg/scheduler/scheduler.go:59-82 | the same from any state that satisfies the invariant |
| KueueSystem.QueuesInOrder | mini-kueue/pkg/types/types.go:188-204 | in every run each pending queue stands by priority from the highest and then by age |
| KueueSystem.SubmitArrives | mini-kueue/pkg/scheduler/scheduler.go:41-54 | a submission goes to the LocalQueue of namespace/name and the ClusterQueue that leads to: status Pending, flavor name kept; without either it changes nothing |
| KueueSystem.FinishArrives | mini-kueue/pkg/scheduler/scheduler.go:104-115 | a finish goes the same way: it marks the workload Finished and lowers the usage of the first flavor of its name by its request |
| KueueSystem.KeyInjective | mini-kueue/pkg/scheduler/scheduler.go:35-45 | two pairs of namespace and name have the same key only if they are the same, for namespaces without a slash |
| KueueSystem.RunKeepsInvariant | mini-kueue/pkg/scheduler/scheduler.go:41-115 | over every run that submits a workload once and finishes it only while Admitted: exact ledger, bounds, sorted queues, and pending plus recorded equals what the LocalQueues were given |
| KueueSystem.LedgerOfRun | mini-kueue/pkg/types/types.go:119-185 | over those runs Used[k] of a flavor is the sum of the requests of the workloads Admitted to it, and lies between 0 and the quota |
| KueueSystem.StepKeepsInvariant | mini-kueue/pkg/scheduler/scheduler.go:41-115 | each of Submit, Schedule, Finish and FinishByName keeps the ledger, the bounds, the order and the conservation of workloads |
| KueueSystem.SubmissionsDoNotInterfere | mini-kueue/pkg/scheduler/scheduler.go:59-82 | in every run, a submission to another queue, or one that does not sort before a pending workload, changes neither whether nor where the next Schedule admits that workload |
| KueueSystem.SubmitConserves | mini-kueue/pkg/scheduler/scheduler.go:41-54 | a submission adds the workload to exactly one queue and to exactly the LocalQueue that leads to it |
| KueueSystem.FinishInRunIff | mini-kueue/pkg/scheduler/scheduler.go:104-115 | in every run, a Finish of any workload keeps every ledger exactly when it has no route, the workload is Admitted where it leads, or nothing is freed |
| KueueSystem.FinishByNameInRunIff | mini-kueue/pkg/scheduler/scheduler.go:85-101 | in every run, FinishByName keeps every ledger exactly when it finds nothing, an Admitted workload, or one that frees nothing |
| KueueSystem.SubmitInRunIff | mini-kueue/pkg/scheduler/scheduler.go:41-54 | in every run, a Submit of any workload keeps every ledger exactly when it has no route, the workload is not charged where it leads, or its charge is nothing |
| KueueSystem.DoubleFinishRun | mini-kueue/pkg/scheduler/scheduler.go:104-115 | a reachable run in which a second finish drives usage below zero |
| KueueSystem.PendingFinishRun | mini-kueue/pkg/scheduler/scheduler.go:104-115 | a reachable run in which finishing a pending workload drives usage below zero |
| KueueSystem.ResubmitRun | mini-kueue/pkg/scheduler/scheduler.go:41-54 | a reachable run in which submitting an admitted workload again leaves usage that nobody accounts for |
| KueueSystem.VisitedSoFar | mini-kueue/pkg/scheduler/scheduler.go:62-80 | part way through a pass the queues already visited have been passed over exactly once, the others not at all |
| KueueSystem.IndexByName | mini-kueue/pkg/scheduler/scheduler.go:94-99 | the search by name finds the first recorded workload of that name and namespace, or none |
| KueueAdmission.WorkConservation | mini-kueue/pkg/scheduler/scheduler.go:59-82 | after a pass over a sorted queue of non-negative requests, nothing that still waits fits any flavor |
| KueueAdmission.UrgentIsServed | mini-kueue/pkg/scheduler/scheduler.go:59-82 | in a pass over a sorted queue nobody is admitted while a more urgent workload that asks for no more is not |
| KueueAdmission.EarlierIsServed | mini-kueue/pkg/scheduler/scheduler.go:62-75 | the same by position: an earlier workload that asks for no more than an admitted one is admitted |
| KueueAdmission.SmallerFits | mini-kueue/pkg/types/types.go:119-133 | a flavor list that takes a request took any smaller request when less was used |
| KueueAdmission.RejectionStands | mini-kueue/pkg/types/types.go:89-133 | a request no flavor takes is still taken by none after usage has grown |
| KueueAdmission.DrainGrows | mini-kueue/pkg/scheduler/scheduler.go:65-75 | within a pass the usage of every resource of every flavor only grows |
| KueueAdmission.PassClosedForm | mini-kueue/pkg/scheduler/scheduler.go:62-79 | after a pass the queue is the order-preserving filter of the rejected workloads, the record has grown by the admitted ones in order, and no workload is lost or duplicated |
| KueueAdmission.PassMarkOf | mini-kueue/pkg/scheduler/scheduler.go:62-79 | after a pass each workload of the queue is Admitted to the first flavor that took it, or Pending with its flavor name unchanged |
| KueueAdmission.SelectPartition | mini-kueue/pkg/scheduler/scheduler.go:64-75 | admitted and rejected workloads together are the drained prefix of the queue, as multisets |
| KueueAdmission.SelectSorted | mini-kueue/pkg/scheduler/scheduler.go:64-75 | filtering a sorted queue by the decisions leaves it sorted |
| KueueAdmission.RequeueSorts | mini-kueue/pkg/scheduler/scheduler.go:76-79 | putting the rejected workloads back one by one, each time with a stable sort, equals one stable sort of them |
| KueueAdmission.SecondPassIdle | mini-kueue/pkg/scheduler/scheduler.go:59-82 | a pass after a pass changes neither usage, record, queue nor marks, and admits nothing |
| KueueAdmission.PrefixDecides | mini-kueue/pkg/scheduler/scheduler.go:62-75 | two queues that agree on a prefix get the same decision at every position of it |
| KueueAdmission.LaterSubmissionHarmless | mini-kueue/pkg/scheduler/scheduler.go:62-75 | submitting a workload that does not sort before another changes neither whether nor where the other is admitted |
| KueueAdmission.FirstFit | mini-kueue/pkg/types/types.go:157-171 | the chosen flavor takes the request and no earlier one does; without a choice no flavor does |
| KueueAdmission.FindFlavor | mini-kueue/pkg/types/types.go:176-181 | a release looks at the first flavor of that name, or at none |
| KueueLedger.AssignKeepsCore | mini-kueue/pkg/types/types.go:157-171 | one admission or rejection keeps ledger, bounds, statuses and the set of workloads |
| KueueLedger.DrainKeepsCore | mini-kueue/pkg/scheduler/scheduler.go:64-75 | the same at every point of the drain loop |
| KueueLedger.PassKeepsInvariant | mini-kueue/pkg/scheduler/scheduler.go:59-82 | a whole pass keeps the queue invariant |
| KueueLedger.SubmitKeepsInvariantIff | mini-kueue/pkg/types/types.go:188-192 | submitting any workload keeps the queue invariant exactly when it is new to the queue and its request is non-negative |
| KueueLedger.SubmitKeepsLedgerIff | mini-kueue/pkg/types/types.go:188-192 | submitting any workload keeps the ledger exactly when it is not charged there, or its charge is nothing |
| KueueLedger.FinishKeepsLedgerIff | mini-kueue/pkg/types/types.go:174-185 | finishing any workload at all, recorded, pending or never seen, keeps the ledger exactly when it is recorded and Admitted, or when its flavor name or its request frees nothing |
| KueueLedger.FinishPendingIff | mini-kueue/pkg/types/types.go:174-185 | finishing a pending workload keeps the ledger exactly when the flavor name it carries frees nothing |
| KueueLedger.FinishTwiceIff | mini-kueue/pkg/types/types.go:174-185 | finishing an Admitted workload twice keeps the ledger exactly when it frees nothing |
| KueueLedger.FinishKeepsInvariant | mini-kueue/pkg/types/types.go:174-185 | finishing an Admitted workload keeps the whole queue invariant, with usage still non-negative |
| KueueLedger.ReleaseSums | mini-kueue/pkg/types/types.go:174-185 | a release of any workload lowers the usage of the first flavor of the name by its request, and the charged sum only if the workload was held |
| KueueLedger.ChargedWithout | mini-kueue/pkg/types/types.go:46-53 | closing the account of one workload takes exactly its own request out of the sum |
| KueueOrder.StableSortCorrect | mini-kueue/pkg/types/types.go:196-204 | the sort puts nothing before what it must follow, keeps equal ranks in order, and is a permutation |
| KueueOrder.SortByPriorityAndAge | mini-kueue/pkg/types/types.go:196-204 | in the sorted queue an earlier place never has the lower priority, nor, at the same priority, the later creation time |
| KueueOrder.OrderMeans | mini-kueue/pkg/types/types.go:196-204 | the same of any sorted queue |
| KueueOrder.StableSortUnique | mini-kueue/pkg/types/types.go:196-204 | only one sequence is a stable sort of a queue, so the library sort has no freedom |
| KueueOrder.InsertIsStable | mini-kueue/pkg/types/types.go:188-204 | placing a workload behind those it does not precede is the stable sort after an append |
| KueueOrder.SortOfSorted | mini-kueue/pkg/types/types.go:188-204 | sorting a sorted queue changes nothing; after an append it moves only the new workload |
| KueueTypes.AcceptsMeaning | mini-kueue/pkg/types/types.go:119-133 | CanFit says: every requested key is tracked and used plus requested is within the quota |
| KueueTypes.TotalMeans | mini-kueue/pkg/types/types.go:47-53 | a workload asks for the request of one pod as often as it has pods, key by key |
| KueueTypes.Workload.TotalRequests | mini-kueue/pkg/types/types.go:47-53 | the loop yields per-pod request times pod count, key by key |
| KueueTypes.FlavorQuota.Available | mini-kueue/pkg/types/types.go:119-121 | quota minus usage |
| KueueTypes.FlavorQuota.CanFit | mini-kueue/pkg/types/types.go:125-133 | true exactly when the flavor tracks every requested key and each fits what is free |
| KueueTypes.FlavorQuota.Reserve | mini-kueue/pkg/types/types.go:136-138 | usage grows by the request, nothing else changes |
| KueueTypes.FlavorQuota.Release | mini-kueue/pkg/types/types.go:141-143 | usage falls by the request, nothing else changes |
| KueueResources.Add | mini-kueue/pkg/types/types.go:67-76 | the loop over a map in any order yields the key-wise sum |
| KueueResources.Sub | mini-kueue/pkg/types/types.go:78-87 | the loop over a map in any order yields the key-wise difference |
| KueueResources.Fits | mini-kueue/pkg/types/types.go:89-96 | no key listed on both sides exceeds the capacity |
| KueueResources.Clone | mini-kueue/pkg/types/types.go:98-104 | an equal copy |
| KueueClusterQueue.ClusterQueue.AssignFlavor | mini-kueue/pkg/types/types.go:157-171 | in place: reserves in the first fitting flavor, marks and records the workload, or changes nothing |
| KueueClusterQueue.ClusterQueue.FindFit | mini-kueue/pkg/types/types.go:159-169 | the loop over the flavors stops at the first that takes the request |
| KueueClusterQueue.ClusterQueue.ReleaseFlavor | mini-kueue/pkg/types/types.go:176-181 | the loop over the flavors frees the first of the name |
| KueueClusterQueue.ClusterQueue.ReleaseWorkload | mini-kueue/pkg/types/types.go:174-185 | in place: frees the first flavor of the workload's flavor name and marks it Finished |
| KueueClusterQueue.ClusterQueue.Enqueue | mini-kueue/pkg/types/types.go:188-192 | in place: marks the workload Pending and stable-sorts the queue with it |
| KueueClusterQueue.ClusterQueue.Dequeue | mini-kueue/pkg/types/types.go:207-214 | takes the head, or nil from an empty queue |
| KueueScheduler.TryHead | mini-kueue/pkg/scheduler/scheduler.go:65-75 | one turn of the drain loop |
| KueueScheduler.DrainQueue | mini-kueue/pkg/scheduler/scheduler.go:64-75 | the drain loop is the left fold of first-fit over the queue, with admitted and rejected workloads in queue order |
| KueueScheduler.RetryQueue | mini-kueue/pkg/scheduler/scheduler.go:77-79 | the re-enqueue loop, one stable sort per workload |
| KueueScheduler.SchedulePass | mini-kueue/pkg/scheduler/scheduler.go:62-80 | the body of the outer loop is one pass |
| KueueScheduler.Scheduler.AddClusterQueue | mini-kueue/pkg/scheduler/scheduler.go:30-32 | registration under the name, other queues untouched |
| KueueScheduler.Scheduler.AddLocalQueue | mini-kueue/pkg/scheduler/scheduler.go:35-37 | registration under namespace/name, queues untouched |
| KueueScheduler.Scheduler.FindQueue | mini-kueue/pkg/scheduler/scheduler.go:42-50 | the two lookups with their two errors |
| KueueScheduler.Scheduler.Submit | mini-kueue/pkg/scheduler/scheduler.go:41-54 | in place: routes, enqueues and records, or fails and changes nothing |
| KueueScheduler.Scheduler.Finish | mini-kueue/pkg/scheduler/scheduler.go:104-115 | in place: releases in the routed queue, or fails and changes nothing |
| KueueScheduler.Scheduler.FinishByName | mini-kueue/pkg/scheduler/scheduler.go:85-101 | in place: releases the first recorded workload of that name; fails exactly when there is no route or no such workload |
| KueueScheduler.Scheduler.FindByName | mini-kueue/pkg/scheduler/scheduler.go:94-99 | the search loop |
| KueueScheduler.Scheduler.ScheduleQueue | mini-kueue/pkg/scheduler/scheduler.go:62-80 | one turn of the outer loop changes one queue and no other |
| SnapshotModel.RunKeepsForest | mini-containerd/internal/snapshot/snapshot.go:110-252 | from an empty snapshotter every sequence of Prepare, View, Commit and Remove keeps every parent present and Committed, the parent relation acyclic, and directories in step with the map |
| SnapshotModel.EffectKeepsForest | mini-containerd/internal/snapshot/snapshot.go:110-252 | each successful operation keeps that invariant, including a rename over a View's key |
| SnapshotModel.WalkEnds | mini-containerd/internal/snapshot/snapshot.go:92-105 | the ancestor walk ends, in a duplicate-free list of Committed snapshots without the key, shorter than the map |
| SnapshotModel.WalksEndIffAcyclic | mini-containerd/internal/snapshot/snapshot.go:92-105 | the unbounded walk ends from every snapshot if and only if the parent relation is acyclic |
| SnapshotModel.ChainUnique | mini-containerd/internal/snapshot/snapshot.go:92-105 | a key has at most one ancestor chain |
| SnapshotModel.ChainCommitted | mini-containerd/internal/snapshot/snapshot.go:92-105 | every member of a chain is present and Committed |
| SnapshotModel.ChainNoRepeats | mini-containerd/internal/snapshot/snapshot.go:92-105 | no snapshot occurs twice in a chain |
| SnapshotModel.ChainStable | mini-containerd/internal/snapshot/snapshot.go:110-252 | every operation leaves the whole ancestor chain of each surviving Committed snapshot unchanged |
| SnapshotModel.EveryChainStable | mini-containerd/internal/snapshot/snapshot.go:110-252 | the same for every snapshot whose own entry stays, Active and View ones included |
| SnapshotModel.RunKeepsChain | mini-containerd/internal/snapshot/snapshot.go:110-252 | over every run that does not remove it, a Committed snapshot keeps its entry and its whole ancestor chain |
| SnapshotModel.CommittedUntouched | mini-containerd/internal/snapshot/snapshot.go:193-252 | an operation never changes a Committed entry that survives, and never removes one with children |
| SnapshotModel.CommitKeepsChain | mini-containerd/internal/snapshot/snapshot.go:193-224 | a successful Commit gives the name exactly the chain the key had |
| SnapshotModel.NewEntry | mini-containerd/internal/snapshot/snapshot.go:110-189 | Prepare and View succeed exactly for a new key and a Committed parent, which only Prepare may do without; the new entry has its kind and that parent, a directory only if Active, and nothing else changes |
| SnapshotModel.NewChain | mini-containerd/internal/snapshot/snapshot.go:110-189 | its ancestors are then the parent followed by the ancestors of the parent |
| SnapshotModel.CommitEntry | mini-containerd/internal/snapshot/snapshot.go:193-224 | Commit succeeds exactly for an Active key and, under another name, a free directory; the entry moves with its parent to the name, now Committed, and nothing else changes |
| SnapshotModel.Refusals | mini-containerd/internal/snapshot/snapshot.go:110-176 | which error Prepare and View answer: no parent given to View, an unknown or uncommitted parent, or, with the parent in order, a key in use |
| SnapshotModel.RemoveIff | mini-containerd/internal/snapshot/snapshot.go:227-252 | checking direct children is enough: Remove takes a snapshot away exactly when it is in no ancestor chain at all |
| Snapshots.Snapshotter.ParentChain | mini-containerd/internal/snapshot/snapshot.go:92-105 | the loop without a bound ends and collects the chain |
| Snapshots.Snapshotter.MountsWithoutLock | mini-containerd/internal/snapshot/snapshot.go:264-329 | the mount is the one that MountOptions describes, for the kind of the snapshot and its ancestors, nearest first; an unknown key has none |
| Snapshots.LowerdirReadBackIff | mini-containerd/internal/snapshot/snapshot.go:280-325 | the lowerdir option reads back as the list of ancestors exactly when neither root nor keys hold a colon |
| Snapshots.MountOptions | mini-containerd/internal/snapshot/snapshot.go:280-325 | a Committed or parentless snapshot is a bind of its own directory; otherwise an overlay whose lowerdir joins the ancestors, with the own fs as upperdir and the own work as workdir if Active and neither if View |
| Snapshots.Isolation | mini-containerd/internal/snapshot/snapshot.go:280-325 | in any forest, what an Active mount writes to is no directory that any mount shows below, and no other mount writes there |
| Snapshots.WritesShownIff | mini-containerd/internal/snapshot/snapshot.go:264-325 | the mounts that write what another mount shows below are exactly those of the Committed ancestors of an uncommitted snapshot, which are handed out as plain binds |
| Snapshots.ViewIsReadOnly | mini-containerd/internal/snapshot/snapshot.go:307-325 | in any forest a View is mounted as an overlay without upperdir and workdir |
| Snapshots.ActiveWritesToItself | mini-containerd/internal/snapshot/snapshot.go:307-325 | an Active mount writes to the fs directory of its own key, with or without a parent |
| Snapshots.MountedDirsExist | mini-containerd/internal/snapshot/snapshot.go:110-325 | in any forest every directory that a mount writes to or shows below exists |
| Snapshots.FsPathInjective | mini-containerd/internal/snapshot/snapshot.go:79-90 | different keys have different directories |
| Snapshots.Snapshotter.Prepare | mini-containerd/internal/snapshot/snapshot.go:110-154 | in place: the checks in their order, then directory, entry and mount |
| Snapshots.Snapshotter.MakeView | mini-containerd/internal/snapshot/snapshot.go:158-189 | in place: the checks in their order, then an entry of kind View under the parent, no directory, and an overlay mount without upperdir |
| Snapshots.Snapshotter.Commit | mini-containerd/internal/snapshot/snapshot.go:193-224 | in place: rename, which fails on an existing directory, then freeze |
| Snapshots.Snapshotter.Remove | mini-containerd/internal/snapshot/snapshot.go:227-252 | in place: refused while there is a child |
| Snapshots.Snapshotter.AddActive | mini-containerd/internal/snapshot/snapshot.go:130-153 | the part of Prepare after its checks |
| Snapshots.Snapshotter.AddView | mini-containerd/internal/snapshot/snapshot.go:178-188 | the part of View after its checks |
| Snapshots.Snapshotter.Discard | mini-containerd/internal/snapshot/snapshot.go:243-249 | the part of Remove after its checks |
| Snapshots.Snapshotter.FindChild | mini-containerd/internal/snapshot/snapshot.go:236-241 | the search for a child over the map in any order |
| Snapshots.Snapshotter.FindParent | mini-containerd/internal/snapshot/snapshot.go:115-123 | the two parent checks |
| LayerPull.PullIff | mini-containerd/internal/image/image.go:127-148 | from any content store and whatever earlier attempts left in it, the loop of a pull succeeds exactly when each layer can be stored and the snapshot keys are new and distinct; it then has the layers stacked in order, each with an entry, and a genuine layer's file is its bytes exactly when no leftover reached beyond them |
| LayerPull.PullOfNewLayers | mini-containerd/internal/image/image.go:127-148 | for layers never attempted the pull succeeds exactly for genuine bytes and new, distinct keys, and stores the bytes of every layer under its digest |
| LayerPull.OneAttempt | mini-containerd/internal/image/image.go:136-139 | once a pull has come to a layer, stored or rejected, no later pull of that layer succeeds, whatever bytes are fetched and whatever happens to both stores in between |
| LayerPull.RetryFails | mini-containerd/internal/image/image.go:419-428 | wrong bytes are rejected without a trace in blobs and files, and the right bytes are then rejected too |
| LayerPull.AttemptDooms | mini-containerd/internal/image/image.go:136-139 | a pull that reaches a layer uses its upload ref up |
| LayerPull.DoomedBlocks | mini-containerd/internal/image/image.go:127-148 | a ref that is used up stays so through any pull, and makes every pull of its layer fail |
| LayerPull.LeftoverWithoutDigest | mini-containerd/internal/content/store.go:262-267 | an upload begun under a layer's ref without a digest makes the pull accept any bytes |
| LayerPull.PulledImageShowsLayers | mini-containerd/internal/image/image.go:127-148 | after a pull a snapshot can be prepared on the last layer; lookup through the directories that the lowerdir option of its mount names gives what applying the layers in order gives |
| LayerPull.StoreStep | mini-containerd/internal/image/image.go:419-428 | storing a layer succeeds exactly when it is storable, records the digest of its bytes and touches no other upload |
| LayerPull.StoredStep | mini-containerd/internal/image/image.go:136-139 | a layer stored later leaves the earlier ones as they are |
| LayerPull.RefsFollowKeys | mini-containerd/internal/image/image.go:142 | two layers share an upload ref exactly when they share a snapshot key |
| LayerPull.PullAll | mini-containerd/internal/image/image.go:127-148 | the loop in place over both stores, with chainID the last key; it stops at the first error |
| LayerPull.PullOne | mini-containerd/internal/image/image.go:136-145 | one turn in place |
| LayerUnpack.OverlayRefinesLayering | mini-containerd/internal/snapshot/snapshot.go:280-325 | looking a path up in the directories that the lowerdir option names, leftmost first, gives what applying the layers in order gives, for roots and keys without a colon |
| LayerUnpack.LowerdirIsReversed | mini-containerd/internal/snapshot/snapshot.go:280-325 | the lowerdir option of a snapshot on the last layer, read at its colons, lists the directories of the layers in exact reverse order if and only if neither root nor keys hold a colon |
| LayerUnpack.ChainIsReversed | mini-containerd/internal/snapshot/snapshot.go:92-105 | that snapshot can be prepared, and its ancestors are the layers in reverse order |
| LayerUnpack.UnpackIff | mini-containerd/internal/image/image.go:127-148 | the loop succeeds exactly for new, pairwise distinct keys, and then stacks each layer on the one before, other snapshots untouched |
| LayerUnpack.LayerStep | mini-containerd/internal/image/image.go:436-451 | one layer succeeds exactly for a new key and adds one Committed snapshot |
| LayerUnpack.StackedChain | mini-containerd/internal/image/image.go:127-148 | the ancestors of the i-th layer are the layers before it, reversed |
| LayerUnpack.LookupReversed | mini-containerd/internal/snapshot/snapshot.go:280-288 | leftmost-wins lookup in a reversed list equals layer-after-layer application |
| LayerUnpack.UnpackOne | mini-containerd/internal/image/image.go:436-451 | unpackLayer in place |
| ContentService.UploadRoundTrip | mini-containerd/internal/content/service.go:163-264 | for every byte string and a fresh ref, STAT, the WRITE chunks and COMMIT store exactly the bytes under the digest with their length as Size when the digest is theirs, and otherwise fail with blobs and files unchanged |
| ContentService.UploadAnswered | mini-containerd/internal/content/service.go:188-258 | each message of the upload is answered by its own action and the offset its data reaches; the answer to COMMIT has digest and size |
| ContentService.ClientServed | mini-containerd/internal/content/service.go:170-230 | under a fresh ref everything before the COMMIT is taken in and answered |
| ContentProtocol.WritesAt | mini-nerdctl/pkg/image/image.go:135-156 | chunk i of the upload holds the bytes from i MiB on, one MiB of them or what is left |
| ContentProtocol.WritesCount | mini-nerdctl/pkg/image/image.go:135-156 | there are as many chunks as MiB, rounded up |
| ContentProtocol.OneMessageUpload | mini-containerd/internal/content/service.go:179-258 | a single COMMIT that carries the data stores it under its own digest unless the total or the expected digest speaks against it, and then with that error and no blob or file changed |
| ContentProtocol.CommitDataIgnored | mini-containerd/internal/content/service.go:207-258 | after a WRITE the data of a COMMIT is ignored, whatever its offset |
| ContentProtocol.StatOfKnown | mini-containerd/internal/content/service.go:189-205 | STAT on a known upload answers where it stands and changes nothing; on a committed one it is the error |
| ContentProtocol.StatSwitches | mini-containerd/internal/content/service.go:189-195 | STAT turns the call to another upload |
| ContentProtocol.SwitchedUpload | mini-containerd/internal/content/service.go:161-258 | a WRITE before such a turn still counts: the data of the COMMIT is then dropped and the second upload committed empty |
| ContentProtocol.NothingWithoutRef | mini-containerd/internal/content/service.go:216-235 | WRITE, COMMIT and unknown actions without any ref so far are invalid and change nothing; STAT without a ref gives the call none |
| ContentProtocol.UnknownAction | mini-containerd/internal/content/service.go:260-261 | an unknown action ends the call with an error and changes no blob and no file |
| ContentProtocol.RefsCollideIff | mini-nerdctl/pkg/image/image.go:113-122 | two uploads share a ref exactly when the first 32 characters of their digests agree |
| ContentServer.WriteContent | mini-nerdctl/pkg/image/image.go:113-168 | the client loop against the in-place server: it sends a prefix of STAT, chunks of at most 1 MiB and COMMIT, stops at the first error, and ends as the whole stream would, over any leftover; under a fresh ref that is the round trip |
| ContentUploads.UploadIff | mini-nerdctl/pkg/image/image.go:113-168 | the client's upload over any leftover of its ref: when it succeeds and what it leaves; without data no chunk is sent and the leftover is committed as it stands |
| ContentUploads.UploadAmong | mini-containerd/internal/content/service.go:163-264 | the same with any operations of other callers on other refs and blobs between the messages: the upload ends as it would after them, and they end as they would without it |
| ContentUploads.RoundTripAmong | mini-containerd/internal/content/service.go:163-264 | the round trip of a fresh upload with other callers at work |
| ContentUploads.OverwrittenIff | mini-containerd/internal/content/store.go:304-316 | writing over a leftover gives the data exactly when the leftover does not reach beyond it |
| ContentUploads.WriteOver | mini-containerd/internal/content/store.go:295-321 | the next chunk over a leftover is as one write of all chunks so far |
| ContentUploads.OtherOp | mini-containerd/internal/content/store.go:237-376 | an operation on another ref neither sees nor touches an upload |
| ContentServer.Exchange | mini-nerdctl/pkg/image/image.go:123-132 | one message and its answer: the call goes on, or it has ended whatever would have come next |
| ContentService.ServeWrites | mini-containerd/internal/content/service.go:207-230 | the server takes in any remaining chunks and is then where one write of the whole would leave it |
| ContentService.WriteTurn | mini-containerd/internal/content/service.go:207-230 | one chunk at the current offset extends the received prefix |
| ContentService.WriteContinues | mini-containerd/internal/content/store.go:295-321 | a write at the current offset appends to file and hash alike |
| ContentService.CommitReceived | mini-containerd/internal/content/store.go:325-376 | committing a fully received upload succeeds exactly for the right digest |
| ContentService.StoreContentFresh | mini-containerd/internal/image/image.go:419-428 | under a fresh ref the data is stored exactly when the digest is its own |
| ContentService.StoreContentIff | mini-containerd/internal/image/image.go:419-428 | storeContent in full: it succeeds exactly when the ref is unknown and the digest right, or a leftover is open, linked and expects no digest or the digest of the data; the file is then the data exactly when no leftover reached beyond it; a failure changes no blob and no file |
| ContentService.StoreContentOverLeftover | mini-containerd/internal/image/image.go:419-428 | the same over any upload left under the ref: unfinished, rejected or committed |
| ContentService.StoreContentDooms | mini-containerd/internal/image/image.go:419-428 | every attempt uses the ref up, whether it succeeds or fails |
| ContentService.DoomedRefuses | mini-containerd/internal/image/image.go:419-428 | a ref that is used up stays so and refuses any data |
| ContentService.StoreContentFrame | mini-containerd/internal/image/image.go:419-428 | only the upload of its own ref differs afterwards |
| ContentModel.RunKeepsSeekPoint | mini-containerd/internal/content/store.go:295-321 | over every run, with arbitrary offsets, position equals Offset, the hasher has consumed exactly the bytes from the last seek point to Offset, and the file ends at the furthest byte written; seek point and end are functions of the calls made |
| ContentModel.RunKeepsHashers | mini-containerd/internal/content/store.go:295-339 | over every run, position equals Offset and the hashed bytes are a range of the file that ends there; a committed upload is closed and unlinked |
| ContentModel.DoMovesSeekPoint | mini-containerd/internal/content/store.go:254-376 | an operation moves the start of the hashed range only by a write that does not go on at Offset, and the end of the file only by bytes beyond it |
| ContentModel.DoKeepsHashers | mini-containerd/internal/content/store.go:254-376 | each operation keeps the position at Offset and the hashed bytes a range of the file that ends there |
| ContentModel.ExtendKeepsHasher | mini-containerd/internal/content/store.go:304-320 | a write at any offset, over holes and over old bytes, keeps that; the range starts where it did if the write goes on at Offset, and otherwise where the write begins |
| ContentModel.CommitFaithfulIff | mini-containerd/internal/content/store.go:325-376 | in every run a successful commit records the digest of the bytes from the last seek point to Offset, with Offset as size; these are digest and size of the stored file exactly when the seek point is 0 and the file ends at Offset |
| ContentModel.RewindLosesAddress | mini-containerd/internal/content/store.go:304-312 | a concrete run that rewinds and ends with a blob whose file is not what was hashed |
| ContentModel.RunKeepsAddressed | mini-containerd/internal/content/store.go:237-376 | over every run of contiguous uploads the blob map and the files agree |
| ContentModel.BlobIffFile | mini-containerd/internal/content/store.go:237-376 | over those runs a digest is recorded exactly when its file exists; the file hashes to it and Size is its length |
| ContentModel.DoKeepsAddressed | mini-containerd/internal/content/store.go:237-376 | each operation keeps the agreement |
| ContentModel.CommitAddressed | mini-containerd/internal/content/store.go:325-376 | a commit keeps the agreement, also when the same content is committed again |
| ContentModel.DeleteAddressed | mini-containerd/internal/content/store.go:237-251 | a delete keeps the agreement of blob map and files |
| ContentModel.DeleteOutcome | mini-containerd/internal/content/store.go:237-251 | a delete succeeds exactly for a recorded digest; then neither entry nor file of it is left, and every other entry, file and upload is as before |
| ContentHistory.RecordedIff | mini-containerd/internal/content/store.go:237-376 | over every run, with arbitrary offsets, a digest is recorded exactly when a successful commit of bytes with that digest comes after the last successful delete of it |
| ContentHistory.SentRecordedIff | mini-containerd/internal/content/store.go:237-376 | over every run of contiguous uploads, a digest is recorded exactly when, after its last successful delete, an upload was committed to which bytes with that digest were sent |
| ContentHistory.ContiguousSends | mini-containerd/internal/content/store.go:295-321 | over those runs the file of an upload holds just the bytes of the writes that got through, in order, all of them hashed |
| ContentHistory.StepRecords | mini-containerd/internal/content/store.go:237-376 | one operation records a digest only by committing bytes with it and removes it only by a delete of it |
| ContentRestart.RestartForgets | mini-containerd/internal/content/store.go:122-166 | after a restart no recorded digest is found: each file is scanned, with its size, under a digest with its first two digits twice, at whose path there is no file; the map comes back exactly if it was empty |
| ContentRestart.Scan | mini-containerd/internal/content/store.go:122-166 | the scan records each file two directories below blobs as algorithm, directory and file name, with its size, and nothing else |
| ContentRestart.LostBlob | mini-containerd/internal/content/store.go:122-166 | for one recorded blob: it is not found under its digest, but with its size under the longer name |
| ContentRestart.FoundElsewhere | mini-containerd/internal/content/store.go:122-166 | for one scanned entry: it was not recorded, it comes from a recorded blob of another name, and opening it finds no file |
| ContentRestart.PathOfDigest | mini-containerd/internal/content/store.go:40-60 | the path by algorithm, first two digits and hash, for any digest, is the one used for SHA-256 digests |
| ContentModel.WriteAtBytes | mini-containerd/internal/content/store.go:304-316 | a write at any offset, byte by byte: the chunk, around it what was there, and zeros between the old end and the offset |
| ContentModel.PathsDiffer | mini-containerd/internal/content/store.go:40-46 | two digests never share a path |
| ContentModel.CommitParts | mini-containerd/internal/content/store.go:325-376 | a commit is the checks and closing, then, only if they succeed, rename and record |
| ContentModel.DoomedForever | mini-containerd/internal/content/store.go:325-376 | once its commit was rejected or done, a ref is never committed again, whatever follows |
| ContentModel.RejectedTakesWrites | mini-containerd/internal/content/store.go:341-348 | after a commit that failed its checks the upload still takes writes, and still can not be committed |
| ContentModel.CommittedFrozen | mini-containerd/internal/content/store.go:254-376 | no operation changes a committed upload, and a write to it is refused |
| ContentStore.Store.BeginUpload | mini-containerd/internal/content/store.go:254-292 | in place: new upload, existing one, or error for a committed ref; without a ref the clock names it |
| ContentStore.Store.WriteUpload | mini-containerd/internal/content/store.go:295-321 | in place: seek and hasher reset when the offset differs, then write; it succeeds exactly for a known, open upload and an offset that is not negative |
| ContentStore.Store.Put | mini-containerd/internal/content/store.go:304-320 | seek, write and hash on one upload, with the failures of a closed handle |
| ContentStore.Store.CommitUpload | mini-containerd/internal/content/store.go:325-376 | in place: the checks, close, rename and record |
| ContentStore.Store.Settle | mini-containerd/internal/content/store.go:341-360 | the checks and the closing, with the temporary file gone after a failed check |
| ContentStore.Store.Publish | mini-containerd/internal/content/store.go:358-373 | rename to the blob path and record |
| ContentStore.Store.Delete | mini-containerd/internal/content/store.go:237-251 | in place: succeeds exactly for a recorded digest, whose entry and file go; no other entry or file is touched |
| ContentStore.Store.Open | mini-containerd/internal/content/store.go:225-234 | the bytes, if recorded and present |
| ContentServer.Service.Write | mini-containerd/internal/content/service.go:163-264 | the receive loop in place equals the message model: store, responses and code |
| ContentServer.Service.Receive | mini-containerd/internal/content/service.go:170-262 | one message, with the automatic begin |
| ContentServer.Service.Handle | mini-containerd/internal/content/service.go:188-262 | one action |
| ContentServer.Service.HandleCommit | mini-containerd/internal/content/service.go:232-258 | COMMIT, with the late write of its own data |
| ContentServer.Service.Read | mini-containerd/internal/content/service.go:79-120 | an unknown digest fails; otherwise chunks of at most 32 KiB with consecutive offsets that are a prefix of the file from the offset, all of it without a size, at least min(size, rest) and less than size + 32768 with one |
| ContentServer.StreamChunks | mini-containerd/internal/content/service.go:93-119 | the same for the read loop under every pattern of short reads |
| ContentServer.StoreBlob | mini-containerd/internal/image/image.go:419-428 | storeContent in place |
| Reference.FixedPointIff | mini-nerdctl/pkg/reference/reference.go:24-82 | parsing the canonical form gives the same parts exactly for names without a digest or with a tag separator before it |
| Reference.NormalizeIdempotentIff | mini-nerdctl/pkg/reference/reference.go:37-40 | normalizing is idempotent on exactly those names; on the others each round appends one more default tag |
| Reference.PrintParse | mini-nerdctl/pkg/reference/reference.go:23-82 | canonical text of parts with a simple tag reads back as those parts exactly when they are fully qualified |
| Reference.PortIff | mini-nerdctl/pkg/reference/reference.go:109-145 | what stands between a colon and the first slash decides: a port makes the text before the slash a registry, anything else makes a tag of it and the rest |
| Reference.OfficialImages | mini-nerdctl/pkg/reference/reference.go:28-36 | a bare name becomes docker.io/library/name with its tag or latest |
| Reference.QualifiedNames | mini-nerdctl/pkg/reference/reference.go:28-36 | a name with a registry is left alone, and gets latest only if it has no tag |
| Reference.TrailingColon | mini-nerdctl/pkg/reference/reference.go:97-105 | a colon at the end is no tag separator and stays in the repository |
| Reference.HostAndPort | mini-nerdctl/pkg/reference/reference.go:109-145 | a number behind a host makes a registry exactly when it is below 100000, also beyond 65535 |
| Reference.NumberIsPort | mini-nerdctl/pkg/reference/reference.go:135-145 | a number is taken for a port exactly when it is below 100000 |
| Reference.TaggedFixedPoint | mini-nerdctl/pkg/reference/reference.go:46-82 | the fixed point for names with a tag, including ports and tags with slashes |
| Reference.UntaggedNormalizes | mini-nerdctl/pkg/reference/reference.go:46-82 | what the canonical form of an untagged name is, and what reading it again gives, with and without a digest |
| Reference.ColonShifts | mini-nerdctl/pkg/reference/reference.go:109-131 | a colon-free prefix shifts the tag colon by its length and decides nothing |
| Reference.SplitTagShifts | mini-nerdctl/pkg/reference/reference.go:86-105 | the same for the tag separator, with digests and trailing colons |
| Reference.SplitTagAfter | mini-nerdctl/pkg/reference/reference.go:86-105 | an appended simple tag is the tag unless a digest comes before it |
| Reference.QualifyCases | mini-nerdctl/pkg/reference/reference.go:57-75 | registry and repository by the first slash of the name |
| Reference.QualifiedUnchanged | mini-nerdctl/pkg/reference/reference.go:57-75 | qualifying leaves a registry and repository alone exactly when they are fully qualified |
| Reference.QualifyPrefixes | mini-nerdctl/pkg/reference/reference.go:57-75 | a qualified name differs from the given one only in a prefix without colon and digest sign |
| DockerRef.NormalizeKeepsMeaning | mini-docker/internal/api/server.go:203-225 | for every text, the registry client reads the rewritten name as it reads the original: registry, repository and tag |
| DockerRef.NormalizeIdempotentIff | mini-docker/internal/api/server.go:203-225 | rewriting is idempotent exactly on names that say their registry; a third round never changes anything |
| DockerRef.ParseRegistered | mini-docker/pkg/registry/pull.go:176-198 | reading back a name with a registry in front gives that registry's endpoint, the repository and the tag |
| DockerRef.Cases | mini-docker/pkg/registry/pull.go:176-198 | both functions by the first slash of what CutTag leaves, in terms of the named constants |
| DockerRef.Readings | mini-docker/pkg/registry/pull.go:176-198 | the same with the names of Docker Hub written out: official images, repositories without and with a registry |
| DockerRef.CutTagKeepsText | mini-docker/pkg/registry/pull.go:176-184 | no text is lost: the name is followed by a colon and a tag without slash and colon, or it is the whole text, which then ends in no such tag, and the tag is latest |
| DockerRef.PortCases | mini-docker/pkg/registry/pull.go:176-198 | a colon before a slash is no tag: host:port/rest has host:port as registry exactly when host or port has a dot or rest a slash, and otherwise it is a repository of Docker Hub; nothing of it is lost |
| DockerRef.CutTagOf | mini-docker/pkg/registry/pull.go:176-184 | a tag without slash and colon is cut off behind any name |
| DockerRef.CutTagBack | mini-docker/pkg/registry/pull.go:176-184 | a tag that was cut off is cut off again behind any name, and holds neither slash nor colon |
| PullRef.TargetIff | mini-nerdctl/pkg/image/image.go:34-38 | normalizing a name and reading the result with the second parser gives the parts of the first parser exactly for tags without slash and colon and registries that have a dot or a repository with a slash |
| ShellWords.ShellSplit | mini-docker/internal/builder/parser/parser.go:102-127 | the scanning loop yields the non-empty pieces between active breaks |
| ShellWords.RoundTripIff | mini-docker/internal/builder/parser/parser.go:102-127 | quoting words and joining them with spaces is undone exactly for lists without an empty word |
| ShellWords.QuotedWords | mini-docker/internal/builder/parser/parser.go:102-127 | quoted words come back with only the empty ones dropped, whatever spaces and other quotation marks they hold |
| ShellWords.WordsKeepText | mini-docker/internal/builder/parser/parser.go:102-127 | no word is empty, and the words together are the text without active quotes and unquoted spaces |
| ShellWords.UnquotedFields | mini-docker/internal/builder/parser/parser.go:102-127 | without quotation marks the pieces are the fields between single spaces |
| ShellWords.InsideQuotes | mini-docker/internal/builder/parser/parser.go:109-119 | inside an open quotation everything but its own mark is text |
| TaskModel.RunIsMonotone | mini-containerd/internal/task/task.go:136-220 | in every interleaving Stopped is absorbing, Created never returns, the pid is the one of the creation until the monitor's record and gone after it, and after it the exit code is final |
| TaskModel.OneWaitReturns | mini-containerd/internal/task/task.go:206-220 | at most one Wait ever gets past the channel; the code it returned is the exit code for ever, and there is no process any more |
| TaskModel.OtherWaitsBlock | mini-containerd/internal/task/task.go:206-220 | once one Wait has the report, every other Wait on that task is blocked in every later state |
| TaskModel.StoppedIffSeen | mini-containerd/internal/task/task.go:136-152 | a task ends Stopped exactly when its exit was recorded while Running, with the reported code; otherwise the code is 0 |
| TaskModel.VerdictStep | mini-containerd/internal/task/task.go:136-152 | no event but the monitor's record stops a task or sets its exit code |
| TaskModel.LostExit | mini-containerd/internal/task/task.go:222-239 | a task whose exit was lost has no process and can be deleted exactly while Created or Paused |
| TaskModel.RunningWithoutProcess | mini-containerd/internal/task/task.go:136-179 | a concrete run ends Running without a process |
| TaskModel.OneStartSucceeds | mini-containerd/internal/task/task.go:159-179 | a task has left Created exactly when one Start has succeeded on it, and never two |
| TaskModel.PauseBalance | mini-containerd/internal/task/task.go:318-369 | in every reachable state a started task that has not stopped is Paused exactly when one more Pause than Resume has succeeded on it and Running exactly when as many have; a task not started has seen neither |
| TaskModel.CallOutcomes | mini-containerd/internal/task/task.go:167-359 | Start, Pause and Resume each succeed in one status and change only that; Resume takes a Pause back, and Pause a Resume |
| TaskModel.RecordOutcome | mini-containerd/internal/task/task.go:138-150 | the record stops a running task with the reported code and leaves status and code of any other; the pid is gone either way |
| TaskModel.StepKeepsBalance | mini-containerd/internal/task/task.go:326-359 | every event keeps the balance of successful Pauses and Resumes |
| TaskModel.MonitorNeverBlocks | mini-containerd/internal/task/task.go:136-152 | the monitor's two last steps are always possible |
| TaskModel.TasksAreIndependent | mini-containerd/internal/task/task.go:52-55 | what becomes of a task in a run of the whole manager is what its own actions make of it |
| TaskModel.StaleCall | mini-containerd/internal/task/task.go:159-178 | a call that looked an id up before it was deleted and used again acts on the old task, and the new task is not touched |
| TaskModel.KnownIff | mini-containerd/internal/task/task.go:67-239 | over every run the manager knows an id exactly if it was created after it was last deleted |
| TaskModel.IdOutcomes | mini-containerd/internal/task/task.go:67-239 | Create registers a new Created task with its pid or refuses an id in use; Delete forgets a known id whose task is not running; a call holds the task it finds |
| TaskModel.StepKeepsInvariant | mini-containerd/internal/task/task.go:67-239 | every atomic step keeps: a non-zero exit code means Stopped, no pid exactly after the record, one report per task, one successful Start per started task, successful Pauses and Resumes in balance, returned codes equal the exit code, distinct ids name distinct tasks |
| TaskModel.RunKeepsInvariant | mini-containerd/internal/task/task.go:67-239 | so does every interleaving |
| TaskModel.Reachable | mini-containerd/internal/task/task.go:57-62 | and so does every state reachable from an empty manager |
| TaskModel.OneReceiver | mini-containerd/internal/task/task.go:136-152 | a call that has the report is the only one, and the monitor is finished |
| TaskModel.StepKeepsCounts | mini-containerd/internal/task/task.go:136-220 | receivers plus channel contents equal the reports sent; successful Starts equal departures from Created |
| TaskModel.StepFrame | mini-containerd/internal/task/task.go:67-239 | an event changes a task by its own action on it or not at all |
| TaskManager.Task.ChangeStatus | mini-containerd/internal/task/task.go:326-359 | the locked part of Start, Pause and Resume: each succeeds in one status only, Created, Running or Paused, and leads to Running, Paused or Running; nothing else changes |
| TaskManager.Task.Record | mini-containerd/internal/task/task.go:138-150 | the locked part of the monitor: a running task stops with the reported code, any other keeps status and code; the pid is gone |
| TaskManager.Task.Send | mini-containerd/internal/task/task.go:151 | the channel send |
| TaskManager.Task.Receive | mini-containerd/internal/task/task.go:214 | the channel receive |
| TaskManager.Manager.Create | mini-containerd/internal/task/task.go:67-156 | in place: an id in use is refused, otherwise a Created task with the given pid is registered and watched |
| TaskManager.Manager.Find | mini-containerd/internal/task/task.go:160-165 | the lookup under the manager's lock |
| TaskManager.Manager.Apply | mini-containerd/internal/task/task.go:318-342 | the second half of a call acts on the task found before, even if it was deleted since |
| TaskManager.Manager.Change | mini-containerd/internal/task/task.go:344-369 | both halves in a row are the two events in a row; the call succeeds exactly for a known task in the status it needs, and leaves it Paused after Pause and Running otherwise |
| TaskManager.Manager.Wake | mini-containerd/internal/task/task.go:206-214 | Wait gets the report |
| TaskManager.Manager.Return | mini-containerd/internal/task/task.go:216-219 | Wait reads the exit code |
| TaskManager.Manager.Delete | mini-containerd/internal/task/task.go:224-239 | in place: refused exactly for an unknown id or a running task; otherwise the id is forgotten |
| TaskManager.Manager.Monitor | mini-containerd/internal/task/task.go:136-152 | one step of the monitor |

## Left out

- Rounding: resource amounts are exact reals; the source's are float64, so its ledger is exact only
  as far as the additions are. Priorities and file offsets are unbounded integers, not 32 or 64 bits.
- Times other than CreatedAt, and labels: AdmittedAt, FinishedAt, UpdatedAt and StartedAt are not
  read by the modelled code. CreatedAt is an integer.
- KueueClusterQueue.ClusterQueue.SortQueue: the library's `sort.SliceStable` is not modelled step by
  step; it is given by its specification, which StableSortUnique proves to have one solution.
- KueueScheduler.Scheduler.Submit: a workload that another ClusterQueue has handled is excluded,
  because queues share no workloads; resubmitting it to its own queue is allowed by the method and
  only excluded from the runs of the ledger theorem.
- KueueScheduler.Scheduler.Finish: a workload that another ClusterQueue has handled is excluded for
  the same reason; pending and unknown workloads are not.
- KueueScheduler.Scheduler.AddClusterQueue: a queue that shares a flavor object or a workload with a
  registered one is excluded, because queues share neither.
- KueueSystem.RunKeepsInvariant: queues are registered before the first submission; registering over
  an existing name, which drops that queue's state, is modelled by the methods only.
- The three inner loops of Schedule are methods of their own (DrainQueue, RetryQueue, ScheduleQueue).
- Snapshot keys are non-empty names without path separators other than the ones the puller makes; how
  `filepath.Join` cleans odd keys is not modelled. Directory creation and removal do not fail.
- Restart of the snapshotter, which keeps its metadata in memory only. ContentRestart.RestartForgets:
  the digits of a digest are taken to hold no slash, and the runs to be contiguous uploads.
- LayerUnpack.OverlayRefinesLayering: layer contents are given maps, since the source skips the
  extraction of the archive; whiteouts and opaque directories are not modelled.
- LayerPull.PullIff: the content store is one in which the hashers are sound, which
  ContentModel.RunKeepsHashers proves of every run. The config blob, stored before the loop in the
  same way, and the download are left out; layers carry the bytes that were fetched. Digests are
  SHA-256 digests.
- Input and output faults in the content store: writes are all or nothing, directories can be made,
  and a temporary file is created afresh; failures of a closed handle and of a rename without its
  source are modelled. Refs are distinct file names.
- ContentUploads.UploadAmong: the operations of other callers come between the client's messages, not
  between the two store calls that its first message makes (two BeginUpload calls of the same ref).
- ContentServer.Service.Write: one clock reading per call names uploads without a ref; transport
  errors of the stream are left out, and timestamps in responses too.
- ContentServer.WriteContent: errors of the transport itself are left out; the errors are those the
  server answers with.
- Kill, Exec, signals, namespaces and process creation: a process is known by its pid, and its end is
  an event that can come at any time. That Pause stops the process is not used.
- TaskModel.StepKeepsInvariant: each locked region is one step, and Delete reads the status without
  the task's own lock, also in one step.
- Line continuation and the instruction table of the Dockerfile parser, registry access over HTTP,
  tokens, manifests, gRPC, the REST handlers, the command lines, the CRUD services and the cluster
  scripts.
