# File integrity operator: a verified model

The file integrity operator runs AIDE on the nodes of an OpenShift cluster. Its
controllers hand database re-initialisations to the nodes through annotations and
DaemonSets; a daemon on each node scans, re-initialises and reports. This project
models that logic in Dafny and proves what it keeps and what it loses.

| file | component |
|---|---|
| `Text.dfy` | the `strings` functions the Go code uses: split, join, contains, trim, fold |
| `Annotations.dfy` | the list-valued annotations of a FileIntegrity (`pkg/common/util.go`) |
| `NodeController.dfy` | hold-off as a set of nodes, and the move from hold-off to re-init |
| `UpdatedList.dfy` | the `updated` annotation of the AIDE ConfigMap as a stack of targets |
| `Coverage.dfy` | when a re-init request for a node is still on its way |
| `Handoff.dfy` | the two reconcilers of the re-init hand-off, one whole reconcile at a time |
| `HandoffRuns.dfy` | all runs of whole reconciles: consistency, draining, blocked lists, stranded entries |
| `HandoffSteps.dfy` | the same hand-off split at its API calls, with conflicts and stops |
| `HandoffBacking.dfy` | exactly which of those API calls leave an entry without its DaemonSet |
| `HandoffOrphans.dfy` | exactly which of them leave a DaemonSet that nobody will complete |
| `Daemon.dfy` | the goroutines of the node daemon as interleaved steps |
| `DaemonRuns.dfy` | runs of the daemon: hold-off, scans during an init, the collector's silent end |
| `DaemonService.dfy` | exactly when a touch of the trigger file can still be served |
| `DaemonResults.dfy` | what a scan leaves behind, what becomes of its result, why a loop ends |
| `NodeStatus.dfy` | node status, `node_failed` gauge and events against the history of results |
| `Backups.dfy` | backup, pruning and installation of AIDE databases |
| `AideConf.dfy` | rewriting of a user's `aide.conf` |
| `LogPayload.dfy` | the size-limited, base 64 encoded log payload |

Where the source updates objects step by step the model is a class whose methods
follow the source and are proved equal to a function of the old state; the theorems
are about those functions. The daemon and the fine-grained hand-off are state
machines over their steps.

The main results, hardest first:

- **No re-init request is lost** (`HandoffSteps.NoRequestLost`): in every
  interleaving of the API calls of both reconcilers with each other, with users and
  with the node controller, with rejected stale writes and stops anywhere, a node
  that became listed stays covered by one of the two lists until an entry covering it
  is popped by a reconcile that had seen that entry's DaemonSet ready. A request made
  while no DaemonSet covers the node and no check has succeeded is served by a DaemonSet
  of its own, made, ready, checked and popped after it (`HandoffSteps.ServedAfresh`).
- **Draining** (`HandoffRuns.Drains`, `HandoffRuns.DrainServes`): from a consistent world
  without re-init-on-failed whose listed names are all nodes with a hostname label, as
  many rounds of the two reconcilers as there are entries empty both lists and leave no
  re-init DaemonSet, and every requested node is served on the way. Duplicate names, empty
  pieces and a pending new configuration are allowed. The label is needed: a node without
  one stops everything behind it (`HandoffRuns.DrainsIff`, `HandoffRuns.BlockedStep`).
- **Which API call strands an entry** (`HandoffBacking.CallBacked`): a call leaves every
  listed entry with its DaemonSet, or answered for by a reconcile in progress, if and
  only if it is none of six breaking calls, each described by a guard on the state
  before it: a stop at one of two places, a delete or a sweep decided on an old list,
  a push without a DaemonSet or across a pending pop, and a new configuration met with
  re-init-on-failed. A stranded entry stays so until its target is requested again and
  gets a DaemonSet, all nodes are requested, or the ConfigMap is restored
  (`HandoffBacking.BareStep`). With whole reconciles only two situations remain
  (`Handoff.FiReconcileConsistent`), and the same ends them (`HandoffRuns.StuckStep`).
- **Which API call orphans a DaemonSet** (`HandoffOrphans.CallAccounted`): the other
  half of consistency, again as an if and only if for every call; both halves together
  are consistency once the reconciles are idle (`HandoffOrphans.IdleConsistent`). An
  interleaving without any stop or conflict orphans one (`InterleavingOrphans`).
- **Triggers** (`Daemon.EveryTouchAccountedFor`, `DaemonService.ServedIff`): every touch of
  the trigger file is pending, carried by an init, or served by an `aide -i` started after
  it; and before any error is reported a pending one can still be served if and only if the
  re-init loop is healthy and the holder of the lock can release it without an error.
- **The file lock** (`Daemon.ReleasableIff`, `Daemon.WaitCycleIff`,
  `DaemonRuns.SilentEndIff`): while errors are received, some run releases the lock exactly
  when the state is not doomed, that is, unless the scan sends into a full channel and
  the collector has ended, waits for the lock, or holds a result for which it will.
  The wait cycle is reached from every start, and a doom nobody is told of from exactly
  those starts on which there is no log yet.
- **Hold-off** (`DaemonRuns.HeldScans`, `DaemonRuns.HeldScanIff`): a held node is scanned at
  most once more, and exactly if the scan had already checked the flag.
- **Status from history** (`NodeStatus.StatusOfHistory` and what follows it), from the log
  ConfigMaps on (`NodeStatus.HandledLog`).

Properties that are false of the code as one would first state them are given with
their exact condition and a failing input: the substring test that drops requests
(`NodeController.MoveIsOneWrite`, `Annotations.AddReinitLists`), hold-off texts with
blanks (`NodeController.AddTakesEffect`, `NodeController.RemoveTakesEffect`), the gauge
that two FileIntegrities share (`NodeStatus.GaugeShowsIff`), events after a crash
(`NodeStatus.EventAfterCrash`), backups under a clock that was set back
(`Backups.RotationSavesIff`, with `Backups.TiesDecide` for equal seconds), and rules that
merely begin with `/hostroot` (`AideConf.HostedDirectory`).

Conventions: a nil Go map reads like an empty one. Node names are well-formed when
they are non-empty, lower case and without comma or blank. The gzip functions, the
clock, what `aide` does and which API calls are rejected are parameters.

## Model

| member | source | states |
|---|---|---|
| Annotations.IsNodeIn | pkg/common/util.go:93-109 | true exactly when the annotation is present and is empty or has the node among its comma-separated pieces |
| Annotations.HasReinitAnnotation | pkg/common/util.go:114-125 | the two flags and the returned list describe exactly the nodes the re-init annotation lists |
| Annotations.GetAddedNodeHoldoffAnnotation | pkg/common/util.go:130-168 | the loop yields the specified hold-off text, and reports a change exactly when the annotations differ |
| Annotations.GetRemovedNodeHoldoffAnnotation | pkg/common/util.go:173-210 | the filter loop yields the specified text; nothing is returned exactly when the node is not held |
| Annotations.GetAddedNodeReinitAnnotation | pkg/common/util.go:215-242 | the loop keeps the last node that is no substring of the list; a nil result exactly for no nodes or an all-nodes request |
| Annotations.GetRemovedNodeReinitAnnotation | pkg/common/util.go:247-278 | the loop yields the specified text; nothing is returned exactly when the node is not listed |
| Annotations.DaemonHoldCheck | cmd/manager/loops.go:100-132 | for every text the daemon's own check agrees with the operator's membership; it fails exactly for a missing node name with annotations present |
| Annotations.AddReinitKeeps | pkg/common/util.go:225-240 | adding a request keeps every node already listed |
| Annotations.AddReinitLists | pkg/common/util.go:225-240 | which requested nodes are listed afterwards: all with no list yet, otherwise those listed before and the last in the request that is no substring of the text |
| Annotations.FirstOfTwoIsDropped | pkg/common/util.go:230-236 | of two nodes new to an existing list only the second is requested |
| Annotations.RemoveReinitKeeps | pkg/common/util.go:261-273 | removing an entry keeps every other listed node, or widens the list to all nodes |
| NodeController.MembershipRefines | pkg/common/util.go:97-107 | membership in the text is membership in the set it stands for, for every text |
| NodeController.AddRefines | pkg/common/util.go:136-167 | adding is set insertion; it changes nothing for everybody |
| NodeController.RemoveRefines | pkg/common/util.go:183-209 | removing is set removal, with no annotation left for the empty set, and does nothing for everybody |
| NodeController.RemoveAfterAdd | pkg/common/util.go:130-210 | add then remove restores the text exactly when the list did not name the node |
| NodeController.AddTakesEffect | pkg/common/util.go:154-160 | on any text, exactly when an added node is held: no piece merely resembles it |
| NodeController.BlankPieceHidesNode | pkg/common/util.go:155-159 | a listed name with a blank in front keeps the node from being held |
| NodeController.RemoveTakesEffect | pkg/common/util.go:190-207 | on any text, a removed node stays held exactly when one piece is blank and all others match it |
| NodeController.TrailingCommaHoldsEverybody | pkg/common/util.go:194-207 | releasing the node of a list with a trailing comma holds everybody |
| NodeController.MoveIsOneWrite | pkg/controller/node/node_controller.go:171-196 | one write releases the node exactly when not everybody is held, requests it exactly when its name is no substring of the re-init text, and leaves all other nodes and annotations alone |
| NodeController.SubstringLosesRequest | pkg/common/util.go:231-233 | a node whose name begins a listed name is released without being requested |
| NodeController.UpdateCycle | pkg/controller/node/node_controller.go:88-102 | holding and releasing a node restores the hold-off text and leaves the node requested |
| NodeController.MoveIsAllowed | pkg/controller/node/node_controller.go:194-196 | the node controller's write is one of the writes the hand-off tolerates at any moment |
| NodeController.StoredUnder | pkg/controller/node/node_controller.go:139-155 | for distinct names each FileIntegrity ends up with what its own annotations call for, or as it was stored |
| NodeController.StoredElsewhere | pkg/controller/node/node_controller.go:139-155 | other objects keep what is stored |
| NodeController.AlreadyRequestedKeepsHold | pkg/controller/node/node_controller.go:176-179 | a node already listed for re-init keeps its hold-off |
| NodeController.CapitalPieceHidesNode | pkg/common/util.go:155-159 | a listed name in capital letters keeps the node from being held |
| NodeController.HoldIsOneWrite | pkg/controller/node/node_controller.go:138-157 | nothing is written exactly for a held node; otherwise the node is held as well, other nodes and annotations stay |
| NodeController.HeldEverywhere | pkg/controller/node/node_controller.go:138-157 | after the loop every FileIntegrity it ran over holds the node |
| NodeController.NodeReconciler.AddHoldOffAnnotations | pkg/controller/node/node_controller.go:138-157 | the stored annotations after the loop, up to the first rejected update; what that is under each name is `StoredUnder` |
| NodeController.NodeReconciler.RemoveHoldoffAndReinit | pkg/controller/node/node_controller.go:169-208 | the stored annotations after the loop are the moved ones, up to the first rejected update |
| UpdatedList.UpdateAideAnnotation | pkg/controller/fileintegrity/fileintegrity_controller.go:256-271 | the edit with its membership loop, and that nothing is written exactly for a listed node |
| UpdatedList.DecodeEncode | pkg/controller/fileintegrity/fileintegrity_controller.go:270-270 | reading back a written stack gives the stack |
| UpdatedList.EncodeDecode | pkg/controller/configmap/configmap_controller.go:104-107 | every text is the text of the stack it is read as |
| UpdatedList.PushRefines | pkg/controller/fileintegrity/fileintegrity_controller.go:259-271 | pushing on the text is pushing on the stack, for every text |
| UpdatedList.PopRefines | pkg/controller/configmap/configmap_controller.go:101-184 | the entry worked on is the top and the shortened text is the popped stack, for every text |
| UpdatedList.RunWellStacked | pkg/controller/configmap/configmap_controller.go:176-184 | after any requests and completions the stack has no duplicates and "all" only at the bottom |
| UpdatedList.BottomSurvives | pkg/controller/configmap/configmap_controller.go:176-184 | entries below the lowest level reached are untouched, and back at that level the very same text is stored |
| UpdatedList.AllComesBack | pkg/controller/fileintegrity/fileintegrity_controller.go:259-271 | an all-nodes request survives later single-node requests and is on top again once they are popped |
| Coverage.PushCovers | pkg/controller/fileintegrity/fileintegrity_controller.go:259-271 | pushing keeps what was covered and covers the entry's own target |
| Coverage.PopCovers | pkg/controller/configmap/configmap_controller.go:176-184 | popping uncovers a node only if the popped entry covered it |
| Coverage.RemoveCovers | pkg/common/util.go:247-278 | removing an entry drops only nodes the entry covers, for every text |
| Handoff.Cluster.UpdateAideConfig | pkg/controller/fileintegrity/fileintegrity_controller.go:250-274 | the new list and data; neither is written for a listed node |
| Handoff.Cluster.ReconcileUserConfig | pkg/controller/fileintegrity/fileintegrity_controller.go:303-366 | default, unusable or prepared user text: a different one is stored together with an all-nodes request, is reported once, and is not new afterwards |
| Handoff.Cluster.CreateReinitDaemonSet | pkg/controller/fileintegrity/fileintegrity_controller.go:192-235 | which outcome leaves which DaemonSets: present, created, node missing, no hostname |
| Handoff.Cluster.FileIntegrityReconcile | pkg/controller/fileintegrity/fileintegrity_controller.go:468-545 | the statements of the re-init part compute the specified next world |
| Handoff.Cluster.AideConfReconcile | pkg/controller/configmap/configmap_controller.go:92-190 | the statements, with the sweep loop, compute the specified next world |
| Handoff.OnFailedLists | pkg/common/util.go:215-242 | expanding re-init-on-failed removes it, lists exactly the failed nodes if there was no list, otherwise those listed before and the last failed one that is no substring of the text, and changes no other annotation |
| Handoff.OnFailedRequests | pkg/controller/fileintegrity/fileintegrity_controller.go:474-500 | the same of a whole reconcile, which makes no DaemonSet then |
| Handoff.HandsOverFirst | pkg/controller/fileintegrity/fileintegrity_controller.go:502-545 | any other reconcile lists exactly the first requested node, or all nodes, for the ConfigMap controller and removes only that request |
| Handoff.NewConfigRequestsAll | pkg/controller/fileintegrity/fileintegrity_controller.go:468-545 | a new configuration is stored, all nodes get an entry and a DaemonSet, and only a pending all-nodes request is removed |
| Handoff.PushTidy | pkg/controller/fileintegrity/fileintegrity_controller.go:515-532 | listing an entry keeps the hand-off tidy exactly when its DaemonSet exists |
| Handoff.PopTidy | pkg/controller/configmap/configmap_controller.go:128-184 | sweeping, deleting and popping keep it tidy |
| Handoff.FiReconcileConsistent | pkg/controller/fileintegrity/fileintegrity_controller.go:468-545 | every listed entry keeps its DaemonSet, and without "all" there are no others, if and only if the reconcile is not one of two gap situations |
| Handoff.CmReconcileConsistent | pkg/controller/configmap/configmap_controller.go:92-190 | the same is always kept by the ConfigMap reconcile |
| HandoffRuns.EventConsistent | pkg/controller/configmap/configmap_controller.go:127-189 | one event of any kind keeps a consistent world consistent exactly when it is no gap reconcile and no restore over existing DaemonSets |
| HandoffRuns.RunConsistent | pkg/controller/configmap/configmap_controller.go:127-189 | every state of every run without such an event is consistent |
| HandoffRuns.RemoveShortens | pkg/common/util.go:261-273 | removing a listed entry shortens the list, duplicates or not, and invents no name |
| HandoffRuns.FiRound | pkg/controller/fileintegrity/fileintegrity_controller.go:502-545 | one reconcile shortens the FileIntegrity's list and lengthens the other by at most one |
| HandoffRuns.CmRound | pkg/controller/configmap/configmap_controller.go:154-189 | with ready DaemonSets one reconcile completes one entry |
| HandoffRuns.RoundWorks | pkg/controller/configmap/configmap_controller.go:154-189 | a round of both reconcilers leaves strictly less work |
| HandoffRuns.Drains | pkg/controller/fileintegrity/fileintegrity_controller.go:502-545 | from a consistent world with known, labelled names and no re-init-on-failed, as many rounds as there is work leave both lists absent and no re-init DaemonSet |
| HandoffRuns.NeverDrains | pkg/controller/fileintegrity/fileintegrity_controller.go:217-221 | with a node without hostname label anywhere on the list no number of rounds settles the world |
| HandoffRuns.DrainsIff | pkg/controller/fileintegrity/fileintegrity_controller.go:502-545 | with a list of existing nodes that have no DaemonSet yet, the rounds settle the world if and only if every listed node has a hostname label |
| HandoffRuns.BlockedStep | pkg/controller/fileintegrity/fileintegrity_controller.go:217-221 | while the first listed node has no hostname label a reconcile changes nothing and nothing gets listed; one event ends that exactly when it is another list, a new configuration, a label for the node or its removal, or a restore over another configuration |
| HandoffRuns.BlockedUntilUnblocked | pkg/controller/fileintegrity/fileintegrity_controller.go:514-518 | the same through every run of events without one of these |
| HandoffRuns.FiKeepsCovered | pkg/controller/fileintegrity/fileintegrity_controller.go:476-545 | a FileIntegrity reconcile never uncovers a node |
| HandoffRuns.CmKeepsCovered | pkg/controller/configmap/configmap_controller.go:154-189 | a ConfigMap reconcile uncovers a node only by serving it |
| HandoffRuns.DrainServes | pkg/controller/configmap/configmap_controller.go:154-189 | while draining, every requested node gets a pop of a covering entry whose DaemonSet was ready |
| HandoffRuns.StuckStep | pkg/controller/configmap/configmap_controller.go:154-158 | one event leaves an entry without DaemonSet stuck exactly when it is no new request that can be served, no all-nodes request and no restore |
| HandoffRuns.StuckUntilFreed | pkg/controller/configmap/configmap_controller.go:154-158 | it stays stuck through every run of events without one of these |
| HandoffRuns.RequestReleases | pkg/controller/fileintegrity/fileintegrity_controller.go:515-536 | requesting the node again once it exists releases the entry, and everything drains |
| HandoffRuns.MissingNodeStrands | pkg/controller/fileintegrity/fileintegrity_controller.go:211-215 | a request for a missing node is listed without a DaemonSet |
| HandoffRuns.CoincidenceStrands | pkg/controller/fileintegrity/fileintegrity_controller.go:476-500 | a new configuration together with re-init-on-failed lists all nodes without a DaemonSet |
| HandoffRuns.RequestGetsFreshDaemonSet | pkg/controller/fileintegrity/fileintegrity_controller.go:192-235 | a reconcile leaves its request listed and waiting for a DaemonSet made for it exactly when none is found and one can be made |
| HandoffRuns.WaitingStep | pkg/controller/configmap/configmap_controller.go:127-172 | one event ends that waiting exactly when it makes the DaemonSet ready, puts all nodes in the place of a single one, sweeps it, or restores the ConfigMap |
| HandoffRuns.WaitsUntilReady | pkg/controller/configmap/configmap_controller.go:154-172 | the request is not completed in any run without such an event |
| HandoffRuns.RequestAbsorbed | pkg/controller/fileintegrity/fileintegrity_controller.go:197-201 | a request repeated while its earlier one is ready to complete is completed with it |
| HandoffSteps.SnapshotStep | pkg/controller/fileintegrity/fileintegrity_controller.go:276-285 | whatever a reconcile holds is current or has an older resource version |
| HandoffSteps.ListKeeps | pkg/controller/configmap/configmap_controller.go:169-188 | no call but an accepted covering pop or a restore uncovers a node on the ConfigMap's list |
| HandoffSteps.PushCarries | pkg/controller/fileintegrity/fileintegrity_controller.go:530-536 | after the push, what the coming removal drops is covered, also when nothing was written |
| HandoffSteps.StepKeepsCarried | pkg/controller/fileintegrity/fileintegrity_controller.go:468-545 | every call but a serving pop or a restore keeps the request on its way |
| HandoffSteps.NewRequestCarried | pkg/controller/fileintegrity/fileintegrity_controller.go:534-544 | a fresh request makes every held copy of the FileIntegrity old |
| HandoffSteps.PopSawReady | pkg/controller/configmap/configmap_controller.go:154-172 | a pop is reached only through a check of the same reconcile that saw its DaemonSet ready |
| HandoffSteps.NoRequestLost | pkg/controller/fileintegrity/fileintegrity_controller.go:502-545 | in every interleaving a node that is listed stays covered until a covering entry is popped whose DaemonSet was seen ready, after the request unless the popping reconcile had seen it by then |
| HandoffSteps.OnFailedCall | pkg/controller/fileintegrity/fileintegrity_controller.go:474-500 | which failed nodes an accepted expansion of re-init-on-failed lists, as of that call |
| HandoffSteps.FailedNodeNotLost | pkg/controller/fileintegrity/fileintegrity_controller.go:474-500 | in every interleaving a failed node requested that way stays covered until a covering entry is popped whose DaemonSet was seen ready |
| HandoffSteps.ServedAfresh | pkg/controller/fileintegrity/fileintegrity_controller.go:192-235 | in every interleaving, a request made with no covering DaemonSet and no check under way is served by one made after it, ready after that, seen ready after that and then popped |
| HandoffSteps.RestoreKeepsListedOnly | pkg/controller/fileintegrity/fileintegrity_controller.go:129-136 | after a restore exactly the nodes on the FileIntegrity's own list are covered |
| HandoffSteps.InterleavingStrands | pkg/controller/configmap/configmap_controller.go:169-188 | a consistent world and an interleaving of the two reconciles that leaves a listed entry without its DaemonSet |
| HandoffBacking.CallBacked | pkg/controller/fileintegrity/fileintegrity_controller.go:468-545 | one API call leaves every listed entry with its DaemonSet, or answered for by a reconcile in progress, if and only if it is none of six breaking calls, each a guard on the state before it |
| HandoffBacking.PushBacked | pkg/controller/fileintegrity/fileintegrity_controller.go:276-285 | the case of the push, which also turns a pending pop into a conflict |
| HandoffBacking.PopBacked | pkg/controller/configmap/configmap_controller.go:176-188 | the pop never strands an entry |
| HandoffBacking.RunBacked | pkg/controller/configmap/configmap_controller.go:92-190 | so do all runs up to the first breaking call |
| HandoffBacking.IdleBacked | pkg/controller/configmap/configmap_controller.go:154-158 | with both reconciles idle this means that no entry is stuck |
| HandoffBacking.StopAfterConfigStrands | pkg/controller/fileintegrity/fileintegrity_controller.go:361-365 | a reconcile that stops after storing a new configuration strands the all-nodes entry |
| HandoffBacking.StopAfterDeleteStrands | pkg/controller/configmap/configmap_controller.go:169-188 | a reconcile that stops between delete and pop strands its entry |
| HandoffBacking.BareStep | pkg/controller/fileintegrity/fileintegrity_controller.go:502-545 | one API call leaves a stranded entry stranded exactly when it is no accepted new configuration that goes on to serve it, no creation of its DaemonSet, no accepted all-nodes push and no restore |
| HandoffBacking.BareUntilRescued | pkg/controller/configmap/configmap_controller.go:92-190 | so does every stretch of a run without one of these |
| HandoffOrphans.CallAccountedFor | pkg/controller/fileintegrity/fileintegrity_controller.go:502-545 | one API call leaves a DaemonSet listed, requested or held by a reconcile in progress exactly when it is none of five orphaning calls, each a guard on the state before it |
| HandoffOrphans.CallAccounted | pkg/controller/configmap/configmap_controller.go:127-189 | the same for all DaemonSets at once, those the call creates included |
| HandoffOrphans.RunAccounted | pkg/controller/configmap/configmap_controller.go:92-190 | in every run every DaemonSet is accounted for up to the first orphaning call |
| HandoffOrphans.IdleConsistent | pkg/controller/configmap/configmap_controller.go:127-189 | with both reconciles idle and no request left, backed entries and accounted DaemonSets are exactly consistency |
| HandoffOrphans.InterleavingOrphans | pkg/controller/fileintegrity/fileintegrity_controller.go:256-271 | a consistent world and an interleaving without stop or conflict that leaves a DaemonSet neither listed nor requested |
| HandoffSteps.FiReconcileIsRun | pkg/controller/fileintegrity/fileintegrity_controller.go:413-545 | the calls of an uninterrupted FileIntegrity reconcile amount to the atomic one |
| HandoffSteps.CmReconcileIsRun | pkg/controller/configmap/configmap_controller.go:92-190 | the calls of an uninterrupted ConfigMap reconcile amount to the atomic one |
| Daemon.ExclusiveStep | cmd/manager/daemon.go:106-140 | every step of every goroutine keeps lock, critical sections, flag and channel bound in agreement |
| Daemon.FilesChangeUnderLock | cmd/manager/loops.go:53-74 | database and log files change only in steps of the lock holder |
| Daemon.MutualExclusion | cmd/manager/loops.go:169-227 | in every interleaving at most one worker is in its file-critical section, and `initializing` is set while init holds the lock and clear outside handleAIDEInit |
| Daemon.TriggersStep | cmd/manager/loops.go:145-227 | every step keeps the account of touches and the age of the live database |
| Daemon.EveryTouchAccountedFor | cmd/manager/loops.go:140-227 | every touch is pending with the file in place, carried by an init, or served by a later `aide -i` than which the live database is not older |
| DaemonService.PollEntersIff | cmd/manager/loops.go:151-162 | the re-init loop starts an init exactly when the database is missing or the trigger file is there |
| DaemonService.NeverServed | cmd/manager/loops.go:169-227 | with a failing or ended re-init loop, a failing lock holder, or a scan cornered by a full channel, no run serves a touch before an error is reported |
| DaemonService.ServedIff | cmd/manager/loops.go:140-227 | before any error is reported, a run without one that serves a pending touch exists exactly in all other states |
| DaemonService.EveryTouchCanBeServed | cmd/manager/loops.go:140-227 | in every run from every start, while nothing has gone wrong, each touch has been served or can still be |
| DaemonService.ServedWithErrorsIff | cmd/manager/loops.go:140-227 | with errors allowed, a run that serves a pending touch exists exactly when the re-init loop is healthy and the state is not doomed |
| Daemon.HolderCanStep | cmd/manager/daemon.go:131-168 | with a free slot and the instance set the lock holder has a step that needs no other worker |
| Daemon.HolderAdvances | cmd/manager/loops.go:53-74 | each own step that does anything releases the lock or lowers the rank of its holder |
| Daemon.OthersDoNotDelay | cmd/manager/logcollector.go:34-67 | nobody else's step takes the lock, raises the rank, touches files or fills the channel |
| Daemon.LockIsReleased | cmd/manager/loops.go:184-226 | in every run with as many own steps as its rank the holder releases the lock |
| Daemon.ReleasableIff | cmd/manager/logcollector.go:34-74 | while errors are received, a run that releases the lock exists exactly when the state is not doomed |
| Daemon.WaitCycleIff | cmd/manager/logcollector.go:42-74 | a wait cycle exists exactly when the scan sends into a full channel while the collector waits for its lock |
| DaemonRuns.DeadlockIsReached | cmd/manager/loops.go:53-74 | such a state is reached from every start |
| Daemon.DoomedForever | cmd/manager/loops.go:72-74 | from a doomed state the lock is never released, no file changes and no touch is served |
| DaemonRuns.SilentEndDooms | cmd/manager/logcollector.go:77-81 | from every start without a log, the silent end of the collector leads to a doomed state without any reported error |
| DaemonRuns.ReportingStep | cmd/manager/daemon_util.go:236-247 | no step empties a log with content, and with one the collector ends only after reporting |
| DaemonRuns.SilentEndIff | cmd/manager/logcollector.go:72-81 | as long as logs that are there can be opened, the collector can end silently exactly on a node that starts without a log |
| DaemonRuns.HeldScans | cmd/manager/loops.go:49-53 | in every run that does not lift the hold-off the scan takes the lock at most once, and never unless it was past the check |
| DaemonRuns.HeldScanIff | cmd/manager/loops.go:49-53 | some such run takes it exactly when the scan was past the check |
| DaemonRuns.InitializingScans | cmd/manager/loops.go:169-172 | in every run with `initializing` set the scan takes the lock at most once, and never unless it was past the check of that flag |
| DaemonRuns.ScanDuringInit | cmd/manager/loops.go:53-54 | a run in which a scan takes the lock while `initializing` is set |
| DaemonResults.ScanStarts | cmd/manager/logcollector.go:43-46 | the result of a scan is aide's, and always 18 without a database |
| DaemonResults.ScanDelivers | cmd/manager/loops.go:53-74 | whatever others do, a scan puts its own result into the channel with its own report, if it wrote one, as the log, unless the copy fails |
| DaemonResults.ResultIsHandled | cmd/manager/logcollector.go:42-62 | results are taken in order; -1 and 18 are ignored, 0 and 17 reported without the log, all others need the lock |
| DaemonResults.UploadGoesOn | cmd/manager/logcollector.go:128-132 | a failed upload does not end the collector |
| DaemonResults.BackupBeforeInstall | cmd/manager/loops.go:193-221 | in every interleaving at least as many backups are made as databases are installed |
| DaemonResults.RetriedFiveTimes | cmd/manager/daemon_util.go:167-189 | `aide -i` is started again, at a later time, exactly up to five times |
| DaemonResults.NoLoopEndsAlone | cmd/manager/loops.go:63-71 | in every interleaving the scan and re-init loops end only after a reported error or when told to |
| DaemonResults.EndsWhenTold | cmd/manager/loops.go:48-51 | an idle loop of a cancelled daemon can end |
| DaemonResults.FailedInitIsFinal | cmd/manager/loops.go:176-221 | after a failed step of an init the live database stays and no run serves another touch |
| DaemonResults.LogIsRead | cmd/manager/logcollector.go:77-117 | the log of a failed scan is uploaded exactly if it is there, can be opened and read; one that cannot be read is reported |
| DaemonResults.FailedReadEndsCollector | cmd/manager/logcollector.go:55-58 | after a failed or missing log no run lets the collector take another result |
| DaemonResults.FailedCopyEndsScan | cmd/manager/loops.go:63-71 | after a failed copy of the report there is no further scan and nothing is sent |
| NodeStatus.KeepOthers | pkg/controller/configmap/configmap_controller.go:316-325 | the filter loop keeps the results of other conditions and tracks the latest |
| NodeStatus.StatusReconciler.CreateOrUpdateNodeStatus | pkg/controller/configmap/configmap_controller.go:279-355 | status, gauge and events after one result |
| NodeStatus.StatusReconciler.HandleIntegrityLog | pkg/controller/configmap/configmap_controller.go:192-275 | the newest result has the time of the log and is Errored with the message of an error annotation, Failed with the counts and a stored copy of other content, or Succeeded; the handled log is gone |
| NodeStatus.HandledLog | pkg/controller/configmap/configmap_controller.go:212-267 | which result a log leads to, when it becomes the last one, and that an error then leaves the gauge alone while content sets it to 1 and none to 0 |
| NodeStatus.StatusReconciler.GetFileIntegrityNodeStatus | pkg/controller/metrics/metrics.go:351-373 | reading a missing gauge creates it at 0 |
| NodeStatus.StatusReconciler.UpdateNodeStatusMetrics | pkg/controller/configmap/configmap_controller.go:414-425 | only Failed and Succeeded set the gauge |
| NodeStatus.StatusOfHistory | pkg/controller/configmap/configmap_controller.go:279-360 | for every history in any time order the results are the last per condition in order of arrival, and the last result is the earliest-arrived of maximal probe time |
| NodeStatus.UpdateRestoresLast | pkg/controller/configmap/configmap_controller.go:316-333 | whatever status object is found, after an update its last result is the newest of those recorded |
| NodeStatus.AtMostThree | pkg/controller/configmap/configmap_controller.go:277-278 | at most three results are kept |
| NodeStatus.ReplayChangesNothing | pkg/controller/configmap/configmap_controller.go:269-273 | handling the most recent log again changes neither field |
| NodeStatus.GaugeShowsLastResult | pkg/controller/configmap/configmap_controller.go:340-378 | in every run with restarts, crashes and deletions a handled result leaves the gauge at 1 for Failed and 0 for Succeeded |
| NodeStatus.GaugeShowsLatestVerdict | pkg/controller/configmap/configmap_controller.go:414-425 | without restarts and with increasing times the gauge is 1 exactly when the latest result that is not Errored is Failed |
| NodeStatus.GaugeShowsIff | pkg/controller/metrics/metrics.go:384-391 | exactly when the gauge shows the last result after an update, a restart, a crash, a deletion, or an update for another FileIntegrity on the node |
| NodeStatus.OtherIsAnUpdate | pkg/controller/configmap/configmap_controller.go:340-353 | what an update for another FileIntegrity does to the shared gauge |
| NodeStatus.OtherVerdictHidesFailure | pkg/controller/metrics/metrics.go:384-391 | the success of another FileIntegrity clears the gauge of a failed one |
| NodeStatus.EventOnChange | pkg/controller/configmap/configmap_controller.go:349-380 | with a gauge that shows the last result, an update emits an event exactly when the condition of the last result or the counts of a failure change |
| NodeStatus.LastEventIsCurrent | pkg/controller/configmap/configmap_controller.go:349-395 | the most recent event carries the condition of the last result and, when Failed, its counts |
| NodeStatus.EventAfterCrash | pkg/controller/configmap/configmap_controller.go:306-353 | after a crash between write and event, of a first or a later result, exactly when replaying it makes the last event current: the result then last is Failed or has the condition of the last event |
| NodeStatus.EventAfterUpdateCrash | pkg/controller/configmap/configmap_controller.go:335-353 | for a later result, in terms of the last result before it |
| NodeStatus.CrashHidesSuccess | pkg/controller/configmap/configmap_controller.go:306-353 | a success after a failure, and a first success, are lost to the events |
| Backups.SortBackups | cmd/manager/daemon_util.go:383-385 | a sorted permutation |
| Backups.ListBackups | cmd/manager/daemon_util.go:362-375 | exactly the regular entries with the backup prefix, once each, with their times |
| Backups.PruneLeaves | cmd/manager/daemon_util.go:377-400 | exactly the limit remains, none for a negative limit, and directories and other files are untouched |
| Backups.AideDir.PruneBackupFiles | cmd/manager/daemon_util.go:350-401 | for every directory and limit the chosen ones are the oldest, and all of them but those whose removal fails are gone |
| Backups.AideDir.BackupFile | cmd/manager/daemon_util.go:336-347 | a non-empty file is copied under its stamped name; a directory is an error |
| Backups.AideDir.Rotate | cmd/manager/daemon_util.go:318-334 | back up, then prune |
| Backups.AideDir.HandleAideInit | cmd/manager/loops.go:193-221 | what each outcome leaves in the directory; the init succeeds only if aide did and left a database, which is then the live one, and otherwise the live database is as it was |
| Backups.RotationBounds | cmd/manager/daemon_util.go:318-334 | at most the limit of backups remains |
| Backups.RotationSaves | cmd/manager/daemon_util.go:336-400 | the fresh backup survives if fewer than the limit of others are not older, however ties are broken |
| Backups.RotationLoses | cmd/manager/daemon_util.go:383-391 | with as many younger ones as the limit the fresh backup is pruned |
| Backups.RotationSavesIff | cmd/manager/daemon_util.go:336-400 | without ties the fresh backup survives exactly when fewer than the limit are younger |
| Backups.TiesDecide | cmd/manager/daemon_util.go:383-385 | in between, both outcomes are possible, by the order of equal seconds |
| Backups.InitDatabase | cmd/manager/loops.go:201-221 | for every directory and run of aide, the live database afterwards: the one aide wrote, or left from before, if it succeeded, and untouched if it failed or there is none |
| Backups.InitKeepsDatabase | cmd/manager/loops.go:193-221 | after every init the limits hold and the live database is the new one or, after a failure, as it was; with the clock past every backup the previous database survives in one |
| Backups.EveryInitKeepsDatabase | cmd/manager/loops.go:184-221 | limits, preserved database and the live database after success or failure, for every init of every run at increasing clock seconds with scans in between |
| AideConf.PrepareAideConf | pkg/controller/fileintegrity/config.go:12-51 | the accumulating loop yields as many lines, each of them what its line has to become |
| AideConf.LinesArePrepared | pkg/controller/fileintegrity/config.go:18-48 | in every text a path keeps its text after nothing or /hostroot, negated or not, the five directives get their fixed text, and every other line stays |
| AideConf.LinesArePreserved | pkg/controller/fileintegrity/config.go:18-48 | as many lines, in order, each the rewritten one |
| AideConf.PreparedTwice | pkg/controller/fileintegrity/config.go:12-51 | idempotent on every text |
| AideConf.RulesAreHosted | pkg/controller/fileintegrity/config.go:29-42 | rules stay rules, and every rule of the result begins with /hostroot, negated ones included |
| AideConf.HostedDirectory | pkg/controller/fileintegrity/config.go:29-35 | exactly which paths end up below the directory /hostroot |
| AideConf.HostrootPrefixIsLeft | pkg/controller/fileintegrity/config.go:30-32 | paths such as /hostrootfs are left outside it |
| Handoff.UnchangedConfigIsNotNew | pkg/controller/fileintegrity/fileintegrity_controller.go:351-365 | a second reconcile of an unchanged configuration reports nothing new, and neither does one that is fed the stored text back |
| LogPayload.DecodeEncode | cmd/manager/logcollector_util.go:109-125 | decoding the encoded bytes gives them back (section 4 of RFC 4648) |
| LogPayload.CharIsAlphabet | cmd/manager/logcollector_util.go:109-125 | the alphabet and padding of section 4 of RFC 4648 |
| LogPayload.EncodedBlock | cmd/manager/logcollector_util.go:109-125 | each four characters stand for the 24-bit number of their three bytes, and padding stands exactly for bytes past the end |
| LogPayload.EncodedLength | cmd/manager/logcollector_util.go:141-142 | the encoded length for every input length |
| LogPayload.NewLogPayload | cmd/manager/logcollector_util.go:127-154 | the reassignments compute the specified payload and compression mark |
| LogPayload.PayloadFits | cmd/manager/logcollector_util.go:134-154 | every non-empty log is stored as a non-empty payload within the limit |
| LogPayload.PlainPayload | cmd/manager/logcollector.go:118-127 | without compression the payload is the log |
| LogPayload.CompressedPayload | cmd/manager/logcollector_util.go:134-154 | with compression the payload is the encoded log exactly up to 786426 compressed bytes and decodes back to the log |
| LogPayload.DecimalReads | cmd/manager/logcollector_util.go:137-139 | the size in a message reads back as the number |
| LogPayload.TooLargePayload | cmd/manager/logcollector_util.go:134-154 | the text stored for a log that does not fit: what is too large, its size and the node |
| LogPayload.UploadIsReadAsFailed | pkg/controller/configmap/configmap_controller.go:232-267 | whatever the payload, an uploaded log is read as Failed with its counts and an empty report as Succeeded |

## Left out

- The Kubernetes client, caches, watches, back-off and the event recorder: reads return the current object, writes are accepted or rejected by resource version; stale cache reads are not modelled.
- Handoff.Cluster.FileIntegrityReconcile: the priority class, the script ConfigMaps and the main DaemonSet are left out, and API errors other than a missing hostname label end a reconcile only in `HandoffSteps`.
- DaemonSet names and their hashing: re-init DaemonSets are keyed by target within one FileIntegrity, status objects by node within one FileIntegrity.
- HandoffSteps.NoRequestLost: a request made while a reconcile is completing an earlier one may be completed with it (`HandoffRuns.RequestAbsorbed`; `HandoffSteps.ServedAfresh` says when not); excludes the restore of a damaged ConfigMap, which drops the list (`RestoreKeepsListedOnly`), and writes by others that withdraw a request.
- Annotations.GetAddedNodeHoldoffAnnotation: case folding is exact when one of the compared names is ASCII; folding between two non-ASCII names is not modelled.
- Annotations.GetRemovedNodeHoldoffAnnotation: the same limit on case folding.
- Daemon.EveryTouchAccountedFor: a copy of the database is one step that succeeds or fails; a partial copy, an external removal of the database and file-system errors of the polling loop are not modelled.
- DaemonRuns.SilentEndIff: leaves out runs in which opening an existing log fails, which ends the collector silently as well; the content of a log is a number, and what a scan writes to it is a parameter.
- HandoffRuns.DrainsIff: lists with empty pieces or missing nodes are left to `Drains` and `StuckStep`, because an all-nodes request takes the rest of the list with it.
- DaemonService.ServedWithErrorsIff: the model lets the loops poll once more after cancellation, which the source does only in the moment before the cancellation is seen; `ServedIff` needs no such run.
- Daemon.ReleasableIff: is about the existence of a run, not about a fair scheduler, and not about the time after the main routine has stopped receiving errors.
- Backups.SortBackups: sorts a sequence value; the in-place sort of the slice is not modelled, and any order of ties is allowed.
- Backups.EveryInitKeepsDatabase: assumes that the clock increases from init to init and that copies and removals succeed.
- LogPayload.PayloadFits: assumes node names of at most 253 bytes, as Kubernetes allows, and sizes within a 64-bit integer.
- NodeStatus.StatusReconciler.HandleIntegrityLog: API errors are left out; handling a log again after a failed delete is covered by `ReplayChangesNothing`.
- Readiness of a DaemonSet is a flag; that it means scheduled on at least one node and available on all is not modelled.
- Progress under arbitrary interleavings: `HandoffRuns.Drains` is about whole reconciles, because interleaved ones can strand an entry (`HandoffSteps.InterleavingStrands`).
- The regular expressions that count added, changed and removed files: the counts are parameters.
- The machine-config state predicates, the DaemonSet update helpers, the status controller, AIDE exit codes, metrics counters, templates and TLS: no theorem here depends on them.
