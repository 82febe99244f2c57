# ch-vmm: a verified model of its core

ch-vmm is a Kubernetes operator that runs virtual machines with Cloud Hypervisor. This project models, in
Dafny, the parts of it in which several agents or threads share state, the data structures with a fast form, and
the arithmetic and parsing that other decisions rest on, and proves what every run of them keeps. Check it with
`dafny verify dfyconfig.toml`.

| file | what it models |
|---|---|
| `VmRecord`, `Controller`, `Daemon` | the shared status record, one reconcile pass of the cluster controller and one of a node's daemon: first as functions, then as the methods that change the copy and the control blocks in place |
| `Protocol`, `MigrationSafety`, `Outcomes`, `Rescheduling`, `Recreation` | all interleavings of the controller, any number of daemons, pods, restarts, users and rejected writes on one versioned record |
| `Resize`, `ResizeProtocol` | vertical resize: the passes, and all interleavings of controller, kubelet, daemon and hypervisor with outdated copies and rejected writes |
| `Hotplug` | hotplug volumes of one pod, with a durable mount record, and a fault possible before every effect |
| `LockMap` | the per-key reader/writer lock map with its background sweep, for any number of threads |
| `LruSpec`, `Lru` | the byte-bounded LRU cache: a plain most-recent-first sequence, and the list with its bucket index that refines it |
| `BoundedStack` | the ring buffer, and the token channel under any number of pushers and receivers |
| `VmSet` | scaling of a VMSet, with any API call failing before or after its effect |
| `Webhook` | the defaulting webhook, and its agreement with the resize detector |
| `Addressing`, `CpuSet` | addresses of a masqueraded network; CPU lists and pinning |
| `Text`, `Sorting`, `Wrappers` | the parts of Go's `strings`, `strconv` and `sort` that these use, and an option type |

## Assumptions

The VM protocol:
- An agent's copy of the record may be any committed version. A status write is accepted only if that version is
  still the newest. `reflect.DeepEqual` compares a struct with a pointer
  (`internal/controller/virtualmachine_controller.go:134`, `pkg/daemon/vm_controller.go:73`), so a status is written
  in every pass; writing the newest record back makes no new version.
- A read of a pod may be out of date, but never shows as completed a pod, by its UID, that has not completed. UIDs
  are never used again; names may be.
- There is one controller worker per VM. The gRPC server and the snapshot controller set the phase to Running,
  Paused, Resumed or SnapshotInProgress at any time. Users request a migration when none is going on, and clear it
  when it is over.
- Control blocks: each daemon's reads never go back to an older version.

The resize protocol has the same versioned record, with outdated copies of the VM and of the pod, and a pod resize
request that is refused unless it was made from the newest pod; the VM's spec does not change during a run, and
nobody pauses, snapshots or migrates the VM meanwhile. The hypervisor may need several steps, but does not take a
guest that matches away from it. Convergence holds if the controller's view of the pod does not go back in time.

Hotplug: the hypervisor's list of disks, read at the start of a pass, is current; an entry's target is named after
its volume.

VMSets: the list of a pass and its look-ups of VMs and disks by name may show any older state. A VM or a disk is
deleted only by the set's controller or, for VMs, by others. Where it is said that the VMs stay a prefix, deletions
complete from the highest ordinal down, and the set's selector matches exactly its VMs. Convergence is for passes
whose lists and look-ups are current. Completions between two calls of a pass are the same as before it, with an
older list.

Elsewhere: every unlock closure runs once; sizes given to the LRU are not negative; the kubelet reports the resources
a pod was created with until it carries out a resize.

## Findings

Where the code does not do what one would expect, the model follows the code, and a lemma gives the exact condition.

- A VM whose completed pod is removed while its migration is Sent fails, is given a new pod, keeps the migration, and
  can be taken over by the old target while the new pod runs (`Rescheduling.RescheduledVmCanBeTakenOver`). And a
  controller that still reads the Scheduling version of a VM creates its completed pod again, under the same name,
  which then executes at the handover (`Recreation.RecreatedPodIsTakenOver`). Handover is safe in every stretch in
  which the VM is not put back to Pending and no pod is created under the owner's name after one of that name
  completed (`MigrationSafety.HandoverSafety`); a controller whose reads do not go back meets this once it has read
  that the VM is past Scheduling (`MigrationSafety.HandoverSafetyReadingForward`).
- A source daemon that is restarted while the guest is being sent fails the migration in its next pass, because what
  it had started is only in its memory. If the guest has left all the same, the VM stays Running under its old owner,
  whose pod has completed, until the migration is cleared (`Outcomes.RestartedSourceStrandsVm`,
  `Outcomes.FailedMigrationStrands`). Without a restart a migration fails at its source exactly if sending fails
  (`Outcomes.FailsOnlyIfSendingFails`).
- A controller that still reads a version from before the VM was scheduled deletes the pods of a Running VM
  (`MigrationSafety.PodAtRiskExactly`).
- The mount record knows a volume by its name only, so a leftover entry of an earlier pod hides the new pod's target
  (`Hotplug.RecordCovers`, `Hotplug.StaleEntryHidesNewTarget`), and a cleanup that completes leaves it mounted
  (`Hotplug.LeftoverHidesMount`).
- The mount record is rewritten in place. A write that is cut short while something is mounted loses the record of it,
  and from then on no mount, unmount or cleanup completes (`Hotplug.LosingWrite`,
  `Hotplug.PodVolumes.CleanupAfterAnyHistory`, `Hotplug.PodVolumes.TornForEver`).
- A refused resize is detected again for ever (`ResizeProtocol.RefusedVmNeverRests`). One that is carried out when the
  record is already back in Running is missed: the guest is never resized (`ResizeProtocol.LateResizeIsMissedExactly`).
  A controller that reads an older version of the pod starts another round (`ResizeProtocol.SettledStaysExactly`). Any
  migration record, even a finished one, blocks a resize (`Resize.MigrationBlocksResize`).
- `Purge` leaves `currentSize`, which takes that much of the cache's capacity for good
  (`LruSpec.AddedEntrySurvives`).
- A VMSet that loses a VM other than the last cannot scale up again (`VmSet.GapBlocksScaleUp`, `VmSet.Cluster.Stuck`).
  That happens when it creates a VM while another is being deleted or by an outdated count
  (`VmSet.CreateKeepsTidy`, `VmSet.Cluster.ScaleUpOverDeletion`), and when it deletes by a list that misses a VM
  (`VmSet.DeleteKeepsTidy`).
- A VM that is created while a disk of its ordinal is still being deleted runs without it, because the create of the
  disk is skipped (`VmSet.RecreatedVmLosesDisk`); a VirtualDisk has a finalizer
  (`internal/controller/virtualdisk_controller.go:78-80`), so its deletion takes a while. The same happens with a disk
  that is gone but still in the client's cache (`VmSet.CachedDiskIsMissed`).
- A negative number of replicas makes the scale-down index its list at -1, unless the 32-bit difference wraps
  (`VmSet.Cluster.ScaleDown`). Two sets can share a disk (`VmSet.DiskNamesOfTwoSets`).
- The webhook's own output sets off the resize detector for dedicated CPUs with huge pages, which the validator asks
  for (`pkg/webhooks/virtualmachine_webhook.go:310-312`), and for explicit requests that differ from the instance
  (`Webhook.WebhookAgreesWithDetector`).
- `ValidateCIDR` compares host bits with a number of addresses, and reports the webhook's own default network,
  10.0.2.0/30, as too small although it works; such reports are only warnings
  (`Addressing.ValidationIsSufficient`, `Addressing.DefaultCidrIsReported`).

## Model

| member | source | states |
|---|---|---|
| Daemon.PassMovesOwnerOnlyInHandover | pkg/daemon/vm_controller.go:528-575 | whatever a daemon pass meets, it changes node, pod name and pod UID only from Sent, only on the target node with the target guest running, to the three of the target, with the migration Succeeded; of the migration it changes only the phase |
| Daemon.MigrationOutcome | pkg/daemon/vm_controller.go:416-587 | for every phase: a pass takes the migration to it if and only if the node, the old phase and what was seen of sockets, relay, volumes, pod, sending and target guest call for it |
| Daemon.VmOutcome | pkg/daemon/vm_controller.go:90-412 | the same for every phase of the VM: started, paused, failed at start, restored, resumed, resized, shut down, deleted |
| Daemon.BlockOutcome | pkg/daemon/vm_controller.go:413-587 | the halves of a migration that a daemon remembers are those it had and the one it starts, unless the guest has left it or the migration is over; and when it gets a block at all |
| Daemon.VmReconciler.MigrationCases | pkg/daemon/vm_controller.go:419-579 | the migration cases, changing the copy in place, end early or settle exactly as the migration pass function says |
| Daemon.VmReconciler.ReconcileMigration | pkg/daemon/vm_controller.go:413-587 | the control block of this VM is looked up, stored and forgotten as the pass function says; blocks of other VMs are untouched |
| Daemon.VmReconciler.ReconcilePhase | pkg/daemon/vm_controller.go:127-412 | the VM phase after a pass in every phase other than a Running migration |
| Daemon.VmReconciler.Reconcile | pkg/daemon/vm_controller.go:90-594 | the copy and the control block after a whole pass are those of the pass function the protocol is built on |
| Controller.ReconcileScheduling | internal/controller/virtualmachine_controller.go:199-296 | the in-place scheduling case equals the scheduling pass function, error paths included |
| Controller.FollowTargetPod | internal/controller/virtualmachine_controller.go:398-430 | a found target pod fixes target UID and node; the migration is Scheduled if and only if the pod runs and there are no hotplug volumes or its volume pod was seen running, and Failed if and only if one of the two pods is dead |
| Controller.ReconcileMigration | internal/controller/virtualmachine_controller.go:354-432 | the controller's share of a migration equals the migration pass function |
| Controller.ReconcileRunning | internal/controller/virtualmachine_controller.go:305-442 | the Running case: pod outcome first, then resize detection, conditions, migration or hotplug |
| Controller.Reconcile | internal/controller/virtualmachine_controller.go:190-478 | the copy and the error outcome of a whole pass are those of the pass function the protocol is built on |
| Controller.MigrationOutcome | internal/controller/virtualmachine_controller.go:305-432 | for every phase: a whole pass takes the migration to it if and only if it gets past pod, resources and conditions and what it saw of target pod and volume pod calls for it; the target's name is picked once, its UID and node are the found pod's |
| Controller.VmOutcome | internal/controller/virtualmachine_controller.go:190-478 | the same for every phase of the VM, with where pod name, UID and node come from |
| Controller.PassFailsExactly | internal/controller/virtualmachine_controller.go:190-478 | a pass ends with an error if and only if one of the calls it gets to failed |
| Controller.GcVmPods | internal/controller/virtualmachine_controller.go:163-188 | only listed pods other than the VM pod and the migration target are deleted, and all of them unless a delete fails |
| Protocol.StepInv | internal/controller/virtualmachine_controller.go:129-188 | every step of every agent keeps: copies are committed versions; a pod that completed, by its UID, is still completed wherever it exists; and the collector's copy still spares the pods named now |
| Protocol.RunInv | internal/controller/virtualmachine_controller.go:129-188 | it holds in every state of every run |
| MigrationSafety.GcSparesNamedPods | internal/controller/virtualmachine_controller.go:129-188 | in every run, a pod the collector deletes is neither the VM pod nor the migration target of the newest record, even if a handover was committed since the controller's own write |
| MigrationSafety.OwnerMovesByTargetDaemon | pkg/daemon/vm_controller.go:553-575 | of all steps, only the target daemon's step from Sent moves the owner of a Running VM, to node, pod name and pod UID of the target |
| MigrationSafety.SourceDoneThroughout | pkg/daemon/vm_controller.go:528-535 | in every stretch without rescheduling, a Sent migration means that a pod of the record's name has completed |
| MigrationSafety.HandoverSafety | pkg/daemon/vm_controller.go:528-575 | in every interleaving of a stretch without rescheduling, the owner of a Running VM changes only by the target daemon's step from Sent to Succeeded, to the target's node, pod name and pod UID; a pod of the old owner's name had completed, and unless one is created under that name after it, none executes then or later |
| MigrationSafety.NoRecreation | internal/controller/virtualmachine_controller.go:223-243 | a controller whose reads do not go back creates no pod of a name that no version it can still read lets it create |
| MigrationSafety.HandoverSafetyReadingForward | pkg/daemon/vm_controller.go:528-575 | with such a controller, which has read that the VM is past Scheduling under that name before any pod of it completed, no pod of the owner's name executes at or after the handover |
| MigrationSafety.MarkMeansOldCopy | internal/controller/virtualmachine_controller.go:1571-1594 | in every run, a pass that deletes all pods works on a new, succeeded or failed copy, and on an outdated one if the newest record is in none of these phases |
| MigrationSafety.PodAtRiskExactly | internal/controller/virtualmachine_controller.go:443-449 | a pod can be marked in the controller's next pass if and only if a version it may read is in such a phase |
| MigrationSafety.NoPodAtRisk | internal/controller/virtualmachine_controller.go:443-449 | with reads that do not go back, a VM scheduled or running since the last version read has no pod marked this way |
| MigrationSafety.DaemonPassEdges | pkg/daemon/vm_controller.go:416-587 | a daemon changes a migration phase only along an edge that is its role's, and exactly when its view calls for it |
| MigrationSafety.ControllerPassEdges | internal/controller/virtualmachine_controller.go:354-432 | the controller leaves only the phases up to Scheduling, exactly when its view calls for it, and never moves the owner of a Running VM |
| MigrationSafety.PhaseDiscipline | internal/controller/virtualmachine_controller.go:354-432 | in every run the committed migration comes to a phase exactly in the steps that call for it: a pass over the newest record, by the one role that may leave the old phase, whose view meets the conditions of that edge, or a new request after the end |
| MigrationSafety.BlockStaysGone | pkg/daemon/vm_controller.go:413-587 | a daemon without a block gets none while no version it can still read makes it start one |
| MigrationSafety.ReconciledDaemonHoldsNoBlock | pkg/daemon/vm_controller.go:576-587 | once an involved daemon has finished a pass over a finished migration, it holds no control block until a new migration is requested |
| MigrationSafety.SourceForgetsWhenSent | pkg/daemon/vm_controller.go:528-587 | the source daemon forgets its block in the pass that declares the migration Sent, and holds none while it is Sent or over |
| Outcomes.VmPhaseDiscipline | internal/controller/virtualmachine_controller.go:129-478 | in every run the committed VM comes to a phase exactly in the steps that call for it: a pass of the controller or of a daemon over the newest record whose view meets the conditions, or a client's write |
| Outcomes.NamesComeFromPods | internal/controller/virtualmachine_controller.go:190-430 | in every run, pod name, UID and node of the VM and of the target come from the name generator and from the pods that were found, and the VM takes over the target's exactly in the handover |
| Outcomes.CollectsExactly | internal/controller/virtualmachine_controller.go:129-161 | in every run the controller collects pods exactly after a pass over the newest record without an error, by the record it has just written |
| Outcomes.KeepsSending | pkg/daemon/vm_controller.go:500-552 | a daemon that has started to send remembers it as long as the VM is leaving it, it is not restarted, and it sees neither its pod completed nor sending fail |
| Outcomes.FailsOnlyIfSendingFails | pkg/daemon/vm_controller.go:528-552 | in every such stretch of every run the migration fails at the source if and only if a pass over the newest record sees sending fail before the pod completed |
| Outcomes.RestartedSourceStrandsVm | pkg/daemon/vm_controller.go:528-538 | for all names there is a run with every read current in which a restarted source fails a migration whose guest then leaves its completed pod |
| Outcomes.FailedMigrationStrands | internal/controller/virtualmachine_controller.go:326-339 | such a VM stays Running under its old owner in every pass of everybody, unless it is to be resized, until the migration is cleared |
| Rescheduling.RescheduledVmCanBeTakenOver | internal/controller/virtualmachine_controller.go:443-469 | for all names there is a run from the beginning, with every read current and all pods deleted when the VM is put back, that ends in a handover of a Running VM while the pod that owns it executes |
| Recreation.RecreatedPodIsTakenOver | internal/controller/virtualmachine_controller.go:223-243 | for all names there is a run whose VM is Running all the time since before the migration is Sent, and which ends in a handover while a pod of the owner's name, created again by an outdated pass, executes |
| Resize.PodStageIsTheControllers | internal/controller/virtualmachine_controller.go:569-721 | the controller's pass goes to the guest stage exactly when the pod reports the spec's CPUs and memory plus 256Mi and no resize is open, and back to Running exactly after a refusal |
| Resize.AsksForResizeExactly | internal/controller/virtualmachine_controller.go:605-667 | a pod is asked to resize exactly if none is open and its report, or its requests without one, are not the desired resources |
| Resize.MatchMeans | pkg/daemon/vm_controller.go:300-326 | a guest matches if and only if it has the spec's number of CPUs and its memory up to 5% |
| Resize.GuestStageIsTheDaemons | pkg/daemon/vm_controller.go:281-354 | the daemon's pass leaves the guest stage exactly when the guest has the spec's number of CPUs and its memory up to 5%, and otherwise changes nothing |
| Resize.ResizingVm.CheckAndSetResizePhase | internal/controller/virtualmachine_controller.go:480-538 | a Running VM stays so exactly if its pod reports the spec's CPUs, which are not zero, and memory plus 256Mi; an error exactly when nothing is reported |
| Resize.ResizingVm.ReconcileVmPodResize | internal/controller/virtualmachine_controller.go:586-721 | the pod stage in place decides the phase, and requests the desired resources, as derived from the pod |
| Resize.ResizingVm.ReconcileGuestResize | pkg/daemon/vm_controller.go:300-354 | the guest stage in place ends exactly when CPUs and memory match, and otherwise asks the hypervisor |
| Resize.AcceptedRamFitsPod | pkg/daemon/vm_controller.go:316-326 | every guest size within the 5% tolerance fits the pod's memory if and only if the size is below 5 GiB plus 20 bytes |
| Resize.MigrationBlocksResize | pkg/daemon/vm_controller.go:281-286 | with any migration in the record, no pass takes the VM out of ResizeInProgress |
| ResizeProtocol.StepInv | internal/controller/virtualmachine_controller.go:480-721 | every step of controller, daemon, kubelet and hypervisor, with outdated copies, effects apart from the versioned write, rejected writes and restarts, keeps: a copy in ResizeInProgress, however old, means that the pod has the desired resources; the guest stage was left only with a matching guest |
| ResizeProtocol.RunInv | internal/controller/virtualmachine_controller.go:480-721 | in every state of every run |
| ResizeProtocol.ResizeDiscipline | pkg/daemon/vm_controller.go:281-354 | in every run, refusals included: each committed phase change is one of four, by the agent whose stage it ends; the VM is in the guest stage and the hypervisor is asked only while the pod has the desired resources; back to Running from there only with the guest's CPUs equal and its memory within 5% |
| ResizeProtocol.ResizeConverges | internal/controller/virtualmachine_controller.go:480-721 | in every run without a refusal the record changes at most three times, through one round, and from every state some continuation ends Running with the desired pod and, if the record changed, with the guest's CPUs equal and its memory within 5% |
| ResizeProtocol.DistanceNeverGrows | internal/controller/virtualmachine_controller.go:480-721 | no step of anybody, with copies however old, leads away from the end of the round |
| ResizeProtocol.EveryTurnCounts | internal/controller/virtualmachine_controller.go:480-721 | every undisturbed, accepted pass of the controller or daemon, and every completion by kubelet or hypervisor, whose turn it is, brings the VM closer, whatever happens before, between and after |
| ResizeProtocol.AtMostEightTurns | internal/controller/virtualmachine_controller.go:480-721 | however such turns are spread over a run there are at most eight, and after eight the round is over |
| ResizeProtocol.RoundIsOver | pkg/daemon/vm_controller.go:347-353 | it is nobody's turn exactly when the VM is Running, its pod reports CPUs and memory plus 256Mi, and, if the record changed, the guest has the CPUs and the memory within 5% |
| ResizeProtocol.SettledStaysExactly | internal/controller/virtualmachine_controller.go:507-522 | a Running VM with a finished pod can start another round if and only if the controller may still read a version of the pod that differs |
| ResizeProtocol.NothingBeforeThePod | internal/controller/virtualmachine_controller.go:586-721 | in every run, until the kubelet has carried the resize out, there is no guest stage and the guest is as it was |
| ResizeProtocol.RefusedVmNeverRests | internal/controller/virtualmachine_controller.go:595-603 | in every state of every run in which a refusal stands, passes of the controller alone change the record once more |
| ResizeProtocol.EveryRefusedPassChangesRecord | internal/controller/virtualmachine_controller.go:595-603 | every undisturbed pass of the controller over the newest record and pod moves the record between Running and PodResizeInProgress, and changes nothing else |
| ResizeProtocol.LateResizeIsMissedExactly | internal/controller/virtualmachine_controller.go:595-603 | with the pod done and the guest not matching, the guest can still come to match if and only if the record is not Running or the controller may still read a version of the pod that differs |
| Hotplug.RecordCovers | pkg/daemon/vm_controller.go:1004-1016 | a target is recorded after the call if and only if its volume had no entry or the very target was there |
| Hotplug.StaleEntryHidesNewTarget | pkg/daemon/vm_controller.go:1004-1016 | an entry of another pod leaves the new target out |
| Hotplug.PodVolumes.AddVolumeToRecord | pkg/daemon/vm_controller.go:1004-1032 | on success the target is in the durable record if and only if no entry of its volume for another pod is in the way |
| Hotplug.LosingWrite | pkg/daemon/vm_controller.go:1018-1032 | the losing run: a mounted and recorded target is in no record once the write for a second volume is cut short |
| Hotplug.PodVolumes.MountBlockVolume | pkg/daemon/vm_controller.go:688-729 | the record is written before the target appears, wherever the call stops; it completes without faults, with exactly this target more |
| Hotplug.PodVolumes.MountFileSystemVolume | pkg/daemon/vm_controller.go:731-763 | the same for file systems, except that a mounted one is not recorded again |
| Hotplug.PodVolumes.MountHotplugVolumes | pkg/daemon/vm_controller.go:635-686 | keeps every truthful status truthful at every stop; when it completes, exactly the first statuses of hotplug volumes of the spec that were attached have become mounted, and at least these are mounted, or all with a status if the volume pod is given; it fails exactly by a fault or a torn record |
| Hotplug.PodVolumes.UmountHotplugVolumes | pkg/daemon/vm_controller.go:785-816 | when it completes, exactly the recorded targets of volumes without a status are gone, and the record has exactly the other entries, or is removed; it fails exactly by a fault or a torn record |
| Hotplug.PodVolumes.UmountAllHotplugVolumes | pkg/daemon/vm_controller.go:818-834 | a cleanup that completes leaves mounted exactly what is hidden, and no record; with a torn record it fails and changes nothing |
| Hotplug.PodVolumes.CleanupAfterAnyHistory | pkg/daemon/vm_controller.go:635-834 | with whatever record earlier pods left, after any number of passes over any specs and statuses, each stopped anywhere, what is mounted is in the durable record if and only if no write was ever cut short while something was mounted and nothing mounted is hidden by a leftover entry; a completed cleanup leaves exactly the hidden targets |
| Hotplug.PodVolumes.CleanupWithoutLeftovers | pkg/daemon/vm_controller.go:635-834 | without leftover entries nothing is ever hidden, so a completed cleanup leaves nothing mounted |
| Hotplug.LeftoverHidesMount | pkg/daemon/vm_controller.go:1004-1016 | a mount behind a leftover entry is not recorded |
| Hotplug.PodVolumes.TornForEver | pkg/daemon/vm_controller.go:982-1002 | once the record is torn, no pass ever completes again and what is mounted stays mounted |
| Hotplug.PodVolumes.AddHotplugVolumesToVm | pkg/daemon/vm_controller.go:884-931 | a volume whose status is truthful gets its disk only with its target mounted; when it completes, exactly the hotpluggable volumes whose last status was mounted have become ready and joined the guest |
| Hotplug.PodVolumes.RemoveHotplugVolumesFromVm | pkg/daemon/vm_controller.go:933-948 | exactly the reported disks that left the spec leave the guest, and without faults all of them |
| Hotplug.PodVolumes.ReconcileHotplugVolumes | pkg/daemon/vm_controller.go:616-633 | volume by volume, wherever the pass stops: one that was reported truthfully, with its disk backed and not in the guest without a status, has no disk without its target; when it completes, every attached volume is mounted, in the guest and ready, nothing without a status is mounted unless it is hidden, and the guest's disks are exactly those of before that the spec has and those of the volumes that waited; without faults it completes exactly if the record is not torn |
| Hotplug.AttachedBecomesReady | pkg/daemon/vm_controller.go:616-633 | the two halves of a pass take an attached volume to ready, first and last status being the same one |
| LockMap.StepInv | pkg/util/lockmap/lockmap.go:80-127 | every atomic step of every thread and of the sweep keeps: uses are of the mapped mutex, one mutex per key, exact counts, exact readers, writers and queues of every mutex, and the sweep's pair is current under the big lock |
| LockMap.RunInv | pkg/util/lockmap/lockmap.go:80-127 | in every state of every run |
| LockMap.MutualExclusion | pkg/util/lockmap/lockmap.go:80-127 | for any threads and any sweeps, users of a key share the one mutex in the map, and an exclusive holder is the only holder |
| LockMap.KeysAreIndependent | pkg/util/lockmap/lockmap.go:101-127 | different keys never share a mutex |
| LockMap.ReaderGoesOnExactly | pkg/util/lockmap/lockmap.go:115-127 | a reader that arrives gets its key if and only if no thread has it exclusively or has announced that it wants it exclusively, and queues otherwise |
| LockMap.WriterAnnouncesExactly | pkg/util/lockmap/lockmap.go:101-113 | a writer that arrives is the next one under the same condition |
| LockMap.WaitingWriterBlocksReaders | pkg/util/lockmap/lockmap.go:101-127 | a waiting writer keeps new readers out although every holder is a reader |
| LockMap.SomeWaiterGoesOn | pkg/util/lockmap/lockmap.go:101-127 | whenever a thread wants a key that nobody has, some thread that wants it can go on |
| LockMap.QueuedReaderIsServedNext | pkg/util/lockmap/lockmap.go:101-127 | a reader queued behind a writer has the key when that writer gives it back, before any other writer |
| LockMap.CountsAreExact | pkg/util/lockmap/lockmap.go:89-126 | each count is the number of threads between increment and decrement, so never negative |
| LockMap.GcDeletesOnlyUnused | pkg/util/lockmap/lockmap.go:89-96 | what the sweep deletes is the pair it observed, still current, with no thread using the key |
| LockMap.QuietSweepEmptiesMap | pkg/util/lockmap/lockmap.go:80-99 | a full sweep with no active thread empties the map |
| LruSpec.EveryRunIsSound | pkg/util/lru/lru.go:99-250 | after any history, purges included: no key has two entries, sizes held plus the purge residue are within the bound, and every accepted value is held, was reported once, or was overwritten |
| LruSpec.ApplySound | pkg/util/lru/lru.go:99-250 | every operation keeps these |
| LruSpec.EvictLoopIsEvict | pkg/util/lru/lru.go:136-138 | evicting one by one is keeping the longest prefix that fits, the rest reported oldest first |
| LruSpec.AddEvictsShortestSuffix | pkg/util/lru/lru.go:112-140 | what `Add` keeps fits, and no longer prefix would |
| LruSpec.AddedEntrySurvives | pkg/util/lru/lru.go:99-140 | a new entry survives its own `Add` if and only if it fits beside the purge residue; otherwise the cache is empty |
| LruSpec.ApplyExactly | pkg/util/lru/lru.go:99-333 | each operation in terms of the key's value and the entries of all other keys in their order: what goes where, what is reported for which reason and in which order, what is overwritten, and what the size counter keeps |
| Lru.NewLRU | pkg/util/lru/lru.go:69-86 | an empty cache with that configuration, or an error exactly for a size that is not positive |
| Lru.LRU.LookupItem | pkg/util/lru/lru.go:273-285 | finds an element of the list with both keys, and nothing only if there is none |
| Lru.LRU.RemoveItem | pkg/util/lru/lru.go:301-322 | swap-delete in the bucket, dropping an empty bucket, keeps index and list in step |
| Lru.LRU.RemoveElement | pkg/util/lru/lru.go:325-333 | takes the entry out of list and index, with its size, and reports it |
| Lru.LRU.AddItem | pkg/util/lru/lru.go:288-299 | puts a new entry at the front or back of the list and in its bucket |
| Lru.LRU.EvictOverflow | pkg/util/lru/lru.go:136-138 | the loop terminates, its list being non-empty on entry, within the bound, as the one-by-one function says |
| Lru.LRU.Add | pkg/util/lru/lru.go:112-140 | the linked form refines `Add` on the plain sequence |
| Lru.LRU.PushBack | pkg/util/lru/lru.go:149-178 | refines `PushBack`; the answer is exactly whether the value fits, and an old entry is never dropped without the new one going in |
| Lru.LRU.ReplaceAtBack | pkg/util/lru/lru.go:156-177 | after the first capacity check the second one passes |
| Lru.LRU.Get | pkg/util/lru/lru.go:181-195 | the value of the key, which becomes the most recently used |
| Lru.LRU.Contains | pkg/util/lru/lru.go:198-209 | presence, with the same effect on recency |
| Lru.LRU.Peek | pkg/util/lru/lru.go:212-224 | the value of the key, with no effect |
| Lru.LRU.Remove | pkg/util/lru/lru.go:227-238 | refines removal, reported as manual |
| Lru.LRU.RemoveOldest | pkg/util/lru/lru.go:241-251 | refines removal of the least recently used |
| Lru.LRU.Purge | pkg/util/lru/lru.go:99-109 | everything is reported once, in the index's order, and gone, while the size counter stays |
| BoundedStack.New | pkg/util/boundedstack/boundedstack.go:38-46 | an empty stack, or an error exactly for a capacity that is not positive |
| BoundedStack.BoundedStack.Push | pkg/util/boundedstack/boundedstack.go:108-114 | keeps the newest items that fit, the pushed one last; slots outside the live window stay zero |
| BoundedStack.BoundedStack.Pop | pkg/util/boundedstack/boundedstack.go:66-83 | takes the newest item, zeroing its slot; fails exactly on an empty stack |
| BoundedStack.LivePush | pkg/util/boundedstack/boundedstack.go:108-114 | on the buffer, a push is keeping the newest of the sequence with the item appended |
| BoundedStack.LivePop | pkg/util/boundedstack/boundedstack.go:66-83 | on the buffer, a pop is dropping the last of the sequence |
| BoundedStackWakeups.StepInv | pkg/util/boundedstack/boundedstack.go:50-105 | every step keeps: items are at most tokens plus goroutines in flight, and items are conserved |
| BoundedStackWakeups.NoLostWakeup | pkg/util/boundedstack/boundedstack.go:50-105 | in every run, a non-empty stack with nobody in flight has at least as many tokens as items, so a blocked receiver can go on |
| BoundedStackWakeups.EveryPushAccountedFor | pkg/util/boundedstack/boundedstack.go:50-114 | every pushed item is present, received or evicted, each exactly once |
| BoundedStackWakeups.ReceivesAreLifo | pkg/util/boundedstack/boundedstack.go:66-105 | over every stretch of every run without a push, the receivers together take the items off from the newest to the oldest, and what is left is what was below |
| VmSet.OrdinalOfVmName | internal/controller/vmset_controller.go:407-419 | the ordinal comes back from the printed name for every set name and every 32-bit ordinal |
| VmSet.OrdinalExactly | internal/controller/vmset_controller.go:407-419 | for any name at all, what is behind its last dash modulo two to the power 32, or 0 if that is no number |
| VmSet.VmNamesDiffer | internal/controller/vmset_controller.go:135-136 | VM names are equal if and only if set and ordinal are |
| VmSet.DiskNamesDiffer | internal/controller/vmset_controller.go:220-221 | within a set, disk names are equal if and only if template and ordinal are |
| VmSet.DiskNamesOfTwoSets | internal/controller/vmset_controller.go:220-228 | across sets they are equal if and only if the ordinals are and set and template run together to the same text |
| VmSet.DisksOfTwoSetsCanCollide | internal/controller/vmset_controller.go:220-228 | an instance of that |
| VmSet.SortedByOrdinal | internal/controller/vmset_controller.go:106-108 | whatever VMs are listed in whatever order, sorting puts them in ascending order of the ordinals their names print |
| VmSet.CreateKeepsPrefix | internal/controller/vmset_controller.go:135-136 | creating ordinal n beside k VMs keeps the prefix if and only if n is at most k |
| VmSet.RemoveKeepsPrefix | internal/controller/vmset_controller.go:135-136 | removing a VM keeps the prefix if and only if it was the last |
| VmSet.GapBlocksScaleUp | internal/controller/vmset_controller.go:135-144 | the next ordinal to create is taken if and only if a removal left a gap |
| VmSet.CreateKeepsTidy | internal/controller/vmset_controller.go:131-171 | a create keeps the VMs a prefix, now and after all deletions, if and only if its ordinal is the count and nothing is being deleted |
| VmSet.DeleteKeepsTidy | internal/controller/vmset_controller.go:187-217 | deletions from a list of the first n ordinals do if and only if the list misses no VM that stays, or no staying VM is chosen |
| VmSet.Cluster.CreateVirtualDisks | internal/controller/vmset_controller.go:219-255 | only disks of that ordinal are added; when it succeeds, the ordinal has its disks, to stay, if and only if each one the cache showed was there and not being deleted, and none of the others was being deleted |
| VmSet.Cluster.DeleteVirtualDisks | internal/controller/vmset_controller.go:257-274 | only disks of that ordinal are marked, and all of them when it succeeds |
| VmSet.Cluster.ScaleUp | internal/controller/vmset_controller.go:131-171 | at most the one VM is added, after its disks; it keeps them if and only if they were all found to stay at the look-up; a VM that the cache shows or that exists is no error |
| VmSet.Cluster.ScaleDown | internal/controller/vmset_controller.go:187-217 | under failures exactly the highest listed VMs are marked, no more than there are too many; only their disks are marked, and none under retention; an error-free call with a negative number panics unless the 32-bit difference wraps |
| VmSet.Cluster.ReconcileVmSet | internal/controller/vmset_controller.go:95-129 | a pass over any list: what it may change in each direction, no replicas meaning none, and, on a tidy set, the exact conditions under which it stays tidy |
| VmSet.Cluster.AnyHistory | internal/controller/vmset_controller.go:95-274 | after any history, with any lists, look-ups in a cache however old, failures, deletions and completions in any order, a VM nobody deletes has its disks, to stay, if and only if they were all found to stay when they were last looked up; under retention every such VM has them and no disk is lost |
| VmSet.Cluster.TidyHistory | internal/controller/vmset_controller.go:95-217 | after any history of passes that meet those conditions, over lists however old, the VMs are ordinals 0 to k-1 |
| VmSet.Cluster.Converge | internal/controller/vmset_controller.go:95-217 | with deletions pending and completing at any time: one error-free pass is enough from above, each one that finds nothing being deleted brings the count one closer from below, and failing passes never lead away |
| VmSet.Cluster.ScaleUpOverDeletion | internal/controller/vmset_controller.go:131-171 | its premise is exact: otherwise one error-free pass can leave a gap |
| VmSet.Cluster.Stuck | internal/controller/vmset_controller.go:135-144 | a set whose next ordinal is taken never grows again, however many passes over current lists it gets |
| VmSet.RecreatedVmLosesDisk | internal/controller/vmset_controller.go:219-229 | the failing run: replicas 1, 0, 1 under deletion, after which the VM runs without its disk |
| VmSet.CachedDiskIsMissed | internal/controller/vmset_controller.go:219-229 | the same with nothing being deleted, the disk being gone but still in the cache |
| Webhook.VirtualMachine.MutateVm | pkg/webhooks/virtualmachine_webhook.go:61-221 | the webhook, working in place on lists that may become one shared object, computes the mutation function, and fails exactly when it does |
| Webhook.VirtualMachine.FillDedicated | pkg/webhooks/virtualmachine_webhook.go:82-115 | the dedicated case fills both lists alike; a list shared by both is harmless to the later steps |
| Webhook.VirtualMachine.FillHugepages | pkg/webhooks/virtualmachine_webhook.go:117-138 | the huge page case |
| Webhook.VirtualMachine.FillShared | pkg/webhooks/virtualmachine_webhook.go:140-173 | the shared case |
| Webhook.VirtualMachine.FillInterfaces | pkg/webhooks/virtualmachine_webhook.go:187-219 | MACs from the spec, the old object or the generator, and default bindings, up to the first MAC that cannot be drawn |
| Webhook.InstanceExactly | pkg/webhooks/virtualmachine_webhook.go:67-80 | one socket, one core, and the memory request or 1Gi, wherever the user left zero |
| Webhook.CpuAndMemoryExactly | pkg/webhooks/virtualmachine_webhook.go:82-173 | requests and limits keep every CPU and memory quantity of the user that is not zero, and otherwise get the number of CPUs, and the memory size plus 256Mi; the 256Mi alone with huge pages on dedicated CPUs, and as the request of a VM with huge pages and nothing else |
| Webhook.HugepagesExactly | pkg/webhooks/virtualmachine_webhook.go:117-133 | a missing huge page limit is the memory size, and a missing request is the limit |
| Webhook.OtherKeysExactly | pkg/webhooks/virtualmachine_webhook.go:82-173 | no other key is added, changed or removed |
| Webhook.GpuExactly | pkg/webhooks/virtualmachine_webhook.go:175-185 | an NVIDIA GPU without a name for its variable gets the one made of its resource name, any other stays |
| Webhook.OldMacExactly | pkg/webhooks/virtualmachine_webhook.go:189-197 | the old MAC is that of the first old interface of the same name |
| Webhook.InterfacesExactly | pkg/webhooks/virtualmachine_webhook.go:187-219 | each interface: its MAC from spec, old object or generator in this order, a bridge if it has no binding, 10.0.2.0/30 if it is masqueraded without a network; all are done if and only if no MAC is missing |
| Webhook.MutateExactly | pkg/webhooks/virtualmachine_webhook.go:61-221 | the mutation is these parts, with the run policy Once if there is none, and leaves interfaces behind a missing MAC alone |
| Webhook.DefaultsSettle | pkg/webhooks/virtualmachine_webhook.go:67-173 | after one pass every default is in place, none zero unless its default is |
| Webhook.SettledIsFixed | pkg/webhooks/virtualmachine_webhook.go:67-173 | and then nothing changes any more |
| Webhook.MutateIsIdempotent | pkg/webhooks/virtualmachine_webhook.go:61-221 | a spec accepted once passes unchanged, whatever the old object and the drawn MACs |
| Webhook.DetectorIsTheController | internal/controller/virtualmachine_controller.go:507-522 | on whole quantities the detector here is the one of the resize model |
| Webhook.WebhookAgreesWithDetector | internal/controller/virtualmachine_controller.go:507-522 | a pod created with the webhook's resources is left alone by the detector if and only if the user's requests were zero or equal to the desired ones and huge pages did not replace the memory request |
| Webhook.PlainVmIsNotResized | pkg/webhooks/virtualmachine_webhook.go:82-173 | so it is without huge pages and own requests, on shared and dedicated CPUs |
| Webhook.DedicatedHugepagesAreResized | pkg/webhooks/virtualmachine_webhook.go:82-92 | and never with huge pages on dedicated CPUs without a memory request |
| Addressing.NextAddsOne | cmd/ch-vmm-prerunner/main.go:564-571 | for every byte length the next address is plus one, modulo the number of addresses |
| Addressing.Increment | cmd/ch-vmm-prerunner/main.go:566-571 | the carry loop computes it in place |
| Addressing.NextIp | cmd/ch-vmm-prerunner/main.go:563-576 | a fresh copy with the next address, refused exactly outside the subnet |
| Addressing.AgreeIsShift | cmd/ch-vmm-prerunner/main.go:572-574 | agreeing byte by byte under a mask is having the same quotient by the open addresses |
| Addressing.SubnetIsBlock | cmd/ch-vmm-prerunner/main.go:572-574 | a subnet is the block of two to the power of its host bits from its base on |
| Addressing.MasqueradeAddresses | cmd/ch-vmm-prerunner/main.go:503-541 | bridge and VM get addresses if and only if there are two host bits; they are base plus one and two, before the last address |
| Addressing.PickAddresses | cmd/ch-vmm-prerunner/main.go:503-541 | the two calls return exactly these |
| Addressing.ValidationIsSufficient | pkg/webhooks/virtualmachine_webhook.go:509-524 | a CIDR without a report always works, and one that works is reported if and only if it has two or three host bits |
| Addressing.DefaultCidrIsReported | pkg/webhooks/virtualmachine_webhook.go:214-218 | the default CIDR is one of those |
| CpuSet.Parse | pkg/cpuset/cpuset.go:38-72 | the parser returns the set the list means, and an error exactly when it means none |
| CpuSet.ParseMeaning | pkg/cpuset/cpuset.go:38-72 | the empty list is the empty set; any other is refused if and only if an item is malformed, and otherwise the set is exactly the union of the ranges, never negative |
| CpuSet.ItemExactly | pkg/cpuset/cpuset.go:46-68 | an item with a dash is the range between the numbers around its first one, if they are numbers in order, and one without is its number |
| Text.AtoiExactly | pkg/cpuset/cpuset.go:48-60 | digits with or without a sign are their number if a 64-bit integer holds it, and nothing else is a number |
| CpuSet.ParseDistributes | pkg/cpuset/cpuset.go:45-70 | joining non-empty lists with a comma joins their sets, errors included |
| CpuSet.EmptyItemIsRefused | pkg/cpuset/cpuset.go:45-52 | a comma without something on both sides is refused |
| CpuSet.ParsePrinted | pkg/cpuset/cpuset.go:38-72 | reading back any printed list of ranges gives exactly their CPUs |
| CpuSet.ToSlice | pkg/cpuset/cpuset.go:74-81 | the elements of the set, each once, ascending |
| CpuSet.PinCpus | cmd/ch-vmm-prerunner/main.go:148-167 | succeeds if and only if the numbers match, and is then an order-preserving bijection from virtual CPUs to the set |
| CpuSet.PinningIsUnique | cmd/ch-vmm-prerunner/main.go:148-167 | there is only one such pinning |

## Left out

- Kubernetes clients, events, manager wiring, gRPC, TLS, the TCP relay, netlink, iptables, dnsmasq, virtiofsd and the hypervisor's HTTP client appear only as answers and faults.
- Pod and volume pod assembly, path strings, `updateHotplugVolumeStatus`, `isPodMatchVMHotplugVolumes`, `getHotplugVolumes` and the migratable condition: flat code whose outcome is an input of the controller pass.
- Which volume pod a hotplug target is mounted from: the code keeps the first volume's pod for the later ones, and the model says nothing about the source.
- Pods being gone after `deleteAllVMPods`: it answers yes once they are marked, and the model claims nothing more.
- Two controller replicas working on one VM at the same time.
- Snapshot, rollback, VM pool and migration-object controllers, and the validators other than `ValidateCIDR`: short or without a law of their own.
- Deletion of a whole VMSet, its status counts, and the injection of disk names into a VM: they add nothing to the scaling laws.
- Resize: a spec that changes while a resize of it is going on; the 5% tolerance is computed exactly, not in floating point; the product of sockets and cores is a number of its own there, and wraps only in the webhook and in pinning.
- Hotplug: a record file is absent, readable or torn; which bytes of a torn file survive is not modelled, nor a torn file that happens to decode.
- LockMap: `Close`, and an unlock closure that is run twice.
- Lru: the check for a missing size function, 64-bit overflow of sizes, callbacks that call back into the cache, and the quality of the hash functions; the pair of hashes is the identity of an entry.
- Bounded stack: cancellation of `Recv`, which takes no token and no item.
- Addressing: the text form of a CIDR, and IPv4 addresses written as IPv6 ones; a subnet is its bytes and prefix length.
- CpuSet.Parse: lists with a range that ends at the largest machine integer, on which the source's loop counter wraps; a single CPU with that number is covered.
