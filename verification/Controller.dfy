/** One reconcile pass of the cluster controller over its copy of the record
    (internal/controller/virtualmachine_controller.go). */
module Controller {
  import opened Wrappers
  import opened VmRecord

  datatype PodResize = ResizeOngoing | ResizeInfeasible | ResizeComplete | ResizeIncomplete

  datatype ControllerView = ControllerView(
    vmPod: PodView,
    targetPod: PodView,
    targetVolumePod: PodView,
    freshName: string,
    createOk: bool,
    hotplugOk: bool,
    hotplugStatusOk: bool,
    hotplugAttached: bool,
    noTargetHotplug: bool,
    resourcesReported: bool,
    resizeWanted: bool,
    podResize: PodResize,
    conditionsOk: bool,
    deleteOk: bool,
    runAgain: bool)

  /** The copy as the pass leaves it, and whether the pass ended without an error. */
  datatype ControllerResult = ControllerResult(record: Record, ok: bool)

  function AfterPodPhase(c: Record, p: PodPhase, attached: bool): VmPhase {
    match p
    case PodRunning => if c.phase == VmPhase.Scheduling && attached then VmPhase.Scheduled else c.phase
    case PodSucceeded => VmPhase.Succeeded
    case PodFailed => VmPhase.Failed
    case PodUnknown => VmPhase.Unknown
    case PodPending => c.phase
  }

  function SchedulingPass(c: Record, v: ControllerView): ControllerResult {
    match v.vmPod
    case ReadError => ControllerResult(c, false)
    case NotFound =>
      if c.phase == VmPhase.Scheduling then ControllerResult(c, v.createOk)
      else ControllerResult(c.(phase := VmPhase.Failed), true)
    case Found(p, uid, node) =>
      var c1 := c.(podUid := uid, nodeName := node);
      if node != "" && !v.hotplugOk then ControllerResult(c1, false)
      else ControllerResult(c1.(phase := AfterPodPhase(c, p, v.hotplugAttached)), v.hotplugStatusOk)
  }

  /** The controller's share of a migration: choose the target pod, then follow it until the
      target node can take over. */
  function MigrationPass(c: Record, v: ControllerView): ControllerResult
    requires c.migration.Some?
  {
    var m := c.migration.value;
    match m.phase
    case NotSet | Pending =>
      ControllerResult(c.(migration := Some(m.(targetPodName := v.freshName,
                                               phase := MigrationPhase.Scheduling))), true)
    case Scheduling =>
      (match v.targetPod
       case ReadError => ControllerResult(c, false)
       case NotFound => ControllerResult(c, v.createOk)
       case Found(p, uid, node) =>
         var c1 := c.(migration := Some(m.(targetPodUid := uid, targetNode := node)));
         var volumePod := v.targetVolumePod;
         if p == PodFailed || p == PodSucceeded || p == PodUnknown then
           ControllerResult(c1.WithMigrationPhase(MigrationPhase.Failed), true)
         else if !v.noTargetHotplug && node != "" && !v.hotplugOk then ControllerResult(c1, false)
         else if !v.noTargetHotplug && node != "" && volumePod.Found?
                 && (volumePod.phase == PodFailed || volumePod.phase == PodSucceeded || volumePod.phase == PodUnknown) then
           ControllerResult(c1.WithMigrationPhase(MigrationPhase.Failed), true)
         else if p == PodRunning
                 && (v.noTargetHotplug || (node != "" && volumePod.Found? && volumePod.phase == PodRunning)) then
           ControllerResult(c1.WithMigrationPhase(MigrationPhase.Scheduled), true)
         else ControllerResult(c1, true))
    case _ =>
      ControllerResult(c, true)
  }

  function RunningPass(c: Record, v: ControllerView): ControllerResult {
    if v.vmPod.ReadError? then ControllerResult(c, false)
    else if v.vmPod.NotFound? || v.vmPod.phase == PodFailed then ControllerResult(c.(phase := VmPhase.Failed), true)
    else if v.vmPod.phase == PodUnknown then ControllerResult(c.(phase := VmPhase.Unknown), true)
    else if v.vmPod.phase == PodSucceeded && c.migration.None? then
      ControllerResult(c.(phase := VmPhase.Succeeded), true)
    else if !v.resourcesReported then ControllerResult(c, false)
    else
      var c1 := if v.resizeWanted then c.(phase := VmPhase.PodResizeInProgress) else c;
      if !v.conditionsOk then ControllerResult(c1, false)
      else if c1.migration.Some? then MigrationPass(c1, v)
      else ControllerResult(c1, v.hotplugOk && v.hotplugStatusOk)
  }

  function PodResizePass(c: Record, v: ControllerView): ControllerResult {
    if v.vmPod.ReadError? then ControllerResult(c, false)
    else if v.vmPod.NotFound? then ControllerResult(c.(phase := VmPhase.Failed), true)
    else match v.podResize
         case ResizeOngoing => ControllerResult(c, true)
         case ResizeInfeasible => ControllerResult(c.(phase := VmPhase.Running), true)
         case ResizeComplete => ControllerResult(c.(phase := VmPhase.ResizeInProgress), true)
         case ResizeIncomplete => ControllerResult(c, v.createOk)
  }

  /** `reconcile`: the copy as the pass leaves it. */
  function ControllerPass(c: Record, v: ControllerView): ControllerResult {
    match c.phase
    case Pending => ControllerResult(c.(podName := v.freshName, phase := VmPhase.Scheduling), true)
    case Scheduling | Scheduled => SchedulingPass(c, v)
    case PodResizeInProgress => PodResizePass(c, v)
    case Running => RunningPass(c, v)
    case Unset | Succeeded | Failed =>
      if !v.deleteOk then ControllerResult(c, false)
      else ControllerResult(if v.runAgain then c.(phase := VmPhase.Pending) else c, true)
    case _ => ControllerResult(c, true)
  }

  /** `gcVMPods` keeps the pods this copy names. */
  predicate Spared(c: Record, pod: string) {
    pod == c.podName || (c.migration.Some? && pod == c.migration.value.targetPodName)
  }

  /** A pass creates a pod only under a name its copy holds. */
  predicate MayCreate(c: Record, pod: string) {
    || (c.phase == VmPhase.Scheduling && pod == c.podName)
    || (c.phase == VmPhase.Running && c.MigrationIn(MigrationPhase.Scheduling)
        && pod == c.migration.value.targetPodName)
  }

  // ---------------------------------------------------------------- what a pass comes to, outcome by outcome

  /** A pod that is not going to run any more. */
  predicate Dead(pod: PodView) {
    pod.Found? && pod.phase in {PodFailed, PodSucceeded, PodUnknown}
  }

  /** A pass over a Running VM gets past the pod's phase, the resources it reports and the VM's conditions. */
  predicate GoesOn(c: Record, v: ControllerView) {
    && c.phase == VmPhase.Running && v.resourcesReported && v.conditionsOk && v.vmPod.Found?
    && (v.vmPod.phase in {PodPending, PodRunning} || (v.vmPod.phase == PodSucceeded && c.migration.Some?))
  }

  /** The target pod's volume pod could be looked at. */
  predicate SeesVolumePod(v: ControllerView) {
    v.targetPod.Found? && v.targetPod.node != "" && !v.noTargetHotplug && v.hotplugOk
  }

  predicate VolumesAttached(v: ControllerView) {
    v.noTargetHotplug || (SeesVolumePod(v) && v.targetVolumePod.Found? && v.targetVolumePod.phase == PodRunning)
  }

  /** When a pass takes the migration to phase q. */
  predicate BringsMigration(c: Record, v: ControllerView, q: MigrationPhase)
    requires c.migration.Some?
  {
    var p := c.migration.value.phase;
    && GoesOn(c, v)
    && match q
       case Scheduling => p.NotSet? || p.Pending?
       case Scheduled => p.Scheduling? && v.targetPod.Found? && v.targetPod.phase == PodRunning && VolumesAttached(v)
       case Failed => p.Scheduling? && (Dead(v.targetPod) || (SeesVolumePod(v) && Dead(v.targetVolumePod)))
       case _ => false
  }

  /** What a pass makes of the migration's target: the name is picked once, UID and node are the found pod's. */
  predicate Chooses(c: Record, v: ControllerView, after: Migration)
    requires c.migration.Some?
  {
    var m := c.migration.value;
    var follows := GoesOn(c, v) && m.phase.Scheduling? && v.targetPod.Found?;
    && after.targetPodName == (if BringsMigration(c, v, MigrationPhase.Scheduling) then v.freshName else m.targetPodName)
    && after.targetPodUid == (if follows then v.targetPod.uid else m.targetPodUid)
    && after.targetNode == (if follows then v.targetPod.node else m.targetNode)
  }

  /** A pass moves the migration to another phase exactly when its view says so. */
  lemma MigrationOutcome(c: Record, v: ControllerView, q: MigrationPhase)
    requires c.migration.Some?
    ensures var after := ControllerPass(c, v).record.migration;
            && after.Some? && Chooses(c, v, after.value)
            && (after.value.phase == q != c.migration.value.phase <==> BringsMigration(c, v, q))
  {
    if GoesOn(c, v) {
      FollowOutcome(c, v, q);
      FollowOutcome(c.(phase := VmPhase.PodResizeInProgress), v, q);
    } else {
      assert ControllerPass(c, v).record.migration == c.migration;
    }
  }

  lemma FollowOutcome(c: Record, v: ControllerView, q: MigrationPhase)
    requires c.migration.Some?
    ensures var after := MigrationPass(c, v).record.migration;
            var running := c.(phase := VmPhase.Running);
            after.Some? && (GoesOn(running, v) ==>
              && Chooses(running, v, after.value)
              && (after.value.phase == q != c.migration.value.phase <==> BringsMigration(running, v, q)))
  {
  }

  /** When a pass takes the VM itself to phase q. */
  predicate BringsVm(c: Record, v: ControllerView, q: VmPhase) {
    var pod := v.vmPod;
    var scheduling := c.phase in {VmPhase.Scheduling, VmPhase.Scheduled};
    var settled := scheduling && pod.Found? && (pod.node == "" || v.hotplugOk);
    match q
    case Pending => c.phase in {VmPhase.Unset, VmPhase.Succeeded, VmPhase.Failed} && v.deleteOk && v.runAgain
    case Scheduling => c.phase == VmPhase.Pending
    case Scheduled => settled && c.phase == VmPhase.Scheduling && pod.phase == PodRunning && v.hotplugAttached
    case PodResizeInProgress =>
      && c.phase == VmPhase.Running && v.resourcesReported && v.resizeWanted && pod.Found?
      && (pod.phase in {PodPending, PodRunning} || (pod.phase == PodSucceeded && c.migration.Some?))
    case ResizeInProgress => c.phase == VmPhase.PodResizeInProgress && pod.Found? && v.podResize == ResizeComplete
    case Running => c.phase == VmPhase.PodResizeInProgress && pod.Found? && v.podResize == ResizeInfeasible
    case Succeeded =>
      && pod.Found? && pod.phase == PodSucceeded
      && (settled || (c.phase == VmPhase.Running && c.migration.None?))
    case Failed =>
      || (pod.Found? && pod.phase == PodFailed && (settled || c.phase == VmPhase.Running))
      || (pod.NotFound? && c.phase in {VmPhase.Scheduled, VmPhase.Running, VmPhase.PodResizeInProgress})
    case Unknown => pod.Found? && pod.phase == PodUnknown && (settled || c.phase == VmPhase.Running)
    case _ => false
  }

  /** The owner after a pass: a pending VM is given a new pod name, and a VM that is being scheduled has the UID and
      the node of the pod that was found. */
  predicate Records(c: Record, v: ControllerView, r: Record) {
    var follows := c.phase in {VmPhase.Scheduling, VmPhase.Scheduled} && v.vmPod.Found?;
    && r.podName == (if c.phase == VmPhase.Pending then v.freshName else c.podName)
    && r.podUid == (if follows then v.vmPod.uid else c.podUid)
    && r.nodeName == (if follows then v.vmPod.node else c.nodeName)
  }

  lemma VmOutcome(c: Record, v: ControllerView, q: VmPhase)
    ensures var r := ControllerPass(c, v).record;
            && Records(c, v, r)
            && (r.phase == q != c.phase <==> BringsVm(c, v, q))
  {
    if c.phase == VmPhase.Running {
      RunningOutcome(c, v, q);
    } else if c.phase in {VmPhase.Scheduling, VmPhase.Scheduled} {
      SchedulingOutcome(c, v, q);
    }
  }

  lemma MigrationKeepsVm(c: Record, v: ControllerView)
    requires c.migration.Some?
    ensures MigrationPass(c, v).record.phase == c.phase && MigrationPass(c, v).record.Owner() == c.Owner()
  {
  }

  lemma RunningOutcome(c: Record, v: ControllerView, q: VmPhase)
    requires c.phase == VmPhase.Running
    ensures var r := RunningPass(c, v).record;
            && Records(c, v, r)
            && (r.phase == q != c.phase <==> BringsVm(c, v, q))
  {
    if c.migration.Some? {
      MigrationKeepsVm(c, v);
      MigrationKeepsVm(c.(phase := VmPhase.PodResizeInProgress), v);
    }
  }

  lemma SchedulingOutcome(c: Record, v: ControllerView, q: VmPhase)
    requires c.phase in {VmPhase.Scheduling, VmPhase.Scheduled}
    ensures var r := SchedulingPass(c, v).record;
            && Records(c, v, r)
            && (r.phase == q != c.phase <==> BringsVm(c, v, q))
  {
  }

  /** A pass over a Running VM starts by looking at its pod; it then ends there, or goes on to the resources, the
      conditions, and the migration or the volumes, each of which may fail. */
  predicate RunningPassFails(c: Record, v: ControllerView) {
    var pod := v.vmPod;
    var goesOn := pod.Found? && (pod.phase in {PodPending, PodRunning} || (pod.phase == PodSucceeded && c.migration.Some?));
    || pod.ReadError?
    || (goesOn && (!v.resourcesReported || !v.conditionsOk))
    || (goesOn && c.migration.None? && (!v.hotplugOk || !v.hotplugStatusOk))
    || (goesOn && c.migration.Some? && c.migration.value.phase.Scheduling? &&
        (|| v.targetPod.ReadError?
         || (v.targetPod.NotFound? && !v.createOk)
         || (v.targetPod.Found? && !Dead(v.targetPod) && !v.noTargetHotplug && v.targetPod.node != "" && !v.hotplugOk)))
  }

  /** When a pass ends with an error, after which no pod is collected. */
  predicate Fails(c: Record, v: ControllerView) {
    var pod := v.vmPod;
    match c.phase
    case Scheduling | Scheduled =>
      || pod.ReadError?
      || (pod.NotFound? && c.phase == VmPhase.Scheduling && !v.createOk)
      || (pod.Found? && ((pod.node != "" && !v.hotplugOk) || !v.hotplugStatusOk))
    case PodResizeInProgress => pod.ReadError? || (pod.Found? && v.podResize == ResizeIncomplete && !v.createOk)
    case Running => RunningPassFails(c, v)
    case Unset | Succeeded | Failed => !v.deleteOk
    case _ => false
  }

  lemma PassFailsExactly(c: Record, v: ControllerView)
    ensures ControllerPass(c, v).ok <==> !Fails(c, v)
  {
  }

  // ---------------------------------------------------------------- in place

  /** The cases of `reconcile` for a VM that is being scheduled. */
  method ReconcileScheduling(status: VmStatus, v: ControllerView) returns (ok: bool)
    modifies status
    ensures ControllerResult(status.Value(), ok) == SchedulingPass(old(status.Value()), v)
  {
    if v.vmPod.ReadError? {
      return false;
    }
    if v.vmPod.NotFound? {
      if status.phase == VmPhase.Scheduling {
        return v.createOk;
      }
      status.phase := VmPhase.Failed;
      return true;
    }
    status.podUid := v.vmPod.uid;
    status.nodeName := v.vmPod.node;
    if v.vmPod.node != "" {
      if !v.hotplugOk {
        return false;
      }
    }
    match v.vmPod.phase
    case PodRunning =>
      if status.phase == VmPhase.Scheduling && v.hotplugAttached {
        status.phase := VmPhase.Scheduled;
      }
      ok := v.hotplugStatusOk;
    case PodSucceeded =>
      status.phase := VmPhase.Succeeded;
      ok := v.hotplugStatusOk;
    case PodFailed =>
      status.phase := VmPhase.Failed;
      ok := v.hotplugStatusOk;
    case PodUnknown =>
      status.phase := VmPhase.Unknown;
      ok := v.hotplugStatusOk;
    case PodPending =>
      ok := v.hotplugStatusOk;
  }

  /** The target pod has been found: its node is recorded, and the migration fails or goes on with it. */
  method FollowTargetPod(m: MigrationStatus, v: ControllerView) returns (ok: bool)
    requires v.targetPod.Found? && m.phase == MigrationPhase.Scheduling
    modifies m
    ensures forall c: Record | c.migration == Some(old(m.Value())) ::
              ControllerResult(c.(migration := Some(m.Value())), ok) == MigrationPass(c, v)
    ensures m.targetPodName == old(m.targetPodName) && m.targetPodUid == v.targetPod.uid && m.targetNode == v.targetPod.node
    ensures m.phase == MigrationPhase.Scheduled <==> v.targetPod.phase == PodRunning && VolumesAttached(v)
    ensures m.phase == MigrationPhase.Failed <==> Dead(v.targetPod) || (SeesVolumePod(v) && Dead(v.targetVolumePod))
    ensures m.phase in {MigrationPhase.Scheduling, MigrationPhase.Scheduled, MigrationPhase.Failed}
  {
    m.targetPodUid := v.targetPod.uid;
    m.targetNode := v.targetPod.node;
    var attached := false;
    var p := v.targetPod.phase;
    if p == PodFailed || p == PodSucceeded || p == PodUnknown {
      m.phase := MigrationPhase.Failed;
    } else if v.noTargetHotplug {
      attached := true;
    } else if v.targetPod.node != "" {
      if !v.hotplugOk {
        return false;
      }
      if v.targetVolumePod.Found? {
        var q := v.targetVolumePod.phase;
        if q == PodFailed || q == PodSucceeded || q == PodUnknown {
          m.phase := MigrationPhase.Failed;
        } else if q == PodRunning {
          attached := true;
        }
      }
    }
    if p == PodRunning && attached {
      m.phase := MigrationPhase.Scheduled;
    }
    ok := true;
  }

  /** The controller's share of a migration. */
  method ReconcileMigration(status: VmStatus, v: ControllerView) returns (ok: bool)
    requires status.migration != null
    modifies status.migration
    ensures ControllerResult(status.Value(), ok) == MigrationPass(old(status.Value()), v)
  {
    var m := status.migration;
    ok := true;
    if m.phase == MigrationPhase.NotSet || m.phase == MigrationPhase.Pending {
      m.targetPodName := v.freshName;
      m.phase := MigrationPhase.Scheduling;
    } else if m.phase == MigrationPhase.Scheduling {
      if v.targetPod.ReadError? {
        return false;
      }
      if v.targetPod.NotFound? {
        return v.createOk;
      }
      ok := FollowTargetPod(m, v);
    }
  }

  /** The case of `reconcile` for a Running VM. */
  method ReconcileRunning(status: VmStatus, v: ControllerView) returns (ok: bool)
    requires status.phase == VmPhase.Running
    modifies status, status.migration
    ensures ControllerResult(status.Value(), ok) == RunningPass(old(status.Value()), v)
  {
    if v.vmPod.ReadError? {
      return false;
    }
    if v.vmPod.NotFound? {
      status.phase := VmPhase.Failed;
    } else if v.vmPod.phase == PodSucceeded {
      if status.migration == null {
        status.phase := VmPhase.Succeeded;
      }
    } else if v.vmPod.phase == PodFailed {
      status.phase := VmPhase.Failed;
    } else if v.vmPod.phase == PodUnknown {
      status.phase := VmPhase.Unknown;
    }
    if status.phase != VmPhase.Running {
      return true;
    }
    if !v.resourcesReported {
      return false;
    }
    if v.resizeWanted {
      status.phase := VmPhase.PodResizeInProgress;
    }
    if !v.conditionsOk {
      return false;
    }
    if status.migration != null {
      ok := ReconcileMigration(status, v);
    } else {
      ok := v.hotplugOk && v.hotplugStatusOk;
    }
  }

  /** `reconcile`. */
  method Reconcile(status: VmStatus, v: ControllerView) returns (ok: bool)
    modifies status, status.migration
    ensures ControllerResult(status.Value(), ok) == ControllerPass(old(status.Value()), v)
  {
    match status.phase
    case Pending =>
      status.podName := v.freshName;
      status.phase := VmPhase.Scheduling;
      ok := true;
    case Scheduling | Scheduled =>
      ok := ReconcileScheduling(status, v);
    case PodResizeInProgress =>
      ok := ReconcilePodResize(status, v);
    case Running =>
      ok := ReconcileRunning(status, v);
    case Unset | Succeeded | Failed =>
      if !v.deleteOk {
        return false;
      }
      if v.runAgain {
        status.phase := VmPhase.Pending;
      }
      ok := true;
    case _ =>
      ok := true;
  }

  method ReconcilePodResize(status: VmStatus, v: ControllerView) returns (ok: bool)
    modifies status`phase
    ensures ControllerResult(status.Value(), ok) == PodResizePass(old(status.Value()), v)
  {
    if v.vmPod.ReadError? {
      return false;
    }
    if v.vmPod.NotFound? {
      status.phase := VmPhase.Failed;
      return true;
    }
    match v.podResize
    case ResizeOngoing => ok := true;
    case ResizeInfeasible => status.phase := VmPhase.Running; ok := true;
    case ResizeComplete => status.phase := VmPhase.ResizeInProgress; ok := true;
    case ResizeIncomplete => ok := v.createOk;
  }

  /** `gcVMPods`: of the VM's pods, those the copy names are never deleted, and unless a delete
      failed all the others are. `deleting` are the pods marked for deletion. */
  method GcVmPods(c: Record, listed: seq<string>, deleting: set<string>, faults: bool) returns (after: set<string>, ok: bool)
    ensures deleting <= after && (!faults ==> ok)
    ensures forall pod :: pod in after - deleting ==>
              pod in listed && pod != c.podName && !(c.migration.Some? && pod == c.migration.value.targetPodName)
    ensures ok ==> forall pod :: pod in listed ==>
              pod == c.podName || (c.migration.Some? && pod == c.migration.value.targetPodName) || pod in after
  {
    after := deleting;
    for k := 0 to |listed|
      invariant deleting <= after
      invariant forall pod :: pod in after - deleting ==> pod in listed && !Spared(c, pod)
      invariant forall j :: 0 <= j < k ==> Spared(c, listed[j]) || listed[j] in after
    {
      var pod := listed[k];
      if pod in after {
        continue;
      }
      if pod == c.podName || (c.migration.Some? && pod == c.migration.value.targetPodName) {
        continue;
      }
      var fault := *;
      if faults && fault {
        return after, false;                  // the delete failed
      }
      after := after + {pod};
    }
    ok := true;
  }
}
