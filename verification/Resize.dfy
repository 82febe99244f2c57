/** Vertical resize in two stages: the controller resizes the pod
    (internal/controller/virtualmachine_controller.go), then the daemon resizes the guest
    (pkg/daemon/vm_controller.go). The passes of both are here; ResizeProtocol has their interleavings. */
module Resize {
  import opened Wrappers
  import VmRecord
  import Daemon
  import Controller

  /** 256 MiB on top of the guest's memory. */
  const OVERHEAD: nat := 256 * 1024 * 1024

  datatype Phase = Running | PodResizeInProgress | ResizeInProgress

  /** Requests of the `vm-manager` container; an absent request is zero. */
  datatype Resources = Resources(cpu: nat, memory: nat)

  datatype Spec = Spec(vcpus: nat, memorySize: nat)

  datatype ResizeStatus = NoResize | InProgress | Infeasible

  /** `requested` is the container's spec, `actual` what the kubelet reports for it. */
  datatype Pod = Pod(requested: Resources, actual: Option<Resources>, resize: ResizeStatus)

  /** `asked`: a resize has been sent and the hypervisor has not finished it. */
  datatype Guest = Guest(vcpus: nat, ram: nat, asked: bool)

  function Desired(spec: Spec): Resources {
    Resources(spec.vcpus, spec.memorySize + OVERHEAD)
  }

  predicate Differs(current: Resources, spec: Spec) {
    current.cpu == 0 || current.memory == 0 || current != Desired(spec)
  }

  /** Allowed difference between the guest's memory and the spec: 5%. */
  function Tolerance(size: nat): nat {
    size / 20
  }

  predicate RamAccepted(size: nat, ram: nat) {
    (if ram < size then size - ram else ram - size) <= Tolerance(size)
  }

  predicate GuestMatches(spec: Spec, guest: Guest) {
    guest.vcpus == spec.vcpus && RamAccepted(spec.memorySize, guest.ram)
  }

  /** A guest matches exactly with the spec's number of CPUs and its memory within 5% of the spec's. */
  lemma MatchMeans(spec: Spec, guest: Guest)
    ensures GuestMatches(spec, guest) <==>
            guest.vcpus == spec.vcpus && 19 * spec.memorySize <= 20 * guest.ram <= 21 * spec.memorySize
  {
  }

  // ---------------------------------------------------------------- what a pass decides

  /** `checkAndSetResizePhase` of a Running VM; without reported resources it is an error. */
  function DetectorDecides(spec: Spec, pod: Pod): Phase {
    if pod.actual.Some? && Differs(pod.actual.value, spec) then PodResizeInProgress else Running
  }

  /** What `reconcileVMPodResize` makes of a pod. */
  function PodOutcome(spec: Spec, pod: Pod): Controller.PodResize {
    if pod.resize == InProgress then Controller.ResizeOngoing
    else if pod.resize == Infeasible then Controller.ResizeInfeasible
    else
      var current := if pod.actual.Some? then pod.actual.value else pod.requested;
      if Differs(current, spec) then Controller.ResizeIncomplete
      else if pod.actual.Some? then Controller.ResizeComplete
      else Controller.ResizeOngoing
  }

  function PodStageDecides(spec: Spec, pod: Pod): Phase {
    match PodOutcome(spec, pod)
    case ResizeInfeasible => Running
    case ResizeComplete => ResizeInProgress
    case _ => PodResizeInProgress
  }

  function PhaseOf(p: Phase): VmRecord.VmPhase {
    match p
    case Running => VmRecord.VmPhase.Running
    case PodResizeInProgress => VmRecord.VmPhase.PodResizeInProgress
    case ResizeInProgress => VmRecord.VmPhase.ResizeInProgress
  }

  /** The controller's pass over a VM in PodResizeInProgress, told what this pod amounts to, leaves the VM
      in the phase decided here, whatever else it meets; so the VM goes to the guest stage exactly when
      the pod reports the desired resources and no resize of it is open. */
  lemma PodStageIsTheControllers(spec: Spec, pod: Pod, c: VmRecord.Record, v: Controller.ControllerView)
    requires c.phase == VmRecord.VmPhase.PodResizeInProgress && v.vmPod.Found? && v.podResize == PodOutcome(spec, pod)
    ensures var r := Controller.ControllerPass(c, v).record;
            && r == c.(phase := PhaseOf(PodStageDecides(spec, pod)))
            && (r.phase == VmRecord.VmPhase.ResizeInProgress <==>
                  && pod.actual == Some(Resources(spec.vcpus, spec.memorySize + 268435456))
                  && pod.resize == NoResize && spec.vcpus > 0)
            && (r.phase == VmRecord.VmPhase.Running <==> pod.resize == Infeasible)
            && (r.phase == VmRecord.VmPhase.PodResizeInProgress || r.phase == VmRecord.VmPhase.ResizeInProgress
                || r.phase == VmRecord.VmPhase.Running)
  {
  }

  /** A resize is asked for exactly of a pod without an open one whose report, or whose requests while there is no
      report, are not the desired ones. */
  lemma AsksForResizeExactly(spec: Spec, pod: Pod)
    ensures PodOutcome(spec, pod) == Controller.ResizeIncomplete <==>
            var current := if pod.actual.Some? then pod.actual.value else pod.requested;
            pod.resize == NoResize && !(current.cpu == spec.vcpus > 0 && current.memory == spec.memorySize + 268435456)
  {
  }

  function GuestStageDecides(spec: Spec, guest: Guest): Phase {
    if GuestMatches(spec, guest) then Running else ResizeInProgress
  }

  /** The same for the daemon's pass over a VM in ResizeInProgress that its node owns: it ends the stage exactly
      when the guest has the number of CPUs of the spec, and its memory up to 5%. */
  lemma GuestStageIsTheDaemons(spec: Spec, guest: Guest, node: string, c: VmRecord.Record,
                               block: Option<Daemon.ControlBlock>, v: Daemon.DaemonView)
    requires c.phase == VmRecord.VmPhase.ResizeInProgress && c.nodeName == node != "" && c.migration.None?
    requires v.vmPod.Found? && !v.vmDeleting && v.guestMatchesSpec == GuestMatches(spec, guest)
    requires v.guest == VmRecord.GuestRunning || v.guest == VmRecord.GuestPaused
    ensures var r := Daemon.DaemonPass(node, c, block, v).record;
            && r == c.(phase := PhaseOf(GuestStageDecides(spec, guest)))
            && (r.phase == VmRecord.VmPhase.Running <==>
                guest.vcpus == spec.vcpus && 19 * spec.memorySize <= 20 * guest.ram <= 21 * spec.memorySize)
            && (r.phase != VmRecord.VmPhase.Running ==> r == c)
  {
    MatchMeans(spec, guest);
  }

  // ---------------------------------------------------------------- in place

  class ResizingVm {
    var phase: Phase
    var requested: Resources
    var actual: Option<Resources>
    var resize: ResizeStatus
    var guest: Guest

    function ThePod(): Pod
      reads this
    {
      Pod(requested, actual, resize)
    }

    method CheckAndSetResizePhase(spec: Spec) returns (err: bool)
      modifies this`phase
      ensures phase == if old(phase) == Running then DetectorDecides(spec, ThePod()) else old(phase)
      ensures old(phase) == Running && actual.Some? ==>
                (phase == Running <==> actual.value.cpu == spec.vcpus > 0 && actual.value.memory == spec.memorySize + 268435456)
      ensures err <==> old(phase) == Running && actual.None?
    {
      if phase != Running {
        return false;
      }
      if actual.None? {
        return true;
      }
      var cpuChanged := actual.value.cpu == 0 || actual.value.cpu != spec.vcpus;
      var memoryChanged := actual.value.memory == 0 || actual.value.memory != spec.memorySize + OVERHEAD;
      if cpuChanged || memoryChanged {
        phase := PodResizeInProgress;
      }
      return false;
    }

    /** `accepted` tells whether the API server took the resize request. */
    method ReconcileVmPodResize(spec: Spec, accepted: bool)
      requires phase == PodResizeInProgress
      modifies this`phase, this`requested
      ensures phase == PodStageDecides(spec, old(ThePod()))
      ensures requested == if accepted && PodOutcome(spec, old(ThePod())) == Controller.ResizeIncomplete then Desired(spec)
                           else old(requested)
      ensures requested != old(requested) ==> requested == Resources(spec.vcpus, spec.memorySize + 268435456)
    {
      if resize == InProgress {
        return;
      }
      if resize == Infeasible {
        phase := Running;
        return;
      }
      var desiredCpu, desiredMemory := spec.vcpus, spec.memorySize + OVERHEAD;
      var current := if actual.Some? then actual.value else requested;
      var needsPodResize := false;
      if current.cpu == 0 || current.cpu != desiredCpu {
        needsPodResize := true;
      }
      if current.memory == 0 || current.memory != desiredMemory {
        needsPodResize := true;
      }
      if needsPodResize {
        if accepted {
          requested := Resources(desiredCpu, desiredMemory);
        }
        return;
      }
      if actual.None? {
        return;
      }
      if actual.value.cpu == desiredCpu && actual.value.memory == desiredMemory {
        phase := ResizeInProgress;
      }
    }

    /** `accepted` tells whether the hypervisor took the request. */
    method ReconcileGuestResize(spec: Spec, accepted: bool)
      requires phase == ResizeInProgress
      modifies this`phase, this`guest
      ensures phase == GuestStageDecides(spec, old(guest))
      ensures phase == Running <==>
              guest.vcpus == spec.vcpus && 19 * spec.memorySize <= 20 * guest.ram <= 21 * spec.memorySize
      ensures guest == if accepted && phase != Running then old(guest).(asked := true) else old(guest)
    {
      var needsResize := false;
      if guest.vcpus != spec.vcpus {
        needsResize := true;
      }
      var memoryDiff := guest.ram - spec.memorySize;
      if memoryDiff < 0 {
        memoryDiff := -memoryDiff;
      }
      if memoryDiff > Tolerance(spec.memorySize) {
        needsResize := true;
      }
      if needsResize {
        if accepted {
          guest := guest.(asked := true);
        }
        return;
      }
      phase := Running;
    }
  }

  // ---------------------------------------------------------------- the memory bound

  /** The 5% tolerance keeps every accepted guest within the pod's memory exactly for the sizes whose
      5% is no more than the overhead, that is below 5 GiB and 20 bytes. */
  lemma AcceptedRamFitsPod(spec: Spec)
    ensures (forall ram: nat :: RamAccepted(spec.memorySize, ram) ==> ram <= Desired(spec).memory) <==>
            spec.memorySize < 5 * 1024 * 1024 * 1024 + 20
  {
    var most := spec.memorySize + Tolerance(spec.memorySize);
    assert RamAccepted(spec.memorySize, most);
  }

  // ---------------------------------------------------------------- resize and migration

  /** While the record has a migration, finished or not, a VM in ResizeInProgress stays there: no pass
      of the controller or of any daemon changes its record, unless the VM is being deleted. */
  lemma MigrationBlocksResize(c: VmRecord.Record, node: string, block: Option<Daemon.ControlBlock>,
                              dview: Daemon.DaemonView, cview: Controller.ControllerView)
    requires c.phase == VmRecord.VmPhase.ResizeInProgress && c.migration.Some? && !dview.vmDeleting
    ensures Controller.ControllerPass(c, cview).record == c
    ensures Daemon.DaemonPass(node, c, block, dview).record == c
  {
  }
}
