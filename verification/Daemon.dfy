/** One reconcile pass of a node's daemon over its copy of the record
    (pkg/daemon/vm_controller.go). Everything the pass learns from foreign calls is in
    `DaemonView`; what it decides is the new copy and the node's control block. */
module Daemon {
  import opened Wrappers
  import opened VmRecord

  /** The daemon's in-memory block for a VM: which halves of a migration it has started. */
  datatype ControlBlock = ControlBlock(sending: bool, receiving: bool)

  const NO_BLOCK := ControlBlock(false, false)

  datatype DaemonView = DaemonView(
    vmPod: PodView,
    vmDeleting: bool,
    memoryVolume: bool,
    guest: GuestState,
    guestMatchesSpec: bool,
    hotplugOk: bool,
    commandOk: bool,
    socketUp: bool,
    receiverUp: bool,
    relayUp: bool,
    sendFailed: bool,
    targetGuest: GuestState)

  datatype DaemonResult = DaemonResult(record: Record, block: Option<ControlBlock>)

  predicate ShouldReconcile(node: string, c: Record) {
    || (c.nodeName != "" && c.nodeName == node)
    || (c.migration.Some? && c.migration.value.targetNode != "" && c.migration.value.targetNode == node)
  }

  predicate ForgetsBlock(node: string, c: Record)
    requires c.migration.Some?
  {
    c.migration.value.phase.Terminal() || (c.MigrationIn(MigrationPhase.Sent) && c.nodeName == node)
  }

  /** The end of a migration pass that did not return early. */
  function Settle(node: string, c: Record, block: ControlBlock): DaemonResult
    requires c.migration.Some?
  {
    DaemonResult(c, if ForgetsBlock(node, c) then None else Some(block))
  }

  /** The record once the target daemon has taken the VM over. */
  function HandedOver(c: Record): Record
    requires c.migration.Some?
  {
    var m := c.migration.value;
    c.WithMigrationPhase(MigrationPhase.Succeeded)
    .(nodeName := m.targetNode, podName := m.targetPodName, podUid := m.targetPodUid)
  }

  /** A pass over a Running VM that is migrating. */
  function MigrationPass(node: string, c: Record, block: Option<ControlBlock>, v: DaemonView): DaemonResult
    requires c.migration.Some?
  {
    var m := c.migration.value;
    var cb := if block.Some? then block.value else NO_BLOCK;
    var same := DaemonResult(c, block);
    match m.phase
    case Scheduled =>
      if m.targetNode != node then Settle(node, c, cb)
      else if !v.socketUp || !v.receiverUp then
        DaemonResult(c.WithMigrationPhase(MigrationPhase.Failed), block)
      else if !v.relayUp || !v.hotplugOk then same
      else Settle(node, c.WithMigrationPhase(MigrationPhase.TargetReady), cb.(receiving := true))
    case TargetReady =>
      if c.nodeName != node then Settle(node, c, cb)
      else if !v.relayUp then same
      else Settle(node, c.WithMigrationPhase(MigrationPhase.Running), cb.(sending := true))
    case Running =>
      if c.nodeName != node then Settle(node, c, cb)
      else if v.vmPod.Found? && v.vmPod.phase == PodSucceeded then
        if !v.hotplugOk then same else Settle(node, c.WithMigrationPhase(MigrationPhase.Sent), cb)
      else if !cb.sending || v.sendFailed then Settle(node, c.WithMigrationPhase(MigrationPhase.Failed), cb)
      else same
    case Sent =>
      if m.targetNode != node then Settle(node, c, cb)
      else if v.targetGuest != GuestRunning then same
      else Settle(node, HandedOver(c), cb)
    case _ =>
      Settle(node, c, cb)
  }

  /** The VM phase after a pass over a VM that is not being migrated in phase Running. */
  function PhasePass(node: string, c: Record, v: DaemonView): VmPhase {
    var mine := c.migration.None? && c.nodeName == node;
    match c.phase
    case RestoreInProgress =>
      if v.commandOk then VmPhase.Resumed else c.phase
    case Scheduled =>
      if !v.hotplugOk then c.phase
      else if v.memoryVolume then VmPhase.RestoreInProgress
      else if v.guest == GuestRunning then VmPhase.Running
      else if v.guest == GuestPaused then VmPhase.Paused
      else if v.guest == GuestShutdown then VmPhase.Failed
      else c.phase
    case Resumed =>
      if mine && v.guest == GuestPaused && v.commandOk then VmPhase.Running else c.phase
    case ResizeInProgress =>
      if mine && (v.guest == GuestRunning || v.guest == GuestPaused) && v.guestMatchesSpec
      then VmPhase.Running else c.phase
    case Running =>
      if mine && (v.guest == GuestCreated || v.guest == GuestShutdown)
      then VmPhase.Succeeded else c.phase
    case _ =>
      c.phase
  }

  /** `chReconcile`: the copy and the control block as the pass leaves them. */
  function DaemonPass(node: string, c: Record, block: Option<ControlBlock>, v: DaemonView): DaemonResult {
    if !ShouldReconcile(node, c) || !v.vmPod.Found? then DaemonResult(c, block)
    else if v.vmDeleting then
      DaemonResult(if c.nodeName == node && v.commandOk then c.(phase := VmPhase.Succeeded) else c, block)
    else if c.phase == VmPhase.Running && c.migration.Some? then MigrationPass(node, c, block, v)
    else DaemonResult(c.(phase := PhasePass(node, c, v)), block)
  }

  /** A pass keeps everything of the migration but its phase, and moves the owner only in the
      handover: a Sent migration, finished by the node that the record names as its target. */
  ghost predicate MovesOwnerOnlyInHandover(node: string, c: Record, v: DaemonView, r: Record) {
    && r.migration.Some? == c.migration.Some?
    && (c.migration.Some? ==> r.migration.value.(phase := c.migration.value.phase) == c.migration.value)
    && (r.Owner() != c.Owner() ==>
          && c.phase == r.phase == VmPhase.Running
          && c.MigrationIn(MigrationPhase.Sent)
          && c.migration.value.targetNode == node
          && v.targetGuest == GuestRunning
          && r.nodeName == c.migration.value.targetNode
          && r.podName == c.migration.value.targetPodName
          && r.podUid == c.migration.value.targetPodUid
          && r.MigrationIn(MigrationPhase.Succeeded))
  }

  lemma MigrationPassMovesOwner(node: string, c: Record, block: Option<ControlBlock>, v: DaemonView)
    requires c.migration.Some? && c.phase == VmPhase.Running
    ensures MovesOwnerOnlyInHandover(node, c, v, MigrationPass(node, c, block, v).record)
  {
  }

  lemma PassMovesOwnerOnlyInHandover(node: string, c: Record, block: Option<ControlBlock>, v: DaemonView)
    ensures MovesOwnerOnlyInHandover(node, c, v, DaemonPass(node, c, block, v).record)
  {
    if c.phase == VmPhase.Running && c.migration.Some? {
      MigrationPassMovesOwner(node, c, block, v);
    }
  }

  // ---------------------------------------------------------------- what a pass comes to, outcome by outcome

  /** The node is the VM's or the migration's target, the VM's pod was found, and the VM is not being deleted. */
  predicate Acts(node: string, c: Record, v: DaemonView) {
    && node != "" && v.vmPod.Found? && !v.vmDeleting
    && (c.nodeName == node || (c.migration.Some? && c.migration.value.targetNode == node))
  }

  predicate Sending(block: Option<ControlBlock>) {
    block.Some? && block.value.sending
  }

  predicate Receiving(block: Option<ControlBlock>) {
    block.Some? && block.value.receiving
  }

  /** When a pass takes the migration of a Running VM to phase q. */
  predicate BringsMigration(node: string, c: Record, sending: bool, v: DaemonView, q: MigrationPhase)
    requires c.migration.Some?
  {
    var p := c.migration.value.phase;
    var source := c.nodeName == node;
    var target := c.migration.value.targetNode == node;
    var podDone := v.vmPod.Found? && v.vmPod.phase == PodSucceeded;
    && Acts(node, c, v) && c.phase == VmPhase.Running
    && match q
       case TargetReady => p.Scheduled? && target && v.socketUp && v.receiverUp && v.relayUp && v.hotplugOk
       case Running => p.TargetReady? && source && v.relayUp
       case Sent => p.Running? && source && podDone && v.hotplugOk
       case Succeeded => p.Sent? && target && v.targetGuest == GuestRunning
       case Failed =>
         || (p.Scheduled? && target && (!v.socketUp || !v.receiverUp))
         || (p.Running? && source && !podDone && (!sending || v.sendFailed))
       case NotSet | Pending | Scheduling | Scheduled => false
  }

  /** A pass moves the migration to another phase exactly when its view says so. */
  lemma MigrationOutcome(node: string, c: Record, block: Option<ControlBlock>, v: DaemonView, q: MigrationPhase)
    requires c.migration.Some?
    ensures var r := DaemonPass(node, c, block, v).record;
            && r.migration.Some?
            && (r.migration.value.phase == q != c.migration.value.phase <==> BringsMigration(node, c, Sending(block), v, q))
  {
    if Acts(node, c, v) && c.phase == VmPhase.Running {
      ActingOutcome(node, c, block, v, q);
    }
  }

  lemma ActingOutcome(node: string, c: Record, block: Option<ControlBlock>, v: DaemonView, q: MigrationPhase)
    requires c.migration.Some? && Acts(node, c, v) && c.phase == VmPhase.Running
    ensures var r := MigrationPass(node, c, block, v).record;
            && r.migration.Some?
            && (r.migration.value.phase == q != c.migration.value.phase <==> BringsMigration(node, c, Sending(block), v, q))
  {
  }

  /** When a pass takes the VM itself to phase q. */
  predicate BringsVm(node: string, c: Record, v: DaemonView, q: VmPhase) {
    var mine := c.migration.None? && c.nodeName == node;
    var here := Acts(node, c, v);
    var starts := here && c.phase == VmPhase.Scheduled && v.hotplugOk;
    match q
    case Running =>
      || (starts && !v.memoryVolume && v.guest == GuestRunning)
      || (here && mine && c.phase == VmPhase.Resumed && v.guest == GuestPaused && v.commandOk)
      || (here && mine && c.phase == VmPhase.ResizeInProgress && v.guest in {GuestRunning, GuestPaused} && v.guestMatchesSpec)
    case Paused => starts && !v.memoryVolume && v.guest == GuestPaused
    case Failed => starts && !v.memoryVolume && v.guest == GuestShutdown
    case RestoreInProgress => starts && v.memoryVolume
    case Resumed => here && c.phase == VmPhase.RestoreInProgress && v.commandOk
    case Succeeded =>
      || (here && mine && c.phase == VmPhase.Running && v.guest in {GuestCreated, GuestShutdown})
      || (v.vmDeleting && v.vmPod.Found? && node != "" && c.nodeName == node && v.commandOk && c.phase != VmPhase.Succeeded)
    case _ => false
  }

  lemma VmOutcome(node: string, c: Record, block: Option<ControlBlock>, v: DaemonView, q: VmPhase)
    ensures DaemonPass(node, c, block, v).record.phase == q != c.phase <==> BringsVm(node, c, v, q)
  {
    if c.phase == VmPhase.Running && c.migration.Some? {
      MigrationKeepsVm(node, c, block, v);
    } else if Acts(node, c, v) {
      ActingVm(node, c, v, q);
    }
  }

  lemma MigrationKeepsVm(node: string, c: Record, block: Option<ControlBlock>, v: DaemonView)
    requires c.migration.Some?
    ensures MigrationPass(node, c, block, v).record.phase == c.phase
  {
  }

  lemma ActingVm(node: string, c: Record, v: DaemonView, q: VmPhase)
    requires Acts(node, c, v) && (c.phase != VmPhase.Running || c.migration.None?)
    ensures PhasePass(node, c, v) == q != c.phase <==> BringsVm(node, c, v, q)
  {
  }

  /** When a pass forgets the control block: the migration is over, or the guest has left this node. A target
      that could not start receiving keeps what it had. */
  predicate Forgets(node: string, c: Record, sending: bool, v: DaemonView)
    requires c.migration.Some?
  {
    var p := c.migration.value.phase;
    && Acts(node, c, v) && c.phase == VmPhase.Running
    && (|| p.Terminal()
        || BringsMigration(node, c, sending, v, MigrationPhase.Sent)
        || BringsMigration(node, c, sending, v, MigrationPhase.Succeeded)
        || (p.Running? && BringsMigration(node, c, sending, v, MigrationPhase.Failed))
        || (p.Sent? && c.nodeName == node && c.migration.value.targetNode != node))
  }

  /** The migration waits for this node. */
  predicate WaitsFor(node: string, c: Record)
    requires c.migration.Some?
  {
    match c.migration.value.phase
    case Scheduled | Sent => c.migration.value.targetNode == node
    case TargetReady | Running => c.nodeName == node
    case _ => false
  }

  /** The halves of a migration that a daemon has started are those of its block, with the one it starts in this
      pass, unless the pass forgets them. A daemon without a block gets one in every pass over a migration that
      does not wait for it, and in those that start a half. */
  lemma BlockOutcome(node: string, c: Record, block: Option<ControlBlock>, v: DaemonView)
    requires c.migration.Some?
    ensures var after := DaemonPass(node, c, block, v).block;
            var sends := BringsMigration(node, c, Sending(block), v, MigrationPhase.Running);
            var receives := BringsMigration(node, c, Sending(block), v, MigrationPhase.TargetReady);
            if Forgets(node, c, Sending(block), v) then after == None
            else
              && (Sending(after) <==> Sending(block) || sends) && (Receiving(after) <==> Receiving(block) || receives)
              && (after.Some? <==>
                    block.Some? || sends || receives || (Acts(node, c, v) && c.phase == VmPhase.Running && !WaitsFor(node, c)))
  {
    if Acts(node, c, v) && c.phase == VmPhase.Running {
      ActingBlock(node, c, block, v);
    }
  }

  lemma ActingBlock(node: string, c: Record, block: Option<ControlBlock>, v: DaemonView)
    requires c.migration.Some? && Acts(node, c, v) && c.phase == VmPhase.Running
    ensures var after := MigrationPass(node, c, block, v).block;
            var sends := BringsMigration(node, c, Sending(block), v, MigrationPhase.Running);
            var receives := BringsMigration(node, c, Sending(block), v, MigrationPhase.TargetReady);
            if Forgets(node, c, Sending(block), v) then after == None
            else
              && (Sending(after) <==> Sending(block) || sends) && (Receiving(after) <==> Receiving(block) || receives)
              && (after.Some? <==> block.Some? || sends || receives || !WaitsFor(node, c))
  {
  }

  // ---------------------------------------------------------------- in place

  /** The daemon of a node, with the control blocks it holds for the VMs it is migrating. */
  class VmReconciler {
    const node: string
    var migrationControlBlocks: map<string, ControlBlock>

    function Block(uid: string): Option<ControlBlock>
      reads this
    {
      if uid in migrationControlBlocks then Some(migrationControlBlocks[uid]) else None
    }

    /** The cases of the migration's phase: `returned` tells that the pass ended there. */
    method MigrationCases(status: VmStatus, block: ControlBlock, v: DaemonView, ghost held: Option<ControlBlock>)
      returns (returned: bool, cb: ControlBlock)
      requires status.migration != null && block == if held.Some? then held.value else NO_BLOCK
      modifies status, status.migration
      ensures MigrationPass(node, old(status.Value()), held, v) ==
              if returned then DaemonResult(status.Value(), held) else Settle(node, status.Value(), cb)
    {
      var m := status.migration;
      returned, cb := false, block;
      match m.phase
      case Scheduled =>
        if m.targetNode == node {
          if !v.socketUp {
            m.phase := MigrationPhase.Failed;
            return true, cb;
          }
          cb := cb.(receiving := true);
          if !v.receiverUp {
            m.phase := MigrationPhase.Failed;
            return true, cb;
          }
          if !v.relayUp {
            return true, cb;
          }
          if !v.hotplugOk {
            return true, cb;
          }
          m.phase := MigrationPhase.TargetReady;
        }
      case TargetReady =>
        if status.nodeName == node {
          if !v.relayUp {
            return true, cb;
          }
          cb := cb.(sending := true);
          m.phase := MigrationPhase.Running;
        }
      case Running =>
        if status.nodeName == node {
          if v.vmPod.Found? && v.vmPod.phase == PodSucceeded {
            if !v.hotplugOk {
              return true, cb;
            }
            m.phase := MigrationPhase.Sent;
          } else if !cb.sending {
            m.phase := MigrationPhase.Failed;
          } else if v.sendFailed {
            m.phase := MigrationPhase.Failed;
          } else {
            return true, cb;
          }
        }
      case Sent =>
        if m.targetNode == node {
          if v.targetGuest != GuestRunning {
            return true, cb;
          }
          m.phase := MigrationPhase.Succeeded;
          status.nodeName := m.targetNode;
          status.podName := m.targetPodName;
          status.podUid := m.targetPodUid;
        }
      case _ =>
    }

    /** The Running case of a migrating VM, which is done under the daemon's mutex. */
    method ReconcileMigration(status: VmStatus, uid: string, v: DaemonView)
      requires status.migration != null
      modifies this, status, status.migration
      ensures var r := MigrationPass(node, old(status.Value()), old(Block(uid)), v);
              status.Value() == r.record && Block(uid) == r.block
      ensures forall u :: u != uid ==> Block(u) == old(Block(u))
    {
      var block := if uid in migrationControlBlocks then migrationControlBlocks[uid] else NO_BLOCK;
      var returned, cb := MigrationCases(status, block, v, Block(uid));
      if returned {
        return;
      }
      var m := status.migration;
      migrationControlBlocks := migrationControlBlocks[uid := cb];
      if m.phase == MigrationPhase.Failed || m.phase == MigrationPhase.Succeeded
         || (m.phase == MigrationPhase.Sent && status.nodeName == node) {
        migrationControlBlocks := migrationControlBlocks - {uid};
      }
    }

    /** `chReconcile`. */
    method Reconcile(status: VmStatus, uid: string, v: DaemonView)
      modifies this, status, status.migration
      ensures var r := DaemonPass(node, old(status.Value()), old(Block(uid)), v);
              status.Value() == r.record && Block(uid) == r.block
      ensures forall u :: u != uid ==> Block(u) == old(Block(u))
    {
      var shouldReconcile := (status.nodeName != "" && status.nodeName == node)
        || (status.migration != null && status.migration.targetNode != "" && status.migration.targetNode == node);
      if !shouldReconcile || !v.vmPod.Found? {
        return;
      }
      if v.vmDeleting {
        if status.nodeName == node && v.commandOk {
          status.phase := VmPhase.Succeeded;
        }
        return;
      }
      if status.phase == VmPhase.Running && status.migration != null {
        ReconcileMigration(status, uid, v);
      } else {
        ReconcilePhase(status, v);
      }
    }

    /** The other cases of the VM's phase. */
    method ReconcilePhase(status: VmStatus, v: DaemonView)
      requires status.phase != VmPhase.Running || status.migration == null
      modifies status`phase
      ensures status.phase == PhasePass(node, old(status.Value()), v)
    {
      match status.phase
      case RestoreInProgress =>
        if v.commandOk {
          status.phase := VmPhase.Resumed;
        }
      case Scheduled =>
        if !v.hotplugOk {
          return;
        }
        if v.memoryVolume {
          status.phase := VmPhase.RestoreInProgress;
          return;
        }
        match v.guest {
          case GuestRunning => status.phase := VmPhase.Running;
          case GuestPaused => status.phase := VmPhase.Paused;
          case GuestShutdown => status.phase := VmPhase.Failed;
          case _ =>
        }
      case Resumed =>
        if status.migration == null {
          if status.nodeName != node {
            return;
          }
          if v.guest == GuestPaused {
            if !v.commandOk {
              return;
            }
            status.phase := VmPhase.Running;
          }
        }
      case ResizeInProgress =>
        if status.migration == null {
          if status.nodeName != node {
            return;
          }
          if v.guest != GuestRunning && v.guest != GuestPaused {
            return;
          }
          if !v.guestMatchesSpec {
            return;
          }
          status.phase := VmPhase.Running;
        }
      case Running =>
        if status.nodeName != node {
          return;
        }
        if v.guest == GuestCreated || v.guest == GuestShutdown {
          status.phase := VmPhase.Succeeded;
        }
      case _ =>
    }
  }
}
