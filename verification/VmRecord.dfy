/** The part of a VirtualMachine's status that its three kinds of agent share: the cluster
    controller, the daemon of the node that runs the VM, and the daemon of the node the VM
    is migrating to. */
module VmRecord {
  import opened Wrappers

  datatype VmPhase =
    | Unset
    | Pending
    | Scheduling
    | Scheduled
    | Running
    | Succeeded
    | Failed
    | Unknown
    | PodResizeInProgress
    | ResizeInProgress
    | Paused
    | Resumed
    | SnapshotInProgress
    | RestoreInProgress

  datatype MigrationPhase =
    | NotSet
    | Pending
    | Scheduling
    | Scheduled
    | TargetReady
    | Running
    | Sent
    | Succeeded
    | Failed
  {
    predicate Terminal() {
      Succeeded? || Failed?
    }
  }

  datatype Migration = Migration(
    phase: MigrationPhase,
    targetPodName: string,
    targetPodUid: string,
    targetNode: string)

  datatype Record = Record(
    phase: VmPhase,
    nodeName: string,
    podName: string,
    podUid: string,
    migration: Option<Migration>)
  {
    predicate MigrationIn(p: MigrationPhase) {
      migration.Some? && migration.value.phase == p
    }

    /** Who owns the guest: the three fields a handover moves together. */
    function Owner(): (string, string, string) {
      (nodeName, podName, podUid)
    }

    function WithMigrationPhase(p: MigrationPhase): Record
      requires migration.Some?
    {
      this.(migration := Some(migration.value.(phase := p)))
    }
  }

  /** The migration a user asks for: nothing is chosen yet. */
  const REQUESTED := Migration(MigrationPhase.NotSet, "", "", "")

  datatype PodPhase = PodPending | PodRunning | PodSucceeded | PodFailed | PodUnknown

  /** What a client's read of a pod gave; a pod that the VM does not control counts as missing. */
  datatype PodView = ReadError | NotFound | Found(phase: PodPhase, uid: string, node: string)

  /** What `VmInfo` on a hypervisor socket answered. */
  datatype GuestState =
    | GuestUnreachable
    | GuestNotCreated
    | GuestCreated
    | GuestRunning
    | GuestPaused
    | GuestShutdown

  // ---------------------------------------------------------------- the agents' copies

  /** An agent works on its own copy of the record in place. */
  class MigrationStatus {
    var phase: MigrationPhase
    var targetPodName: string
    var targetPodUid: string
    var targetNode: string

    function Value(): Migration
      reads this
    {
      Migration(phase, targetPodName, targetPodUid, targetNode)
    }
  }

  class VmStatus {
    var phase: VmPhase
    var nodeName: string
    var podName: string
    var podUid: string
    const migration: MigrationStatus?

    function Value(): Record
      reads this, migration
    {
      Record(phase, nodeName, podName, podUid, if migration == null then None else Some(migration.Value()))
    }
  }
}
