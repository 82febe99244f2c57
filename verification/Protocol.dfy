/** The VM protocol: controller, daemons, pods and users acting on one versioned record.

    Every agent works on a copy it read some time ago. A status write carries the version of
    that copy and is rejected unless the version is still the newest one; effects outside the
    record (pods, control blocks) happen whether or not the write is accepted. */
module Protocol {
  import opened Wrappers
  import opened VmRecord
  import opened Daemon
  import opened Controller

  datatype ControllerPc =
    | ControllerIdle
    | ControllerRead(copy: Record, version: nat)
    | ControllerGc(committed: Record)

  datatype DaemonPc = DaemonPc(copy: Record, version: nat)

  /** A pod; one that is created again under the same name is another one, with another UID. */
  datatype Pod = Pod(uid: string, phase: PodPhase)

  datatype State = State(
    history: seq<Record>,                // committed versions, newest last
    controller: ControllerPc,
    daemons: map<string, DaemonPc>,      // the nodes whose daemon is inside a pass
    blocks: map<string, ControlBlock>,   // the nodes whose daemon holds a control block
    lastRead: map<string, nat>,          // the version each daemon read last
    controllerSeen: nat,                 // the version the controller read last
    pods: map<string, Pod>,              // by name
    marked: set<string>,                 // names of pods with a deletion timestamp
    born: set<string>,                   // the UIDs of all pods so far
    completed: map<string, string>)      // of the pods that completed, UID to name
  {
    predicate WellFormed() {
      |history| > 0
    }

    function Last(): Record
      requires WellFormed()
    {
      history[|history| - 1]
    }

    /** A pod that may still be executing the VM. */
    predicate Active(pod: string) {
      pod in pods && pods[pod].phase != PodSucceeded && pods[pod].phase != PodFailed
    }
  }

  datatype Step =
    | ReadByController(version: nat)
    | CreatePod(pod: string, uid: string)
    | MarkPod(pod: string)
    | CommitByController(cview: ControllerView)
    | GcPod(pod: string)
    | EndGc
    | RestartController
    | ReadByDaemon(node: string, version: nat)
    | FinishDaemon(node: string, dview: DaemonView)
    | RestartDaemon(node: string)
    | WritePhase(phase: VmPhase)
    | RequestMigration
    | ClearMigration
    | AdvancePod(pod: string, podPhase: PodPhase)
    | RemovePod(pod: string)

  ghost predicate Init(s: State) {
    && s.history == [Record(VmPhase.Unset, "", "", "", None)]
    && s.controller == ControllerIdle
    && s.daemons == map[] && s.blocks == map[] && s.lastRead == map[]
    && s.controllerSeen == 0 && s.pods == map[] && s.marked == {} && s.born == {} && s.completed == map[]
  }

  /** A versioned write. Writing the newest record back makes no new version. */
  function Write(history: seq<Record>, version: nat, r: Record): (h: seq<Record>)
    requires |history| > 0
    ensures history <= h && |h| <= |history| + 1
  {
    if version == |history| - 1 && r != history[version] then history + [r] else history
  }

  /** A read of a pod may be out of date, but it never invents a completed pod: the pod that was read, by
      its UID, had that name and did complete. */
  predicate HonestView(s: State, pod: string, v: PodView) {
    v.Found? && v.phase == PodSucceeded ==> v.uid in s.completed && s.completed[v.uid] == pod
  }

  /** The phases in which a pass deletes every pod of the VM before anything else. */
  predicate DeletesPods(c: Record) {
    c.phase.Unset? || c.phase.Succeeded? || c.phase.Failed?
  }

  predicate NoMigrationGoing(r: Record) {
    r.migration.None? || r.migration.value.phase.Terminal()
  }

  ghost predicate Enabled(s: State, step: Step) {
    s.WellFormed() &&
    match step
    case ReadByController(i) => s.controller.ControllerIdle? && i < |s.history|
    case CreatePod(p, uid) =>
      && s.controller.ControllerRead? && MayCreate(s.controller.copy, p)
      && p != "" && p !in s.pods && uid !in s.born
    case MarkPod(p) => s.controller.ControllerRead? && DeletesPods(s.controller.copy) && p in s.pods
    case CommitByController(v) =>
      && s.controller.ControllerRead?
      && HonestView(s, s.controller.copy.podName, v.vmPod)
    case GcPod(p) =>
      && s.controller.ControllerGc? && p != "" && p in s.pods && p !in s.marked
      && !Spared(s.controller.committed, p)
    case EndGc => s.controller.ControllerGc?
    case RestartController => true
    case ReadByDaemon(n, i) => n !in s.daemons && i < |s.history|
    case FinishDaemon(n, v) => n in s.daemons && HonestView(s, s.daemons[n].copy.podName, v.vmPod)
    case RestartDaemon(n) => true
    case WritePhase(p) => p in {VmPhase.Running, VmPhase.Paused, VmPhase.Resumed, VmPhase.SnapshotInProgress}
    case RequestMigration => NoMigrationGoing(s.Last())
    case ClearMigration => NoMigrationGoing(s.Last())
    case AdvancePod(p, ph) => p in s.pods && s.Active(p)
    case RemovePod(p) => p in s.pods
  }

  function FinishDaemonState(s: State, n: string, v: DaemonView): State
    requires s.WellFormed() && n in s.daemons
  {
    var pc := s.daemons[n];
    var r := DaemonPass(n, pc.copy, if n in s.blocks then Some(s.blocks[n]) else None, v);
    s.(history := Write(s.history, pc.version, r.record),
       daemons := s.daemons - {n},
       blocks := if r.block.Some? then s.blocks[n := r.block.value] else s.blocks - {n})
  }

  /** After `Status().Update`: a rejected write or a failed pass ends here, otherwise the
      controller goes on to collect pods with the copy it has just committed. */
  function CommitByControllerState(s: State, v: ControllerView): State
    requires s.WellFormed() && s.controller.ControllerRead?
  {
    var pc := s.controller;
    var r := ControllerPass(pc.copy, v);
    s.(history := Write(s.history, pc.version, r.record),
       controller := if pc.version == |s.history| - 1 && r.ok then ControllerGc(r.record) else ControllerIdle)
  }

  function Apply(s: State, step: Step): State
    requires Enabled(s, step)
  {
    var newest := |s.history| - 1;
    match step
    case ReadByController(i) => s.(controller := ControllerRead(s.history[i], i), controllerSeen := i)
    case CreatePod(p, uid) => s.(pods := s.pods[p := Pod(uid, PodPending)], born := s.born + {uid})
    case MarkPod(p) => s.(marked := s.marked + {p})
    case CommitByController(v) => CommitByControllerState(s, v)
    case GcPod(p) => s.(marked := s.marked + {p})
    case EndGc => s.(controller := ControllerIdle)
    case RestartController => s.(controller := ControllerIdle)
    case ReadByDaemon(n, i) =>
      s.(daemons := s.daemons[n := DaemonPc(s.history[i], i)], lastRead := s.lastRead[n := i])
    case FinishDaemon(n, v) => FinishDaemonState(s, n, v)
    case RestartDaemon(n) => s.(daemons := s.daemons - {n}, blocks := s.blocks - {n})
    case WritePhase(p) => s.(history := Write(s.history, newest, s.Last().(phase := p)))
    case RequestMigration => s.(history := Write(s.history, newest, s.Last().(migration := Some(REQUESTED))))
    case ClearMigration => s.(history := Write(s.history, newest, s.Last().(migration := None)))
    case AdvancePod(p, ph) =>
      s.(pods := s.pods[p := s.pods[p].(phase := ph)],
         completed := if ph == PodSucceeded then s.completed[s.pods[p].uid := p] else s.completed)
    case RemovePod(p) => s.(pods := s.pods - {p}, marked := s.marked - {p})
  }

  // ---------------------------------------------------------------- runs

  /** The states of a run: one more than its steps, each the effect of an enabled step. */
  ghost predicate IsRun(run: seq<State>, steps: seq<Step>) {
    && |run| == |steps| + 1
    && Init(run[0])
    && forall k :: 0 <= k < |steps| ==> Follows(run, steps, k)
  }

  ghost predicate Follows(run: seq<State>, steps: seq<Step>, k: nat)
    requires k < |steps| < |run|
  {
    Enabled(run[k], steps[k]) && run[k + 1] == Apply(run[k], steps[k])
  }

  // ---------------------------------------------------------------- invariant

  ghost predicate DaemonCopies(history: seq<Record>, daemons: map<string, DaemonPc>, lastRead: map<string, nat>) {
    forall n :: n in daemons ==>
      && daemons[n].version < |history| && daemons[n].copy == history[daemons[n].version]
      && n in lastRead && lastRead[n] == daemons[n].version
  }

  ghost predicate ControllerCopy(history: seq<Record>, pc: ControllerPc, seen: nat) {
    && seen < |history|
    && (pc.ControllerRead? ==> pc.version == seen && pc.copy == history[pc.version])
  }

  /** Every copy is a committed version. */
  ghost predicate CopiesAreCommitted(s: State) {
    && DaemonCopies(s.history, s.daemons, s.lastRead)
    && ControllerCopy(s.history, s.controller, s.controllerSeen)
  }

  /** A pod that completed is still completed wherever it still exists, and no two pods share a UID. */
  ghost predicate CompletedPodsStayCompleted(s: State) {
    && s.completed.Keys <= s.born
    && (forall p :: p in s.pods ==> s.pods[p].uid in s.born)
    && (forall p :: p in s.pods && s.pods[p].uid in s.completed ==>
          s.pods[p].phase == PodSucceeded && s.completed[s.pods[p].uid] == p)
    && (forall p, q :: p in s.pods && q in s.pods && s.pods[p].uid == s.pods[q].uid ==> p == q)
  }

  predicate SparedOrUnnamed(c: Record, pod: string) {
    pod == "" || Spared(c, pod)
  }

  /** While the controller collects pods, the newest record names only pods that the copy it
      committed spares, whatever was committed since. */
  ghost predicate GcSeesCurrentNames(s: State)
    requires s.WellFormed()
  {
    s.controller.ControllerGc? ==>
      && SparedOrUnnamed(s.controller.committed, s.Last().podName)
      && (s.Last().migration.Some? ==>
            SparedOrUnnamed(s.controller.committed, s.Last().migration.value.targetPodName))
  }

  ghost predicate Inv(s: State) {
    && s.WellFormed()
    && CopiesAreCommitted(s)
    && CompletedPodsStayCompleted(s)
    && GcSeesCurrentNames(s)
  }

  lemma InitInv(s: State)
    requires Init(s)
    ensures Inv(s)
  {
  }

  /** An accepted write was computed from the newest record. */
  lemma AcceptedWriteIsCurrent(history: seq<Record>, version: nat, r: Record)
    requires |history| > 0
    ensures var h := Write(history, version, r);
            h[|h| - 1] != history[|history| - 1] ==> version == |history| - 1 && h[|h| - 1] == r
  {
  }

  lemma CopiesWithMore(s: State, h: seq<Record>)
    requires CopiesAreCommitted(s) && s.history <= h
    ensures DaemonCopies(h, s.daemons, s.lastRead) && ControllerCopy(h, s.controller, s.controllerSeen)
  {
  }

  lemma CopiesStep(s: State, step: Step)
    requires s.WellFormed() && CopiesAreCommitted(s) && Enabled(s, step)
    ensures Apply(s, step).WellFormed() && CopiesAreCommitted(Apply(s, step))
  {
    var h := Apply(s, step).history;
    assert s.history <= h;
    CopiesWithMore(s, h);
  }

  lemma CompletedAfterAdvance(s: State, p: string, ph: PodPhase)
    requires CompletedPodsStayCompleted(s) && Enabled(s, AdvancePod(p, ph))
    ensures CompletedPodsStayCompleted(Apply(s, AdvancePod(p, ph)))
  {
  }

  lemma CompletedAfterCreate(s: State, p: string, uid: string)
    requires CompletedPodsStayCompleted(s) && Enabled(s, CreatePod(p, uid))
    ensures CompletedPodsStayCompleted(Apply(s, CreatePod(p, uid)))
  {
  }

  lemma CompletedStep(s: State, step: Step)
    requires CompletedPodsStayCompleted(s) && Enabled(s, step)
    ensures CompletedPodsStayCompleted(Apply(s, step))
  {
    match step
    case AdvancePod(p, ph) => CompletedAfterAdvance(s, p, ph);
    case CreatePod(p, uid) => CompletedAfterCreate(s, p, uid);
    case _ =>
  }

  lemma GcAfterDaemon(s: State, n: string, v: DaemonView)
    requires s.WellFormed() && CopiesAreCommitted(s) && GcSeesCurrentNames(s) && Enabled(s, FinishDaemon(n, v))
    ensures GcSeesCurrentNames(Apply(s, FinishDaemon(n, v)))
  {
    var pc := s.daemons[n];
    var block := if n in s.blocks then Some(s.blocks[n]) else None;
    PassMovesOwnerOnlyInHandover(n, pc.copy, block, v);
  }

  lemma GcStep(s: State, step: Step)
    requires s.WellFormed() && CopiesAreCommitted(s) && GcSeesCurrentNames(s) && Enabled(s, step)
    ensures Apply(s, step).WellFormed() && GcSeesCurrentNames(Apply(s, step))
  {
    match step
    case FinishDaemon(n, v) => GcAfterDaemon(s, n, v);
    case _ =>
  }

  /** Every step of every agent keeps the invariant. */
  lemma StepInv(s: State, step: Step)
    requires Inv(s) && Enabled(s, step)
    ensures Inv(Apply(s, step))
  {
    CopiesStep(s, step);
    CompletedStep(s, step);
    GcStep(s, step);
  }

  lemma {:induction false} RunInv(run: seq<State>, steps: seq<Step>, k: nat)
    requires IsRun(run, steps) && k < |run|
    ensures Inv(run[k])
  {
    if k == 0 {
      InitInv(run[0]);
    } else {
      RunInv(run, steps, k - 1);
      assert Follows(run, steps, k - 1);
      StepInv(run[k - 1], steps[k - 1]);
    }
  }
}
