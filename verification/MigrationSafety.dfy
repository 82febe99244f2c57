/** What every run of the VM protocol keeps: who may own the guest, which pods the garbage
    collector may take, how a migration moves through its phases, and when the daemons'
    control blocks are gone. */
module MigrationSafety {
  import opened Wrappers
  import opened VmRecord
  import opened Daemon
  import opened Controller
  import opened Protocol

  lemma StepGrows(s: State, step: Step)
    requires Enabled(s, step)
    ensures s.history <= Apply(s, step).history
  {
  }

  /** No pod completes twice, so what is known about a completed pod stays. */
  lemma CompletedGrows(s: State, step: Step)
    requires Inv(s) && Enabled(s, step)
    ensures forall uid :: uid in s.completed ==> uid in Apply(s, step).completed && Apply(s, step).completed[uid] == s.completed[uid]
  {
  }

  lemma {:induction false} HistoryGrows(run: seq<State>, steps: seq<Step>, i: nat, j: nat)
    requires IsRun(run, steps) && i <= j < |run|
    ensures run[i].history <= run[j].history
    decreases j
  {
    if i < j {
      HistoryGrows(run, steps, i, j - 1);
      assert Follows(run, steps, j - 1);
      StepGrows(run[j - 1], steps[j - 1]);
    }
  }

  // ---------------------------------------------------------------- the phases of a migration

  datatype Role = ClusterController | SourceDaemon | TargetDaemon | Nobody

  /** The one role that may take a migration out of a phase. */
  function RoleLeaving(p: MigrationPhase): Role {
    match p
    case NotSet | Pending | Scheduling => ClusterController
    case Scheduled | Sent => TargetDaemon
    case TargetReady | Running => SourceDaemon
    case Succeeded | Failed => Nobody
  }

  predicate LegalEdge(p: MigrationPhase, q: MigrationPhase) {
    match p
    case NotSet | Pending => q.Scheduling?
    case Scheduling => q.Scheduled? || q.Failed?
    case Scheduled => q.TargetReady? || q.Failed?
    case TargetReady => q.Running?
    case Running => q.Sent? || q.Failed?
    case Sent => q.Succeeded?
    case Succeeded | Failed => false
  }

  predicate Plays(step: Step, role: Role, r: Record)
    requires r.migration.Some?
  {
    match role
    case ClusterController => step.CommitByController?
    case SourceDaemon => step.FinishDaemon? && step.node == r.nodeName
    case TargetDaemon => step.FinishDaemon? && step.node == r.migration.value.targetNode
    case Nobody => false
  }

  /** The changes one daemon pass can make to the migration phase, and exactly when it makes them. */
  ghost predicate DaemonEdge(n: string, c: Record, block: Option<ControlBlock>, v: DaemonView, r: Record) {
    && r.migration.Some? == c.migration.Some?
    && (c.migration.Some? && r.migration.value.phase != c.migration.value.phase ==>
          && LegalEdge(c.migration.value.phase, r.migration.value.phase)
          && Plays(FinishDaemon(n, v), RoleLeaving(c.migration.value.phase), c)
          && (r.migration.value.phase.Sent? ==>
                v.vmPod.Found? && v.vmPod.phase == PodSucceeded && r.podName == c.podName))
    && (c.migration.Some? ==> forall q ::
          r.migration.value.phase == q != c.migration.value.phase <==> Daemon.BringsMigration(n, c, Sending(block), v, q))
  }

  lemma DaemonPassEdges(n: string, c: Record, block: Option<ControlBlock>, v: DaemonView)
    ensures DaemonEdge(n, c, block, v, DaemonPass(n, c, block, v).record)
  {
    PassMovesOwnerOnlyInHandover(n, c, block, v);
    if c.migration.Some? {
      forall q
        ensures DaemonPass(n, c, block, v).record.migration.value.phase == q != c.migration.value.phase <==>
                Daemon.BringsMigration(n, c, Sending(block), v, q)
      {
        Daemon.MigrationOutcome(n, c, block, v, q);
      }
      assert Daemon.BringsMigration(n, c, Sending(block), v, DaemonPass(n, c, block, v).record.migration.value.phase) ||
             DaemonPass(n, c, block, v).record.migration.value.phase == c.migration.value.phase;
    }
  }

  /** The changes one controller pass can make to the migration, and exactly when it makes them. */
  ghost predicate ControllerEdge(c: Record, v: ControllerView, r: Record) {
    && r.migration.Some? == c.migration.Some?
    && (c.migration.Some? && r.migration.value.phase != c.migration.value.phase ==>
          && LegalEdge(c.migration.value.phase, r.migration.value.phase)
          && RoleLeaving(c.migration.value.phase) == ClusterController)
    && (c.migration.Some? ==>
          && Chooses(c, v, r.migration.value)
          && forall q ::
               r.migration.value.phase == q != c.migration.value.phase <==> Controller.BringsMigration(c, v, q))
  }

  lemma ControllerPassEdges(c: Record, v: ControllerView)
    ensures var r := ControllerPass(c, v).record;
            && ControllerEdge(c, v, r)
            && (c.phase != VmPhase.Pending ==> r.podName == c.podName)
            && (c.phase == VmPhase.Running ==> r.Owner() == c.Owner())
  {
    Controller.VmOutcome(c, v, c.phase);
    if c.migration.Some? {
      forall q
        ensures ControllerPass(c, v).record.migration.Some?
        ensures ControllerPass(c, v).record.migration.value.phase == q != c.migration.value.phase <==>
                Controller.BringsMigration(c, v, q)
      {
        Controller.MigrationOutcome(c, v, q);
      }
      Controller.MigrationOutcome(c, v, ControllerPass(c, v).record.migration.value.phase);
    } else {
      NoMigrationComes(c, v);
    }
  }

  lemma NoMigrationComes(c: Record, v: ControllerView)
    requires c.migration.None?
    ensures ControllerPass(c, v).record.migration.None?
  {
  }

  // ---------------------------------------------------------------- garbage collection

  /** The pods the garbage collector takes are never the ones the newest record names, even
      when another agent committed between the controller's own write and the delete. */
  lemma GcSparesNamedPods(run: seq<State>, steps: seq<Step>, k: nat)
    requires IsRun(run, steps) && k < |steps| && steps[k].GcPod?
    ensures Inv(run[k])
    ensures steps[k].pod != run[k].Last().podName
    ensures run[k].Last().migration.Some? ==> steps[k].pod != run[k].Last().migration.value.targetPodName
  {
    RunInv(run, steps, k);
    assert Follows(run, steps, k);
  }

  // ---------------------------------------------------------------- handover

  /** In a Sent migration a pod of the name the record calls its own has completed. */
  ghost predicate SentMeansSourceDone(s: State)
    requires s.WellFormed()
  {
    s.Last().MigrationIn(MigrationPhase.Sent) ==> s.Last().podName in s.completed.Values
  }

  lemma CompletedNamesStay(s: State, step: Step)
    requires Inv(s) && Enabled(s, step)
    ensures s.completed.Values <= Apply(s, step).completed.Values
  {
    CompletedGrows(s, step);
    forall name | name in s.completed.Values
      ensures name in Apply(s, step).completed.Values
    {
      var uid :| uid in s.completed && s.completed[uid] == name;
      assert Apply(s, step).completed[uid] == name;
    }
  }

  lemma SentByDaemon(s: State, n: string, v: DaemonView)
    requires Inv(s) && Enabled(s, FinishDaemon(n, v)) && SentMeansSourceDone(s)
    ensures SentMeansSourceDone(FinishDaemonState(s, n, v))
  {
    var pc := s.daemons[n];
    var block := if n in s.blocks then Some(s.blocks[n]) else None;
    var r := DaemonPass(n, pc.copy, block, v).record;
    PassToSent(n, pc.copy, block, v);
    WrittenOrKept(s.history, pc.version, r);
    SentWrite(s, FinishDaemonState(s, n, v), pc.copy, r, v.vmPod);
  }

  /** A write that leaves a migration Sent, by a pass that saw this pod. */
  lemma SentWrite(s: State, s': State, c: Record, r: Record, pod: PodView)
    requires s.WellFormed() && s'.WellFormed() && SentMeansSourceDone(s) && s'.completed == s.completed
    requires s'.Last() == s.Last() || (c == s.Last() && s'.Last() == r)
    requires HonestView(s, c.podName, pod)
    requires r.MigrationIn(MigrationPhase.Sent) ==>
               && r.podName == c.podName
               && (c.MigrationIn(MigrationPhase.Sent) || (pod.Found? && pod.phase == PodSucceeded))
    ensures SentMeansSourceDone(s')
  {
    if pod.Found? && pod.phase == PodSucceeded {
      assert s.completed[pod.uid] == c.podName;
    }
  }

  /** What a pass that leaves a migration Sent has seen. */
  lemma PassToSent(n: string, c: Record, block: Option<ControlBlock>, v: DaemonView)
    ensures var r := DaemonPass(n, c, block, v).record;
            r.MigrationIn(MigrationPhase.Sent) ==>
              && r.podName == c.podName
              && (c.MigrationIn(MigrationPhase.Sent) || (v.vmPod.Found? && v.vmPod.phase == PodSucceeded))
  {
    PassMovesOwnerOnlyInHandover(n, c, block, v);
    DaemonPassEdges(n, c, block, v);
  }

  lemma SentByController(s: State, v: ControllerView)
    requires Inv(s) && Enabled(s, CommitByController(v)) && SentMeansSourceDone(s)
    requires s.Last().phase != VmPhase.Pending
    ensures SentMeansSourceDone(CommitByControllerState(s, v))
  {
    var pc := s.controller;
    ControllerPassEdges(pc.copy, v);
    AcceptedWriteIsCurrent(s.history, pc.version, ControllerPass(pc.copy, v).record);
  }

  lemma SentMeansSourceDoneStep(s: State, step: Step)
    requires Inv(s) && Enabled(s, step) && SentMeansSourceDone(s)
    requires s.Last().phase != VmPhase.Pending
    ensures Apply(s, step).WellFormed() && SentMeansSourceDone(Apply(s, step))
  {
    CompletedNamesStay(s, step);
    match step
    case FinishDaemon(n, v) => SentByDaemon(s, n, v);
    case CommitByController(v) => SentByController(s, v);
    case _ =>
  }

  /** No committed state from `a` to `b` puts the VM back to Pending, where it would get a new
      pod. A VM that stays Running is one case of this. */
  ghost predicate NotRescheduled(run: seq<State>, a: nat, b: nat)
    requires a <= b < |run|
  {
    forall k :: a <= k <= b ==> run[k].WellFormed() && run[k].Last().phase != VmPhase.Pending
  }

  lemma {:induction false} SourceDoneThroughout(run: seq<State>, steps: seq<Step>, a: nat, b: nat)
    requires IsRun(run, steps) && a <= b < |run| && NotRescheduled(run, a, b)
    requires !run[a].Last().MigrationIn(MigrationPhase.Sent)
    ensures Inv(run[b]) && SentMeansSourceDone(run[b])
    decreases b
  {
    if a == b {
      RunInv(run, steps, b);
    } else {
      SourceDoneThroughout(run, steps, a, b - 1);
      assert Follows(run, steps, b - 1);
      StepInv(run[b - 1], steps[b - 1]);
      SentMeansSourceDoneStep(run[b - 1], steps[b - 1]);
    }
  }

  lemma ControllerKeepsOwner(s: State, step: Step)
    requires Inv(s) && Enabled(s, step) && s.Last().phase == VmPhase.Running
    ensures step.CommitByController? ==> Apply(s, step).WellFormed() && Apply(s, step).Last().Owner() == s.Last().Owner()
  {
    if step.CommitByController? {
      var c := s.controller.copy;
      ControllerPassEdges(c, step.cview);
      AcceptedWriteIsCurrent(s.history, s.controller.version, ControllerPass(c, step.cview).record);
    }
  }

  predicate TargetOwns(m: Migration, r: Record) {
    && r.nodeName == m.targetNode && r.podName == m.targetPodName && r.podUid == m.targetPodUid
    && r.phase == VmPhase.Running && r.migration == Some(m.(phase := MigrationPhase.Succeeded))
  }

  lemma DaemonMovesOwner(s: State, step: Step)
    requires Inv(s) && Enabled(s, step) && s.Last().phase == VmPhase.Running
    ensures step.FinishDaemon? ==>
              && Apply(s, step).WellFormed()
              && (Apply(s, step).Last().Owner() != s.Last().Owner() ==>
                    && s.Last().MigrationIn(MigrationPhase.Sent) && step.node == s.Last().migration.value.targetNode
                    && TargetOwns(s.Last().migration.value, Apply(s, step).Last()))
  {
    if step.FinishDaemon? {
      var n, v := step.node, step.dview;
      var pc := s.daemons[n];
      var block := if n in s.blocks then Some(s.blocks[n]) else None;
      PassMovesOwnerOnlyInHandover(n, pc.copy, block, v);
      AcceptedWriteIsCurrent(s.history, pc.version, DaemonPass(n, pc.copy, block, v).record);
    }
  }

  /** The only step that moves the owner of a Running VM. */
  lemma OwnerMovesByTargetDaemon(s: State, step: Step)
    requires Inv(s) && Enabled(s, step) && s.Last().phase == VmPhase.Running
    requires Apply(s, step).WellFormed() && Apply(s, step).Last().Owner() != s.Last().Owner()
    ensures step.FinishDaemon?
    ensures s.Last().MigrationIn(MigrationPhase.Sent) && step.node == s.Last().migration.value.targetNode
    ensures var m, r := s.Last().migration.value, Apply(s, step).Last();
            && r.nodeName == m.targetNode && r.podName == m.targetPodName && r.podUid == m.targetPodUid
            && r.phase == VmPhase.Running && r.migration == Some(m.(phase := MigrationPhase.Succeeded))
  {
    ControllerKeepsOwner(s, step);
    DaemonMovesOwner(s, step);
  }

  /** The step in which a pod completed. */
  lemma {:induction false} WhenCompleted(run: seq<State>, steps: seq<Step>, k: nat, uid: string) returns (c: nat)
    requires IsRun(run, steps) && k < |run| && uid in run[k].completed
    ensures c < k && steps[c] == AdvancePod(run[k].completed[uid], PodSucceeded)
    ensures run[k].completed[uid] in run[c].pods && run[c].pods[run[k].completed[uid]].uid == uid && uid !in run[c].completed
  {
    assert Follows(run, steps, k - 1);
    RunInv(run, steps, k - 1);
    if uid in run[k - 1].completed {
      CompletedGrows(run[k - 1], steps[k - 1]);
      c := WhenCompleted(run, steps, k - 1, uid);
    } else {
      c := k - 1;
    }
  }

  /** No pod is created under this name from step a to before step b. */
  ghost predicate NotRecreated(steps: seq<Step>, a: nat, b: nat, pod: string)
    requires b <= |steps|
  {
    forall k :: a <= k < b ==> !(steps[k].CreatePod? && steps[k].pod == pod)
  }

  lemma StaysInactive(s: State, step: Step, pod: string)
    requires Enabled(s, step) && !s.Active(pod) && !(step.CreatePod? && step.pod == pod)
    ensures !Apply(s, step).Active(pod)
  {
  }

  /** A pod that completed does not execute again, unless another one is created under its name. */
  lemma {:induction false} CompletedPodIsInactive(run: seq<State>, steps: seq<Step>, c: nat, later: nat, pod: string)
    requires IsRun(run, steps) && c < later < |run| && steps[c] == AdvancePod(pod, PodSucceeded)
    requires NotRecreated(steps, c, later, pod)
    ensures !run[later].Active(pod)
    decreases later
  {
    assert Follows(run, steps, later - 1);
    if c < later - 1 {
      CompletedPodIsInactive(run, steps, c, later - 1, pod);
      StaysInactive(run[later - 1], steps[later - 1], pod);
    }
  }

  /** Handover safety. Take any run and any stretch of it that begins before the migration is
      Sent and in which the VM is not put back to Pending. If the owner of the Running VM
      changes at the end of the stretch, then the daemon of the target node did it, in the
      step from Sent to Succeeded, moving node, pod name and pod UID together; and a pod of the name
      that owned the guest had completed, at step c. Unless another pod is created under that name
      after it, no pod of that name executes then or at any later time. */
  lemma HandoverSafety(run: seq<State>, steps: seq<Step>, a: nat, b: nat, later: nat) returns (c: nat)
    requires IsRun(run, steps) && a <= b < later < |run| && NotRescheduled(run, a, b)
    requires !run[a].Last().MigrationIn(MigrationPhase.Sent)
    requires run[b].Last().phase == VmPhase.Running
    requires run[b + 1].WellFormed() && run[b + 1].Last().Owner() != run[b].Last().Owner()
    ensures run[b].Last().MigrationIn(MigrationPhase.Sent)
    ensures steps[b].FinishDaemon? && steps[b].node == run[b].Last().migration.value.targetNode
    ensures var m, r := run[b].Last().migration.value, run[b + 1].Last();
            && r.nodeName == m.targetNode && r.podName == m.targetPodName && r.podUid == m.targetPodUid
            && r.phase == VmPhase.Running && r.migration == Some(m.(phase := MigrationPhase.Succeeded))
    ensures c < b && steps[c] == AdvancePod(run[b].Last().podName, PodSucceeded)
    ensures run[b].Last().podName in run[c].pods && run[c].pods[run[b].Last().podName].uid !in run[c].completed
    ensures NotRecreated(steps, c, later, run[b].Last().podName) ==> !run[later].Active(run[b].Last().podName)
  {
    SourceDoneThroughout(run, steps, a, b);
    assert Follows(run, steps, b);
    StepInv(run[b], steps[b]);
    OwnerMovesByTargetDaemon(run[b], steps[b]);
    var pod := run[b].Last().podName;
    var uid :| uid in run[b].completed && run[b].completed[uid] == pod;
    c := WhenCompleted(run, steps, b, uid);
    if NotRecreated(steps, c, later, pod) {
      CompletedPodIsInactive(run, steps, c, later, pod);
    }
  }

  // ---------------------------------------------------------------- a controller whose reads do not go back

  /** The controller never reads an older version than before. */
  ghost predicate ControllerReadsForward(run: seq<State>) {
    forall k :: 0 <= k < |run| - 1 ==> SeenAdvances(run, k)
  }

  ghost predicate SeenAdvances(run: seq<State>, k: nat)
    requires k < |run| - 1
  {
    run[k].controllerSeen <= run[k + 1].controllerSeen
  }

  lemma {:induction false} SeenGrows(run: seq<State>, a: nat, b: nat)
    requires ControllerReadsForward(run) && a <= b < |run|
    ensures run[a].controllerSeen <= run[b].controllerSeen
    decreases b
  {
    if a < b {
      SeenGrows(run, a, b - 1);
      assert SeenAdvances(run, b - 1);
    }
  }

  /** The copy the controller has at step k is a version it can still read since a. */
  lemma CopySince(run: seq<State>, steps: seq<Step>, a: nat, k: nat, b: nat)
    requires IsRun(run, steps) && ControllerReadsForward(run) && a <= k < b < |run|
    requires run[k].controller.ControllerRead?
    ensures run[a].controllerSeen <= run[k].controller.version < |run[b].history|
    ensures run[k].controller.copy == run[b].history[run[k].controller.version]
  {
    RunInv(run, steps, k);
    SeenGrows(run, a, k);
    HistoryGrows(run, steps, k, b);
  }

  /** If no version that it can still read lets it, the controller creates no pod of this name. */
  lemma NoRecreation(run: seq<State>, steps: seq<Step>, a: nat, b: nat, pod: string)
    requires IsRun(run, steps) && ControllerReadsForward(run) && a <= b < |run|
    requires forall i :: run[a].controllerSeen <= i < |run[b].history| ==> !MayCreate(run[b].history[i], pod)
    ensures NotRecreated(steps, a, b, pod)
  {
    forall k | a <= k < b
      ensures !(steps[k].CreatePod? && steps[k].pod == pod)
    {
      assert Follows(run, steps, k);
      if run[k].controller.ControllerRead? {
        CopySince(run, steps, a, k, b);
      }
    }
  }

  /** The record is past creating a pod of this name. */
  predicate Retired(r: Record, pod: string) {
    (r.podName == pod ==> r.phase != VmPhase.Scheduling) && (r.migration.Some? ==> r.migration.value.targetPodName != pod)
  }

  /** No pass in these steps picks this name for a new pod. */
  ghost predicate NotPicked(steps: seq<Step>, a: nat, b: nat, pod: string)
    requires b <= |steps|
  {
    forall k :: a <= k < b && steps[k].CommitByController? ==> steps[k].cview.freshName != pod
  }

  lemma RunningPassRetires(c: Record, v: ControllerView, pod: string)
    requires Retired(c, pod) && c.phase == VmPhase.Running && v.freshName != pod
    ensures Retired(RunningPass(c, v).record, pod)
  {
  }

  lemma ControllerPassRetires(c: Record, v: ControllerView, pod: string)
    requires Retired(c, pod) && v.freshName != pod
    ensures Retired(ControllerPass(c, v).record, pod)
  {
    if c.phase == VmPhase.Running {
      RunningPassRetires(c, v, pod);
    }
  }

  lemma RetiredByController(s: State, v: ControllerView, pod: string)
    requires Inv(s) && Enabled(s, CommitByController(v)) && Retired(s.Last(), pod) && v.freshName != pod
    ensures Retired(CommitByControllerState(s, v).Last(), pod)
  {
    var c := s.controller.copy;
    var r := ControllerPass(c, v).record;
    if s.controller.version == |s.history| - 1 {
      ControllerPassRetires(c, v, pod);
    }
    WrittenOrKept(s.history, s.controller.version, r);
  }

  lemma WrittenOrKept(history: seq<Record>, version: nat, r: Record)
    requires |history| > 0
    ensures var h := Write(history, version, r);
            h[|h| - 1] == history[|history| - 1] || (version == |history| - 1 && h[|h| - 1] == r)
  {
  }

  lemma DaemonNeverSchedules(n: string, c: Record, block: Option<ControlBlock>, v: DaemonView)
    ensures DaemonPass(n, c, block, v).record.phase == VmPhase.Scheduling ==> c.phase == VmPhase.Scheduling
  {
    if c.phase == VmPhase.Running && c.migration.Some? {
      Daemon.MigrationKeepsVm(n, c, block, v);
    }
  }

  lemma DaemonPassRetires(n: string, c: Record, block: Option<ControlBlock>, v: DaemonView, pod: string)
    requires Retired(c, pod)
    ensures Retired(DaemonPass(n, c, block, v).record, pod)
  {
    PassMovesOwnerOnlyInHandover(n, c, block, v);
    DaemonNeverSchedules(n, c, block, v);
  }

  lemma RetiredByDaemon(s: State, n: string, v: DaemonView, pod: string)
    requires Inv(s) && Enabled(s, FinishDaemon(n, v)) && Retired(s.Last(), pod)
    ensures Retired(FinishDaemonState(s, n, v).Last(), pod)
  {
    var pc := s.daemons[n];
    var block := if n in s.blocks then Some(s.blocks[n]) else None;
    if pc.version == |s.history| - 1 {
      DaemonPassRetires(n, pc.copy, block, v, pod);
    }
    WrittenOrKept(s.history, pc.version, DaemonPass(n, pc.copy, block, v).record);
  }

  lemma RetiredStep(s: State, step: Step, pod: string)
    requires Inv(s) && Enabled(s, step) && Retired(s.Last(), pod) && pod != ""
    requires step.CommitByController? ==> step.cview.freshName != pod
    ensures Apply(s, step).WellFormed() && Retired(Apply(s, step).Last(), pod)
  {
    match step
    case CommitByController(v) => RetiredByController(s, v, pod);
    case FinishDaemon(n, v) => RetiredByDaemon(s, n, v, pod);
    case _ =>
  }

  ghost predicate RetiredSince(s: State, i: nat, pod: string) {
    forall j :: i <= j < |s.history| ==> Retired(s.history[j], pod)
  }

  lemma {:induction false} RetiredVersions(run: seq<State>, steps: seq<Step>, a: nat, b: nat, pod: string)
    requires IsRun(run, steps) && a <= b < |run| && pod != "" && NotPicked(steps, a, b, pod)
    requires RetiredSince(run[a], run[a].controllerSeen, pod)
    ensures RetiredSince(run[b], run[a].controllerSeen, pod)
    decreases b
  {
    RunInv(run, steps, a);
    if a < b {
      RetiredVersions(run, steps, a, b - 1, pod);
      assert Follows(run, steps, b - 1);
      RunInv(run, steps, b - 1);
      HistoryGrows(run, steps, a, b - 1);
      RetiredSinceStep(run[b - 1], steps[b - 1], run[a].controllerSeen, pod);
    }
  }

  lemma RetiredSinceStep(s: State, step: Step, i: nat, pod: string)
    requires Inv(s) && Enabled(s, step) && RetiredSince(s, i, pod) && i < |s.history| && pod != ""
    requires step.CommitByController? ==> step.cview.freshName != pod
    ensures RetiredSince(Apply(s, step), i, pod)
  {
    assert Retired(s.Last(), pod);
    RetiredStep(s, step, pod);
    OneVersion(s, step);
  }

  /** A step adds at most one version. */
  lemma OneVersion(s: State, step: Step)
    requires Enabled(s, step)
    ensures var h := Apply(s, step).history;
            h == s.history || (|h| == |s.history| + 1 && h[..|s.history|] == s.history)
  {
  }

  lemma {:induction false} CompletedStays(run: seq<State>, steps: seq<Step>, i: nat, j: nat, uid: string)
    requires IsRun(run, steps) && i <= j < |run| && uid in run[i].completed
    ensures uid in run[j].completed && run[j].completed[uid] == run[i].completed[uid]
    decreases j
  {
    if i < j {
      CompletedStays(run, steps, i, j - 1, uid);
      assert Follows(run, steps, j - 1);
      RunInv(run, steps, j - 1);
      CompletedGrows(run[j - 1], steps[j - 1]);
    }
  }

  lemma CompletedBefore(run: seq<State>, steps: seq<Step>, a: nat, c: nat, pod: string)
    requires IsRun(run, steps) && c < a < |run| && steps[c] == AdvancePod(pod, PodSucceeded)
    ensures pod in run[a].completed.Values
  {
    assert Follows(run, steps, c);
    var uid := run[c].pods[pod].uid;
    CompletedStays(run, steps, c + 1, a, uid);
    assert run[a].completed[uid] == pod;
  }

  /** Handover safety with a controller whose reads do not go back. If at the beginning of the stretch no
      pod of the owner's name has completed, and the controller has already read a version in which the
      VM is past being scheduled under it, then no pod of that name executes at or after the handover. */
  lemma HandoverSafetyReadingForward(run: seq<State>, steps: seq<Step>, a: nat, b: nat, later: nat)
    requires IsRun(run, steps) && a <= b < later < |run| && NotRescheduled(run, a, b)
    requires !run[a].Last().MigrationIn(MigrationPhase.Sent)
    requires run[b].Last().phase == VmPhase.Running
    requires run[b + 1].WellFormed() && run[b + 1].Last().Owner() != run[b].Last().Owner()
    requires ControllerReadsForward(run)
    requires var pod := run[b].Last().podName;
             && pod != "" && pod !in run[a].completed.Values
             && RetiredSince(run[a], run[a].controllerSeen, pod) && NotPicked(steps, a, later, pod)
    ensures !run[later].Active(run[b].Last().podName)
  {
    var pod := run[b].Last().podName;
    var c := HandoverSafety(run, steps, a, b, later);
    if c < a {
      CompletedBefore(run, steps, a, c, pod);
    }
    RetiredVersions(run, steps, a, later, pod);
    NoRecreation(run, steps, a, later, pod);
  }

  // ---------------------------------------------------------------- deleting all pods

  /** A pass that deletes every pod of the VM works on a copy that may be old. If it marks a pod while
      the newest record is in no phase that asks for it, its copy is out of date. */
  lemma MarkMeansOldCopy(run: seq<State>, steps: seq<Step>, k: nat)
    requires IsRun(run, steps) && k < |steps| && steps[k].MarkPod?
    ensures Inv(run[k]) && run[k].controller.ControllerRead?
    ensures run[k].controller.copy.phase in {VmPhase.Unset, VmPhase.Succeeded, VmPhase.Failed}
    ensures !DeletesPods(run[k].Last()) ==> run[k].controller.version < |run[k].history| - 1
  {
    RunInv(run, steps, k);
    assert Follows(run, steps, k);
  }

  /** From a resting controller, a pod can be marked in its next pass exactly if one of the versions it may
      read is in such a phase, whatever the newest record says. */
  lemma PodAtRiskExactly(s: State, floor: nat, pod: string)
    requires Inv(s) && s.controller.ControllerIdle? && pod in s.pods
    ensures (exists i :: floor <= i < |s.history| && CanMark(s, i, pod)) <==>
            (exists i :: floor <= i < |s.history| && DeletesPods(s.history[i]))
  {
    forall i | 0 <= i < |s.history|
      ensures CanMark(s, i, pod) <==> DeletesPods(s.history[i])
    {
      assert Apply(s, ReadByController(i)).controller == ControllerRead(s.history[i], i);
    }
  }

  ghost predicate CanMark(s: State, i: nat, pod: string) {
    Enabled(s, ReadByController(i)) && Enabled(Apply(s, ReadByController(i)), MarkPod(pod))
  }

  /** With reads that do not go back, a VM whose versions from the last one read on are all scheduled or
      running has no pod marked this way. */
  lemma NoPodAtRisk(run: seq<State>, steps: seq<Step>, a: nat, b: nat)
    requires IsRun(run, steps) && ControllerReadsForward(run) && a <= b < |run|
    requires forall i :: run[a].controllerSeen <= i < |run[b].history| ==> !DeletesPods(run[b].history[i])
    ensures forall k :: a <= k < b ==> !steps[k].MarkPod?
  {
    forall k | a <= k < b
      ensures !steps[k].MarkPod?
    {
      assert Follows(run, steps, k);
      if run[k].controller.ControllerRead? {
        CopySince(run, steps, a, k, b);
      }
    }
  }

  // ---------------------------------------------------------------- phase discipline

  /** Every change of the committed migration phase follows an edge of the protocol and is made
      by the one role that may leave the old phase, over the newest record, exactly when what it saw calls for
      it; a finished migration stays as it is until a user asks for another one, and a migration appears or
      disappears only at a user's request. */
  lemma PhaseDiscipline(run: seq<State>, steps: seq<Step>, k: nat, q: MigrationPhase)
    requires IsRun(run, steps) && k < |steps|
    ensures Enabled(run[k], steps[k]) && run[k + 1].WellFormed()
    ensures Disciplined(steps[k], run[k].Last(), run[k + 1].Last())
    ensures run[k].Last().migration.Some? && run[k + 1].Last().migration.Some? ==>
              (run[k + 1].Last().migration.value.phase == q != run[k].Last().migration.value.phase <==>
               MovesMigration(run[k], steps[k], q))
  {
    RunInv(run, steps, k);
    assert Follows(run, steps, k);
    PhaseDisciplineStep(run[k], steps[k]);
    MovesExactly(run[k], steps[k], q);
  }

  /** When a step takes the committed migration to phase q. */
  ghost predicate MovesMigration(s: State, step: Step, q: MigrationPhase)
    requires s.WellFormed() && s.Last().migration.Some? && (step.FinishDaemon? ==> step.node in s.daemons)
    requires step.CommitByController? ==> s.controller.ControllerRead?
  {
    var newest := |s.history| - 1;
    match step
    case CommitByController(v) => s.controller.version == newest && Controller.BringsMigration(s.Last(), v, q)
    case FinishDaemon(n, v) =>
      && s.daemons[n].version == newest
      && Daemon.BringsMigration(n, s.Last(), n in s.blocks && s.blocks[n].sending, v, q)
    case RequestMigration => q.NotSet? && s.Last().migration.value.phase.Terminal()
    case _ => false
  }

  /** The phase of the migration in the newest record has become q. */
  predicate MigrationBecame(r: Record, r': Record, q: MigrationPhase) {
    r.migration.Some? && r'.migration.Some? && r'.migration.value.phase == q != r.migration.value.phase
  }

  lemma DaemonMovesExactly(s: State, n: string, v: DaemonView, q: MigrationPhase)
    requires Inv(s) && Enabled(s, FinishDaemon(n, v)) && s.Last().migration.Some?
    ensures MigrationBecame(s.Last(), FinishDaemonState(s, n, v).Last(), q) <==> MovesMigration(s, FinishDaemon(n, v), q)
  {
    DaemonWriteMoves(s, n, v, q);
    Daemon.MigrationOutcome(n, s.Last(), if n in s.blocks then Some(s.blocks[n]) else None, v, q);
  }

  lemma DaemonWriteMoves(s: State, n: string, v: DaemonView, q: MigrationPhase)
    requires Inv(s) && Enabled(s, FinishDaemon(n, v)) && s.Last().migration.Some?
    ensures var block := if n in s.blocks then Some(s.blocks[n]) else None;
            MigrationBecame(s.Last(), FinishDaemonState(s, n, v).Last(), q) <==>
            && s.daemons[n].version == |s.history| - 1
            && MigrationBecame(s.Last(), DaemonPass(n, s.Last(), block, v).record, q)
  {
    var pc := s.daemons[n];
    var block := if n in s.blocks then Some(s.blocks[n]) else None;
    WriteMoves(s.history, pc.version, DaemonPass(n, pc.copy, block, v).record, q);
  }

  lemma ControllerMovesExactly(s: State, v: ControllerView, q: MigrationPhase)
    requires Inv(s) && Enabled(s, CommitByController(v)) && s.Last().migration.Some?
    ensures MigrationBecame(s.Last(), CommitByControllerState(s, v).Last(), q) <==> MovesMigration(s, CommitByController(v), q)
  {
    var pc := s.controller;
    if pc.copy.migration.Some? {
      Controller.MigrationOutcome(pc.copy, v, q);
    }
    WriteMoves(s.history, pc.version, ControllerPass(pc.copy, v).record, q);
  }

  lemma WriteMoves(history: seq<Record>, version: nat, r: Record, q: MigrationPhase)
    requires |history| > 0
    ensures var h, last := Write(history, version, r), history[|history| - 1];
            MigrationBecame(last, h[|h| - 1], q) <==> version == |history| - 1 && MigrationBecame(last, r, q)
  {
  }

  lemma MovesExactly(s: State, step: Step, q: MigrationPhase)
    requires Inv(s) && Enabled(s, step)
    ensures Apply(s, step).WellFormed()
    ensures s.Last().migration.Some? && Apply(s, step).Last().migration.Some? ==>
              (MigrationBecame(s.Last(), Apply(s, step).Last(), q) <==> MovesMigration(s, step, q))
  {
    if s.Last().migration.Some? {
      match step
      case FinishDaemon(n, v) => DaemonMovesExactly(s, n, v, q);
      case CommitByController(v) => ControllerMovesExactly(s, v, q);
      case _ => OthersMoveExactly(s, step, q);
    }
  }

  lemma OthersMoveExactly(s: State, step: Step, q: MigrationPhase)
    requires Enabled(s, step) && s.Last().migration.Some? && !step.FinishDaemon? && !step.CommitByController?
    ensures Apply(s, step).WellFormed()
    ensures Apply(s, step).Last().migration.Some? ==>
              (MigrationBecame(s.Last(), Apply(s, step).Last(), q) <==> MovesMigration(s, step, q))
  {
  }

  /** What one step may do to the committed migration. */
  ghost predicate Disciplined(step: Step, r: Record, r': Record) {
    match (r.migration, r'.migration)
    case (None, None) => true
    case (None, Some(q)) => step.RequestMigration? && q == REQUESTED
    case (Some(p), None) => step.ClearMigration? && p.phase.Terminal()
    case (Some(p), Some(q)) =>
      p.phase != q.phase ==>
        || (LegalEdge(p.phase, q.phase) && Plays(step, RoleLeaving(p.phase), r))
        || (step.RequestMigration? && p.phase.Terminal() && q == REQUESTED)
  }

  lemma DaemonDiscipline(s: State, n: string, v: DaemonView)
    requires Inv(s) && Enabled(s, FinishDaemon(n, v))
    ensures Disciplined(FinishDaemon(n, v), s.Last(), Apply(s, FinishDaemon(n, v)).Last())
  {
    var pc := s.daemons[n];
    var block := if n in s.blocks then Some(s.blocks[n]) else None;
    DaemonPassEdges(n, pc.copy, block, v);
    AcceptedWriteIsCurrent(s.history, pc.version, DaemonPass(n, pc.copy, block, v).record);
  }

  lemma ControllerDiscipline(s: State, v: ControllerView)
    requires Inv(s) && Enabled(s, CommitByController(v))
    ensures Disciplined(CommitByController(v), s.Last(), Apply(s, CommitByController(v)).Last())
  {
    ControllerPassEdges(s.controller.copy, v);
    AcceptedWriteIsCurrent(s.history, s.controller.version, ControllerPass(s.controller.copy, v).record);
  }

  lemma PhaseDisciplineStep(s: State, step: Step)
    requires Inv(s) && Enabled(s, step)
    ensures Apply(s, step).WellFormed() && Disciplined(step, s.Last(), Apply(s, step).Last())
  {
    match step
    case FinishDaemon(n, v) =>
      DaemonDiscipline(s, n, v);
    case CommitByController(v) =>
      ControllerDiscipline(s, v);
    case _ =>
  }

  // ---------------------------------------------------------------- control blocks

  /** Each daemon's reads never go back to an older version. */
  ghost predicate MonotoneReads(run: seq<State>) {
    forall k :: 0 <= k < |run| - 1 ==> ReadsAdvance(run, k)
  }

  ghost predicate ReadsAdvance(run: seq<State>, k: nat)
    requires k < |run| - 1
  {
    forall n :: n in run[k].lastRead ==>
      n in run[k + 1].lastRead && run[k].lastRead[n] <= run[k + 1].lastRead[n]
  }

  /** A copy over which node `n`, holding no block, does not create one. */
  predicate QuietFor(n: string, c: Record) {
    || !ShouldReconcile(n, c)
    || c.phase != VmPhase.Running
    || c.migration.None?
    || ForgetsBlock(n, c)
    || (c.MigrationIn(MigrationPhase.Running) && c.nodeName == n)
  }

  lemma QuietPassCreatesNoBlock(n: string, c: Record, v: DaemonView)
    requires QuietFor(n, c)
    ensures DaemonPass(n, c, None, v).block == None
  {
  }

  lemma QuietStep(s: State, step: Step, n: string)
    requires Inv(s) && Enabled(s, step) && n !in s.blocks
    requires n in s.daemons ==> QuietFor(n, s.daemons[n].copy)
    ensures n !in Apply(s, step).blocks
  {
    if step.FinishDaemon? && step.node == n {
      QuietPassCreatesNoBlock(n, s.daemons[n].copy, step.dview);
    }
  }

  /** From the moment node `n` holds no block, it holds none as long as every version it can
      still read is quiet for it. */
  lemma {:induction false} BlockStaysGone(run: seq<State>, steps: seq<Step>, a: nat, b: nat, n: string)
    requires IsRun(run, steps) && MonotoneReads(run) && a <= b < |run|
    requires n !in run[a].blocks && n !in run[a].daemons && n in run[a].lastRead
    requires forall i :: run[a].lastRead[n] <= i < |run[b].history| ==> QuietFor(n, run[b].history[i])
    ensures n !in run[b].blocks
    ensures n in run[b].lastRead && run[a].lastRead[n] <= run[b].lastRead[n]
    decreases b
  {
    if a < b {
      var s, step := run[b - 1], steps[b - 1];
      HistoryGrows(run, steps, b - 1, b);
      forall i | run[a].lastRead[n] <= i < |s.history|
        ensures QuietFor(n, s.history[i])
      {
        assert s.history[i] == run[b].history[i];
      }
      BlockStaysGone(run, steps, a, b - 1, n);
      RunInv(run, steps, b - 1);
      assert Follows(run, steps, b - 1) && ReadsAdvance(run, b - 1);
      QuietStep(s, step, n);
    }
  }

  /** The migration in this record is over. */
  predicate MigrationOver(c: Record) {
    c.migration.Some? && c.migration.value.phase.Terminal()
  }

  /** The block is gone right after the pass, with the version just read remembered. */
  lemma PassThatForgets(s: State, n: string, v: DaemonView)
    requires Inv(s) && Enabled(s, FinishDaemon(n, v))
    requires DaemonPass(n, s.daemons[n].copy, if n in s.blocks then Some(s.blocks[n]) else None, v).block == None
    ensures var s' := Apply(s, FinishDaemon(n, v));
            && n !in s'.blocks && n !in s'.daemons
            && n in s'.lastRead && s'.lastRead[n] == s.daemons[n].version
  {
  }

  /** Once an involved daemon has finished a pass over a copy whose migration is over, it holds
      no control block, and holds none from then on until a new migration is requested. */
  lemma ReconciledDaemonHoldsNoBlock(run: seq<State>, steps: seq<Step>, a: nat, b: nat, n: string, v: DaemonView)
    requires IsRun(run, steps) && MonotoneReads(run) && a < b < |run|
    requires steps[a] == FinishDaemon(n, v) && n in run[a].daemons
    requires var c := run[a].daemons[n].copy;
             c.phase == VmPhase.Running && MigrationOver(c) && ShouldReconcile(n, c)
    requires v.vmPod.Found? && !v.vmDeleting
    requires forall i :: run[a].daemons[n].version <= i < |run[b].history| ==> MigrationOver(run[b].history[i])
    ensures n !in run[b].blocks
  {
    RunInv(run, steps, a);
    assert Follows(run, steps, a);
    PassThatForgets(run[a], n, v);
    BlockStaysGone(run, steps, a + 1, b, n);
  }

  /** A pass that declares the migration Sent was computed from the newest record, by a node that
      the record names as owner, and forgets the block. */
  lemma SentPassForgets(s: State, n: string, v: DaemonView)
    requires Inv(s) && Enabled(s, FinishDaemon(n, v)) && !s.Last().MigrationIn(MigrationPhase.Sent)
    requires FinishDaemonState(s, n, v).Last().MigrationIn(MigrationPhase.Sent)
    ensures s.daemons[n].version == |s.history| - 1 && QuietFor(n, s.Last())
    ensures DaemonPass(n, s.Last(), if n in s.blocks then Some(s.blocks[n]) else None, v).block == None
  {
    var pc := s.daemons[n];
    var block := if n in s.blocks then Some(s.blocks[n]) else None;
    var r := DaemonPass(n, pc.copy, block, v);
    NewlySentForgets(n, pc.copy, block, v);
    WrittenOrKept(s.history, pc.version, r.record);
    assert FinishDaemonState(s, n, v).Last() != s.Last();
    assert pc.copy == s.Last() && FinishDaemonState(s, n, v).Last() == r.record;
  }

  lemma NewlySentForgets(n: string, c: Record, block: Option<ControlBlock>, v: DaemonView)
    ensures var r := DaemonPass(n, c, block, v);
            r.record.MigrationIn(MigrationPhase.Sent) && !c.MigrationIn(MigrationPhase.Sent) ==> QuietFor(n, c) && r.block == None
  {
    DaemonPassEdges(n, c, block, v);
  }

  /** The source daemon forgets its block in the pass that declares the migration Sent, and never
      needs to see the record again: it holds no block while the migration is Sent or over. */
  lemma SourceForgetsWhenSent(run: seq<State>, steps: seq<Step>, a: nat, b: nat, n: string, v: DaemonView)
    requires IsRun(run, steps) && MonotoneReads(run) && a < b < |run|
    requires steps[a] == FinishDaemon(n, v)
    requires run[a].WellFormed() && run[a + 1].WellFormed()
    requires !run[a].Last().MigrationIn(MigrationPhase.Sent) && run[a + 1].Last().MigrationIn(MigrationPhase.Sent)
    requires forall i :: |run[a].history| <= i < |run[b].history| ==>
               var c := run[b].history[i];
               MigrationOver(c) || (c.MigrationIn(MigrationPhase.Sent) && c.nodeName == n)
    ensures n !in run[b].blocks
  {
    RunInv(run, steps, a);
    assert Follows(run, steps, a);
    SentPassForgets(run[a], n, v);
    PassThatForgets(run[a], n, v);
    var version := |run[a].history| - 1;
    HistoryGrows(run, steps, a, b);
    forall i | version <= i < |run[b].history|
      ensures QuietFor(n, run[b].history[i])
    {
      if i == version {
        assert run[b].history[i] == run[a].Last();
      }
    }
    BlockStaysGone(run, steps, a + 1, b, n);
  }
}
