/** Vertical resize as a protocol: the controller and the daemon work on copies of the VM's record that
    may be old, the controller's view of the pod may be old too, their effects on pod and guest happen
    whether or not their versioned write is accepted, and both may be restarted at any time. The spec
    does not change during a run. */
module ResizeProtocol {
  import opened Wrappers
  import opened Resize
  import Controller

  datatype ControllerPc =
    | ControllerIdle
    | ControllerHasVm(version: nat)
    | ControllerHasPod(version: nat, podVersion: nat)
    | ControllerDecided(version: nat, phase: Phase)

  datatype DaemonPc =
    | DaemonIdle
    | DaemonHasVm(version: nat)
    | DaemonHasInfo(version: nat, info: Guest)
    | DaemonDecided(version: nat, phase: Phase)

  datatype State = State(
    history: seq<Phase>,                 // committed versions of the record, newest last
    pods: seq<Pod>,                      // versions of the pod, newest last
    guest: Guest,
    controller: ControllerPc,
    daemon: DaemonPc,
    podSeen: nat)                        // the version of the pod that the controller read last
  {
    predicate WellFormed() {
      |history| > 0 && |pods| > 0
    }

    function Last(): Phase
      requires WellFormed()
    {
      history[|history| - 1]
    }

    function NewestPod(): Pod
      requires WellFormed()
    {
      pods[|pods| - 1]
    }
  }

  datatype Step =
    | ReadVm(version: nat)
    | ReadPod(podVersion: nat)
    | ActOnPod(accepted: bool)
    | CommitByController
    | RestartController
    | DaemonReadsVm(version: nat)
    | DaemonReadsGuest
    | ActOnGuest(accepted: bool)
    | CommitByDaemon
    | RestartDaemon
    | KubeletStarts
    | KubeletFinishes
    | KubeletRefuses
    | GuestChanges(vcpus: nat, ram: nat)

  predicate VersionsExist(s: State) {
    && s.WellFormed() && s.podSeen < |s.pods|
    && (!s.controller.ControllerIdle? ==> s.controller.version < |s.history|)
    && (s.controller.ControllerHasPod? ==> s.controller.podVersion < |s.pods|)
    && (!s.daemon.DaemonIdle? ==> s.daemon.version < |s.history|)
  }

  predicate Enabled(spec: Spec, s: State, step: Step) {
    VersionsExist(s) &&
    match step
    case ReadVm(i) => s.controller.ControllerIdle? && i < |s.history|
    case ReadPod(j) => s.controller.ControllerHasVm? && j < |s.pods|
    case ActOnPod(_) => s.controller.ControllerHasPod?
    case CommitByController => s.controller.ControllerDecided?
    case RestartController => true
    case DaemonReadsVm(i) => s.daemon.DaemonIdle? && i < |s.history|
    case DaemonReadsGuest => s.daemon.DaemonHasVm?
    case ActOnGuest(_) => s.daemon.DaemonHasInfo?
    case CommitByDaemon => s.daemon.DaemonDecided?
    case RestartDaemon => true
    case KubeletStarts => s.NewestPod().actual != Some(s.NewestPod().requested) && s.NewestPod().resize != InProgress
    case KubeletFinishes => s.NewestPod().actual != Some(s.NewestPod().requested)
    case KubeletRefuses => s.NewestPod().actual != Some(s.NewestPod().requested) && s.NewestPod().resize != Infeasible
    case GuestChanges(vcpus, ram) =>
      s.guest.asked && (GuestMatches(spec, s.guest) ==> GuestMatches(spec, Guest(vcpus, ram, false)))
  }

  /** A versioned write; writing the newest phase back makes no new version. */
  function Write(history: seq<Phase>, version: nat, p: Phase): seq<Phase>
    requires |history| > 0
  {
    if version == |history| - 1 && p != history[version] then history + [p] else history
  }

  function Decision(spec: Spec, copy: Phase, pod: Pod): Phase {
    match copy
    case Running => DetectorDecides(spec, pod)
    case PodResizeInProgress => PodStageDecides(spec, pod)
    case ResizeInProgress => ResizeInProgress
  }

  /** The pass asks the API server to resize the pod. */
  predicate AsksForPodResize(spec: Spec, copy: Phase, pod: Pod) {
    copy == PodResizeInProgress && PodOutcome(spec, pod) == Controller.ResizeIncomplete
  }

  function WithPod(s: State, pod: Pod): State
    requires s.WellFormed()
  {
    s.(pods := s.pods + [pod])
  }

  /** The request carries the version of the pod it was made from, and is refused if that is not the
      newest one. */
  function ActOnPodState(spec: Spec, s: State, accepted: bool): State
    requires VersionsExist(s) && s.controller.ControllerHasPod?
  {
    var copy, pod := s.history[s.controller.version], s.pods[s.controller.podVersion];
    var decided := s.(controller := ControllerDecided(s.controller.version, Decision(spec, copy, pod)));
    if accepted && AsksForPodResize(spec, copy, pod) && s.controller.podVersion == |s.pods| - 1
    then WithPod(decided, pod.(requested := Desired(spec))) else decided
  }

  function ActOnGuestState(spec: Spec, s: State, accepted: bool): State
    requires VersionsExist(s) && s.daemon.DaemonHasInfo?
  {
    var copy := s.history[s.daemon.version];
    var p := if copy == ResizeInProgress then GuestStageDecides(spec, s.daemon.info) else copy;
    s.(daemon := DaemonDecided(s.daemon.version, p),
       guest := if accepted && copy == ResizeInProgress && !GuestMatches(spec, s.daemon.info) then s.guest.(asked := true)
                else s.guest)
  }

  function Apply(spec: Spec, s: State, step: Step): State
    requires Enabled(spec, s, step)
  {
    var pod := s.NewestPod();
    match step
    case ReadVm(i) => s.(controller := ControllerHasVm(i))
    case ReadPod(j) => s.(controller := ControllerHasPod(s.controller.version, j), podSeen := j)
    case ActOnPod(accepted) => ActOnPodState(spec, s, accepted)
    case CommitByController =>
      s.(history := Write(s.history, s.controller.version, s.controller.phase), controller := ControllerIdle)
    case RestartController => s.(controller := ControllerIdle)
    case DaemonReadsVm(i) => s.(daemon := DaemonHasVm(i))
    case DaemonReadsGuest => s.(daemon := DaemonHasInfo(s.daemon.version, s.guest))
    case ActOnGuest(accepted) => ActOnGuestState(spec, s, accepted)
    case CommitByDaemon =>
      s.(history := Write(s.history, s.daemon.version, s.daemon.phase), daemon := DaemonIdle)
    case RestartDaemon => s.(daemon := DaemonIdle)
    case KubeletStarts => WithPod(s, pod.(resize := InProgress))
    case KubeletFinishes => WithPod(s, pod.(actual := Some(pod.requested), resize := NoResize))
    case KubeletRefuses => WithPod(s, pod.(resize := Infeasible))
    case GuestChanges(vcpus, ram) =>
      // The hypervisor may get there in several steps; a guest that matches is not taken away from it.
      s.(guest := Guest(vcpus, ram, !GuestMatches(spec, Guest(vcpus, ram, false))))
  }

  // ---------------------------------------------------------------- runs

  /** Nobody is in a pass, no resize is open, and the pod reports what was requested or nothing yet. */
  ghost predicate Init(spec: Spec, s: State) {
    && s.history == [Running] && |s.pods| == 1 && s.podSeen == 0
    && s.controller.ControllerIdle? && s.daemon.DaemonIdle? && !s.guest.asked
    && s.NewestPod().resize == NoResize
    && (s.NewestPod().actual.Some? ==> s.NewestPod().actual.value == s.NewestPod().requested)
  }

  ghost predicate Follows(spec: Spec, run: seq<State>, steps: seq<Step>, k: nat)
    requires k < |steps| < |run|
  {
    Enabled(spec, run[k], steps[k]) && run[k + 1] == Apply(spec, run[k], steps[k])
  }

  ghost predicate IsPath(spec: Spec, run: seq<State>, steps: seq<Step>) {
    |run| == |steps| + 1 && forall k :: 0 <= k < |steps| ==> Follows(spec, run, steps, k)
  }

  ghost predicate IsRun(spec: Spec, run: seq<State>, steps: seq<Step>) {
    IsPath(spec, run, steps) && Init(spec, run[0])
  }

  // ---------------------------------------------------------------- what every run keeps

  predicate Done(spec: Spec, pod: Pod) {
    pod.actual == Some(Desired(spec))
  }

  /** Once the pod has the desired resources it keeps them: they are the only ones ever asked for. */
  ghost predicate PodsAdvance(spec: Spec, s: State)
    requires s.WellFormed()
  {
    && (forall i, j :: 0 <= i <= j < |s.pods| && Done(spec, s.pods[i]) ==> Done(spec, s.pods[j]))
    && (forall i :: 0 <= i < |s.pods| && Done(spec, s.pods[i]) ==> s.pods[i].requested == Desired(spec))
    && (forall i :: 0 <= i < |s.pods| && s.pods[i].actual.Some? ==> s.NewestPod().actual.Some?)
    && (s.NewestPod().resize != NoResize ==> s.NewestPod().actual != Some(s.NewestPod().requested))
  }

  /** A copy in ResizeInProgress, however old, means that the pod has the desired resources. */
  ghost predicate GuestStageNeedsPod(spec: Spec, s: State)
    requires s.WellFormed()
  {
    && (forall i :: 0 <= i < |s.history| && s.history[i] == ResizeInProgress ==> Done(spec, s.NewestPod()))
    && (s.controller.ControllerDecided? && s.controller.phase == ResizeInProgress ==> Done(spec, s.NewestPod()))
    && (s.guest.asked ==> Done(spec, s.NewestPod()))
  }

  /** A guest that was seen to match still does, and a VM left the guest stage only with such a guest. */
  ghost predicate GuestStageEnds(spec: Spec, s: State)
    requires VersionsExist(s)
  {
    && (s.daemon.DaemonHasInfo? && GuestMatches(spec, s.daemon.info) ==> GuestMatches(spec, s.guest))
    && (s.daemon.DaemonDecided? && s.daemon.phase != s.history[s.daemon.version] ==>
          && s.history[s.daemon.version] == ResizeInProgress && s.daemon.phase == Running && GuestMatches(spec, s.guest))
    && (forall i :: 0 <= i < |s.history| - 1 && s.history[i] == ResizeInProgress ==>
          s.history[i + 1] == Running && GuestMatches(spec, s.guest))
  }

  predicate Refused(s: State) {
    exists j :: 0 <= j < |s.pods| && s.pods[j].resize == Infeasible
  }

  /** What the controller has decided comes from its copies. */
  ghost predicate DecisionsHold(s: State)
    requires VersionsExist(s)
  {
    s.controller.ControllerDecided? ==>
      var copy, p := s.history[s.controller.version], s.controller.phase;
      || p == copy
      || (copy == Running && p == PodResizeInProgress)
      || (copy == PodResizeInProgress && p == ResizeInProgress)
      || (copy == PodResizeInProgress && p == Running && Refused(s))
  }

  ghost predicate Inv(spec: Spec, s: State) {
    && VersionsExist(s) && PodsAdvance(spec, s) && GuestStageNeedsPod(spec, s) && GuestStageEnds(spec, s) && DecisionsHold(s)
  }

  lemma InitInv(spec: Spec, s: State)
    requires Init(spec, s)
    ensures Inv(spec, s)
  {
  }

  lemma PodsAdvanceStep(spec: Spec, s: State, step: Step)
    requires Inv(spec, s) && Enabled(spec, s, step)
    ensures VersionsExist(Apply(spec, s, step)) && PodsAdvance(spec, Apply(spec, s, step))
  {
    var pod := s.NewestPod();
    match step
    case KubeletStarts => AppendPod(spec, s, pod.(resize := InProgress));
    case KubeletFinishes => AppendPod(spec, s, pod.(actual := Some(pod.requested), resize := NoResize));
    case KubeletRefuses => AppendPod(spec, s, pod.(resize := Infeasible));
    case ActOnPod(_) => AppendPod(spec, s, pod.(requested := Desired(spec)));
    case _ =>
  }

  lemma AppendPod(spec: Spec, s: State, pod: Pod)
    requires s.WellFormed() && PodsAdvance(spec, s)
    ensures (Done(spec, s.NewestPod()) ==> Done(spec, pod)) && (Done(spec, pod) ==> pod.requested == Desired(spec))
            && (s.NewestPod().actual.Some? ==> pod.actual.Some?)
            && (pod.resize != NoResize ==> pod.actual != Some(pod.requested)) ==>
              PodsAdvance(spec, WithPod(s, pod))
  {
  }

  lemma GuestStageNeedsPodStep(spec: Spec, s: State, step: Step)
    requires Inv(spec, s) && Enabled(spec, s, step)
    ensures Apply(spec, s, step).WellFormed() && GuestStageNeedsPod(spec, Apply(spec, s, step))
  {
  }

  lemma GuestStageEndsStep(spec: Spec, s: State, step: Step)
    requires Inv(spec, s) && Enabled(spec, s, step)
    ensures VersionsExist(Apply(spec, s, step)) && GuestStageEnds(spec, Apply(spec, s, step))
  {
  }

  lemma DecisionsHoldStep(spec: Spec, s: State, step: Step)
    requires Inv(spec, s) && Enabled(spec, s, step)
    ensures VersionsExist(Apply(spec, s, step)) && DecisionsHold(Apply(spec, s, step))
  {
    var s' := Apply(spec, s, step);
    if Refused(s) {
      var j :| 0 <= j < |s.pods| && s.pods[j].resize == Infeasible;
      assert s'.pods[j].resize == Infeasible;
    }
    if step.ActOnPod? {
      assert s'.pods[s.controller.podVersion] == s.pods[s.controller.podVersion];
    }
  }

  lemma StepInv(spec: Spec, s: State, step: Step)
    requires Inv(spec, s) && Enabled(spec, s, step)
    ensures Inv(spec, Apply(spec, s, step))
  {
    PodsAdvanceStep(spec, s, step);
    GuestStageNeedsPodStep(spec, s, step);
    GuestStageEndsStep(spec, s, step);
    DecisionsHoldStep(spec, s, step);
  }

  lemma {:induction false} RunInv(spec: Spec, run: seq<State>, steps: seq<Step>, k: nat)
    requires IsRun(spec, run, steps) && k < |run|
    ensures Inv(spec, run[k])
  {
    if k == 0 {
      InitInv(spec, run[0]);
    } else {
      RunInv(spec, run, steps, k - 1);
      assert Follows(spec, run, steps, k - 1);
      StepInv(spec, run[k - 1], steps[k - 1]);
    }
  }

  /** In every run, with any number of outdated copies, rejected writes and restarts, refused resizes
      among them: every change of the committed phase is one of four, made by the agent whose stage it
      ends; the VM is in the guest stage, and the hypervisor is asked, only while the pod has the desired
      resources; and it leaves the guest stage only once the guest matches. */
  lemma ResizeDiscipline(spec: Spec, run: seq<State>, steps: seq<Step>, k: nat)
    requires IsRun(spec, run, steps) && k < |steps|
    ensures run[k].WellFormed() && run[k + 1].WellFormed()
    ensures var s, s' := run[k], run[k + 1];
            && (s'.Last() != s.Last() ==>
                  || (s.Last() == Running && s'.Last() == PodResizeInProgress && steps[k] == CommitByController)
                  || (s.Last() == PodResizeInProgress && s'.Last() == ResizeInProgress && steps[k] == CommitByController)
                  || (s.Last() == PodResizeInProgress && s'.Last() == Running && steps[k] == CommitByController && Refused(s))
                  || (s.Last() == ResizeInProgress && s'.Last() == Running && steps[k] == CommitByDaemon
                      && s'.guest.vcpus == spec.vcpus
                      && 19 * spec.memorySize <= 20 * s'.guest.ram <= 21 * spec.memorySize))
            && (s.Last() == ResizeInProgress ==> Done(spec, s.NewestPod()))
            && (s'.guest.asked && !s.guest.asked ==> Done(spec, s.NewestPod()))
  {
    RunInv(spec, run, steps, k);
    assert Follows(spec, run, steps, k);
    StepInv(spec, run[k], steps[k]);
    MatchMeans(spec, run[k + 1].guest);
  }

  // ---------------------------------------------------------------- convergence

  /** The kubelet refuses nothing, and the controller's view of the pod does not go back in time. */
  ghost predicate IsFeasible(spec: Spec, run: seq<State>, steps: seq<Step>)
    requires |run| == |steps| + 1
  {
    spec.vcpus > 0 && forall k :: 0 <= k < |steps| ==> GoesForward(run[k], steps[k])
  }

  predicate GoesForward(s: State, step: Step) {
    !step.KubeletRefuses? && (step.ReadPod? ==> s.podSeen <= step.podVersion)
  }

  const ONE_ROUND := [Running, PodResizeInProgress, ResizeInProgress, Running]

  /** Before the pod stage, nothing but the first size has been asked for. */
  ghost predicate FirstSizeOnly(spec: Spec, s: State)
    requires s.WellFormed()
  {
    && (forall j :: 0 <= j < |s.pods| ==>
          s.pods[j].requested == s.pods[0].requested && (s.pods[j].actual.Some? ==> s.pods[j].actual.value == s.pods[0].requested))
    && (s.controller.ControllerDecided? && s.controller.phase == PodResizeInProgress ==>
          s.pods[0].requested != Desired(spec) && s.NewestPod().actual.Some?)
  }

  /** What a feasible run keeps besides: the record is in its only round, which begins only over a pod that
      differs, and it is taken to the guest stage only by a controller that has seen the pod done. */
  ghost predicate RoundInv(spec: Spec, s: State) {
    Inv(spec, s) && spec.vcpus > 0 && !Refused(s) && InRound(spec, s)
  }

  ghost predicate InRound(spec: Spec, s: State)
    requires VersionsExist(s)
  {
    && s.history <= ONE_ROUND && SeenDone(spec, s)
    && (|s.history| == 1 ==> FirstSizeOnly(spec, s))
    && (|s.history| == 2 && s.NewestPod().requested != Desired(spec) ==> s.NewestPod().actual == Some(s.NewestPod().requested))
  }

  ghost predicate SeenDone(spec: Spec, s: State)
    requires VersionsExist(s)
  {
    && (|s.history| >= 3 ==> Done(spec, s.pods[s.podSeen]))
    && (s.controller.ControllerHasPod? ==> s.controller.podVersion == s.podSeen)
    && (s.controller.ControllerDecided? && s.controller.phase == ResizeInProgress ==> Done(spec, s.pods[s.podSeen]))
    && (s.controller.ControllerDecided? && s.controller.phase == PodResizeInProgress ==> s.controller.version <= 1)
  }

  lemma SeenDoneStep(spec: Spec, s: State, step: Step)
    requires RoundInv(spec, s) && Enabled(spec, s, step) && GoesForward(s, step)
    ensures VersionsExist(Apply(spec, s, step)) && SeenDone(spec, Apply(spec, s, step))
  {
    PodsAdvanceStep(spec, s, step);
  }

  lemma OneRoundStep(spec: Spec, s: State, step: Step)
    requires RoundInv(spec, s) && Enabled(spec, s, step) && GoesForward(s, step)
    ensures Apply(spec, s, step).history <= ONE_ROUND
  {
  }

  lemma FirstSizeOnlyStep(spec: Spec, s: State, step: Step)
    requires RoundInv(spec, s) && Enabled(spec, s, step) && GoesForward(s, step)
    ensures Apply(spec, s, step).WellFormed()
    ensures |Apply(spec, s, step).history| == 1 ==> FirstSizeOnly(spec, Apply(spec, s, step))
  {
  }

  lemma OldSizeStep(spec: Spec, s: State, step: Step)
    requires RoundInv(spec, s) && Enabled(spec, s, step) && GoesForward(s, step)
    ensures var s' := Apply(spec, s, step);
            && s'.WellFormed()
            && (|s'.history| == 2 && s'.NewestPod().requested != Desired(spec) ==>
                  s'.NewestPod().actual == Some(s'.NewestPod().requested))
  {
  }

  lemma RoundInvStep(spec: Spec, s: State, step: Step)
    requires RoundInv(spec, s) && Enabled(spec, s, step) && GoesForward(s, step)
    ensures RoundInv(spec, Apply(spec, s, step))
  {
    StepInv(spec, s, step);
    NotRefusedStep(spec, s, step);
    SeenDoneStep(spec, s, step);
    OneRoundStep(spec, s, step);
    FirstSizeOnlyStep(spec, s, step);
    OldSizeStep(spec, s, step);
  }

  lemma NotRefusedStep(spec: Spec, s: State, step: Step)
    requires Enabled(spec, s, step) && !Refused(s) && !step.KubeletRefuses?
    ensures !Refused(Apply(spec, s, step))
  {
    var s' := Apply(spec, s, step);
    forall j | 0 <= j < |s'.pods|
      ensures s'.pods[j].resize != Infeasible
    {
      assert j < |s.pods| ==> s'.pods[j] == s.pods[j];
    }
  }

  lemma {:induction false} RoundInvRun(spec: Spec, run: seq<State>, steps: seq<Step>, k: nat)
    requires IsRun(spec, run, steps) && IsFeasible(spec, run, steps) && k < |run|
    ensures RoundInv(spec, run[k])
  {
    if k == 0 {
      InitInv(spec, run[0]);
    } else {
      RoundInvRun(spec, run, steps, k - 1);
      assert Follows(spec, run, steps, k - 1) && GoesForward(run[k - 1], steps[k - 1]);
      RoundInvStep(spec, run[k - 1], steps[k - 1]);
    }
  }

  // ---------------------------------------------------------------- every round brings the VM closer

  /** How far the VM is from the end of its round. */
  function Distance(spec: Spec, s: State): nat
    requires s.WellFormed()
  {
    var pod := s.NewestPod();
    match s.Last()
    case Running => if Done(spec, pod) then 0 else if pod.actual.Some? then 7 else 8
    case PodResizeInProgress => if pod.requested != Desired(spec) then 6 else if !Done(spec, pod) then 5 else 4
    case ResizeInProgress => if GuestMatches(spec, s.guest) then 1 else if s.guest.asked then 2 else 3
  }

  /** No step of anybody, with copies however old, leads away from the end of the round. */
  lemma DistanceNeverGrows(spec: Spec, s: State, step: Step)
    requires RoundInv(spec, s) && Enabled(spec, s, step) && GoesForward(s, step)
    ensures Apply(spec, s, step).WellFormed() && Distance(spec, Apply(spec, s, step)) <= Distance(spec, s)
  {
    RoundInvStep(spec, s, step);
  }

  lemma {:induction false} DistanceAlong(spec: Spec, run: seq<State>, steps: seq<Step>, i: nat, j: nat)
    requires IsRun(spec, run, steps) && IsFeasible(spec, run, steps) && i <= j < |run|
    ensures run[i].WellFormed() && run[j].WellFormed() && Distance(spec, run[j]) <= Distance(spec, run[i])
    decreases j
  {
    RoundInvRun(spec, run, steps, i);
    if i < j {
      DistanceAlong(spec, run, steps, i, j - 1);
      RoundInvRun(spec, run, steps, j - 1);
      assert Follows(spec, run, steps, j - 1) && GoesForward(run[j - 1], steps[j - 1]);
      DistanceNeverGrows(spec, run[j - 1], steps[j - 1]);
    }
  }

  /** An undisturbed pass of the controller over the newest record and pod, its request accepted. */
  ghost predicate IsControllerPass(run: seq<State>, steps: seq<Step>, k: nat)
    requires |run| == |steps| + 1
  {
    && k + 4 <= |steps| && run[k].WellFormed() && run[k].controller.ControllerIdle?
    && steps[k] == ReadVm(|run[k].history| - 1) && steps[k + 1] == ReadPod(|run[k].pods| - 1)
    && steps[k + 2] == ActOnPod(true) && steps[k + 3] == CommitByController
  }

  /** What it does. */
  function AfterControllerPass(spec: Spec, s: State, j: nat): State
    requires s.WellFormed() && j < |s.pods|
  {
    s.(history := Write(s.history, |s.history| - 1, Decision(spec, s.Last(), s.pods[j])),
       pods := if AsksForPodResize(spec, s.Last(), s.pods[j]) && j == |s.pods| - 1
               then s.pods + [s.pods[j].(requested := Desired(spec))] else s.pods,
       podSeen := j, controller := ControllerIdle)
  }

  lemma ControllerPassDoes(spec: Spec, run: seq<State>, steps: seq<Step>, k: nat)
    requires IsPath(spec, run, steps) && IsControllerPass(run, steps, k)
    ensures run[k + 4] == AfterControllerPass(spec, run[k], |run[k].pods| - 1)
  {
    assert Follows(spec, run, steps, k) && Follows(spec, run, steps, k + 1);
    assert Follows(spec, run, steps, k + 2) && Follows(spec, run, steps, k + 3);
  }

  /** An undisturbed pass of the daemon over the newest record, its request accepted. */
  ghost predicate IsDaemonPass(run: seq<State>, steps: seq<Step>, k: nat)
    requires |run| == |steps| + 1
  {
    && k + 4 <= |steps| && run[k].WellFormed() && run[k].daemon.DaemonIdle?
    && steps[k] == DaemonReadsVm(|run[k].history| - 1) && steps[k + 1] == DaemonReadsGuest
    && steps[k + 2] == ActOnGuest(true) && steps[k + 3] == CommitByDaemon
  }

  function AfterDaemonPass(spec: Spec, s: State): State
    requires s.WellFormed()
  {
    var stage := s.Last() == ResizeInProgress;
    s.(history := if stage then Write(s.history, |s.history| - 1, GuestStageDecides(spec, s.guest)) else s.history,
       guest := if stage && !GuestMatches(spec, s.guest) then s.guest.(asked := true) else s.guest,
       daemon := DaemonIdle)
  }

  lemma DaemonPassDoes(spec: Spec, run: seq<State>, steps: seq<Step>, k: nat)
    requires IsPath(spec, run, steps) && IsDaemonPass(run, steps, k)
    ensures run[k + 4] == AfterDaemonPass(spec, run[k])
  {
    assert Follows(spec, run, steps, k) && Follows(spec, run, steps, k + 1);
    assert Follows(spec, run, steps, k + 2) && Follows(spec, run, steps, k + 3);
  }

  datatype Agent = TheController | TheKubelet | TheDaemon | TheHypervisor | Nobody

  /** Whose turn it is. */
  function Turn(spec: Spec, s: State): Agent
    requires s.WellFormed()
  {
    match Distance(spec, s)
    case 0 => Nobody
    case 1 => TheDaemon
    case 2 => TheHypervisor
    case 3 => TheDaemon
    case 4 => TheController
    case 5 => TheKubelet
    case 6 => TheController
    case 7 => TheController
    case _ => TheKubelet
  }

  /** The agent whose turn it is takes it, undisturbed, in the steps from k to before n. */
  ghost predicate TakesTurn(spec: Spec, run: seq<State>, steps: seq<Step>, k: nat, n: nat)
    requires |run| == |steps| + 1 && k < |steps| && run[k].WellFormed()
  {
    match Turn(spec, run[k])
    case TheController => IsControllerPass(run, steps, k) && n == k + 4
    case TheDaemon => IsDaemonPass(run, steps, k) && n == k + 4
    case TheKubelet => steps[k] == KubeletFinishes && n == k + 1
    case TheHypervisor => steps[k].GuestChanges? && GuestMatches(spec, Guest(steps[k].vcpus, steps[k].ram, false)) && n == k + 1
    case Nobody => false
  }

  lemma ControllerTurn(spec: Spec, s: State)
    requires RoundInv(spec, s) && Turn(spec, s) == TheController
    ensures var t := AfterControllerPass(spec, s, |s.pods| - 1); t.WellFormed() && Distance(spec, t) < Distance(spec, s)
  {
  }

  lemma DaemonTurn(spec: Spec, s: State)
    requires RoundInv(spec, s) && Turn(spec, s) == TheDaemon
    ensures var t := AfterDaemonPass(spec, s); t.WellFormed() && Distance(spec, t) < Distance(spec, s)
  {
  }

  lemma ShortTurn(spec: Spec, s: State, step: Step)
    requires RoundInv(spec, s) && Enabled(spec, s, step) && (Turn(spec, s) == TheKubelet || Turn(spec, s) == TheHypervisor)
    requires Turn(spec, s) == TheKubelet ==> step == KubeletFinishes
    requires Turn(spec, s) == TheHypervisor ==> step.GuestChanges? && GuestMatches(spec, Guest(step.vcpus, step.ram, false))
    ensures var t := Apply(spec, s, step); t.WellFormed() && Distance(spec, t) < Distance(spec, s)
  {
  }

  /** Every turn brings the VM closer: in every run without a refusal, with anything else happening before,
      between and after, the distance never grows, and each turn that is taken undisturbed makes it smaller.
      So after at most eight of them, wherever they come in the run, the round is over. */
  lemma EveryTurnCounts(spec: Spec, run: seq<State>, steps: seq<Step>, i: nat, k: nat, n: nat, j: nat)
    requires IsRun(spec, run, steps) && IsFeasible(spec, run, steps) && i <= k < n <= j < |run|
    requires run[k].WellFormed() && TakesTurn(spec, run, steps, k, n)
    ensures run[i].WellFormed() && run[j].WellFormed() && Distance(spec, run[j]) < Distance(spec, run[i]) <= 8
  {
    TurnCounts(spec, run, steps, k, n);
    DistanceAlong(spec, run, steps, i, k);
    DistanceAlong(spec, run, steps, n, j);
  }

  lemma TurnCounts(spec: Spec, run: seq<State>, steps: seq<Step>, k: nat, n: nat)
    requires IsRun(spec, run, steps) && IsFeasible(spec, run, steps) && k < n < |run|
    requires run[k].WellFormed() && TakesTurn(spec, run, steps, k, n)
    ensures run[n].WellFormed() && Distance(spec, run[n]) < Distance(spec, run[k])
  {
    RoundInvRun(spec, run, steps, k);
    var who := Turn(spec, run[k]);
    if who == TheController {
      ControllerTurnCounts(spec, run, steps, k);
    } else if who == TheDaemon {
      DaemonTurnCounts(spec, run, steps, k);
    } else {
      ShortTurnCounts(spec, run, steps, k, n);
    }
  }

  lemma ControllerTurnCounts(spec: Spec, run: seq<State>, steps: seq<Step>, k: nat)
    requires IsPath(spec, run, steps) && IsControllerPass(run, steps, k) && RoundInv(spec, run[k])
    requires Turn(spec, run[k]) == TheController
    ensures run[k + 4].WellFormed() && Distance(spec, run[k + 4]) < Distance(spec, run[k])
  {
    ControllerPassDoes(spec, run, steps, k);
    ControllerTurn(spec, run[k]);
  }

  lemma DaemonTurnCounts(spec: Spec, run: seq<State>, steps: seq<Step>, k: nat)
    requires IsPath(spec, run, steps) && IsDaemonPass(run, steps, k) && RoundInv(spec, run[k])
    requires Turn(spec, run[k]) == TheDaemon
    ensures run[k + 4].WellFormed() && Distance(spec, run[k + 4]) < Distance(spec, run[k])
  {
    DaemonPassDoes(spec, run, steps, k);
    DaemonTurn(spec, run[k]);
  }

  lemma ShortTurnCounts(spec: Spec, run: seq<State>, steps: seq<Step>, k: nat, n: nat)
    requires IsPath(spec, run, steps) && k < |steps| && RoundInv(spec, run[k]) && TakesTurn(spec, run, steps, k, n)
    ensures Turn(spec, run[k]) != TheController && Turn(spec, run[k]) != TheDaemon ==>
              n == k + 1 && run[n].WellFormed() && Distance(spec, run[n]) < Distance(spec, run[k])
  {
    assert Follows(spec, run, steps, k);
    if Turn(spec, run[k]) == TheKubelet || Turn(spec, run[k]) == TheHypervisor {
      ShortTurn(spec, run[k], steps[k]);
    }
  }

  /** Turns that were taken one after the other. */
  ghost predicate AreTurns(spec: Spec, run: seq<State>, steps: seq<Step>, ks: seq<nat>, ns: seq<nat>, end: nat)
    requires |run| == |steps| + 1
  {
    && |ks| == |ns|
    && (forall i :: 0 <= i < |ks| ==> ks[i] < |steps| && run[ks[i]].WellFormed() && TakesTurn(spec, run, steps, ks[i], ns[i]))
    && (forall i :: 0 <= i < |ks| ==> ns[i] <= if i + 1 < |ks| then ks[i + 1] else end)
  }

  lemma FewerTurns(spec: Spec, run: seq<State>, steps: seq<Step>, ks: seq<nat>, ns: seq<nat>, end: nat)
    requires |run| == |steps| + 1 && AreTurns(spec, run, steps, ks, ns, end) && ks != []
    ensures var m := |ks| - 1; AreTurns(spec, run, steps, ks[..m], ns[..m], ks[m])
  {
  }

  /** However they are spread over the run, there are at most eight of them, and after eight the round is
      over. */
  lemma {:induction false} AtMostEightTurns(spec: Spec, run: seq<State>, steps: seq<Step>, ks: seq<nat>, ns: seq<nat>, end: nat)
    requires IsRun(spec, run, steps) && IsFeasible(spec, run, steps) && end < |run|
    requires AreTurns(spec, run, steps, ks, ns, end)
    ensures run[end].WellFormed() && |ks| + Distance(spec, run[end]) <= 8
    ensures |ks| == 8 ==> Finished(spec, run[end])
    decreases |ks|
  {
    RoundInvRun(spec, run, steps, end);
    RoundIsOver(spec, run, steps, end);
    if ks != [] {
      var m := |ks| - 1;
      var k := ks[m];
      assert ns[m] <= end && TakesTurn(spec, run, steps, k, ns[m]);
      FewerTurns(spec, run, steps, ks, ns, end);
      AtMostEightTurns(spec, run, steps, ks[..m], ns[..m], k);
      EveryTurnCounts(spec, run, steps, k, k, ns[m], end);
    }
  }

  /** The round is over exactly when it is nobody's turn: the VM is Running, its pod is done, and if the
      record changed, the guest matches. */
  lemma RoundIsOver(spec: Spec, run: seq<State>, steps: seq<Step>, k: nat)
    requires IsRun(spec, run, steps) && IsFeasible(spec, run, steps) && k < |run|
    ensures run[k].WellFormed() && (Turn(spec, run[k]) == Nobody <==> Finished(spec, run[k]))
    ensures Finished(spec, run[k]) <==>
            var guest := run[k].guest;
            && run[k].Last() == Running
            && run[k].NewestPod().actual == Some(Resources(spec.vcpus, spec.memorySize + 268435456))
            && (|run[k].history| > 1 ==>
                  guest.vcpus == spec.vcpus && 19 * spec.memorySize <= 20 * guest.ram <= 21 * spec.memorySize)
  {
    RoundInvRun(spec, run, steps, k);
    MatchMeans(spec, run[k].guest);
    assert |run[k].history| == 4 ==> run[k].history[2] == ResizeInProgress;
  }

  predicate Finished(spec: Spec, s: State) {
    s.WellFormed() && s.Last() == Running && Done(spec, s.NewestPod()) && (|s.history| > 1 ==> GuestMatches(spec, s.guest))
  }

  // ---------------------------------------------------------------- continuations

  /** A step without a refusal, in which the controller reads no version of the pod older than `floor`. */
  predicate Fine(floor: nat, step: Step) {
    !step.KubeletRefuses? && (step.ReadPod? ==> floor <= step.podVersion)
  }

  ghost predicate IsFinePath(spec: Spec, floor: nat, run: seq<State>, steps: seq<Step>) {
    IsPath(spec, run, steps) && forall k :: 0 <= k < |steps| ==> Fine(floor, steps[k])
  }

  /** Some continuation of s ends in t. */
  ghost predicate Reaches(spec: Spec, floor: nat, s: State, t: State) {
    exists run: seq<State>, steps: seq<Step> :: Connects(spec, floor, run, steps, s, t)
  }

  ghost predicate Connects(spec: Spec, floor: nat, run: seq<State>, steps: seq<Step>, s: State, t: State) {
    IsFinePath(spec, floor, run, steps) && run[0] == s && run[|steps|] == t
  }

  lemma ReachesSelf(spec: Spec, floor: nat, s: State)
    ensures Reaches(spec, floor, s, s)
  {
    assert Connects(spec, floor, [s], [], s, s);
  }

  lemma AddStep(spec: Spec, floor: nat, s: State, t: State, step: Step) returns (u: State)
    requires Reaches(spec, floor, s, t) && Enabled(spec, t, step) && Fine(floor, step)
    ensures u == Apply(spec, t, step) && Reaches(spec, floor, s, u)
  {
    u := Apply(spec, t, step);
    var run, steps :| Connects(spec, floor, run, steps, s, t);
    var run', steps' := run + [u], steps + [step];
    forall k | 0 <= k < |steps'|
      ensures Follows(spec, run', steps', k) && Fine(floor, steps'[k])
    {
      assert k < |steps| ==> Follows(spec, run, steps, k) && Fine(floor, steps[k]);
    }
    assert Connects(spec, floor, run', steps', s, u);
  }

  /** Both agents start over. */
  lemma Rest(spec: Spec, floor: nat, s: State) returns (t: State)
    requires VersionsExist(s)
    ensures Reaches(spec, floor, s, t) && t == s.(controller := ControllerIdle, daemon := DaemonIdle)
  {
    ReachesSelf(spec, floor, s);
    t := AddStep(spec, floor, s, s, RestartController);
    t := AddStep(spec, floor, s, t, RestartDaemon);
  }

  predicate Resting(s: State) {
    VersionsExist(s) && s.controller.ControllerIdle? && s.daemon.DaemonIdle?
  }

  /** A controller pass over the newest record and version j of the pod, its effect and its write accepted. */
  lemma ControllerRound(spec: Spec, floor: nat, s: State, t: State, j: nat) returns (u: State)
    requires Reaches(spec, floor, s, t) && Resting(t) && floor <= j < |t.pods|
    ensures Reaches(spec, floor, s, u) && Resting(u) && u == AfterControllerPass(spec, t, j)
  {
    u := AddStep(spec, floor, s, t, ReadVm(|t.history| - 1));
    u := AddStep(spec, floor, s, u, ReadPod(j));
    u := AddStep(spec, floor, s, u, ActOnPod(true));
    u := AddStep(spec, floor, s, u, CommitByController);
  }

  lemma DaemonRound(spec: Spec, floor: nat, s: State, t: State) returns (u: State)
    requires Reaches(spec, floor, s, t) && Resting(t) && t.Last() == ResizeInProgress
    ensures Reaches(spec, floor, s, u) && Resting(u) && u == AfterDaemonPass(spec, t)
  {
    u := AddStep(spec, floor, s, t, DaemonReadsVm(|t.history| - 1));
    u := AddStep(spec, floor, s, u, DaemonReadsGuest);
    u := AddStep(spec, floor, s, u, ActOnGuest(true));
    u := AddStep(spec, floor, s, u, CommitByDaemon);
  }

  /** The VM is Running, its pod has the desired resources and its guest matches. */
  predicate Settled(spec: Spec, s: State) {
    s.WellFormed() && s.Last() == Running && Done(spec, s.NewestPod()) && GuestMatches(spec, s.guest)
  }

  /** From the guest stage the VM can settle. */
  lemma FinishGuest(spec: Spec, floor: nat, s: State, t: State) returns (u: State)
    requires Reaches(spec, floor, s, t) && Resting(t) && t.Last() == ResizeInProgress && Done(spec, t.NewestPod())
    ensures Reaches(spec, floor, s, u) && Settled(spec, u)
  {
    u := DaemonRound(spec, floor, s, t);
    if !GuestMatches(spec, t.guest) {
      u := AddStep(spec, floor, s, u, GuestChanges(spec.vcpus, spec.memorySize));
      u := DaemonRound(spec, floor, s, u);
    }
  }

  /** A pod that reports what was requested has no resize open. */
  predicate Reported(pod: Pod) {
    pod.actual == Some(pod.requested) && pod.resize == NoResize
  }

  lemma FinishPodOnce(spec: Spec, floor: nat, s: State, t: State) returns (u: State)
    requires Reaches(spec, floor, s, t) && Resting(t)
    requires t.NewestPod().resize != NoResize ==> t.NewestPod().actual != Some(t.NewestPod().requested)
    ensures Reaches(spec, floor, s, u) && Resting(u) && u.history == t.history && u.guest == t.guest
    ensures u.NewestPod().requested == t.NewestPod().requested && Reported(u.NewestPod()) && |u.pods| >= |t.pods|
  {
    u := t;
    if t.NewestPod().actual != Some(t.NewestPod().requested) {
      u := AddStep(spec, floor, s, t, KubeletFinishes);
    }
  }

  lemma AskForPod(spec: Spec, floor: nat, s: State, t: State) returns (u: State)
    requires Reaches(spec, floor, s, t) && Resting(t) && t.Last() == PodResizeInProgress && floor < |t.pods|
    requires Reported(t.NewestPod()) && !Done(spec, t.NewestPod())
    ensures Reaches(spec, floor, s, u) && Resting(u) && u.history == t.history && floor < |u.pods|
    ensures u.NewestPod() == t.NewestPod().(requested := Desired(spec))
  {
    u := ControllerRound(spec, floor, s, t, |t.pods| - 1);
  }

  lemma FinishSizedPod(spec: Spec, floor: nat, s: State, t: State) returns (u: State)
    requires Reaches(spec, floor, s, t) && Resting(t) && t.Last() == PodResizeInProgress && floor < |t.pods| && spec.vcpus > 0
    requires Reported(t.NewestPod()) && Done(spec, t.NewestPod())
    ensures Reaches(spec, floor, s, u) && Settled(spec, u)
  {
    u := ControllerRound(spec, floor, s, t, |t.pods| - 1);
    u := FinishGuest(spec, floor, s, u);
  }

  /** From the pod stage the VM can settle, whatever the pod is at and whatever the kubelet refused. */
  lemma FinishPod(spec: Spec, floor: nat, s: State, t: State) returns (u: State)
    requires Reaches(spec, floor, s, t) && Resting(t) && t.Last() == PodResizeInProgress && floor < |t.pods| && spec.vcpus > 0
    requires t.NewestPod().resize != NoResize ==> t.NewestPod().actual != Some(t.NewestPod().requested)
    ensures Reaches(spec, floor, s, u) && Settled(spec, u)
  {
    u := FinishPodOnce(spec, floor, s, t);
    if !Done(spec, u.NewestPod()) {
      u := AskForPod(spec, floor, s, u);
      u := FinishPodOnce(spec, floor, s, u);
    }
    u := FinishSizedPod(spec, floor, s, u);
  }

  /** A resize the kubelet refuses nothing of. In every run, however many copies are out of date, however
      many writes are rejected and however often the agents are restarted, the record changes at most
      three times, through one round of the phases; and from every state of the run some continuation
      brings the pod to the desired resources and the VM back to Running, with a guest that matches if
      the record changed at all. */
  lemma ResizeConverges(spec: Spec, run: seq<State>, steps: seq<Step>, k: nat) returns (t: State)
    requires IsRun(spec, run, steps) && IsFeasible(spec, run, steps) && k < |run|
    ensures run[k].history <= ONE_ROUND
    ensures Reaches(spec, run[k].podSeen, run[k], t) && t.WellFormed() && t.Last() == Running
    ensures t.NewestPod().actual == Some(Resources(spec.vcpus, spec.memorySize + 268435456))
    ensures |t.history| > 1 ==>
              t.guest.vcpus == spec.vcpus && 19 * spec.memorySize <= 20 * t.guest.ram <= 21 * spec.memorySize
  {
    RoundInvRun(spec, run, steps, k);
    t := CanFinish(spec, run[k]);
    MatchMeans(spec, t.guest);
  }

  lemma CanFinish(spec: Spec, s: State) returns (t: State)
    requires RoundInv(spec, s)
    ensures Reaches(spec, s.podSeen, s, t) && Finished(spec, t)
  {
    t := Rest(spec, s.podSeen, s);
    match s.Last()
    case ResizeInProgress => t := FinishGuest(spec, s.podSeen, s, t);
    case PodResizeInProgress => t := FinishPod(spec, s.podSeen, s, t);
    case Running =>
      if |s.history| == 1 {
        t := CanFinishFirst(spec, s.podSeen, s, t);
      } else {
        assert |s.history| == 4 && s.history[2] == ResizeInProgress;
      }
  }

  lemma CanFinishFirst(spec: Spec, floor: nat, s: State, t: State) returns (u: State)
    requires Reaches(spec, floor, s, t) && Resting(t) && t.history == [Running] && floor < |t.pods| && spec.vcpus > 0
    requires t.NewestPod().resize != NoResize ==> t.NewestPod().actual != Some(t.NewestPod().requested)
    ensures Reaches(spec, floor, s, u) && Finished(spec, u)
  {
    u := FinishPodOnce(spec, floor, s, t);
    if !Done(spec, u.NewestPod()) {
      u := ControllerRound(spec, floor, s, u, |u.pods| - 1);
      u := FinishPod(spec, floor, s, u);
    }
  }

  // ---------------------------------------------------------------- a VM at rest

  /** The record is Running over a pod that is done, and no version of the pod from `floor` on would
      start a resize, nor has one been started. */
  ghost predicate Quiet(spec: Spec, floor: nat, s: State) {
    && Inv(spec, s) && s.Last() == Running && Done(spec, s.NewestPod()) && spec.vcpus > 0
    && !CanStillDetect(spec, floor, s)
    && (s.controller.ControllerHasPod? ==> floor <= s.controller.podVersion)
    && (s.controller.ControllerDecided? && s.controller.version == |s.history| - 1 ==> s.controller.phase == Running)
  }

  /** A version of the pod that the controller may read sets the detector off. */
  ghost predicate CanStillDetect(spec: Spec, floor: nat, s: State) {
    exists j :: floor <= j < |s.pods| && DetectorDecides(spec, s.pods[j]) == PodResizeInProgress
  }

  lemma QuietStep(spec: Spec, floor: nat, s: State, step: Step)
    requires Quiet(spec, floor, s) && Enabled(spec, s, step) && Fine(floor, step)
    ensures Quiet(spec, floor, Apply(spec, s, step)) && Apply(spec, s, step).history == s.history
    ensures GuestMatches(spec, s.guest) ==> GuestMatches(spec, Apply(spec, s, step).guest)
    ensures !GuestMatches(spec, s.guest) && !s.guest.asked ==> Apply(spec, s, step).guest == s.guest
  {
    StepInv(spec, s, step);
  }

  lemma {:induction false} QuietPath(spec: Spec, floor: nat, run: seq<State>, steps: seq<Step>, k: nat)
    requires IsFinePath(spec, floor, run, steps) && k < |run| && Quiet(spec, floor, run[0])
    ensures Quiet(spec, floor, run[k]) && run[k].history == run[0].history
    ensures GuestMatches(spec, run[0].guest) ==> GuestMatches(spec, run[k].guest)
    ensures !GuestMatches(spec, run[0].guest) && !run[0].guest.asked ==> run[k].guest == run[0].guest
  {
    if k > 0 {
      QuietPath(spec, floor, run, steps, k - 1);
      assert Follows(spec, run, steps, k - 1) && Fine(floor, steps[k - 1]);
      QuietStep(spec, floor, run[k - 1], steps[k - 1]);
    }
  }

  lemma QuietReach(spec: Spec, floor: nat, s: State, t: State)
    requires Quiet(spec, floor, s) && Reaches(spec, floor, s, t)
    ensures t.history == s.history
    ensures GuestMatches(spec, s.guest) ==> GuestMatches(spec, t.guest)
    ensures !GuestMatches(spec, s.guest) && !s.guest.asked ==> t.guest == s.guest
  {
    var run, steps :| Connects(spec, floor, run, steps, s, t);
    QuietPath(spec, floor, run, steps, |steps|);
  }

  /** A Running VM with a finished pod starts another round exactly if the controller may still read a
      version of the pod that differs; reads that do not go back behind the finished pod rule that out. */
  lemma SettledStaysExactly(spec: Spec, floor: nat, s: State)
    requires Inv(spec, s) && Resting(s) && s.Last() == Running && Done(spec, s.NewestPod()) && spec.vcpus > 0
    ensures (exists t :: Reaches(spec, floor, s, t) && t.history != s.history) <==> CanStillDetect(spec, floor, s)
  {
    if CanStillDetect(spec, floor, s) {
      var t := DetectAgain(spec, floor, s);
      assert Reaches(spec, floor, s, t) && t.history != s.history;
    } else {
      forall t | Reaches(spec, floor, s, t)
        ensures t.history == s.history
      {
        QuietReach(spec, floor, s, t);
      }
    }
  }

  lemma DetectAgain(spec: Spec, floor: nat, s: State) returns (t: State)
    requires Resting(s) && s.Last() == Running && CanStillDetect(spec, floor, s)
    ensures Reaches(spec, floor, s, t) && Resting(t) && t.history == s.history + [PodResizeInProgress]
    ensures t.pods == s.pods && t.guest == s.guest
  {
    var j :| floor <= j < |s.pods| && DetectorDecides(spec, s.pods[j]) == PodResizeInProgress;
    ReachesSelf(spec, floor, s);
    t := ControllerRound(spec, floor, s, s, j);
  }

  // ---------------------------------------------------------------- refusals

  /** In every run, until the kubelet has carried the resize out, the VM is not taken to the guest stage,
      and the guest stays as it was: refusals, retries and detections change nothing else. */
  lemma {:induction false} NothingBeforeThePod(spec: Spec, run: seq<State>, steps: seq<Step>, k: nat)
    requires IsRun(spec, run, steps) && k < |run|
    ensures run[k].WellFormed()
    ensures !Done(spec, run[k].NewestPod()) ==>
              run[k].guest == run[0].guest && forall i :: 0 <= i < |run[k].history| ==> run[k].history[i] != ResizeInProgress
  {
    RunInv(spec, run, steps, k);
    if k > 0 && !Done(spec, run[k].NewestPod()) {
      NothingBeforeThePod(spec, run, steps, k - 1);
      assert Follows(spec, run, steps, k - 1);
      RunInv(spec, run, steps, k - 1);
      NotDoneBefore(spec, run[k - 1], steps[k - 1]);
    }
  }

  lemma NotDoneBefore(spec: Spec, s: State, step: Step)
    requires Inv(spec, s) && Enabled(spec, s, step) && !Done(spec, Apply(spec, s, step).NewestPod())
    ensures !Done(spec, s.NewestPod()) && Apply(spec, s, step).guest == s.guest
  {
    StepInv(spec, s, step);
    var s' := Apply(spec, s, step);
    assert s'.pods[|s.pods| - 1] == s.NewestPod();
  }

  /** And while its refusal stands, the VM does not come to rest either: from every such state of every
      run, passes of the controller alone change the record once more. */
  lemma RefusedVmNeverRests(spec: Spec, run: seq<State>, steps: seq<Step>, k: nat) returns (t: State)
    requires IsRun(spec, run, steps) && k < |run| && run[k].WellFormed()
    requires run[k].NewestPod().resize == Infeasible && run[k].NewestPod().actual.Some?
    requires !Done(spec, run[k].NewestPod())
    ensures Reaches(spec, |run[k].pods| - 1, run[k], t)
    ensures t.pods == run[k].pods && t.guest == run[k].guest && |t.history| == |run[k].history| + 1
  {
    RunInv(spec, run, steps, k);
    NothingBeforeThePod(spec, run, steps, k);
    var floor := |run[k].pods| - 1;
    t := Rest(spec, floor, run[k]);
    t := ControllerRound(spec, floor, run[k], t, floor);
  }

  /** Indeed every undisturbed pass of the controller over the newest record and pod does, and changes
      nothing else: the VM goes back and forth for as long as the refusal stands. */
  lemma EveryRefusedPassChangesRecord(spec: Spec, run: seq<State>, steps: seq<Step>, k: nat)
    requires IsRun(spec, run, steps) && IsControllerPass(run, steps, k)
    requires run[k].NewestPod().resize == Infeasible && run[k].NewestPod().actual.Some?
    requires !Done(spec, run[k].NewestPod())
    ensures run[k + 4].WellFormed() && run[k + 4].pods == run[k].pods && run[k + 4].guest == run[k].guest
    ensures run[k].Last() == Running ==> run[k + 4].history == run[k].history + [PodResizeInProgress]
    ensures run[k].Last() != Running ==> run[k + 4].history == run[k].history + [Running]
  {
    RunInv(spec, run, steps, k);
    NothingBeforeThePod(spec, run, steps, k);
    ControllerPassDoes(spec, run, steps, k);
  }

  /** A resize that is carried out late. When the pod is done and the guest does not match, the guest can
      still come to match if and only if the record is not Running, or the controller may still read a
      version of the pod that differs. Otherwise the resize is missed for ever. */
  lemma LateResizeIsMissedExactly(spec: Spec, floor: nat, s: State)
    requires Inv(spec, s) && Resting(s) && Done(spec, s.NewestPod()) && spec.vcpus > 0 && floor < |s.pods|
    requires !GuestMatches(spec, s.guest) && !s.guest.asked
    ensures (exists t :: Reaches(spec, floor, s, t) && GuestMatches(spec, t.guest)) <==>
            s.Last() != Running || CanStillDetect(spec, floor, s)
  {
    if s.Last() != Running || CanStillDetect(spec, floor, s) {
      ReachesSelf(spec, floor, s);
      var t := s;
      if s.Last() == Running {
        t := DetectAgain(spec, floor, s);
      }
      if t.Last() == PodResizeInProgress {
        t := FinishPod(spec, floor, s, t);
      } else {
        t := FinishGuest(spec, floor, s, t);
      }
      assert Reaches(spec, floor, s, t) && GuestMatches(spec, t.guest);
    } else {
      forall t | Reaches(spec, floor, s, t)
        ensures !GuestMatches(spec, t.guest)
      {
        QuietReach(spec, floor, s, t);
      }
    }
  }
}
