/** Why handover safety speaks of stretches in which the VM is not put back to Pending: a VM whose
    completed pod is removed while its migration is Sent fails, is given a new pod, keeps the Sent
    migration, and is then taken over by the old target while the new pod executes it. The run below
    begins at the beginning and has no read that is out of date. */
module Rescheduling {
  import opened Wrappers
  import opened VmRecord
  import opened Daemon
  import opened Controller
  import opened Protocol

  // ---------------------------------------------------------------- runs without outdated reads

  /** What a read of the pod gives now. */
  predicate PodIs(s: State, pod: string, v: PodView) {
    if pod in s.pods then v.Found? && v.phase == s.pods[pod].phase && v.uid == s.pods[pod].uid else v == NotFound
  }

  /** The pod as it is, or as it was before this pass created it. */
  predicate PodWas(s: State, last: Option<Step>, pod: string, v: PodView) {
    PodIs(s, pod, v) || (last.Some? && last.value.CreatePod? && last.value.pod == pod && v == NotFound)
  }

  /** Every read is current, a pass over a VM that is to start again deletes all its pods, the collector
      misses no pod, a guest answers only while its pod executes, and a pod that executes leaves only
      after it was marked. */
  ghost predicate Accurate(s: State, last: Option<Step>, step: Step)
    requires Enabled(s, step)
  {
    match step
    case ReadByController(i) => i == |s.history| - 1
    case ReadByDaemon(_, i) => i == |s.history| - 1
    case CommitByController(v) =>
      var c := s.controller.copy;
      && PodWas(s, last, c.podName, v.vmPod)
      && (c.migration.Some? ==> PodWas(s, last, c.migration.value.targetPodName, v.targetPod))
      && (DeletesPods(c) ==> s.pods.Keys <= s.marked)
    case EndGc => forall p :: p in s.pods ==> p in s.marked || Spared(s.controller.committed, p)
    case RestartController => false
    case FinishDaemon(n, v) =>
      var c := s.daemons[n].copy;
      && PodIs(s, c.podName, v.vmPod)
      && (v.guest == GuestRunning ==> s.Active(c.podName))
      && (v.targetGuest == GuestRunning ==> c.migration.Some? && s.Active(c.migration.value.targetPodName))
    case RemovePod(p) => p in s.marked || !s.Active(p)
    case _ => true
  }

  function StepBefore(steps: seq<Step>, k: nat): Option<Step>
    requires k <= |steps|
  {
    if k == 0 then None else Some(steps[k - 1])
  }

  ghost predicate Careful(run: seq<State>, steps: seq<Step>, k: nat)
    requires k < |steps| < |run|
  {
    Follows(run, steps, k) && Accurate(run[k], StepBefore(steps, k), steps[k])
  }

  /** A run from the beginning in which every read is accurate. */
  ghost predicate IsAccurateRun(run: seq<State>, steps: seq<Step>) {
    && |run| == |steps| + 1 && Init(run[0])
    && forall k :: 0 <= k < |steps| ==> Careful(run, steps, k)
  }

  lemma AccurateRunIsRun(run: seq<State>, steps: seq<Step>)
    requires IsAccurateRun(run, steps)
    ensures IsRun(run, steps)
  {
    forall k | 0 <= k < |steps|
      ensures Follows(run, steps, k)
    {
      assert Careful(run, steps, k);
    }
  }

  lemma Extend(run: seq<State>, steps: seq<Step>, step: Step) returns (run': seq<State>, steps': seq<Step>)
    requires IsAccurateRun(run, steps)
    requires Enabled(run[|steps|], step) && Accurate(run[|steps|], StepBefore(steps, |steps|), step)
    ensures steps' == steps + [step] && run' == run + [Apply(run[|steps|], step)]
    ensures IsAccurateRun(run', steps')
  {
    run', steps' := run + [Apply(run[|steps|], step)], steps + [step];
    forall k | 0 <= k < |steps'|
      ensures Careful(run', steps', k)
    {
      assert k < |steps| ==> Careful(run, steps, k);
    }
  }

  // ---------------------------------------------------------------- rounds

  /** Nobody is in a pass; this is the newest record, and these are the pods. */
  predicate Rests(s: State, r: Record, pods: map<string, Pod>, marked: set<string>) {
    && s.WellFormed() && s.controller.ControllerIdle? && s.daemons == map[]
    && s.Last() == r && s.pods == pods && s.marked == marked
    && forall p :: p in pods && pods[p].phase == PodSucceeded ==> pods[p].uid in s.completed && s.completed[pods[p].uid] == p
  }

  /** One controller pass that changes the record and finds no pod to collect. */
  lemma ControllerRound(run: seq<State>, steps: seq<Step>, v: ControllerView,
                        c: Record, pods: map<string, Pod>, marked: set<string>, r: Record)
    returns (run': seq<State>, steps': seq<Step>)
    requires IsAccurateRun(run, steps) && Rests(run[|steps|], c, pods, marked)
    requires ControllerPass(c, v) == ControllerResult(r, true) && r != c
    requires PodIs(run[|steps|], c.podName, v.vmPod)
    requires c.migration.Some? ==> PodIs(run[|steps|], c.migration.value.targetPodName, v.targetPod)
    requires DeletesPods(c) ==> pods.Keys <= marked
    requires forall p :: p in pods ==> p in marked || Spared(r, p)
    ensures IsAccurateRun(run', steps') && Rests(run'[|steps'|], r, pods, marked)
    ensures run[|steps|].history <= run'[|steps'|].history && run'[|steps'|].born == run[|steps|].born
  {
    var s := run[|steps|];
    run', steps' := Extend(run, steps, ReadByController(|s.history| - 1));
    run', steps' := Extend(run', steps', CommitByController(v));
    run', steps' := Extend(run', steps', EndGc);
  }

  /** One controller pass that creates a pod. */
  lemma CreatePass(run: seq<State>, steps: seq<Step>, v: ControllerView, pod: string, uid: string,
                   c: Record, pods: map<string, Pod>, marked: set<string>)
    returns (run': seq<State>, steps': seq<Step>)
    requires IsAccurateRun(run, steps) && Rests(run[|steps|], c, pods, marked)
    requires CreatesNow(run[|steps|], v, pod, uid, c, pods, marked)
    ensures IsAccurateRun(run', steps') && Rests(run'[|steps'|], c, pods[pod := Pod(uid, PodPending)], marked)
    ensures run[|steps|].history <= run'[|steps'|].history && run'[|steps'|].born == run[|steps|].born + {uid}
  {
    var s := run[|steps|];
    run', steps' := Extend(run, steps, ReadByController(|s.history| - 1));
    run', steps' := Extend(run', steps', CreatePod(pod, uid));
    run', steps' := Extend(run', steps', CommitByController(v));
    run', steps' := Extend(run', steps', EndGc);
  }

  predicate CreatesNow(s: State, v: ControllerView, pod: string, uid: string, c: Record, pods: map<string, Pod>, marked: set<string>) {
    && MayCreate(c, pod) && pod != "" && pod !in pods && uid !in s.born
    && ControllerPass(c, v) == ControllerResult(c, true)
    && (if pod == c.podName then v.vmPod == NotFound else PodIs(s, c.podName, v.vmPod))
    && (c.migration.Some? && pod != c.migration.value.targetPodName ==>
          PodIs(s, c.migration.value.targetPodName, v.targetPod))
    && (c.migration.Some? && pod == c.migration.value.targetPodName ==> v.targetPod == NotFound)
    && forall p :: p in pods ==> p in marked || Spared(c, p)
  }

  /** Such a pass, after which the pod starts. */
  lemma CreateRound(run: seq<State>, steps: seq<Step>, v: ControllerView, pod: string, uid: string,
                    c: Record, pods: map<string, Pod>, marked: set<string>)
    returns (run': seq<State>, steps': seq<Step>)
    requires IsAccurateRun(run, steps) && Rests(run[|steps|], c, pods, marked)
    requires CreatesNow(run[|steps|], v, pod, uid, c, pods, marked)
    ensures IsAccurateRun(run', steps') && Rests(run'[|steps'|], c, pods[pod := Pod(uid, PodRunning)], marked)
    ensures run[|steps|].history <= run'[|steps'|].history && run'[|steps'|].born == run[|steps|].born + {uid}
  {
    run', steps' := CreatePass(run, steps, v, pod, uid, c, pods, marked);
    run', steps' := Extend(run', steps', AdvancePod(pod, PodRunning));
    assert pods[pod := Pod(uid, PodPending)][pod := Pod(uid, PodRunning)] == pods[pod := Pod(uid, PodRunning)];
  }

  /** One daemon pass that changes the record, whatever block the daemon holds. */
  lemma DaemonRound(run: seq<State>, steps: seq<Step>, n: string, v: DaemonView,
                    c: Record, pods: map<string, Pod>, marked: set<string>, r: Record)
    returns (run': seq<State>, steps': seq<Step>)
    requires IsAccurateRun(run, steps) && Rests(run[|steps|], c, pods, marked)
    requires (forall block :: DaemonPass(n, c, block, v).record == r) && r != c
    requires PodIs(run[|steps|], c.podName, v.vmPod)
    requires v.guest == GuestRunning ==> run[|steps|].Active(c.podName)
    requires v.targetGuest == GuestRunning ==> c.migration.Some? && run[|steps|].Active(c.migration.value.targetPodName)
    ensures IsAccurateRun(run', steps') && Rests(run'[|steps'|], r, pods, marked)
    ensures run[|steps|].history <= run'[|steps'|].history && run'[|steps'|].born == run[|steps|].born
    ensures run'[|steps'| - 1].WellFormed() && run'[|steps'| - 1].Last() == c && run'[|steps'| - 1].pods == pods
    ensures |steps'| > 0 && steps'[|steps'| - 1] == FinishDaemon(n, v)
  {
    var s := run[|steps|];
    run', steps' := Extend(run, steps, ReadByDaemon(n, |s.history| - 1));
    run', steps' := Extend(run', steps', FinishDaemon(n, v));
  }

  const CALM := ControllerView(
    NotFound, NotFound, NotFound, "", true, true, true, true, true, true, false, ResizeIncomplete, true, true, false)

  const WELL := DaemonView(
    NotFound, false, false, GuestUnreachable, false, true, true, true, true, true, false, GuestUnreachable)

  // ---------------------------------------------------------------- the run

  /** The names in the run: three pods with their UIDs, and the nodes they are scheduled to. */
  datatype Cast = Cast(pod: string, uid: string, node: string, target: string, targetUid: string, targetNode: string,
                       newPod: string, newUid: string, newNode: string)
  {
    predicate Distinct() {
      && pod != "" && target != "" && newPod != "" && pod != target && pod != newPod && target != newPod
      && uid != targetUid && uid != newUid && targetUid != newUid
      && node != "" && targetNode != "" && newNode != "" && node != targetNode
    }

    /** The migration, in some phase. */
    function Moving(p: MigrationPhase): Migration {
      if p == MigrationPhase.Scheduling then Migration(p, target, "", "") else Migration(p, target, targetUid, targetNode)
    }

    function First(p: VmPhase): Record {
      if p == VmPhase.Scheduling then Record(p, "", pod, "", None) else Record(p, node, pod, uid, None)
    }

    /** Pods: the first one, with the target, the target alone, with the new one. */
    function Alone(): map<string, Pod> {
      map[pod := Pod(uid, PodRunning)]
    }

    function Both(p: PodPhase): map<string, Pod> {
      map[pod := Pod(uid, p), target := Pod(targetUid, PodRunning)]
    }

    function Left(): map<string, Pod> {
      map[target := Pod(targetUid, PodRunning)]
    }

    function New(): map<string, Pod> {
      map[target := Pod(targetUid, PodRunning), newPod := Pod(newUid, PodRunning)]
    }

    function Migrating(p: MigrationPhase): Record {
      First(VmPhase.Running).(migration := Some(Moving(p)))
    }
  }

  /** A new VM is given its first pod. */
  lemma Begin(x: Cast) returns (run: seq<State>, steps: seq<Step>)
    requires x.Distinct()
    ensures IsAccurateRun(run, steps)
    ensures Rests(run[|steps|], x.First(VmPhase.Scheduling), x.Alone(), {})
    ensures run[|steps|].born == {x.uid} && x.First(VmPhase.Scheduling) in run[|steps|].history
  {
    var blank := Record(VmPhase.Unset, "", "", "", None);
    run, steps := [State([blank], ControllerIdle, map[], map[], map[], 0, map[], {}, {}, map[])], [];
    run, steps := ControllerRound(run, steps, CALM.(runAgain := true), blank, map[], {}, blank.(phase := VmPhase.Pending));
    run, steps := ControllerRound(run, steps, CALM.(freshName := x.pod), blank.(phase := VmPhase.Pending), map[], {},
                                  x.First(VmPhase.Scheduling));
    run, steps := CreateRound(run, steps, CALM, x.pod, x.uid, x.First(VmPhase.Scheduling), map[], {});
  }

  /** It is started. */
  lemma Start(x: Cast) returns (run: seq<State>, steps: seq<Step>)
    requires x.Distinct()
    ensures IsAccurateRun(run, steps)
    ensures Rests(run[|steps|], x.First(VmPhase.Running), x.Alone(), {})
    ensures run[|steps|].born == {x.uid} && x.First(VmPhase.Scheduling) in run[|steps|].history
  {
    run, steps := Begin(x);
    var pods := x.Alone();
    run, steps := ControllerRound(run, steps, CALM.(vmPod := Found(PodRunning, x.uid, x.node)),
                                  x.First(VmPhase.Scheduling), pods, {}, x.First(VmPhase.Scheduled));
    run, steps := DaemonRound(run, steps, x.node, WELL.(vmPod := Found(PodRunning, x.uid, ""), guest := GuestRunning),
                              x.First(VmPhase.Scheduled), pods, {}, x.First(VmPhase.Running));
  }

  /** Its migration is requested, and the target pod created. */
  lemma Request(x: Cast) returns (run: seq<State>, steps: seq<Step>)
    requires x.Distinct()
    ensures IsAccurateRun(run, steps) && run[|steps|].born == {x.uid, x.targetUid} && x.First(VmPhase.Scheduling) in run[|steps|].history
    ensures Rests(run[|steps|], x.Migrating(MigrationPhase.Scheduling), x.Both(PodRunning), {})
  {
    run, steps := Start(x);
    var pods := x.Alone();
    var sees := CALM.(vmPod := Found(PodRunning, x.uid, x.node));
    run, steps := Extend(run, steps, RequestMigration);
    run, steps := ControllerRound(run, steps, sees.(freshName := x.target),
                                  x.First(VmPhase.Running).(migration := Some(REQUESTED)), pods, {},
                                  x.Migrating(MigrationPhase.Scheduling));
    run, steps := CreateRound(run, steps, sees, x.target, x.targetUid, x.Migrating(MigrationPhase.Scheduling), pods, {});
    assert pods[x.target := Pod(x.targetUid, PodRunning)] == x.Both(PodRunning);
  }

  /** The target pod is running, so the migration is scheduled. */
  lemma Schedule(x: Cast) returns (run: seq<State>, steps: seq<Step>)
    requires x.Distinct()
    ensures IsAccurateRun(run, steps) && run[|steps|].born == {x.uid, x.targetUid} && x.First(VmPhase.Scheduling) in run[|steps|].history
    ensures Rests(run[|steps|], x.Migrating(MigrationPhase.Scheduled), x.Both(PodRunning), {})
  {
    run, steps := Request(x);
    var both := x.Both(PodRunning);
    var sees := CALM.(vmPod := Found(PodRunning, x.uid, x.node));
    run, steps := ControllerRound(run, steps, sees.(targetPod := Found(PodRunning, x.targetUid, x.targetNode)),
                                  x.Migrating(MigrationPhase.Scheduling), both, {}, x.Migrating(MigrationPhase.Scheduled));
  }

  /** Both daemons start their halves. */
  lemma Transfer(x: Cast) returns (run: seq<State>, steps: seq<Step>)
    requires x.Distinct()
    ensures IsAccurateRun(run, steps) && run[|steps|].born == {x.uid, x.targetUid} && x.First(VmPhase.Scheduling) in run[|steps|].history
    ensures Rests(run[|steps|], x.Migrating(MigrationPhase.Running), x.Both(PodRunning), {})
  {
    run, steps := Schedule(x);
    var both := x.Both(PodRunning);
    var sees := WELL.(vmPod := Found(PodRunning, x.uid, ""));
    run, steps := DaemonRound(run, steps, x.targetNode, sees,
                              x.Migrating(MigrationPhase.Scheduled), both, {}, x.Migrating(MigrationPhase.TargetReady));
    run, steps := DaemonRound(run, steps, x.node, sees,
                              x.Migrating(MigrationPhase.TargetReady), both, {}, x.Migrating(MigrationPhase.Running));
  }

  /** The guest is sent, and the pod it was in completes. */
  lemma Send(x: Cast) returns (run: seq<State>, steps: seq<Step>)
    requires x.Distinct()
    ensures IsAccurateRun(run, steps) && run[|steps|].born == {x.uid, x.targetUid}
    ensures Rests(run[|steps|], x.Migrating(MigrationPhase.Sent), x.Both(PodSucceeded), {})
  {
    run, steps := Transfer(x);
    var both := x.Both(PodRunning);
    run, steps := Extend(run, steps, AdvancePod(x.pod, PodSucceeded));
    var done := x.Both(PodSucceeded);
    assert both[x.pod := Pod(x.uid, PodSucceeded)] == done;
    run, steps := DaemonRound(run, steps, x.node, WELL.(vmPod := Found(PodSucceeded, x.uid, "")),
                              x.Migrating(MigrationPhase.Running), done, {}, x.Migrating(MigrationPhase.Sent));
  }

  /** The completed pod is removed, so the VM fails. */
  lemma Fail(x: Cast) returns (run: seq<State>, steps: seq<Step>)
    requires x.Distinct()
    ensures IsAccurateRun(run, steps) && run[|steps|].born == {x.uid, x.targetUid}
    ensures Rests(run[|steps|], x.Migrating(MigrationPhase.Sent).(phase := VmPhase.Failed), x.Left(), {})
  {
    run, steps := Send(x);
    var sent := x.Migrating(MigrationPhase.Sent);
    var left := x.Left();
    var sees := CALM.(targetPod := Found(PodRunning, x.targetUid, x.targetNode));
    run, steps := Extend(run, steps, RemovePod(x.pod));
    assert x.Both(PodSucceeded) - {x.pod} == left;
    run, steps := ControllerRound(run, steps, sees, sent, left, {}, sent.(phase := VmPhase.Failed));
  }

  /** All its pods are deleted, the target among them, and it is put back to Pending. */
  lemma PutBack(x: Cast) returns (run: seq<State>, steps: seq<Step>)
    requires x.Distinct()
    ensures IsAccurateRun(run, steps) && run[|steps|].born == {x.uid, x.targetUid}
    ensures Rests(run[|steps|], x.Migrating(MigrationPhase.Sent).(phase := VmPhase.Pending),
                  x.Left(), {x.target})
  {
    run, steps := Fail(x);
    var sees := CALM.(targetPod := Found(PodRunning, x.targetUid, x.targetNode));
    run, steps := Extend(run, steps, ReadByController(|run[|steps|].history| - 1));
    run, steps := Extend(run, steps, MarkPod(x.target));
    run, steps := Extend(run, steps, CommitByController(sees.(runAgain := true)));
    run, steps := Extend(run, steps, EndGc);
  }

  /** The VM after it was given a new pod. */
  function Again(x: Cast, p: VmPhase): Record {
    var sent := Some(x.Moving(MigrationPhase.Sent));
    if p == VmPhase.Scheduling then Record(p, x.node, x.newPod, x.uid, sent) else Record(p, x.newNode, x.newPod, x.newUid, sent)
  }

  /** It is given a new pod. */
  lemma NewPod(x: Cast) returns (run: seq<State>, steps: seq<Step>)
    requires x.Distinct()
    ensures IsAccurateRun(run, steps)
    ensures Rests(run[|steps|], Again(x, VmPhase.Scheduling), x.New(), {x.target})
  {
    run, steps := PutBack(x);
    var left := x.Left();
    var both := x.New();
    var sees := CALM.(targetPod := Found(PodRunning, x.targetUid, x.targetNode));
    run, steps := ControllerRound(run, steps, sees.(freshName := x.newPod),
                                  x.Migrating(MigrationPhase.Sent).(phase := VmPhase.Pending), left, {x.target},
                                  Again(x, VmPhase.Scheduling));
    run, steps := CreateRound(run, steps, sees, x.newPod, x.newUid, Again(x, VmPhase.Scheduling), left, {x.target});
    assert left[x.newPod := Pod(x.newUid, PodRunning)] == both;
  }

  /** It runs again, in the new pod. */
  lemma Restart(x: Cast) returns (run: seq<State>, steps: seq<Step>)
    requires x.Distinct()
    ensures IsAccurateRun(run, steps)
    ensures Rests(run[|steps|], Again(x, VmPhase.Running), x.New(), {x.target})
  {
    run, steps := NewPod(x);
    var both := x.New();
    var sees := CALM.(targetPod := Found(PodRunning, x.targetUid, x.targetNode));
    run, steps := ControllerRound(run, steps, sees.(vmPod := Found(PodRunning, x.newUid, x.newNode)),
                                  Again(x, VmPhase.Scheduling), both, {x.target}, Again(x, VmPhase.Scheduled));
    run, steps := DaemonRound(run, steps, x.newNode, WELL.(vmPod := Found(PodRunning, x.newUid, ""), guest := GuestRunning),
                              Again(x, VmPhase.Scheduled), both, {x.target}, Again(x, VmPhase.Running));
  }

  /** For all names: a run from the beginning, without any outdated read, at whose end the target takes
      over a Running VM while the pod that owns it executes; the target's own pod was marked for deletion
      when the VM was put back to Pending. */
  lemma RescheduledVmCanBeTakenOver(x: Cast) returns (run: seq<State>, steps: seq<Step>)
    requires x.Distinct()
    ensures IsAccurateRun(run, steps) && IsRun(run, steps) && |steps| > 0
    ensures var before, after := run[|steps| - 1], run[|steps|];
            && before.WellFormed() && after.WellFormed()
            && before.Last().phase == after.Last().phase == VmPhase.Running
            && before.Last().Owner() == (x.newNode, x.newPod, x.newUid) && before.Last().MigrationIn(MigrationPhase.Sent)
            && after.Last().Owner() == (x.targetNode, x.target, x.targetUid) && after.Last().MigrationIn(MigrationPhase.Succeeded)
            && after.Active(x.newPod) && x.target in after.marked
  {
    run, steps := Restart(x);
    var both := x.New();
    run, steps := DaemonRound(run, steps, x.targetNode,
                              WELL.(vmPod := Found(PodRunning, x.newUid, ""), targetGuest := GuestRunning),
                              Again(x, VmPhase.Running), both, {x.target}, HandedOver(Again(x, VmPhase.Running)));
    AccurateRunIsRun(run, steps);
  }
}
