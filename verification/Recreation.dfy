/** Why handover safety speaks of pods created under the owner's name: in Scheduling the controller
    creates a pod whenever it finds none of the recorded name, whether or not one of that name has
    completed. A controller that still reads the Scheduling version of a VM whose guest has been sent
    creates the completed pod again, and the target then takes the VM over while that pod executes. */
module Recreation {
  import opened Wrappers
  import opened VmRecord
  import opened Daemon
  import opened Controller
  import opened Protocol
  import opened MigrationSafety
  import opened Rescheduling

  /** The VM is Running in every state from a on. */
  ghost predicate RunningSince(run: seq<State>, a: nat) {
    forall k :: a <= k < |run| ==> run[k].WellFormed() && run[k].Last().phase == VmPhase.Running
  }

  /** A run whose VM is Running since a, where its migration was not Sent yet. */
  ghost predicate Tale(run: seq<State>, steps: seq<Step>, a: nat) {
    IsRun(run, steps) && a <= |steps| && RunningSince(run, a) && !run[a].Last().MigrationIn(MigrationPhase.Sent)
  }

  lemma GoOn(run: seq<State>, steps: seq<Step>, a: nat, step: Step) returns (run': seq<State>, steps': seq<Step>)
    requires Tale(run, steps, a) && Enabled(run[|steps|], step)
    requires Apply(run[|steps|], step).WellFormed() && Apply(run[|steps|], step).Last().phase == VmPhase.Running
    ensures Tale(run', steps', a) && |steps'| == |steps| + 1
    ensures run'[|steps'|] == Apply(run[|steps|], step) && run'[|steps|] == run[|steps|]
  {
    run', steps' := run + [Apply(run[|steps|], step)], steps + [step];
    forall k | 0 <= k < |steps'|
      ensures Follows(run', steps', k)
    {
      assert k < |steps| ==> Follows(run, steps, k);
    }
  }

  /** One daemon pass over the newest record. */
  lemma DaemonGoesOn(run: seq<State>, steps: seq<Step>, a: nat, n: string, v: DaemonView,
                     c: Record, pods: map<string, Pod>, r: Record)
    returns (run': seq<State>, steps': seq<Step>)
    requires Tale(run, steps, a) && Rests(run[|steps|], c, pods, {})
    requires (forall block :: DaemonPass(n, c, block, v).record == r) && r != c && r.phase == c.phase == VmPhase.Running
    requires HonestView(run[|steps|], c.podName, v.vmPod)
    ensures Tale(run', steps', a) && Rests(run'[|steps'|], r, pods, {})
    ensures run[|steps|].history <= run'[|steps'|].history && run'[|steps'|].born == run[|steps|].born
    ensures |steps'| > a && run'[|steps'| - 1].Last() == c
  {
    var s := run[|steps|];
    run', steps' := GoOn(run, steps, a, ReadByDaemon(n, |s.history| - 1));
    run', steps' := GoOn(run', steps', a, FinishDaemon(n, v));
  }

  /** A pod that executes moves to another phase. */
  lemma PodGoesOn(run: seq<State>, steps: seq<Step>, a: nat, pod: string, ph: PodPhase, c: Record, pods: map<string, Pod>)
    returns (run': seq<State>, steps': seq<Step>)
    requires Tale(run, steps, a) && Rests(run[|steps|], c, pods, {}) && c.phase == VmPhase.Running
    requires pod in pods && run[|steps|].Active(pod) && forall p :: p in pods && p != pod ==> pods[p].uid != pods[pod].uid
    ensures Tale(run', steps', a) && Rests(run'[|steps'|], c, pods[pod := pods[pod].(phase := ph)], {})
    ensures run'[|steps'|].history == run[|steps|].history && run'[|steps'|].born == run[|steps|].born
  {
    run', steps' := GoOn(run, steps, a, AdvancePod(pod, ph));
  }

  /** A completed pod is removed. */
  lemma PodGoes(run: seq<State>, steps: seq<Step>, a: nat, pod: string, c: Record, pods: map<string, Pod>)
    returns (run': seq<State>, steps': seq<Step>)
    requires Tale(run, steps, a) && Rests(run[|steps|], c, pods, {}) && c.phase == VmPhase.Running && pod in pods
    ensures Tale(run', steps', a) && Rests(run'[|steps'|], c, pods - {pod}, {})
    ensures run'[|steps'|].history == run[|steps|].history && run'[|steps'|].born == run[|steps|].born
  {
    run', steps' := GoOn(run, steps, a, RemovePod(pod));
    assert {} - {pod} == {};
  }

  lemma SendOn(x: Cast) returns (run: seq<State>, steps: seq<Step>, a: nat)
    requires x.Distinct()
    ensures Tale(run, steps, a) && Rests(run[|steps|], x.Migrating(MigrationPhase.Sent), x.Both(PodSucceeded), {})
    ensures run[|steps|].born == {x.uid, x.targetUid} && x.First(VmPhase.Scheduling) in run[|steps|].history
  {
    run, steps, a := Complete(x);
    assert x.Both(PodSucceeded)[x.pod].phase == PodSucceeded;
    run, steps := DaemonGoesOn(run, steps, a, x.node, WELL.(vmPod := Found(PodSucceeded, x.uid, "")),
                               x.Migrating(MigrationPhase.Running), x.Both(PodSucceeded), x.Migrating(MigrationPhase.Sent));
  }

  /** The guest has been sent and the completed pod removed. */
  lemma SendAndRemove(x: Cast) returns (run: seq<State>, steps: seq<Step>, a: nat)
    requires x.Distinct()
    ensures Tale(run, steps, a) && Rests(run[|steps|], x.Migrating(MigrationPhase.Sent), x.Left(), {})
    ensures run[|steps|].born == {x.uid, x.targetUid} && x.First(VmPhase.Scheduling) in run[|steps|].history
  {
    run, steps, a := SendOn(x);
    run, steps := PodGoes(run, steps, a, x.pod, x.Migrating(MigrationPhase.Sent), x.Both(PodSucceeded));
    assert x.Both(PodSucceeded) - {x.pod} == x.Left();
  }

  lemma Complete(x: Cast) returns (run: seq<State>, steps: seq<Step>, a: nat)
    requires x.Distinct()
    ensures Tale(run, steps, a) && Rests(run[|steps|], x.Migrating(MigrationPhase.Running), x.Both(PodSucceeded), {})
    ensures run[|steps|].born == {x.uid, x.targetUid} && x.First(VmPhase.Scheduling) in run[|steps|].history
  {
    run, steps := Transfer(x);
    AccurateRunIsRun(run, steps);
    a := |steps|;
    run, steps := PodGoesOn(run, steps, a, x.pod, PodSucceeded, x.Migrating(MigrationPhase.Running), x.Both(PodRunning));
    assert x.Both(PodRunning)[x.pod := Pod(x.uid, PodSucceeded)] == x.Both(PodSucceeded);
  }

  /** A controller pass over an old Scheduling version, whose write is rejected, creates a pod. */
  lemma OldPassCreates(run: seq<State>, steps: seq<Step>, a: nat, i: nat, pod: string, uid: string,
                       c: Record, pods: map<string, Pod>)
    returns (run': seq<State>, steps': seq<Step>)
    requires Tale(run, steps, a) && Rests(run[|steps|], c, pods, {}) && c.phase == VmPhase.Running
    requires i < |run[|steps|].history|
    requires var outdated := run[|steps|].history[i]; outdated.phase == VmPhase.Scheduling && outdated.podName == pod
    requires pod != "" && pod !in pods && uid !in run[|steps|].born
    ensures Tale(run', steps', a) && Rests(run'[|steps'|], c, pods[pod := Pod(uid, PodPending)], {})
  {
    run', steps' := GoOn(run, steps, a, ReadByController(i));
    run', steps' := GoOn(run', steps', a, CreatePod(pod, uid));
    run', steps' := GoOn(run', steps', a, CommitByController(CALM));
  }

  /** The controller, still at the Scheduling version, creates the pod again. */
  lemma CreateOld(x: Cast) returns (run: seq<State>, steps: seq<Step>, a: nat)
    requires x.Distinct()
    ensures Tale(run, steps, a)
    ensures Rests(run[|steps|], x.Migrating(MigrationPhase.Sent), x.Left()[x.pod := Pod(x.newUid, PodPending)], {})
  {
    run, steps, a := SendAndRemove(x);
    var i :| 0 <= i < |run[|steps|].history| && run[|steps|].history[i] == x.First(VmPhase.Scheduling);
    run, steps := OldPassCreates(run, steps, a, i, x.pod, x.newUid, x.Migrating(MigrationPhase.Sent), x.Left());
  }

  /** And it starts. */
  lemma CreateAgain(x: Cast) returns (run: seq<State>, steps: seq<Step>, a: nat)
    requires x.Distinct()
    ensures Tale(run, steps, a)
    ensures Rests(run[|steps|], x.Migrating(MigrationPhase.Sent), x.Left()[x.pod := Pod(x.newUid, PodRunning)], {})
  {
    run, steps, a := CreateOld(x);
    var pods := x.Left()[x.pod := Pod(x.newUid, PodPending)];
    run, steps := PodGoesOn(run, steps, a, x.pod, PodRunning, x.Migrating(MigrationPhase.Sent), pods);
    assert pods[x.pod := Pod(x.newUid, PodRunning)] == x.Left()[x.pod := Pod(x.newUid, PodRunning)];
  }

  /** For all names: a run in whose last part, from before the migration is Sent, the VM is always Running,
      and at whose end it is handed over while a pod of the owner's name executes. So handover safety
      needs its condition on the creation of pods. */
  lemma RecreatedPodIsTakenOver(x: Cast) returns (run: seq<State>, steps: seq<Step>, a: nat)
    requires x.Distinct()
    ensures IsRun(run, steps) && a < |steps| && RunningSince(run, a) && NotRescheduled(run, a, |steps| - 1)
    ensures !run[a].Last().MigrationIn(MigrationPhase.Sent)
    ensures var before, after := run[|steps| - 1], run[|steps|];
            && before.Last().Owner() == (x.node, x.pod, x.uid) && before.Last().MigrationIn(MigrationPhase.Sent)
            && after.Last().Owner() == (x.targetNode, x.target, x.targetUid) && after.Last().MigrationIn(MigrationPhase.Succeeded)
            && after.Active(x.pod)
  {
    run, steps, a := CreateAgain(x);
    var sent := x.Migrating(MigrationPhase.Sent);
    run, steps := DaemonGoesOn(run, steps, a, x.targetNode,
                               WELL.(vmPod := Found(PodRunning, x.newUid, ""), targetGuest := GuestRunning),
                               sent, x.Left()[x.pod := Pod(x.newUid, PodRunning)], HandedOver(sent));
  }
}
