/** What the passes come to over every run: exactly which step takes the VM to which phase, where the names of pods
    and nodes come from, and when a migration fails at its source. */
module Outcomes {
  import opened Wrappers
  import opened VmRecord
  import opened Daemon
  import opened Controller
  import opened Protocol
  import opened MigrationSafety
  import opened Rescheduling

  // ---------------------------------------------------------------- the VM's phase

  /** When a step takes the committed VM to phase q. */
  ghost predicate MovesVm(s: State, step: Step, q: VmPhase)
    requires Enabled(s, step)
  {
    var newest := |s.history| - 1;
    match step
    case CommitByController(v) => s.controller.version == newest && Controller.BringsVm(s.Last(), v, q)
    case FinishDaemon(n, v) => s.daemons[n].version == newest && Daemon.BringsVm(n, s.Last(), v, q)
    case WritePhase(p) => q == p != s.Last().phase
    case _ => false
  }

  lemma VmWriteMoves(history: seq<Record>, version: nat, r: Record, q: VmPhase)
    requires |history| > 0
    ensures var h, last := Write(history, version, r), history[|history| - 1];
            h[|h| - 1].phase == q != last.phase <==> version == |history| - 1 && r.phase == q != last.phase
  {
  }

  lemma DaemonMovesVm(s: State, n: string, v: DaemonView, q: VmPhase)
    requires Inv(s) && Enabled(s, FinishDaemon(n, v))
    ensures FinishDaemonState(s, n, v).Last().phase == q != s.Last().phase <==> MovesVm(s, FinishDaemon(n, v), q)
  {
    DaemonWrites(s, n, v, q);
    Daemon.VmOutcome(n, s.Last(), if n in s.blocks then Some(s.blocks[n]) else None, v, q);
  }

  lemma DaemonWrites(s: State, n: string, v: DaemonView, q: VmPhase)
    requires Inv(s) && Enabled(s, FinishDaemon(n, v))
    ensures var block := if n in s.blocks then Some(s.blocks[n]) else None;
            FinishDaemonState(s, n, v).Last().phase == q != s.Last().phase <==>
            s.daemons[n].version == |s.history| - 1 && DaemonPass(n, s.Last(), block, v).record.phase == q != s.Last().phase
  {
    var pc := s.daemons[n];
    var block := if n in s.blocks then Some(s.blocks[n]) else None;
    var r := DaemonPass(n, pc.copy, block, v).record;
    VmWriteMoves(s.history, pc.version, r, q);
    assert FinishDaemonState(s, n, v).history == Write(s.history, pc.version, r);
    assert pc.version == |s.history| - 1 ==> pc.copy == s.Last();
  }

  lemma ControllerMovesVm(s: State, v: ControllerView, q: VmPhase)
    requires Inv(s) && Enabled(s, CommitByController(v))
    ensures CommitByControllerState(s, v).Last().phase == q != s.Last().phase <==> MovesVm(s, CommitByController(v), q)
  {
    var pc := s.controller;
    Controller.VmOutcome(pc.copy, v, q);
    VmWriteMoves(s.history, pc.version, ControllerPass(pc.copy, v).record, q);
  }

  /** The steps of the two agents apart, only a client's write changes the phase. */
  lemma OthersMoveVm(s: State, step: Step, q: VmPhase)
    requires Enabled(s, step) && !step.FinishDaemon? && !step.CommitByController?
    ensures Apply(s, step).WellFormed()
    ensures Apply(s, step).Last().phase == q != s.Last().phase <==> MovesVm(s, step, q)
  {
  }

  /** In every run, the committed VM comes to a phase in exactly these steps: a pass over the newest record whose
      view calls for it, or a client's write. */
  lemma VmPhaseDiscipline(run: seq<State>, steps: seq<Step>, k: nat, q: VmPhase)
    requires IsRun(run, steps) && k < |steps|
    ensures Enabled(run[k], steps[k]) && run[k + 1].WellFormed()
    ensures run[k + 1].Last().phase == q != run[k].Last().phase <==> MovesVm(run[k], steps[k], q)
  {
    RunInv(run, steps, k);
    assert Follows(run, steps, k);
    match steps[k]
    case FinishDaemon(n, v) => DaemonMovesVm(run[k], n, v, q);
    case CommitByController(v) => ControllerMovesVm(run[k], v, q);
    case _ => OthersMoveVm(run[k], steps[k], q);
  }

  // ---------------------------------------------------------------- names

  /** The names in the newest record after a step. */
  ghost predicate NamesFollow(s: State, step: Step, r: Record)
    requires Enabled(s, step)
  {
    var c := s.Last();
    match step
    case CommitByController(v) =>
      if s.controller.version != |s.history| - 1 then r == c
      else
        && Records(c, v, r)
        && (c.migration.Some? ==> r.migration.Some? && Chooses(c, v, r.migration.value))
    case FinishDaemon(n, v) =>
      && r.migration.Some? == c.migration.Some?
      && (c.migration.Some? ==> r.migration.value.(phase := c.migration.value.phase) == c.migration.value)
      && (if s.daemons[n].version == |s.history| - 1 && c.migration.Some?
             && Daemon.BringsMigration(n, c, n in s.blocks && s.blocks[n].sending, v, MigrationPhase.Succeeded)
          then r.Owner() == (c.migration.value.targetNode, c.migration.value.targetPodName, c.migration.value.targetPodUid)
          else r.Owner() == c.Owner())
    case _ => r.Owner() == c.Owner()
  }

  lemma ControllerNames(s: State, v: ControllerView)
    requires Inv(s) && Enabled(s, CommitByController(v))
    ensures NamesFollow(s, CommitByController(v), CommitByControllerState(s, v).Last())
  {
    var pc := s.controller;
    Controller.VmOutcome(pc.copy, v, pc.copy.phase);
    ControllerPassEdges(pc.copy, v);
    WrittenOrKept(s.history, pc.version, ControllerPass(pc.copy, v).record);
  }

  lemma HandoverExactly(n: string, c: Record, block: Option<ControlBlock>, v: DaemonView)
    requires c.migration.Some?
    ensures var r, m := DaemonPass(n, c, block, v).record, c.migration.value;
            r.Owner() == if Daemon.BringsMigration(n, c, Sending(block), v, MigrationPhase.Succeeded)
                         then (m.targetNode, m.targetPodName, m.targetPodUid) else c.Owner()
  {
    PassMovesOwnerOnlyInHandover(n, c, block, v);
    Daemon.MigrationOutcome(n, c, block, v, MigrationPhase.Succeeded);
  }

  lemma DaemonNames(s: State, n: string, v: DaemonView)
    requires Inv(s) && Enabled(s, FinishDaemon(n, v))
    ensures NamesFollow(s, FinishDaemon(n, v), FinishDaemonState(s, n, v).Last())
  {
    var pc := s.daemons[n];
    var block := if n in s.blocks then Some(s.blocks[n]) else None;
    var r := DaemonPass(n, pc.copy, block, v).record;
    WrittenOrKept(s.history, pc.version, r);
    assert FinishDaemonState(s, n, v).history == Write(s.history, pc.version, r);
    if pc.version == |s.history| - 1 {
      assert pc.copy == s.Last();
      PassMovesOwnerOnlyInHandover(n, pc.copy, block, v);
      if pc.copy.migration.Some? {
        HandoverExactly(n, pc.copy, block, v);
      }
    }
  }

  lemma OthersKeepNames(s: State, step: Step)
    requires Enabled(s, step) && !step.FinishDaemon? && !step.CommitByController?
    ensures Apply(s, step).WellFormed() && NamesFollow(s, step, Apply(s, step).Last())
  {
  }

  /** In every run: the pod's name is picked when a pending VM is scheduled, its UID and node are those of the pod
      the controller found; the target's name is picked when a migration is scheduled, its UID and node are those
      of the target pod that was found; and the VM takes over the target's three exactly in the handover. */
  lemma NamesComeFromPods(run: seq<State>, steps: seq<Step>, k: nat)
    requires IsRun(run, steps) && k < |steps|
    ensures Enabled(run[k], steps[k]) && run[k + 1].WellFormed()
    ensures NamesFollow(run[k], steps[k], run[k + 1].Last())
  {
    RunInv(run, steps, k);
    assert Follows(run, steps, k);
    match steps[k]
    case FinishDaemon(n, v) => DaemonNames(run[k], n, v);
    case CommitByController(v) => ControllerNames(run[k], v);
    case _ => OthersKeepNames(run[k], steps[k]);
  }

  // ---------------------------------------------------------------- collecting pods

  /** In every run, the controller goes on to collect pods exactly after a pass over the newest record that met no
      error, and does so by the record it has just written. */
  lemma CollectsExactly(run: seq<State>, steps: seq<Step>, k: nat)
    requires IsRun(run, steps) && k < |steps|
    ensures Inv(run[k]) && Enabled(run[k], steps[k]) && run[k + 1].WellFormed()
    ensures run[k + 1].controller.ControllerGc? && !run[k].controller.ControllerGc? <==>
            && steps[k].CommitByController? && run[k].controller.version == |run[k].history| - 1
            && !Fails(run[k].Last(), steps[k].cview)
    ensures run[k + 1].controller.ControllerGc? && !run[k].controller.ControllerGc? ==>
              run[k + 1].controller.committed == run[k + 1].Last()
  {
    RunInv(run, steps, k);
    assert Follows(run, steps, k);
    if steps[k].CommitByController? {
      CommitCollects(run[k], steps[k].cview);
    } else {
      OthersDoNotCollect(run[k], steps[k]);
    }
  }

  lemma OthersDoNotCollect(s: State, step: Step)
    requires Enabled(s, step) && !step.CommitByController?
    ensures Apply(s, step).WellFormed() && (Apply(s, step).controller.ControllerGc? ==> s.controller.ControllerGc?)
  {
  }

  lemma CommitCollects(s: State, v: ControllerView)
    requires Inv(s) && Enabled(s, CommitByController(v))
    ensures var s' := CommitByControllerState(s, v);
            && (s'.controller.ControllerGc? <==> s.controller.version == |s.history| - 1 && !Fails(s.Last(), v))
            && (s'.controller.ControllerGc? ==> s'.controller.committed == s'.Last())
  {
    PassFailsExactly(s.controller.copy, v);
  }

  // ---------------------------------------------------------------- sending

  /** A copy of the VM while its guest leaves node n. */
  predicate Leaving(n: string, c: Record) {
    c.nodeName == n && (c.MigrationIn(MigrationPhase.Running) || c.MigrationIn(MigrationPhase.TargetReady))
  }

  /** What the source daemon's passes have not seen yet. */
  predicate NothingHappened(v: DaemonView) {
    !v.sendFailed && !(v.vmPod.Found? && v.vmPod.phase == PodSucceeded)
  }

  /** A pass over such a copy keeps the sending half. */
  lemma PassKeepsSending(n: string, c: Record, block: Option<ControlBlock>, v: DaemonView)
    requires Leaving(n, c) && NothingHappened(v) && Sending(block)
    ensures Sending(DaemonPass(n, c, block, v).block)
  {
    BlockOutcome(n, c, block, v);
  }

  /** The source daemon goes on without being restarted, and sees neither that its pod has completed nor that
      sending failed. */
  ghost predicate Undisturbed(steps: seq<Step>, a: nat, b: nat, n: string)
    requires b <= |steps|
  {
    forall k :: a <= k < b ==>
      steps[k] != RestartDaemon(n) && (steps[k].FinishDaemon? && steps[k].node == n ==> NothingHappened(steps[k].dview))
  }

  lemma SendingStep(s: State, step: Step, n: string)
    requires Inv(s) && Enabled(s, step) && n in s.blocks && s.blocks[n].sending && step != RestartDaemon(n)
    requires n in s.daemons ==> Leaving(n, s.daemons[n].copy)
    requires step.FinishDaemon? && step.node == n ==> NothingHappened(step.dview)
    ensures n in Apply(s, step).blocks && Apply(s, step).blocks[n].sending
  {
    if step.FinishDaemon? && step.node == n {
      PassKeepsSending(n, s.daemons[n].copy, Some(s.blocks[n]), step.dview);
    }
  }

  /** Once a daemon has started to send, it holds that half as long as the VM is leaving it and it is undisturbed. */
  lemma {:induction false} KeepsSending(run: seq<State>, steps: seq<Step>, a: nat, b: nat, n: string)
    requires IsRun(run, steps) && MonotoneReads(run) && a <= b < |run| && Undisturbed(steps, a, b, n)
    requires n in run[a].blocks && run[a].blocks[n].sending && n !in run[a].daemons && n in run[a].lastRead
    requires forall i :: run[a].lastRead[n] <= i < |run[b].history| ==> Leaving(n, run[b].history[i])
    ensures n in run[b].blocks && run[b].blocks[n].sending
    ensures n in run[b].lastRead && run[a].lastRead[n] <= run[b].lastRead[n]
    decreases b
  {
    if a < b {
      var s := run[b - 1];
      HistoryGrows(run, steps, b - 1, b);
      forall i | run[a].lastRead[n] <= i < |s.history|
        ensures Leaving(n, s.history[i])
      {
        assert s.history[i] == run[b].history[i];
      }
      KeepsSending(run, steps, a, b - 1, n);
      RunInv(run, steps, b - 1);
      assert Follows(run, steps, b - 1) && ReadsAdvance(run, b - 1);
      SendingStep(s, steps[b - 1], n);
    }
  }

  /** The pass that starts the migration was over the newest record, and leaves the daemon sending. */
  lemma StartsSending(s: State, n: string, v: DaemonView)
    requires Inv(s) && Enabled(s, FinishDaemon(n, v))
    requires MigrationBecame(s.Last(), FinishDaemonState(s, n, v).Last(), MigrationPhase.Running)
    ensures Leaving(n, s.Last())
    ensures var s' := FinishDaemonState(s, n, v);
            && n in s'.blocks && s'.blocks[n].sending && n !in s'.daemons
            && n in s'.lastRead && s'.lastRead[n] == |s.history| - 1
  {
    var block := if n in s.blocks then Some(s.blocks[n]) else None;
    DaemonMovesExactly(s, n, v, MigrationPhase.Running);
    BlockOutcome(n, s.Last(), block, v);
  }

  /** In every run: from the step in which node n starts a migration, as long as the VM is leaving n and its daemon
      is undisturbed, the migration goes to Failed exactly in a pass over the newest record that sees sending fail
      before the pod completed. It never fails for want of a control block. */
  lemma FailsOnlyIfSendingFails(run: seq<State>, steps: seq<Step>, a: nat, b: nat, n: string, v: DaemonView, w: DaemonView)
    requires IsRun(run, steps) && MonotoneReads(run) && a < b < |steps| && Undisturbed(steps, a + 1, b, n)
    requires steps[a] == FinishDaemon(n, v) && steps[b] == FinishDaemon(n, w) && run[a].WellFormed() && run[a + 1].WellFormed()
    requires MigrationBecame(run[a].Last(), run[a + 1].Last(), MigrationPhase.Running)
    requires forall i :: |run[a].history| <= i < |run[b].history| ==> Leaving(n, run[b].history[i])
    ensures Inv(run[b]) && n in run[b].daemons && run[b + 1].WellFormed()
    ensures MigrationBecame(run[b].Last(), run[b + 1].Last(), MigrationPhase.Failed) <==>
            && run[b].daemons[n].version == |run[b].history| - 1 && run[b].Last().MigrationIn(MigrationPhase.Running)
            && run[b].Last().phase == VmPhase.Running && Acts(n, run[b].Last(), w)
            && w.sendFailed && w.vmPod.phase != PodSucceeded
  {
    SendingSince(run, steps, a, b, n, v);
    RunInv(run, steps, b);
    assert Follows(run, steps, b);
    assert run[b].Last() == run[b].history[|run[b].history| - 1];
    FailsInPass(run[b], n, w);
  }

  /** A pass of a daemon that is sending. */
  lemma FailsInPass(s: State, n: string, w: DaemonView)
    requires Inv(s) && Enabled(s, FinishDaemon(n, w)) && Leaving(n, s.Last()) && n in s.blocks && s.blocks[n].sending
    ensures MigrationBecame(s.Last(), FinishDaemonState(s, n, w).Last(), MigrationPhase.Failed) <==>
            && s.daemons[n].version == |s.history| - 1 && s.Last().MigrationIn(MigrationPhase.Running)
            && s.Last().phase == VmPhase.Running && Acts(n, s.Last(), w)
            && w.sendFailed && w.vmPod.phase != PodSucceeded
  {
    DaemonMovesExactly(s, n, w, MigrationPhase.Failed);
  }

  lemma SendingSince(run: seq<State>, steps: seq<Step>, a: nat, b: nat, n: string, v: DaemonView)
    requires IsRun(run, steps) && MonotoneReads(run) && a < b < |steps| && Undisturbed(steps, a + 1, b, n)
    requires steps[a] == FinishDaemon(n, v) && run[a].WellFormed() && run[a + 1].WellFormed()
    requires MigrationBecame(run[a].Last(), run[a + 1].Last(), MigrationPhase.Running)
    requires forall i :: |run[a].history| <= i < |run[b].history| ==> Leaving(n, run[b].history[i])
    ensures n in run[b].blocks && run[b].blocks[n].sending && |run[a].history| < |run[b].history|
  {
    RunInv(run, steps, a);
    assert Follows(run, steps, a);
    StartsSending(run[a], n, v);
    HistoryGrows(run, steps, a, b);
    HistoryGrows(run, steps, a + 1, b);
    forall i | |run[a].history| - 1 <= i < |run[b].history|
      ensures Leaving(n, run[b].history[i])
    {
      if i == |run[a].history| - 1 {
        assert run[b].history[i] == run[a].Last();
      }
    }
    KeepsSending(run, steps, a + 1, b, n);
    assert |run[a + 1].history| == |run[a].history| + 1;
  }

  // ---------------------------------------------------------------- a source that is restarted

  /** A Running VM whose migration is Failed and whose pod has completed stays so: unless it is to be resized or
      deleted, no pass of any daemon or of the controller changes the record. Once the migration is cleared, the
      VM has succeeded. */
  lemma FailedMigrationStrands(n: string, c: Record, block: Option<ControlBlock>, dview: DaemonView, cview: ControllerView)
    requires c.phase == VmPhase.Running && c.MigrationIn(MigrationPhase.Failed) && !dview.vmDeleting
    requires cview.vmPod.Found? && cview.vmPod.phase == PodSucceeded
    ensures DaemonPass(n, c, block, dview).record == c
    ensures ControllerPass(c, cview).record == c <==> !cview.resourcesReported || !cview.resizeWanted
    ensures ControllerPass(c.(migration := None), cview).record.phase == VmPhase.Succeeded
  {
  }

  /** The source daemon is restarted while the guest is being sent. */
  lemma Restarted(x: Cast) returns (run: seq<State>, steps: seq<Step>)
    requires x.Distinct()
    ensures IsAccurateRun(run, steps)
    ensures Rests(run[|steps|], x.Migrating(MigrationPhase.Running), x.Both(PodRunning), {})
    ensures x.node !in run[|steps|].blocks
  {
    run, steps := Transfer(x);
    run, steps := Extend(run, steps, RestartDaemon(x.node));
  }

  /** Its next pass, before the pod has completed, finds no block and fails the migration. */
  lemma FailedByRestart(x: Cast) returns (run: seq<State>, steps: seq<Step>)
    requires x.Distinct()
    ensures IsAccurateRun(run, steps) && |steps| > 0 && steps[|steps| - 1].FinishDaemon? && !steps[|steps| - 1].dview.sendFailed
    ensures run[|steps| - 1].WellFormed() && run[|steps| - 1].Last() == x.Migrating(MigrationPhase.Running)
    ensures Rests(run[|steps|], x.Migrating(MigrationPhase.Failed), x.Both(PodRunning), {})
  {
    run, steps := Restarted(x);
    var v := WELL.(vmPod := Found(PodRunning, x.uid, ""));
    run, steps := Extend(run, steps, ReadByDaemon(x.node, |run[|steps|].history| - 1));
    assert DaemonPass(x.node, x.Migrating(MigrationPhase.Running), None, v).record == x.Migrating(MigrationPhase.Failed);
    run, steps := Extend(run, steps, FinishDaemon(x.node, v));
  }

  /** For all names there is a run from the beginning, with every read current, in which a pass fails the migration
      although it saw no failure of the sending, and at whose end the guest has left its completed pod, the target
      executes, and the VM is Running under its old owner with the Failed migration. */
  lemma RestartedSourceStrandsVm(x: Cast) returns (run: seq<State>, steps: seq<Step>)
    requires x.Distinct()
    ensures IsAccurateRun(run, steps) && IsRun(run, steps)
    ensures |steps| > 1 && run[|steps| - 2].WellFormed() && run[|steps| - 2].Last().MigrationIn(MigrationPhase.Running)
    ensures steps[|steps| - 2].FinishDaemon? && !steps[|steps| - 2].dview.sendFailed
    ensures run[|steps| - 1].WellFormed() && run[|steps| - 1].Last().MigrationIn(MigrationPhase.Failed)
    ensures var s := run[|steps|];
            && s.WellFormed() && s.Last().phase == VmPhase.Running && s.Last().MigrationIn(MigrationPhase.Failed)
            && s.Last().Owner() == (x.node, x.pod, x.uid)
            && x.pod in s.pods && s.pods[x.pod] == Pod(x.uid, PodSucceeded) && s.Active(x.target)
  {
    run, steps := FailedByRestart(x);
    run, steps := Extend(run, steps, AdvancePod(x.pod, PodSucceeded));
    AccurateRunIsRun(run, steps);
  }
}
