/** Hotplug volumes of one VM pod on one node (pkg/daemon/vm_controller.go): the targets mounted in
    the pod, the durable record of what was ever mounted there, and the disks of the guest.

    Every foreign call may fail, and the daemon may die between any two effects. Both are the same
    here: a pass may stop before each of its effects, and what has happened so far stays. So a
    property that holds whenever a pass returns, whatever it met, holds between any two effects. Without
    `faults` nothing fails but the reading of a record file that cannot be decoded. */
module Hotplug {
  import opened Wrappers

  /** A path below a pod's hotplug directory: a device node, or a file with a disk image mounted on it. */
  datatype Target = Target(pod: string, volume: string, block: bool)

  datatype Entry = Entry(volume: string, target: Target)

  /** The record file; a write truncates it first, so one that is cut short leaves a file that cannot be
      decoded. */
  datatype RecordFile = NoFile | Torn | Written(entries: seq<Entry>)

  /** What may happen to a write of the record: it may fail before or after the file is truncated. */
  datatype WriteFault = NoFault | BeforeWrite | DuringWrite

  datatype VolumePhase = Pending | AttachedToNode | MountedToPod | Ready | Detaching

  datatype VolumeStatus = VolumeStatus(name: string, phase: VolumePhase, hotplug: bool, volumePodUid: string)

  datatype Volume = Volume(name: string, hotpluggable: bool)

  // ---------------------------------------------------------------- the record

  function Targets(entries: seq<Entry>): set<Target> {
    set e | e in entries :: e.target
  }

  function Volumes(entries: seq<Entry>): set<string> {
    set e | e in entries :: e.volume
  }

  /** An entry is added unless its volume is already there. */
  function WithEntry(entries: seq<Entry>, volume: string, target: Target): seq<Entry> {
    if volume in Volumes(entries) then entries else entries + [Entry(volume, target)]
  }

  /** The record covers a new target exactly when its volume was not recorded yet or the very target
      was: an entry of the same volume with another target hides the new one. */
  lemma RecordCovers(entries: seq<Entry>, volume: string, target: Target)
    ensures target in Targets(WithEntry(entries, volume, target)) <==>
            volume !in Volumes(entries) || target in Targets(entries)
  {
    if volume !in Volumes(entries) {
      var entry := Entry(volume, target);
      assert entry in entries + [entry];
    }
  }

  /** A migration to a node that failed after mounting leaves the entry of its pod in that node's
      record; when the VM migrates there again, the target in the new pod is not recorded. */
  lemma StaleEntryHidesNewTarget(volume: string, oldPod: string, newPod: string, block: bool)
    requires oldPod != newPod
    ensures var stale := [Entry(volume, Target(oldPod, volume, block))];
            Target(newPod, volume, block) !in Targets(WithEntry(stale, volume, Target(newPod, volume, block)))
  {
    var stale := [Entry(volume, Target(oldPod, volume, block))];
    assert stale[0].volume in Volumes(stale);
    RecordCovers(stale, volume, Target(newPod, volume, block));
  }

  /** The entries that a pass keeps: those whose volume has a status. */
  function Kept(entries: seq<Entry>, names: set<string>): seq<Entry> {
    if entries == [] then []
    else
      var n := |entries| - 1;
      Kept(entries[..n], names) + (if entries[n].volume in names then [entries[n]] else [])
  }

  function Dropped(entries: seq<Entry>, names: set<string>): set<Target> {
    set e | e in entries && e.volume !in names :: e.target
  }

  lemma {:induction false} KeptMembers(entries: seq<Entry>, names: set<string>)
    ensures forall e :: e in Kept(entries, names) <==> e in entries && e.volume in names
  {
    if entries != [] {
      var n := |entries| - 1;
      KeptMembers(entries[..n], names);
      assert entries == entries[..n] + [entries[n]];
    }
  }

  lemma KeptOrDropped(entries: seq<Entry>, names: set<string>)
    ensures Targets(entries) == Targets(Kept(entries, names)) + Dropped(entries, names)
  {
    KeptMembers(entries, names);
    forall e | e in entries
      ensures e.target in Targets(Kept(entries, names)) + Dropped(entries, names)
    {
      assert e.volume in names ==> e in Kept(entries, names);
    }
  }

  lemma DroppedNext(entries: seq<Entry>, i: nat, names: set<string>)
    requires i < |entries|
    ensures Kept(entries[..i + 1], names) ==
            Kept(entries[..i], names) + (if entries[i].volume in names then [entries[i]] else [])
    ensures Dropped(entries[..i + 1], names) ==
            Dropped(entries[..i], names) + (if entries[i].volume in names then {} else {entries[i].target})
  {
    assert entries[..i + 1][..i] == entries[..i];
    assert entries[..i + 1] == entries[..i] + [entries[i]];
  }

  // ---------------------------------------------------------------- volume statuses

  /** The first status of a volume, or the length if there is none. */
  function FirstOf(statuses: seq<VolumeStatus>, name: string): (i: nat)
    ensures i <= |statuses| && (i < |statuses| ==> statuses[i].name == name)
    ensures forall j :: 0 <= j < i ==> statuses[j].name != name
  {
    if statuses == [] || statuses[0].name == name then 0 else 1 + FirstOf(statuses[1..], name)
  }

  /** The last status of a volume, or the length if there is none. */
  function LastOf(statuses: seq<VolumeStatus>, name: string): (i: nat)
    ensures i <= |statuses| && (i < |statuses| ==> statuses[i].name == name)
    ensures i == |statuses| ==> forall j :: 0 <= j < |statuses| ==> statuses[j].name != name
    ensures forall j :: i < j < |statuses| ==> statuses[j].name != name
  {
    var n := |statuses| - 1;
    if statuses == [] then 0
    else if statuses[n].name == name then n
    else var i := LastOf(statuses[..n], name); if i == n then n + 1 else i
  }

  function Names(statuses: seq<VolumeStatus>): set<string> {
    set s | s in statuses :: s.name
  }

  /** Some statuses have moved from one phase to the next; nothing else changed. */
  ghost predicate Advanced(before: seq<VolumeStatus>, after: seq<VolumeStatus>, p: VolumePhase, q: VolumePhase) {
    && |before| == |after|
    && forall i :: 0 <= i < |before| ==>
         after[i] == before[i] || (before[i].phase == p && after[i] == before[i].(phase := q))
  }

  lemma AdvancedNames(before: seq<VolumeStatus>, after: seq<VolumeStatus>, p: VolumePhase, q: VolumePhase)
    requires Advanced(before, after, p, q)
    ensures Names(after) == Names(before)
  {
    forall s | s in before
      ensures s.name in Names(after)
    {
      var i :| 0 <= i < |before| && before[i] == s;
      assert after[i] in after;
    }
    forall s | s in after
      ensures s.name in Names(before)
    {
      var i :| 0 <= i < |after| && after[i] == s;
      assert before[i] in before;
    }
  }

  /** Every status that moved belongs to one of these volumes. */
  ghost predicate ChangedIn(before: seq<VolumeStatus>, after: seq<VolumeStatus>, names: set<string>)
    requires |before| == |after|
  {
    forall i :: 0 <= i < |before| && after[i] != before[i] ==> before[i].name in names
  }

  function AsSet(names: seq<string>): set<string> {
    set v | v in names
  }

  /** Names decide which status is first or last, so phases do not matter for it. */
  lemma {:induction false} SameFirst(a: seq<VolumeStatus>, b: seq<VolumeStatus>, name: string)
    requires |a| == |b| && forall i :: 0 <= i < |a| ==> a[i].name == b[i].name
    ensures FirstOf(a, name) == FirstOf(b, name)
  {
  }

  lemma SameLast(a: seq<VolumeStatus>, b: seq<VolumeStatus>, name: string)
    requires |a| == |b| && forall i :: 0 <= i < |a| ==> a[i].name == b[i].name
    ensures LastOf(a, name) == LastOf(b, name)
  {
  }

  /** No longer waiting to be mounted: the mount pass looks at a volume's first status. */
  ghost predicate MountDone(statuses: seq<VolumeStatus>, v: Volume) {
    v.hotpluggable ==>
      var at := FirstOf(statuses, v.name);
      at < |statuses| && statuses[at].hotplug ==> statuses[at].phase != AttachedToNode
  }

  /** No longer waiting to be given to the guest: that pass looks at a volume's last status. */
  ghost predicate AddDone(statuses: seq<VolumeStatus>, v: Volume) {
    v.hotpluggable ==>
      var at := LastOf(statuses, v.name);
      at < |statuses| ==> statuses[at].phase != MountedToPod
  }

  /** The volume has one status, which says that it is attached to the node. */
  ghost predicate Attached(statuses: seq<VolumeStatus>, name: string) {
    var at := FirstOf(statuses, name);
    at < |statuses| && at == LastOf(statuses, name) && statuses[at].hotplug && statuses[at].phase == AttachedToNode
  }

  /** Both parts of a pass take an attached volume to ready. */
  lemma AttachedBecomesReady(before: seq<VolumeStatus>, middle: seq<VolumeStatus>, after: seq<VolumeStatus>,
                             disks: set<string>, v: Volume)
    requires Advanced(before, middle, AttachedToNode, MountedToPod) && Advanced(middle, after, MountedToPod, Ready)
    requires ChangedIn(middle, after, disks) && MountDone(middle, v) && AddDone(after, v)
    requires v.hotpluggable && Attached(before, v.name)
    ensures v.name in disks && after[FirstOf(before, v.name)].phase == Ready
  {
    SameFirst(before, middle, v.name);
    SameLast(before, after, v.name);
  }

  // ---------------------------------------------------------------- what a completed pass makes of the statuses

  function PresentIn(statuses: seq<VolumeStatus>, names: set<string>): set<string> {
    set v | v in names && Present(statuses, v)
  }

  predicate WaitsBy(statuses: seq<VolumeStatus>, name: string) {
    Present(statuses, name) && Waits(statuses, FirstOf(statuses, name))
  }

  function WaitingIn(statuses: seq<VolumeStatus>, names: set<string>): set<string> {
    set v | v in names && WaitsBy(statuses, v)
  }

  lemma PresentNext(statuses: seq<VolumeStatus>, names: set<string>, name: string)
    ensures PresentIn(statuses, names + {name}) == PresentIn(statuses, names) + (if Present(statuses, name) then {name} else {})
  {
  }

  lemma WaitingNext(statuses: seq<VolumeStatus>, names: set<string>, name: string)
    ensures WaitingIn(statuses, names + {name}) == WaitingIn(statuses, names) + (if WaitsBy(statuses, name) then {name} else {})
  {
  }

  lemma ExactlyMeansDone(before: seq<VolumeStatus>, after: seq<VolumeStatus>, volumes: seq<Volume>)
    requires MountedExactly(before, after, Hotpluggable(volumes))
    ensures forall v :: v in volumes ==> MountDone(after, v)
  {
    forall v | v in volumes
      ensures MountDone(after, v)
    {
      SameFirst(before, after, v.name);
    }
  }

  lemma ReadyMeansDone(before: seq<VolumeStatus>, after: seq<VolumeStatus>, volumes: seq<Volume>)
    requires ReadyExactly(before, after, Hotpluggable(volumes))
    ensures forall v :: v in volumes ==> AddDone(after, v)
  {
    forall v | v in volumes
      ensures AddDone(after, v)
    {
      SameLast(before, after, v.name);
    }
  }

  /** The volume waits for the guest, or to be mounted first. */
  predicate WaitsForGuest(statuses: seq<VolumeStatus>, name: string) {
    var at := LastOf(statuses, name);
    at < |statuses| && (Waits(statuses, at) || statuses[at].phase == MountedToPod)
  }

  /** What a whole pass makes of the statuses of these volumes: the last one becomes ready if it waited for the
      guest, and the first one, if it is another, becomes mounted if it waited for that. */
  ghost predicate StatusesAfter(before: seq<VolumeStatus>, after: seq<VolumeStatus>, names: set<string>) {
    && |after| == |before|
    && forall i :: 0 <= i < |before| ==>
         var s := before[i];
         after[i] ==
         if s.name in names && i == LastOf(before, s.name) && WaitsForGuest(before, s.name) then s.(phase := Ready)
         else if s.name in names && Waits(before, i) then s.(phase := MountedToPod)
         else s
  }

  lemma StatusesExactly(before: seq<VolumeStatus>, middle: seq<VolumeStatus>, after: seq<VolumeStatus>, names: set<string>)
    requires MountedExactly(before, middle, names) && ReadyExactly(middle, after, names)
    ensures StatusesAfter(before, after, names)
  {
    forall i | 0 <= i < |before|
      ensures Joins(middle, i) && before[i].name in names <==>
              before[i].name in names && i == LastOf(before, before[i].name) && WaitsForGuest(before, before[i].name)
    {
      SameLast(before, middle, before[i].name);
    }
  }

  lemma WaitsThenJoins(before: seq<VolumeStatus>, middle: seq<VolumeStatus>, names: set<string>)
    requires MountedExactly(before, middle, names)
    ensures forall v :: v in Joining(middle, names) <==> v in names && WaitsForGuest(before, v)
  {
    forall v
      ensures v in Joining(middle, names) <==> v in names && WaitsForGuest(before, v)
    {
      SameLast(before, middle, v);
      var at := LastOf(before, v);
      if v in names && WaitsForGuest(before, v) {
        assert Joins(middle, at) && middle[at].name == v;
      }
    }
  }

  lemma JoiningNames(statuses: seq<VolumeStatus>, names: set<string>)
    ensures Joining(statuses, names) <= Names(statuses)
  {
    forall v | v in Joining(statuses, names)
      ensures v in Names(statuses)
    {
      var i :| 0 <= i < |statuses| && Joins(statuses, i) && statuses[i].name == v;
      assert statuses[i] in statuses;
    }
  }

  lemma ReadySoFar(before: seq<VolumeStatus>, after: seq<VolumeStatus>, volumes: seq<Volume>, i: nat)
    requires i <= |volumes| && ReadyExactly(before, after, Hotpluggable(volumes[..i]))
    ensures Advanced(before, after, MountedToPod, Ready)
    ensures ChangedIn(before, after, Joining(before, Hotpluggable(volumes[..i])))
    ensures Joining(before, Hotpluggable(volumes[..i])) <= Joining(before, Hotpluggable(volumes))
  {
    HotpluggableWithin(volumes, i);
  }

  lemma HotpluggableAreVolumes(volumes: seq<Volume>)
    ensures Hotpluggable(volumes) <= VolumeNames(volumes)
  {
  }

  lemma HotpluggableWithin(volumes: seq<Volume>, i: nat)
    requires i <= |volumes|
    ensures Hotpluggable(volumes[..i]) <= Hotpluggable(volumes)
  {
  }

  function VolumeNames(volumes: seq<Volume>): set<string> {
    set v | v in volumes :: v.name
  }

  function Hotpluggable(volumes: seq<Volume>): set<string> {
    set v | v in volumes && v.hotpluggable :: v.name
  }

  /** The volume has a first status, which is about a hotplug volume. */
  predicate Present(statuses: seq<VolumeStatus>, name: string) {
    var at := FirstOf(statuses, name);
    at < |statuses| && statuses[at].hotplug
  }

  /** The status of a volume that waits to be mounted. */
  predicate Waits(statuses: seq<VolumeStatus>, i: nat)
    requires i < |statuses|
  {
    statuses[i].phase == AttachedToNode && statuses[i].hotplug && i == FirstOf(statuses, statuses[i].name)
  }

  /** The status of a volume that waits to be given to the guest. */
  predicate Joins(statuses: seq<VolumeStatus>, i: nat)
    requires i < |statuses|
  {
    statuses[i].phase == MountedToPod && i == LastOf(statuses, statuses[i].name)
  }

  /** Of these volumes, exactly the waiting statuses have become mounted. */
  ghost predicate MountedExactly(before: seq<VolumeStatus>, after: seq<VolumeStatus>, names: set<string>) {
    && |after| == |before|
    && forall i :: 0 <= i < |before| ==>
         after[i] == if Waits(before, i) && before[i].name in names then before[i].(phase := MountedToPod) else before[i]
  }

  /** Of these volumes, exactly the statuses that waited for the guest have become ready. */
  ghost predicate ReadyExactly(before: seq<VolumeStatus>, after: seq<VolumeStatus>, names: set<string>) {
    && |after| == |before|
    && forall i :: 0 <= i < |before| ==>
         after[i] == if Joins(before, i) && before[i].name in names then before[i].(phase := Ready) else before[i]
  }

  /** The volumes among these that are given to the guest. */
  function Joining(statuses: seq<VolumeStatus>, names: set<string>): set<string> {
    set i | 0 <= i < |statuses| && Joins(statuses, i) && statuses[i].name in names :: statuses[i].name
  }

  /** One round of the mount loop. */
  function MountOne(statuses: seq<VolumeStatus>, name: string): seq<VolumeStatus> {
    var at := FirstOf(statuses, name);
    if at < |statuses| && statuses[at].hotplug && statuses[at].phase == AttachedToNode
    then statuses[at := statuses[at].(phase := MountedToPod)] else statuses
  }

  lemma MountOneExactly(before: seq<VolumeStatus>, now: seq<VolumeStatus>, names: set<string>, name: string)
    requires MountedExactly(before, now, names)
    ensures MountedExactly(before, MountOne(now, name), names + {name})
  {
    SameFirst(before, now, name);
  }

  /** One round of the loop over the guest's disks. */
  function ReadyOne(statuses: seq<VolumeStatus>, name: string): seq<VolumeStatus> {
    if MountedLast(statuses, name)
    then statuses[LastOf(statuses, name) := statuses[LastOf(statuses, name)].(phase := Ready)] else statuses
  }

  predicate MountedLast(statuses: seq<VolumeStatus>, name: string) {
    var at := LastOf(statuses, name);
    at < |statuses| && statuses[at].phase == MountedToPod
  }

  lemma ReadyOneExactly(before: seq<VolumeStatus>, now: seq<VolumeStatus>, names: set<string>, name: string)
    requires ReadyExactly(before, now, names)
    ensures ReadyExactly(before, ReadyOne(now, name), names + {name})
  {
    SameLast(before, now, name);
  }

  lemma JoiningNext(before: seq<VolumeStatus>, now: seq<VolumeStatus>, names: set<string>, name: string)
    requires ReadyExactly(before, now, names)
    ensures Joining(before, names + {name}) == Joining(before, names) + (if MountedLast(now, name) then {name} else {})
  {
    SameLast(before, now, name);
    var at := LastOf(before, name);
    if MountedLast(now, name) {
      assert Joins(before, at);
    }
    if at < |before| && Joins(before, at) {
      assert name in Joining(before, names + {name});
      assert name in names ==> name in Joining(before, names);
    }
    forall x | x in Joining(before, names + {name})
      ensures x in Joining(before, names) + (if MountedLast(now, name) then {name} else {})
    {
      var i :| 0 <= i < |before| && Joins(before, i) && before[i].name == x && x in names + {name};
    }
  }

  /** And exactly their volumes have been given to the guest. */
  ghost predicate GivenExactly(before: seq<VolumeStatus>, after: seq<VolumeStatus>, had: set<string>, has: set<string>, names: set<string>) {
    ReadyExactly(before, after, names) && has == had + Joining(before, names)
  }

  lemma GivenNext(before: seq<VolumeStatus>, now: seq<VolumeStatus>, had: set<string>, names: set<string>, name: string)
    requires ReadyExactly(before, now, names)
    ensures GivenExactly(before, ReadyOne(now, name), had,
                         had + Joining(before, names) + (if MountedLast(now, name) then {name} else {}), names + {name})
  {
    ReadyOneExactly(before, now, names, name);
    JoiningNext(before, now, names, name);
  }

  lemma NextHotpluggable(volumes: seq<Volume>, i: nat)
    requires i < |volumes|
    ensures Hotpluggable(volumes[..i + 1]) == Hotpluggable(volumes[..i]) + (if volumes[i].hotpluggable then {volumes[i].name} else {})
  {
    assert volumes[..i + 1] == volumes[..i] + [volumes[i]];
  }

  lemma OnlyHiddenLeft(mounted: set<Target>, hidden: set<Target>, recorded: set<Target>)
    requires hidden <= mounted && hidden !! recorded && mounted - hidden <= recorded
    ensures mounted - recorded == hidden
  {
    forall t | t in mounted - recorded
      ensures t in hidden
    {
      assert t !in mounted - hidden;
    }
  }

  class PodVolumes {
    const pod: string
    const blockVolume: string -> bool     // whether the claim behind a volume is a block device
    var file: RecordFile
    var mounted: set<Target>
    var disks: set<string>                // ids of the guest's disks
    var volumeStatus: seq<VolumeStatus>
    ghost var tornWhileMounted: bool      // a write was cut short while something was mounted
    ghost var hidden: set<Target>         // mounted behind an entry of their volume for another pod

    function TargetOf(volume: string): Target {
      Target(pod, volume, blockVolume(volume))
    }

    /** The entries, which may be of earlier pods of the VM on this node. */
    ghost predicate Labelled(entries: seq<Entry>) {
      forall e :: e in entries ==> e.target.volume == e.volume
    }

    ghost function OnRecord(): set<Target>
      reads this
    {
      if file.Written? then Targets(file.entries) else {}
    }

    /** Coverage: whatever is mounted in this pod is in the durable record. */
    ghost predicate Covered()
      reads this
    {
      mounted <= OnRecord()
    }

    /** What every history keeps: coverage is lost exactly by a write that was cut short while something was
        mounted, and by a mount behind an entry that an earlier pod left for the same volume. */
    ghost predicate Recorded()
      reads this
    {
      && (file.Written? ==> Labelled(file.entries))
      && hidden <= mounted && hidden !! OnRecord()
      && (forall t :: t in mounted ==> t == TargetOf(t.volume))
      && (!file.Torn? ==> !tornWhileMounted && mounted - hidden <= OnRecord())
      && (file.Torn? ==> (tornWhileMounted <==> mounted != {}))
    }

    lemma CoverageIsExact()
      requires Recorded()
      ensures Covered() <==> !tornWhileMounted && hidden == {}
    {
      if hidden != {} {
        var t :| t in hidden;
        assert t in mounted && t !in OnRecord();
      } else {
        assert mounted - hidden == mounted;
      }
    }

    /** A pod, with whatever record earlier pods of the VM left on the node. */
    constructor (pod: string, blockVolume: string -> bool, left: RecordFile)
      requires left.Written? ==> forall e :: e in left.entries ==> e.target.volume == e.volume
      ensures Recorded() && Covered() && !tornWhileMounted && file == left && mounted == {} && disks == {} && hidden == {}
      ensures this.pod == pod && this.blockVolume == blockVolume
    {
      this.pod, this.blockVolume := pod, blockVolume;
      file, mounted, disks, volumeStatus, tornWhileMounted, hidden := left, {}, {}, [], false, {};
    }

    // -------------------------------------------------------------- the record file

    method ReadRecord(faults: bool) returns (r: Option<seq<Entry>>)
      ensures r.Some? ==> Holds(r.value)
      ensures !faults ==> (r.Some? <==> !file.Torn?)
    {
      var fault := *;
      if faults && fault {
        return None;
      }
      match file
      case NoFile => return Some([]);
      case Torn => return None;
      case Written(entries) => return Some(entries);
    }

    method WriteRecord(entries: seq<Entry>, fault: WriteFault) returns (ok: bool)
      modifies this`file, this`tornWhileMounted
      ensures ok <==> fault == NoFault
      ensures file == match fault case NoFault => Written(entries) case BeforeWrite => old(file) case DuringWrite => Torn
      ensures tornWhileMounted == (old(tornWhileMounted) || (fault == DuringWrite && mounted != {}))
    {
      match fault
      case BeforeWrite =>
        return false;
      case DuringWrite =>
        file, tornWhileMounted := Torn, tornWhileMounted || mounted != {};
        return false;
      case NoFault =>
        file := Written(entries);
        return true;
    }

    method RemoveRecord(faults: bool) returns (ok: bool)
      modifies this`file
      ensures (if ok then file == NoFile else file == old(file)) && (!faults ==> ok)
    {
      var fault := *;
      if faults && fault {
        return false;
      }
      file := NoFile;
      return true;
    }

    /** `record` is the pass's copy of the file. */
    ghost predicate Holds(record: seq<Entry>)
      reads this
    {
      file == Written(record) || (file == NoFile && record == [])
    }

    /** Afterwards the target is on record, unless an entry of its volume was in the way. */
    method AddVolumeToRecord(volume: string, target: Target, record: seq<Entry>, fault: WriteFault)
      returns (ok: bool, record': seq<Entry>)
      requires Recorded() && Holds(record) && target == TargetOf(volume)
      modifies this`file, this`tornWhileMounted, this`hidden
      ensures Recorded() && hidden <= old(hidden)
      ensures ok ==> Holds(record') && record' == WithEntry(record, volume, target)
      ensures ok ==> (target in OnRecord() <==> volume !in Volumes(record) || target in Targets(record))
      ensures ok <==> volume in Volumes(record) || fault == NoFault
      ensures volume !in Volumes(record) && fault == NoFault ==> file == Written(record')
      ensures volume !in Volumes(record) && fault == DuringWrite ==> file == Torn
      ensures file.Torn? ==> (tornWhileMounted <==> mounted != {})
      ensures NoMoreLeft(record)
    {
      forall v
        ensures LeftOver(WithEntry(record, volume, target), v) ==> LeftOver(record, v)
      {
        NoNewLeftOver(record, volume, v);
      }
      RecordCovers(record, volume, target);
      for i := 0 to |record|
        invariant forall j :: 0 <= j < i ==> record[j].volume != volume
      {
        if record[i].volume == volume {
          assert record[i] in record && record[i].volume in Volumes(record);
          return true, record;
        }
      }
      record' := record + [Entry(volume, target)];
      assert Targets(record') == Targets(record) + {target} by {
        assert record'[|record|] == Entry(volume, target);
        assert forall e :: e in record' <==> e in record || e == Entry(volume, target);
      }
      ok := WriteRecord(record', fault);
      if fault != BeforeWrite {
        hidden := if ok then hidden - {target} else hidden;
      }
    }

    // -------------------------------------------------------------- mounting

    /** A target appears in the pod. */
    method Appear(target: Target)
      requires Recorded() && !file.Torn? && target == TargetOf(target.volume)
      modifies this`mounted, this`hidden
      ensures Recorded() && mounted == old(mounted) + {target}
      ensures hidden == old(hidden) + if target in OnRecord() then {} else {target}
    {
      mounted := mounted + {target};
      if target !in OnRecord() {
        hidden := hidden + {target};
      }
    }

    ghost function TargetsOf(names: set<string>): set<Target> {
      set v | v in names :: TargetOf(v)
    }

    lemma TargetsOfMore(names: set<string>, name: string)
      ensures TargetsOf(names + {name}) == TargetsOf(names) + {TargetOf(name)}
    {
    }

    lemma TargetsOfWithin(a: set<string>, b: set<string>)
      requires a <= b
      ensures TargetsOf(a) <= TargetsOf(b)
    {
    }

    /** The volume has an entry, but not for its target in this pod. */
    ghost predicate LeftOver(record: seq<Entry>, volume: string) {
      volume in Volumes(record) && TargetOf(volume) !in Targets(record)
    }

    /** Only volumes with a leftover entry in this record have become hidden. */
    ghost predicate HiddenBy(record: seq<Entry>, hidden0: set<Target>)
      reads this
    {
      forall t :: t in hidden && t !in hidden0 ==> LeftOver(record, t.volume)
    }

    function Entries(): seq<Entry>
      reads this
    {
      if file.Written? then file.entries else []
    }

    /** No entry of this record has become a leftover. */
    ghost predicate NoMoreLeft(record: seq<Entry>)
      reads this
    {
      forall v :: LeftOver(Entries(), v) ==> LeftOver(record, v)
    }

    lemma NoNewLeftOver(record: seq<Entry>, volume: string, other: string)
      ensures LeftOver(WithEntry(record, volume, TargetOf(volume)), other) ==> LeftOver(record, other)
    {
      var added := Entry(volume, TargetOf(volume));
      assert added in record + [added];
      assert forall e :: e in record ==> e in record + [added];
    }

    ghost predicate Follows(record: seq<Entry>, record': seq<Entry>, volume: string) {
      record' == record || record' == WithEntry(record, volume, TargetOf(volume))
    }

    method MountBlockVolume(volume: string, record: seq<Entry>, faults: bool) returns (ok: bool, record': seq<Entry>)
      requires Recorded() && Holds(record) && blockVolume(volume)
      modifies this`file, this`mounted, this`tornWhileMounted, this`hidden
      ensures Recorded() && old(mounted) <= mounted
      ensures mounted <= old(mounted) + {TargetOf(volume)} && (ok ==> mounted == old(mounted) + {TargetOf(volume)})
      ensures !faults ==> ok
      ensures ok ==> Holds(record') && record' == WithEntry(record, volume, TargetOf(volume))
      ensures HiddenBy(record, old(hidden)) && NoMoreLeft(record)
    {
      var target := TargetOf(volume);
      var fault := *;
      if faults && fault {
        return false, record;             // stat of the target, or the source device
      }
      var present := target in mounted;
      var writeFault: WriteFault := *;
      writeFault := if faults then writeFault else NoFault;
      ok, record' := AddVolumeToRecord(volume, target, record, writeFault);
      if !ok {
        return;
      }
      if !present {
        fault := *;
        if faults && fault {
          return false, record';          // mknod
        }
        Appear(target);
      }
      fault := *;
      if faults && fault {
        return false, record';            // cgroup
      }
    }

    method MountFileSystemVolume(volume: string, record: seq<Entry>, faults: bool) returns (ok: bool, record': seq<Entry>)
      requires Recorded() && Holds(record) && !blockVolume(volume)
      modifies this`file, this`mounted, this`tornWhileMounted, this`hidden
      ensures Recorded() && old(mounted) <= mounted
      ensures mounted <= old(mounted) + {TargetOf(volume)} && (ok ==> mounted == old(mounted) + {TargetOf(volume)})
      ensures !faults ==> ok
      ensures ok ==> Holds(record') && record' == if TargetOf(volume) in old(mounted) then record else WithEntry(record, volume, TargetOf(volume))
      ensures HiddenBy(record, old(hidden)) && NoMoreLeft(record)
    {
      var target := TargetOf(volume);
      var fault := *;
      if faults && fault {
        return false, record;             // mount table
      }
      if target in mounted {
        return true, record;
      }
      fault := *;
      if faults && fault {
        return false, record;             // source path
      }
      var writeFault: WriteFault := *;
      writeFault := if faults then writeFault else NoFault;
      ok, record' := AddVolumeToRecord(volume, target, record, writeFault);
      if !ok {
        return;
      }
      fault := *;
      if faults && fault {
        return false, record';            // create or bind mount
      }
      Appear(target);
    }

    method MountVolume(volume: string, record: seq<Entry>, faults: bool) returns (ok: bool, record': seq<Entry>)
      requires Recorded() && Holds(record)
      modifies this`file, this`mounted, this`tornWhileMounted, this`hidden
      ensures Recorded() && old(mounted) <= mounted
      ensures mounted <= old(mounted) + {TargetOf(volume)} && (ok ==> mounted == old(mounted) + {TargetOf(volume)})
      ensures !faults ==> ok
      ensures ok ==> Holds(record') && Follows(record, record', volume)
      ensures HiddenBy(record, old(hidden)) && NoMoreLeft(record)
    {
      if blockVolume(volume) {
        ok, record' := MountBlockVolume(volume, record, faults);
      } else {
        ok, record' := MountFileSystemVolume(volume, record, faults);
      }
    }

    // -------------------------------------------------------------- what the pass keeps, volume by volume

    /** If the volume is reported as mounted, it is. */
    ghost predicate Truthful(v: string)
      reads this
    {
      forall s :: s in volumeStatus && s.name == v && (s.phase == MountedToPod || s.phase == Ready) ==> TargetOf(v) in mounted
    }

    /** If the guest has the volume's disk, the target behind it is there. */
    ghost predicate Backed(v: string)
      reads this
    {
      v in disks ==> TargetOf(v) in mounted
    }

    /** Report a mounted volume as mounted, or one reported as mounted as ready. */
    method SetPhase(at: nat, phase: VolumePhase)
      requires at < |volumeStatus|
      requires TargetOf(volumeStatus[at].name) in mounted || volumeStatus[at].phase == MountedToPod
      modifies this`volumeStatus
      ensures forall v :: old(Truthful(v)) ==> Truthful(v)
      ensures volumeStatus == old(volumeStatus)[at := old(volumeStatus[at]).(phase := phase)]
    {
      assert volumeStatus[at] in volumeStatus;
      volumeStatus := volumeStatus[at := volumeStatus[at].(phase := phase)];
    }

    method FirstStatus(name: string) returns (i: nat)
      ensures i == FirstOf(volumeStatus, name)
    {
      i := 0;
      while i < |volumeStatus| && volumeStatus[i].name != name
        invariant i <= |volumeStatus| && forall j :: 0 <= j < i ==> volumeStatus[j].name != name
      {
        i := i + 1;
      }
    }

    method LastStatus(name: string) returns (at: nat)
      ensures at == LastOf(volumeStatus, name)
    {
      at := |volumeStatus|;
      for i := 0 to |volumeStatus|
        invariant if at == |volumeStatus| then forall j :: 0 <= j < i ==> volumeStatus[j].name != name
                  else at < i && volumeStatus[at].name == name && forall j :: at < j < i ==> volumeStatus[j].name != name
      {
        if volumeStatus[i].name == name {
          at := i;
        }
      }
    }

    method MountHotplugVolumes(volumes: seq<Volume>, givenVolumePod: string, faults: bool) returns (ok: bool)
      requires Recorded()
      modifies this`file, this`mounted, this`volumeStatus, this`tornWhileMounted, this`hidden
      ensures Recorded() && old(mounted) <= mounted
      ensures HiddenBy(old(Entries()), old(hidden)) && NoMoreLeft(old(Entries()))
      ensures forall v :: old(Truthful(v)) ==> Truthful(v)
      ensures Advanced(old(volumeStatus), volumeStatus, AttachedToNode, MountedToPod)
      ensures ok ==> forall v :: v in volumes ==> MountDone(volumeStatus, v)
      ensures ok ==> MountedExactly(old(volumeStatus), volumeStatus, Hotpluggable(volumes))
      ensures mounted <= old(mounted) + TargetsOf(PresentIn(old(volumeStatus), Hotpluggable(volumes)))
      ensures ok ==> old(mounted) + TargetsOf(WaitingIn(old(volumeStatus), Hotpluggable(volumes))) <= mounted
      ensures ok && givenVolumePod != "" ==>
                mounted == old(mounted) + TargetsOf(PresentIn(old(volumeStatus), Hotpluggable(volumes)))
      ensures (ok ==> !file.Torn?) && (!faults ==> (ok <==> !old(file).Torn?))
      ensures old(file).Torn? ==> !ok && file == Torn && mounted == old(mounted) && volumeStatus == old(volumeStatus)
    {
      var volumePodUid := givenVolumePod;
      var read := ReadRecord(faults);
      if read.None? {
        return false;
      }
      var record := read.value;
      ghost var first := record;
      for i := 0 to |volumes|
        invariant Recorded() && Holds(record)
        invariant HiddenBy(first, old(hidden)) && NoMoreLeft(first) && forall v :: LeftOver(record, v) ==> LeftOver(first, v)
        invariant forall v :: old(Truthful(v)) ==> Truthful(v)
        invariant MountedExactly(old(volumeStatus), volumeStatus, Hotpluggable(volumes[..i]))
        invariant MountedBetween(old(volumeStatus), Hotpluggable(volumes[..i]), old(mounted), givenVolumePod != "")
        invariant givenVolumePod != "" ==> volumePodUid != ""
      {
        NextHotpluggable(volumes, i);
        if volumes[i].hotpluggable {
          ghost var before, was, had := volumeStatus, record, mounted;
          ok, volumePodUid, record := MountSpecVolume(volumes[i], volumePodUid, record, faults);
          StillLeftOver(was, volumes[i].name);
          MountOneExactly(old(volumeStatus), before, Hotpluggable(volumes[..i]), volumes[i].name);
          BetweenNext(old(volumeStatus), before, Hotpluggable(volumes[..i]), volumes[i].name, old(mounted), had, givenVolumePod != "", ok);
          if !ok {
            HotpluggableWithin(volumes, i + 1);
            UpToMore(old(volumeStatus), Hotpluggable(volumes[..i + 1]), Hotpluggable(volumes));
            return;
          }
        }
      }
      assert volumes[..|volumes|] == volumes;
      ExactlyMeansDone(old(volumeStatus), volumeStatus, volumes);
      return true;
    }

    lemma StillLeftOver(record: seq<Entry>, volume: string)
      ensures forall v :: LeftOver(WithEntry(record, volume, TargetOf(volume)), v) ==> LeftOver(record, v)
    {
      forall v
        ensures LeftOver(WithEntry(record, volume, TargetOf(volume)), v) ==> LeftOver(record, v)
      {
        NoNewLeftOver(record, volume, v);
      }
    }

    /** One round of the mount loop. The volume pod found for one volume is kept for the next ones. */
    method MountSpecVolume(volume: Volume, givenVolumePod: string, record: seq<Entry>, faults: bool)
      returns (ok: bool, volumePodUid: string, record': seq<Entry>)
      requires Recorded() && Holds(record) && volume.hotpluggable
      modifies this`file, this`mounted, this`volumeStatus, this`tornWhileMounted, this`hidden
      ensures Recorded() && HiddenBy(record, old(hidden)) && NoMoreLeft(record)
      ensures forall v :: old(Truthful(v)) ==> Truthful(v)
      ensures ok ==> Holds(record') && Follows(record, record', volume.name)
      ensures volumeStatus == if ok then MountOne(old(volumeStatus), volume.name) else old(volumeStatus)
      ensures MountsThis(old(volumeStatus), volume.name, old(mounted), givenVolumePod != "", ok)
      ensures (givenVolumePod != "" ==> volumePodUid != "") && (!faults ==> ok)
    {
      ok, volumePodUid, record' := true, givenVolumePod, record;
      var at := FirstStatus(volume.name);
      if at < |volumeStatus| && volumeStatus[at].hotplug {
        var phase := volumeStatus[at].phase;
        if volumePodUid != "" || phase == AttachedToNode {
          if volumePodUid == "" {
            volumePodUid := volumeStatus[at].volumePodUid;
          }
          var fault := *;
          if faults && fault {
            ok := false;                  // the kind of the claim
            return;
          }
          ok, record' := MountVolume(volume.name, record, faults);
          if !ok {
            return;
          }
        }
        if phase == AttachedToNode {
          SetPhase(at, MountedToPod);
          SameFirst(old(volumeStatus), volumeStatus, volume.name);
        }
      }
    }

    /** One round mounts at most its volume: if it completes, it does so for one that waits, and for every one with
        a status when the volume pod is given. */
    ghost predicate MountsThis(before: seq<VolumeStatus>, name: string, had: set<Target>, given: bool, ok: bool)
      reads this
    {
      && had <= mounted <= had + (if Present(before, name) then {TargetOf(name)} else {})
      && (ok && Present(before, name) && (given || Waits(before, FirstOf(before, name))) ==> TargetOf(name) in mounted)
    }

    ghost predicate MountedBetween(before: seq<VolumeStatus>, names: set<string>, had: set<Target>, given: bool)
      reads this
    {
      && had <= mounted <= had + TargetsOf(PresentIn(before, names))
      && TargetsOf(WaitingIn(before, names)) <= mounted
      && (given ==> TargetsOf(PresentIn(before, names)) <= mounted)
    }

    lemma UpToMore(before: seq<VolumeStatus>, names: set<string>, more: set<string>)
      requires names <= more
      ensures TargetsOf(PresentIn(before, names)) <= TargetsOf(PresentIn(before, more))
    {
      TargetsOfWithin(PresentIn(before, names), PresentIn(before, more));
    }

    /** The next round of the loop. */
    lemma BetweenNext(first: seq<VolumeStatus>, before: seq<VolumeStatus>, names: set<string>, name: string,
                      had: set<Target>, had2: set<Target>, given: bool, ok: bool)
      requires MountedExactly(first, before, names) && MountsThis(before, name, had2, given, ok)
      requires had <= had2 <= had + TargetsOf(PresentIn(first, names))
      requires TargetsOf(WaitingIn(first, names)) <= had2 && (given ==> TargetsOf(PresentIn(first, names)) <= had2)
      ensures had <= mounted <= had + TargetsOf(PresentIn(first, names + {name}))
      ensures ok ==> MountedBetween(first, names + {name}, had, given)
    {
      SameFirst(first, before, name);
      assert Present(before, name) <==> Present(first, name);
      PresentNext(first, names, name);
      WaitingNext(first, names, name);
      TargetsOfMore(PresentIn(first, names), name);
      TargetsOfMore(WaitingIn(first, names), name);
      if WaitsBy(first, name) && name in names {
        assert name in WaitingIn(first, names);
        assert TargetOf(name) in TargetsOf(WaitingIn(first, names));
      }
    }

    // -------------------------------------------------------------- the guest's disks

    /** `seen` are the disks the hypervisor reported before the pass. */
    method AddHotplugVolumesToVm(volumes: seq<Volume>, seen: set<string>, faults: bool) returns (ok: bool)
      requires seen <= disks
      modifies this`disks, this`volumeStatus
      ensures forall v :: old(Truthful(v)) ==> Truthful(v)
      ensures forall v :: old(Truthful(v) && Backed(v)) ==> Backed(v)
      ensures Advanced(old(volumeStatus), volumeStatus, MountedToPod, Ready) && ChangedIn(old(volumeStatus), volumeStatus, disks)
      ensures old(disks) <= disks <= old(disks) + Joining(old(volumeStatus), Hotpluggable(volumes))
      ensures ok ==> disks == old(disks) + Joining(old(volumeStatus), Hotpluggable(volumes))
      ensures ok ==> ReadyExactly(old(volumeStatus), volumeStatus, Hotpluggable(volumes))
      ensures ok ==> forall v :: v in volumes ==> AddDone(volumeStatus, v)
      ensures !faults ==> ok
    {
      for i := 0 to |volumes|
        invariant forall v :: old(Truthful(v)) ==> Truthful(v)
        invariant forall v :: old(Truthful(v) && Backed(v)) ==> Backed(v)
        invariant GivenExactly(old(volumeStatus), volumeStatus, old(disks), disks, Hotpluggable(volumes[..i]))
      {
        NextHotpluggable(volumes, i);
        ReadySoFar(old(volumeStatus), volumeStatus, volumes, i);
        if volumes[i].hotpluggable {
          GivenNext(old(volumeStatus), volumeStatus, old(disks), Hotpluggable(volumes[..i]), volumes[i].name);
          ok := AddVolumeToVm(volumes[i], seen, faults);
          if !ok {
            return;
          }
        }
      }
      ReadySoFar(old(volumeStatus), volumeStatus, volumes, |volumes|);
      assert volumes[..|volumes|] == volumes;
      ReadyMeansDone(old(volumeStatus), volumeStatus, volumes);
      return true;
    }

    method AddVolumeToVm(volume: Volume, seen: set<string>, faults: bool) returns (ok: bool)
      requires seen <= disks && volume.hotpluggable
      modifies this`disks, this`volumeStatus
      ensures forall v :: old(Truthful(v)) ==> Truthful(v)
      ensures forall v :: old(Truthful(v) && Backed(v)) ==> Backed(v)
      ensures volumeStatus == if ok then ReadyOne(old(volumeStatus), volume.name) else old(volumeStatus)
      ensures disks == old(disks) + if ok && MountedLast(old(volumeStatus), volume.name) then {volume.name} else {}
      ensures !faults ==> ok
    {
      var at := LastStatus(volume.name);
      if at < |volumeStatus| && volumeStatus[at].phase == MountedToPod {
        assert volumeStatus[at] in volumeStatus;
        if volume.name !in seen {
          var fault := *;
          if faults && fault {
            return false;                 // the kind of the claim, or VmAddDisk
          }
          disks := disks + {volume.name};
        }
        SetPhase(at, Ready);
      }
      return true;
    }

    /** Take the reported disks that the spec no longer has out of the guest. */
    method RemoveHotplugVolumesFromVm(volumes: seq<Volume>, seen: seq<string>, faults: bool) returns (ok: bool)
      modifies this`disks
      ensures disks <= old(disks)
      ensures forall v :: v in VolumeNames(volumes) && v in old(disks) ==> v in disks
      ensures ok ==> disks == old(disks) - (AsSet(seen) - VolumeNames(volumes))
      ensures !faults ==> ok
    {
      var spec := VolumeNames(volumes);
      for i := 0 to |seen|
        invariant disks == old(disks) - (AsSet(seen[..i]) - spec)
      {
        assert AsSet(seen[..i + 1]) == AsSet(seen[..i]) + {seen[i]};
        if seen[i] !in spec {
          var fault := *;
          if faults && fault {
            return false;
          }
          disks := disks - {seen[i]};
        }
      }
      assert seen[..|seen|] == seen;
      return true;
    }

    // -------------------------------------------------------------- unmounting

    method UmountVolume(target: Target, faults: bool) returns (ok: bool)
      modifies this`mounted
      ensures (mounted == if ok then old(mounted) - {target} else old(mounted)) && (!faults ==> ok)
    {
      var fault := *;
      if faults && fault {
        return false;
      }
      mounted := mounted - {target};
      return true;
    }

    /** Unmount what no status speaks of any more, then shrink the record. */
    method UmountHotplugVolumes(faults: bool) returns (ok: bool)
      requires Recorded()
      modifies this`file, this`mounted, this`tornWhileMounted
      ensures Recorded() && mounted <= old(mounted)
      ensures forall v :: v in Names(volumeStatus) && TargetOf(v) in old(mounted) ==> TargetOf(v) in mounted
      ensures ok ==> forall t :: t in mounted ==> t.volume in Names(volumeStatus) || t in hidden
      ensures ok ==> mounted == old(mounted) - Dropped(old(Entries()), Names(volumeStatus))
      ensures ok ==> file == var kept := Kept(old(Entries()), Names(volumeStatus)); if kept == [] then NoFile else Written(kept)
      ensures NoMoreLeft(old(Entries()))
      ensures old(file).Torn? ==> !ok && file == Torn && mounted == old(mounted)
      ensures !faults ==> (ok <==> !old(file).Torn?)
    {
      var names := Names(volumeStatus);
      var read := ReadRecord(faults);
      if read.None? {
        return false;
      }
      var newRecord;
      ok, newRecord := UmountUnlisted(read.value, names, faults);
      if !ok {
        return;
      }
      KeptMembers(read.value, names);
      KeptOrDropped(read.value, names);
      KeptLeftOver(read.value, names);
      if |newRecord| > 0 {
        var writeFault: WriteFault := *;
        writeFault := if faults then writeFault else NoFault;
        ok := WriteRecord(newRecord, writeFault);
      } else {
        ok := RemoveRecord(faults);
      }
      forall t | ok && t in mounted && t !in hidden
        ensures t.volume in names
      {
        assert t in OnRecord();
        var e :| e in newRecord && e.target == t;
      }
    }

    lemma KeptLeftOver(record: seq<Entry>, names: set<string>)
      requires Labelled(record)
      ensures forall v :: LeftOver(Kept(record, names), v) ==> LeftOver(record, v)
    {
      KeptMembers(record, names);
      forall v | LeftOver(Kept(record, names), v)
        ensures LeftOver(record, v)
      {
        var e :| e in Kept(record, names) && e.volume == v;
        assert e in record && v in names;
      }
    }

    method UmountUnlisted(record: seq<Entry>, names: set<string>, faults: bool) returns (ok: bool, newRecord: seq<Entry>)
      modifies this`mounted
      ensures mounted <= old(mounted)
      ensures forall t :: t in old(mounted) && t !in mounted ==> t in Dropped(record, names)
      ensures ok ==> newRecord == Kept(record, names) && mounted == old(mounted) - Dropped(record, names)
      ensures !faults ==> ok
    {
      newRecord := [];
      for i := 0 to |record|
        invariant newRecord == Kept(record[..i], names)
        invariant mounted == old(mounted) - Dropped(record[..i], names)
        invariant Dropped(record[..i], names) <= Dropped(record, names)
      {
        DroppedNext(record, i, names);
        if record[i].volume in names {
          newRecord := newRecord + [record[i]];
        } else {
          ok := UmountVolume(record[i].target, faults);
          if !ok {
            return;
          }
          assert record[i] in record;
        }
      }
      assert record[..|record|] == record;
      ok := true;
    }

    /** Unmount everything the record has, then remove it. However the pod got to this state, a cleanup
        that completes leaves nothing mounted but what is hidden. */
    method UmountAllHotplugVolumes(faults: bool) returns (ok: bool)
      requires Recorded()
      modifies this`file, this`mounted
      ensures Recorded() && mounted <= old(mounted)
      ensures ok ==> mounted == hidden && file == NoFile
      ensures NoMoreLeft(old(Entries()))
      ensures old(file).Torn? ==> !ok && file == Torn && mounted == old(mounted)
      ensures !faults ==> (ok <==> !old(file).Torn?)
    {
      var read := ReadRecord(faults);
      if read.None? {
        return false;
      }
      var record := read.value;
      assert Targets(record) == OnRecord();
      for i := 0 to |record|
        invariant mounted == old(mounted) - Targets(record[..i]) && Targets(record[..i]) <= Targets(record)
        modifies this`mounted
      {
        assert record[..i + 1] == record[..i] + [record[i]];
        assert Targets(record[..i + 1]) == Targets(record[..i]) + {record[i].target};
        ok := UmountVolume(record[i].target, faults);
        if !ok {
          return;
        }
      }
      assert record[..|record|] == record;
      OnlyHiddenLeft(old(mounted), hidden, Targets(record));
      ok := RemoveRecord(faults);
    }

    // -------------------------------------------------------------- whole histories

    /** Any pass over any spec and any statuses, stopping wherever it likes. */
    method AnyPass() returns (ok: bool)
      requires Recorded()
      modifies this
      ensures Recorded()
      ensures old(tornWhileMounted) ==> tornWhileMounted
      ensures HiddenBy(old(Entries()), old(hidden)) && NoMoreLeft(old(Entries()))
      ensures old(file).Torn? ==> !ok && file == Torn && mounted == old(mounted)
    {
      volumeStatus := *;
      if * {
        var volumes: seq<Volume>, volumePod: string := *, *;
        ok := MountHotplugVolumes(volumes, volumePod, true);
      } else if * {
        ok := UmountHotplugVolumes(true);
      } else {
        ok := UmountAllHotplugVolumes(true);
      }
    }

    /** Write-ahead recording, over every history of passes, with whatever record earlier pods left: what is
        mounted is in the durable record if and only if no write was ever cut short while something was
        mounted and no mounted volume is hidden by a leftover entry; and a cleanup that completes leaves
        mounted exactly what is hidden. */
    method CleanupAfterAnyHistory(passes: nat, faults: bool) returns (ok: bool)
      requires Recorded()
      modifies this
      ensures Recorded() && (Covered() <==> !tornWhileMounted && hidden == {})
      ensures old(tornWhileMounted) ==> tornWhileMounted && !ok
      ensures ok ==> mounted == hidden && file == NoFile
      ensures !faults ==> (ok <==> !file.Torn?)
    {
      for i := 0 to passes
        invariant Recorded()
        invariant old(tornWhileMounted) ==> tornWhileMounted
      {
        var done := AnyPass();
      }
      ok := UmountAllHotplugVolumes(faults);
      CoverageIsExact();
    }

    /** If no entry was left by an earlier pod, nothing is ever hidden, and a cleanup that completes leaves
        nothing mounted. */
    method CleanupWithoutLeftovers(passes: nat, faults: bool) returns (ok: bool)
      requires Recorded() && hidden == {}
      requires forall v :: !LeftOver(Entries(), v)
      modifies this
      ensures Covered() <==> !tornWhileMounted
      ensures ok ==> mounted == {} && file == NoFile
      ensures !faults ==> (ok <==> !file.Torn?)
    {
      for i := 0 to passes
        invariant Recorded() && hidden == {}
        invariant forall v :: !LeftOver(Entries(), v)
      {
        var done := AnyPass();
      }
      ok := UmountAllHotplugVolumes(faults);
      CoverageIsExact();
    }

    /** Once the file is torn, no pass ever completes again, and what is mounted stays mounted. */
    method TornForEver(passes: nat) returns (anyCompleted: bool)
      requires Recorded() && file.Torn?
      modifies this
      ensures !anyCompleted && file.Torn? && mounted == old(mounted)
    {
      anyCompleted := false;
      for i := 0 to passes
        invariant Recorded() && file.Torn? && mounted == old(mounted) && !anyCompleted
      {
        var ok := AnyPass();
        anyCompleted := anyCompleted || ok;
      }
    }

    // -------------------------------------------------------------- the whole pass

    /** A volume in good order: reported truthfully, its disk backed, and not in the guest without a
        status while the spec has it. */
    ghost predicate InOrder(v: string, volumes: seq<Volume>)
      reads this
    {
      Truthful(v) && Backed(v) && (v in disks && v in VolumeNames(volumes) ==> v in Names(volumeStatus))
    }

    /** One reconcile pass, with the hypervisor's list of disks up to date. Wherever it stops, a volume
        that was in good order has no disk in the guest without its target. If it completes, every volume
        that was attached to the node is mounted, in the guest and reported ready, nothing without a
        status is mounted, and the guest's disks are exactly those of before that the spec still has, and those
        of volumes that waited to be mounted or to be given to it. */
    method ReconcileHotplugVolumes(volumes: seq<Volume>, seen: seq<string>, faults: bool) returns (ok: bool)
      requires Recorded() && AsSet(seen) == disks
      modifies this
      ensures Recorded()
      ensures forall v :: old(InOrder(v, volumes)) ==> Truthful(v) && Backed(v)
      ensures ok ==> forall v :: v in volumes && v.hotpluggable && Attached(old(volumeStatus), v.name) ==>
                       Mounted(v.name) && v.name in disks
      ensures ok ==> forall t :: t in mounted ==> t.volume in Names(volumeStatus) || t in hidden
      ensures ok ==> forall v :: v in old(disks) && v !in VolumeNames(volumes) ==> v !in disks
      ensures ok ==> forall v :: v in disks <==>
                       || (v in old(disks) && v in VolumeNames(volumes))
                       || (v in Hotpluggable(volumes) && WaitsForGuest(old(volumeStatus), v))
      ensures ok ==> StatusesAfter(old(volumeStatus), volumeStatus, Hotpluggable(volumes))
      ensures old(file).Torn? ==> !ok && file == Torn && mounted == old(mounted) && disks == old(disks)
      ensures !faults ==> (ok <==> !old(file).Torn?)
    {
      ok := AttachVolumes(volumes, AsSet(seen), faults);
      if ok {
        ok := DetachVolumes(volumes, seen, faults);
        HotpluggableAreVolumes(volumes);
      }
    }

    /** Mounted and reported ready. */
    ghost predicate Mounted(name: string)
      reads this
    {
      TargetOf(name) in mounted && exists s :: s in volumeStatus && s.name == name && s.phase == Ready
    }

    lemma AttachedIsTruthful(name: string)
      requires Attached(volumeStatus, name)
      ensures Truthful(name)
    {
      forall s | s in volumeStatus && s.name == name
        ensures s.phase == AttachedToNode
      {
        var i :| 0 <= i < |volumeStatus| && volumeStatus[i] == s;
      }
    }

    /** The first half of the pass: mount, then give to the guest. */
    method AttachVolumes(volumes: seq<Volume>, seen: set<string>, faults: bool) returns (ok: bool)
      requires Recorded() && seen <= disks
      modifies this
      ensures Recorded() && Names(volumeStatus) == old(Names(volumeStatus))
      ensures forall v :: old(Truthful(v)) ==> Truthful(v)
      ensures forall v :: old(Truthful(v) && Backed(v)) ==> Backed(v)
      ensures old(disks) <= disks <= old(disks) + Names(volumeStatus)
      ensures ok ==> forall v :: v in volumes && v.hotpluggable && Attached(old(volumeStatus), v.name) ==>
                       Mounted(v.name) && v.name in disks
      ensures ok ==> forall v :: v in disks <==>
                       v in old(disks) || (v in Hotpluggable(volumes) && WaitsForGuest(old(volumeStatus), v))
      ensures ok ==> StatusesAfter(old(volumeStatus), volumeStatus, Hotpluggable(volumes))
      ensures old(file).Torn? ==> !ok && file == Torn && mounted == old(mounted) && disks == old(disks)
      ensures (ok ==> !file.Torn?) && (!faults ==> (ok <==> !old(file).Torn?))
    {
      forall v: string | Attached(volumeStatus, v)
        ensures Truthful(v)
      {
        AttachedIsTruthful(v);
      }
      ok := MountHotplugVolumes(volumes, "", faults);
      AdvancedNames(old(volumeStatus), volumeStatus, AttachedToNode, MountedToPod);
      if !ok {
        return;
      }
      ghost var middle := volumeStatus;
      ok := AddHotplugVolumesToVm(volumes, seen, faults);
      AdvancedNames(middle, volumeStatus, MountedToPod, Ready);
      JoiningNames(middle, Hotpluggable(volumes));
      if ok {
        WaitsThenJoins(old(volumeStatus), middle, Hotpluggable(volumes));
        StatusesExactly(old(volumeStatus), middle, volumeStatus, Hotpluggable(volumes));
        forall v | v in volumes && v.hotpluggable && Attached(old(volumeStatus), v.name)
          ensures Mounted(v.name) && v.name in disks
        {
          AttachedBecomesReady(old(volumeStatus), middle, volumeStatus, disks, v);
          var s := volumeStatus[FirstOf(old(volumeStatus), v.name)];
          assert s in volumeStatus && s.name == v.name && s.phase == Ready;
          assert Truthful(v.name);
        }
      }
    }

    /** The second half: take unwanted disks out of the guest, then unmount. */
    method DetachVolumes(volumes: seq<Volume>, seen: seq<string>, faults: bool) returns (ok: bool)
      requires Recorded()
      modifies this`file, this`mounted, this`disks, this`tornWhileMounted
      ensures Recorded()
      ensures forall v :: old(Truthful(v)) ==> Truthful(v)
      ensures forall v :: old(Backed(v)) && (v in old(disks) && v !in Names(volumeStatus) ==> v in seen && v !in VolumeNames(volumes)) ==>
                Backed(v)
      ensures forall v :: v in VolumeNames(volumes) && v in old(disks) ==> v in disks
      ensures forall v :: v in Names(volumeStatus) && TargetOf(v) in old(mounted) ==> TargetOf(v) in mounted
      ensures ok ==> forall t :: t in mounted ==> t.volume in Names(volumeStatus) || t in hidden
      ensures ok ==> disks == old(disks) - (AsSet(seen) - VolumeNames(volumes))
      ensures !faults ==> (ok <==> !old(file).Torn?)
    {
      ok := RemoveHotplugVolumesFromVm(volumes, seen, faults);
      if !ok {
        return;
      }
      ok := UmountHotplugVolumes(faults);
      assert forall s :: s in volumeStatus ==> s.name in Names(volumeStatus);
    }
  }

  /** The losing write: one volume is mounted and recorded, the write that records a second one is cut
      short, and the mounted target is in no record any more. */
  method LosingWrite(pod: string, first: string, second: string) returns (p: PodVolumes)
    requires first != second
    ensures p.Recorded() && p.tornWhileMounted && !p.Covered()
    ensures p.file == Torn && p.mounted == {p.TargetOf(first)}
  {
    p := new PodVolumes(pod, v => true, NoFile);
    var target := p.TargetOf(first);
    var ok, record := p.AddVolumeToRecord(first, target, [], NoFault);
    p.Appear(target);
    assert forall e :: e in record ==> e.volume == first;
    ok, record := p.AddVolumeToRecord(second, p.TargetOf(second), record, DuringWrite);
    assert p.TargetOf(first) in p.mounted;
  }

  /** A leftover entry: the volume is mounted in a new pod while the record still has it for an earlier
      one. The mount succeeds, is not recorded, and a cleanup that completes leaves it mounted. */
  method LeftoverHidesMount(pod: string, earlier: string, volume: string) returns (p: PodVolumes)
    requires pod != earlier
    ensures p.Recorded() && !p.tornWhileMounted && !p.Covered() && p.hidden == p.mounted == {p.TargetOf(volume)}
  {
    var left := [Entry(volume, Target(earlier, volume, true))];
    p := new PodVolumes(pod, v => true, Written(left));
    assert left[0].volume in Volumes(left);
    var ok, record := p.AddVolumeToRecord(volume, p.TargetOf(volume), left, NoFault);
    p.Appear(p.TargetOf(volume));
    p.CoverageIsExact();
  }
}
