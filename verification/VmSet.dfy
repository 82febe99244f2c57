/** VMSet scaling (internal/controller/vmset_controller.go): a set of VMs named by ordinal, each
    with its own disks, grown one VM and shrunk from the top. Any call to the API server may fail,
    and a failed call may or may not have taken effect; the list a pass works on may be out of date;
    and a deleted VM or disk stays until its own controller has finished with it. */
module VmSet {
  import opened Wrappers
  import opened Text
  import opened Sorting

  const MAX_INT32: int := 0x7fff_ffff

  /** Conversion to a 32-bit signed integer. */
  function Int32(v: int): int {
    var low := v % 0x1_0000_0000;
    if low > MAX_INT32 then low - 0x1_0000_0000 else low
  }

  lemma Int32Keeps(v: int)
    requires -MAX_INT32 - 1 <= v <= MAX_INT32
    ensures Int32(v) == v
  {
  }

  /** Any other number loses a multiple of two to the power 32. */
  lemma Int32Wraps(v: int)
    ensures -0x8000_0000 <= Int32(v) < 0x8000_0000 && (v - Int32(v)) % 0x1_0000_0000 == 0
  {
    var w := 0x1_0000_0000;
    var high := v / w;
    assert v - Int32(v) == w * high || v - Int32(v) == w * (high + 1);
  }

  // ---------------------------------------------------------------- names

  function VmName(owner: string, o: nat): string {
    owner + "-" + Itoa(o)
  }

  function DiskName(owner: string, template: string, o: nat): string {
    VmName(owner + "-" + template, o)
  }

  /** `getOrdinal`: the number after the last dash, or 0 if there is none. */
  function GetOrdinal(name: string): int {
    match Atoi(LastPart(name))
    case None => 0
    case Some(v) => Int32(v)
  }

  function LastPart(name: string): string {
    var parts := Split(name, '-');
    parts[|parts| - 1]
  }

  lemma LastPartOfVmName(owner: string, o: nat)
    ensures LastPart(VmName(owner, o)) == Itoa(o)
  {
    DigitsHaveNo(Itoa(o), '-');
    LastPartIs(owner, Itoa(o));
  }

  /** For any name: what is behind its last dash as a 32-bit number, and 0 if that is none. */
  lemma OrdinalExactly(head: string, tail: string)
    requires '-' !in tail
    ensures GetOrdinal(head + "-" + tail) == GetOrdinal(tail)
    ensures Atoi(tail).None? ==> GetOrdinal(tail) == 0
    ensures Atoi(tail).Some? ==>
              -0x8000_0000 <= GetOrdinal(tail) < 0x8000_0000 && (Atoi(tail).value - GetOrdinal(tail)) % 0x1_0000_0000 == 0
  {
    LastPartIs(head, tail);
    if Atoi(tail).Some? {
      Int32Wraps(Atoi(tail).value);
    }
  }

  lemma LastPartIs(head: string, tail: string)
    requires '-' !in tail
    ensures LastPart(head + "-" + tail) == LastPart(tail) == tail
  {
    SplitNone(tail, '-');
    SplitJoined(head, tail, '-');
  }

  /** Whatever dashes and digits the set's own name has, the ordinal comes back. */
  lemma OrdinalOfVmName(owner: string, o: nat)
    requires o <= MAX_INT32
    ensures GetOrdinal(VmName(owner, o)) == o
  {
    LastPartOfVmName(owner, o);
    AtoiItoa(o);
    Int32Keeps(o);
  }

  /** The names of different sets or ordinals differ. */
  lemma VmNamesDiffer(owner1: string, o1: nat, owner2: string, o2: nat)
    ensures VmName(owner1, o1) == VmName(owner2, o2) <==> owner1 == owner2 && o1 == o2
  {
    if VmName(owner1, o1) == VmName(owner2, o2) {
      LastPartOfVmName(owner1, o1);
      LastPartOfVmName(owner2, o2);
      ItoaInjective(o1, o2);
      var name := VmName(owner1, o1);
      assert owner1 == name[..|name| - 1 - |Itoa(o1)|] == owner2;
    }
  }

  /** Within a set, a disk's name determines its template and its ordinal. */
  lemma DiskNamesDiffer(owner: string, t1: string, o1: nat, t2: string, o2: nat)
    ensures DiskName(owner, t1, o1) == DiskName(owner, t2, o2) <==> t1 == t2 && o1 == o2
  {
    VmNamesDiffer(owner + "-" + t1, o1, owner + "-" + t2, o2);
    if owner + "-" + t1 == owner + "-" + t2 {
      assert t1 == (owner + "-" + t1)[|owner| + 1..] == t2;
    }
  }

  /** Across sets it does not: two sets share the disk of an ordinal exactly when the set and
      template names run together to the same text. */
  lemma DiskNamesOfTwoSets(owner1: string, t1: string, o1: nat, owner2: string, t2: string, o2: nat)
    ensures DiskName(owner1, t1, o1) == DiskName(owner2, t2, o2) <==>
            o1 == o2 && owner1 + "-" + t1 == owner2 + "-" + t2
  {
    VmNamesDiffer(owner1 + "-" + t1, o1, owner2 + "-" + t2, o2);
  }

  lemma DisksOfTwoSetsCanCollide(o: nat)
    ensures DiskName("web", "db-data", o) == DiskName("web-db", "data", o)
  {
    assert "web" + "-" + "db-data" == "web-db" + "-" + "data";
  }

  // ---------------------------------------------------------------- prefixes

  predicate Less(o: nat, k: nat) {
    o < k
  }

  function Below(k: nat): set<nat> {
    set o: nat | o < k && Less(o, k)
  }

  lemma {:induction false} BelowCount(k: nat)
    ensures |Below(k)| == k
  {
    if k > 0 {
      BelowCount(k - 1);
      assert Below(k) == Below(k - 1) + {k - 1};
    }
  }

  /** The VMs are those of the ordinals below some number, which is then how many there are. */
  ghost predicate IsPrefix(vms: set<nat>) {
    vms == Below(|vms|)
  }

  lemma PrefixIsBelow(vms: set<nat>, k: nat)
    requires vms == Below(k)
    ensures |vms| == k && IsPrefix(vms)
  {
    BelowCount(k);
  }

  /** Creating ordinal n beside k VMs keeps the prefix exactly when n is not past k. */
  lemma CreateKeepsPrefix(k: nat, n: nat)
    ensures IsPrefix(Below(k) + {n}) <==> n <= k
  {
    BelowCount(k);
    if n < k {
      assert Below(k) + {n} == Below(k);
    } else {
      assert |Below(k) + {n}| == k + 1 && n in Below(k) + {n};
      BelowCount(k + 1);
      assert n == k ==> Below(k) + {n} == Below(k + 1);
    }
  }

  /** Removing one VM keeps the prefix exactly when it was the last. */
  lemma RemoveKeepsPrefix(k: nat, o: nat)
    requires o < k
    ensures IsPrefix(Below(k) - {o}) <==> o == k - 1
  {
    BelowCount(k);
    assert |Below(k) - {o}| == k - 1;
    assert o == k - 1 ==> Below(k) - {o} == Below(k - 1);
    assert o < k - 1 ==> o in Below(k - 1);
  }

  /** After a removal the ordinal the next scale-up would create is taken exactly when the removal left a
      gap; a scale-up then finds the VM and does nothing. */
  lemma GapBlocksScaleUp(k: nat, o: nat)
    requires o < k
    ensures var vms := Below(k) - {o};
            |vms| in vms <==> o < k - 1
  {
    BelowCount(k);
    assert |Below(k) - {o}| == k - 1;
  }

  // ---------------------------------------------------------------- lists

  function NamesOf(owner: string, ordinals: set<nat>): set<string> {
    set o | o in ordinals :: VmName(owner, o)
  }

  lemma {:induction false} NamesCount(owner: string, ordinals: set<nat>)
    ensures |NamesOf(owner, ordinals)| == |ordinals|
  {
    if ordinals != {} {
      var o :| o in ordinals;
      var rest := ordinals - {o};
      NamesCount(owner, rest);
      NotAmong(owner, rest, o);
      assert NamesOf(owner, ordinals) == NamesOf(owner, rest) + {VmName(owner, o)};
    }
  }

  lemma NotAmong(owner: string, ordinals: set<nat>, o: nat)
    requires o !in ordinals
    ensures VmName(owner, o) !in NamesOf(owner, ordinals)
  {
    forall p | p in ordinals
      ensures VmName(owner, p) != VmName(owner, o)
    {
      VmNamesDiffer(owner, p, owner, o);
    }
  }

  ghost predicate Printable(ordinals: set<nat>) {
    forall o :: o in ordinals ==> o <= MAX_INT32
  }

  lemma OrdinalsTellApart(owner: string, ordinals: set<nat>)
    requires Printable(ordinals)
    ensures TellsApart(GetOrdinal, NamesOf(owner, ordinals))
    ensures forall name :: name in NamesOf(owner, ordinals) ==>
              GetOrdinal(name) >= 0 && GetOrdinal(name) in ordinals && name == VmName(owner, GetOrdinal(name))
  {
    forall name | name in NamesOf(owner, ordinals)
      ensures GetOrdinal(name) >= 0 && GetOrdinal(name) in ordinals && name == VmName(owner, GetOrdinal(name))
    {
      var o :| o in ordinals && name == VmName(owner, o);
      OrdinalOfVmName(owner, o);
    }
  }

  /** The ordinals in ascending order, each once. */
  ghost predicate Enumerates(ks: seq<nat>, ordinals: set<nat>) {
    (forall i, j :: 0 <= i < j < |ks| ==> ks[i] < ks[j]) && (forall o :: o in ks <==> o in ordinals)
  }

  /** The names print the ordinals, one by one. */
  ghost predicate Prints(names: seq<string>, owner: string, ks: seq<nat>) {
    |names| == |ks| && forall i :: 0 <= i < |ks| ==> ks[i] <= MAX_INT32 && names[i] == VmName(owner, ks[i])
  }

  /** Whatever order a list comes in, sorting it puts the VMs in ascending order of their ordinals, each
      name printing its ordinal. */
  lemma SortedByOrdinal(owner: string, listed: seq<string>, ordinals: set<nat>) returns (ks: seq<nat>)
    requires Lists(listed, NamesOf(owner, ordinals)) && Printable(ordinals)
    ensures |listed| == |ks| == |ordinals| && Enumerates(ks, ordinals)
    ensures Prints(SortBy(listed, GetOrdinal), owner, ks)
  {
    var names := NamesOf(owner, ordinals);
    var sorted := SortBy(listed, GetOrdinal);
    NamesCount(owner, ordinals);
    OrdinalsTellApart(owner, ordinals);
    SortedListing(listed, names, GetOrdinal);
    ListedIn(listed, names);
    ListedIn(sorted, names);
    ks := ParsedBack(owner, sorted, ordinals);
  }

  lemma ParsedBack(owner: string, sorted: seq<string>, ordinals: set<nat>) returns (ks: seq<nat>)
    requires Printable(ordinals) && (forall name :: name in sorted <==> name in NamesOf(owner, ordinals))
    requires Ascending(Keys(sorted, GetOrdinal))
    ensures Prints(sorted, owner, ks) && Enumerates(ks, ordinals)
  {
    OrdinalsTellApart(owner, ordinals);
    forall i | 0 <= i < |sorted|
      ensures GetOrdinal(sorted[i]) >= 0 && GetOrdinal(sorted[i]) in ordinals && sorted[i] == VmName(owner, GetOrdinal(sorted[i]))
    {
      assert sorted[i] in sorted;
    }
    ks := seq(|sorted|, i requires 0 <= i < |sorted| => GetOrdinal(sorted[i]));
    assert Ascending(ks);
    forall o | o in ordinals
      ensures o in ks
    {
      assert VmName(owner, o) in sorted;
      var i :| 0 <= i < |sorted| && sorted[i] == VmName(owner, o);
      OrdinalOfVmName(owner, o);
      assert ks[i] == o;
    }
  }

  // ---------------------------------------------------------------- disks

  function DisksOf(owner: string, templates: seq<string>, o: nat): set<string> {
    set t | t in templates :: DiskName(owner, t, o)
  }

  lemma DisksApart(owner: string, templates: seq<string>, o1: nat, o2: nat)
    requires o1 != o2
    ensures DisksOf(owner, templates, o1) !! DisksOf(owner, templates, o2)
  {
    forall t1, t2 | t1 in templates && t2 in templates
      ensures DiskName(owner, t1, o1) != DiskName(owner, t2, o2)
    {
      DiskNamesDiffer(owner, t1, o1, t2, o2);
    }
  }

  lemma MoreDisks(owner: string, templates: seq<string>, i: nat, o: nat)
    requires i < |templates|
    ensures DisksOf(owner, templates[..i + 1], o) ==
            DisksOf(owner, templates[..i], o) + {DiskName(owner, templates[i], o)}
    ensures DisksOf(owner, templates[..i + 1], o) <= DisksOf(owner, templates, o)
  {
    assert templates[..i + 1] == templates[..i] + [templates[i]];
  }

  // ---------------------------------------------------------------- scaling

  datatype Outcome = Done | Failed | Panicked

  /** What the client's cache shows when a pass looks objects up by name: an older state. */
  datatype Cache = Cache(vms: set<nat>, disks: set<string>)

  method ReadOrdinal(name: string, ghost owner: string, ghost o: nat) returns (ordinal: nat)
    requires name == VmName(owner, o) && o <= MAX_INT32
    ensures ordinal == o
  {
    OrdinalOfVmName(owner, o);
    ordinal := GetOrdinal(name);
  }

  /** The number of VMs to delete, as a 32-bit difference. */
  lemma ToDelete(n: nat, desired: int)
    requires n <= MAX_INT32 && -MAX_INT32 - 1 <= desired < n
    ensures n - desired <= MAX_INT32 ==> Int32(n - desired) == n - desired
    ensures n - desired > MAX_INT32 ==> Int32(n - desired) < 0 && desired < 0
  {
  }

  /** The last m of the ordinals. */
  function Top(ks: seq<nat>, m: nat): set<nat>
    requires m <= |ks|
  {
    Members(ks[|ks| - m..])
  }

  function Members(ks: seq<nat>): set<nat> {
    set o | o in ks
  }

  lemma TopNext(ks: seq<nat>, m: nat)
    requires m < |ks|
    ensures Top(ks, m + 1) == Top(ks, m) + {ks[|ks| - 1 - m]}
  {
    var i := |ks| - 1 - m;
    assert ks[i..] == [ks[i]] + ks[i + 1..];
  }

  /** The chosen ordinals are above the others. */
  ghost predicate Highest(chosen: set<nat>, ordinals: set<nat>) {
    chosen <= ordinals && forall a, b :: a in chosen && b in ordinals && b !in chosen ==> b < a
  }

  lemma InHalves(ks: seq<nat>, c: nat, a: nat, b: nat)
    requires c <= |ks| && (forall i, j :: 0 <= i < j < |ks| ==> ks[i] < ks[j])
    requires a in ks[c..] && b in ks && b !in ks[c..]
    ensures b < a
  {
    assert ks == ks[..c] + ks[c..];
    var i :| 0 <= i < |ks| - c && ks[c..][i] == a;
    var j :| 0 <= j < c && ks[..c][j] == b;
    assert ks[j] == b && ks[c + i] == a;
  }

  lemma TopIsHighest(ks: seq<nat>, m: nat, ordinals: set<nat>)
    requires m <= |ks| && Enumerates(ks, ordinals)
    ensures Highest(Top(ks, m), ordinals) && |Top(ks, m)| == m
  {
    var c := |ks| - m;
    assert Top(ks, m) <= ordinals by {
      assert ks == ks[..c] + ks[c..];
    }
    forall a, b | a in Top(ks, m) && b in ordinals && b !in Top(ks, m)
      ensures b < a
    {
      InHalves(ks, c, a, b);
    }
    TopCount(ks, m);
  }

  lemma BelowTheTop(ks: seq<nat>, m: nat)
    requires m < |ks| && forall i, j :: 0 <= i < j < |ks| ==> ks[i] < ks[j]
    ensures ks[|ks| - 1 - m] !in Top(ks, m)
  {
    var top := ks[|ks| - m..];
    forall i | 0 <= i < |top|
      ensures top[i] != ks[|ks| - 1 - m]
    {
      assert top[i] == ks[|ks| - m + i];
    }
  }

  lemma {:induction false} TopCount(ks: seq<nat>, m: nat)
    requires m <= |ks| && forall i, j :: 0 <= i < j < |ks| ==> ks[i] < ks[j]
    ensures |Top(ks, m)| == m
  {
    if m > 0 {
      TopCount(ks, m - 1);
      TopNext(ks, m - 1);
      BelowTheTop(ks, m - 1);
    } else {
      assert ks[|ks|..] == [];
    }
  }

  lemma StayExactly(wanted: set<string>, shown: set<string>, disks: set<string>, dying: set<string>)
    ensures wanted <= disks + (wanted - shown) - dying <==> wanted * shown <= disks - dying && (wanted - shown) !! dying
  {
    if wanted <= disks + (wanted - shown) - dying {
      forall d | d in wanted
        ensures d !in dying && (d in shown ==> d in disks)
      {
        assert d in disks + (wanted - shown) - dying;
      }
    } else {
      var d :| d in wanted && d !in disks + (wanted - shown) - dying;
      assert d in shown ==> d in wanted * shown && d !in disks - dying;
    }
  }

  /** One VMSet and the objects of its namespace, by ordinal. A deleted VM is `terminating`, and a deleted
      disk `dying`, until its own controller has finished with it: a finalizer keeps it until then. */
  class Cluster {
    const owner: string
    const templates: seq<string>
    const deleteOnScale: bool
    var vms: set<nat>
    var terminating: set<nat>
    var disks: set<string>
    var dying: set<string>
    var ever: set<string>               // the disks there ever were
    ghost var bare: set<nat>            // ordinals whose disks were found, though not all of them to stay

    function Disks(o: nat): set<string> {
      DisksOf(owner, templates, o)
    }

    /** All the disks of an ordinal are there, to stay. */
    ghost predicate Kept(o: nat)
      reads this
    {
      Disks(o) <= disks - dying
    }

    /** Every disk that the cache shows is there, to stay, and none of the others is being deleted. */
    ghost predicate FoundToStay(o: nat, cache: Cache)
      reads this
    {
      Disks(o) * cache.disks <= disks - dying && (Disks(o) - cache.disks) !! dying
    }

    /** What every history keeps: a VM that nobody deletes has its disks, to stay, exactly if it is not
        one of those whose disks were not all found to stay when they were last looked up. */
    ghost predicate Valid()
      reads this
    {
      && Printable(vms) && terminating <= vms && dying <= disks <= ever
      && forall o :: o in vms - terminating ==> (Kept(o) <==> o !in bare)
    }

    constructor (owner: string, templates: seq<string>, deleteOnScale: bool, disks: set<string>)
      ensures Valid() && vms == terminating == bare == {} && this.disks == ever == disks && dying == {}
      ensures this.owner == owner && this.templates == templates && this.deleteOnScale == deleteOnScale
    {
      this.owner, this.templates, this.deleteOnScale := owner, templates, deleteOnScale;
      vms, terminating, this.disks, dying, ever, bare := {}, {}, disks, {}, disks, {};
    }

    // -------------------------------------------------------------- disks

    /** Creates the disks that the cache does not show; that one exists already is no error. */
    method CreateMissing(o: nat, cache: Cache, faults: bool) returns (ok: bool)
      requires disks <= ever
      modifies this`disks, this`ever
      ensures old(disks) <= disks <= old(disks) + (Disks(o) - cache.disks) && ever == old(ever) + disks
      ensures ok ==> disks == old(disks) + (Disks(o) - cache.disks)
      ensures !faults ==> ok
    {
      for i := 0 to |templates|
        invariant disks == old(disks) + (DisksOf(owner, templates[..i], o) - cache.disks)
        invariant DisksOf(owner, templates[..i], o) <= Disks(o) && ever == old(ever) + disks
      {
        MoreDisks(owner, templates, i, o);
        var diskName := DiskName(owner, templates[i], o);
        var fault := *;
        if faults && fault {
          return false;                       // the read failed
        }
        if diskName !in cache.disks {
          fault := *;
          if faults && fault {
            if * { disks, ever := disks + {diskName}, ever + {diskName}; }
            return false;                     // the create failed, perhaps after its effect
          }
          disks, ever := disks + {diskName}, ever + {diskName};
        }
      }
      assert templates[..|templates|] == templates;
      ok := true;
    }

    /** When it succeeds, the ordinal has its disks, to stay, exactly if they were all found to stay: what
        the cache shows is left as it is, even a disk that is being deleted or already gone. */
    method CreateVirtualDisks(o: nat, cache: Cache, faults: bool) returns (ok: bool)
      requires Valid()
      modifies this`disks, this`ever, this`bare
      ensures Valid() && old(disks) <= disks <= old(disks) + Disks(o) && ever == old(ever) + disks
      ensures ok ==> Disks(o) - cache.disks <= disks && (Kept(o) <==> old(FoundToStay(o, cache)))
      ensures bare <= old(bare)
      ensures !faults ==> ok
    {
      OtherDisks(o);
      StayExactly(Disks(o), cache.disks, disks, dying);
      ok := CreateMissing(o, cache, faults);
      bare := if Kept(o) then bare - {o} else bare;
    }

    method DeleteVirtualDisks(o: nat, faults: bool) returns (ok: bool)
      modifies this`dying
      ensures old(dying) <= dying <= old(dying) + (Disks(o) * disks)
      ensures ok ==> dying == old(dying) + (Disks(o) * disks)
      ensures !faults ==> ok
    {
      for i := 0 to |templates|
        invariant old(dying) <= dying <= old(dying) + (Disks(o) * disks)
        invariant DisksOf(owner, templates[..i], o) * disks <= dying
      {
        MoreDisks(owner, templates, i, o);
        var diskName := DiskName(owner, templates[i], o);
        var fault := *;
        if faults && fault {
          if * { dying := dying + ({diskName} * disks); }
          return false;
        }
        dying := dying + ({diskName} * disks);
      }
      assert templates[..|templates|] == templates;
      ok := true;
    }

    // -------------------------------------------------------------- scaling up

    /** Creates the VM of ordinal `n`, its disks first. It keeps its disks exactly if they were all found
        to stay. */
    method ScaleUp(n: nat, cache: Cache, faults: bool) returns (outcome: Outcome)
      requires Valid() && n <= MAX_INT32
      modifies this`vms, this`disks, this`ever, this`bare
      ensures Valid() && Grown(n, cache, old(FoundToStay(n, cache)), old(vms), old(disks), old(ever), old(bare))
      ensures outcome != Panicked && (!faults ==> outcome == Done)
      ensures outcome == Done && n !in cache.vms ==> n in vms && (Kept(n) <==> old(FoundToStay(n, cache)))
    {
      var fault := *;
      if faults && fault {
        return Failed;
      }
      if n in cache.vms {
        return Done;
      }
      var ok := CreateVirtualDisks(n, cache, faults);
      if !ok {
        return Failed;
      }
      fault := *;
      if faults && fault {
        if * { CreateVm(n); }
        return Failed;
      }
      CreateVm(n);
      return Done;
    }

    /** At most the VM of ordinal n and disks of it were added, and such a VM keeps its disks exactly if
        they were found to stay. */
    ghost predicate Grown(n: nat, cache: Cache, found: bool, vms0: set<nat>, disks0: set<string>, ever0: set<string>, bare0: set<nat>)
      reads this
    {
      && (vms == vms0 || vms == vms0 + {n})
      && disks0 <= disks <= disks0 + Disks(n) && ever == ever0 + disks
      && (n in cache.vms ==> vms == vms0 && disks == disks0)
      && bare <= bare0 + (if found then {} else {n})
      && (vms != vms0 ==> (Kept(n) <==> found))
    }

    lemma OtherDisks(n: nat)
      ensures forall o :: o != n ==> Disks(o) !! Disks(n)
    {
      forall o | o != n
        ensures Disks(o) !! Disks(n)
      {
        DisksApart(owner, templates, o, n);
      }
    }

    /** That the VM exists already is no error. */
    method CreateVm(n: nat)
      requires Valid() && n <= MAX_INT32
      modifies this`vms, this`bare
      ensures Valid() && vms == old(vms) + {n}
      ensures bare == if n in old(vms) then old(bare) else old(bare) - {n} + (if Kept(n) then {} else {n})
    {
      if n !in vms {
        vms, bare := vms + {n}, bare - {n} + (if Kept(n) then {} else {n});
      }
    }

    // -------------------------------------------------------------- scaling down

    /** One round of the scale-down loop: the VM of ordinal `o`, then, if the policy says so, its disks. */
    method DeleteMember(o: nat, faults: bool) returns (ok: bool, ghost marked: bool)
      requires Valid()
      modifies this`terminating, this`dying
      ensures Valid() && (ok ==> marked) && (!faults ==> ok)
      ensures terminating == old(terminating) + if marked then {o} * vms else {}
      ensures old(dying) <= dying <= old(dying) + (if marked && deleteOnScale then Disks(o) * disks else {})
      ensures ok && deleteOnScale ==> Disks(o) * disks <= dying
    {
      OtherDisks(o);
      marked, ok := false, true;
      var fault := *;
      if faults && fault {
        if * { terminating, marked := terminating + ({o} * vms), true; }
        return false, marked;
      }
      terminating, marked := terminating + ({o} * vms), true;      // a VM that is gone is no error
      if deleteOnScale {
        ok := DeleteVirtualDisks(o, faults);
      }
    }

    /** Of the listed ordinals, `chosen` have been deleted, from the disks `dying0` and VMs `terminating0`. */
    ghost predicate Deleted(chosen: set<nat>, terminating0: set<nat>, dying0: set<string>)
      reads this
    {
      && terminating == terminating0 + (chosen * vms)
      && dying0 <= dying
      && (forall d :: d in dying && d !in dying0 ==> deleteOnScale && exists o :: o in chosen && d in Disks(o))
    }

    ghost predicate DisksDying(chosen: set<nat>)
      reads this
    {
      forall o :: o in chosen ==> Disks(o) * disks <= dying
    }

    /** Deletes VMs from the highest ordinal of the list down. */
    method ScaleDown(current: seq<string>, ghost ks: seq<nat>, desired: int, faults: bool)
      returns (outcome: Outcome, ghost m: nat)
      requires Valid() && |ks| == |current| <= MAX_INT32
      requires forall i :: 0 <= i < |ks| ==> ks[i] <= MAX_INT32 && current[i] == VmName(owner, ks[i])
      requires -MAX_INT32 - 1 <= desired < |current|
      modifies this`terminating, this`dying
      ensures Valid() && m <= |ks| && Deleted(Top(ks, m), old(terminating), old(dying))
      ensures desired >= 0 ==> outcome != Panicked && m <= |ks| - desired && (!faults ==> outcome == Done)
      ensures outcome == Done ==> m == if desired >= 0 then |ks| - desired else 0
      ensures desired < 0 && |ks| - desired <= MAX_INT32 ==> outcome != Done && (!faults ==> outcome == Panicked)
      ensures outcome == Done && deleteOnScale ==> DisksDying(Top(ks, m))
    {
      var n := |current|;
      var toDelete := Int32(n - desired);
      ToDelete(n, desired);
      var i := 0;
      m := 0;
      while i < toDelete
        invariant 0 <= i <= n && m == i && (i <= toDelete || i == 0)
        invariant Valid() && Deleted(Top(ks, m), old(terminating), old(dying))
        invariant deleteOnScale ==> DisksDying(Top(ks, m))
      {
        if n - 1 - i < 0 {
          return Panicked, m;
        }
        var ordinal := ReadOrdinal(current[n - 1 - i], owner, ks[n - 1 - i]);
        var ok;
        ok, m := DeleteNext(ordinal, ks, m, old(terminating), old(dying), faults);
        if !ok {
          return Failed, m;
        }
        i := i + 1;
      }
      return Done, m;
    }

    /** A round of the loop seen from the state before the loop. */
    method DeleteNext(o: nat, ghost ks: seq<nat>, ghost m: nat, ghost terminating0: set<nat>, ghost dying0: set<string>,
                      faults: bool)
      returns (ok: bool, ghost m': nat)
      requires Valid() && m < |ks| && o == ks[|ks| - 1 - m]
      requires Deleted(Top(ks, m), terminating0, dying0) && (deleteOnScale ==> DisksDying(Top(ks, m)))
      modifies this`terminating, this`dying
      ensures Valid() && m <= m' <= m + 1 && (ok ==> m' == m + 1) && (!faults ==> ok)
      ensures Deleted(Top(ks, m'), terminating0, dying0)
      ensures ok && deleteOnScale ==> DisksDying(Top(ks, m'))
    {
      ghost var marked;
      ok, marked := DeleteMember(o, faults);
      m' := if marked then m + 1 else m;
      TopNext(ks, m);
    }

    // -------------------------------------------------------------- a pass

    function Desired(replicas: Option<int>): int {
      if replicas.Some? then replicas.value else 0
    }

    /** The VMs that nobody deletes. */
    function Staying(): set<nat>
      reads this
    {
      vms - terminating
    }

    /** The VMs are the ordinals below their number, now and once all deletions have completed. */
    ghost predicate Tidy()
      reads this
    {
      IsPrefix(vms) && IsPrefix(Staying())
    }

    /** Scaling up by a list of n VMs. On a tidy set a create keeps it tidy exactly if n is the current
        count and nothing is being deleted. */
    method Grow(n: nat, cache: Cache, faults: bool) returns (outcome: Outcome)
      requires Valid() && n <= MAX_INT32
      modifies this`vms, this`disks, this`ever, this`bare
      ensures Valid() && Grown(n, cache, old(FoundToStay(n, cache)), old(vms), old(disks), old(ever), old(bare))
      ensures outcome != Panicked && (outcome == Done && n !in cache.vms ==> n in vms) && (!faults ==> outcome == Done)
      ensures old(Tidy()) && vms != old(vms) ==> (Tidy() <==> terminating == {} && n == old(|vms|))
    {
      ghost var was := vms;
      outcome := ScaleUp(n, cache, faults);
      if vms != was && old(Tidy()) {
        CreateKeepsTidy(was, terminating, n);
      }
    }

    /** Scaling down by a list of VMs. On a tidy set, with a list of the ordinals below some number, the
        set stays tidy exactly if the list misses no VM that nobody deletes, or none of those is chosen. */
    method Shrink(listed: seq<string>, ghost ordinals: set<nat>, desired: int, faults: bool)
      returns (outcome: Outcome, ghost chosen: set<nat>)
      requires Valid() && Lists(listed, NamesOf(owner, ordinals)) && Printable(ordinals) && |listed| <= MAX_INT32
      requires -MAX_INT32 - 1 <= desired < |listed|
      modifies this`terminating, this`dying
      ensures Valid() && |listed| == |ordinals|
      ensures Highest(chosen, ordinals) && Deleted(chosen, old(terminating), old(dying))
      ensures desired >= 0 ==> outcome != Panicked && |chosen| <= |ordinals| - desired && (!faults ==> outcome == Done)
      ensures outcome == Done ==> |chosen| == if desired >= 0 then |ordinals| - desired else 0
      ensures desired < 0 && |ordinals| - desired <= MAX_INT32 ==> outcome != Done && (!faults ==> outcome == Panicked)
      ensures outcome == Done && deleteOnScale ==> DisksDying(chosen)
      ensures old(Tidy()) && ordinals == Below(|ordinals|) ==>
                (Tidy() <==> |ordinals| >= old(|Staying()|) || chosen !! old(Staying()))
    {
      var currentVms := SortBy(listed, GetOrdinal);
      ghost var ks := SortedByOrdinal(owner, listed, ordinals);
      ghost var m;
      outcome, m := ScaleDown(currentVms, ks, desired, faults);
      chosen := Top(ks, m);
      TopIsHighest(ks, m, ordinals);
      if old(Tidy()) && ordinals == Below(|ordinals|) {
        DeleteKeepsTidy(vms, old(terminating), |ordinals|, chosen);
      }
    }

    /** A pass over a list of any VMs, in any order. */
    method ReconcileVmSet(listed: seq<string>, ghost ordinals: set<nat>, replicas: Option<int>, cache: Cache, faults: bool)
      returns (outcome: Outcome, ghost chosen: set<nat>)
      requires Valid() && Lists(listed, NamesOf(owner, ordinals)) && Printable(ordinals) && |listed| <= MAX_INT32
      requires -MAX_INT32 - 1 <= Desired(replicas) <= MAX_INT32
      modifies this
      ensures Valid() && |listed| == |ordinals|
      ensures |ordinals| < Desired(replicas) ==>
                && terminating == old(terminating) && dying == old(dying) && outcome != Panicked
                && Grown(|ordinals|, cache, old(FoundToStay(|ordinals|, cache)), old(vms), old(disks), old(ever), old(bare))
                && (outcome == Done && |ordinals| !in cache.vms ==> |ordinals| in vms) && (!faults ==> outcome == Done)
      ensures |ordinals| >= Desired(replicas) ==> vms == old(vms) && disks == old(disks) && ever == old(ever) && bare == old(bare)
      ensures |ordinals| == Desired(replicas) ==> outcome != Panicked && terminating == old(terminating) && dying == old(dying)
      ensures replicas.None? ==> vms == old(vms) && (outcome == Done ==> |chosen| == |ordinals|)
      ensures |ordinals| > Desired(replicas) ==>
                && Highest(chosen, ordinals) && Deleted(chosen, old(terminating), old(dying))
                && (Desired(replicas) >= 0 ==>
                      outcome != Panicked && |chosen| <= |ordinals| - Desired(replicas) && (!faults ==> outcome == Done))
                && (outcome == Done ==> |chosen| == if Desired(replicas) >= 0 then |ordinals| - Desired(replicas) else 0)
                && (Desired(replicas) < 0 && |ordinals| - Desired(replicas) <= MAX_INT32 ==>
                      outcome != Done && (!faults ==> outcome == Panicked))
                && (outcome == Done && deleteOnScale ==> DisksDying(chosen))
      ensures old(Tidy()) && |ordinals| < Desired(replicas) && vms != old(vms) ==>
                (Tidy() <==> old(terminating) == {} && |ordinals| == old(|vms|))
      ensures old(Tidy()) && |ordinals| > Desired(replicas) && ordinals == Below(|ordinals|) ==>
                (Tidy() <==> |ordinals| >= old(|Staying()|) || chosen !! old(Staying()))
    {
      ListCount(owner, listed, ordinals);
      var desired := if replicas.None? then 0 else replicas.value;
      chosen := {};
      if |listed| < desired {
        outcome := Grow(|listed|, cache, faults);
      } else if |listed| > desired {
        outcome, chosen := Shrink(listed, ordinals, desired, faults);
      } else {
        var fault := *;
        outcome := if faults && fault then Failed else Done;     // the status write
      }
    }

    // -------------------------------------------------------------- what else happens

    /** The controller of a deleted VM has finished with it. */
    method CompleteVm(o: nat)
      requires Valid() && o in terminating
      modifies this`vms, this`terminating
      ensures Valid() && vms == old(vms) - {o} && terminating == old(terminating) - {o} && Staying() == old(Staying())
      ensures old(Tidy()) && (forall p :: p in old(terminating) ==> p <= o) ==> Tidy()
    {
      if Tidy() && forall p :: p in terminating ==> p <= o {
        TopOfTidy(vms, terminating, o);
      }
      vms, terminating := vms - {o}, terminating - {o};
    }

    /** The controllers of some deleted disks have finished with them. */
    method CompleteDisks(gone: set<string>)
      requires Valid() && gone <= dying
      modifies this`disks, this`dying
      ensures Valid() && disks == old(disks) - gone && dying == old(dying) - gone
    {
      disks, dying := disks - gone, dying - gone;
    }

    /** Someone else deletes a VM. */
    method MarkDeleted(o: nat)
      requires Valid()
      modifies this`terminating
      ensures Valid() && terminating == old(terminating) + ({o} * vms)
    {
      if o in vms {
        terminating := terminating + {o};
      }
    }

    /** A pass over a list of these VMs. */
    method PassOver(ordinals: set<nat>, replicas: int, cache: Cache, faults: bool)
      returns (outcome: Outcome, ghost chosen: set<nat>)
      requires Valid() && Printable(ordinals) && |ordinals| <= MAX_INT32 && -MAX_INT32 - 1 <= replicas <= MAX_INT32
      modifies this
      ensures Valid()
      ensures |ordinals| < replicas ==>
                && terminating == old(terminating) && dying == old(dying) && outcome != Panicked
                && Grown(|ordinals|, cache, old(FoundToStay(|ordinals|, cache)), old(vms), old(disks), old(ever), old(bare))
                && (outcome == Done && |ordinals| !in cache.vms ==> |ordinals| in vms) && (!faults ==> outcome == Done)
      ensures |ordinals| >= replicas ==> vms == old(vms) && disks == old(disks) && ever == old(ever) && bare == old(bare)
      ensures |ordinals| == replicas ==> outcome != Panicked && terminating == old(terminating) && dying == old(dying)
      ensures |ordinals| > replicas ==>
                && Highest(chosen, ordinals) && Deleted(chosen, old(terminating), old(dying))
                && (replicas >= 0 ==> |chosen| <= |ordinals| - replicas && (!faults ==> outcome == Done))
                && (outcome == Done ==> |chosen| == if replicas >= 0 then |ordinals| - replicas else 0)
                && (outcome == Done && deleteOnScale ==> DisksDying(chosen))
      ensures old(Tidy()) && |ordinals| < replicas && vms != old(vms) ==>
                (Tidy() <==> old(terminating) == {} && |ordinals| == old(|vms|))
      ensures old(Tidy()) && |ordinals| > replicas && ordinals == Below(|ordinals|) ==>
                (Tidy() <==> |ordinals| >= old(|Staying()|) || chosen !! old(Staying()))
    {
      var listed := List(NamesOf(owner, ordinals));
      ListCount(owner, listed, ordinals);
      outcome, chosen := ReconcileVmSet(listed, ordinals, Some(replicas), cache, faults);
    }

    // -------------------------------------------------------------- whole histories

    /** Under a policy to retain disks, with no disk being deleted and none ever lost. */
    ghost predicate Retaining()
      reads this
    {
      !deleteOnScale && dying == {} && ever == disks
    }

    /** After any history at all, of passes over any lists with any number of replicas, look-ups in a cache
        however old, failures, deletions by others, and completions in any order: a VM that nobody deletes
        has its disks, to stay, exactly if they were all found to stay when they were last looked up. Under
        a policy to retain disks they always are, so every such VM has its disks, and none is ever lost. */
    method AnyHistory()
      requires Valid()
      modifies this
      ensures Valid()
      ensures old(Retaining()) ==> Retaining() && bare <= old(bare) && old(disks) <= disks
      ensures old(Retaining()) && old(bare) == {} ==> forall o :: o in Staying() ==> Kept(o)
    {
      var steps: nat :| true;
      for step := 0 to steps
        invariant Valid()
        invariant old(Retaining()) ==> Retaining() && bare <= old(bare) && old(disks) <= disks
      {
        AnyStep();
      }
    }

    method AnyStep()
      requires Valid()
      modifies this
      ensures Valid()
      ensures old(Retaining()) ==> Retaining() && bare <= old(bare) && old(disks) <= disks
    {
      if {
        case true =>
          var gone: set<string> := *;
          CompleteDisks(gone * dying);
        case true =>
          var o: nat := *;
          MarkDeleted(o);
        case terminating != {} =>
          var o :| o in terminating;
          CompleteVm(o);
        case true =>
          var ordinals: set<nat>, replicas: int := *, *;
          if |ordinals| <= MAX_INT32 && -MAX_INT32 - 1 <= replicas <= MAX_INT32 && forall o :: o in ordinals ==> o <= MAX_INT32 {
            var known: set<nat>, shown: set<string> := *, *;
            var _, _ := PassOver(ordinals, replicas, Cache(known, shown * ever), true);
          }
      }
    }

    /** A pass over the first n ordinals with this number of replicas keeps a tidy set tidy. */
    predicate Safe(n: nat, replicas: int)
      reads this
    {
      && (n < replicas ==> n in vms || (terminating == {} && n == |vms|))
      && (n > replicas ==> n >= |Staying()|)
    }

    method SafePass(n: nat, replicas: int, cache: Cache)
      requires Valid() && Tidy() && n <= MAX_INT32 && -MAX_INT32 - 1 <= replicas <= MAX_INT32 && Safe(n, replicas)
      modifies this
      ensures Valid() && Tidy()
    {
      BelowCount(n);
      assert n in vms ==> vms + {n} == vms;
      ghost var chosen;
      ghost var stay := Staying();
      var outcome;
      outcome, chosen := PassOver(Below(n), replicas, cache, true);
      if n <= replicas && vms == old(vms) {
        assert Staying() == stay;
      }
    }

    /** After any history of safe passes, over lists however old, with deletions completed from the highest
        ordinal down, the VMs are exactly the ordinals below their number. A pass that is not safe and
        creates a VM, or deletes one that nobody deleted before, ends that. */
    method TidyHistory()
      requires Valid() && Tidy()
      modifies this
      ensures Valid() && Tidy()
    {
      var steps: nat :| true;
      for step := 0 to steps
        invariant Valid() && Tidy()
      {
        if {
          case terminating != {} =>
            CompleteHighest();
          case true =>
            var n: nat, replicas: int := *, *;
            if n <= MAX_INT32 && -MAX_INT32 - 1 <= replicas <= MAX_INT32 && Safe(n, replicas) {
              var cache: Cache := *;
              SafePass(n, replicas, cache);
            }
        }
      }
    }

    /** The highest VM that is being deleted goes. */
    method CompleteHighest()
      requires Valid() && Tidy() && terminating != {}
      modifies this`vms, this`terminating
      ensures Valid() && Tidy() && Staying() == old(Staying()) && |vms| == old(|vms|) - 1
      ensures terminating < old(terminating)
    {
      var o := |vms| - 1;
      HighestTerminates(vms, terminating);
      CompleteVm(o);
    }

    // -------------------------------------------------------------- convergence

    /** Any number of pending deletions complete. */
    method CompleteSome()
      requires Valid() && Tidy()
      modifies this`vms, this`terminating
      ensures Valid() && Tidy() && Staying() == old(Staying()) && terminating <= old(terminating) && |vms| <= old(|vms|)
    {
      while *
        invariant Valid() && Tidy() && Staying() == old(Staying()) && terminating <= old(terminating) && |vms| <= old(|vms|)
        decreases |vms|
      {
        if terminating == {} {
          break;
        }
        CompleteHighest();
      }
    }

    /** What a pass over the current VMs does to those that stay. */
    ghost predicate Closer(desired: nat, stay0: nat, calm: bool)
      reads this
    {
      && (terminating == {} || desired <= |Staying()| + 1)
      && (stay0 >= desired ==> desired <= |Staying()| <= stay0 && (calm ==> |Staying()| == desired))
      && (stay0 < desired ==> stay0 <= |Staying()| <= desired)
    }

    method RoundUp(desired: nat) returns (outcome: Outcome)
      requires Valid() && Tidy() && |vms| < desired <= MAX_INT32 && terminating == {}
      modifies this
      ensures Valid() && Tidy() && terminating == {} && Closer(desired, old(|Staying()|), outcome == Done)
      ensures outcome == Done ==> |Staying()| == old(|Staying()|) + 1
      ensures |vms| <= desired
    {
      ghost var was := vms;
      assert Staying() == vms;
      ghost var chosen;
      outcome, chosen := PassOver(vms, desired, Cache(vms, disks), true);
      assert Staying() == vms && (vms == was || |vms| == |was| + 1);
    }

    /** A pass that finds more VMs than it wants. */
    method DeleteSome(desired: nat) returns (outcome: Outcome, ghost chosen: set<nat>)
      requires Valid() && Tidy() && desired < |vms| <= MAX_INT32
      modifies this
      ensures Valid() && Tidy() && vms == old(vms) && Staying() == old(Staying()) - chosen
      ensures Highest(chosen, vms) && |chosen| <= |vms| - desired && (outcome == Done ==> |chosen| == |vms| - desired)
    {
      ghost var going := terminating;
      SmallerPrefix(Staying(), vms);
      outcome, chosen := PassOver(vms, desired, Cache(vms, disks), true);
      Without(vms, going, chosen);
    }

    method RoundDown(desired: nat) returns (outcome: Outcome)
      requires Valid() && Tidy() && desired < |vms| <= MAX_INT32
      requires terminating == {} || desired <= |Staying()| + 1
      modifies this
      ensures Valid() && Tidy() && vms == old(vms) && Closer(desired, old(|Staying()|), outcome == Done)
    {
      ghost var going, r := terminating, |Staying()|;
      assert going == {} ==> vms - going == vms;
      ghost var chosen;
      outcome, chosen := DeleteSome(desired);
      StayingAfter(vms, going, chosen, desired);
      assert r >= desired || desired <= r + 1;
    }

    /** One pass over the current VMs. */
    method Round(desired: nat) returns (outcome: Outcome)
      requires Valid() && Tidy() && desired <= MAX_INT32 && |vms| <= MAX_INT32
      requires terminating == {} || desired <= |Staying()| + 1
      modifies this
      ensures Valid() && Tidy() && |vms| <= MAX_INT32 && Closer(desired, old(|Staying()|), outcome == Done)
      ensures old(|Staying()|) < desired && outcome == Done && old(terminating) == {} ==> |Staying()| == old(|Staying()|) + 1
    {
      SmallerPrefix(Staying(), vms);
      assert terminating == {} ==> Staying() == vms;
      if |vms| < desired {
        outcome := RoundUp(desired);
      } else if |vms| > desired {
        outcome := RoundDown(desired);
      } else {
        ghost var chosen;
        outcome, chosen := PassOver(vms, desired, Cache(vms, disks), true);
      }
    }

    /** Convergence, with the replicas fixed and deletions completing whenever they like. If nothing is
        being deleted, or at most one more VM is wanted than stays, the set stays tidy. One error-free pass
        is enough from above; from below every error-free pass that finds nothing being deleted brings the
        number one closer; and a pass that meets an error never leads away. */
    method Converge(desired: nat, rounds: nat) returns (good: nat, calm: nat)
      requires Valid() && Tidy() && desired <= MAX_INT32 && |vms| <= MAX_INT32
      requires terminating == {} || desired <= |Staying()| + 1
      modifies this
      ensures Valid() && Tidy() && calm <= good <= rounds
      ensures old(|Staying()|) >= desired ==>
                desired <= |Staying()| <= old(|Staying()|) && (good > 0 ==> |Staying()| == desired)
      ensures old(|Staying()|) < desired ==>
                |Staying()| <= desired && (|Staying()| == desired || |Staying()| >= old(|Staying()|) + calm)
    {
      good, calm := 0, 0;
      for round := 0 to rounds
        invariant Valid() && Tidy() && calm <= good <= round && |vms| <= MAX_INT32
        invariant terminating == {} || desired <= |Staying()| + 1
        invariant old(|Staying()|) >= desired ==>
                    desired <= |Staying()| <= old(|Staying()|) && (good > 0 ==> |Staying()| == desired)
        invariant old(|Staying()|) < desired ==>
                    |Staying()| <= desired && (|Staying()| == desired || |Staying()| >= old(|Staying()|) + calm)
      {
        CompleteSome();
        var found := terminating;
        var outcome := Round(desired);
        if outcome == Done {
          good := good + 1;
          if found == {} {
            calm := calm + 1;
          }
        }
      }
    }

    /** The premise is exact: if something is being deleted and more than one more VM is wanted than stays,
        then once all but one of the deletions have completed, one error-free pass leaves the set untidy. */
    method ScaleUpOverDeletion(desired: nat)
      requires Valid() && Tidy() && desired <= MAX_INT32 && |vms| <= MAX_INT32
      requires terminating != {} && desired > |Staying()| + 1
      modifies this
      ensures Valid() && !Tidy()
    {
      while |terminating| > 1
        invariant Valid() && Tidy() && terminating != {} && Staying() == old(Staying()) && |vms| <= MAX_INT32
        decreases |vms|
      {
        HighestTerminates(vms, terminating);
        CompleteVm(|vms| - 1);
        assert terminating != {};
      }
      OneLeft(vms, terminating);
      var _, _ := PassOver(vms, desired, Cache(vms, disks), false);
    }

    /** A set with a gap below its top is stuck: with more replicas wanted than there are VMs, passes over
        current lists change nothing, for ever. */
    method Stuck(replicas: int, rounds: nat)
      requires Valid() && |vms| in vms && |vms| < replicas <= MAX_INT32
      modifies this
      ensures vms == old(vms) && terminating == old(terminating)
    {
      for round := 0 to rounds
        invariant Valid() && vms == old(vms) && terminating == old(terminating)
      {
        var cache: Cache := *;
        var _, _ := PassOver(vms, replicas, cache, true);
      }
    }
  }

  lemma ListCount(owner: string, listed: seq<string>, ordinals: set<nat>)
    requires Lists(listed, NamesOf(owner, ordinals))
    ensures |listed| == |ordinals|
  {
    NamesCount(owner, ordinals);
    ListedIn(listed, NamesOf(owner, ordinals));
  }

  /** Creating a VM on a tidy set keeps it tidy exactly if its ordinal is the count and nothing is being
      deleted: a deletion that completes later would leave a gap below the new VM. */
  lemma CreateKeepsTidy(vms: set<nat>, terminating: set<nat>, n: nat)
    requires IsPrefix(vms) && IsPrefix(vms - terminating) && terminating <= vms && n !in vms
    ensures IsPrefix(vms + {n}) && IsPrefix(vms + {n} - terminating) <==> terminating == {} && n == |vms|
  {
    var k, rest := |vms|, vms - terminating;
    CreateKeepsPrefix(k, n);
    CreateKeepsPrefix(|rest|, n);
    assert vms + {n} - terminating == rest + {n};
    assert n >= k;
    if |rest| == k {
      assert rest == vms;
    } else {
      SmallerPrefix(rest, vms);
    }
  }

  lemma SmallerPrefix(a: set<nat>, b: set<nat>)
    requires a <= b
    ensures |a| <= |b| && (a != b ==> |a| < |b|)
  {
    assert b == a + (b - a);
    assert a != b ==> b - a != {};
  }

  lemma GapIsNoPrefix(vms: set<nat>, o: nat, n: nat)
    requires o < n && n in vms && o !in vms
    ensures !IsPrefix(vms)
  {
    var k := |vms|;
    assert n in Below(k) ==> Less(n, k) && o in Below(k);
  }

  /** Deleting the highest of the first n ordinals keeps a tidy set tidy exactly if they miss no VM that
      nobody deletes, or none of those is chosen. */
  lemma DeleteKeepsTidy(vms: set<nat>, terminating: set<nat>, n: nat, chosen: set<nat>)
    requires IsPrefix(vms) && IsPrefix(vms - terminating) && terminating <= vms && Highest(chosen, Below(n))
    ensures IsPrefix(vms - (terminating + (chosen * vms))) <==> n >= |vms - terminating| || chosen !! (vms - terminating)
  {
    var rest := vms - terminating;
    assert vms - (terminating + (chosen * vms)) == rest - chosen;
    if chosen !! rest {
      assert rest - chosen == rest;
    } else if n >= |rest| {
      TailOut(rest, n, chosen);
    } else {
      var o :| o in chosen && o in rest;
      GapLeft(rest, n, chosen, o);
    }
  }

  lemma TailOut(rest: set<nat>, n: nat, chosen: set<nat>)
    requires IsPrefix(rest) && Highest(chosen, Below(n)) && n >= |rest| && chosen * rest != {}
    ensures IsPrefix(rest - chosen)
  {
    var c := n - |chosen|;
    HighestIsTail(chosen, n);
    assert rest - chosen == Below(c);
    PrefixIsBelow(rest - chosen, c);
  }

  lemma GapLeft(rest: set<nat>, n: nat, chosen: set<nat>, o: nat)
    requires IsPrefix(rest) && Highest(chosen, Below(n)) && n < |rest| && o in chosen
    ensures !IsPrefix(rest - chosen)
  {
    assert o in Below(n) && n in Below(|rest|) && n !in Below(n);
    GapIsNoPrefix(rest - chosen, o, n);
  }

  lemma {:induction false} HighestIsTail(chosen: set<nat>, n: nat)
    requires Highest(chosen, Below(n))
    ensures |chosen| <= n && forall o: nat :: o in chosen <==> n - |chosen| <= o < n
  {
    if chosen != {} {
      var top := n - 1;
      var o :| o in chosen;
      assert o in Below(n) && top in Below(n);
      assert top in chosen;
      var rest := chosen - {top};
      forall b | b in rest
        ensures b in Below(top)
      {
        assert b in Below(n);
      }
      HighestIsTail(rest, top);
      assert chosen == rest + {top};
    }
  }

  lemma TopOfTidy(vms: set<nat>, terminating: set<nat>, o: nat)
    requires IsPrefix(vms) && IsPrefix(vms - terminating) && terminating <= vms && o in terminating
    requires forall p :: p in terminating ==> p <= o
    ensures o == |vms| - 1 && IsPrefix(vms - {o}) && |vms - {o}| == |vms| - 1
  {
    var k := |vms|;
    assert o in Below(k) && Less(o, k) && k - 1 in Below(k);
    PrefixDown(vms - terminating, k - 1, o);
    assert k - 1 in terminating;
    RemoveKeepsPrefix(k, o);
  }

  lemma PrefixDown(vms: set<nat>, n: nat, o: nat)
    requires IsPrefix(vms) && o <= n
    ensures n in vms ==> o in vms
  {
    assert n in Below(|vms|) ==> Less(n, |vms|) && o in Below(|vms|);
  }

  lemma HighestTerminates(vms: set<nat>, terminating: set<nat>)
    requires IsPrefix(vms) && IsPrefix(vms - terminating) && terminating <= vms && terminating != {}
    ensures |vms| > 0 && |vms| - 1 in terminating && forall p :: p in terminating ==> p <= |vms| - 1
  {
    var k := |vms|;
    var o :| o in terminating;
    assert forall p :: p in terminating ==> p in Below(k) && Less(p, k);
    PrefixDown(vms - terminating, k - 1, o);
    assert k - 1 in Below(k);
  }

  lemma Without(vms: set<nat>, terminating: set<nat>, chosen: set<nat>)
    ensures vms - (terminating + (chosen * vms)) == vms - terminating - chosen
  {
  }

  /** What stays after the highest of all VMs were deleted. */
  lemma StayingAfter(vms: set<nat>, terminating: set<nat>, chosen: set<nat>, desired: nat)
    requires IsPrefix(vms) && IsPrefix(vms - terminating) && terminating <= vms && Highest(chosen, vms)
    requires |vms| > desired && |chosen| <= |vms| - desired
    ensures var stay, after := vms - terminating, vms - terminating - chosen;
            && |after| <= |stay|
            && (|stay| >= desired ==> |after| >= desired)
            && (|stay| < desired ==> after == stay)
            && (|chosen| == |vms| - desired && |stay| >= desired ==> |after| == desired)
  {
    var k, r := |vms|, |vms - terminating|;
    var c := k - |chosen|;
    HighestIsTail(chosen, k);
    var after := vms - terminating - chosen;
    var least := if r <= c then r else c;
    assert after == Below(least);
    BelowCount(least);
    assert r <= c ==> after == vms - terminating;
  }

  lemma OneLeft(vms: set<nat>, terminating: set<nat>)
    requires IsPrefix(vms) && terminating <= vms && |terminating| == 1
    ensures |vms| == |vms - terminating| + 1 && |vms| !in vms
  {
    assert vms == (vms - terminating) + terminating;
  }

  lemma OnlyOne(chosen: set<nat>, o: nat)
    requires chosen <= {o} && |chosen| == 1
    ensures chosen == {o}
  {
    SmallerPrefix(chosen, {o});
  }

  method FirstVm(owner: string, template: string) returns (c: Cluster)
    ensures fresh(c) && c.Valid() && c.owner == owner && c.templates == [template] && c.deleteOnScale
    ensures c.vms == {0} && c.terminating == {} && c.dying == {} && c.disks == {DiskName(owner, template, 0)}
  {
    c := new Cluster(owner, [template], true, {});
    assert c.Disks(0) == {DiskName(owner, template, 0)};
    var _, _ := c.PassOver({}, 1, Cache({}, {}), false);
  }

  method RemoveVm(c: Cluster, disk: string)
    requires c.Valid() && c.deleteOnScale && c.vms == {0} && c.terminating == {} && c.dying == {}
    requires c.Disks(0) == c.disks == {disk}
    modifies c
    ensures c.Valid() && c.vms == {} && c.disks == c.dying == {disk}
  {
    var outcome;
    ghost var chosen;
    outcome, chosen := c.PassOver({0}, 0, Cache({0}, {disk}), false);
    OnlyOne(chosen, 0);
    assert disk in c.Disks(0) * c.disks;
    c.CompleteVm(0);
  }

  /** The failing run: replicas 1, then 0, then 1 under a policy to delete disks. The VM is gone before its
      disk is, so the new VM is created over the old disk, which then disappears. */
  method RecreatedVmLosesDisk(owner: string, template: string) returns (c: Cluster)
    ensures c.Valid() && c.owner == owner && c.templates == [template]
    ensures 0 in c.Staying() && 0 in c.bare && DiskName(owner, template, 0) !in c.disks
  {
    c := FirstVm(owner, template);
    var disk := DiskName(owner, template, 0);
    assert c.Disks(0) == {disk};
    RemoveVm(c, disk);
    var _, _ := c.PassOver({}, 1, Cache({}, {disk}), false);
    c.CompleteDisks({disk});
  }

  /** The same with the disk already gone and nothing being deleted, but still in the cache. */
  method CachedDiskIsMissed(owner: string, template: string) returns (c: Cluster)
    ensures c.Valid() && c.owner == owner && c.templates == [template] && c.dying == {}
    ensures 0 in c.Staying() && 0 in c.bare && DiskName(owner, template, 0) !in c.disks
  {
    c := FirstVm(owner, template);
    var disk := DiskName(owner, template, 0);
    assert c.Disks(0) == {disk};
    RemoveVm(c, disk);
    c.CompleteDisks({disk});
    assert disk in c.ever;
    var _, _ := c.PassOver({}, 1, Cache({}, {disk}), false);
  }
}
