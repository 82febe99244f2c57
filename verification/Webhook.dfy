/** The defaulting webhook of virtual machines (pkg/webhooks/virtualmachine_webhook.go), and its
    agreement with the controller's detector of resizes. Quantities are exact. */
module Webhook {
  import opened Wrappers
  import Resize

  type Quantities = map<string, real>

  datatype Binding = Binding(bridge: bool, masquerade: Option<string>, sriov: bool, vdpa: bool, vhostUser: bool)

  datatype Interface = Interface(name: string, mac: string, binding: Binding)

  datatype Gpu = Gpu(resourceName: string, resourceEnvName: string)

  datatype Instance = Instance(
    sockets: nat,
    coresPerSocket: nat,
    dedicated: bool,
    memorySize: real,
    hugepages: Option<string>)
  {
    /** A product of 32-bit unsigned numbers. */
    function Vcpus(): nat {
      sockets * coresPerSocket % 0x1_0000_0000
    }

    function HugepagesKey(): string
      requires hugepages.Some?
    {
      "hugepages-" + hugepages.value
    }
  }

  datatype Resources = Resources(requests: Option<Quantities>, limits: Option<Quantities>)

  const CPU := "cpu"
  const MEMORY := "memory"
  const OVERHEAD: real := 268435456.0          // 256Mi
  const ONE_GI: real := 1073741824.0

  function Get(list: Option<Quantities>, key: string): real {
    if list.Some? && key in list.value then list.value[key] else 0.0
  }

  function Base(list: Option<Quantities>): Quantities {
    if list.Some? then list.value else map[]
  }

  function SetIfZero(list: Quantities, key: string, q: real): Quantities {
    if key !in list || list[key] == 0.0 then list[key := q] else list
  }

  function SetIfAbsent(list: Quantities, key: string, q: real): Quantities {
    if key !in list then list[key := q] else list
  }

  // ---------------------------------------------------------------- instance and resources

  function InstanceDefaults(i: Instance, r: Resources): Instance {
    i.(sockets := if i.sockets == 0 then 1 else i.sockets,
       coresPerSocket := if i.coresPerSocket == 0 then 1 else i.coresPerSocket,
       memorySize := if i.memorySize != 0.0 then i.memorySize
       else if Get(r.requests, MEMORY) != 0.0 then Get(r.requests, MEMORY) else ONE_GI)
  }

  function WithCpuAndMemory(list: Option<Quantities>, cpu: real, memory: real): Option<Quantities> {
    Some(SetIfZero(SetIfZero(Base(list), CPU, cpu), MEMORY, memory))
  }

  /** Dedicated CPUs: requests and limits are filled alike, and huge pages do not count as memory. */
  function DedicatedDefaults(i: Instance, r: Resources): Resources {
    if !i.dedicated then r
    else
      var cpu := i.Vcpus() as real;
      var memory := if i.memorySize != 0.0 && i.hugepages.None? then OVERHEAD + i.memorySize else OVERHEAD;
      Resources(WithCpuAndMemory(r.requests, cpu, memory), WithCpuAndMemory(r.limits, cpu, memory))
  }

  predicate NoCpuOrMemory(r: Resources) {
    Get(r.limits, CPU) == Get(r.limits, MEMORY) == Get(r.requests, CPU) == Get(r.requests, MEMORY) == 0.0
  }

  /** Huge pages: limits and requests get an entry for them, and a VM without any other resource
      requests just the overhead. */
  function HugepagesDefaults(i: Instance, r: Resources): Resources {
    if i.hugepages.None? then r
    else
      var key := i.HugepagesKey();
      var limits := SetIfAbsent(Base(r.limits), key, i.memorySize);
      var requests := SetIfAbsent(Base(r.requests), key, limits[key]);
      Resources(Some(if NoCpuOrMemory(Resources(Some(requests), Some(limits))) then requests[MEMORY := OVERHEAD] else requests),
                Some(limits))
  }

  /** Shared CPUs. */
  function SharedDefaults(i: Instance, r: Resources): Resources {
    if i.dedicated then r
    else
      var cpu, memory := i.Vcpus() as real, i.memorySize + OVERHEAD;
      Resources(WithCpuAndMemory(r.requests, cpu, memory), WithCpuAndMemory(r.limits, cpu, memory))
  }

  function ResourceDefaults(i: Instance, r: Resources): Resources {
    SharedDefaults(i, HugepagesDefaults(i, DedicatedDefaults(i, r)))
  }

  // ---------------------------------------------------------------- what the defaults are

  /** The instance, from the input alone. */
  lemma InstanceExactly(i: Instance, r: Resources)
    ensures var i' := InstanceDefaults(i, r);
            && i'.sockets == (if i.sockets == 0 then 1 else i.sockets)
            && i'.coresPerSocket == (if i.coresPerSocket == 0 then 1 else i.coresPerSocket)
            && i'.dedicated == i.dedicated && i'.hugepages == i.hugepages
            && (i.memorySize != 0.0 ==> i'.memorySize == i.memorySize)
            && (i.memorySize == 0.0 && r.requests.Some? && MEMORY in r.requests.value && r.requests.value[MEMORY] != 0.0 ==>
                  i'.memorySize == r.requests.value["memory"])
            && (i.memorySize == 0.0 && (r.requests.None? || MEMORY !in r.requests.value || r.requests.value[MEMORY] == 0.0) ==>
                  i'.memorySize == 1073741824.0)
  {
  }

  /** What the user wrote for a key, if that is not zero, and this otherwise. */
  predicate OwnOr(list: Option<Quantities>, after: Quantities, key: string, q: real) {
    && key in after
    && after[key] == if list.Some? && key in list.value && list.value[key] != 0.0 then list.value[key] else q
  }

  /** The same with zero counting as written. */
  predicate WrittenOr(list: Option<Quantities>, after: Quantities, key: string, q: real) {
    && key in after
    && after[key] == if list.Some? && key in list.value then list.value[key] else q
  }

  predicate Untouched(list: Option<Quantities>, after: Quantities, key: string) {
    if list.Some? && key in list.value then key in after && after[key] == list.value[key] else key !in after
  }

  /** Neither list has a CPU or memory quantity. */
  predicate Bare(r: Resources) {
    forall key :: key in {"cpu", "memory"} ==> Get(r.requests, key) == 0.0 && Get(r.limits, key) == 0.0
  }

  /** CPU and memory after the defaults, from the input alone. CPU is the product of sockets and cores as a 32-bit
      number; memory is the size plus 256Mi, but the 256Mi alone with huge pages on dedicated CPUs, and for the
      request of a bare VM with huge pages. What the user wrote stays. */
  lemma CpuAndMemoryExactly(i: Instance, r: Resources)
    ensures var i' := InstanceDefaults(i, r);
            var r' := ResourceDefaults(i', r);
            var cpu := (i'.sockets * i'.coresPerSocket % 4294967296) as real;
            var full := i'.memorySize + 268435456.0;
            && r'.requests.Some? && r'.limits.Some?
            && OwnOr(r.requests, r'.requests.value, "cpu", cpu)
            && OwnOr(r.limits, r'.limits.value, "cpu", cpu)
            && OwnOr(r.requests, r'.requests.value, "memory",
                     if i.hugepages.Some? && (i.dedicated || Bare(r)) then 268435456.0 else full)
            && OwnOr(r.limits, r'.limits.value, "memory", if i.hugepages.Some? && i.dedicated then 268435456.0 else full)
  {
    if i.hugepages.Some? {
      KeysDiffer(i);
    }
    BareMeans(r);
  }

  /** Huge pages: a missing limit is the memory size, and a missing request is the limit. */
  lemma HugepagesExactly(i: Instance, r: Resources)
    requires i.hugepages.Some?
    ensures var i' := InstanceDefaults(i, r);
            var r' := ResourceDefaults(i', r);
            var pages := "hugepages-" + i.hugepages.value;
            && r'.requests.Some? && r'.limits.Some?
            && WrittenOr(r.limits, r'.limits.value, pages, i'.memorySize)
            && WrittenOr(r.requests, r'.requests.value, pages, r'.limits.value[pages])
  {
    KeysDiffer(i);
  }

  /** Nothing else is added, changed or removed. */
  lemma OtherKeysExactly(i: Instance, r: Resources, key: string)
    requires key != "cpu" && key != "memory" && (i.hugepages.Some? ==> key != "hugepages-" + i.hugepages.value)
    ensures var r' := ResourceDefaults(InstanceDefaults(i, r), r);
            && r'.requests.Some? && r'.limits.Some?
            && Untouched(r.requests, r'.requests.value, key) && Untouched(r.limits, r'.limits.value, key)
  {
  }

  lemma BareMeans(r: Resources)
    ensures Bare(r) <==> NoCpuOrMemory(r)
  {
    if Bare(r) {
      assert "cpu" in {"cpu", "memory"} && "memory" in {"cpu", "memory"};
    }
  }

  // ---------------------------------------------------------------- idempotence

  /** Both lists have these entries, and none is zero unless its default is zero too. */
  ghost predicate Filled(list: Option<Quantities>, cpu: real, memory: real) {
    && list.Some? && CPU in list.value && MEMORY in list.value
    && (list.value[CPU] == 0.0 ==> cpu == 0.0)
    && (list.value[MEMORY] == 0.0 ==> memory == 0.0)
  }

  function MemoryDefault(i: Instance): real {
    if i.dedicated && i.hugepages.Some? then OVERHEAD else i.memorySize + OVERHEAD
  }

  /** The resources of a VM that the webhook has seen. */
  ghost predicate Settled(i: Instance, r: Resources) {
    && i.sockets != 0 && i.coresPerSocket != 0 && i.memorySize != 0.0
    && Filled(r.requests, i.Vcpus() as real, MemoryDefault(i))
    && Filled(r.limits, i.Vcpus() as real, MemoryDefault(i))
    && (i.hugepages.Some? ==>
          i.HugepagesKey() in r.requests.value && i.HugepagesKey() in r.limits.value && !NoCpuOrMemory(r))
  }

  lemma KeysDiffer(i: Instance)
    requires i.hugepages.Some?
    ensures i.HugepagesKey() != CPU && i.HugepagesKey() != MEMORY
  {
    assert i.HugepagesKey()[0] == 'h';
  }

  lemma DefaultsSettle(i: Instance, r: Resources)
    ensures var i' := InstanceDefaults(i, r); Settled(i', ResourceDefaults(i', r))
  {
    var i' := InstanceDefaults(i, r);
    if i'.hugepages.Some? {
      KeysDiffer(i');
    }
  }

  lemma FilledIsFixed(list: Option<Quantities>, cpu: real, memory: real)
    requires Filled(list, cpu, memory)
    ensures WithCpuAndMemory(list, cpu, memory) == list
  {
    assert list.value[CPU := list.value[CPU]] == list.value;
    assert list.value[MEMORY := list.value[MEMORY]] == list.value;
  }

  lemma SettledIsFixed(i: Instance, r: Resources)
    requires Settled(i, r)
    ensures InstanceDefaults(i, r) == i && ResourceDefaults(i, r) == r
  {
    FilledIsFixed(r.requests, i.Vcpus() as real, MemoryDefault(i));
    FilledIsFixed(r.limits, i.Vcpus() as real, MemoryDefault(i));
  }

  // ---------------------------------------------------------------- agreement with the detector

  /** What the controller asks of a Running VM's pod: it starts a resize if this holds. */
  predicate DetectorFires(i: Instance, requests: Option<Quantities>) {
    var cpu, memory := Get(requests, CPU), Get(requests, MEMORY);
    cpu == 0.0 || cpu != i.Vcpus() as real || memory == 0.0 || memory != i.memorySize + OVERHEAD
  }

  lemma DetectorIsTheController(i: Instance, requests: Quantities, cpu: nat, memory: nat, size: nat)
    requires CPU in requests && requests[CPU] == cpu as real
    requires MEMORY in requests && requests[MEMORY] == memory as real && i.memorySize == size as real
    ensures DetectorFires(i, Some(requests)) <==>
            Resize.Differs(Resize.Resources(cpu, memory), Resize.Spec(i.Vcpus(), size))
  {
    assert (size + Resize.OVERHEAD) as real == size as real + OVERHEAD;
  }

  /** Whether the resources asked for leave the requests to the webhook or already agree with it. */
  predicate Agreeable(i: Instance, r: Resources) {
    var i' := InstanceDefaults(i, r);
    var cpu, memory := Get(r.requests, CPU), Get(r.requests, MEMORY);
    && i'.Vcpus() != 0 && i'.memorySize + OVERHEAD != 0.0
    && (cpu == 0.0 || cpu == i'.Vcpus() as real)
    && (if memory != 0.0 then i.memorySize != 0.0 && memory == i.memorySize + OVERHEAD
        else i.hugepages.None? || (!i.dedicated && !NoCpuOrMemory(r)))
  }

  /** A pod created with the webhook's resources sets the detector off exactly when what the user
      wrote was not agreeable. */
  lemma WebhookAgreesWithDetector(i: Instance, r: Resources)
    ensures var i' := InstanceDefaults(i, r);
            !DetectorFires(i', ResourceDefaults(i', r).requests) <==> Agreeable(i, r)
  {
    if i.hugepages.Some? {
      KeysDiffer(i);
    }
  }

  /** In particular without huge pages and without requests of its own, on shared or dedicated CPUs. */
  lemma PlainVmIsNotResized(i: Instance, r: Resources)
    requires i.hugepages.None? && Get(r.requests, CPU) == Get(r.requests, MEMORY) == 0.0
    requires 0.0 <= i.memorySize && InstanceDefaults(i, r).Vcpus() != 0
    ensures var i' := InstanceDefaults(i, r);
            !DetectorFires(i', ResourceDefaults(i', r).requests)
  {
    WebhookAgreesWithDetector(i, r);
  }

  /** Dedicated CPUs with huge pages and no memory request always do. */
  lemma DedicatedHugepagesAreResized(i: Instance, r: Resources)
    requires i.dedicated && i.hugepages.Some? && Get(r.requests, MEMORY) == 0.0
    ensures var i' := InstanceDefaults(i, r);
            DetectorFires(i', ResourceDefaults(i', r).requests)
  {
    WebhookAgreesWithDetector(i, r);
  }

  // ---------------------------------------------------------------- devices

  predicate HasAt(s: string, t: string, i: nat) {
    i + |t| <= |s| && s[i..i + |t|] == t
  }

  predicate Contains(s: string, t: string) {
    exists i :: 0 <= i <= |s| && HasAt(s, t, i)
  }

  function TrimPrefix(s: string, t: string): string {
    if HasAt(s, t, 0) then s[|t|..] else s
  }

  function GpuDefault(g: Gpu): Gpu {
    if g.resourceEnvName == "" && Contains(g.resourceName, "nvidia.com/")
    then g.(resourceEnvName := "PCI_RESOURCE_NVIDIA_COM_" + TrimPrefix(g.resourceName, "nvidia.com/"))
    else g
  }

  function GpuDefaults(gpus: seq<Gpu>): (r: seq<Gpu>)
    ensures |r| == |gpus|
  {
    seq(|gpus|, j requires 0 <= j < |gpus| => GpuDefault(gpus[j]))
  }

  /** The MAC of the first interface of that name, if there is one. */
  function OldMac(previous: seq<Interface>, name: string): string {
    if previous == [] then "" else if previous[0].name == name then previous[0].mac else OldMac(previous[1..], name)
  }

  /** The MAC an interface ends up with; `drawn` is what the generator would give it. */
  function MacFor(f: Interface, previous: seq<Interface>, drawn: Option<string>): Option<string> {
    if f.mac != "" then Some(f.mac)
    else if OldMac(previous, f.name) != "" then Some(OldMac(previous, f.name))
    else drawn
  }

  function BindingDefault(b: Binding): Binding {
    if !b.bridge && b.masquerade.None? && !b.sriov && !b.vdpa && !b.vhostUser
    then Binding(true, None, false, false, false)
    else if b.masquerade == Some("") then b.(masquerade := Some("10.0.2.0/30"))
    else b
  }

  function InterfaceDefault(f: Interface, previous: seq<Interface>, drawn: Option<string>): Option<Interface> {
    match MacFor(f, previous, drawn)
    case None => None
    case Some(mac) => Some(f.(mac := mac, binding := BindingDefault(f.binding)))
  }

  /** The interfaces up to the first one for which no MAC could be drawn, and whether that is all. */
  function InterfaceDefaults(fs: seq<Interface>, previous: seq<Interface>, draws: nat -> Option<string>): (seq<Interface>, bool) {
    if fs == [] then ([], true)
    else
      var n := |fs| - 1;
      var (before, ok) := InterfaceDefaults(fs[..n], previous, draws);
      var filled := InterfaceDefault(fs[n], previous, draws(n));
      if ok && filled.Some? then (before + [filled.value], true) else (before, false)
  }

  ghost predicate InterfaceSettled(f: Interface) {
    f.mac != "" && BindingDefault(f.binding) == f.binding
  }

  lemma {:induction false} InterfacesSettle(fs: seq<Interface>, previous: seq<Interface>, draws: nat -> Option<string>)
    requires forall k :: draws(k) != Some("")
    ensures var (r, ok) := InterfaceDefaults(fs, previous, draws);
            && |r| <= |fs| && (ok <==> |r| == |fs|)
            && (forall k :: 0 <= k < |r| ==> InterfaceSettled(r[k]) && r[k].name == fs[k].name)
            && (forall k :: 0 <= k < |r| && fs[k].mac != "" ==> r[k].mac == fs[k].mac)
            && (!ok ==> MacFor(fs[|r|], previous, draws(|r|)).None?)
  {
    if fs != [] {
      InterfacesSettle(fs[..|fs| - 1], previous, draws);
    }
  }

  lemma {:induction false} SettledInterfacesAreFixed(fs: seq<Interface>, previous: seq<Interface>, draws: nat -> Option<string>)
    requires forall k :: 0 <= k < |fs| ==> InterfaceSettled(fs[k])
    ensures InterfaceDefaults(fs, previous, draws) == (fs, true)
  {
    if fs != [] {
      var n := |fs| - 1;
      SettledInterfacesAreFixed(fs[..n], previous, draws);
      assert InterfaceSettled(fs[n]);
      assert fs == fs[..n] + [fs[n]];
    }
  }

  predicate VendorAt(name: string, i: nat) {
    i + 11 <= |name| && name[i..i + 11] == "nvidia.com/"
  }

  /** The name of an NVIDIA GPU's environment variable: the resource name behind its vendor prefix, or all of it if
      the vendor stands elsewhere. Any other GPU, and a name the user wrote, stays as it is. */
  lemma GpuExactly(g: Gpu, device: string)
    ensures g.resourceEnvName != "" ==> GpuDefault(g) == g
    ensures g.resourceEnvName == "" && g.resourceName == "nvidia.com/" + device ==>
              GpuDefault(g) == g.(resourceEnvName := "PCI_RESOURCE_NVIDIA_COM_" + device)
    ensures g.resourceEnvName == "" && !("nvidia.com/" <= g.resourceName) ==>
              GpuDefault(g) ==
              if exists i: nat :: VendorAt(g.resourceName, i)
              then g.(resourceEnvName := "PCI_RESOURCE_NVIDIA_COM_" + g.resourceName) else g
  {
    var vendor := "nvidia.com/";
    assert |vendor| == 11;
    if g.resourceName == vendor + device {
      assert g.resourceName[0..11] == vendor;
      assert HasAt(g.resourceName, vendor, 0);
      assert g.resourceName[11..] == device;
    }
    forall i: nat
      ensures VendorAt(g.resourceName, i) <==> HasAt(g.resourceName, vendor, i)
    {
    }
  }

  /** The MAC of the first interface of that name in the old object. */
  lemma {:induction false} OldMacExactly(previous: seq<Interface>, name: string, j: nat)
    requires j <= |previous| && forall i :: 0 <= i < j ==> previous[i].name != name
    requires j < |previous| ==> previous[j].name == name
    ensures OldMac(previous, name) == if j < |previous| then previous[j].mac else ""
  {
    if j > 0 {
      OldMacExactly(previous[1..], name, j - 1);
    }
  }

  /** Where an interface's MAC comes from: the spec, then the old object, then the generator. */
  predicate HasMacFrom(f: Interface, oldMac: string, drawn: Option<string>, mac: string) {
    if f.mac != "" then mac == f.mac else if oldMac != "" then mac == oldMac else drawn == Some(mac)
  }

  predicate Unbound(b: Binding) {
    !b.bridge && b.masquerade == None && !b.sriov && !b.vdpa && !b.vhostUser
  }

  /** The interfaces one by one: the name stays, the MAC comes from the first of its sources, an unbound interface
      becomes a bridge, and a masqueraded one without a network gets 10.0.2.0/30. They are all done exactly if no
      MAC that has to be drawn is missing. */
  lemma {:induction false} InterfacesExactly(fs: seq<Interface>, previous: seq<Interface>, draws: nat -> Option<string>)
    ensures var (r, ok) := InterfaceDefaults(fs, previous, draws);
            && |r| <= |fs| && (ok <==> |r| == |fs|)
            && (forall k :: 0 <= k < |r| ==>
                  && r[k].name == fs[k].name && HasMacFrom(fs[k], OldMac(previous, fs[k].name), draws(k), r[k].mac)
                  && r[k].binding == (if Unbound(fs[k].binding) then Binding(true, None, false, false, false)
                                      else if fs[k].binding.masquerade == Some("")
                                      then fs[k].binding.(masquerade := Some("10.0.2.0/30")) else fs[k].binding))
            && (!ok ==> fs[|r|].mac == "" && OldMac(previous, fs[|r|].name) == "" && draws(|r|) == None)
  {
    if fs != [] {
      InterfacesExactly(fs[..|fs| - 1], previous, draws);
    }
  }

  // ---------------------------------------------------------------- the whole webhook

  datatype Spec = Spec(
    runPolicy: string,
    instance: Instance,
    resources: Resources,
    gpus: seq<Gpu>,
    interfaces: seq<Interface>)

  /** What the webhook makes of a spec, and whether it accepts it; if a MAC cannot be drawn, the
      interfaces from there on stay as they were. */
  function Mutate(s: Spec, previous: seq<Interface>, draws: nat -> Option<string>): (Spec, bool) {
    var i := InstanceDefaults(s.instance, s.resources);
    var (fs, ok) := InterfaceDefaults(s.interfaces, previous, draws);
    (Spec(if s.runPolicy == "" then "Once" else s.runPolicy, i, ResourceDefaults(i, s.resources), GpuDefaults(s.gpus),
          fs + Rest(s.interfaces, |fs|)), ok)
  }

  function Rest(fs: seq<Interface>, done: nat): seq<Interface> {
    if done < |fs| then fs[done..] else []
  }

  /** The parts of a spec the webhook has seen; what each of them is, the lemmas above say. The run policy is Once
      unless there is one, and interfaces behind a MAC that could not be drawn are untouched. */
  lemma MutateExactly(s: Spec, previous: seq<Interface>, draws: nat -> Option<string>)
    ensures var (r, ok) := Mutate(s, previous, draws);
            var (done, all) := InterfaceDefaults(s.interfaces, previous, draws);
            && r.runPolicy == (if s.runPolicy == "" then "Once" else s.runPolicy)
            && r.instance == InstanceDefaults(s.instance, s.resources)
            && r.resources == ResourceDefaults(r.instance, s.resources)
            && |r.gpus| == |s.gpus| && (forall j :: 0 <= j < |s.gpus| ==> r.gpus[j] == GpuDefault(s.gpus[j]))
            && |r.interfaces| == |s.interfaces| && ok == all
            && (forall k :: 0 <= k < |s.interfaces| ==> r.interfaces[k] == if k < |done| then done[k] else s.interfaces[k])
  {
    InterfacesExactly(s.interfaces, previous, draws);
  }

  /** Idempotence: whatever the previous object was and whatever MACs are drawn, a spec that the
      webhook has accepted once passes through it unchanged, and cannot be refused for a MAC. */
  lemma MutateIsIdempotent(s: Spec, previous: seq<Interface>, draws: nat -> Option<string>,
                           old2: seq<Interface>, draws2: nat -> Option<string>)
    requires forall k :: draws(k) != Some("")
    requires Mutate(s, previous, draws).1
    ensures Mutate(Mutate(s, previous, draws).0, old2, draws2) == (Mutate(s, previous, draws).0, true)
  {
    var r := Mutate(s, previous, draws).0;
    DefaultsSettle(s.instance, s.resources);
    SettledIsFixed(r.instance, r.resources);
    InterfacesSettle(s.interfaces, previous, draws);
    assert r.interfaces == InterfaceDefaults(s.interfaces, previous, draws).0;
    SettledInterfacesAreFixed(r.interfaces, old2, draws2);
    assert forall j :: 0 <= j < |r.gpus| ==> GpuDefault(r.gpus[j]) == r.gpus[j];
    assert GpuDefaults(r.gpus) == r.gpus;
  }

  // ---------------------------------------------------------------- in place

  /** A resource list, which the object holds by reference. */
  class ResourceList {
    var entries: Quantities

    constructor (entries: Quantities)
      ensures this.entries == entries
    {
      this.entries := entries;
    }

    method FillIfZero(key: string, q: real)
      modifies this
      ensures entries == SetIfZero(old(entries), key, q)
    {
      if key !in entries || entries[key] == 0.0 {
        entries := entries[key := q];
      }
    }
  }

  function Entries(list: ResourceList?): Option<Quantities>
    reads list
  {
    if list == null then None else Some(list.entries)
  }

  class VirtualMachine {
    var runPolicy: string
    var instance: Instance
    var requests: ResourceList?
    var limits: ResourceList?
    var gpus: seq<Gpu>
    var interfaces: seq<Interface>

    function Lists(): Resources
      reads this, requests, limits
    {
      Resources(Entries(requests), Entries(limits))
    }

    function Value(): Spec
      reads this, requests, limits
    {
      Spec(runPolicy, instance, Lists(), gpus, interfaces)
    }

    ghost predicate Apart()
      reads this
    {
      requests == null || requests != limits
    }

    method FillInstance()
      modifies this`instance
      ensures instance == InstanceDefaults(old(instance), Lists())
    {
      if instance.sockets == 0 {
        instance := instance.(sockets := 1);
      }
      if instance.coresPerSocket == 0 {
        instance := instance.(coresPerSocket := 1);
      }
      if instance.memorySize == 0.0 {
        if Get(Entries(requests), MEMORY) != 0.0 {
          instance := instance.(memorySize := Get(Entries(requests), MEMORY));
        } else {
          instance := instance.(memorySize := ONE_GI);
        }
      }
    }

    /** If both lists are missing they become one shared list; it then has a memory entry that is not
        zero wherever a later step writes to one of them only. */
    method FillDedicated()
      requires Apart() && instance.dedicated
      modifies this`requests, this`limits, requests, limits
      ensures Lists() == DedicatedDefaults(instance, old(Lists()))
      ensures Apart() || (instance.hugepages.Some? ==> Get(Entries(requests), MEMORY) != 0.0)
      ensures requests == old(requests) || fresh(requests)
      ensures limits == old(limits) || fresh(limits)
    {
      var memSize := OVERHEAD;
      if instance.memorySize != 0.0 {
        if instance.hugepages.None? {
          memSize := memSize + instance.memorySize;
        }
      }
      var cpu := instance.Vcpus() as real;
      var rsList := new ResourceList(map[CPU := cpu, MEMORY := memSize]);
      assert map[CPU := cpu, MEMORY := memSize] == SetIfZero(SetIfZero(map[], CPU, cpu), MEMORY, memSize);
      if requests == null {
        requests := rsList;
      } else {
        requests.FillIfZero(CPU, cpu);
        requests.FillIfZero(MEMORY, memSize);
      }
      if limits == null {
        limits := rsList;
      } else {
        limits.FillIfZero(CPU, cpu);
        limits.FillIfZero(MEMORY, memSize);
      }
    }

    method FillHugepages()
      requires instance.hugepages.Some?
      requires Apart() || Get(Entries(requests), MEMORY) != 0.0
      modifies this`requests, this`limits, requests, limits
      ensures Lists() == HugepagesDefaults(instance, old(Lists()))
      ensures old(Apart()) ==> Apart()
      ensures requests == old(requests) || fresh(requests)
      ensures limits == old(limits) || fresh(limits)
    {
      var key := instance.HugepagesKey();
      KeysDiffer(instance);
      if limits == null {
        limits := new ResourceList(map[]);
      }
      var hugepagesLimit: real;
      if key in limits.entries {
        hugepagesLimit := limits.entries[key];
      } else {
        hugepagesLimit := instance.memorySize;
        limits.entries := limits.entries[key := hugepagesLimit];
      }
      if requests == null {
        requests := new ResourceList(map[]);
      }
      if key !in requests.entries {
        requests.entries := requests.entries[key := hugepagesLimit];
      }
      if NoCpuOrMemory(Lists()) {
        requests.entries := requests.entries[MEMORY := OVERHEAD];
      }
    }

    method FillShared()
      requires Apart() && !instance.dedicated
      modifies this`requests, this`limits, requests, limits
      ensures Lists() == SharedDefaults(instance, old(Lists()))
      ensures requests == old(requests) || fresh(requests)
      ensures limits == old(limits) || fresh(limits)
    {
      if requests == null {
        requests := new ResourceList(map[]);
      }
      if limits == null {
        limits := new ResourceList(map[]);
      }
      var cpu, memory := instance.Vcpus() as real, instance.memorySize + OVERHEAD;
      requests.FillIfZero(CPU, cpu);
      limits.FillIfZero(CPU, cpu);
      requests.FillIfZero(MEMORY, memory);
      limits.FillIfZero(MEMORY, memory);
    }

    method FillResources()
      requires Apart()
      modifies this`requests, this`limits, requests, limits
      ensures Lists() == ResourceDefaults(instance, old(Lists()))
    {
      if instance.dedicated {
        FillDedicated();
      }
      if instance.hugepages.Some? {
        FillHugepages();
      }
      if !instance.dedicated {
        FillShared();
      }
    }

    method FillGpus()
      modifies this`gpus
      ensures gpus == GpuDefaults(old(gpus))
    {
      ghost var was := gpus;
      for k := 0 to |gpus|
        invariant |gpus| == |was|
        invariant forall j :: 0 <= j < |was| ==> gpus[j] == if j < k then GpuDefault(was[j]) else was[j]
      {
        var gpu := gpus[k];
        if gpu.resourceEnvName == "" {
          if Contains(gpu.resourceName, "nvidia.com/") {
            var deviceName := TrimPrefix(gpu.resourceName, "nvidia.com/");
            gpus := gpus[k := gpu.(resourceEnvName := "PCI_RESOURCE_NVIDIA_COM_" + deviceName)];
          }
        }
      }
    }

    method FindOldMac(previous: seq<Interface>, name: string) returns (mac: string)
      ensures mac == OldMac(previous, name)
    {
      mac := "";
      for j := 0 to |previous|
        invariant OldMac(previous, name) == OldMac(previous[j..], name)
      {
        if previous[j].name == name {
          return previous[j].mac;
        }
      }
    }

    /** One round of the loop over the interfaces; nothing if a MAC is needed and cannot be drawn. */
    method FillInterface(f: Interface, previous: seq<Interface>, drawn: Option<string>) returns (r: Option<Interface>)
      ensures r == InterfaceDefault(f, previous, drawn)
    {
      var filled := f;
      if filled.mac == "" {
        var macStr := FindOldMac(previous, f.name);
        if macStr == "" {
          if drawn.None? {
            return None;
          }
          macStr := drawn.value;
        }
        filled := filled.(mac := macStr);
      }
      var b := filled.binding;
      if !b.bridge && b.masquerade.None? && !b.sriov && !b.vdpa && !b.vhostUser {
        b := Binding(true, None, false, false, false);
      }
      if b.masquerade.Some? {
        if b.masquerade.value == "" {
          b := b.(masquerade := Some("10.0.2.0/30"));
        }
      }
      return Some(filled.(binding := b));
    }

    method FillInterfaces(previous: seq<Interface>, draws: nat -> Option<string>) returns (ok: bool)
      modifies this`interfaces
      ensures ok == InterfaceDefaults(old(interfaces), previous, draws).1
      ensures var done := InterfaceDefaults(old(interfaces), previous, draws).0;
              interfaces == done + Rest(old(interfaces), |done|)
    {
      ghost var was := interfaces;
      ghost var done: seq<Interface> := [];
      assert was[..0] == [];
      for k := 0 to |interfaces|
        invariant |done| == k <= |was| && interfaces == done + was[k..]
        invariant InterfaceDefaults(was[..k], previous, draws) == (done, true)
      {
        assert interfaces[k] == was[k];
        InterfacesStep(was, previous, draws, k);
        var filled := FillInterface(interfaces[k], previous, draws(k));
        if filled.None? {
          InterfacesStop(was, previous, draws, k);
          return false;
        }
        SetNext(done, was, k, filled.value);
        interfaces := interfaces[k := filled.value];
        done := done + [filled.value];
      }
      assert was[..|was|] == was;
      ok := true;
    }

    method MutateVm(oldVm: Option<seq<Interface>>, draws: nat -> Option<string>) returns (ok: bool)
      requires Apart()
      modifies this, requests, limits
      ensures (Value(), ok) == Mutate(old(Value()), if oldVm.Some? then oldVm.value else [], draws)
    {
      var previous := if oldVm.Some? then oldVm.value else [];
      ghost var was := Value();
      if runPolicy == "" {
        runPolicy := "Once";
      }
      FillInstance();
      FillResources();
      FillGpus();
      ok := FillInterfaces(previous, draws);
      MutateByParts(was, previous, draws, Value(), ok);
    }
  }

  lemma MutateByParts(s: Spec, previous: seq<Interface>, draws: nat -> Option<string>, r: Spec, ok: bool)
    requires r.runPolicy == if s.runPolicy == "" then "Once" else s.runPolicy
    requires r.instance == InstanceDefaults(s.instance, s.resources)
    requires r.resources == ResourceDefaults(r.instance, s.resources)
    requires r.gpus == GpuDefaults(s.gpus)
    requires var done := InterfaceDefaults(s.interfaces, previous, draws).0;
             r.interfaces == done + Rest(s.interfaces, |done|)
    requires ok == InterfaceDefaults(s.interfaces, previous, draws).1
    ensures Mutate(s, previous, draws) == (r, ok)
  {
  }

  lemma SetNext(done: seq<Interface>, was: seq<Interface>, k: nat, f: Interface)
    requires |done| == k < |was|
    ensures (done + was[k..])[k := f] == done + [f] + was[k + 1..]
  {
  }

  lemma InterfacesStep(fs: seq<Interface>, previous: seq<Interface>, draws: nat -> Option<string>, k: nat)
    requires k < |fs| && InterfaceDefaults(fs[..k], previous, draws).1
    ensures var before, filled := InterfaceDefaults(fs[..k], previous, draws).0, InterfaceDefault(fs[k], previous, draws(k));
            InterfaceDefaults(fs[..k + 1], previous, draws) ==
            if filled.Some? then (before + [filled.value], true) else (before, false)
  {
    assert fs[..k + 1][..k] == fs[..k];
  }

  /** Once a MAC cannot be drawn, the interfaces that follow do not matter. */
  lemma {:induction false} InterfacesStop(fs: seq<Interface>, previous: seq<Interface>, draws: nat -> Option<string>, k: nat)
    requires k < |fs| && InterfaceDefaults(fs[..k], previous, draws).1
    requires MacFor(fs[k], previous, draws(k)).None?
    ensures InterfaceDefaults(fs, previous, draws) == (InterfaceDefaults(fs[..k], previous, draws).0, false)
    decreases |fs|
  {
    var n := |fs| - 1;
    if k == n {
      InterfacesStep(fs, previous, draws, k);
      assert fs[..n + 1] == fs;
    } else {
      assert fs[..n][..k] == fs[..k];
      InterfacesStop(fs[..n], previous, draws, k);
    }
  }
}
