/** CPU lists (pkg/cpuset/cpuset.go) and the pinning of virtual CPUs to the CPUs of such a list
    (cmd/ch-vmm-prerunner/main.go). */
module CpuSet {
  import opened Wrappers
  import opened Text
  import opened Sorting

  // ---------------------------------------------------------------- what a list means

  datatype Range = Range(lo: int, hi: int) {
    predicate Has(x: int) {
      lo <= x <= hi
    }
  }

  /** One item between commas: a number, or two of them around its first dash. */
  function RangeOf(item: string): Option<Range> {
    var i := IndexOf(item, '-');
    if i == |item| then
      match Atoi(item)
      case None => None
      case Some(v) => Some(Range(v, v))
    else
      match (Atoi(item[..i]), Atoi(item[i + 1..]))
      case (Some(lo), Some(hi)) => if lo <= hi then Some(Range(lo, hi)) else None
      case _ => None
  }

  function Members(r: Range): set<int> {
    set x | r.lo <= x <= r.hi && r.Has(x)
  }

  predicate Holds(r: Option<Range>, x: int) {
    r.Some? && r.value.Has(x)
  }

  function Ranges(items: seq<string>): (rs: seq<Option<Range>>)
    ensures |rs| == |items| && forall k :: 0 <= k < |items| ==> rs[k] == RangeOf(items[k])
  {
    seq(|items|, k requires 0 <= k < |items| => RangeOf(items[k]))
  }

  /** The union of the ranges, if every item was one. */
  function Union(rs: seq<Option<Range>>): Option<set<int>> {
    if rs == [] then Some({})
    else
      var n := |rs| - 1;
      match (Union(rs[..n]), rs[n])
      case (Some(cpus), Some(r)) => Some(cpus + Members(r))
      case _ => None
  }

  function Cpus(s: string): Option<set<int>> {
    if s == "" then Some({}) else Union(Ranges(Split(s, ',')))
  }

  lemma UnsignedValue(s: string)
    requires '-' !in s && Atoi(s).Some?
    ensures Atoi(s).value >= 0
  {
  }

  /** A sign cannot get past the dash that separates a range. */
  lemma RangeNotNegative(item: string)
    requires RangeOf(item).Some?
    ensures 0 <= RangeOf(item).value.lo <= RangeOf(item).value.hi <= MAX_INT
  {
    var i := IndexOf(item, '-');
    assert item[..|item|] == item;
    UnsignedValue(item[..i]);
  }

  lemma {:induction false} UnionMeaning(rs: seq<Option<Range>>)
    ensures Union(rs).None? <==> None in rs
    ensures Union(rs).Some? ==>
              forall x :: x in Union(rs).value <==> exists k :: 0 <= k < |rs| && Holds(rs[k], x)
  {
    if rs != [] {
      var n := |rs| - 1;
      UnionMeaning(rs[..n]);
      assert rs == rs[..n] + [rs[n]];
    }
  }

  /** The empty list is the empty set. Any other is refused exactly when one of its items is malformed;
      otherwise a CPU is in the set exactly when one of the ranges holds it, and none is negative. */
  lemma ParseMeaning(s: string)
    ensures Cpus("") == Some({})
    ensures Cpus(s).None? <==> s != "" && exists item :: item in Split(s, ',') && RangeOf(item).None?
    ensures s != "" && Cpus(s).Some? ==>
              forall x :: x in Cpus(s).value <==> exists item :: item in Split(s, ',') && Holds(RangeOf(item), x)
    ensures Cpus(s).Some? ==> forall x :: x in Cpus(s).value ==> 0 <= x <= MAX_INT
  {
    var items := Split(s, ',');
    var rs := Ranges(items);
    UnionMeaning(rs);
    forall item | item in items
      ensures RangeOf(item) in rs
      ensures forall x :: Holds(RangeOf(item), x) ==> 0 <= x <= MAX_INT
      ensures forall x :: Holds(RangeOf(item), x) ==> exists k :: 0 <= k < |rs| && Holds(rs[k], x)
    {
      var k :| 0 <= k < |items| && items[k] == item;
      assert rs[k] == RangeOf(item);
      if RangeOf(item).Some? {
        RangeNotNegative(item);
      }
    }
    forall k | 0 <= k < |rs|
      ensures items[k] in items && rs[k] == RangeOf(items[k])
    {
    }
  }

  lemma {:induction false} UnionOfTwo(a: seq<Option<Range>>, b: seq<Option<Range>>)
    ensures Union(a + b) ==
            if Union(a).Some? && Union(b).Some? then Some(Union(a).value + Union(b).value) else None
  {
    if b == [] {
      assert a + b == a;
      assert Union(a).Some? ==> Union(a).value + {} == Union(a).value;
    } else {
      var n := |b| - 1;
      UnionOfTwo(a, b[..n]);
      assert (a + b)[..|a| + n] == a + b[..n] && (a + b)[|a| + n] == b[n];
      if Union(a).Some? && Union(b).Some? {
        assert Union(a + b).value == Union(a).value + Union(b).value;
      }
    }
  }

  lemma RangesOfTwo(a: seq<string>, b: seq<string>)
    ensures Ranges(a + b) == Ranges(a) + Ranges(b)
  {
  }

  /** Joining two lists with a comma joins their sets, and is refused if either is. */
  lemma ParseDistributes(a: string, b: string)
    requires a != "" && b != ""
    ensures Cpus(a + "," + b) ==
            if Cpus(a).Some? && Cpus(b).Some? then Some(Cpus(a).value + Cpus(b).value) else None
  {
    SplitJoined(a, b, ',');
    RangesOfTwo(Split(a, ','), Split(b, ','));
    UnionOfTwo(Ranges(Split(a, ',')), Ranges(Split(b, ',')));
  }

  /** An empty item is refused, so a comma must have something on both sides. */
  lemma EmptyItemIsRefused(a: string, b: string)
    requires a == "" || b == ""
    ensures Cpus(a + "," + b).None?
  {
    SplitJoined(a, b, ',');
    SplitNone("", ',');
    assert RangeOf("").None?;
    var items := Split(a, ',') + Split(b, ',');
    assert items[0] == "" || items[|items| - 1] == "";
    UnionMeaning(Ranges(items));
  }

  // ---------------------------------------------------------------- printing

  ghost predicate Printable(r: Range) {
    0 <= r.lo <= r.hi <= MAX_INT
  }

  /** How the kernel prints a range. */
  function Print(r: Range): string
    requires Printable(r)
  {
    if r.lo == r.hi then Itoa(r.lo) else Itoa(r.lo) + "-" + Itoa(r.hi)
  }

  function Printed(rs: seq<Range>): seq<string>
    requires forall k :: 0 <= k < |rs| ==> Printable(rs[k])
  {
    seq(|rs|, k requires 0 <= k < |rs| => Print(rs[k]))
  }

  function Join(items: seq<string>): string
    requires items != []
  {
    var n := |items| - 1;
    if n == 0 then items[0] else Join(items[..n]) + "," + items[n]
  }

  function AllMembers(rs: seq<Range>): set<int> {
    set k, x | 0 <= k < |rs| && x in Members(rs[k]) :: x
  }

  lemma DashIndex(a: string, b: string)
    requires '-' !in a
    ensures IndexOf(a + "-" + b, '-') == |a|
  {
    var item := a + "-" + b;
    assert item[|a|] == '-';
    forall j | 0 <= j < |a|
      ensures item[j] != '-'
    {
      assert a[j] in a;
    }
  }

  lemma NoDash(n: nat)
    ensures IndexOf(Itoa(n), '-') == |Itoa(n)|
  {
    var i := IndexOf(Itoa(n), '-');
    assert i < |Itoa(n)| ==> IsDigit(Itoa(n)[i]);
  }

  lemma PrintedNumber(n: nat)
    requires n <= MAX_INT
    ensures RangeOf(Itoa(n)) == Some(Range(n, n))
  {
    NoDash(n);
    AtoiItoa(n);
  }

  /** An item with a dash is the range between the numbers around the first one, if they are numbers and in order;
      one without is the one number it is. */
  lemma ItemExactly(a: string, b: string)
    requires '-' !in a
    ensures RangeOf(a + "-" + b) ==
            if Atoi(a).Some? && Atoi(b).Some? && Atoi(a).value <= Atoi(b).value
            then Some(Range(Atoi(a).value, Atoi(b).value)) else None
    ensures RangeOf(a) == if Atoi(a).Some? then Some(Range(Atoi(a).value, Atoi(a).value)) else None
  {
    DashIndex(a, b);
    var item := a + "-" + b;
    assert item[..|a|] == a && item[|a| + 1..] == b;
  }

  lemma PrintedRange(r: Range)
    requires Printable(r)
    ensures RangeOf(Print(r)) == Some(r) && ',' !in Print(r) && Print(r) != ""
  {
    DigitsHaveNo(Itoa(r.lo), ',');
    DigitsHaveNo(Itoa(r.hi), ',');
    if r.lo == r.hi {
      PrintedNumber(r.lo);
    } else {
      DigitsHaveNo(Itoa(r.lo), '-');
      AtoiItoa(r.lo);
      AtoiItoa(r.hi);
      ItemExactly(Itoa(r.lo), Itoa(r.hi));
    }
  }

  lemma AllMembersNext(rs: seq<Range>, n: nat)
    requires |rs| == n + 1
    ensures AllMembers(rs) == AllMembers(rs[..n]) + Members(rs[n])
    ensures n == 0 ==> AllMembers(rs) == Members(rs[n])
  {
    forall x | x in AllMembers(rs[..n])
      ensures x in AllMembers(rs)
    {
      var k :| 0 <= k < n && x in Members(rs[..n][k]);
      assert rs[k] == rs[..n][k];
    }
    forall x | x in AllMembers(rs) && x !in Members(rs[n])
      ensures x in AllMembers(rs[..n])
    {
      var k :| 0 <= k <= n && x in Members(rs[k]);
      assert rs[..n][k] == rs[k];
    }
  }

  lemma {:induction false} ParseJoined(items: seq<string>, rs: seq<Range>)
    requires |items| == |rs| > 0
    requires forall k :: 0 <= k < |rs| ==> items[k] != "" && ',' !in items[k] && RangeOf(items[k]) == Some(rs[k])
    ensures Join(items) != "" && Cpus(Join(items)) == Some(AllMembers(rs))
  {
    var n := |rs| - 1;
    SingleRange(items[n], rs[n]);
    AllMembersNext(rs, n);
    if n > 0 {
      ParseJoined(items[..n], rs[..n]);
      ParseDistributes(Join(items[..n]), items[n]);
    }
  }

  /** Reading back any printed list of ranges gives exactly their CPUs. */
  lemma ParsePrinted(rs: seq<Range>)
    requires rs != [] && forall k :: 0 <= k < |rs| ==> Printable(rs[k])
    ensures Cpus(Join(Printed(rs))) == Some(AllMembers(rs))
  {
    forall k | 0 <= k < |rs|
      ensures Print(rs[k]) != "" && ',' !in Print(rs[k]) && RangeOf(Print(rs[k])) == Some(rs[k])
    {
      PrintedRange(rs[k]);
    }
    ParseJoined(Printed(rs), rs);
  }

  lemma SingleRange(item: string, r: Range)
    requires item != "" && ',' !in item && RangeOf(item) == Some(r)
    ensures Cpus(item) == Some(Members(r))
  {
    SplitNone(item, ',');
    assert Ranges([item]) == [Some(r)];
    var rs := [Some(r)];
    assert Union(rs[..0]) == Some({});
    assert Union(rs) == Some({} + Members(r));
    assert {} + Members(r) == Members(r);
  }

  // ---------------------------------------------------------------- the parser

  class Builder {
    var result: set<int>

    constructor ()
      ensures result == {}
    {
      result := {};
    }

    method Add(elem: int)
      modifies this
      ensures result == old(result) + {elem}
    {
      result := result + {elem};
    }
  }

  /** `strings.SplitN` into at most two parts. */
  function SplitInTwo(s: string, c: char): (parts: seq<string>) {
    var i := IndexOf(s, c);
    if i == |s| then [s] else [s[..i], s[i + 1..]]
  }

  /** The loop over a range counts with a machine integer, so a range must end before the largest one; a
      single CPU may be it. */
  ghost predicate EndsInRange(item: string) {
    '-' in item && RangeOf(item).Some? ==> RangeOf(item).value.hi < MAX_INT
  }

  method AddRange(b: Builder, start: int, end: int)
    requires start <= end < MAX_INT
    modifies b
    ensures b.result == old(b.result) + Members(Range(start, end))
  {
    var e := start;
    while e <= end
      invariant start <= e <= end + 1 <= MAX_INT
      invariant b.result == old(b.result) + Members(Range(start, e - 1))
    {
      b.Add(e);
      assert Members(Range(start, e)) == Members(Range(start, e - 1)) + {e};
      e := e + 1;
    }
  }

  method AddItem(b: Builder, r: string) returns (ok: bool)
    requires EndsInRange(r)
    modifies b
    ensures ok == RangeOf(r).Some?
    ensures ok ==> b.result == old(b.result) + Members(RangeOf(r).value)
  {
    var boundaries := SplitInTwo(r, '-');
    if |boundaries| == 1 {
      var elem := Atoi(boundaries[0]);
      if elem.None? {
        return false;
      }
      b.Add(elem.value);
      assert Members(Range(elem.value, elem.value)) == {elem.value};
    } else {
      var start := Atoi(boundaries[0]);
      if start.None? {
        return false;
      }
      var end := Atoi(boundaries[1]);
      if end.None? {
        return false;
      }
      if start.value > end.value {
        return false;
      }
      AddRange(b, start.value, end.value);
    }
    ok := true;
  }

  method Parse(s: string) returns (cpus: Option<set<int>>)
    requires forall item :: item in Split(s, ',') ==> EndsInRange(item)
    ensures cpus == Cpus(s)
  {
    var b := new Builder();
    if s == "" {
      return Some(b.result);
    }
    var ranges := Split(s, ',');
    ghost var rs := Ranges(ranges);
    for k := 0 to |ranges|
      invariant Union(rs[..k]) == Some(b.result)
    {
      assert ranges[k] in ranges;
      assert rs[..k + 1][..k] == rs[..k];
      var ok := AddItem(b, ranges[k]);
      if !ok {
        UnionMeaning(rs);
        assert rs[k] in rs;
        return None;
      }
    }
    assert rs[..|rs|] == rs;
    return Some(b.result);
  }

  /** The elements of the set in ascending order, each once. */
  method ToSlice(cpus: set<int>) returns (result: seq<int>)
    ensures Ascending(result) && |result| == |cpus|
    ensures forall x :: x in result <==> x in cpus
  {
    result := List(cpus);
    var key := (x: int) => x;
    SortedListing(result, cpus, key);
    result := SortBy(result, key);
    assert Keys(result, key) == result;
    ListedIn(result, cpus);
  }

  // ---------------------------------------------------------------- pinning

  datatype CpuAffinity = CpuAffinity(vcpu: nat, hostCpus: seq<int>)

  /** Virtual CPU k runs on the k-th CPU of the set. */
  ghost predicate Pinned(affinity: seq<CpuAffinity>, cpus: set<int>) {
    && (forall k :: 0 <= k < |affinity| ==> affinity[k].vcpu == k && |affinity[k].hostCpus| == 1)
    && Ascending(Hosts(affinity))
    && forall x :: x in Hosts(affinity) <==> x in cpus
  }

  function Hosts(affinity: seq<CpuAffinity>): seq<int> {
    seq(|affinity|, k requires 0 <= k < |affinity| =>
      if |affinity[k].hostCpus| == 1 then affinity[k].hostCpus[0] else -1)
  }

  /** Pinning succeeds exactly when there are as many CPUs as virtual ones, a product of 32-bit
      numbers, and then it is an order-preserving bijection from the virtual CPUs to the set. */
  method PinCpus(cpuSet: set<int>, sockets: nat, coresPerSocket: nat) returns (affinity: Option<seq<CpuAffinity>>)
    ensures affinity.Some? <==> |cpuSet| == sockets * coresPerSocket % 0x1_0000_0000
    ensures affinity.Some? ==> |affinity.value| == |cpuSet| && Pinned(affinity.value, cpuSet)
  {
    var pcpus := ToSlice(cpuSet);
    var numVcpus := sockets * coresPerSocket % 0x1_0000_0000;
    if |pcpus| != numVcpus {
      return None;
    }
    var list: seq<CpuAffinity> := [];
    for i := 0 to numVcpus
      invariant |list| == i
      invariant forall k :: 0 <= k < i ==> list[k] == CpuAffinity(k, [pcpus[k]])
    {
      list := list + [CpuAffinity(i, [pcpus[i]])];
    }
    assert Hosts(list) == pcpus;
    return Some(list);
  }

  /** Such a pinning is the only one. */
  lemma PinningIsUnique(a: seq<CpuAffinity>, b: seq<CpuAffinity>, cpus: set<int>)
    requires Pinned(a, cpus) && Pinned(b, cpus)
    ensures a == b
  {
    assert Contained(Hosts(a), Hosts(b)) by {
      assert forall k :: 0 <= k < |a| ==> Hosts(a)[k] in Hosts(a);
    }
    assert Contained(Hosts(b), Hosts(a)) by {
      assert forall k :: 0 <= k < |b| ==> Hosts(b)[k] in Hosts(b);
    }
    AscendingIsUnique(Hosts(a), Hosts(b));
    forall k | 0 <= k < |a|
      ensures a[k] == b[k]
    {
      assert a[k].hostCpus == [Hosts(a)[k]] && b[k].hostCpus == [Hosts(b)[k]];
    }
  }
}
