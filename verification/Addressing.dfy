/** Addresses of a masqueraded network (cmd/ch-vmm-prerunner/main.go) and the check of its CIDR
    (pkg/webhooks/virtualmachine_webhook.go). An address is its bytes, most significant first; a
    subnet is a base address and a prefix length, in the sense of section 3.1 of RFC 4632. */
module Addressing {
  import opened Wrappers

  type byte = x: int | 0 <= x < 256

  // ---------------------------------------------------------------- powers of two

  function Pow2(n: nat): (p: nat)
    ensures p >= 1
  {
    if n == 0 then 1 else 2 * Pow2(n - 1)
  }

  lemma {:induction false} Pow2Sum(a: nat, b: nat)
    ensures Pow2(a + b) == Pow2(a) * Pow2(b)
  {
    if a > 0 {
      Pow2Sum(a - 1, b);
      assert Pow2(a) * Pow2(b) == 2 * (Pow2(a - 1) * Pow2(b));
    }
  }

  lemma Pow2Eight()
    ensures Pow2(8) == 256
  {
    assert Pow2(4) == 16;
    Pow2Sum(4, 4);
  }

  lemma {:induction false} Pow2Monotone(a: nat, b: nat)
    requires a <= b
    ensures Pow2(a) <= Pow2(b)
  {
    if a < b {
      Pow2Monotone(a, b - 1);
    }
  }

  // ---------------------------------------------------------------- addresses as numbers

  function Value(s: seq<byte>): nat {
    if s == [] then 0 else 256 * Value(s[..|s| - 1]) + s[|s| - 1]
  }

  function Size(s: seq<byte>): nat {
    Pow2(8 * |s|)
  }

  lemma SizeFront(s: seq<byte>)
    requires s != []
    ensures Size(s) == 256 * Size(s[..|s| - 1])
  {
    Pow2Eight();
    Pow2Sum(8, 8 * (|s| - 1));
  }

  lemma {:induction false} ValueBound(s: seq<byte>)
    ensures Value(s) < Size(s)
  {
    if s != [] {
      ValueBound(s[..|s| - 1]);
      SizeFront(s);
    }
  }

  lemma {:induction false} ValueInjective(s: seq<byte>, t: seq<byte>)
    requires |s| == |t| && Value(s) == Value(t)
    ensures s == t
  {
    if s != [] {
      var n := |s| - 1;
      ValueInjective(s[..n], t[..n]);
      assert s == s[..n] + [s[n]] && t == t[..n] + [t[n]];
    }
  }

  // ---------------------------------------------------------------- increment

  /** Add one to the last byte, with carry. */
  function Next(s: seq<byte>): (r: seq<byte>)
    ensures |r| == |s|
  {
    if s == [] then []
    else
      var n := |s| - 1;
      if s[n] == 255 then Next(s[..n]) + [0] else s[..n] + [s[n] + 1]
  }

  lemma ValueAppend(s: seq<byte>, b: byte)
    ensures Value(s + [b]) == 256 * Value(s) + b
  {
    assert (s + [b])[..|s|] == s;
  }

  /** The next address is the next number; the last address wraps to zero. */
  lemma {:induction false} NextAddsOne(s: seq<byte>)
    ensures Value(Next(s)) == if Value(s) + 1 == Size(s) then 0 else Value(s) + 1
  {
    if s != [] {
      var n := |s| - 1;
      NextAddsOne(s[..n]);
      SizeFront(s);
      ValueBound(s[..n]);
      if s[n] == 255 {
        ValueAppend(Next(s[..n]), 0);
      } else {
        ValueAppend(s[..n], s[n] + 1);
      }
    }
  }

  // ---------------------------------------------------------------- shifts

  /** The number without its lowest h bits. */
  function Shift(a: nat, h: nat): nat {
    if h == 0 then a else Shift(a / 2, h - 1)
  }

  /** That is, its quotient by two to the power h. */
  lemma {:induction false} ShiftIsQuotient(a: nat, h: nat)
    ensures Shift(a, h) * Pow2(h) <= a < Shift(a, h) * Pow2(h) + Pow2(h)
  {
    if h > 0 {
      ShiftIsQuotient(a / 2, h - 1);
      Twice(Shift(a, h), Pow2(h - 1));
    }
  }

  lemma Twice(c: nat, p: nat)
    ensures c * (2 * p) == 2 * (c * p)
  {
  }

  lemma {:induction false} ShiftAgain(a: nat, g: nat, h: nat)
    ensures Shift(a, g + h) == Shift(Shift(a, g), h)
  {
    if g > 0 {
      ShiftAgain(a / 2, g - 1, h);
    }
  }

  /** Shifting out m bits of a last byte. */
  lemma ShiftByte(f: nat, x: byte, m: nat)
    requires m <= 8
    ensures Shift(256 * f + x, m) == f * Pow2(8 - m) + Shift(x, m)
    ensures Shift(x, m) < Pow2(8 - m)
    decreases m
  {
    Pow2Eight();
    if m > 0 {
      ShiftByte(f, x, m - 1);
      ShiftOnce(256 * f + x, m);
      ShiftOnce(x, m);
      Twice(f, Pow2(8 - m));
    }
  }

  lemma ShiftOnce(a: nat, m: nat)
    requires m > 0
    ensures Shift(a, m) == Shift(a, m - 1) / 2
  {
    ShiftAgain(a, m - 1, 1);
    assert Shift(Shift(a, m - 1), 1) == Shift(Shift(a, m - 1) / 2, 0);
  }

  // ---------------------------------------------------------------- subnets

  /** How many of the 8 bits of byte i a prefix of that length covers. */
  function KeptBits(ones: nat, i: nat): (k: nat)
    ensures k <= 8
  {
    if ones <= 8 * i then 0 else if ones >= 8 * i + 8 then 8 else ones - 8 * i
  }

  function ClearLow(x: nat, m: nat): nat {
    if m == 0 then x else 2 * ClearLow(x / 2, m - 1)
  }

  /** A byte under a mask of its first k bits: the other bits are cleared. */
  function Masked(x: byte, k: nat): nat
    requires k <= 8
  {
    ClearLow(x, 8 - k)
  }

  datatype Subnet = Subnet(base: seq<byte>, ones: nat) {
    /** What parsing a CIDR gives: a base address without host bits. */
    ghost predicate Valid() {
      && base != [] && ones <= 8 * |base|
      && forall i :: 0 <= i < |base| ==> Masked(base[i], KeptBits(ones, i)) == base[i]
    }

    function HostBits(): nat
      requires ones <= 8 * |base|
    {
      8 * |base| - ones
    }

    predicate Contains(ip: seq<byte>) {
      && |ip| == |base|
      && forall i :: 0 <= i < |ip| ==> SameUnderMask(base, ip, ones, i)
    }
  }

  predicate SameUnderMask(a: seq<byte>, b: seq<byte>, ones: nat, i: nat)
    requires i < |a| && i < |b|
  {
    Masked(a[i], KeptBits(ones, i)) == Masked(b[i], KeptBits(ones, i))
  }

  ghost predicate Agree(a: seq<byte>, b: seq<byte>, ones: nat)
    requires |a| == |b|
  {
    forall i :: 0 <= i < |a| ==> SameUnderMask(a, b, ones, i)
  }

  // ---------------------------------------------------------------- masks and numbers

  lemma {:induction false} ClearLowIsShift(x: nat, m: nat)
    ensures ClearLow(x, m) == Shift(x, m) * Pow2(m)
  {
    if m > 0 {
      ClearLowIsShift(x / 2, m - 1);
      Twice(Shift(x, m), Pow2(m - 1));
    }
  }

  lemma ProductsDiffer(a: nat, b: nat, p: nat)
    requires p >= 1
    ensures a * p == b * p <==> a == b
  {
    DigitsEqual(a, 0, b, 0, p);
  }

  /** A mask of the first k bits tells two bytes apart exactly when they differ there. */
  lemma MaskedShift(x: byte, y: byte, k: nat)
    requires k <= 8
    ensures Masked(x, k) == Masked(y, k) <==> Shift(x, 8 - k) == Shift(y, 8 - k)
  {
    ClearLowIsShift(x, 8 - k);
    ClearLowIsShift(y, 8 - k);
    ProductsDiffer(Shift(x, 8 - k), Shift(y, 8 - k), Pow2(8 - k));
  }

  /** Where the prefix ends inside the last byte, the quotient has the other bytes and its first bits. */
  lemma LastByteShift(f: nat, x: byte, g: nat, y: byte, m: nat)
    requires m <= 8
    ensures Shift(256 * f + x, m) == Shift(256 * g + y, m) <==> f == g && Shift(x, m) == Shift(y, m)
  {
    ShiftByte(f, x, m);
    ShiftByte(g, y, m);
    DigitsEqual(f, Shift(x, m), g, Shift(y, m), Pow2(8 - m));
  }

  lemma {:induction false} ProductGap(f: nat, g: nat, p: nat)
    requires f < g
    ensures f * p + p <= g * p
  {
    if f + 1 < g {
      ProductGap(f, g - 1, p);
    }
    assert g * p == (g - 1) * p + p;
  }

  lemma DigitsEqual(f: nat, x: nat, g: nat, y: nat, p: nat)
    requires x < p && y < p
    ensures f * p + x == g * p + y <==> f == g && x == y
  {
    if f < g {
      ProductGap(f, g, p);
    } else if g < f {
      ProductGap(g, f, p);
    }
  }

  lemma ByteInside(f: nat, x: byte, g: nat, y: byte, k: nat)
    requires k <= 8
    ensures Shift(256 * f + x, 8 - k) == Shift(256 * g + y, 8 - k) <==> f == g && Masked(x, k) == Masked(y, k)
  {
    MaskedShift(x, y, k);
    LastByteShift(f, x, g, y, 8 - k);
  }

  lemma ByteOutside(f: nat, x: byte, g: nat, y: byte, h: nat)
    ensures Shift(256 * f + x, h + 8) == Shift(f, h) && Shift(256 * g + y, h + 8) == Shift(g, h)
    ensures Masked(x, 0) == Masked(y, 0)
  {
    OpenByte(f, x, h);
    OpenByte(g, y, h);
    MaskedShift(x, y, 0);
  }

  /** Two addresses agree under a mask, byte by byte, exactly when they have the same quotient by
      the number of addresses the mask leaves open. */
  lemma {:induction false} AgreeIsShift(a: seq<byte>, b: seq<byte>, ones: nat)
    requires |a| == |b| && ones <= 8 * |a|
    ensures Agree(a, b, ones) <==> Shift(Value(a), 8 * |a| - ones) == Shift(Value(b), 8 * |a| - ones)
  {
    if a != [] {
      var n := |a| - 1;
      var f, g := Value(a[..n]), Value(b[..n]);
      AgreeFront(a, b, ones);
      if ones <= 8 * n {
        AgreeIsShift(a[..n], b[..n], ones);
        ByteOutside(f, a[n], g, b[n], 8 * n - ones);
      } else {
        AgreeIsShift(a[..n], b[..n], 8 * n);
        ByteInside(f, a[n], g, b[n], KeptBits(ones, n));
      }
    }
  }

  /** A byte that the prefix does not reach makes no difference. */
  lemma OpenByte(f: nat, x: byte, h: nat)
    ensures Shift(256 * f + x, h + 8) == Shift(f, h) && Shift(x, 8) == 0
  {
    ShiftAgain(256 * f + x, 8, h);
    ShiftOut(f, x);
    ShiftOut(0, x);
  }

  lemma ShiftOut(f: nat, x: byte)
    ensures Shift(256 * f + x, 8) == f
  {
    ShiftByte(f, x, 8);
  }

  /** The bytes before the last see the same prefix, as far as it reaches into them. */
  lemma AgreeFront(a: seq<byte>, b: seq<byte>, ones: nat)
    requires |a| == |b| > 0
    ensures var n := |a| - 1;
            Agree(a, b, ones) <==>
            Agree(a[..n], b[..n], if ones <= 8 * n then ones else 8 * n) && SameUnderMask(a, b, ones, n)
  {
    var n := |a| - 1;
    var front := if ones <= 8 * n then ones else 8 * n;
    forall i | 0 <= i < n
      ensures SameUnderMask(a, b, ones, i) <==> SameUnderMask(a[..n], b[..n], front, i)
    {
      assert KeptBits(front, i) == KeptBits(ones, i);
    }
  }

  lemma Recombine(f: nat, c: nat, p: nat, q: nat)
    requires q * p == 256
    ensures (f * p + c) * q == 256 * f + c * q
  {
    assert f * p * q == f * (q * p);
  }

  lemma ClearLowByte(f: nat, x: byte, m: nat)
    requires m <= 8
    ensures ClearLow(256 * f + x, m) == 256 * f + ClearLow(x, m)
  {
    ClearLowIsShift(256 * f + x, m);
    ClearLowIsShift(x, m);
    ShiftByte(f, x, m);
    Pow2Eight();
    Pow2Sum(m, 8 - m);
    Recombine(f, Shift(x, m), Pow2(8 - m), Pow2(m));
  }

  lemma ClearLowTwice(f: nat, h: nat)
    ensures ClearLow(2 * f, h + 1) == 2 * ClearLow(f, h)
  {
  }

  lemma ClearLowDeep(f: nat, h: nat)
    ensures ClearLow(256 * f, h + 8) == 256 * ClearLow(f, h)
  {
    ClearLowTwice(f, h);
    ClearLowTwice(2 * f, h + 1);
    ClearLowTwice(4 * f, h + 2);
    ClearLowTwice(8 * f, h + 3);
    ClearLowTwice(16 * f, h + 4);
    ClearLowTwice(32 * f, h + 5);
    ClearLowTwice(64 * f, h + 6);
    ClearLowTwice(128 * f, h + 7);
  }

  lemma AlignedByte(f: nat, x: byte, h: nat)
    requires ClearLow(f, h) == f && ClearLow(x, 8) == x
    ensures ClearLow(256 * f + x, h + 8) == 256 * f + x
  {
    ClearLowIsShift(x, 8);
    ShiftOut(0, x);
    ClearLowDeep(f, h);
  }

  /** The base of a subnet has no host bits. */
  lemma {:induction false} BaseIsAligned(base: seq<byte>, ones: nat)
    requires ones <= 8 * |base|
    requires forall i :: 0 <= i < |base| ==> Masked(base[i], KeptBits(ones, i)) == base[i]
    ensures ClearLow(Value(base), 8 * |base| - ones) == Value(base)
  {
    if base != [] {
      var n := |base| - 1;
      var f, x := Value(base[..n]), base[n];
      var k := KeptBits(ones, n);
      assert ClearLow(x, 8 - k) == x;
      if ones <= 8 * n {
        assert forall i :: 0 <= i < n ==> Masked(base[..n][i], KeptBits(ones, i)) == base[..n][i];
        BaseIsAligned(base[..n], ones);
        AlignedByte(f, x, 8 * n - ones);
      } else {
        ClearLowByte(f, x, 8 - k);
      }
    }
  }

  /** A subnet is the block of two to the power of its host bits of addresses from its base on. */
  lemma SubnetIsBlock(subnet: Subnet, ip: seq<byte>)
    requires subnet.Valid() && |ip| == |subnet.base|
    ensures subnet.Contains(ip) <==>
            Value(subnet.base) <= Value(ip) < Value(subnet.base) + Pow2(subnet.HostBits())
  {
    var h := subnet.HostBits();
    var c, d, p := Shift(Value(subnet.base), h), Shift(Value(ip), h), Pow2(h);
    AgreeIsShift(subnet.base, ip, subnet.ones);
    BaseIsAligned(subnet.base, subnet.ones);
    ClearLowIsShift(Value(subnet.base), h);
    ShiftIsQuotient(Value(ip), h);
    if c < d {
      ProductGap(c, d, p);
    } else if d < c {
      ProductGap(d, c, p);
    }
  }

  // ---------------------------------------------------------------- the two addresses

  /** The base has as many factors of two as the subnet has host bits, up to two of them. */
  lemma Multiples(subnet: Subnet) returns (size: nat, half: nat, quarter: nat)
    requires subnet.Valid()
    ensures Size(subnet.base) == 4 * size && size >= 64
    ensures subnet.HostBits() >= 1 ==> Value(subnet.base) == 2 * half
    ensures subnet.HostBits() >= 2 ==> Value(subnet.base) == 4 * quarter
  {
    var a, h := Value(subnet.base), subnet.HostBits();
    BaseIsAligned(subnet.base, subnet.ones);
    SizeFront(subnet.base);
    size := 64 * Size(subnet.base[..|subnet.base| - 1]);
    half := if h >= 1 then ClearLow(a / 2, h - 1) else 0;
    quarter := if h >= 2 then ClearLow(a / 2 / 2, h - 2) else 0;
  }

  /** In a subnet with two host bits or more, the two addresses after the base do not wrap. */
  lemma FirstTwoFit(subnet: Subnet)
    requires subnet.Valid() && subnet.HostBits() >= 2
    ensures Value(Next(subnet.base)) == Value(subnet.base) + 1
    ensures Value(Next(Next(subnet.base))) == Value(subnet.base) + 2
    ensures Pow2(subnet.HostBits()) >= 4
  {
    var size, half, quarter := Multiples(subnet);
    NextAddsOne(subnet.base);
    NextAddsOne(Next(subnet.base));
    Pow2Monotone(2, subnet.HostBits());
  }

  lemma OneHostBit(subnet: Subnet)
    requires subnet.Valid() && subnet.HostBits() == 1
    ensures Value(Next(subnet.base)) == Value(subnet.base) + 1
    ensures !subnet.Contains(Next(Next(subnet.base)))
  {
    var size, half, quarter := Multiples(subnet);
    NextAddsOne(subnet.base);
    NextAddsOne(Next(subnet.base));
    SubnetIsBlock(subnet, Next(Next(subnet.base)));
  }

  lemma NoHostBit(subnet: Subnet)
    requires subnet.Valid() && subnet.HostBits() == 0
    ensures !subnet.Contains(Next(subnet.base))
  {
    var size, half, quarter := Multiples(subnet);
    NextAddsOne(subnet.base);
    SubnetIsBlock(subnet, Next(subnet.base));
  }

  /** The bridge and the VM get addresses exactly in a subnet with at least two host bits. They are
      then the two addresses after the base: different from it, from each other and from the last
      address of the subnet. */
  lemma MasqueradeAddresses(subnet: Subnet)
    requires subnet.Valid()
    ensures var bridge := Next(subnet.base);
            subnet.Contains(bridge) && subnet.Contains(Next(bridge)) <==> subnet.HostBits() >= 2
    ensures subnet.HostBits() >= 2 ==>
              var bridge := Next(subnet.base);
              && Value(bridge) == Value(subnet.base) + 1
              && Value(Next(bridge)) == Value(subnet.base) + 2
              && Value(Next(bridge)) < Value(subnet.base) + Pow2(subnet.HostBits()) - 1
  {
    if subnet.HostBits() >= 2 {
      FirstTwoFit(subnet);
      SubnetIsBlock(subnet, Next(subnet.base));
      SubnetIsBlock(subnet, Next(Next(subnet.base)));
    } else if subnet.HostBits() == 1 {
      OneHostBit(subnet);
    } else {
      NoHostBit(subnet);
    }
  }

  // ---------------------------------------------------------------- the code

  /** The carry loop. */
  method Increment(a: array<byte>)
    modifies a
    ensures a[..] == Next(old(a[..]))
  {
    ghost var was := a[..];
    ghost var tail: seq<byte> := [];
    var j := a.Length - 1;
    assert was[..j + 1] == was && Next(was) + [] == Next(was);
    while j >= 0
      invariant -1 <= j < a.Length && a[..] == was[..j + 1] + tail
      invariant Next(was) == Next(was[..j + 1]) + tail
    {
      assert was[..j + 1][..j] == was[..j] && a[j] == was[j];
      a[j] := if a[j] == 255 then 0 else a[j] + 1;
      if a[j] > 0 {
        assert a[..] == was[..j] + [was[j] + 1] + tail;
        return;
      }
      assert a[..] == was[..j] + ([0] + tail);
      tail := [0] + tail;
      j := j - 1;
    }
  }

  /** `nextIP`: counts up in a copy and refuses to leave the subnet. */
  method NextIp(ip: array<byte>, subnet: Option<Subnet>) returns (next: Option<array<byte>>)
    ensures next.Some? <==> (subnet.Some? ==> subnet.value.Contains(Next(ip[..])))
    ensures next.Some? ==> fresh(next.value) && next.value[..] == Next(ip[..])
  {
    var copied := new byte[ip.Length](i requires 0 <= i < ip.Length reads ip => ip[i]);
    assert copied[..] == ip[..];
    Increment(copied);
    if subnet.Some? && !subnet.value.Contains(copied[..]) {
      return None;
    }
    return Some(copied);
  }

  /** The part of `setupMasqueradeNetwork` that picks the addresses. */
  method PickAddresses(subnet: Subnet) returns (addresses: Option<(seq<byte>, seq<byte>)>)
    requires subnet.Valid()
    ensures addresses.Some? <==> subnet.HostBits() >= 2
    ensures addresses.Some? ==>
              var (bridge, vm) := addresses.value;
              && subnet.Contains(bridge) && subnet.Contains(vm)
              && Value(bridge) == Value(subnet.base) + 1 && Value(vm) == Value(subnet.base) + 2
  {
    MasqueradeAddresses(subnet);
    var base := new byte[|subnet.base|](i requires 0 <= i < |subnet.base| => subnet.base[i]);
    assert base[..] == subnet.base;
    var bridge := NextIp(base, Some(subnet));
    if bridge.None? {
      return None;
    }
    var vm := NextIp(bridge.value, Some(subnet));
    if vm.None? {
      return None;
    }
    return Some((bridge.value[..], vm.value[..]));
  }

  /** `ValidateCIDR` has nothing to report: it compares the number of host bits with the number of
      addresses wanted. */
  predicate CidrAccepted(subnet: Subnet, capacity: int)
    requires subnet.ones <= 8 * |subnet.base|
  {
    subnet.HostBits() >= capacity
  }

  /** With the capacity of four that the webhook asks for, an accepted CIDR always works; one that
      works is reported as too small exactly when it has two or three host bits. */
  lemma ValidationIsSufficient(subnet: Subnet)
    requires subnet.Valid()
    ensures var works := subnet.Contains(Next(subnet.base)) && subnet.Contains(Next(Next(subnet.base)));
            && (CidrAccepted(subnet, 4) ==> works)
            && (works && !CidrAccepted(subnet, 4) <==> 2 <= subnet.HostBits() <= 3)
  {
    MasqueradeAddresses(subnet);
  }

  /** The default network, 10.0.2.0/30, is one of those. */
  lemma DefaultCidrIsReported()
    ensures var subnet := Subnet([10, 0, 2, 0], 30);
            && subnet.Valid() && !CidrAccepted(subnet, 4)
            && subnet.Contains([10, 0, 2, 1]) && subnet.Contains([10, 0, 2, 2])
  {
    var subnet := Subnet([10, 0, 2, 0], 30);
    assert forall x: byte :: Masked(x, 8) == x;
    assert ClearLow(0, 2) == ClearLow(1, 2) == ClearLow(2, 2) == 0;
    assert subnet.Valid();
    MasqueradeAddresses(subnet);
    assert Next([10, 0, 2, 0]) == [10, 0, 2, 1];
    assert Next([10, 0, 2, 1]) == [10, 0, 2, 2];
  }
}
