/** CIDR blocks as sets of addresses, and punching single addresses out of them. */
module Cidr {
  import opened Bits
  import opened Lists

  /** A parsed network: the written address may still carry host bits. */
  datatype Net = Net(addr: nat, prefix: nat)

  predicate ValidNet(width: nat, net: Net) {
    net.prefix <= width && net.addr < Pow2(width)
  }

  /** The network address: the written address with its host bits masked off. */
  function Network(width: nat, net: Net): nat {
    BitAnd(net.addr, PrefixMask(width, net.prefix))
  }

  predicate Canonical(width: nat, net: Net) {
    net.prefix <= width && Network(width, net) == net.addr
  }

  /** Address `x` agrees with the network on its first `prefix` bits. */
  predicate Contains(width: nat, net: Net, x: nat) {
    net.prefix <= width && Shr(x, width - net.prefix) == Shr(net.addr, width - net.prefix)
  }

  predicate ValidNets(width: nat, nets: seq<Net>) {
    forall n <- nets :: ValidNet(width, n)
  }

  predicate Covers(width: nat, nets: seq<Net>, x: nat) {
    exists n :: n in nets && Contains(width, n, x)
  }

  ghost predicate PairwiseDisjoint(width: nat, nets: seq<Net>) {
    forall i, j, x: nat :: 0 <= i < j < |nets| && Contains(width, nets[i], x) ==> !Contains(width, nets[j], x)
  }

  lemma NetworkIsPrefix(width: nat, net: Net)
    requires ValidNet(width, net)
    ensures var k := width - net.prefix;
            Network(width, net) == Shl(Shr(net.addr, k), k) < Pow2(width)
            && Shr(Network(width, net), k) == Shr(net.addr, k) && Low(Network(width, net), k) == 0
  {
    var k := width - net.prefix;
    MaskClearsLowBits(net.addr, width, net.prefix);
    ShrLowUnique(Shr(net.addr, k), 0, k);
  }

  /** A block is the interval of 2^(width-prefix) addresses starting at its network address. */
  lemma ContainsIsInterval(width: nat, net: Net, x: nat)
    requires ValidNet(width, net)
    ensures Contains(width, net, x) <==>
            Network(width, net) <= x < Network(width, net) + Pow2(width - net.prefix)
  {
    var k := width - net.prefix;
    NetworkIsPrefix(width, net);
    ShrLow(x, k);
    var q := Shr(net.addr, k);
    if Network(width, net) <= x < Network(width, net) + Pow2(k) {
      ShrLowUnique(q, x - Shl(q, k), k);
    }
  }

  function LowerHalf(width: nat, net: Net): Net {
    Net(Network(width, net), net.prefix + 1)
  }

  function UpperHalf(width: nat, net: Net): Net
    requires net.prefix < width
  {
    Net(BitOr(Network(width, net), Pow2(width - 1 - net.prefix)), net.prefix + 1)
  }

  lemma HalvesShift(width: nat, net: Net)
    requires ValidNet(width, net) && net.prefix < width
    ensures var k := width - 1 - net.prefix; var lo, hi := LowerHalf(width, net), UpperHalf(width, net);
            ValidNet(width, lo) && ValidNet(width, hi)
            && Shr(lo.addr, k) == 2 * Shr(net.addr, k + 1) && Shr(hi.addr, k) == 2 * Shr(net.addr, k + 1) + 1
            && Low(lo.addr, k) == 0 && Low(hi.addr, k) == 0
  {
    var k := width - 1 - net.prefix;
    var base, q := Network(width, net), Shr(net.addr, k + 1);
    NetworkIsPrefix(width, net);
    OrFreeBit(base, k);
    ShiftedUp(q, k);
    ShrBound(net.addr, width, k + 1);
    ShiftedBack(width, base, 2 * q, k);
    ShiftedBack(width, base + Pow2(k), 2 * q + 1, k);
  }

  lemma ShiftedBack(width: nat, addr: nat, q: nat, k: nat)
    requires k <= width && addr == Shl(q, k) && q < Pow2(width - k)
    ensures addr < Pow2(width) && Shr(addr, k) == q && Low(addr, k) == 0
  {
    ShrLowUnique(q, 0, k);
    ShrBoundInverse(addr, width, k);
  }

  lemma ShiftedUp(q: nat, k: nat)
    ensures Shl(q, k + 1) == Shl(2 * q, k)
    ensures Shl(q, k + 1) + Pow2(k) == Shl(2 * q + 1, k)
  {
    ShlTwice(q, k);
    ShlPlus(2 * q, 1, k);
    ShlOne(k);
  }

  /** Splitting a block gives two canonical blocks that partition it. */
  lemma HalvesPartition(width: nat, net: Net)
    requires ValidNet(width, net) && net.prefix < width
    ensures var lo, hi := LowerHalf(width, net), UpperHalf(width, net);
            ValidNet(width, lo) && ValidNet(width, hi) && Canonical(width, lo) && Canonical(width, hi)
            && (forall x: nat :: Contains(width, lo, x) ==> !Contains(width, hi, x))
            && (forall x: nat :: Contains(width, net, x) <==> Contains(width, lo, x) || Contains(width, hi, x))
  {
    var k := width - 1 - net.prefix;
    var lo, hi := LowerHalf(width, net), UpperHalf(width, net);
    HalvesShift(width, net);
    MaskClearsLowBits(lo.addr, width, lo.prefix);
    MaskClearsLowBits(hi.addr, width, hi.prefix);
    forall x: nat
      ensures Contains(width, net, x) <==> Contains(width, lo, x) || Contains(width, hi, x)
    {
      ShrAdd(x, k, 1);
      assert Shr(Shr(x, k), 1) == Shr(x, k) / 2;
    }
  }

  /** `exclude_v4_from_cidr` (width 32) and `exclude_v6_from_cidr` (width 128). */
  method Exclude(width: nat, net: Net, target: nat) returns (result: seq<Net>)
    requires ValidNet(width, net) && target < Pow2(width)
    ensures ValidNets(width, result) && PairwiseDisjoint(width, result)
    ensures forall x: nat :: Covers(width, result, x) <==> Contains(width, net, x) && x != target
    ensures Contains(width, net, target) ==> |result| == width - net.prefix
    ensures Contains(width, net, target) ==> forall n <- result :: Canonical(width, n) && n.prefix > net.prefix
    ensures !Contains(width, net, target) ==> result == [net]
  {
    if !Contains(width, net, target) {
      return [net];
    }
    result := [];
    var current := net;
    while current.prefix < width
      invariant ValidNet(width, current) && ValidNets(width, result) && net.prefix <= current.prefix
      invariant |result| == current.prefix - net.prefix
      invariant Contains(width, current, target)
      invariant forall n <- result :: Canonical(width, n) && n.prefix > net.prefix
      invariant PairwiseDisjoint(width, result)
      invariant forall x: nat :: Covers(width, result, x) <==> Contains(width, net, x) && !Contains(width, current, x)
      invariant forall x: nat :: Contains(width, current, x) ==> Contains(width, net, x)
      decreases width - current.prefix
    {
      var half0, half1 := LowerHalf(width, current), UpperHalf(width, current);
      HalvesPartition(width, current);
      ghost var before := result;
      if Contains(width, half0, target) {
        result := result + [half1];
        current := half0;
      } else {
        result := result + [half0];
        current := half1;
      }
      CoversAppend(width, before, result[|before|]);
    }
    assert forall x: nat :: Contains(width, current, x) <==> x == target;
  }

  lemma CoversAppend(width: nat, nets: seq<Net>, net: Net)
    ensures forall x: nat :: Covers(width, nets + [net], x) <==> Covers(width, nets, x) || Contains(width, net, x)
  {
    forall x: nat
      ensures Covers(width, nets + [net], x) <==> Covers(width, nets, x) || Contains(width, net, x)
    {
      assert net in nets + [net];
      assert forall n :: n in nets + [net] <==> n in nets || n == net;
    }
  }

  // ----- minimality -----------------------------------------------------------

  /** `a` with bit `m` inverted. */
  function Flip(a: nat, m: nat): nat {
    if m == 0 then (if a % 2 == 0 then a + 1 else a - 1) else 2 * Flip(a / 2, m - 1) + a % 2
  }

  lemma {:induction false} FlipBound(a: nat, m: nat, width: nat)
    requires m < width && a < Pow2(width)
    ensures Flip(a, m) < Pow2(width)
  {
    if m > 0 { FlipBound(a / 2, m - 1, width - 1); }
  }

  lemma {:induction false} FlipShift(a: nat, m: nat)
    ensures Shr(Flip(a, m), m) != Shr(a, m) && Shr(Flip(a, m), m + 1) == Shr(a, m + 1)
  {
    if m > 0 {
      FlipShift(a / 2, m - 1);
      assert Flip(a, m) / 2 == Flip(a / 2, m - 1);
    }
  }

  /** A block holding two single-bit neighbours of `a` holds `a` itself. */
  lemma NeighboursSpanCentre(width: nat, net: Net, a: nat, m: nat, n: nat)
    requires ValidNet(width, net) && a < Pow2(width) && m < n < width
    requires Contains(width, net, Flip(a, m)) && Contains(width, net, Flip(a, n))
    ensures Contains(width, net, a)
  {
    var k := width - net.prefix;
    FlipShift(a, m);
    FlipShift(a, n);
    ShrCoarser(Flip(a, m), a, m + 1, n);
    if k <= n { ShrCoarser(Flip(a, m), Flip(a, n), k, n); }
    ShrCoarser(Flip(a, n), a, n + 1, k);
  }

  lemma {:induction false} PigeonHole(idx: seq<nat>, bound: nat)
    requires NoDuplicates(idx) && forall i :: 0 <= i < |idx| ==> idx[i] < bound
    ensures |idx| <= bound
    decreases bound
  {
    if idx != [] {
      assert idx[0] < bound;
      if bound - 1 in idx {
        var i :| 0 <= i < |idx| && idx[i] == bound - 1;
        var rest := WithoutOne(idx, i);
        PigeonHole(rest, bound - 1);
      } else {
        PigeonHole(idx, bound - 1);
      }
    }
  }

  /** No list of CIDR blocks covering the same addresses is shorter than what `Exclude` returns. */
  lemma ExclusionIsMinimal(width: nat, net: Net, target: nat, other: seq<Net>)
    requires ValidNet(width, net) && target < Pow2(width) && Contains(width, net, target)
    requires ValidNets(width, other)
    requires forall x: nat :: Covers(width, other, x) <==> Contains(width, net, x) && x != target
    ensures |other| >= width - net.prefix
  {
    var idx: seq<nat> := [];
    while |idx| < width - net.prefix
      invariant |idx| <= width - net.prefix
      invariant forall m :: 0 <= m < |idx| ==> idx[m] < |other| && Contains(width, other[idx[m]], Flip(target, m))
    {
      var m := |idx|;
      FlipShift(target, m);
      ShrCoarser(Flip(target, m), target, m + 1, width - net.prefix);
      assert Covers(width, other, Flip(target, m));
      var n :| n in other && Contains(width, n, Flip(target, m));
      var i :| 0 <= i < |other| && other[i] == n;
      idx := idx + [i];
    }
    assert !Covers(width, other, target);
    assert forall i :: 0 <= i < |other| ==> !Contains(width, other[i], target);
    forall m, n | 0 <= m < n < |idx| ensures idx[m] != idx[n] {
      if idx[m] == idx[n] { NeighboursSpanCentre(width, other[idx[m]], target, m, n); }
    }
    PigeonHole(idx, |other|);
  }

  // ----- a list of ignored addresses --------------------------------------------

  lemma CoversConcat(width: nat, a: seq<Net>, b: seq<Net>)
    ensures forall x: nat :: Covers(width, a + b, x) <==> Covers(width, a, x) || Covers(width, b, x)
  {
    assert forall n :: n in a + b <==> n in a || n in b;
  }

  lemma DisjointConcat(width: nat, a: seq<Net>, b: seq<Net>)
    requires PairwiseDisjoint(width, a) && PairwiseDisjoint(width, b)
    requires forall x: nat :: Covers(width, a, x) ==> !Covers(width, b, x)
    ensures PairwiseDisjoint(width, a + b)
  {
    forall i, j, x: nat | 0 <= i < j < |a + b| && Contains(width, (a + b)[i], x)
      ensures !Contains(width, (a + b)[j], x)
    {
      if i < |a| <= j {
        assert a[i] in a && Covers(width, a, x);
        assert (a + b)[j] in b;
      }
    }
  }

  /** One pass of the ignore loop: every current block with `target` taken out of it. */
  method ExcludeFromAll(width: nat, nets: seq<Net>, target: nat) returns (result: seq<Net>)
    requires ValidNets(width, nets) && PairwiseDisjoint(width, nets) && target < Pow2(width)
    ensures ValidNets(width, result) && PairwiseDisjoint(width, result)
    ensures forall x: nat :: Covers(width, result, x) <==> Covers(width, nets, x) && x != target
  {
    result := [];
    for i := 0 to |nets|
      invariant ValidNets(width, result) && PairwiseDisjoint(width, result)
      invariant forall x: nat :: Covers(width, result, x) <==> Covers(width, nets[..i], x) && x != target
    {
      var part := Exclude(width, nets[i], target);
      assert nets[..i + 1] == nets[..i] + [nets[i]];
      CoversAppend(width, nets[..i], nets[i]);
      CoversConcat(width, result, part);
      forall x: nat | Covers(width, result, x) ensures !Covers(width, part, x) {
        var n :| n in nets[..i] && Contains(width, n, x);
      }
      DisjointConcat(width, result, part);
      result := result + part;
    }
    assert nets[..|nets|] == nets;
  }

  /** The whole ignore loop over one network. */
  method ExcludeEach(width: nat, net: Net, ignored: seq<nat>) returns (subnets: seq<Net>, matched: bool)
    requires ValidNet(width, net) && forall a <- ignored :: a < Pow2(width)
    ensures ValidNets(width, subnets) && PairwiseDisjoint(width, subnets)
    ensures forall x: nat :: Covers(width, subnets, x) <==> Contains(width, net, x) && x !in ignored
    ensures !matched ==> subnets == [net]
  {
    matched := false;
    subnets := [net];
    for i := 0 to |ignored|
      invariant ValidNets(width, subnets) && PairwiseDisjoint(width, subnets)
      invariant forall x: nat :: Covers(width, subnets, x) <==> Contains(width, net, x) && x !in ignored[..i]
      invariant !matched ==> subnets == [net]
    {
      if Contains(width, net, ignored[i]) {
        assert ignored[i] in ignored;
        matched := true;
        subnets := ExcludeFromAll(width, subnets, ignored[i]);
      }
      assert ignored[..i + 1] == ignored[..i] + [ignored[i]];
    }
    assert ignored[..|ignored|] == ignored;
  }
}
