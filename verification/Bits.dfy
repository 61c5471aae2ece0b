/** Powers of two, bitwise operators on naturals, prefix masks and big-endian byte
    strings: the machine-level vocabulary of the address, key and packet code. */
module Bits {

  type Byte = x: int | 0 <= x < 256

  function Pow2(n: nat): (r: nat)
    ensures r > 0
  {
    if n == 0 then 1 else 2 * Pow2(n - 1)
  }

  /** `x >> k` */
  function Shr(x: nat, k: nat): nat {
    if k == 0 then x else Shr(x / 2, k - 1)
  }

  /** `x << k`, that is `x` times two to the `k`. */
  function Shl(x: nat, k: nat): nat {
    if k == 0 then x else 2 * Shl(x, k - 1)
  }

  /** The low `k` bits of `x`. */
  function Low(x: nat, k: nat): nat {
    if k == 0 then 0 else 2 * Low(x / 2, k - 1) + x % 2
  }

  lemma {:induction false} Pow2Monotone(m: nat, n: nat)
    requires m < n
    ensures 2 * Pow2(m) <= Pow2(n)
  {
    if m + 1 < n { Pow2Monotone(m, n - 1); }
  }

  lemma Pow2Nibble(n: nat)
    ensures Pow2(n + 4) == 16 * Pow2(n)
  {
    assert Pow2(n + 2) == 4 * Pow2(n);
  }

  lemma Pow2Octet(n: nat)
    ensures Pow2(n + 8) == 256 * Pow2(n)
  {
    Pow2Nibble(n);
    Pow2Nibble(n + 4);
  }

  lemma Pow2Constants()
    ensures Pow2(8) == 256 && Pow2(16) == 0x1_0000 && Pow2(32) == 0x1_0000_0000
  {
    Pow2Octet(0);
    Pow2Octet(8);
    Pow2Octet(16);
    Pow2Octet(24);
  }

  lemma {:induction false} ShlPlus(x: nat, y: nat, k: nat)
    ensures Shl(x + y, k) == Shl(x, k) + Shl(y, k)
  {
    if k > 0 { ShlPlus(x, y, k - 1); }
  }

  lemma {:induction false} ShlPow2(n: nat, k: nat)
    ensures Shl(Pow2(n), k) == Pow2(n + k)
  {
    if k > 0 { ShlPow2(n, k - 1); }
  }

  lemma {:induction false} ShlTwice(x: nat, k: nat)
    ensures Shl(2 * x, k) == Shl(x, k + 1)
  {
    if k > 0 { ShlTwice(x, k - 1); }
  }

  lemma ShlNibble(x: nat, k: nat)
    ensures Shl(x, k + 4) == 16 * Shl(x, k)
  {
    assert Shl(x, k + 2) == 4 * Shl(x, k);
  }

  /** Shifting by one octet. */
  lemma ShlOctet(x: nat, k: nat)
    requires k == 8
    ensures Shl(x, k) == 256 * x
  {
    ShlNibble(x, 0);
    ShlNibble(x, 4);
  }

  lemma {:induction false} ShlOne(k: nat)
    ensures Shl(1, k) == Pow2(k)
  {
    if k > 0 { ShlOne(k - 1); }
  }

  lemma {:induction false} ShrLow(x: nat, k: nat)
    ensures x == Shl(Shr(x, k), k) + Low(x, k) && Low(x, k) < Pow2(k)
  {
    if k > 0 { ShrLow(x / 2, k - 1); }
  }

  lemma {:induction false} ShrLowUnique(q: nat, r: nat, k: nat)
    requires r < Pow2(k)
    ensures Shr(Shl(q, k) + r, k) == q && Low(Shl(q, k) + r, k) == r
  {
    if k > 0 {
      Halve(Shl(q, k - 1), r);
      ShrLowUnique(q, r / 2, k - 1);
    }
  }

  lemma Halve(h: nat, r: nat)
    ensures (2 * h + r) / 2 == h + r / 2 && (2 * h + r) % 2 == r % 2
  {
  }

  lemma {:induction false} ShrAdd(x: nat, a: nat, b: nat)
    ensures Shr(x, a + b) == Shr(Shr(x, a), b)
  {
    if a > 0 { ShrAdd(x / 2, a - 1, b); }
  }

  lemma {:induction false} ShrBound(x: nat, n: nat, k: nat)
    requires k <= n && x < Pow2(n)
    ensures Shr(x, k) < Pow2(n - k)
  {
    if k > 0 { ShrBound(x / 2, n - 1, k - 1); }
  }

  lemma {:induction false} ShrBoundInverse(x: nat, n: nat, k: nat)
    requires k <= n && Shr(x, k) < Pow2(n - k)
    ensures x < Pow2(n)
  {
    if k > 0 { ShrBoundInverse(x / 2, n - 1, k - 1); }
  }

  /** Numbers agreeing above bit `fine` agree above every higher bit. */
  lemma ShrCoarser(x: nat, y: nat, fine: nat, coarse: nat)
    requires fine <= coarse && Shr(x, fine) == Shr(y, fine)
    ensures Shr(x, coarse) == Shr(y, coarse)
  {
    ShrAdd(x, fine, coarse - fine);
    ShrAdd(y, fine, coarse - fine);
  }

  // ----- bitwise operators --------------------------------------------------

  function BitAnd(x: nat, y: nat): nat {
    if x == 0 || y == 0 then 0
    else 2 * BitAnd(x / 2, y / 2) + (if x % 2 == 1 && y % 2 == 1 then 1 else 0)
  }

  function BitOr(x: nat, y: nat): nat {
    if x == 0 then y
    else if y == 0 then x
    else 2 * BitOr(x / 2, y / 2) + (if x % 2 == 1 || y % 2 == 1 then 1 else 0)
  }

  /** `width`-bit left shift, discarding the bits pushed out at the top. */
  function ShiftLeft(width: nat, x: nat, count: nat): nat {
    Low(Shl(x, count), width)
  }

  /** The mask selecting the top `prefix` of `width` bits, as every masking site in the
      address code spells it. */
  function PrefixMask(width: nat, prefix: nat): nat {
    if prefix == 0 then 0
    else if prefix >= width then Pow2(width) - 1
    else ShiftLeft(width, Pow2(width) - 1, width - prefix)
  }

  lemma PrefixMaskValue(width: nat, prefix: nat)
    requires prefix <= width
    ensures Pow2(width - prefix) <= Pow2(width)
    ensures PrefixMask(width, prefix) == Pow2(width) - Pow2(width - prefix)
  {
    var k := width - prefix;
    if 0 < prefix { Pow2Monotone(k, width); }
    if 0 < prefix < width {
      OnesShifted(width, k);
      ShrLowUnique(Pow2(k) - 1, Pow2(width) - Pow2(k), width);
    }
  }

  /** All ones shifted left: ones above the width, then ones down to the shift. */
  lemma OnesShifted(width: nat, k: nat)
    requires Pow2(k) <= Pow2(width)
    ensures Shl(Pow2(width) - 1, k) == Shl(Pow2(k) - 1, width) + (Pow2(width) - Pow2(k))
  {
    var a, b := Pow2(width), Pow2(k);
    ShlPlus(a - 1, 1, k);
    ShlPlus(b - 1, 1, width);
    ShlPow2(width, k);
    ShlPow2(k, width);
    ShlOne(k);
    ShlOne(width);
  }

  lemma {:induction false} AndOnes(x: nat, n: nat)
    requires x < Pow2(n)
    ensures BitAnd(x, Pow2(n) - 1) == x
    decreases n
  {
    if n > 0 && x > 0 {
      AndOnes(x / 2, n - 1);
      Halve(Pow2(n - 1) - 1, 1);
    }
  }

  lemma {:induction false} AndHighBits(x: nat, n: nat, k: nat)
    requires k <= n && x < Pow2(n) && Pow2(k) <= Pow2(n)
    ensures BitAnd(x, Pow2(n) - Pow2(k)) == x - Low(x, k)
    decreases n
  {
    if k == 0 {
      AndOnes(x, n);
    } else if k == n {
      LowIsAll(x, n);
    } else if x == 0 {
      LowIsAll(x, k);
    } else {
      Pow2Monotone(k - 1, n - 1);
      AndHighBits(x / 2, n - 1, k - 1);
      Halve(Pow2(n - 1) - Pow2(k - 1), 0);
    }
  }

  lemma {:induction false} LowIsAll(x: nat, n: nat)
    requires x < Pow2(n)
    ensures Low(x, n) == x
  {
    if n > 0 { LowIsAll(x / 2, n - 1); }
  }

  /** Masking clears exactly the bits below the prefix. */
  lemma MaskClearsLowBits(x: nat, width: nat, prefix: nat)
    requires prefix <= width && x < Pow2(width)
    ensures BitAnd(x, PrefixMask(width, prefix)) == x - Low(x, width - prefix)
                                                 == Shl(Shr(x, width - prefix), width - prefix)
  {
    PrefixMaskValue(width, prefix);
    AndHighBits(x, width, width - prefix);
    ShrLow(x, width - prefix);
  }

  lemma {:induction false} OrFreeBit(x: nat, k: nat)
    requires Low(x, k + 1) == 0
    ensures BitOr(x, Pow2(k)) == x + Pow2(k)
    decreases k
  {
    if x != 0 {
      if k == 0 {
        assert BitOr(x / 2, 0) == x / 2;
      } else {
        OrFreeBit(x / 2, k - 1);
      }
    }
  }

  // ----- big-endian byte strings ---------------------------------------------

  function Zeros(n: nat): seq<Byte> { seq(n, _ => 0) }

  function FromBe(bs: seq<Byte>): nat {
    if bs == [] then 0 else 256 * FromBe(bs[..|bs| - 1]) + bs[|bs| - 1]
  }

  /** The low `n` bytes of `x`, most significant first. */
  function ToBe(x: nat, n: nat): (bs: seq<Byte>)
    ensures |bs| == n
  {
    if n == 0 then [] else ToBe(x / 256, n - 1) + [x % 256]
  }

  lemma Pow2Byte(n: nat)
    ensures Pow2(8 * (n + 1)) == 256 * Pow2(8 * n)
  {
    Pow2Octet(8 * n);
  }

  lemma {:induction false} FromBeBound(bs: seq<Byte>)
    ensures FromBe(bs) < Pow2(8 * |bs|)
  {
    if bs != [] {
      FromBeBound(bs[..|bs| - 1]);
      Pow2Byte(|bs| - 1);
    }
  }

  lemma {:induction false} BeRoundTrip(x: nat, n: nat)
    requires x < Pow2(8 * n)
    ensures FromBe(ToBe(x, n)) == x
  {
    if n > 0 {
      Pow2Byte(n - 1);
      BeRoundTrip(x / 256, n - 1);
      assert ToBe(x, n)[..n - 1] == ToBe(x / 256, n - 1);
    }
  }

  lemma SplitOctet(a: nat, b: Byte)
    ensures (256 * a + b) / 256 == a && (256 * a + b) % 256 == b
  {
  }

  lemma {:induction false} BeRoundTripBytes(bs: seq<Byte>)
    ensures ToBe(FromBe(bs), |bs|) == bs
  {
    if bs != [] {
      var n := |bs| - 1;
      BeRoundTripBytes(bs[..n]);
      SplitOctet(FromBe(bs[..n]), bs[n]);
      assert bs == bs[..n] + [bs[n]];
    }
  }

  /** Byte strings of one length are equal as soon as their values are. */
  lemma FromBeInjective(a: seq<Byte>, b: seq<Byte>)
    requires |a| == |b| && FromBe(a) == FromBe(b)
    ensures a == b
  {
    BeRoundTripBytes(a);
    BeRoundTripBytes(b);
  }

  lemma FromBeLast(bs: seq<Byte>)
    requires bs != []
    ensures Shr(FromBe(bs), 8) == FromBe(bs[..|bs| - 1]) && Low(FromBe(bs), 8) == bs[|bs| - 1]
  {
    ShlOctet(FromBe(bs[..|bs| - 1]), 8);
    Pow2Octet(0);
    ShrLowUnique(FromBe(bs[..|bs| - 1]), bs[|bs| - 1], 8);
  }

  /** Dropping trailing bytes is a right shift. */
  lemma {:induction false} FromBePrefix(bs: seq<Byte>, n: nat)
    requires n <= |bs|
    ensures FromBe(bs[..n]) == Shr(FromBe(bs), 8 * (|bs| - n))
  {
    if n == |bs| {
      assert bs[..n] == bs;
    } else {
      var m := |bs| - 1;
      FromBePrefix(bs[..m], n);
      assert bs[..m][..n] == bs[..n];
      ShrAdd(FromBe(bs), 8, 8 * (m - n));
      FromBeLast(bs);
    }
  }

  /** The byte order RocksDB iterates in. */
  predicate LexLess(a: seq<Byte>, b: seq<Byte>) {
    |b| > 0 && (|a| == 0 || a[0] < b[0] || (a[0] == b[0] && LexLess(a[1..], b[1..])))
  }

  lemma {:induction false} LexLessSnoc(a: seq<Byte>, b: seq<Byte>, x: Byte, y: Byte)
    requires |a| == |b|
    ensures LexLess(a + [x], b + [y]) <==> LexLess(a, b) || (a == b && x < y)
  {
    if a != [] {
      assert (a + [x])[1..] == a[1..] + [x] && (b + [y])[1..] == b[1..] + [y];
      LexLessSnoc(a[1..], b[1..], x, y);
      assert a == b <==> a[0] == b[0] && a[1..] == b[1..];
    }
  }

  /** Big-endian encoding turns numeric order into byte order. */
  lemma {:induction false} LexLessIsNumeric(a: seq<Byte>, b: seq<Byte>)
    requires |a| == |b|
    ensures LexLess(a, b) <==> FromBe(a) < FromBe(b)
  {
    if a != [] {
      var n := |a| - 1;
      LexLessIsNumeric(a[..n], b[..n]);
      LexLessSnoc(a[..n], b[..n], a[n], b[n]);
      assert a == a[..n] + [a[n]] && b == b[..n] + [b[n]];
      if FromBe(a[..n]) == FromBe(b[..n]) { FromBeInjective(a[..n], b[..n]); }
    }
  }
}
