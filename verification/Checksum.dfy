/** The Internet checksum (section 1 of RFC 1071) as the packet builder computes it. */
module Checksum {
  import opened Bits

  const MAX_U32 := 0xffff_ffff
  const UDP: Byte := 17

  function Word(high: Byte, low: Byte): nat { 256 * high + low }

  /** The sum of the big-endian 16-bit words; an odd last byte is padded with zero. */
  function WordSum(data: seq<Byte>): nat {
    if data == [] then 0
    else if |data| == 1 then Word(data[0], 0)
    else Word(data[0], data[1]) + WordSum(data[2..])
  }

  /** The 16-bit ones'-complement value of a sum: 0 only for 0, congruent modulo 65535. */
  function Residue(sum: nat): (r: nat)
    ensures r <= 65535 && (r == 0 <==> sum == 0) && r % 65535 == sum % 65535
  {
    if sum == 0 then 0 else (sum - 1) % 65535 + 1
  }

  function Complement(r: nat): nat
    requires r <= 65535
  {
    65535 - r
  }

  // ----- adding up ---------------------------------------------------------------------

  /** The additions of the two loops; `start` is what the pseudo header already gave. */
  method AddWords(data: seq<Byte>, start: nat) returns (sum: nat)
    requires start + WordSum(data) <= MAX_U32
    ensures sum == start + WordSum(data) <= MAX_U32
  {
    sum := start;
    var i := 0;
    while i + 2 <= |data|
      invariant 0 <= i <= |data| && i % 2 == 0
      invariant sum + WordSum(data[i..]) == start + WordSum(data)
    {
      assert data[i..][2..] == data[i + 2..];
      sum := sum + Word(data[i], data[i + 1]);
      i := i + 2;
    }
    if i < |data| {
      sum := sum + Word(data[i], 0);
    }
  }

  /** No input of at most 131074 bytes overflows the 32-bit accumulator. */
  lemma {:induction false} SumFits(data: seq<Byte>)
    ensures WordSum(data) <= 65535 * ((|data| + 1) / 2)
    ensures |data| <= 131074 ==> WordSum(data) <= MAX_U32
  {
    if |data| > 1 {
      SumFits(data[2..]);
    }
  }

  function Ones(n: nat): (s: seq<Byte>)
    ensures |s| == n
  {
    if n == 0 then [] else [255] + Ones(n - 1)
  }

  /** One byte more can overflow it. */
  lemma SumCanOverflow(n: nat)
    requires n >= 131075
    ensures WordSum(Ones(n)) > MAX_U32
  {
    OnesSum(n);
  }

  lemma {:induction false} OnesSum(n: nat)
    ensures WordSum(Ones(n)) == 65535 * (n / 2) + if n % 2 == 1 then 65280 else 0
  {
    if n > 1 {
      assert Ones(n)[2..] == Ones(n - 1)[1..] == Ones(n - 2);
      assert Ones(n)[1] == Ones(n - 1)[0] == 255;
      OnesSum(n - 2);
    }
  }

  lemma {:induction false} WordSumConcat(a: seq<Byte>, b: seq<Byte>)
    requires |a| % 2 == 0
    ensures WordSum(a + b) == WordSum(a) + WordSum(b)
  {
    if a == [] {
      assert a + b == b;
    } else {
      assert (a + b)[2..] == a[2..] + b;
      WordSumConcat(a[2..], b);
    }
  }

  /** The words are big-endian, and an odd last byte counts as if a zero followed it. */
  lemma WordSumOfBytes(data: seq<Byte>, high: Byte, low: Byte)
    requires |data| % 2 == 0
    ensures WordSum(data + [high, low]) == WordSum(data) + 256 * (high as nat) + low
    ensures WordSum(data + [high]) == WordSum(data + [high, 0])
  {
    WordSumConcat(data, [high, low]);
    WordSumConcat(data, [high, 0]);
    WordSumConcat(data, [high]);
    assert [high, low][2..] == [] && [high, 0][2..] == [];
  }

  // ----- folding -----------------------------------------------------------------------

  /** Folding the carries in ends with the ones'-complement value. */
  method Fold(sum: nat) returns (folded: nat)
    ensures folded == Residue(sum)
  {
    folded := sum;
    while folded / 65536 > 0
      invariant Residue(folded) == Residue(sum)
      decreases folded
    {
      FoldOnce(folded);
      folded := folded % 65536 + folded / 65536;
    }
    SmallResidue(folded);
  }

  lemma FoldOnce(sum: nat)
    requires sum >= 65536
    ensures Residue(sum % 65536 + sum / 65536) == Residue(sum)
    ensures sum % 65536 + sum / 65536 < sum
  {
    var q := sum / 65536;
    assert sum % 65536 + q == sum - 65535 * q;
    Shift(sum - 65535 * q - 1, q);
  }

  lemma SmallResidue(sum: nat)
    requires sum <= 65535
    ensures Residue(sum) == sum
  {
  }

  lemma Shift(a: nat, q: nat)
    ensures (a + 65535 * q) % 65535 == a % 65535
  {
  }

  /** RFC 1071: data whose checksum word was zero verifies once the checksum is filled in. */
  lemma FilledInVerifies(sum: nat)
    ensures Residue(sum + Complement(Residue(sum))) == 65535
    ensures Residue(sum) == 65535 ==> Residue(sum + 65535) == 65535
  {
    var r := Residue(sum);
    assert (sum + 65535 - r) % 65535 == 0;
    assert Residue(sum) == 65535 ==> (sum + 65535) % 65535 == 0;
  }

  /** The checksum of a segment that sums to `sum` without it; UDP has no checksum 0. */
  function Sealing(sum: nat, proto: Byte): (c: nat)
    ensures c <= 65535 && (proto == UDP ==> c != 0)
  {
    var c := Complement(Residue(sum));
    if c == 0 && proto == UDP then 65535 else c
  }

  lemma Seals(sum: nat, proto: Byte)
    ensures Residue(sum + Sealing(sum, proto)) == 65535
  {
    FilledInVerifies(sum);
  }

  method InternetChecksum(data: seq<Byte>) returns (checksum: nat)
    requires WordSum(data) <= MAX_U32
    ensures checksum == Complement(Residue(WordSum(data)))
  {
    var sum := AddWords(data, 0);
    sum := Fold(sum);
    checksum := 65535 - sum;
  }

  // ----- the transport checksum --------------------------------------------------------

  function PseudoSum(src: seq<Byte>, dst: seq<Byte>, proto: Byte, length: nat): nat
    requires |src| == |dst| == 4
  {
    Word(src[0], src[1]) + Word(src[2], src[3]) + Word(dst[0], dst[1]) + Word(dst[2], dst[3])
    + proto + length % 65536
  }

  /** A segment verifies when pseudo header and segment, checksum included, sum to ones. */
  predicate Verifies(src: seq<Byte>, dst: seq<Byte>, proto: Byte, segment: seq<Byte>)
    requires |src| == |dst| == 4
  {
    Residue(PseudoSum(src, dst, proto, |segment|) + WordSum(segment)) == 65535
  }

  method L4Checksum(src: seq<Byte>, dst: seq<Byte>, proto: Byte, data: seq<Byte>) returns (checksum: nat)
    requires |src| == |dst| == 4 && PseudoSum(src, dst, proto, |data|) + WordSum(data) <= MAX_U32
    ensures checksum == Sealing(PseudoSum(src, dst, proto, |data|) + WordSum(data), proto)
  {
    var sum := AddWords(data, PseudoSum(src, dst, proto, |data|));
    sum := Fold(sum);
    checksum := 65535 - sum;
    if checksum == 0 && proto == UDP {
      checksum := 65535;
    }
  }
}
