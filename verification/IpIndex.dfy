/** Reverse lookup of an address: the in-RAM containment scan against probing the on-disk
    index once per prefix length. */
module IpIndex {
  import opened Bits
  import opened Cidr
  import opened Targets
  import opened Keys
  import opened Lists

  // ----- masking and containment as the registry computes them ------------------

  predicate PrefixContainsV4(prefix: nat, net: seq<Byte>, ip: seq<Byte>) {
    var mask := PrefixMask(8 * |ip|, prefix);
    BitAnd(FromBe(net), mask) == BitAnd(FromBe(ip), mask)
  }

  function MaskV4(prefix: nat, ip: seq<Byte>): seq<Byte> {
    ToBe(BitAnd(FromBe(ip), PrefixMask(8 * |ip|, prefix)), |ip|)
  }

  /** `mask_v6`, octet by octet. When `prefix` is a multiple of 8 below 128, the octet at
      `prefix / 8` is left as it is. */
  function MaskV6(prefix: nat, ip: seq<Byte>): (out: seq<Byte>)
    requires prefix <= 8 * |ip|
    ensures |out| == |ip|
  {
    var full := prefix / 8;
    if full < |ip| then ip[..full] + [KeptOctet(prefix % 8, ip[full])] + Zeros(|ip| - 1 - full) else ip
  }

  function KeptOctet(rem: nat, b: Byte): Byte
    requires rem < 8
  {
    if rem > 0 then MaskOctet(rem, b) else b
  }

  function MaskOctet(rem: nat, b: Byte): (m: Byte)
    requires rem <= 8
    ensures m == Shl(Shr(b, 8 - rem), 8 - rem)
  {
    Pow2Constants();
    MaskClearsLowBits(b, 8, rem);
    BitAnd(b, PrefixMask(8, rem))
  }

  method MaskV6InPlace(prefix: nat, out: array<Byte>)
    requires prefix <= 128 && out.Length == 16
    modifies out
    ensures out[..] == MaskV6(prefix, old(out[..]))
  {
    var full, rem := prefix / 8, prefix % 8;
    if full < 16 {
      if rem > 0 {
        out[full] := MaskOctet(rem, out[full]);
      }
      for i := full + 1 to 16
        invariant out[..full] == old(out[..full]) && out[full] == KeptOctet(rem, old(out[full]))
        invariant forall j :: full < j < i ==> out[j] == 0
      {
        out[i] := 0;
      }
    }
  }

  lemma {:induction false} ShrConcat(a: nat, n: nat, b: nat, j: nat)
    requires j <= n
    ensures Shr(Shl(a, n) + b, j) == Shl(a, n - j) + Shr(b, j)
  {
    if j > 0 {
      Halve(Shl(a, n - 1), b);
      ShrConcat(a, n - 1, b / 2, j - 1);
    }
  }

  /** The leading `prefix` bits of an IPv6 address, seen octet by octet. */
  lemma LeadingBits(ip: seq<Byte>, prefix: nat)
    requires prefix < 8 * |ip|
    ensures var full, rem := prefix / 8, prefix % 8;
            Shr(FromBe(ip), 8 * |ip| - prefix) == Shl(FromBe(ip[..full]), rem) + Shr(ip[full], 8 - rem)
            && Shr(ip[full], 8 - rem) < Pow2(rem)
  {
    var full, rem := prefix / 8, prefix % 8;
    var head := ip[..full + 1];
    LeadingOctets(ip, full, rem, 8 * |ip| - prefix);
    HeadBits(head, rem);
    assert head[..full] == ip[..full] && head[full] == ip[full];
  }

  /** Cutting `k` bits is cutting whole octets, then the rest of one. */
  lemma LeadingOctets(ip: seq<Byte>, full: nat, rem: nat, k: nat)
    requires full < |ip| && rem < 8 && k == 8 * (|ip| - 1 - full) + (8 - rem)
    ensures Shr(FromBe(ip), k) == Shr(FromBe(ip[..full + 1]), 8 - rem)
  {
    FromBePrefix(ip, full + 1);
    ShrAdd(FromBe(ip), 8 * (|ip| - 1 - full), 8 - rem);
  }

  /** The same for an address that ends in the octet cut by the prefix. */
  lemma HeadBits(head: seq<Byte>, rem: nat)
    requires head != [] && rem < 8
    ensures var n := |head| - 1;
            Shr(FromBe(head), 8 - rem) == Shl(FromBe(head[..n]), rem) + Shr(head[n], 8 - rem)
            && Shr(head[n], 8 - rem) < Pow2(rem)
  {
    var n := |head| - 1;
    FromBeStep(head);
    OctetBits(FromBe(head), FromBe(head[..n]), head[n], rem, 8);
  }

  lemma FromBeStep(bs: seq<Byte>)
    requires bs != []
    ensures FromBe(bs) == 256 * FromBe(bs[..|bs| - 1]) + bs[|bs| - 1]
  {
  }

  lemma OctetBits(x: nat, h: nat, b: Byte, rem: nat, eight: nat)
    requires rem < eight == 8 && x == 256 * h + b
    ensures Shr(x, eight - rem) == Shl(h, rem) + Shr(b, eight - rem) && Shr(b, eight - rem) < Pow2(rem)
  {
    ShlOctet(h, eight);
    ShrConcat(h, eight, b, eight - rem);
    Pow2Constants();
    ShrBound(b, eight, eight - rem);
  }

  lemma SameSum(a: nat, b: nat, c: nat, d: nat, k: nat)
    requires b < Pow2(k) && d < Pow2(k)
    ensures Shl(a, k) + b == Shl(c, k) + d <==> a == c && b == d
  {
    ShrLowUnique(a, b, k);
    ShrLowUnique(c, d, k);
  }

  method PrefixContainsV6(prefix: nat, net: seq<Byte>, ip: seq<Byte>) returns (inside: bool)
    requires prefix <= 8 * |ip| && |net| == |ip|
    ensures inside <==> Shr(FromBe(net), 8 * |ip| - prefix) == Shr(FromBe(ip), 8 * |ip| - prefix)
  {
    var full, rem := prefix / 8, prefix % 8;
    if full == |ip| {
      if FromBe(net) == FromBe(ip) { FromBeInjective(net, ip); }
    } else {
      LeadingBits(net, prefix);
      LeadingBits(ip, prefix);
      SameSum(FromBe(net[..full]), Shr(net[full], 8 - rem), FromBe(ip[..full]), Shr(ip[full], 8 - rem), rem);
      if FromBe(net[..full]) == FromBe(ip[..full]) { FromBeInjective(net[..full], ip[..full]); }
    }
    for i := 0 to full
      invariant net[..i] == ip[..i]
    {
      if net[i] != ip[i] {
        return false;
      }
    }
    if rem > 0 && full < |ip| {
      if MaskOctet(rem, net[full]) != MaskOctet(rem, ip[full]) {
        return false;
      }
      SameMultiple(Shr(net[full], 8 - rem), Shr(ip[full], 8 - rem), 8 - rem);
    } else if full < |ip| {
      assert Shr(net[full], 8) < Pow2(0) && Shr(ip[full], 8) < Pow2(0);
    } else {
      assert net[..|ip|] == net && ip[..|ip|] == ip;
    }
    return true;
  }

  lemma SameMultiple(a: nat, b: nat, k: nat)
    requires Shl(a, k) == Shl(b, k)
    ensures a == b
  {
    ShrLowUnique(a, 0, k);
    ShrLowUnique(b, 0, k);
  }

  /** What masking to `prefix` bits should give, octet by octet. */
  function NetworkOctets(prefix: nat, ip: seq<Byte>): (out: seq<Byte>)
    requires prefix <= 8 * |ip|
    ensures |out| == |ip|
  {
    var full := prefix / 8;
    if full < |ip| then ip[..full] + [MaskOctet(prefix % 8, ip[full])] + Zeros(|ip| - 1 - full) else ip
  }

  lemma {:induction false} LowSplit(x: nat, a: nat, b: nat)
    requires Low(x, a) == 0 && Low(Shr(x, a), b) == 0
    ensures Low(x, a + b) == 0
  {
    if a > 0 { LowSplit(x / 2, a - 1, b); }
  }

  lemma {:induction false} LowConcat(a: nat, n: nat, b: nat, j: nat)
    requires j <= n
    ensures Low(Shl(a, n) + b, j) == Low(b, j)
  {
    if j > 0 {
      Halve(Shl(a, n - 1), b);
      LowConcat(a, n - 1, b / 2, j - 1);
    }
  }

  lemma {:induction false} TrailingZeros(bs: seq<Byte>, n: nat)
    requires n <= |bs| && forall i :: n <= i < |bs| ==> bs[i] == 0
    ensures Low(FromBe(bs), 8 * (|bs| - n)) == 0
  {
    if n < |bs| {
      var m := |bs| - 1;
      TrailingZeros(bs[..m], n);
      FromBeLast(bs);
      LowSplit(FromBe(bs), 8, 8 * (m - n));
    }
  }

  lemma NetworkOctetsHigh(prefix: nat, ip: seq<Byte>)
    requires prefix < 8 * |ip|
    ensures Shr(FromBe(NetworkOctets(prefix, ip)), 8 * |ip| - prefix) == Shr(FromBe(ip), 8 * |ip| - prefix)
  {
    var full, rem, bs := prefix / 8, prefix % 8, NetworkOctets(prefix, ip);
    MaskedOctet(rem, ip[full]);
    assert bs[..full] == ip[..full] && bs[full] == MaskOctet(rem, ip[full]);
    LeadingBits(ip, prefix);
    LeadingBits(bs, prefix);
  }

  lemma NetworkOctetsValue(prefix: nat, ip: seq<Byte>)
    requires prefix <= 8 * |ip|
    ensures FromBe(NetworkOctets(prefix, ip)) == Network(8 * |ip|, Net(FromBe(ip), prefix))
  {
    FromBeBound(ip);
    NetworkIsPrefix(8 * |ip|, Net(FromBe(ip), prefix));
    NetworkOctetsIsPrefix(prefix, ip, 8 * |ip| - prefix);
  }

  lemma NetworkOctetsIsPrefix(prefix: nat, ip: seq<Byte>, k: nat)
    requires prefix <= 8 * |ip| && k == 8 * |ip| - prefix
    ensures FromBe(NetworkOctets(prefix, ip)) == Shl(Shr(FromBe(ip), k), k)
  {
    if k == 0 {
      assert NetworkOctets(prefix, ip) == ip;
      ShiftByNothing(FromBe(ip), k);
    } else {
      NetworkOctetsHigh(prefix, ip);
      NetworkOctetsLow(prefix, ip);
      HighPart(FromBe(NetworkOctets(prefix, ip)), FromBe(ip), k);
    }
  }

  lemma ShiftByNothing(x: nat, k: nat)
    requires k == 0
    ensures Shl(Shr(x, k), k) == x
  {
  }

  lemma HighPart(x: nat, y: nat, k: nat)
    requires Shr(x, k) == Shr(y, k) && Low(x, k) == 0
    ensures x == Shl(Shr(y, k), k)
  {
    ShrLow(x, k);
  }

  lemma MaskedOctet(rem: nat, b: Byte)
    requires rem <= 8
    ensures Shr(MaskOctet(rem, b), 8 - rem) == Shr(b, 8 - rem) && Low(MaskOctet(rem, b), 8 - rem) == 0
  {
    ShrLowUnique(Shr(b, 8 - rem), 0, 8 - rem);
  }

  lemma NetworkOctetsLow(prefix: nat, ip: seq<Byte>)
    requires prefix < 8 * |ip|
    ensures Low(FromBe(NetworkOctets(prefix, ip)), 8 * |ip| - prefix) == 0
  {
    MaskedHead(prefix, ip);
    ZeroTail(NetworkOctets(prefix, ip), prefix / 8 + 1, 8 - prefix % 8);
  }

  /** Zero bits at the end of a head followed by zero octets. */
  lemma ZeroTail(bs: seq<Byte>, n: nat, zeros: nat)
    requires n <= |bs| && (forall i :: n <= i < |bs| ==> bs[i] == 0) && Low(FromBe(bs[..n]), zeros) == 0
    ensures Low(FromBe(bs), 8 * (|bs| - n) + zeros) == 0
  {
    TrailingZeros(bs, n);
    FromBePrefix(bs, n);
    LowSplit(FromBe(bs), 8 * (|bs| - n), zeros);
  }

  /** The octets up to the masked one end in zero bits. */
  lemma MaskedHead(prefix: nat, ip: seq<Byte>)
    requires prefix < 8 * |ip|
    ensures Low(FromBe(NetworkOctets(prefix, ip)[..prefix / 8 + 1]), 8 - prefix % 8) == 0
  {
    var full, rem := prefix / 8, prefix % 8;
    MaskedPrefix(prefix, ip);
    ShlOctet(FromBe(ip[..full]), 8);
    MaskedOctet(rem, ip[full]);
    LowConcat(FromBe(ip[..full]), 8, MaskOctet(rem, ip[full]), 8 - rem);
  }

  lemma MaskedPrefix(prefix: nat, ip: seq<Byte>)
    requires prefix < 8 * |ip|
    ensures var full := prefix / 8;
            FromBe(NetworkOctets(prefix, ip)[..full + 1]) == 256 * FromBe(ip[..full]) + MaskOctet(prefix % 8, ip[full])
  {
    var full, bs := prefix / 8, NetworkOctets(prefix, ip);
    assert bs[..full + 1][..full] == ip[..full];
  }

  lemma KeptIsMasked(rem: nat, b: Byte)
    requires rem < 8
    ensures KeptOctet(rem, b) == MaskOctet(rem, b) <==> rem != 0 || b == 0
  {
    if rem == 0 {
      Pow2Constants();
      ShrBound(b, 8, 8);
    }
  }

  lemma MaskV6IsNetworkOctets(prefix: nat, ip: seq<Byte>)
    requires prefix <= 8 * |ip|
    ensures MaskV6(prefix, ip) == NetworkOctets(prefix, ip) <==>
            prefix == 8 * |ip| || prefix % 8 != 0 || ip[prefix / 8] == 0
  {
    if prefix < 8 * |ip| {
      var full := prefix / 8;
      KeptIsMasked(prefix % 8, ip[full]);
      assert MaskV6(prefix, ip)[full] == KeptOctet(prefix % 8, ip[full]);
      assert NetworkOctets(prefix, ip)[full] == MaskOctet(prefix % 8, ip[full]);
    }
  }

  /** `mask_v6` computes the network address exactly when no whole octet is left unmasked. */
  lemma MaskV6IsNetwork(prefix: nat, ip: seq<Byte>)
    requires prefix <= 8 * |ip|
    ensures FromBe(MaskV6(prefix, ip)) == Network(8 * |ip|, Net(FromBe(ip), prefix)) <==>
            prefix == 8 * |ip| || prefix % 8 != 0 || ip[prefix / 8] == 0
  {
    var m, n := MaskV6(prefix, ip), NetworkOctets(prefix, ip);
    NetworkOctetsValue(prefix, ip);
    MaskV6IsNetworkOctets(prefix, ip);
    if FromBe(m) == FromBe(n) { FromBeInjective(m, n); }
  }

  // ----- the two lookups ----------------------------------------------------------

  /** The target probed at one prefix length. */
  function ProbeTarget(ip: Ip, prefix: nat): Target
    requires ip.Valid() && prefix <= ip.family.Width()
  {
    Cidr(ip.family, prefix, if ip.family.V4? then MaskV4(prefix, ip.octets) else MaskV6(prefix, ip.octets))
  }

  /** The probes of an address by prefix length. */
  function ProbeAt(ip: Ip): nat -> Target
    requires ip.Valid()
  {
    (p: nat) => if p <= ip.family.Width() then ProbeTarget(ip, p) else Exact(ip.family, ip.octets)
  }

  /** Stored CIDR targets hit when probing prefix lengths `prefix`, ..., 0. */
  function ProbeHits(stored: set<Target>, ip: Ip, prefix: nat): seq<Target>
    requires ip.Valid() && prefix <= ip.family.Width()
  {
    HitsDown(stored, ProbeAt(ip), prefix)
  }

  function ExactHits(stored: set<Target>, ip: Ip): seq<Target> {
    var t := Exact(ip.family, ip.octets);
    if t in stored then [t] else []
  }

  /** Targets of `order`, in its order, that contain the address. */
  function ScanHits(order: seq<Target>, ip: Ip): seq<Target> {
    if order == [] then []
    else (if order[0].Denotes(ip) then [order[0]] else []) + ScanHits(order[1..], ip)
  }

  /** `out` lists the contexts of `hits`. */
  predicate LooksUp<T, C(==)>(index: map<T, C>, hits: seq<T>, out: seq<C>) {
    |out| == |hits| && forall i :: 0 <= i < |hits| ==> hits[i] in index && out[i] == index[hits[i]]
  }

  /** The on-disk store holds exactly the index, under tagged keys. */
  ghost predicate StoreHolds<C>(store: map<seq<Byte>, C>, index: map<Target, C>) {
    && (forall t <- index :: t.Canonical())
    && (forall t: Target :: t.Valid() && ContextKey(t) in store ==> t in index)
    && (forall t <- index :: ContextKey(t) in store && store[ContextKey(t)] == index[t])
  }

  lemma StoreHoldsAt<C>(store: map<seq<Byte>, C>, index: map<Target, C>, t: Target)
    requires StoreHolds(store, index) && t.Valid()
    ensures ContextKey(t) in store <==> t in index
    ensures t in index ==> store[ContextKey(t)] == index[t]
  {
  }

  lemma LooksUpSnoc<T, C>(index: map<T, C>, hits: seq<T>, out: seq<C>, t: T)
    requires LooksUp(index, hits, out) && t in index
    ensures LooksUp(index, hits + [t], out + [index[t]])
  {
  }

  /** The store holds what the index has of the probes up to `n`. */
  ghost predicate Mirrors<T, K, C>(store: map<K, C>, index: map<T, C>, at: nat -> T, key: T -> K, n: nat) {
    forall p: nat :: p <= n ==> (key(at(p)) in store <==> at(p) in index)
                                && (at(p) in index ==> store[key(at(p))] == index[at(p)])
  }

  ghost function Below<T>(stored: set<T>, at: nat -> T, n: nat): seq<T> {
    if n == 0 then [] else HitsDown(stored, at, n - 1)
  }

  /** Probe the keys of `at(n)`, ..., `at(0)` one by one. */
  method LookDown<T, K(==), C>(store: map<K, C>, at: nat -> T, key: T -> K, n: nat, before: seq<C>,
                               ghost index: map<T, C>, ghost done: seq<T>) returns (out: seq<C>)
    requires Mirrors(store, index, at, key, n) && LooksUp(index, done, before)
    ensures LooksUp(index, done + HitsDown(index.Keys, at, n), out)
  {
    out := before;
    ghost var hits := done;
    ghost var all := done + Below(index.Keys, at, n + 1);
    var p := n + 1;
    while p > 0
      invariant 0 <= p <= n + 1 && all == hits + Below(index.Keys, at, p) && LooksUp(index, hits, out)
    {
      p := p - 1;
      HitsDownStep(index.Keys, at, p, hits);
      if key(at(p)) in store {
        LooksUpSnoc(index, hits, out, at(p));
        out := out + [store[key(at(p))]];
        hits := hits + [at(p)];
      }
    }
  }

  lemma ProbesMirror<C>(store: map<seq<Byte>, C>, ip: Ip, index: map<Target, C>)
    requires ip.Valid() && StoreHolds(store, index)
    ensures Mirrors(store, index, ProbeAt(ip), ContextKey, ip.family.Width())
  {
    var at := ProbeAt(ip);
    forall p: nat | p <= ip.family.Width()
      ensures ContextKey(at(p)) in store <==> at(p) in index
      ensures at(p) in index ==> store[ContextKey(at(p))] == index[at(p)]
    {
      ProbeIsValid(ip, p);
      StoreHoldsAt(store, index, at(p));
    }
  }

  lemma ProbeIsValid(ip: Ip, prefix: nat)
    requires ip.Valid() && prefix <= ip.family.Width()
    ensures ProbeTarget(ip, prefix).Valid()
  {
  }

  method CachedHost<C(==)>(store: map<seq<Byte>, C>, ip: Ip, ghost index: map<Target, C>) returns (out: seq<C>)
    requires ip.Valid() && StoreHolds(store, index)
    ensures LooksUp(index, ExactHits(index.Keys, ip), out)
  {
    var key := ContextKey(Exact(ip.family, ip.octets));
    StoreHoldsAt(store, index, Exact(ip.family, ip.octets));
    out := if key in store then [store[key]] else [];
  }

  /** The cache branch of `lookup_ip_v4` / `lookup_ip_v6`. */
  method CachedLookup<C(==)>(store: map<seq<Byte>, C>, ip: Ip, ghost index: map<Target, C>) returns (out: seq<C>)
    requires ip.Valid() && StoreHolds(store, index)
    ensures LooksUp(index, ExactHits(index.Keys, ip) + ProbeHits(index.Keys, ip, ip.family.Width()), out)
  {
    out := CachedHost(store, ip, index);
    ProbesMirror(store, ip, index);
    out := LookDown(store, ProbeAt(ip), ContextKey, ip.family.Width(), out, index, ExactHits(index.Keys, ip));
  }

  /** The in-RAM index of one family, listed in any order. */
  ghost predicate RamHolds<C>(family: Family, exact: map<seq<Byte>, C>, lpm: seq<(nat, seq<Byte>, C)>,
                              index: map<Target, C>, order: seq<Target>) {
    && (forall t <- index :: t.Canonical())
    && (forall o :: o in exact <==> Exact(family, o) in index)
    && (forall o <- exact :: exact[o] == index[Exact(family, o)])
    && |order| == |lpm|
    && (forall i :: 0 <= i < |lpm| ==> order[i] == Cidr(family, lpm[i].0, lpm[i].1)
                                       && order[i] in index && index[order[i]] == lpm[i].2)
    && (forall i, j :: 0 <= i < j < |order| ==> order[i] != order[j])
    && (forall t <- index :: t.family == family && t.Cidr? ==> t in order)
  }

  // ----- distributing an index over the families -------------------------------------------

  /** `ip_index_v4_exact` and `ip_index_v4_lpm`, or their IPv6 twins. */
  datatype Ram<C> = Ram(exact: map<seq<Byte>, C>, lpm: seq<(nat, seq<Byte>, C)>)

  /** The targets in `done` of one family are in its part, the blocks listed in `order`. */
  ghost predicate RamPart<C>(family: Family, ram: Ram<C>, index: map<Target, C>, order: seq<Target>, done: set<Target>) {
    && done <= index.Keys && (forall o :: o in ram.exact <==> Exact(family, o) in done)
    && (forall o <- ram.exact :: ram.exact[o] == index[Exact(family, o)])
    && |order| == |ram.lpm|
    && (forall i :: 0 <= i < |ram.lpm| ==> order[i] == Cidr(family, ram.lpm[i].0, ram.lpm[i].1)
                                           && order[i] in done && index[order[i]] == ram.lpm[i].2)
    && NoDuplicates(order)
    && (forall t <- done :: t.family == family && t.Cidr? ==> t in order)
  }

  lemma RamPartIsAll<C>(family: Family, ram: Ram<C>, index: map<Target, C>, order: seq<Target>)
    requires RamPart(family, ram, index, order, index.Keys) && forall t <- index :: t.Canonical()
    ensures RamHolds(family, ram.exact, ram.lpm, index, order)
  {
  }

  lemma OtherFamily<C>(family: Family, ram: Ram<C>, index: map<Target, C>, order: seq<Target>, done: set<Target>, t: Target)
    requires RamPart(family, ram, index, order, done) && t in index && t.family != family
    ensures RamPart(family, ram, index, order, done + {t})
  {
  }

  method AddHost<C>(family: Family, ram: Ram<C>, ghost index: map<Target, C>, ghost order: seq<Target>,
                    ghost done: set<Target>, octets: seq<Byte>, context: C) returns (ram': Ram<C>)
    requires RamPart(family, ram, index, order, done)
    requires var t := Exact(family, octets); t in index && t !in done && index[t] == context
    ensures RamPart(family, ram', index, order, done + {Exact(family, octets)})
  {
    ram' := ram.(exact := ram.exact[octets := context]);
  }

  method AddBlock<C>(family: Family, ram: Ram<C>, ghost index: map<Target, C>, ghost order: seq<Target>,
                     ghost done: set<Target>, prefix: nat, net: seq<Byte>, context: C)
    returns (ram': Ram<C>, ghost order': seq<Target>)
    requires RamPart(family, ram, index, order, done)
    requires var t := Cidr(family, prefix, net); t in index && t !in done && index[t] == context
    ensures RamPart(family, ram', index, order', done + {Cidr(family, prefix, net)})
  {
    ram' := ram.(lpm := ram.lpm + [(prefix, net, context)]);
    order' := order + [Cidr(family, prefix, net)];
    assert forall i :: 0 <= i < |order| ==> order'[i] == order[i] && ram'.lpm[i] == ram.lpm[i];
    assert Cidr(family, prefix, net) in order';
  }

  method DistributeTarget<C>(family: Family, ram: Ram<C>, ghost index: map<Target, C>, ghost order: seq<Target>,
                        ghost done: set<Target>, t: Target, context: C)
    returns (ram': Ram<C>, ghost order': seq<Target>)
    requires RamPart(family, ram, index, order, done) && t in index && t !in done && index[t] == context
    ensures RamPart(family, ram', index, order', done + {t})
  {
    ram', order' := ram, order;
    if t.family != family {
      OtherFamily(family, ram, index, order, done, t);
    } else if t.Exact? {
      ram' := AddHost(family, ram, index, order, done, t.octets, context);
    } else {
      ram', order' := AddBlock(family, ram, index, order, done, t.prefix, t.octets, context);
    }
  }

  /** The last loop of `build_ip_index`: each context to the map or list of its family and kind. */
  method Distribute<C>(index: map<Target, C>)
    returns (v4: Ram<C>, v6: Ram<C>, ghost order4: seq<Target>, ghost order6: seq<Target>)
    requires forall t <- index :: t.Canonical()
    ensures RamHolds(V4, v4.exact, v4.lpm, index, order4) && RamHolds(V6, v6.exact, v6.lpm, index, order6)
  {
    v4, v6, order4, order6 := Ram(map[], []), Ram(map[], []), [], [];
    var rest := index.Keys;
    ghost var done := {};
    while rest != {}
      invariant rest <= index.Keys && done == index.Keys - rest
      invariant RamPart(V4, v4, index, order4, done)
      invariant RamPart(V6, v6, index, order6, done)
      decreases rest
    {
      var t :| t in rest;
      v4, order4 := DistributeTarget(V4, v4, index, order4, done, t, index[t]);
      v6, order6 := DistributeTarget(V6, v6, index, order6, done, t, index[t]);
      rest := rest - {t};
      done := done + {t};
    }
    assert done == index.Keys;
    RamPartIsAll(V4, v4, index, order4);
    RamPartIsAll(V6, v6, index, order6);
  }

  lemma {:induction false} ScanHitsFrom(order: seq<Target>, ip: Ip)
    ensures forall t :: t in ScanHits(order, ip) <==> t in order && t.Denotes(ip)
  {
    if order != [] {
      ScanHitsFrom(order[1..], ip);
      assert order == [order[0]] + order[1..];
    }
  }

  lemma {:induction false} ScanHitsSnoc(order: seq<Target>, t: Target, ip: Ip)
    ensures ScanHits(order + [t], ip) == ScanHits(order, ip) + (if t.Denotes(ip) then [t] else [])
  {
    if order != [] {
      ScanHitsSnoc(order[1..], t, ip);
      assert (order + [t])[1..] == order[1..] + [t];
    }
  }

  lemma PrefixContainsV4Denotes(prefix: nat, net: seq<Byte>, ip: seq<Byte>)
    requires prefix <= 8 * |ip| && |net| == |ip|
    ensures PrefixContainsV4(prefix, net, ip) <==>
            Shr(FromBe(net), 8 * |ip| - prefix) == Shr(FromBe(ip), 8 * |ip| - prefix)
  {
    var k := 8 * |ip| - prefix;
    FromBeBound(net);
    FromBeBound(ip);
    MaskClearsLowBits(FromBe(net), 8 * |ip|, prefix);
    MaskClearsLowBits(FromBe(ip), 8 * |ip|, prefix);
    if PrefixContainsV4(prefix, net, ip) { SameMultiple(Shr(FromBe(net), k), Shr(FromBe(ip), k), k); }
  }

  method InsideNet(prefix: nat, net: seq<Byte>, ip: Ip) returns (inside: bool)
    requires ip.Valid() && Cidr(ip.family, prefix, net).Valid()
    ensures inside <==> Cidr(ip.family, prefix, net).Denotes(ip)
  {
    if ip.family.V4? {
      PrefixContainsV4Denotes(prefix, net, ip.octets);
      inside := PrefixContainsV4(prefix, net, ip.octets);
    } else {
      inside := PrefixContainsV6(prefix, net, ip.octets);
    }
  }

  /** The RAM branch of `lookup_ip_v4` / `lookup_ip_v6`. */
  method RamLookup<C(==)>(exact: map<seq<Byte>, C>, lpm: seq<(nat, seq<Byte>, C)>, ip: Ip,
                      ghost index: map<Target, C>, ghost order: seq<Target>) returns (out: seq<C>)
    requires ip.Valid() && RamHolds(ip.family, exact, lpm, index, order)
    ensures LooksUp(index, ExactHits(index.Keys, ip) + ScanHits(order, ip), out)
  {
    out := if ip.octets in exact then [exact[ip.octets]] else [];
    ghost var hits := ExactHits(index.Keys, ip);
    ScanHitsNone(hits, order, ip);
    for i := 0 to |lpm|
      invariant hits == ExactHits(index.Keys, ip) + ScanHits(order[..i], ip)
      invariant LooksUp(index, hits, out)
    {
      var (prefix, net, ctx) := lpm[i];
      var t := RamHoldsAt(ip.family, exact, lpm, index, order, i);
      var inside := InsideNet(prefix, net, ip);
      ScanHitsNext(ExactHits(index.Keys, ip), order, i, ip);
      if inside {
        LooksUpSnoc(index, hits, out, t);
        out := out + [ctx];
        hits := hits + [t];
      }
    }
    TakeAll(order);
  }

  lemma RamHoldsAt<C>(family: Family, exact: map<seq<Byte>, C>, lpm: seq<(nat, seq<Byte>, C)>,
                      index: map<Target, C>, order: seq<Target>, i: nat) returns (t: Target)
    requires RamHolds(family, exact, lpm, index, order) && i < |lpm|
    ensures t == order[i] == Cidr(family, lpm[i].0, lpm[i].1) && t.Valid() && t in index && index[t] == lpm[i].2
  {
    t := order[i];
    assert t in index;
  }

  lemma ScanHitsNone(done: seq<Target>, order: seq<Target>, ip: Ip)
    ensures done == done + ScanHits(order[..0], ip)
  {
  }

  lemma ScanHitsNext(done: seq<Target>, order: seq<Target>, i: nat, ip: Ip)
    requires i < |order|
    ensures done + ScanHits(order[..i + 1], ip) ==
            done + ScanHits(order[..i], ip) + if order[i].Denotes(ip) then [order[i]] else []
  {
    TakeSnoc(order, i);
    ScanHitsSnoc(order[..i], order[i], ip);
    Associates(done, ScanHits(order[..i], ip), if order[i].Denotes(ip) then [order[i]] else []);
  }

  lemma Associates<T>(a: seq<T>, b: seq<T>, c: seq<T>)
    ensures a + (b + c) == a + b + c
  {
  }

  // ----- agreement -------------------------------------------------------------------

  /** The containing CIDRs that probing does not find. */
  predicate ProbeMisses(t: Target, ip: Ip) {
    ip.Valid() && ip.family.V6? && t.Cidr? && t.family.V6? && t.prefix < 128 && t.prefix % 8 == 0 && ip.octets[t.prefix / 8] != 0
  }

  /** A canonical network contains an address iff the address masks to its octets. */
  lemma DenotesByOctets(t: Target, ip: Ip)
    requires t.Canonical() && ip.Valid() && t.Cidr? && t.family == ip.family
    ensures t.Denotes(ip) <==> NetworkOctets(t.prefix, ip.octets) == t.octets
    ensures NetworkOctets(t.prefix, t.octets) == t.octets
  {
    ContainsIpDenotes(t, ip);
    NetworkOctetsValue(t.prefix, ip.octets);
    NetworkOctetsValue(t.prefix, t.octets);
    FromBeInjective(NetworkOctets(t.prefix, t.octets), t.octets);
    if t.ContainsIp(ip) { FromBeInjective(NetworkOctets(t.prefix, ip.octets), t.octets); }
  }

  lemma MaskThenNetwork(prefix: nat, ip: seq<Byte>)
    requires prefix <= 8 * |ip|
    ensures NetworkOctets(prefix, MaskV6(prefix, ip)) == NetworkOctets(prefix, ip)
  {
    if prefix < 8 * |ip| {
      var full, rem := prefix / 8, prefix % 8;
      var m := MaskV6(prefix, ip);
      assert m[..full] == ip[..full] && m[full] == KeptOctet(rem, ip[full]);
      MaskedOctet(rem, ip[full]);
    }
  }

  /** A stored network is probed iff it contains the address and is not in the missed family. */
  lemma ProbeFindsTarget(t: Target, ip: Ip)
    requires t.Canonical() && ip.Valid() && t.Cidr? && t.family == ip.family
    ensures ProbeTarget(ip, t.prefix) == t <==> t.Denotes(ip) && !ProbeMisses(t, ip)
  {
    DenotesByOctets(t, ip);
    if ip.family.V4? {
      NetworkOctetsValue(t.prefix, ip.octets);
      BeRoundTripBytes(NetworkOctets(t.prefix, ip.octets));
    } else {
      MaskV6IsNetworkOctets(t.prefix, ip.octets);
      MaskThenNetwork(t.prefix, ip.octets);
    }
  }

  /** The stored blocks up to a prefix length that probing is to find. */
  ghost predicate ToProbe(stored: set<Target>, ip: Ip, prefix: nat, t: Target) {
    t in stored && t.Cidr? && t.family == ip.family && t.prefix <= prefix && t.Denotes(ip) && !ProbeMisses(t, ip)
  }

  lemma ProbeHere(stored: set<Target>, ip: Ip, prefix: nat, t: Target)
    requires ip.Valid() && prefix <= ip.family.Width() && forall x <- stored :: x.Canonical()
    ensures ToProbe(stored, ip, prefix, t) && t.prefix == prefix <==> t in stored && t == ProbeTarget(ip, prefix)
  {
    if t in stored && t.Cidr? && t.family == ip.family && t.prefix == prefix { ProbeFindsTarget(t, ip); }
  }

  lemma ProbeHitIs(stored: set<Target>, ip: Ip, prefix: nat, t: Target)
    requires ip.Valid() && prefix <= ip.family.Width() && forall t <- stored :: t.Canonical()
    ensures t in ProbeHits(stored, ip, prefix) <==> ToProbe(stored, ip, prefix, t)
  {
    var at := ProbeAt(ip);
    HitsDownAre(stored, at, prefix, t);
    forall p: nat | p <= prefix ensures t in stored && at(p) == t <==> ToProbe(stored, ip, prefix, t) && t.prefix == p {
      ProbeHere(stored, ip, p, t);
    }
    if ToProbe(stored, ip, prefix, t) { assert at(t.prefix) == t; }
  }

  lemma ProbeHitsAre(stored: set<Target>, ip: Ip, prefix: nat)
    requires ip.Valid() && prefix <= ip.family.Width() && forall t <- stored :: t.Canonical()
    ensures forall t :: t in ProbeHits(stored, ip, prefix) <==> ToProbe(stored, ip, prefix, t)
  {
    forall t ensures t in ProbeHits(stored, ip, prefix) <==> ToProbe(stored, ip, prefix, t) {
      ProbeHitIs(stored, ip, prefix, t);
    }
  }

  lemma ProbeHitsOnce(stored: set<Target>, ip: Ip, prefix: nat)
    requires ip.Valid() && prefix <= ip.family.Width()
    ensures NoDuplicates(ProbeHits(stored, ip, prefix))
  {
    HitsDownOnce(stored, ProbeAt(ip), prefix);
  }

  lemma {:induction false} ScanHitsNoDuplicates(order: seq<Target>, ip: Ip)
    requires NoDuplicates(order)
    ensures NoDuplicates(ScanHits(order, ip))
  {
    if order != [] {
      ScanHitsNoDuplicates(order[1..], ip);
      ScanHitsFrom(order[1..], ip);
    }
  }

  lemma HostHit(stored: set<Target>, ip: Ip, t: Target)
    requires ip.Valid() && forall x <- stored :: x.Canonical()
    ensures t in ExactHits(stored, ip) <==> t in stored && t.Exact? && t.Denotes(ip)
  {
    if t in stored && t.Exact? { ExactIsCanonical(t); }
    ExactIsCanonical(Exact(ip.family, ip.octets));
  }

  /** Hosts first, then blocks: nothing is hit twice. */
  lemma HitsOnce(stored: set<Target>, ip: Ip, blocks: seq<Target>)
    requires NoDuplicates(blocks) && forall t <- blocks :: t.Cidr?
    ensures NoDuplicates(ExactHits(stored, ip) + blocks)
  {
    FirstIsNew(ExactHits(stored, ip), blocks, Exact(ip.family, ip.octets));
  }

  /** Probing is sound, finds every containing target once, and misses exactly `ProbeMisses`. */
  lemma ProbeAgainstScan(stored: set<Target>, order: seq<Target>, ip: Ip)
    requires ip.Valid() && NoDuplicates(order) && forall t <- stored :: t.Canonical()
    requires forall t :: t in order <==> t in stored && t.Cidr? && t.family == ip.family
    ensures var probed := ExactHits(stored, ip) + ProbeHits(stored, ip, ip.family.Width());
            var scanned := ExactHits(stored, ip) + ScanHits(order, ip);
            && NoDuplicates(probed) && NoDuplicates(scanned)
            && (forall t :: t in scanned <==> t in stored && t.Denotes(ip))
            && (forall t :: t in probed <==> t in scanned && !ProbeMisses(t, ip))
  {
    var hosts, blocks, scans := ExactHits(stored, ip), ProbeHits(stored, ip, ip.family.Width()), ScanHits(order, ip);
    ProbeHitsAre(stored, ip, ip.family.Width());
    ProbeHitsOnce(stored, ip, ip.family.Width());
    ScanHitsFrom(order, ip);
    ScanHitsNoDuplicates(order, ip);
    HitsOnce(stored, ip, blocks);
    HitsOnce(stored, ip, scans);
    forall t ensures t in hosts + scans <==> t in stored && t.Denotes(ip) {
      HostHit(stored, ip, t);
    }
    forall t ensures t in hosts + blocks <==> t in hosts + scans && !ProbeMisses(t, ip) {
      HostHit(stored, ip, t);
    }
  }

  lemma OctetsCanonical(t: Target)
    requires t.Valid() && t.Cidr? && NetworkOctets(t.prefix, t.octets) == t.octets
    ensures t.Canonical()
  {
    NetworkOctetsValue(t.prefix, t.octets);
  }

  /** Every IPv6 address with a nonzero octet at a whole-octet prefix: its block of that length
      is found by the scan and not by the probe. */
  lemma BlockMissed(ip: Ip, prefix: nat)
    requires ip.Valid() && ip.family.V6? && prefix < 128 && prefix % 8 == 0 && ip.octets[prefix / 8] != 0
    ensures var t := Cidr(V6, prefix, NetworkOctets(prefix, ip.octets));
            t.Canonical() && t.Denotes(ip) && ScanHits([t], ip) == [t]
            && t !in ExactHits({t}, ip) + ProbeHits({t}, ip, ip.family.Width())
  {
    var t := Cidr(V6, prefix, NetworkOctets(prefix, ip.octets));
    NetworkTwice(prefix, ip.octets);
    OctetsCanonical(t);
    DenotesByOctets(t, ip);
    ProbeHitsAre({t}, ip, ip.family.Width());
    assert [t][1..] == [];
  }

  lemma NetworkTwice(prefix: nat, ip: seq<Byte>)
    requires prefix <= 8 * |ip|
    ensures NetworkOctets(prefix, NetworkOctets(prefix, ip)) == NetworkOctets(prefix, ip)
  {
    if prefix < 8 * |ip| {
      var full, rem, n := prefix / 8, prefix % 8, NetworkOctets(prefix, ip);
      MaskedOctet(rem, ip[full]);
      assert n[..full] == ip[..full] && n[full] == MaskOctet(rem, ip[full]);
    }
  }

  /** 2001:db8:100::1 is not attributed to a stored 2001:db8::/32 by the cached lookup. */
  lemma DocumentationBlockMissed(t: Target, ip: Ip)
    requires t == Cidr(V6, 32, [0x20, 0x01, 0x0d, 0xb8, 0, 0, 0, 0, 0, 0, 0, 0, 0, 0, 0, 0])
    requires ip == Ip(V6, [0x20, 0x01, 0x0d, 0xb8, 1, 0, 0, 0, 0, 0, 0, 0, 0, 0, 0, 1])
    ensures t.Canonical() && t.Denotes(ip) && ScanHits([t], ip) == [t]
    ensures t !in ExactHits({t}, ip) + ProbeHits({t}, ip, ip.family.Width())
  {
    var o, n := ip.octets, t.octets;
    assert o[..4] == n[..4] && o[4] == 1;
    assert forall i :: 4 <= i < 16 ==> n[i] == 0;
    BlockOf(t, ip);
  }

  /** A block given by its octets: equal to the address up to the prefix, zero behind it. */
  lemma BlockOf(t: Target, ip: Ip)
    requires ip.Valid() && t.Valid() && t.Cidr? && t.family.V6? && ip.family.V6? && t.prefix < 128 && t.prefix % 8 == 0
    requires var full := t.prefix / 8;
             ip.octets[full] != 0 && t.octets[..full] == ip.octets[..full] && forall i :: full <= i < 16 ==> t.octets[i] == 0
    ensures t.Canonical() && t.Denotes(ip) && ScanHits([t], ip) == [t]
    ensures t !in ExactHits({t}, ip) + ProbeHits({t}, ip, ip.family.Width())
  {
    ZeroedTail(t.prefix, ip.octets, t.octets);
    BlockMissed(ip, t.prefix);
  }

  lemma ZeroedTail(prefix: nat, ip: seq<Byte>, net: seq<Byte>)
    requires prefix < 8 * |ip| && prefix % 8 == 0 && |net| == |ip|
    requires net[..prefix / 8] == ip[..prefix / 8] && forall i :: prefix / 8 <= i < |ip| ==> net[i] == 0
    ensures NetworkOctets(prefix, ip) == net
  {
    ShrBound(ip[prefix / 8], 8, 8);
    Pow2Constants();
  }

  lemma {:induction false} SameElementsSameMultiset<T>(a: seq<T>, b: seq<T>)
    requires NoDuplicates(a) && NoDuplicates(b) && forall x :: x in a <==> x in b
    ensures multiset(a) == multiset(b)
  {
    NoDuplicatesCount(a);
    NoDuplicatesCount(b);
    forall x ensures multiset(a)[x] == multiset(b)[x] {
      assert x in multiset(a) <==> x in a;
      assert x in multiset(b) <==> x in b;
    }
  }

  lemma {:induction false} NoDuplicatesCount<T>(a: seq<T>)
    requires NoDuplicates(a)
    ensures forall x :: multiset(a)[x] <= 1
  {
    if a != [] {
      NoDuplicatesCount(a[1..]);
      assert a == [a[0]] + a[1..];
    }
  }

  lemma {:induction false} SameHitsSameContexts<C>(index: map<Target, C>, a: seq<Target>, ca: seq<C>,
                                                   b: seq<Target>, cb: seq<C>)
    requires multiset(a) == multiset(b) && LooksUp(index, a, ca) && LooksUp(index, b, cb)
    ensures multiset(ca) == multiset(cb)
  {
    if a == [] {
      assert |b| == |multiset(b)| == 0;
    } else {
      var i := Find(b, a[0], multiset(a));
      LooksUpWithout(index, a, ca, 0);
      LooksUpWithout(index, b, cb, i);
      SameRest(multiset(a), multiset(Without(a, 0)), multiset(b), multiset(Without(b, i)), a[0]);
      SameHitsSameContexts(index, Without(a, 0), Without(ca, 0), Without(b, i), Without(cb, i));
    }
  }

  lemma Find<T>(b: seq<T>, x: T, m: multiset<T>) returns (i: nat)
    requires multiset(b) == m && x in m
    ensures i < |b| && b[i] == x
  {
    i :| 0 <= i < |b| && b[i] == x;
  }

  lemma SameRest<T>(a: multiset<T>, a': multiset<T>, b: multiset<T>, b': multiset<T>, x: T)
    requires a == b && a == a' + multiset{x} && b == b' + multiset{x}
    ensures a' == b'
  {
    assert a' == a - multiset{x} && b' == b - multiset{x};
  }

  lemma LooksUpWithout<C>(index: map<Target, C>, a: seq<Target>, ca: seq<C>, i: nat)
    requires LooksUp(index, a, ca) && i < |a|
    ensures LooksUp(index, Without(a, i), Without(ca, i)) && a[i] in index && ca[i] == index[a[i]]
  {
  }

  function Without<T>(s: seq<T>, i: nat): (r: seq<T>)
    requires i < |s|
    ensures |r| == |s| - 1 && forall j :: 0 <= j < |r| ==> r[j] == s[if j < i then j else j + 1]
    ensures multiset(s) == multiset(r) + multiset{s[i]}
  {
    assert s == s[..i] + [s[i]] + s[i + 1..];
    s[..i] + s[i + 1..]
  }

  /** For IPv4, whatever the two lookups return is the same list of contexts up to order. */
  lemma CachedLookupIsScanV4<C>(index: map<Target, C>, order: seq<Target>, ip: Ip, cached: seq<C>, scanned: seq<C>)
    requires ip.Valid() && ip.family.V4? && NoDuplicates(order) && forall t <- index :: t.Canonical()
    requires forall t :: t in order <==> t in index && t.Cidr? && t.family == ip.family
    requires LooksUp(index, ExactHits(index.Keys, ip) + ProbeHits(index.Keys, ip, ip.family.Width()), cached)
    requires LooksUp(index, ExactHits(index.Keys, ip) + ScanHits(order, ip), scanned)
    ensures multiset(cached) == multiset(scanned)
  {
    var probes := ExactHits(index.Keys, ip) + ProbeHits(index.Keys, ip, ip.family.Width());
    var scans := ExactHits(index.Keys, ip) + ScanHits(order, ip);
    ProbeAgainstScan(index.Keys, order, ip);
    assert forall t :: !ProbeMisses(t, ip);
    SameElementsSameMultiset(probes, scans);
    SameHitsSameContexts(index, probes, cached, scans, scanned);
  }
}
