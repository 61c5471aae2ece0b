/** Addresses and block targets of the feeds, and expansion of one feed line into the
    targets that survive the operator's ignore list. */
module Targets {
  import opened Bits
  import opened Cidr

  datatype Family = V4 | V6 {
    function Octets(): nat { if V4? then 4 else 16 }
    function Width(): (w: nat) ensures w == 8 * Octets() { if V4? then 32 else 128 }
  }

  datatype Ip = Ip(family: Family, octets: seq<Byte>) {
    predicate Valid() { |octets| == family.Octets() }
    function Value(): nat { FromBe(octets) }
  }

  /** ExactV4/ExactV6 and CidrV4/CidrV6, with the address family factored out. */
  datatype Target =
    | Exact(family: Family, octets: seq<Byte>)
    | Cidr(family: Family, prefix: nat, octets: seq<Byte>)
  {
    predicate Valid() {
      |octets| == family.Octets() && (Cidr? ==> prefix <= family.Width())
    }

    function AsNet(): Net {
      Net(FromBe(octets), if Exact? then family.Width() else prefix)
    }

    predicate Canonical() { Valid() && Cidr.Canonical(family.Width(), AsNet()) }

    /** The set of addresses this target denotes. */
    predicate Denotes(ip: Ip) {
      family == ip.family && Contains(family.Width(), AsNet(), ip.Value())
    }

    /** `contains_ip`: mask the address and compare with the stored octets. */
    predicate ContainsIp(ip: Ip) {
      family == ip.family &&
      if Exact? then octets == ip.octets
      else BitAnd(ip.Value(), PrefixMask(family.Width(), prefix)) == FromBe(octets)
    }
  }

  lemma IpBound(ip: Ip)
    requires ip.Valid()
    ensures ip.Value() < Pow2(ip.family.Width())
  {
    FromBeBound(ip.octets);
  }

  lemma TargetBound(t: Target)
    requires t.Valid()
    ensures ValidNet(t.family.Width(), t.AsNet())
  {
    FromBeBound(t.octets);
  }

  /** Masked comparison decides membership exactly for canonical targets. */
  lemma ContainsIpDenotes(t: Target, ip: Ip)
    requires t.Canonical() && ip.Valid()
    ensures t.ContainsIp(ip) <==> t.Denotes(ip)
  {
    if t.family == ip.family {
      var w := t.family.Width();
      IpBound(ip);
      TargetBound(t);
      var p := t.AsNet().prefix;
      MaskClearsLowBits(ip.Value(), w, p);
      NetworkIsPrefix(w, Net(ip.Value(), p));
      NetworkIsPrefix(w, t.AsNet());
      if t.Exact? && ip.Value() == FromBe(t.octets) { FromBeInjective(t.octets, ip.octets); }
    }
  }

  lemma ExactIsCanonical(t: Target)
    requires t.Valid() && t.Exact?
    ensures t.Canonical() && forall ip: Ip :: ip.Valid() ==> (t.Denotes(ip) <==> ip == Ip(t.family, t.octets))
  {
    var w := t.family.Width();
    TargetBound(t);
    MaskClearsLowBits(t.AsNet().addr, w, w);
    forall ip: Ip | ip.Valid() ensures t.Denotes(ip) <==> ip == Ip(t.family, t.octets) {
      if t.Denotes(ip) { FromBeInjective(t.octets, ip.octets); }
    }
  }

  // ----- one feed line -------------------------------------------------------------

  /** What the text of a feed line parsed to. */
  datatype Token =
    | NetToken(family: Family, net: Net)
    | HostToken(ip: Ip)
  {
    predicate Valid() {
      if NetToken? then ValidNet(family.Width(), net) else ip.Valid()
    }

    predicate Denotes(x: Ip) {
      if NetToken? then family == x.family && Contains(family.Width(), net, x.Value()) else x == ip
    }
  }

  /** The target of a block: full-length prefixes become exact hosts. */
  function TargetOfNet(family: Family, net: Net): Target {
    if net.prefix == family.Width() then Exact(family, ToBe(net.addr, family.Octets()))
    else Cidr(family, net.prefix, ToBe(Network(family.Width(), net), family.Octets()))
  }

  function TargetsOfNets(family: Family, nets: seq<Net>): (ts: seq<Target>)
    ensures |ts| == |nets| && forall i :: 0 <= i < |ts| ==> ts[i] == TargetOfNet(family, nets[i])
  {
    if nets == [] then [] else [TargetOfNet(family, nets[0])] + TargetsOfNets(family, nets[1..])
  }

  lemma TargetOfNetDenotes(family: Family, net: Net)
    requires ValidNet(family.Width(), net)
    ensures var t := TargetOfNet(family, net);
            t.Canonical() && t.family == family && (t.Cidr? ==> t.prefix < family.Width())
            && (forall x: nat :: Contains(family.Width(), t.AsNet(), x) <==> Contains(family.Width(), net, x))
  {
    var w := family.Width();
    NetworkIsPrefix(w, net);
    BeRoundTrip(net.addr, family.Octets());
    BeRoundTrip(Network(w, net), family.Octets());
    var t := TargetOfNet(family, net);
    TargetBound(t);
    NetworkIsPrefix(w, t.AsNet());
    MaskClearsLowBits(t.AsNet().addr, w, t.AsNet().prefix);
  }

  predicate AnyContains(ts: seq<Target>, ip: Ip) {
    exists t :: t in ts && t.ContainsIp(ip)
  }

  /** The addresses a feed line must contribute: its own, minus the ignored ones. */
  ghost predicate DenotesMinus(ts: seq<Target>, token: Token, ignored: seq<Ip>) {
    && (forall t <- ts :: t.Canonical() && (t.Cidr? ==> t.prefix < t.family.Width()))
    && (forall ip: Ip :: ip.Valid() ==> (AnyContains(ts, ip) <==> token.Denotes(ip) && ip !in ignored))
    && (forall i, j, ip: Ip :: 0 <= i < j < |ts| && ip.Valid() && ts[i].ContainsIp(ip) ==> !ts[j].ContainsIp(ip))
  }

  function AddressesOf(ips: seq<Ip>, family: Family): (values: seq<nat>)
    ensures forall v :: v in values <==> exists ip :: ip in ips && ip.family == family && ip.Value() == v
  {
    if ips == [] then [] else
    var rest := AddressesOf(ips[1..], family);
    assert ips == [ips[0]] + ips[1..];
    if ips[0].family == family then [ips[0].Value()] + rest else rest
  }

  lemma SingleTarget(t: Target, ip: Ip, token: Token, ignored: seq<Ip>)
    requires ip.Valid() && t == Exact(ip.family, ip.octets) && ip !in ignored
    requires forall x: Ip :: x.Valid() ==> (token.Denotes(x) <==> x == ip)
    ensures DenotesMinus([t], token, ignored)
  {
    ExactIsCanonical(t);
    forall x: Ip | x.Valid() ensures AnyContains([t], x) <==> token.Denotes(x) && x !in ignored {
      assert t in [t];
    }
  }

  lemma FullPrefixToken(token: Token)
    requires token.Valid() && token.NetToken? && token.net.prefix == token.family.Width()
    ensures var ip := Ip(token.family, ToBe(token.net.addr, token.family.Octets()));
            ip.Valid() && forall x: Ip :: x.Valid() ==> (token.Denotes(x) <==> x == ip)
  {
    BeRoundTrip(token.net.addr, token.family.Octets());
    forall x: Ip | x.Valid() && x.family == token.family && x.Value() == token.net.addr
      ensures x.octets == ToBe(token.net.addr, token.family.Octets())
    {
      BeRoundTripBytes(x.octets);
    }
  }

  lemma TargetsOfDisjointNets(family: Family, nets: seq<Net>, token: Token, ignored: seq<Ip>)
    requires ValidNets(family.Width(), nets) && PairwiseDisjoint(family.Width(), nets)
    requires token.NetToken? && token.family == family && token.Valid() && forall ip <- ignored :: ip.Valid()
    requires forall x: nat :: Covers(family.Width(), nets, x) <==>
                              Contains(family.Width(), token.net, x) && x !in AddressesOf(ignored, family)
    ensures DenotesMinus(TargetsOfNets(family, nets), token, ignored)
  {
    var ts := TargetsOfNets(family, nets);
    forall i | 0 <= i < |nets|
      ensures ts[i].Canonical() && (ts[i].Cidr? ==> ts[i].prefix < family.Width())
              && forall ip: Ip :: ip.Valid() ==> (ts[i].ContainsIp(ip) <==>
                                                  ip.family == family && Contains(family.Width(), nets[i], ip.Value()))
    {
      assert nets[i] in nets;
      TargetOfNetDenotes(family, nets[i]);
      forall ip: Ip | ip.Valid() ensures ts[i].ContainsIp(ip) <==> ts[i].Denotes(ip) { ContainsIpDenotes(ts[i], ip); }
    }
    forall ip: Ip | ip.Valid()
      ensures AnyContains(ts, ip) <==> token.Denotes(ip) && ip !in ignored
    {
      IgnoredByValue(ignored, ip);
      if AnyContains(ts, ip) {
        var t :| t in ts && t.ContainsIp(ip);
        var i :| 0 <= i < |ts| && ts[i] == t;
        assert nets[i] in nets && Covers(family.Width(), nets, ip.Value());
      }
      if token.Denotes(ip) && ip !in ignored {
        var n :| n in nets && Contains(family.Width(), n, ip.Value());
        var i :| 0 <= i < |nets| && nets[i] == n;
        assert ts[i] in ts;
      }
    }
  }

  lemma IgnoredByValue(ignored: seq<Ip>, ip: Ip)
    requires ip.Valid() && forall x <- ignored :: x.Valid()
    ensures ip in ignored <==> ip.Value() in AddressesOf(ignored, ip.family)
  {
    if ip.Value() in AddressesOf(ignored, ip.family) {
      var x :| x in ignored && x.family == ip.family && x.Value() == ip.Value();
      FromBeInjective(x.octets, ip.octets);
    }
  }

  /** `parse_ip_or_cidr_with_ignore`, from the parsed network or address on. */
  method TargetsWithIgnore(token: Token, ignored: seq<Ip>) returns (targets: seq<Target>)
    requires token.Valid() && forall ip <- ignored :: ip.Valid()
    ensures DenotesMinus(targets, token, ignored)
  {
    if token.HostToken? || token.net.prefix == token.family.Width() {
      var addr := if token.HostToken? then token.ip
                  else Ip(token.family, ToBe(token.net.addr, token.family.Octets()));
      if token.NetToken? { FullPrefixToken(token); }
      if addr in ignored {
        targets := [];
      } else {
        targets := [Exact(addr.family, addr.octets)];
        SingleTarget(targets[0], addr, token, ignored);
      }
    } else {
      var family, net := token.family, token.net;
      var values := AddressesOf(ignored, family);
      forall v | v in values ensures v < Pow2(family.Width()) {
        var ip :| ip in ignored && ip.family == family && ip.Value() == v;
        IpBound(ip);
      }
      var subnets, matched := ExcludeEach(family.Width(), net, values);
      TargetsOfDisjointNets(family, subnets, token, ignored);
      if matched {
        targets := TargetsOfNets(family, subnets);
      } else {
        targets := [Cidr(family, net.prefix, ToBe(Network(family.Width(), net), family.Octets()))];
        assert targets == TargetsOfNets(family, [net]);
      }
    }
  }

  /** `parse_ip_or_cidr`, from the parsed network or address on. */
  function SingleTargetOf(token: Token): Target {
    if token.NetToken? then TargetOfNet(token.family, token.net)
    else Exact(token.ip.family, token.ip.octets)
  }

  /** The per-line step of `parse_single_file`: expand only when an ignored address is hit. */
  method LineTargets(token: Token, ignored: seq<Ip>) returns (targets: seq<Target>)
    requires token.Valid() && forall ip <- ignored :: ip.Valid()
    ensures DenotesMinus(targets, token, ignored)
  {
    var single := SingleTargetOf(token);
    if exists ip :: ip in ignored && single.ContainsIp(ip) {
      targets := TargetsWithIgnore(token, ignored);
    } else {
      targets := [single];
      SingleTargetDenotes(token);
      assert single in targets;
      forall ip: Ip | ip.Valid() ensures AnyContains(targets, ip) <==> single.ContainsIp(ip) {}
    }
  }

  lemma SingleTargetDenotes(token: Token)
    requires token.Valid()
    ensures var t := SingleTargetOf(token);
            t.Canonical() && (t.Cidr? ==> t.prefix < t.family.Width())
            && forall ip: Ip :: ip.Valid() ==> (t.ContainsIp(ip) <==> token.Denotes(ip))
  {
    var t := SingleTargetOf(token);
    if token.NetToken? { TargetOfNetDenotes(token.family, token.net); } else { ExactIsCanonical(t); }
    forall ip: Ip | ip.Valid() ensures t.ContainsIp(ip) <==> token.Denotes(ip) { ContainsIpDenotes(t, ip); }
  }
}
