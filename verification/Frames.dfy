/** Parsing a raw frame: the library classifier and the view the XDP program takes. */
module Frames {
  import opened Bits
  import opened Checksum
  import opened Outcomes

  const TCP: Byte := 6
  const ETH_IPV4 := 0x0800
  const ETH_IPV6 := 0x86DD

  function U16(data: seq<Byte>, at: nat): nat
    requires at + 2 <= |data|
  {
    Word(data[at], data[at + 1])
  }

  predicate InBounds(total: nat, offset: nat, needed: nat) { offset + needed <= total }

  /** 802.1Q and 802.1ad tag types. */
  predicate IsTag(etherType: nat) { etherType == 0x8100 || etherType == 0x88A8 }

  /** Where the network header starts and what it is. */
  datatype Network = Network(offset: nat, etherType: nat)

  datatype Packet = Packet(version: nat, src: seq<Byte>, dst: seq<Byte>, protocol: Byte,
                           srcPort: nat, dstPort: nat, length: nat, l4: nat)

  // ----- Ethernet ----------------------------------------------------------------------

  /** All of the first `k` type fields are VLAN tags; type field `j` lies at `12 + 4 * j`. */
  predicate Tagged(data: seq<Byte>, k: nat) {
    |data| >= 14 + 4 * k && forall j :: 0 <= j < k ==> IsTag(U16(data, 12 + 4 * j))
  }

  /** Stripping at most `limit` tags stops behind `k` of them. */
  predicate StopsAt(data: seq<Byte>, limit: nat, r: Option<Network>, k: nat) {
    k <= limit && Tagged(data, k) &&
    match r
    case Some(n) => n == Network(14 + 4 * k, U16(data, 12 + 4 * k)) && (k == limit || !IsTag(n.etherType))
    case None => k < limit && IsTag(U16(data, 12 + 4 * k)) && |data| < 18 + 4 * k
  }

  function SkipTags(data: seq<Byte>, limit: nat, k: nat): (r: Option<Network>)
    requires Tagged(data, k) && k <= limit
    ensures exists l: nat :: StopsAt(data, limit, r, l)
    decreases limit - k
  {
    var etherType := U16(data, 12 + 4 * k);
    if k == limit || !IsTag(etherType) then
      var r := Some(Network(14 + 4 * k, etherType));
      assert StopsAt(data, limit, r, k);
      r
    else if |data| < 18 + 4 * k then
      assert StopsAt(data, limit, None, k);
      None
    else SkipTags(data, limit, k + 1)
  }

  /** The network header behind at most `limit` tags: 2 in the library, 1 in the XDP program. */
  function Ethernet(data: seq<Byte>, limit: nat): (r: Option<Network>)
    ensures |data| >= 14 ==> exists k: nat :: StopsAt(data, limit, r, k)
    ensures |data| < 14 ==> r.None?
  {
    if |data| < 14 then None else SkipTags(data, limit, 0)
  }

  /** Only one result stops at some tag. */
  lemma StopsOnce(data: seq<Byte>, limit: nat, a: Option<Network>, k: nat, b: Option<Network>, l: nat)
    requires StopsAt(data, limit, a, k) && StopsAt(data, limit, b, l)
    ensures a == b && k == l
  {
  }

  method ParseEthernet(data: seq<Byte>) returns (r: Option<Network>)
    ensures r == Ethernet(data, 2)
  {
    if !InBounds(|data|, 0, 14) {
      return None;
    }
    var etherType, offset := U16(data, 12), 14;
    for k := 0 to 2
      invariant offset == 14 + 4 * k && Tagged(data, k) && etherType == U16(data, 12 + 4 * k)
      invariant Ethernet(data, 2) == SkipTags(data, 2, k)
    {
      if !IsTag(etherType) {
        break;
      }
      if !InBounds(|data|, offset, 4) {
        return None;
      }
      etherType := U16(data, offset + 2);
      offset := offset + 4;
    }
    r := Some(Network(offset, etherType));
  }

  // ----- IPv4, IPv6 and transport ------------------------------------------------------

  /** `(0, 0)` unless TCP or UDP ports are there. */
  function Ports(data: seq<Byte>, l4: nat, protocol: Byte): (nat, nat) {
    if (protocol == TCP || protocol == UDP) && InBounds(|data|, l4, 4)
    then (U16(data, l4), U16(data, l4 + 2)) else (0, 0)
  }

  /** The header fields both programs read from an IPv4 header that fits the frame. */
  function Ipv4Packet(data: seq<Byte>, offset: nat): Option<Packet> {
    if !InBounds(|data|, offset, 20) then None else
    var header := 4 * (data[offset] % 16);
    if header < 20 || !InBounds(|data|, offset, header) then None else
    var protocol, l4 := data[offset + 9], offset + header;
    var (srcPort, dstPort) := Ports(data, l4, protocol);
    Some(Packet(4, data[offset + 12..offset + 16] + Zeros(12), data[offset + 16..offset + 20] + Zeros(12),
                protocol, srcPort, dstPort, |data|, l4))
  }

  function Ipv6Packet(data: seq<Byte>, offset: nat): Option<Packet> {
    if !InBounds(|data|, offset, 40) then None else
    var protocol, l4 := data[offset + 6], offset + 40;
    var (srcPort, dstPort) := Ports(data, l4, protocol);
    Some(Packet(6, data[offset + 8..offset + 24], data[offset + 24..offset + 40],
                protocol, srcPort, dstPort, |data|, l4))
  }

  /** The library checks the version nibble as well. */
  function Versioned(data: seq<Byte>, offset: nat, version: nat, p: Option<Packet>): Option<Packet> {
    if offset < |data| && data[offset] / 16 == version then p else None
  }

  /** `classify_packet` of the library. */
  function Classify(data: seq<Byte>): Option<Packet> {
    match Ethernet(data, 2)
    case None => None
    case Some(Network(offset, etherType)) =>
      if etherType == ETH_IPV4 then Versioned(data, offset, 4, Ipv4Packet(data, offset))
      else if etherType == ETH_IPV6 then Versioned(data, offset, 6, Ipv6Packet(data, offset))
      else None
  }

  datatype View = Malformed | NotIp | IpPacket(packet: Packet)

  /** What `try_firewall` makes of a frame. */
  function XdpView(data: seq<Byte>): View {
    match Ethernet(data, 1)
    case None => Malformed
    case Some(Network(offset, etherType)) =>
      if etherType == ETH_IPV4 then ViewOf(Ipv4Packet(data, offset))
      else if etherType == ETH_IPV6 then ViewOf(Ipv6Packet(data, offset))
      else NotIp
  }

  function ViewOf(p: Option<Packet>): View {
    match p case None => Malformed case Some(q) => IpPacket(q)
  }

  /** The version nibble in front of the network header the XDP program found. */
  predicate VersionAgrees(data: seq<Byte>) {
    match Ethernet(data, 1)
    case None => true
    case Some(n) => n.offset < |data| ==>
      (n.etherType == ETH_IPV4 ==> data[n.offset] / 16 == 4) && (n.etherType == ETH_IPV6 ==> data[n.offset] / 16 == 6)
  }

  /**
   * The two parsers part in exactly two ways: the library sees through a second tag,
   * which the XDP program takes for a frame without an IP header, and the XDP program
   * does not look at the version nibble. Packets both accept are read alike.
   */
  lemma ParsersAgree(data: seq<Byte>)
    ensures XdpView(data).IpPacket? && Classify(data).Some? ==> XdpView(data).packet == Classify(data).value
    ensures XdpView(data).IpPacket? && Classify(data).None? <==> XdpView(data).IpPacket? && !VersionAgrees(data)
    ensures Classify(data).Some? && !XdpView(data).IpPacket? <==> Classify(data).Some? && Tagged(data, 2)
    ensures Tagged(data, 2) ==> XdpView(data) == NotIp
  {
    if |data| >= 14 {
      var k := Stop(data, 1);
      var l := Stop(data, 2);
    }
  }

  lemma Stop(data: seq<Byte>, limit: nat) returns (k: nat)
    requires |data| >= 14
    ensures StopsAt(data, limit, Ethernet(data, limit), k)
  {
    k :| StopsAt(data, limit, Ethernet(data, limit), k);
  }

  /** An IPv4 header without options, with the given version nibble. */
  function PlainHeader(version: nat): (h: seq<Byte>)
    requires version < 16
    ensures |h| == 20
  {
    [16 * version + 5, 0, 0, 20, 0, 0, 0, 0, 64, 59, 0, 0, 192, 0, 2, 1, 198, 51, 100, 1]
  }

  /** Behind two tags the library finds an IPv4 packet, the XDP program no IP at all. */
  lemma BehindTwoTags(frame: seq<Byte>)
    requires |frame| >= 42 && IsTag(U16(frame, 12)) && IsTag(U16(frame, 16)) && U16(frame, 20) == ETH_IPV4
    requires frame[22] == 0x45
    ensures Classify(frame).Some? && XdpView(frame) == NotIp
  {
    assert Tagged(frame, 2);
    ParsersAgree(frame);
    assert SkipTags(frame, 2, 0) == SkipTags(frame, 2, 1) == SkipTags(frame, 2, 2);
  }

  /** Behind the IPv4 type the XDP program reads a header with any version, the library does not. */
  lemma BehindWrongVersion(frame: seq<Byte>)
    requires |frame| >= 34 && U16(frame, 12) == ETH_IPV4 && frame[14] % 16 == 5 && frame[14] / 16 != 4
    ensures XdpView(frame).IpPacket? && Classify(frame).None?
  {
    assert SkipTags(frame, 1, 0) == Some(Network(14, ETH_IPV4));
    assert SkipTags(frame, 2, 0) == Some(Network(14, ETH_IPV4));
  }

  /** A frame with two tags: a packet to the library, no IP at all to the XDP program. */
  lemma DoubleTagSeenByLibraryOnly(frame: seq<Byte>)
    requires frame == Zeros(12) + ([0x88, 0xA8, 0, 1, 0x81, 0x00, 0, 2, 0x08, 0x00] + PlainHeader(4))
    ensures Classify(frame).Some? && XdpView(frame) == NotIp
  {
    var tags: seq<Byte> := [0x88, 0xA8, 0, 1, 0x81, 0x00, 0, 2, 0x08, 0x00];
    assert frame[12] == tags[0] && frame[13] == tags[1] && frame[16] == tags[4] && frame[17] == tags[5];
    assert frame[20] == tags[8] && frame[21] == tags[9] && frame[22] == PlainHeader(4)[0];
    BehindTwoTags(frame);
  }

  /** A frame whose header says version 6 behind the IPv4 type: read by the XDP program only. */
  lemma WrongVersionSeenByXdpOnly(frame: seq<Byte>)
    requires frame == Zeros(12) + ([0x08, 0x00] + PlainHeader(6))
    ensures XdpView(frame).IpPacket? && Classify(frame).None?
  {
    assert frame[12] == 0x08 && frame[13] == 0x00 && frame[14] == PlainHeader(6)[0];
    BehindWrongVersion(frame);
  }
}
