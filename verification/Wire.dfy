/** Frames written field by field, and what both parsers and the verdict make of them. */
module Wire {
  import opened Bits
  import opened Frames
  import opened Outcomes
  import opened Rules
  import opened Targets
  import Prepare
  import Xdp

  // ----- the fields --------------------------------------------------------------------

  /** Two addresses, at most one 802.1Q or 802.1ad tag, and the type of what follows. */
  predicate Link(link: seq<Byte>, high: Byte, low: Byte) {
    || (|link| == 14 && link[12..] == [high, low])
    || (|link| == 18 && link[12..14] in {[0x81, 0x00], [0x88, 0xA8]} && link[16..] == [high, low])
  }

  /** An IPv6 header: version, class and label, payload length, next header, hop limit, addresses. */
  datatype Ip6 = Ip6(first: seq<Byte>, length: seq<Byte>, next: Byte, hops: Byte, src: seq<Byte>, dst: seq<Byte>) {
    predicate Valid() { |first| == 4 && |length| == 2 && |src| == |dst| == 16 }

    function Bytes(): seq<Byte> { first + length + [next, hops] + src + dst }
  }

  /** An IPv4 header: version and length, eight bytes up to the time to live, protocol, checksum,
      addresses, options. */
  datatype Ip4 = Ip4(vhl: Byte, middle: seq<Byte>, protocol: Byte, checksum: seq<Byte>, src: seq<Byte>, dst: seq<Byte>,
                     options: seq<Byte>) {
    predicate Valid() {
      |middle| == 8 && |checksum| == 2 && |src| == |dst| == 4 && 4 * (vhl % 16) == 20 + |options|
    }

    function Bytes(): seq<Byte> { [vhl] + middle + [protocol] + checksum + src + dst + options }
  }

  /** The ports in the first four bytes of a TCP or UDP segment. */
  function PortsIn(protocol: Byte, segment: seq<Byte>): (nat, nat) {
    if protocol in {6, 17} && |segment| >= 4
    then (256 * (segment[0] as nat) + segment[1], 256 * (segment[2] as nat) + segment[3]) else (0, 0)
  }

  // ----- both parsers ------------------------------------------------------------------

  lemma LinkParses(link: seq<Byte>, high: Byte, low: Byte, rest: seq<Byte>, limit: nat)
    requires Link(link, high, low) && [high, low] !in {[0x81, 0x00], [0x88, 0xA8]} && 1 <= limit
    ensures Ethernet(link + rest, limit) == Some(Network(|link|, 256 * high + low))
  {
    var data := link + rest;
    assert data[12] == link[12..][0] && data[13] == link[12..][1];
    if |link| == 18 {
      assert link[12..14] == [data[12], data[13]] && link[16..] == [data[16], data[17]];
      assert SkipTags(data, limit, 0) == SkipTags(data, limit, 1);
    }
  }

  lemma PortsBehind(front: seq<Byte>, segment: seq<Byte>, protocol: Byte)
    ensures Ports(front + segment, |front|, protocol) == PortsIn(protocol, segment)
  {
    assert |segment| >= 4 ==> forall k :: 0 <= k < 4 ==> (front + segment)[|front| + k] == segment[k];
  }

  lemma Ip6Bytes(link: seq<Byte>, h: Ip6, segment: seq<Byte>)
    requires h.Valid()
    ensures |h.Bytes()| == 40
    ensures var data := link + h.Bytes() + segment; var o := |link|;
            && data[o] == h.first[0] && data[o + 6] == h.next
            && data[o + 8..o + 24] == h.src && data[o + 24..o + 40] == h.dst
  {
    var b := h.Bytes();
    assert b[0] == h.first[0] && b[6] == h.next && b[8..24] == h.src && b[24..40] == h.dst;
    Inside(link, b, segment, 8, 24);
    Inside(link, b, segment, 24, 40);
  }

  lemma Inside(a: seq<Byte>, b: seq<Byte>, c: seq<Byte>, i: nat, j: nat)
    requires i <= j <= |b|
    ensures (a + b + c)[|a| + i..|a| + j] == b[i..j]
  {
  }

  /** Whatever an IPv6 frame holds, both parsers read its fields; the library wants version 6. */
  lemma Ipv6Fields(link: seq<Byte>, h: Ip6, segment: seq<Byte>)
    requires Link(link, 0x86, 0xDD) && h.Valid()
    ensures var frame := link + h.Bytes() + segment;
            var (srcPort, dstPort) := PortsIn(h.next, segment);
            var p := Packet(6, h.src, h.dst, h.next, srcPort, dstPort, |frame|, |link| + 40);
            XdpView(frame) == IpPacket(p) && Classify(frame) == if h.first[0] / 16 == 6 then Some(p) else None
  {
    var frame := link + h.Bytes() + segment;
    assert frame == link + (h.Bytes() + segment);
    LinkParses(link, 0x86, 0xDD, h.Bytes() + segment, 1);
    LinkParses(link, 0x86, 0xDD, h.Bytes() + segment, 2);
    Ip6Bytes(link, h, segment);
    PortsBehind(link + h.Bytes(), segment, h.next);
  }

  lemma Ip4Bytes(link: seq<Byte>, h: Ip4, segment: seq<Byte>)
    requires h.Valid()
    ensures |h.Bytes()| == 20 + |h.options|
    ensures var data := link + h.Bytes() + segment; var o := |link|;
            && data[o] == h.vhl && data[o + 9] == h.protocol
            && data[o + 12..o + 16] == h.src && data[o + 16..o + 20] == h.dst
  {
    var b := h.Bytes();
    assert b[0] == h.vhl && b[9] == h.protocol && b[12..16] == h.src && b[16..20] == h.dst;
    Inside(link, b, segment, 12, 16);
    Inside(link, b, segment, 16, 20);
  }

  /** The same of IPv4, options included. */
  lemma Ipv4Fields(link: seq<Byte>, h: Ip4, segment: seq<Byte>)
    requires Link(link, 0x08, 0x00) && h.Valid()
    ensures var frame := link + h.Bytes() + segment;
            var (srcPort, dstPort) := PortsIn(h.protocol, segment);
            var p := Packet(4, h.src + Zeros(12), h.dst + Zeros(12), h.protocol, srcPort, dstPort, |frame|,
                            |link| + 20 + |h.options|);
            XdpView(frame) == IpPacket(p) && Classify(frame) == if h.vhl / 16 == 4 then Some(p) else None
  {
    var frame := link + h.Bytes() + segment;
    assert frame == link + (h.Bytes() + segment);
    LinkParses(link, 0x08, 0x00, h.Bytes() + segment, 1);
    LinkParses(link, 0x08, 0x00, h.Bytes() + segment, 2);
    Ip4Bytes(link, h, segment);
    PortsBehind(link + h.Bytes(), segment, h.protocol);
  }

  // ----- the verdict, by the bytes -----------------------------------------------------

  /** A DNS answer, or an HTTPS answer of the code hosting service. */
  predicate Answers(h: Ip4, segment: seq<Byte>)
    requires h.Valid()
  {
    |segment| >= 4 &&
    ((h.protocol in {6, 17} && segment[..2] == [0, 53])
     || (h.protocol == 6 && segment[..2] == [1, 187] && Prepare.InfrastructureHost(h.src) && h.src[0] != 127))
  }

  /** The address an IPv6 frame is judged by is its source; nothing is bypassed. */
  lemma Ipv6Judged(link: seq<Byte>, h: Ip6, segment: seq<Byte>)
    requires Link(link, 0x86, 0xDD) && h.Valid()
    ensures Xdp.Judged(link + h.Bytes() + segment) == Some(Ip(V6, h.src))
  {
    Ipv6Fields(link, h, segment);
  }

  /** An IPv4 frame is judged by its source, unless it is an answer that is let through. */
  lemma Ipv4Judged(link: seq<Byte>, h: Ip4, segment: seq<Byte>)
    requires Link(link, 0x08, 0x00) && h.Valid()
    ensures Xdp.Judged(link + h.Bytes() + segment) == if Answers(h, segment) then None else Some(Ip(V4, h.src))
  {
    Ipv4Fields(link, h, segment);
    AnswersBypass(h, segment, XdpView(link + h.Bytes() + segment).packet);
  }

  lemma AnswersBypass(h: Ip4, segment: seq<Byte>, p: Packet)
    requires h.Valid() && p.version == 4 && p.src == h.src + Zeros(12) && p.protocol == h.protocol
    requires p.srcPort == PortsIn(h.protocol, segment).0
    ensures p.src[..4] == h.src && (Xdp.Bypassed(p) <==> Answers(h, segment))
  {
    assert p.src[..4] == h.src;
    Xdp.CodeHostingIsInfrastructure(h.src);
    if |segment| >= 4 { assert segment[..2] == [segment[0], segment[1]]; }
  }

  /** An IPv6 frame is dropped if and only if a rule covers its source octets. */
  lemma Ipv6Dropped(t: Tables, link: seq<Byte>, h: Ip6, segment: seq<Byte>)
    requires Routed(t) && AllDrop(t) && Link(link, 0x86, 0xDD) && h.Valid()
    ensures Xdp.Decide(t, link + h.Bytes() + segment).Dropped? <==> Covered(t, Ip(V6, h.src))
  {
    Ipv6Judged(link, h, segment);
    Xdp.DroppedIffCovered(t, link + h.Bytes() + segment);
  }

  /** An IPv4 frame is dropped if and only if a rule covers its source octets and it is no answer. */
  lemma Ipv4Dropped(t: Tables, link: seq<Byte>, h: Ip4, segment: seq<Byte>)
    requires Routed(t) && AllDrop(t) && Link(link, 0x08, 0x00) && h.Valid()
    ensures Xdp.Decide(t, link + h.Bytes() + segment).Dropped? <==> Covered(t, Ip(V4, h.src)) && !Answers(h, segment)
  {
    Ipv4Judged(link, h, segment);
    Xdp.DroppedIffCovered(t, link + h.Bytes() + segment);
  }

  // ----- every packet is written so ----------------------------------------------------

  lemma LinkRead(data: seq<Byte>, high: Byte, low: Byte) returns (offset: nat)
    requires Ethernet(data, 1).Some? && Ethernet(data, 1).value.etherType == 256 * (high as nat) + low
    requires [high, low] !in {[0x81, 0x00], [0x88, 0xA8]}
    ensures offset == Ethernet(data, 1).value.offset <= |data| && Link(data[..offset], high, low)
  {
    offset := Ethernet(data, 1).value.offset;
    var k := Stop(data, 1);
    var link := data[..offset];
    if k == 0 {
      assert link[12..] == [data[12], data[13]];
    } else {
      assert link[12..14] == [data[12], data[13]] && link[16..] == [data[16], data[17]];
    }
  }

  lemma Cut(data: seq<Byte>, i: nat, j: nat)
    requires i <= j <= |data|
    ensures data == data[..i] + data[i..j] + data[j..]
  {
  }

  lemma Ip6At(b: seq<Byte>) returns (h: Ip6)
    requires |b| == 40
    ensures h.Valid() && h.Bytes() == b
  {
    h := Ip6(b[..4], b[4..6], b[6], b[7], b[8..24], b[24..]);
  }

  lemma Ip4At(b: seq<Byte>) returns (h: Ip4)
    requires |b| >= 20 && |b| == 4 * (b[0] % 16)
    ensures h.Valid() && h.Bytes() == b
  {
    h := Ip4(b[0], b[1..9], b[9], b[10..12], b[12..16], b[16..20], b[20..]);
  }

  lemma Ipv6Written(data: seq<Byte>) returns (link: seq<Byte>, h: Ip6, segment: seq<Byte>)
    requires XdpView(data).IpPacket? && XdpView(data).packet.version == 6
    ensures Link(link, 0x86, 0xDD) && h.Valid() && data == link + h.Bytes() + segment
  {
    var o := LinkRead(data, 0x86, 0xDD);
    link, segment := data[..o], data[o + 40..];
    h := Ip6At(data[o..o + 40]);
    Cut(data, o, o + 40);
  }

  lemma Ipv4Written(data: seq<Byte>) returns (link: seq<Byte>, h: Ip4, segment: seq<Byte>)
    requires XdpView(data).IpPacket? && XdpView(data).packet.version == 4
    ensures Link(link, 0x08, 0x00) && h.Valid() && data == link + h.Bytes() + segment
  {
    var o := LinkRead(data, 0x08, 0x00);
    var end := o + 4 * (data[o] % 16);
    link, segment := data[..o], data[end..];
    h := Ip4At(data[o..end]);
    Cut(data, o, end);
  }

  /** Every dropped frame is one of these two kinds, so the two theorems say which frames are dropped. */
  lemma DroppedIsWritten(t: Tables, data: seq<Byte>)
    requires Xdp.Decide(t, data).Dropped?
    ensures (exists link, h: Ip4, segment :: Link(link, 0x08, 0x00) && h.Valid() && data == link + h.Bytes() + segment)
            || (exists link, h: Ip6, segment :: Link(link, 0x86, 0xDD) && h.Valid() && data == link + h.Bytes() + segment)
  {
    if XdpView(data).packet.version == 4 {
      var link, h, segment := Ipv4Written(data);
    } else {
      var link, h, segment := Ipv6Written(data);
    }
  }
}
