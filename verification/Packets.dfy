/** Building IPv4 TCP and UDP packets in a caller's buffer, and parsing them back. */
module Packets {
  import opened Bits
  import opened Checksum
  import opened Frames
  import opened Outcomes

  // ----- the bytes of a packet ---------------------------------------------------------

  /** `to_be_bytes` after a cast to 16 bits. */
  function Be16(v: nat): (b: seq<Byte>)
    ensures |b| == 2
  {
    var w := v % 65536;
    [w / 256, w % 256]
  }

  lemma Be16Value(v: nat)
    ensures Word(Be16(v)[0], Be16(v)[1]) == v % 65536
  {
    var w := v % 65536;
    assert 256 * (w / 256) + w % 256 == w;
  }

  function Be32(v: nat): (b: seq<Byte>)
    ensures |b| == 4
  {
    Be16(v / 65536) + Be16(v)
  }

  /** Anything with a checksum field: what is before it, the checksum, what is behind it. */
  function Sealed(front: seq<Byte>, checksum: nat, tail: seq<Byte>): (s: seq<Byte>)
    ensures |s| == |front| + 2 + |tail|
  {
    front + Be16(checksum) + tail
  }

  function HeaderFront(total: nat, id: nat, proto: Byte): (h: seq<Byte>)
    ensures |h| == 10
  {
    [0x45, 0] + Be16(total) + Be16(id) + [0x40, 0] + [64, proto]
  }

  function TcpFront(srcPort: nat, dstPort: nat, sequence: nat): (h: seq<Byte>)
    ensures |h| == 16
  {
    Be16(srcPort) + Be16(dstPort) + Be32(sequence) + [0, 0, 0, 0] + [0x50, 0x02] + Be16(64240)
  }

  function UdpFront(srcPort: nat, dstPort: nat, length: nat): (h: seq<Byte>)
    ensures |h| == 6
  {
    Be16(srcPort) + Be16(dstPort) + Be16(length)
  }

  function HeaderChecksum(front: seq<Byte>, tail: seq<Byte>): nat {
    Complement(Residue(WordSum(Sealed(front, 0, tail))))
  }

  function Header(total: nat, id: nat, proto: Byte, src: seq<Byte>, dst: seq<Byte>): (h: seq<Byte>)
    requires |src| == |dst| == 4
    ensures |h| == 20
  {
    var front := HeaderFront(total, id, proto);
    Sealed(front, HeaderChecksum(front, src + dst), src + dst)
  }

  function SegmentChecksum(src: seq<Byte>, dst: seq<Byte>, proto: Byte, segment: seq<Byte>): (c: nat)
    requires |src| == |dst| == 4
    ensures c <= 65535
  {
    Sealing(PseudoSum(src, dst, proto, |segment|) + WordSum(segment), proto)
  }

  function Segment(src: seq<Byte>, dst: seq<Byte>, proto: Byte, front: seq<Byte>, tail: seq<Byte>): (s: seq<Byte>)
    requires |src| == |dst| == 4
    ensures |s| == |front| + 2 + |tail|
  {
    Sealed(front, SegmentChecksum(src, dst, proto, Sealed(front, 0, tail)), tail)
  }

  /** The 32-bit sum over pseudo header and segment does not overflow. */
  predicate SegmentFits(src: seq<Byte>, dst: seq<Byte>, proto: Byte, front: seq<Byte>, tail: seq<Byte>)
    requires |src| == |dst| == 4
  {
    var segment := Sealed(front, 0, tail);
    PseudoSum(src, dst, proto, |segment|) + WordSum(segment) <= MAX_U32
  }

  // ----- checksums of finished packets -------------------------------------------------

  lemma SealedSum(front: seq<Byte>, checksum: nat, tail: seq<Byte>)
    requires |front| % 2 == 0 && checksum <= 65535
    ensures WordSum(Sealed(front, checksum, tail)) == WordSum(Sealed(front, 0, tail)) + checksum
  {
    Parts(front, checksum, tail);
    Parts(front, 0, tail);
  }

  lemma Parts(front: seq<Byte>, checksum: nat, tail: seq<Byte>)
    requires |front| % 2 == 0 && checksum <= 65535
    ensures WordSum(Sealed(front, checksum, tail)) == WordSum(front) + checksum + WordSum(tail)
  {
    Be16Value(checksum);
    ThreeParts(front, Be16(checksum), tail);
  }

  lemma ThreeParts(front: seq<Byte>, word: seq<Byte>, tail: seq<Byte>)
    requires |front| % 2 == 0 && |word| == 2
    ensures WordSum(front + word + tail) == WordSum(front) + Word(word[0], word[1]) + WordSum(tail)
  {
    WordSumConcat(front + word, tail);
    WordSumConcat(front, word);
    assert word[2..] == [];
  }

  /** The finished IPv4 header has checksum 0. */
  lemma HeaderVerifies(total: nat, id: nat, proto: Byte, src: seq<Byte>, dst: seq<Byte>)
    requires |src| == |dst| == 4
    ensures Complement(Residue(WordSum(Header(total, id, proto, src, dst)))) == 0
  {
    var front := HeaderFront(total, id, proto);
    SealedSum(front, HeaderChecksum(front, src + dst), src + dst);
    FilledInVerifies(WordSum(Sealed(front, 0, src + dst)));
  }

  /** The finished segment verifies with its pseudo header, whatever its length. */
  lemma SegmentVerifies(src: seq<Byte>, dst: seq<Byte>, proto: Byte, front: seq<Byte>, tail: seq<Byte>)
    requires |src| == |dst| == 4 && |front| % 2 == 0
    ensures Verifies(src, dst, proto, Segment(src, dst, proto, front, tail))
  {
    var zero := Sealed(front, 0, tail);
    SealedSum(front, SegmentChecksum(src, dst, proto, zero), tail);
    Seals(PseudoSum(src, dst, proto, |zero|) + WordSum(zero), proto);
  }

  // ----- writing into the buffer -------------------------------------------------------

  ghost predicate Written(buf: array<Byte>, start: nat, bytes: seq<Byte>)
    reads buf
  {
    start + |bytes| <= buf.Length && buf[start..start + |bytes|] == bytes
  }

  /** `copy_from_slice` right behind what was written from `start` on. */
  method Append(buf: array<Byte>, ghost start: nat, ghost sofar: seq<Byte>, at: nat, bytes: seq<Byte>)
    requires Written(buf, start, sofar) && at == start + |sofar| && at + |bytes| <= buf.Length
    modifies buf
    ensures Written(buf, start, sofar + bytes)
    ensures forall i :: 0 <= i < start || at + |bytes| <= i < buf.Length ==> buf[i] == old(buf[i])
  {
    for i := 0 to |bytes|
      invariant buf[start..at + i] == sofar + bytes[..i]
      invariant forall j :: 0 <= j < start || at + |bytes| <= j < buf.Length ==> buf[j] == old(buf[j])
    {
      ghost var before := buf[start..at + i];
      buf[at + i] := bytes[i];
      assert buf[start..at + i + 1] == before + [bytes[i]];
      assert bytes[..i + 1] == bytes[..i] + [bytes[i]];
    }
    assert bytes[..|bytes|] == bytes;
  }

  /** Front, a zero checksum and tail, one behind the other. */
  method WriteUnsealed(buf: array<Byte>, start: nat, front: seq<Byte>, tail: seq<Byte>)
    requires start + |front| + 2 + |tail| <= buf.Length
    modifies buf
    ensures Written(buf, start, Sealed(front, 0, tail))
    ensures forall i :: 0 <= i < start || start + |front| + 2 + |tail| <= i < buf.Length ==> buf[i] == old(buf[i])
  {
    Append(buf, start, [], start, front);
    Append(buf, start, [] + front, start + |front|, Be16(0));
    Append(buf, start, [] + front + Be16(0), start + |front| + 2, tail);
    assert [] + front == front;
  }

  /** Fill in the checksum field. */
  method Seal(buf: array<Byte>, ghost start: nat, ghost front: seq<Byte>, ghost tail: seq<Byte>, at: nat, checksum: nat)
    requires Written(buf, start, Sealed(front, 0, tail)) && at == start + |front|
    modifies buf
    ensures Written(buf, start, Sealed(front, checksum, tail))
    ensures forall i :: 0 <= i < start || at + 2 + |tail| <= i < buf.Length ==> buf[i] == old(buf[i])
  {
    ghost var end := at + 2 + |tail|;
    Unsealed(front, tail, buf[start..end]);
    assert buf[start..end][..|front|] == buf[start..at];
    assert buf[start..end][|front| + 2..] == buf[at + 2..end];
    var bytes := Be16(checksum);
    buf[at] := bytes[0];
    buf[at + 1] := bytes[1];
    Resealed(buf[start..end], front, bytes, tail);
  }

  lemma Unsealed(front: seq<Byte>, tail: seq<Byte>, whole: seq<Byte>)
    requires whole == Sealed(front, 0, tail)
    ensures whole[..|front|] == front && whole[|front| + 2..] == tail
  {
  }

  lemma Resealed<T>(whole: seq<T>, front: seq<T>, mid: seq<T>, tail: seq<T>)
    requires |whole| == |front| + |mid| + |tail| && |mid| == 2
    requires whole[..|front|] == front && whole[|front|] == mid[0] && whole[|front| + 1] == mid[1]
    requires whole[|front| + 2..] == tail
    ensures whole == front + mid + tail
  {
  }

  method WriteIpv4Header(buf: array<Byte>, src: seq<Byte>, dst: seq<Byte>, proto: Byte, id: nat, payloadLength: nat)
    requires |src| == |dst| == 4 && buf.Length >= 20
    modifies buf
    ensures Written(buf, 0, Header(20 + payloadLength, id, proto, src, dst))
    ensures forall i :: 20 <= i < buf.Length ==> buf[i] == old(buf[i])
  {
    var front := HeaderFront(20 + payloadLength, id, proto);
    WriteUnsealed(buf, 0, front, src + dst);
    SumFits(buf[0..20]);
    var checksum := InternetChecksum(buf[0..20]);
    Seal(buf, 0, front, src + dst, 10, checksum);
  }

  // ----- whole packets -----------------------------------------------------------------

  function TcpPacket(src: seq<Byte>, dst: seq<Byte>, srcPort: nat, dstPort: nat, sequence: nat, id: nat,
                     payload: seq<Byte>): seq<Byte>
    requires |src| == |dst| == 4
  {
    Header(40 + |payload|, id, TCP, src, dst)
    + Segment(src, dst, TCP, TcpFront(srcPort, dstPort, sequence), [0, 0] + payload)
  }

  function UdpPacket(src: seq<Byte>, dst: seq<Byte>, srcPort: nat, dstPort: nat, id: nat, payload: seq<Byte>): seq<Byte>
    requires |src| == |dst| == 4
  {
    Header(28 + |payload|, id, UDP, src, dst)
    + Segment(src, dst, UDP, UdpFront(srcPort, dstPort, 8 + |payload|), payload)
  }

  /** The segment at its place behind the header, checksum last. */
  method WriteTransport(buf: array<Byte>, src: seq<Byte>, dst: seq<Byte>, proto: Byte, front: seq<Byte>, tail: seq<Byte>)
    requires |src| == |dst| == 4 && buf.Length >= 22 + |front| + |tail| && SegmentFits(src, dst, proto, front, tail)
    modifies buf
    ensures Written(buf, 20, Segment(src, dst, proto, front, tail))
    ensures forall i :: 22 + |front| + |tail| <= i < buf.Length ==> buf[i] == old(buf[i])
  {
    WriteUnsealed(buf, 20, front, tail);
    var checksum := L4Checksum(src, dst, proto, buf[20..22 + |front| + |tail|]);
    Seal(buf, 20, front, tail, 20 + |front|, checksum);
  }

  lemma Joined(buf: array<Byte>, header: seq<Byte>, segment: seq<Byte>)
    requires |header| == 20 && Written(buf, 0, header) && Written(buf, 20, segment)
    ensures Written(buf, 0, header + segment)
  {
    var end := 20 + |segment|;
    assert buf[0..end] == buf[0..20] + buf[20..end];
  }

  /** Segment first, then the header in front of it, as both builders do. */
  method WriteSegment(buf: array<Byte>, src: seq<Byte>, dst: seq<Byte>, proto: Byte, front: seq<Byte>, tail: seq<Byte>,
                      id: nat)
    requires |src| == |dst| == 4 && buf.Length >= 22 + |front| + |tail| && SegmentFits(src, dst, proto, front, tail)
    modifies buf
    ensures Written(buf, 0, Header(22 + |front| + |tail|, id, proto, src, dst)
                            + Segment(src, dst, proto, front, tail))
    ensures forall i :: 22 + |front| + |tail| <= i < buf.Length ==> buf[i] == old(buf[i])
  {
    ghost var segment := Segment(src, dst, proto, front, tail);
    WriteTransport(buf, src, dst, proto, front, tail);
    WriteIpv4Header(buf, src, dst, proto, id, |front| + 2 + |tail|);
    assert Written(buf, 20, segment);
    Joined(buf, Header(22 + |front| + |tail|, id, proto, src, dst), segment);
  }

  /** The 32-bit sum must not overflow; nothing else bounds the payload but the buffer. */
  method BuildIpv4TcpSyn(buf: array<Byte>, src: seq<Byte>, dst: seq<Byte>, srcPort: nat, dstPort: nat, sequence: nat,
                         id: nat, payload: seq<Byte>) returns (total: nat)
    requires |src| == |dst| == 4 && buf.Length >= 40 + |payload|
    requires SegmentFits(src, dst, TCP, TcpFront(srcPort, dstPort, sequence), [0, 0] + payload)
    modifies buf
    ensures total == 40 + |payload|
    ensures buf[..total] == TcpPacket(src, dst, srcPort, dstPort, sequence, id, payload)
    ensures forall i :: total <= i < buf.Length ==> buf[i] == old(buf[i])
  {
    WriteSegment(buf, src, dst, TCP, TcpFront(srcPort, dstPort, sequence), [0, 0] + payload, id);
    total := 40 + |payload|;
  }

  /** A datagram longer than its 16-bit length field panics in the copy of the payload. */
  method BuildIpv4Udp(buf: array<Byte>, src: seq<Byte>, dst: seq<Byte>, srcPort: nat, dstPort: nat,
                      id: nat, payload: seq<Byte>) returns (total: nat)
    requires |src| == |dst| == 4
    requires 8 + |payload| <= 65535 && buf.Length >= 28 + |payload|
    modifies buf
    ensures total == 28 + |payload|
    ensures buf[..total] == UdpPacket(src, dst, srcPort, dstPort, id, payload)
    ensures forall i :: total <= i < buf.Length ==> buf[i] == old(buf[i])
  {
    UdpFits(src, dst, srcPort, dstPort, payload);
    WriteSegment(buf, src, dst, UDP, UdpFront(srcPort, dstPort, 8 + |payload|), payload, id);
    total := 28 + |payload|;
  }

  lemma PseudoBound(src: seq<Byte>, dst: seq<Byte>, proto: Byte, length: nat)
    requires |src| == |dst| == 4
    ensures PseudoSum(src, dst, proto, length) <= 262140 + proto + length % 65536
  {
  }

  lemma UdpFits(src: seq<Byte>, dst: seq<Byte>, srcPort: nat, dstPort: nat, payload: seq<Byte>)
    requires |src| == |dst| == 4 && 8 + |payload| <= 65535
    ensures SegmentFits(src, dst, UDP, UdpFront(srcPort, dstPort, 8 + |payload|), payload)
  {
    var segment := Sealed(UdpFront(srcPort, dstPort, 8 + |payload|), 0, payload);
    SumFits(segment);
    PseudoBound(src, dst, UDP, |segment|);
  }

  /** Every TCP payload of at most 131054 bytes fits: acknowledgement, checksum and urgent
      pointer are zero, flags and window are fixed. */
  lemma TcpFits(src: seq<Byte>, dst: seq<Byte>, srcPort: nat, dstPort: nat, sequence: nat, payload: seq<Byte>)
    requires |src| == |dst| == 4 && |payload| <= 131054
    ensures SegmentFits(src, dst, TCP, TcpFront(srcPort, dstPort, sequence), [0, 0] + payload)
  {
    var front := TcpFront(srcPort, dstPort, sequence);
    var segment := Sealed(front, 0, [0, 0] + payload);
    TcpSegmentSum(srcPort, dstPort, sequence, payload);
    SumFits(payload);
    PseudoBound(src, dst, TCP, |segment|);
    TcpSumFits(|payload|, WordSum(payload), WordSum(segment), PseudoSum(src, dst, TCP, |segment|), |segment|);
  }

  /** From 131052 payload bytes on, the 16-bit segment length of the pseudo header has wrapped around. */
  lemma TcpSumFits(payload: nat, payloadSum: nat, segmentSum: nat, pseudoSum: nat, length: nat)
    requires payload <= 131054 && length == 20 + payload && payloadSum <= 65535 * ((payload + 1) / 2)
    requires segmentSum <= 4 * 65535 + 0x5002 + 64240 + payloadSum && pseudoSum <= 262140 + TCP + length % 65536
    ensures pseudoSum + segmentSum <= MAX_U32
  {
    if payload <= 131051 {
      assert (payload + 1) / 2 <= 65526;
    } else {
      assert length % 65536 <= 2;
    }
  }

  lemma TcpSegmentSum(srcPort: nat, dstPort: nat, sequence: nat, payload: seq<Byte>)
    ensures WordSum(Sealed(TcpFront(srcPort, dstPort, sequence), 0, [0, 0] + payload))
            <= 4 * 65535 + 0x5002 + 64240 + WordSum(payload)
  {
    Parts(TcpFront(srcPort, dstPort, sequence), 0, [0, 0] + payload);
    NoWord(payload);
    TcpFrontSum(srcPort, dstPort, sequence);
  }

  lemma NoWord(rest: seq<Byte>)
    ensures WordSum([0, 0] + rest) == WordSum(rest)
  {
    OneWord([0, 0]);
    WordSumConcat([0, 0], rest);
  }

  lemma TcpFrontSum(srcPort: nat, dstPort: nat, sequence: nat)
    ensures WordSum(TcpFront(srcPort, dstPort, sequence)) <= 4 * 65535 + 0x5002 + 64240
  {
    var ports, rest := Be16(srcPort) + Be16(dstPort) + Be32(sequence), [0, 0, 0, 0] + [0x50, 0x02] + Be16(64240);
    assert TcpFront(srcPort, dstPort, sequence) == ports + rest;
    WordSumConcat(ports, rest);
    SumFits(ports);
    FixedFront();
  }

  lemma FixedFront()
    ensures WordSum([0, 0, 0, 0] + [0x50, 0x02] + Be16(64240)) == 0x5002 + 64240
  {
    var zero: seq<Byte>, flags: seq<Byte>, window := [0, 0], [0x50, 0x02], Be16(64240);
    assert [0, 0, 0, 0] == zero + zero;
    FourWords(zero, zero, flags, window);
    Be16Value(64240);
  }

  lemma FourWords(a: seq<Byte>, b: seq<Byte>, c: seq<Byte>, d: seq<Byte>)
    requires |a| == |b| == |c| == |d| == 2
    ensures WordSum(a + b + c + d) == Word(a[0], a[1]) + Word(b[0], b[1]) + Word(c[0], c[1]) + Word(d[0], d[1])
  {
    WordSumConcat(a + b + c, d);
    WordSumConcat(a + b, c);
    WordSumConcat(a, b);
    OneWord(a);
    OneWord(b);
    OneWord(c);
    OneWord(d);
  }

  lemma OneWord(w: seq<Byte>)
    requires |w| == 2
    ensures WordSum(w) == Word(w[0], w[1])
  {
    assert w[2..] == [];
  }

  /** The pseudo header: addresses, a zero byte, the protocol and the 16-bit length. */
  lemma PseudoHeader(src: seq<Byte>, dst: seq<Byte>, proto: Byte, length: nat)
    requires |src| == |dst| == 4
    ensures PseudoSum(src, dst, proto, length) == WordSum(src + dst + [0, proto] + Be16(length))
  {
    WordSumConcat(src + dst + [0, proto], Be16(length));
    WordSumConcat(src + dst, [0, proto]);
    WordSumConcat(src, dst);
    OneWord(Be16(length));
    Be16Value(length);
    OneWord([0, proto]);
    AddressSum(src);
    AddressSum(dst);
  }

  lemma AddressSum(a: seq<Byte>)
    requires |a| == 4
    ensures WordSum(a) == Word(a[0], a[1]) + Word(a[2], a[3])
  {
    assert a == a[..2] + a[2..];
    WordSumConcat(a[..2], a[2..]);
    OneWord(a[..2]);
    OneWord(a[2..]);
  }

  /** A segment verifies when pseudo header and segment together, as one string of bytes, do. */
  lemma VerifiesAsBytes(src: seq<Byte>, dst: seq<Byte>, proto: Byte, segment: seq<Byte>, header: seq<Byte>)
    requires |src| == |dst| == 4 && header == src + dst + [0, proto] + Be16(|segment|)
    ensures Verifies(src, dst, proto, segment) <==> Residue(WordSum(header + segment)) == 65535
  {
    PseudoHeader(src, dst, proto, |segment|);
    BehindHeader(header, segment, PseudoSum(src, dst, proto, |segment|));
  }

  lemma BehindHeader(header: seq<Byte>, segment: seq<Byte>, sum: nat)
    requires |header| % 2 == 0 && sum == WordSum(header)
    ensures Residue(sum + WordSum(segment)) == Residue(WordSum(header + segment))
  {
    WordSumConcat(header, segment);
  }

  // ----- parsing built packets ---------------------------------------------------------

  /** An Ethernet header in front of an IPv4 packet. */
  predicate Ethernet4(eth: seq<Byte>) { |eth| == 14 && U16(eth, 12) == ETH_IPV4 }

  lemma HeaderFields(total: nat, id: nat, proto: Byte, src: seq<Byte>, dst: seq<Byte>)
    requires |src| == |dst| == 4
    ensures var h := Header(total, id, proto, src, dst);
            h[0] == 0x45 && h[9] == proto && h[12..16] == src && h[16..20] == dst
    ensures var h := Header(total, id, proto, src, dst);
            U16(h, 2) == total % 65536 && U16(h, 4) == id % 65536 && h[6..9] == [0x40, 0, 64]
  {
    var h := Header(total, id, proto, src, dst);
    var front := HeaderFront(total, id, proto);
    assert h[..10] == front;
    assert front[0] == 0x45 && front[9] == proto && front[2..4] == Be16(total) && front[4..6] == Be16(id);
    assert forall k :: 0 <= k < 10 ==> h[k] == h[..10][k];
    WordAt(front, 2, total);
    WordAt(front, 4, id);
  }

  lemma WordAt(data: seq<Byte>, at: nat, v: nat)
    requires at + 2 <= |data| && data[at..at + 2] == Be16(v)
    ensures U16(data, at) == v % 65536
  {
    assert data[at] == data[at..at + 2][0] && data[at + 1] == data[at..at + 2][1];
    Be16Value(v);
  }

  /** The other fields of a built TCP packet: lengths, id, sequence number, no acknowledgement, five
      words of header, the SYN flag, the window; and the payload. */
  lemma TcpFields(src: seq<Byte>, dst: seq<Byte>, srcPort: nat, dstPort: nat, sequence: nat, id: nat, payload: seq<Byte>)
    requires |src| == |dst| == 4
    ensures var p := TcpPacket(src, dst, srcPort, dstPort, sequence, id, payload);
            && |p| == 40 + |payload| && U16(p, 2) == |p| % 65536 && U16(p, 4) == id % 65536
            && p[24..28] == Be32(sequence) && p[28..34] == [0, 0, 0, 0, 0x50, 0x02] && U16(p, 34) == 64240 && p[40..] == payload
  {
    var header, front := Header(40 + |payload|, id, TCP, src, dst), TcpFront(srcPort, dstPort, sequence);
    var p := TcpPacket(src, dst, srcPort, dstPort, sequence, id, payload);
    HeaderFields(40 + |payload|, id, TCP, src, dst);
    TcpFrontFields(srcPort, dstPort, sequence);
    Layout(p, header, front, SegmentChecksum(src, dst, TCP, Sealed(front, 0, [0, 0] + payload)), [0, 0] + payload);
    assert p[40..] == p[38..][2..];
    AtFront(p, header, 2);
    AtFront(p, header, 4);
    Behind(p, front, 14);
    assert p[24..28] == p[20..36][4..8] && p[28..34] == p[20..36][8..14];
  }

  lemma Layout(p: seq<Byte>, header: seq<Byte>, front: seq<Byte>, checksum: nat, tail: seq<Byte>)
    requires |header| == 20 && p == header + Sealed(front, checksum, tail)
    ensures |p| == 22 + |front| + |tail| && p[..20] == header && p[20..20 + |front|] == front && p[22 + |front|..] == tail
  {
  }

  lemma TcpFrontFields(srcPort: nat, dstPort: nat, sequence: nat)
    ensures var front := TcpFront(srcPort, dstPort, sequence);
            front[4..8] == Be32(sequence) && front[8..14] == [0, 0, 0, 0, 0x50, 0x02] && U16(front, 14) == 64240
  {
    var front := TcpFront(srcPort, dstPort, sequence);
    assert front[14..16] == Be16(64240);
    WordAt(front, 14, 64240);
  }

  lemma Be32Value(v: nat)
    ensures 65536 * U16(Be32(v), 0) + U16(Be32(v), 2) == v % 0x1_0000_0000
  {
    var b := Be32(v);
    assert b[0..2] == Be16(v / 65536) && b[2..4] == Be16(v);
    WordAt(b, 0, v / 65536);
    WordAt(b, 2, v);
    HighLow(v);
  }

  lemma HighLow(v: nat)
    ensures 65536 * (v / 65536 % 65536) + v % 65536 == v % 0x1_0000_0000
  {
  }

  lemma AtFront(p: seq<Byte>, front: seq<Byte>, at: nat)
    requires |front| <= |p| && p[..|front|] == front && at + 2 <= |front|
    ensures U16(p, at) == U16(front, at)
  {
    assert p[at] == p[..|front|][at] && p[at + 1] == p[..|front|][at + 1];
  }

  lemma Behind(p: seq<Byte>, front: seq<Byte>, at: nat)
    requires 20 + |front| <= |p| && p[20..20 + |front|] == front && at + 2 <= |front|
    ensures U16(p, 20 + at) == U16(front, at)
  {
    assert p[20 + at] == p[20..20 + |front|][at] && p[20 + at + 1] == p[20..20 + |front|][at + 1];
  }

  /** And of a built UDP packet. */
  lemma UdpFields(src: seq<Byte>, dst: seq<Byte>, srcPort: nat, dstPort: nat, id: nat, payload: seq<Byte>)
    requires |src| == |dst| == 4
    ensures var p := UdpPacket(src, dst, srcPort, dstPort, id, payload);
            && |p| == 28 + |payload| && U16(p, 2) == |p| % 65536 && U16(p, 4) == id % 65536
            && U16(p, 24) == (|p| - 20) % 65536 && p[28..] == payload
  {
    var header, front := Header(28 + |payload|, id, UDP, src, dst), UdpFront(srcPort, dstPort, 8 + |payload|);
    var p := UdpPacket(src, dst, srcPort, dstPort, id, payload);
    HeaderFields(28 + |payload|, id, UDP, src, dst);
    UdpFrontLength(srcPort, dstPort, 8 + |payload|);
    Layout(p, header, front, SegmentChecksum(src, dst, UDP, Sealed(front, 0, payload)), payload);
    AtFront(p, header, 2);
    AtFront(p, header, 4);
    Behind(p, front, 4);
  }

  lemma UdpFrontLength(srcPort: nat, dstPort: nat, length: nat)
    ensures U16(UdpFront(srcPort, dstPort, length), 4) == length % 65536
  {
    assert UdpFront(srcPort, dstPort, length)[4..6] == Be16(length);
    WordAt(UdpFront(srcPort, dstPort, length), 4, length);
  }

  /** What a frame holding a header and a segment with given leading ports parses to. */
  lemma FrameParses(eth: seq<Byte>, header: seq<Byte>, segment: seq<Byte>, src: seq<Byte>, dst: seq<Byte>, proto: Byte)
    requires Ethernet4(eth) && |header| == 20 && |segment| >= 4 && (proto == TCP || proto == UDP)
    requires header[0] == 0x45 && header[9] == proto && header[12..16] == src && header[16..20] == dst
    ensures var frame := eth + (header + segment);
            var p := Packet(4, src + Zeros(12), dst + Zeros(12), proto, U16(segment, 0), U16(segment, 2), |frame|, 34);
            Classify(frame) == Some(p) && XdpView(frame) == IpPacket(p)
  {
    var frame := eth + (header + segment);
    assert frame[12] == eth[12] && frame[13] == eth[13];
    assert frame[14] == header[0] && frame[23] == header[9];
    assert frame[26..30] == header[12..16] && frame[30..34] == header[16..20];
    assert frame[34] == segment[0] && frame[35] == segment[1] && frame[36] == segment[2] && frame[37] == segment[3];
    NoTags(frame, 1);
    NoTags(frame, 2);
  }

  lemma NoTags(frame: seq<Byte>, limit: nat)
    requires |frame| >= 14 && U16(frame, 12) == ETH_IPV4
    ensures Ethernet(frame, limit) == Some(Network(14, ETH_IPV4))
  {
  }

  /** Both parsers read back what the TCP builder was given. */
  lemma TcpRoundTrip(eth: seq<Byte>, src: seq<Byte>, dst: seq<Byte>, srcPort: nat, dstPort: nat, sequence: nat,
                     id: nat, payload: seq<Byte>)
    requires Ethernet4(eth) && |src| == |dst| == 4 && srcPort < 65536 && dstPort < 65536
    ensures var frame := eth + TcpPacket(src, dst, srcPort, dstPort, sequence, id, payload);
            var p := Packet(4, src + Zeros(12), dst + Zeros(12), TCP, srcPort, dstPort, |frame|, 34);
            Classify(frame) == Some(p) && XdpView(frame) == IpPacket(p)
  {
    var front := TcpFront(srcPort, dstPort, sequence);
    var segment := Segment(src, dst, TCP, front, [0, 0] + payload);
    HeaderFields(40 + |payload|, id, TCP, src, dst);
    FrameParses(eth, Header(40 + |payload|, id, TCP, src, dst), segment, src, dst, TCP);
    SegmentPorts(src, dst, TCP, front, [0, 0] + payload, srcPort, dstPort);
  }

  /** And what the UDP builder was given. */
  lemma UdpRoundTrip(eth: seq<Byte>, src: seq<Byte>, dst: seq<Byte>, srcPort: nat, dstPort: nat, id: nat, payload: seq<Byte>)
    requires Ethernet4(eth) && |src| == |dst| == 4 && srcPort < 65536 && dstPort < 65536
    ensures var frame := eth + UdpPacket(src, dst, srcPort, dstPort, id, payload);
            var p := Packet(4, src + Zeros(12), dst + Zeros(12), UDP, srcPort, dstPort, |frame|, 34);
            Classify(frame) == Some(p) && XdpView(frame) == IpPacket(p)
  {
    var front := UdpFront(srcPort, dstPort, 8 + |payload|);
    var segment := Segment(src, dst, UDP, front, payload);
    HeaderFields(28 + |payload|, id, UDP, src, dst);
    FrameParses(eth, Header(28 + |payload|, id, UDP, src, dst), segment, src, dst, UDP);
    SegmentPorts(src, dst, UDP, front, payload, srcPort, dstPort);
  }

  lemma SegmentPorts(src: seq<Byte>, dst: seq<Byte>, proto: Byte, front: seq<Byte>, tail: seq<Byte>,
                     srcPort: nat, dstPort: nat)
    requires |src| == |dst| == 4 && |front| >= 4 && front[..4] == Be16(srcPort) + Be16(dstPort)
    requires srcPort < 65536 && dstPort < 65536
    ensures var s := Segment(src, dst, proto, front, tail);
            U16(s, 0) == srcPort && U16(s, 2) == dstPort
  {
    var s := Segment(src, dst, proto, front, tail);
    assert s[..4] == front[..4];
    LeadingPorts(s, srcPort, dstPort);
  }

  lemma LeadingPorts(s: seq<Byte>, srcPort: nat, dstPort: nat)
    requires |s| >= 4 && s[..4] == Be16(srcPort) + Be16(dstPort)
    requires srcPort < 65536 && dstPort < 65536
    ensures U16(s, 0) == srcPort && U16(s, 2) == dstPort
  {
    TwoWords(s, Be16(srcPort), Be16(dstPort));
    Be16Value(srcPort);
    Be16Value(dstPort);
  }

  lemma TwoWords(s: seq<Byte>, a: seq<Byte>, b: seq<Byte>)
    requires |s| >= 4 && |a| == |b| == 2 && s[..4] == a + b
    ensures U16(s, 0) == Word(a[0], a[1]) && U16(s, 2) == Word(b[0], b[1])
  {
    var head := s[..4];
    assert s[0] == head[0] && s[1] == head[1] && s[2] == head[2] && s[3] == head[3];
  }
}
