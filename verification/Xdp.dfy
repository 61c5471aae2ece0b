/** The XDP program: bypasses, two-tier lookup, verdict, statistics and drop events. */
module Xdp {
  import opened Bits
  import opened Frames
  import opened Lists
  import opened Outcomes
  import opened Rules
  import Checksum
  import Contexts
  import IpIndex
  import Loader
  import Prepare
  import Targets

  const UDP := Checksum.UDP
  const U32 := 0x1_0000_0000
  const U64 := 0x1_0000_0000_0000_0000

  // ----- bypasses ----------------------------------------------------------------------

  /** `is_github_ipv4`. */
  predicate CodeHosting(o: seq<Byte>)
    requires |o| == 4
  {
    || (o[0] == 140 && o[1] == 82 && BitAnd(o[2], 0xF0) == 112)
    || (o[0] == 192 && o[1] == 30 && BitAnd(o[2], 0xFC) == 252)
    || (o[0] == 185 && o[1] == 199 && BitAnd(o[2], 0xFC) == 108)
    || (o[0] == 143 && o[1] == 55 && BitAnd(o[2], 0xF0) == 64)
    || o == [20, 201, 28, 151] || o == [20, 205, 243, 166]
    || (o[0] == 4 && o[1] == 237 && (o[2] == 22 || o[2] == 23))
  }

  lemma MaskByte(prefix: nat, mask: nat, b: Byte, c: Byte)
    requires prefix <= 8 && mask == 256 - Pow2(8 - prefix) && Low(c, 8 - prefix) == 0
    ensures BitAnd(b, mask) == c <==> c <= b < c + Pow2(8 - prefix)
  {
    Pow2Constants();
    PrefixMaskValue(8, prefix);
    Prepare.MaskRange(prefix, b, c);
    assert IpIndex.MaskOctet(prefix, b) == BitAnd(b, mask);
  }

  /** The packet path and rule preparation spare the same hosts, the loopback block aside. */
  lemma CodeHostingIsInfrastructure(o: seq<Byte>)
    requires |o| == 4
    ensures CodeHosting(o) <==> Prepare.InfrastructureHost(o) && o[0] != 127
  {
    MaskByte(4, 0xF0, o[2], 112);
    MaskByte(4, 0xF0, o[2], 64);
    MaskByte(6, 0xFC, o[2], 252);
    MaskByte(6, 0xFC, o[2], 108);
  }

  /** DNS answers, and HTTPS answers of the code hosting service; IPv4 only. */
  predicate Bypassed(p: Packet)
    requires |p.src| >= 4
  {
    p.version == 4 &&
    (((p.protocol == UDP || p.protocol == TCP) && p.srcPort == 53)
     || (p.protocol == TCP && p.srcPort == 443 && CodeHosting(p.src[..4])))
  }

  // ----- verdict -----------------------------------------------------------------------

  datatype Match = ExactHash | LpmTrie

  datatype Event = Event(packet: Packet, ruleId: nat, how: Match)

  /** Malformed frames are passed on without being counted. */
  datatype Verdict = Uncounted | Passed | Dropped(event: Event)

  function Source(p: Packet): Targets.Ip
    requires |p.src| >= 4
  {
    if p.version == 4 then Targets.Ip(Targets.V4, p.src[..4]) else Targets.Ip(Targets.V6, p.src)
  }

  lemma PacketSource(data: seq<Byte>)
    requires XdpView(data).IpPacket?
    ensures var p := XdpView(data).packet; |p.src| == 16 && Source(p).Valid()
  {
  }

  function Decide(t: Tables, data: seq<Byte>): Verdict {
    match XdpView(data)
    case Malformed => Uncounted
    case NotIp => Passed
    case IpPacket(p) =>
      PacketSource(data);
      if Bypassed(p) || !Drops(Lookup(t, Source(p))) then Passed
      else Dropped(Event(p, Lookup(t, Source(p)).value.id, if Source(p) in t.exact then ExactHash else LpmTrie))
  }

  /** A frame is dropped iff it is an IP packet, not bypassed, whose source some rule covers. */
  lemma DroppedIff(t: Tables, data: seq<Byte>)
    requires Routed(t) && AllDrop(t)
    ensures Decide(t, data).Dropped? <==>
            XdpView(data).IpPacket? && (PacketSource(data); var p := XdpView(data).packet;
                                        !Bypassed(p) && Covered(t, Source(p)))
  {
    if XdpView(data).IpPacket? {
      PacketSource(data);
      DropIffCovered(t, Source(XdpView(data).packet));
    }
  }

  /** With any actions: a frame is dropped iff it is not bypassed and the longest match of its source
      says so. */
  lemma DroppedIffLongestDrops(t: Tables, data: seq<Byte>)
    requires Routed(t)
    ensures Decide(t, data).Dropped? <==>
            Judged(data).Some? && exists rule: Rule :: LongestMatch(Merged(t), Judged(data).value, Some(rule)) && rule.action == Drop
  {
    if Judged(data).Some? {
      PacketSource(data);
      var source := Judged(data).value;
      TwoTierIsLongestMatch(t, source);
      if exists rule: Rule :: LongestMatch(Merged(t), source, Some(rule)) && rule.action == Drop {
        var rule: Rule :| LongestMatch(Merged(t), source, Some(rule)) && rule.action == Drop;
        LongestMatchUnique(Merged(t), source, Some(rule), Lookup(t, source));
      }
    }
  }

  /** The event of a dropped frame carries the frame's packet and the rule of the longest match; it
      says whether that was an exact one. */
  lemma EventIsLongestMatch(t: Tables, data: seq<Byte>)
    requires Routed(t) && Decide(t, data).Dropped?
    ensures var e := Decide(t, data).event;
            && XdpView(data) == IpPacket(e.packet) && |e.packet.src| >= 4
            && (e.how == ExactHash <==> Source(e.packet) in t.exact)
            && exists rule: Rule :: rule.id == e.ruleId && LongestMatch(Merged(t), Source(e.packet), Some(rule))
  {
    PacketSource(data);
    var source := Source(XdpView(data).packet);
    TwoTierIsLongestMatch(t, source);
    assert LongestMatch(Merged(t), source, Some(Lookup(t, source).value));
  }

  /** The source of a frame that is not bypassed, if it has one. */
  function Judged(data: seq<Byte>): (r: Option<Targets.Ip>)
    ensures r.Some? ==> r.value.Valid()
  {
    match XdpView(data)
    case Malformed => None
    case NotIp => None
    case IpPacket(p) => PacketSource(data); if Bypassed(p) then None else Some(Source(p))
  }

  lemma DroppedIffCovered(t: Tables, data: seq<Byte>)
    requires Routed(t) && AllDrop(t)
    ensures Decide(t, data).Dropped? <==> Judged(data).Some? && Covered(t, Judged(data).value)
  {
    DroppedIff(t, data);
  }

  /** From feed entries to the wire: dropped iff some entry that is not allowlisted holds the source. */
  lemma FeedVerdict(entries: seq<Contexts.Entry>, rules: RuleSet, data: seq<Byte>)
    requires Prepare.Holds(rules, Prepare.FirstRules(entries)) && forall e <- entries :: e.target.Canonical()
    ensures Decide(TablesOf(rules), data).Dropped? <==>
            Judged(data).Some? && Prepare.Wanted(entries, Judged(data).value)
  {
    Prepare.PreparedIsRouted(entries, rules);
    DroppedIffCovered(TablesOf(rules), data);
    if Judged(data).Some? { Prepare.PreparedCovers(entries, rules, Judged(data).value); }
  }

  /** From the rule files to the wire: dropped iff some line denotes the source. */
  lemma StaticVerdict(files: Loader.Files, rules: RuleSet, meta: map<nat, Loader.Site>, next: nat, data: seq<Byte>)
    requires Loader.Loaded(files, rules, meta, next) && Loader.ValidFiles(files)
    ensures Decide(TablesOf(rules), data).Dropped? <==>
            Judged(data).Some? && Loader.Listed(files, Judged(data).value)
  {
    Loader.LoadedIsRouted(files, rules, meta, next);
    DroppedIffCovered(TablesOf(rules), data);
    if Judged(data).Some? { Loader.LoadedCovers(files, rules, meta, next, Judged(data).value); }
  }

  // ----- statistics --------------------------------------------------------------------

  datatype Stats = Stats(rxPackets: nat, rxBytes: nat, acceptedPackets: nat, acceptedBytes: nat,
                         droppedPackets: nat, droppedBytes: nat, events: nat)

  const NOTHING := Stats(0, 0, 0, 0, 0, 0, 0)

  /** What one frame adds; `room` says that the ring buffer took the event. */
  function Delta(v: Verdict, length: nat, room: bool): Stats {
    match v
    case Uncounted => NOTHING
    case Passed => Frame(length, false, 0, false)
    case Dropped(_) => Frame(length, true, length, room)
  }

  /** One frame's share of the totals. */
  function Frame(rxBytes: nat, dropped: bool, droppedBytes: nat, emitted: bool): Stats {
    if dropped then Stats(1, rxBytes, 0, 0, 1, droppedBytes, if emitted then 1 else 0)
    else Stats(1, rxBytes, 1, rxBytes, 0, 0, if emitted then 1 else 0)
  }

  function Plus(a: Stats, b: Stats): Stats {
    Stats(a.rxPackets + b.rxPackets, a.rxBytes + b.rxBytes,
          a.acceptedPackets + b.acceptedPackets, a.acceptedBytes + b.acceptedBytes,
          a.droppedPackets + b.droppedPackets, a.droppedBytes + b.droppedBytes, a.events + b.events)
  }

  /** The counters are 64 bits wide and wrap. */
  function Wrapped(a: Stats): Stats {
    Stats(a.rxPackets % U64, a.rxBytes % U64, a.acceptedPackets % U64, a.acceptedBytes % U64,
          a.droppedPackets % U64, a.droppedBytes % U64, a.events % U64)
  }

  function WrappingAdd(a: nat, b: nat): nat { (a + b) % U64 }

  class Program {
    var tables: Tables
    var stats: Stats
    var events: seq<Event>

    method UpdateStats(rxBytes: nat, dropped: bool, droppedBytes: nat, emitted: bool)
      requires Wrapped(stats) == stats
      modifies this`stats
      ensures stats == Wrapped(Plus(old(stats), Frame(rxBytes, dropped, droppedBytes, emitted)))
    {
      stats := stats.(rxPackets := WrappingAdd(stats.rxPackets, 1));
      stats := stats.(rxBytes := WrappingAdd(stats.rxBytes, rxBytes));
      if dropped {
        stats := stats.(droppedPackets := WrappingAdd(stats.droppedPackets, 1));
        stats := stats.(droppedBytes := WrappingAdd(stats.droppedBytes, droppedBytes));
      } else {
        stats := stats.(acceptedPackets := WrappingAdd(stats.acceptedPackets, 1));
        stats := stats.(acceptedBytes := WrappingAdd(stats.acceptedBytes, rxBytes));
      }
      if emitted {
        stats := stats.(events := WrappingAdd(stats.events, 1));
      }
    }

    /** The counters after a frame, and the event in the ring buffer if it was dropped and fits. */
    method Firewall(data: seq<Byte>, room: bool) returns (drop: bool)
      requires Wrapped(stats) == stats
      modifies this`stats, this`events
      ensures drop <==> Decide(tables, data).Dropped?
      ensures stats == Wrapped(Plus(old(stats), Delta(Decide(tables, data), |data| % U32, room)))
      ensures events == if drop && room then old(events) + [Decide(tables, data).event] else old(events)
    {
      var length := |data| % U32;
      var view := XdpView(data);
      match view {
        case Malformed =>
          drop := false;
        case NotIp =>
          UpdateStats(length, false, 0, false);
          drop := false;
        case IpPacket(packet) =>
          PacketSource(data);
          drop := Process(packet, length, room);
      }
    }

    method Process(packet: Packet, length: nat, room: bool) returns (drop: bool)
      requires |packet.src| >= 4 && Source(packet).Valid() && Wrapped(stats) == stats
      modifies this`stats, this`events
      ensures drop <==> !Bypassed(packet) && Drops(Lookup(tables, Source(packet)))
      ensures stats == Wrapped(Plus(old(stats), Frame(length, drop, if drop then length else 0, drop && room)))
      ensures events == old(events) +
        if drop && room
        then [Event(packet, Lookup(tables, Source(packet)).value.id,
                    if Source(packet) in tables.exact then ExactHash else LpmTrie)]
        else []
    {
      if Bypassed(packet) {
        UpdateStats(length, false, 0, false);
        return false;
      }
      var source := Source(packet);
      var matched, how := None, ExactHash;
      if source in tables.exact {
        matched := Some(tables.exact[source]);
      }
      if matched.None? {
        matched := TrieGet(tables.trie, source, source.family.Width());
        how := LpmTrie;
      }
      if matched.Some? && matched.value.action == Rules.Drop {
        if room {
          events := events + [Event(packet, matched.value.id, how)];
        }
        UpdateStats(length, true, length, room);
        return true;
      }
      UpdateStats(length, false, 0, false);
      drop := false;
    }
  }

  // ----- runs --------------------------------------------------------------------------

  /** A frame, the tables it met and whether the ring buffer had room. */
  datatype Step = Step(tables: Tables, data: seq<Byte>, room: bool)

  function Adds(s: Step): Stats { Delta(Decide(s.tables, s.data), |s.data| % U32, s.room) }

  /** The wrapping counters after a run. */
  function Counted(run: seq<Step>): Stats {
    if run == [] then NOTHING else Wrapped(Plus(Counted(run[..|run| - 1]), Adds(run[|run| - 1])))
  }

  /** The true totals of a run. */
  function Totals(run: seq<Step>): Stats {
    if run == [] then NOTHING else Plus(Totals(run[..|run| - 1]), Adds(run[|run| - 1]))
  }

  lemma {:induction false} CountersWrapTotals(run: seq<Step>)
    ensures Counted(run) == Wrapped(Totals(run))
  {
    if run != [] {
      var before := run[..|run| - 1];
      CountersWrapTotals(before);
      WrappedPlus(Totals(before), Adds(run[|run| - 1]));
    }
  }

  lemma WrappedPlus(a: Stats, b: Stats)
    ensures Wrapped(Plus(Wrapped(a), b)) == Wrapped(Plus(a, b))
  {
    WrapOne(a.rxPackets, b.rxPackets);
    WrapOne(a.rxBytes, b.rxBytes);
    WrapOne(a.acceptedPackets, b.acceptedPackets);
    WrapOne(a.acceptedBytes, b.acceptedBytes);
    WrapOne(a.droppedPackets, b.droppedPackets);
    WrapOne(a.droppedBytes, b.droppedBytes);
    WrapOne(a.events, b.events);
  }

  lemma WrapOne(a: nat, b: nat)
    ensures (a % U64 + b) % U64 == (a + b) % U64
  {
  }

  const LENGTH := (s: Step) => |s.data| % U32
  const DROPPED := (s: Step) => Decide(s.tables, s.data).Dropped?
  const PASSED := (s: Step) => Decide(s.tables, s.data).Passed?
  const EMITTED := (s: Step) => Decide(s.tables, s.data).Dropped? && s.room

  /** Packets are counted once each, under their verdict, and bytes are the lengths of those frames. */
  lemma {:induction false} TotalsAreCounts(run: seq<Step>)
    ensures var s, dropped, passed := Totals(run), Picked(DROPPED, run), Picked(PASSED, run);
            && s.droppedPackets == |dropped| && s.droppedBytes == Weight(LENGTH, dropped)
            && s.acceptedPackets == |passed| && s.acceptedBytes == Weight(LENGTH, passed)
            && s.rxPackets == |dropped| + |passed| && s.rxBytes == Weight(LENGTH, dropped) + Weight(LENGTH, passed)
            && s.events == |Picked(EMITTED, run)|
  {
    if run != [] {
      TotalsAreCounts(run[..|run| - 1]);
      PickedNext(DROPPED, LENGTH, run);
      PickedNext(PASSED, LENGTH, run);
      PickedNext(EMITTED, LENGTH, run);
    }
  }

  /** Every counted frame was accepted or dropped, in packets and in bytes; events are of drops. */
  lemma {:induction false} Conservation(run: seq<Step>)
    ensures var s := Totals(run);
            s.rxPackets == s.acceptedPackets + s.droppedPackets && s.rxBytes == s.acceptedBytes + s.droppedBytes
            && s.events <= s.droppedPackets
  {
    if run != [] { Conservation(run[..|run| - 1]); }
  }

  /** The same of the counters, up to the wrap. */
  lemma CountersConserve(run: seq<Step>)
    ensures var c := Counted(run);
            c.rxPackets == WrappingAdd(c.acceptedPackets, c.droppedPackets)
            && c.rxBytes == WrappingAdd(c.acceptedBytes, c.droppedBytes)
  {
    Conservation(run);
    CountersWrapTotals(run);
    WrapConserves(Totals(run));
  }

  lemma WrapConserves(s: Stats)
    requires s.rxPackets == s.acceptedPackets + s.droppedPackets && s.rxBytes == s.acceptedBytes + s.droppedBytes
    ensures var c := Wrapped(s);
            c.rxPackets == WrappingAdd(c.acceptedPackets, c.droppedPackets)
            && c.rxBytes == WrappingAdd(c.acceptedBytes, c.droppedBytes)
  {
    ModAdd(s.acceptedPackets, s.droppedPackets);
    ModAdd(s.acceptedBytes, s.droppedBytes);
  }

  lemma ModAdd(a: nat, b: nat)
    ensures (a % U64 + b % U64) % U64 == (a + b) % U64
  {
  }
}
