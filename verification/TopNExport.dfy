/** Delta export of the Top-N to metric series, over every run of events and syncs. */
module TopNExport {
  import opened Lists
  import opened TopN

  /** The twelve series of one address: packets and bytes per protocol, and the two totals. */
  datatype Metric =
    | TcpPackets | TcpBytes | UdpPackets | UdpBytes | IcmpPackets | IcmpBytes
    | Icmpv6Packets | Icmpv6Bytes | OtherPackets | OtherBytes | TotalPackets | TotalBytes

  datatype Label = Label(ip: Ip, metric: Metric)

  function Value(s: Stats, m: Metric): nat {
    match m
    case TcpPackets => s.packets.tcp
    case TcpBytes => s.bytes.tcp
    case UdpPackets => s.packets.udp
    case UdpBytes => s.bytes.udp
    case IcmpPackets => s.packets.icmp
    case IcmpBytes => s.bytes.icmp
    case Icmpv6Packets => s.packets.icmpv6
    case Icmpv6Bytes => s.bytes.icmpv6
    case OtherPackets => s.packets.other
    case OtherBytes => s.bytes.other
    case TotalPackets => s.totalPackets
    case TotalBytes => s.totalBytes
  }

  type Series = map<Label, nat>

  function At(m: Series, l: Label): nat { if l in m then m[l] else 0 }

  function Max(a: nat, b: nat): nat { if a < b then b else a }

  datatype Tracker = Tracker(
    capacity: nat, maxTracked: nat, criterion: Criterion,
    stats: Table,
    exported: set<Ip>,
    last: Series,          // last exported value of each series
    series: Series,        // the metric backend
    reset: set<Ip>)        // history: exported addresses pruned since they entered the export

  // ----- specifications of the operations ----------------------------------------------

  lemma TopExists(stats: Table, c: Criterion, n: nat)
    requires WellKeyed(stats)
    ensures exists top :: IsTop(stats, c, n, top)
  {
    var entries := ValuesExist(stats, stats.Keys, []);
    SortCorrect(c, entries);
    TruncatedIsTop(stats, c, n, Sort(c, entries));
  }

  ghost function TheTop(stats: Table, c: Criterion, n: nat): (top: seq<Stats>)
    requires WellKeyed(stats)
    ensures IsTop(stats, c, n, top)
  {
    TopExists(stats, c, n);
    var top :| IsTop(stats, c, n, top);
    top
  }

  ghost function IpsOf(top: seq<Stats>): set<Ip> { set i | 0 <= i < |top| :: top[i].ip }

  ghost function Pruned(t: Tracker): Tracker
    requires WellKeyed(t.stats)
  {
    var kept := Kept(t.stats, TheTop(t.stats, t.criterion, t.maxTracked / 2));
    t.(stats := kept, reset := t.reset + (t.exported * (t.stats.Keys - kept.Keys)))
  }

  function CurrentStats(stats: Table, ip: Ip): Stats {
    if ip in stats then stats[ip] else Fresh(ip)
  }

  function NextStats(stats: Table, ip: Ip, p: Protocol, n: nat): Stats {
    CurrentStats(stats, ip).RecordPacket(p, n)
  }

  /** Store a statistic, then prune if the table outgrew its cap. */
  ghost function Stored(t: Tracker, s: Stats): Tracker
    requires WellKeyed(t.stats)
  {
    var added := t.(stats := t.stats[s.ip := s]);
    if |added.stats| > t.maxTracked then Pruned(added) else added
  }

  ghost function Recorded(t: Tracker, ip: Ip, p: Protocol, n: nat): Tracker
    requires WellKeyed(t.stats)
  {
    Stored(t, NextStats(t.stats, ip, p, n))
  }

  /** A sync raises each Top-N series to the statistic, never below what was exported. */
  ghost function Synced(t: Tracker): Tracker
    requires WellKeyed(t.stats)
  {
    var top := TheTop(t.stats, t.criterion, t.capacity);
    var ips := IpsOf(top);
    t.(exported := ips,
       last := Raised(t.stats, ips, t.last),
       series := Raised(t.stats, ips, t.last),
       reset := t.reset * ips)
  }

  ghost function Raised(stats: Table, ips: set<Ip>, last: Series): (r: Series)
    ensures forall l :: l in r <==> l.ip in ips && l.ip in stats
    ensures forall l <- r :: r[l] == Max(At(last, l), Value(stats[l.ip], l.metric))
  {
    map ip, m: Metric | ip in ips && ip in stats :: Label(ip, m) := Max(At(last, Label(ip, m)), Value(stats[ip], m))
  }

  // ----- every run ------------------------------------------------------------------------

  datatype Call = Record(ip: Ip, protocol: Protocol, bytes: nat) | Sync | SetCriterion(criterion: Criterion)

  ghost function Step(t: Tracker, call: Call): Tracker
    requires WellKeyed(t.stats)
  {
    match call
    case Record(ip, p, n) => Recorded(t, ip, p, n)
    case Sync => Synced(t)
    case SetCriterion(c) => t.(criterion := c)
  }

  /** Statistics are keyed by their address and balanced; series equal their last-exported
      records, for exactly the exported addresses; and no series is ahead of the statistic of an
      address that was not pruned. */
  ghost predicate Consistent(t: Tracker) {
    && WellKeyed(t.stats) && (forall ip <- t.stats :: t.stats[ip].Balanced())
    && (forall l :: l in t.last <==> l.ip in t.exported) && t.series == t.last
    && t.reset <= t.exported
    && (forall ip :: ip in t.exported && ip !in t.reset ==> ip in t.stats)
    && (forall l <- t.last :: l.ip !in t.reset ==> t.last[l] <= Value(t.stats[l.ip], l.metric))
  }

  /** What every run keeps: consistency, within the cap on tracked addresses. */
  ghost predicate Ok(t: Tracker) {
    Consistent(t) && |t.stats| <= t.maxTracked
  }

  predicate CountsGrow(a: Counts, b: Counts) {
    a.tcp <= b.tcp && a.udp <= b.udp && a.icmp <= b.icmp && a.icmpv6 <= b.icmpv6 && a.other <= b.other
  }

  /** Every series value of `a` is at most that of `b`. */
  predicate Grows(a: Stats, b: Stats) {
    a.totalPackets <= b.totalPackets && a.totalBytes <= b.totalBytes
    && CountsGrow(a.packets, b.packets) && CountsGrow(a.bytes, b.bytes)
  }

  lemma GrowsByMetric(a: Stats, b: Stats, m: Metric)
    requires Grows(a, b)
    ensures Value(a, m) <= Value(b, m)
  {
  }

  /** Recording a packet raises the totals and one protocol's counts by the same amounts. */
  lemma RecordPacketBalanced(s: Stats, p: Protocol, n: nat)
    ensures s.Balanced() ==> s.RecordPacket(p, n).Balanced()
    ensures Grows(s, s.RecordPacket(p, n)) && s.RecordPacket(p, n).ip == s.ip
  {
  }

  lemma ReplaceConsistent(t: Tracker, s: Stats)
    requires Consistent(t) && s.Balanced() && (s.ip in t.stats ==> Grows(t.stats[s.ip], s))
    ensures Consistent(t.(stats := t.stats[s.ip := s]))
  {
    var added := t.(stats := t.stats[s.ip := s]);
    forall l | l in added.last && l.ip !in added.reset ensures added.last[l] <= Value(added.stats[l.ip], l.metric) {
      if l.ip == s.ip { GrowsByMetric(t.stats[s.ip], s, l.metric); }
    }
  }

  lemma StoredOk(t: Tracker, s: Stats)
    requires Ok(t) && s.Balanced() && (s.ip in t.stats ==> Grows(t.stats[s.ip], s))
    ensures Ok(Stored(t, s))
  {
    ReplaceConsistent(t, s);
    var added := t.(stats := t.stats[s.ip := s]);
    PruneOk(added);
  }

  lemma NextStatsBalanced(stats: Table, ip: Ip, p: Protocol, n: nat)
    requires WellKeyed(stats) && forall x <- stats :: stats[x].Balanced()
    ensures NextStats(stats, ip, p, n).Balanced()
  {
    CurrentBalanced(stats, ip);
    RecordPacketBalanced(CurrentStats(stats, ip), p, n);
  }

  lemma CurrentBalanced(stats: Table, ip: Ip)
    requires forall x <- stats :: stats[x].Balanced()
    ensures CurrentStats(stats, ip).Balanced()
  {
  }

  lemma NextStatsGrow(stats: Table, ip: Ip, p: Protocol, n: nat)
    requires WellKeyed(stats)
    ensures NextStats(stats, ip, p, n).ip == ip
    ensures ip in stats ==> Grows(stats[ip], NextStats(stats, ip, p, n))
  {
    RecordPacketBalanced(CurrentStats(stats, ip), p, n);
  }

  lemma NextStatsOk(t: Tracker, ip: Ip, p: Protocol, n: nat)
    requires Ok(t)
    ensures var s := NextStats(t.stats, ip, p, n); s.Balanced() && (s.ip in t.stats ==> Grows(t.stats[s.ip], s))
  {
    NextStatsBalanced(t.stats, ip, p, n);
    NextStatsGrow(t.stats, ip, p, n);
  }

  lemma RecordOk(t: Tracker, ip: Ip, p: Protocol, n: nat)
    requires Ok(t)
    ensures Ok(Recorded(t, ip, p, n))
  {
    NextStatsOk(t, ip, p, n);
    StoredOk(t, NextStats(t.stats, ip, p, n));
  }

  lemma PruneOk(t: Tracker)
    requires Consistent(t)
    ensures Ok(Pruned(t))
  {
    var keep := TheTop(t.stats, t.criterion, t.maxTracked / 2);
    KeptIps(t.stats, t.criterion, t.maxTracked / 2, keep);
  }

  lemma TopIps(t: Tracker)
    requires WellKeyed(t.stats)
    ensures IpsOf(TheTop(t.stats, t.criterion, t.capacity)) <= t.stats.Keys
  {
  }

  lemma SyncOk(t: Tracker)
    requires Ok(t)
    ensures Ok(Synced(t))
  {
    TopIps(t);
    var t' := Synced(t);
    forall l | l in t'.last && l.ip !in t'.reset ensures t'.last[l] <= Value(t'.stats[l.ip], l.metric) {
      if l.ip in t.exported { assert l in t.last; } else { assert l !in t.last; }
    }
  }

  ghost function Advance(t: Tracker, call: Call): Tracker {
    if WellKeyed(t.stats) then Step(t, call) else t
  }

  ghost function RunOf(start: Tracker, calls: seq<Call>): Tracker {
    FoldLeft(Advance, start, calls)
  }

  lemma {:induction false} RunOk(start: Tracker, calls: seq<Call>)
    requires Ok(start)
    ensures Ok(RunOf(start, calls))
  {
    if calls != [] {
      var n := |calls| - 1;
      RunOk(start, calls[..n]);
      StepOk(RunOf(start, calls[..n]), calls[n]);
    }
  }

  lemma StepOk(t: Tracker, call: Call)
    requires Ok(t)
    ensures Ok(Step(t, call))
  {
    match call
    case Record(ip, p, n) => RecordOk(t, ip, p, n);
    case Sync => SyncOk(t);
    case SetCriterion(c) =>
  }

  /** A sync after any run: the series are exactly the twelve of each current Top-N address, and
      none decreases while its address stays exported. */
  lemma SyncExportsTop(start: Tracker, calls: seq<Call>, top: seq<Stats>)
    requires Ok(start)
    requires var t := RunOf(start, calls); IsTop(t.stats, t.criterion, t.capacity, top)
    ensures Ok(RunOf(start, calls))
    ensures var t := RunOf(start, calls); var t' := Synced(t);
            && t'.exported == IpsOf(top)
            && (forall l :: l in t'.series <==> l.ip in t'.exported)
            && (forall l :: l in t.series && l in t'.series ==> t.series[l] <= t'.series[l])
  {
    RunOk(start, calls);
    var t := RunOf(start, calls);
    TopIps(t);
    TopIsUnique(t.stats, t.criterion, t.capacity, top, TheTop(t.stats, t.criterion, t.capacity));
  }

  // ----- the tracker itself -----------------------------------------------------------------

  function MetricAt(k: nat): Metric {
    match k
    case 0 => TcpPackets case 1 => TcpBytes case 2 => UdpPackets case 3 => UdpBytes
    case 4 => IcmpPackets case 5 => IcmpBytes case 6 => Icmpv6Packets case 7 => Icmpv6Bytes
    case 8 => OtherPackets case 9 => OtherBytes case 10 => TotalPackets case _ => TotalBytes
  }

  function Position(m: Metric): (k: nat)
    ensures k < 12 && MetricAt(k) == m
  {
    match m
    case TcpPackets => 0 case TcpBytes => 1 case UdpPackets => 2 case UdpBytes => 3
    case IcmpPackets => 4 case IcmpBytes => 5 case Icmpv6Packets => 6 case Icmpv6Bytes => 7
    case OtherPackets => 8 case OtherBytes => 9 case TotalPackets => 10 case TotalBytes => 11
  }

  lemma PositionOfMetricAt(k: nat)
    requires k < 12
    ensures Position(MetricAt(k)) == k
  {
  }

  /** The series of every address but `ip`. */
  function WithoutIp(m: Series, ip: Ip): Series { map l | l in m && l.ip != ip :: m[l] }

  /** One series after exporting the current value: the delta is added, or the series created. */
  method ExportOne(last: Series, series: Series, l: Label, current: nat) returns (last': Series, series': Series)
    requires last == series
    ensures last' == last[l := Max(At(last, l), current)] && series' == last'
  {
    last', series' := if l in last then last else last[l := 0], series;
    if current > last'[l] {
      var delta := current - last'[l];
      series' := series'[l := At(series', l) + delta];
      last' := last'[l := current];
    } else if last'[l] == 0 && current == 0 {
      series' := if l in series' then series' else series'[l := 0];
    }
  }

  /** All twelve series of one Top-N statistic. */
  method ExportStats(last: Series, series: Series, s: Stats) returns (last': Series, series': Series)
    requires last == series
    ensures series' == last' && forall l :: l in last' <==> l in last || l.ip == s.ip
    ensures forall l <- last' :: last'[l] == if l.ip == s.ip then Max(At(last, l), Value(s, l.metric)) else last[l]
  {
    last', series' := last, series;
    for k := 0 to 12
      invariant series' == last'
      invariant forall l :: l in last' <==> l in last || (l.ip == s.ip && Position(l.metric) < k)
      invariant forall l <- last' ::
                  last'[l] == if l.ip == s.ip && Position(l.metric) < k then Max(At(last, l), Value(s, l.metric)) else last[l]
    {
      PositionOfMetricAt(k);
      var m := MetricAt(k);
      last', series' := ExportOne(last', series', Label(s.ip, m), Value(s, m));
    }
  }

  /** Removing an address's twelve series. */
  method RemoveSeries(m: Series, ip: Ip) returns (m': Series)
    ensures m' == WithoutIp(m, ip)
  {
    m' := m;
    for k := 0 to 12
      invariant forall l :: l in m' <==> l in m && !(l.ip == ip && Position(l.metric) < k)
      invariant forall l <- m' :: m'[l] == m[l]
    {
      PositionOfMetricAt(k);
      m' := m' - {Label(ip, MetricAt(k))};
    }
  }

  /** Remove the series of every address that left the Top-N. */
  method Evict(last: Series, series: Series, evicted: set<Ip>) returns (last': Series, series': Series)
    requires last == series
    ensures series' == last' && (forall l :: l in last' <==> l in last && l.ip !in evicted)
    ensures forall l <- last' :: last'[l] == last[l]
  {
    last', series' := last, series;
    var rest := evicted;
    while rest != {}
      invariant rest <= evicted && series' == last'
      invariant forall l :: l in last' <==> l in last && l.ip !in evicted - rest
      invariant forall l <- last' :: last'[l] == last[l]
      decreases rest
    {
      var ip :| ip in rest;
      series' := RemoveSeries(series', ip);
      last' := RemoveSeries(last', ip);
      rest := rest - {ip};
    }
  }

  /** Export every Top-N statistic. */
  method ExportAll(last: Series, series: Series, top: seq<Stats>, ghost stats: Table) returns (last': Series, series': Series)
    requires last == series && DistinctIps(top)
    requires forall i :: 0 <= i < |top| ==> top[i].ip in stats && stats[top[i].ip] == top[i]
    ensures series' == last' && (forall l :: l in last' <==> l in last || l.ip in IpsOf(top))
    ensures forall l <- last' ::
              last'[l] == if l.ip in IpsOf(top) then Max(At(last, l), Value(stats[l.ip], l.metric)) else last[l]
  {
    last', series' := last, series;
    for i := 0 to |top|
      invariant series' == last' && (forall l :: l in last' <==> l in last || l.ip in IpsOf(top[..i]))
      invariant forall ip :: ip in IpsOf(top[..i]) ==> ip in stats
      invariant forall l <- last' ::
                  last'[l] == if l.ip in IpsOf(top[..i]) then Max(At(last, l), Value(stats[l.ip], l.metric)) else last[l]
    {
      IpsOfSnoc(top, i);
      last', series' := ExportStats(last', series', top[i]);
    }
    assert top[..|top|] == top;
  }

  lemma IpsOfSnoc(top: seq<Stats>, i: nat)
    requires i < |top|
    ensures IpsOf(top[..i + 1]) == IpsOf(top[..i]) + {top[i].ip}
    ensures DistinctIps(top) ==> top[i].ip !in IpsOf(top[..i])
  {
    assert forall j :: 0 <= j < i ==> top[..i + 1][j] == top[..i][j];
    assert top[..i + 1][i] == top[i];
  }

  /** Evict and export: the series become exactly the raised series of the new Top-N. */
  method SyncSeries(last: Series, series: Series, exported: set<Ip>, top: seq<Stats>, ghost stats: Table)
    returns (last': Series, series': Series)
    requires last == series && DistinctIps(top) && forall l :: l in last <==> l.ip in exported
    requires forall i :: 0 <= i < |top| ==> top[i].ip in stats && stats[top[i].ip] == top[i]
    ensures last' == Raised(stats, IpsOf(top), last) && series' == last'
  {
    var newTop := set i | 0 <= i < |top| :: top[i].ip;
    last', series' := Evict(last, series, exported - newTop);
    last', series' := ExportAll(last', series', top, stats);
    assert forall ip :: ip in newTop ==> ip in stats;
  }

  lemma SyncedBy(t: Tracker, top: seq<Stats>, after: Tracker)
    requires WellKeyed(t.stats) && IsTop(t.stats, t.criterion, t.capacity, top)
    requires after.capacity == t.capacity && after.maxTracked == t.maxTracked && after.criterion == t.criterion
    requires after.stats == t.stats && after.exported == IpsOf(top) && after.reset == t.reset * IpsOf(top)
    requires after.last == Raised(t.stats, IpsOf(top), t.last) && after.series == after.last
    ensures after == Synced(t)
  {
    TopIsUnique(t.stats, t.criterion, t.capacity, top, TheTop(t.stats, t.criterion, t.capacity));
  }

  function Retained(stats: Table, keep: seq<Stats>): Table {
    var retain := set i | 0 <= i < |keep| :: keep[i].ip;
    map x | x in stats && x in retain :: stats[x]
  }

  lemma RetainedIsKept(stats: Table, keep: seq<Stats>)
    ensures Retained(stats, keep) == Kept(stats, keep)
  {
  }

  lemma PrunedBy(t: Tracker, keep: seq<Stats>)
    requires WellKeyed(t.stats) && IsTop(t.stats, t.criterion, t.maxTracked / 2, keep)
    ensures var kept := Retained(t.stats, keep);
            Pruned(t) == t.(stats := kept, reset := t.reset + (t.exported * (t.stats.Keys - kept.Keys)))
  {
    RetainedIsKept(t.stats, keep);
    TopIsUnique(t.stats, t.criterion, t.maxTracked / 2, keep, TheTop(t.stats, t.criterion, t.maxTracked / 2));
  }

  lemma TopDistinct(stats: Table, c: Criterion, n: nat, top: seq<Stats>)
    requires IsTop(stats, c, n, top)
    ensures DistinctIps(top)
  {
    RankedDistinct(c, top);
  }

  class BlockedIpTopN {
    const capacity: nat
    const maxTracked: nat
    var criterion: Criterion
    var stats: Table
    var exported: set<Ip>
    var last: Series
    var series: Series
    var gauge: nat
    ghost var reset: set<Ip>

    ghost function View(): Tracker
      reads this
    {
      Tracker(capacity, maxTracked, criterion, stats, exported, last, series, reset)
    }

    constructor (capacity: nat, criterion: Criterion)
      ensures Ok(View()) && stats == map[] && exported == {} && maxTracked == 10000
    {
      this.capacity := capacity;
      this.maxTracked := 10000;
      this.criterion := criterion;
      stats, exported, last, series, gauge, reset := map[], {}, map[], map[], 0, {};
    }

    method SetCriterion(c: Criterion)
      requires Ok(View())
      modifies this`criterion
      ensures View() == Step(old(View()), Call.SetCriterion(c))
    {
      criterion := c;
    }

    /** Keep the better half of the table. */
    method PruneLowVolumeEntries()
      requires Consistent(View())
      modifies this`stats, this`reset
      ensures View() == Pruned(old(View()))
    {
      var keep := TopStats(stats, criterion, maxTracked / 2);
      PrunedBy(View(), keep);
      ghost var before := stats;
      stats := Retained(stats, keep);
      reset := reset + (exported * (before.Keys - stats.Keys));
    }

    method Store(next: Stats)
      requires Ok(View()) && next.Balanced() && (next.ip in stats ==> Grows(stats[next.ip], next))
      modifies this`stats, this`reset
      ensures View() == Stored(old(View()), next)
    {
      ReplaceConsistent(View(), next);
      stats := stats[next.ip := next];
      if |stats| > maxTracked {
        PruneLowVolumeEntries();
      }
    }

    method RecordEvent(ip: Ip, p: Protocol, bytes: nat)
      requires Ok(View())
      modifies this`stats, this`reset
      ensures View() == Recorded(old(View()), ip, p, bytes)
    {
      NextStatsOk(View(), ip, p, bytes);
      Store(NextStats(stats, ip, p, bytes));
    }

    method SyncToMetrics()
      requires Ok(View())
      modifies this`exported, this`last, this`series, this`gauge, this`reset
      ensures View() == Synced(old(View())) && gauge == |exported|
    {
      var top := TopStats(stats, criterion, capacity);
      ghost var before := View();
      TopDistinct(stats, criterion, capacity, top);
      var ips := set i | 0 <= i < |top| :: top[i].ip;
      last, series := SyncSeries(last, series, exported, top, stats);
      exported, gauge, reset := ips, |ips|, reset * ips;
      SyncedBy(before, top, View());
    }
  }
}
