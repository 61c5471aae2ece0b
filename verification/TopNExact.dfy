/** When an exported counter equals its statistic: over every run for the ranked total, and for
    no other series. */
module TopNExact {
  import opened Lists
  import opened TopN
  import opened TopNExport

  /** The series the ranking looks at first. */
  function RankedTotal(c: Criterion): Metric { if c.Packets? then TotalPackets else TotalBytes }

  lemma RankedTotalIsPrimary(c: Criterion, s: Stats)
    ensures Value(s, RankedTotal(c)) == Primary(c, s)
  {
  }

  // ----- at least so many at the top ---------------------------------------------------

  /** The tracked addresses whose ranked total is at least `v`. */
  ghost function AtLeast(stats: Table, c: Criterion, v: nat): set<Ip> {
    set ip | ip in stats && Primary(c, stats[ip]) >= v
  }

  lemma SubsetSize<T>(a: set<T>, b: set<T>)
    requires a <= b
    ensures |a| <= |b|
  {
    assert b == a + (b - a);
  }

  lemma TopSize(stats: Table, c: Criterion, n: nat, top: seq<Stats>)
    requires WellKeyed(stats) && IsTop(stats, c, n, top)
    ensures |IpsOf(top)| == |top| && IpsOf(top) <= stats.Keys
  {
    RankedDistinct(c, top);
    CountIps(top);
  }

  /** Whatever a listed entry does not outrank is listed. */
  lemma IsListed(stats: Table, c: Criterion, n: nat, top: seq<Stats>, i: nat, ip: Ip) returns (j: nat)
    requires IsTop(stats, c, n, top) && i < |top| && ip in stats && !Outranks(c, top[i], stats[ip])
    ensures j < |top| && top[j].ip == ip
  {
    j :| 0 <= j < |top| && top[j].ip == ip;
  }

  /** Everything with at least `v` is listed before an entry with less. */
  lemma ListedBefore(stats: Table, c: Criterion, n: nat, top: seq<Stats>, v: nat, i: nat)
    requires WellKeyed(stats) && IsTop(stats, c, n, top) && i < |top| && Primary(c, top[i]) < v
    ensures AtLeast(stats, c, v) <= IpsOf(top) - {top[i].ip}
  {
    forall ip | ip in AtLeast(stats, c, v) ensures ip in IpsOf(top) - {top[i].ip} {
      var j := IsListed(stats, c, n, top, i, ip);
    }
  }

  /** If `n` addresses have at least `v`, every entry of the Top-n has. */
  lemma TopAtLeast(stats: Table, c: Criterion, n: nat, top: seq<Stats>, v: nat, i: nat)
    requires WellKeyed(stats) && IsTop(stats, c, n, top) && |AtLeast(stats, c, v)| >= n && i < |top|
    ensures Primary(c, top[i]) >= v
  {
    TopSize(stats, c, n, top);
    assert top[i].ip in IpsOf(top);
    if Primary(c, top[i]) < v {
      ListedBefore(stats, c, n, top, v, i);
      SubsetSize(AtLeast(stats, c, v), IpsOf(top) - {top[i].ip});
    }
  }

  // ----- the invariant -----------------------------------------------------------------

  /** Either `ip` is tracked with at least `v`, or enough others to crowd it out are. */
  ghost predicate NotBehind(stats: Table, c: Criterion, keep: nat, ip: Ip, v: nat) {
    (ip in stats && Primary(c, stats[ip]) >= v) || |AtLeast(stats, c, v)| >= keep
  }

  /** No exported address can come back to the Top-N with less than was exported. */
  ghost predicate RankedOk(t: Tracker) {
    forall ip <- t.exported :: NotBehind(t.stats, t.criterion, t.maxTracked / 2, ip, At(t.last, Label(ip, RankedTotal(t.criterion))))
  }

  lemma StoreKeeps(stats: Table, c: Criterion, keep: nat, s: Stats, ip: Ip, v: nat)
    requires NotBehind(stats, c, keep, ip, v) && (s.ip in stats ==> Grows(stats[s.ip], s))
    ensures NotBehind(stats[s.ip := s], c, keep, ip, v)
  {
    assert AtLeast(stats, c, v) <= AtLeast(stats[s.ip := s], c, v);
    SubsetSize(AtLeast(stats, c, v), AtLeast(stats[s.ip := s], c, v));
  }

  lemma PruneKeeps(stats: Table, c: Criterion, keep: nat, top: seq<Stats>, ip: Ip, v: nat)
    requires WellKeyed(stats) && IsTop(stats, c, keep, top) && |stats| >= keep && NotBehind(stats, c, keep, ip, v)
    ensures NotBehind(Kept(stats, top), c, keep, ip, v)
  {
    var kept := Kept(stats, top);
    if !(HasIp(top, ip) && ip in stats && Primary(c, stats[ip]) >= v) {
      forall i | 0 <= i < |top| ensures Primary(c, top[i]) >= v {
        if |AtLeast(stats, c, v)| >= keep {
          TopAtLeast(stats, c, keep, top, v, i);
        } else {
          assert Outranks(c, top[i], stats[ip]);
        }
      }
      KeptIps(stats, c, keep, top);
      assert AtLeast(kept, c, v) == kept.Keys;
    }
  }

  /** An address in the Top-N is not behind its last export when the Top-N fits the kept half. */
  lemma TopNotBehindExport(stats: Table, c: Criterion, n: nat, keep: nat, top: seq<Stats>, i: nat, v: nat)
    requires WellKeyed(stats) && IsTop(stats, c, n, top) && n <= keep && i < |top|
    requires NotBehind(stats, c, keep, top[i].ip, v)
    ensures Primary(c, top[i]) >= v
  {
    if |AtLeast(stats, c, v)| >= keep {
      TopAtLeast(stats, c, n, top, v, i);
    }
  }

  lemma RecordRanked(t: Tracker, ip: Ip, p: Protocol, n: nat)
    requires Ok(t) && RankedOk(t)
    ensures RankedOk(Recorded(t, ip, p, n))
  {
    NextStatsOk(t, ip, p, n);
    var s := NextStats(t.stats, ip, p, n);
    var added := t.(stats := t.stats[s.ip := s]);
    var keep := t.maxTracked / 2;
    ReplaceConsistent(t, s);
    forall x | x in t.exported
      ensures NotBehind(added.stats, t.criterion, keep, x, At(t.last, Label(x, RankedTotal(t.criterion))))
    {
      StoreKeeps(t.stats, t.criterion, keep, s, x, At(t.last, Label(x, RankedTotal(t.criterion))));
    }
    if |added.stats| > t.maxTracked {
      PruneRanked(added);
    }
  }

  lemma PruneRanked(t: Tracker)
    requires WellKeyed(t.stats) && RankedOk(t) && |t.stats| > t.maxTracked
    ensures RankedOk(Pruned(t))
  {
    var keep := t.maxTracked / 2;
    var top := TheTop(t.stats, t.criterion, keep);
    forall x | x in t.exported
      ensures NotBehind(Kept(t.stats, top), t.criterion, keep, x, At(t.last, Label(x, RankedTotal(t.criterion))))
    {
      PruneKeeps(t.stats, t.criterion, keep, top, x, At(t.last, Label(x, RankedTotal(t.criterion))));
    }
  }

  lemma InTop(top: seq<Stats>, ip: Ip) returns (i: nat)
    requires ip in IpsOf(top)
    ensures i < |top| && top[i].ip == ip
  {
    i :| 0 <= i < |top| && top[i].ip == ip;
  }

  /** A sync exports the ranked total exactly, and keeps it so. */
  lemma SyncRanked(t: Tracker, ip: Ip)
    requires Ok(t) && RankedOk(t) && t.capacity <= t.maxTracked / 2 && ip in Synced(t).exported
    ensures var l := Label(ip, RankedTotal(t.criterion));
            ip in t.stats && l in Synced(t).series && Synced(t).series[l] == Value(t.stats[ip], l.metric)
            && NotBehind(Synced(t).stats, t.criterion, t.maxTracked / 2, ip, At(Synced(t).last, l))
  {
    var l := Label(ip, RankedTotal(t.criterion));
    var top := TheTop(t.stats, t.criterion, t.capacity);
    var i := InTop(top, ip);
    RankedTotalIsPrimary(t.criterion, top[i]);
    if ip in t.exported {
      TopNotBehindExport(t.stats, t.criterion, t.capacity, t.maxTracked / 2, top, i, At(t.last, l));
    } else {
      assert l !in t.last;
    }
  }

  predicate SameCriterion(c: Criterion, calls: seq<Call>) {
    forall i :: 0 <= i < |calls| ==> calls[i] == SetCriterion(c) || !calls[i].SetCriterion?
  }

  lemma {:induction false} RunRanked(start: Tracker, calls: seq<Call>)
    requires Ok(start) && RankedOk(start) && start.capacity <= start.maxTracked / 2 && SameCriterion(start.criterion, calls)
    ensures var t := RunOf(start, calls);
            RankedOk(t) && t.capacity == start.capacity && t.maxTracked == start.maxTracked && t.criterion == start.criterion
  {
    if calls != [] {
      var n := |calls| - 1;
      RunRanked(start, calls[..n]);
      RunOk(start, calls[..n]);
      var t, call := RunOf(start, calls[..n]), calls[n];
      match call
      case Record(ip, p, k) => RecordRanked(t, ip, p, k);
      case Sync =>
        forall ip | ip in Synced(t).exported
          ensures NotBehind(Synced(t).stats, t.criterion, t.maxTracked / 2, ip, At(Synced(t).last, Label(ip, RankedTotal(t.criterion))))
        {
          SyncRanked(t, ip);
        }
      case SetCriterion(_) =>
    }
  }

  /** A tracker that has seen nothing. */
  function Unused(capacity: nat, maxTracked: nat, c: Criterion): Tracker {
    Tracker(capacity, maxTracked, c, map[], {}, map[], map[], {})
  }

  lemma UnusedOk(capacity: nat, maxTracked: nat, c: Criterion)
    ensures Ok(Unused(capacity, maxTracked, c)) && RankedOk(Unused(capacity, maxTracked, c))
  {
  }

  /** While the criterion stands, every sync of every run exports the ranked total exactly,
      pruned or not, if the Top-N is at most the kept half. */
  lemma RankedTotalExact(capacity: nat, maxTracked: nat, c: Criterion, calls: seq<Call>, ip: Ip)
    requires capacity <= maxTracked / 2 && SameCriterion(c, calls)
    ensures var t := RunOf(Unused(capacity, maxTracked, c), calls);
            var l := Label(ip, RankedTotal(c));
            WellKeyed(t.stats) && (ip in Synced(t).exported ==>
              ip in t.stats && l in Synced(t).series && Synced(t).series[l] == Value(t.stats[ip], l.metric))
  {
    var start := Unused(capacity, maxTracked, c);
    UnusedOk(capacity, maxTracked, c);
    RunRanked(start, calls);
    RunOk(start, calls);
    var t := RunOf(start, calls);
    if ip in Synced(t).exported { SyncRanked(t, ip); }
  }

  // ----- runs, piece by piece ----------------------------------------------------------

  /** Packets of one address. */
  type Burst = seq<(Protocol, nat)>

  function CallsOf(ip: Ip, burst: Burst): (calls: seq<Call>)
    ensures |calls| == |burst| && forall i :: 0 <= i < |calls| ==> calls[i].Record?
  {
    if burst == [] then [] else
    var n := |burst| - 1;
    CallsOf(ip, burst[..n]) + [Record(ip, burst[n].0, burst[n].1)]
  }

  /** The statistic of an address after a burst. */
  function After(s: Stats, burst: Burst): (r: Stats)
    ensures r.ip == s.ip
  {
    if burst == [] then s else
    var n := |burst| - 1;
    After(s, burst[..n]).RecordPacket(burst[n].0, burst[n].1)
  }

  ghost function WithStats(t: Tracker, s: Stats): Tracker { t.(stats := t.stats[s.ip := s]) }

  ghost predicate HasRoom(t: Tracker, ip: Ip) { WellKeyed(t.stats) && |t.stats.Keys + {ip}| <= t.maxTracked }

  /** A packet that makes no one leave the table changes its own statistic only. */
  lemma FirstPacket(t: Tracker, ip: Ip, p: Protocol, n: nat)
    requires HasRoom(t, ip)
    ensures Advance(t, Record(ip, p, n)) == WithStats(t, CurrentStats(t.stats, ip).RecordPacket(p, n))
  {
    var s := NextStats(t.stats, ip, p, n);
    assert t.stats[ip := s].Keys == t.stats.Keys + {ip};
  }

  lemma StatsTwice(t: Tracker, s: Stats, r: Stats)
    requires s.ip == r.ip
    ensures WithStats(WithStats(t, s), r) == WithStats(t, r)
  {
    assert t.stats[s.ip := s][r.ip := r] == t.stats[r.ip := r];
  }

  lemma StillRoom(t: Tracker, s: Stats)
    requires HasRoom(t, s.ip)
    ensures HasRoom(WithStats(t, s), s.ip) && CurrentStats(WithStats(t, s).stats, s.ip) == s
  {
    assert WithStats(t, s).stats.Keys + {s.ip} == t.stats.Keys + {s.ip};
  }

  lemma NextPacket(t: Tracker, s: Stats, p: Protocol, n: nat)
    requires HasRoom(t, s.ip)
    ensures Advance(WithStats(t, s), Record(s.ip, p, n)) == WithStats(t, s.RecordPacket(p, n))
  {
    StillRoom(t, s);
    FirstPacket(WithStats(t, s), s.ip, p, n);
    StatsTwice(t, s, s.RecordPacket(p, n));
  }

  lemma {:induction false} BurstRecorded(t: Tracker, ip: Ip, burst: Burst)
    requires HasRoom(t, ip) && burst != []
    ensures RunOf(t, CallsOf(ip, burst)) == WithStats(t, After(CurrentStats(t.stats, ip), burst))
  {
    var n := |burst| - 1;
    var s, call := CurrentStats(t.stats, ip), Record(ip, burst[n].0, burst[n].1);
    FoldSnoc(Advance, t, CallsOf(ip, burst[..n]), call);
    if n == 0 {
      FirstPacket(t, ip, burst[n].0, burst[n].1);
    } else {
      BurstRecorded(t, ip, burst[..n]);
      NextPacket(t, After(s, burst[..n]), burst[n].0, burst[n].1);
    }
  }

  // ----- volumes -----------------------------------------------------------------------

  /** Ahead by volume alone, whatever the addresses. */
  predicate Beats(c: Criterion, a: Stats, b: Stats) {
    Primary(c, a) > Primary(c, b) || (Primary(c, a) == Primary(c, b) && Secondary(c, a) > Secondary(c, b))
  }

  /** What one packet adds to a series. */
  function Adds(e: (Protocol, nat), m: Metric): nat {
    match m
    case TotalPackets => 1
    case TotalBytes => e.1
    case TcpPackets => if e.0.Tcp? then 1 else 0
    case TcpBytes => if e.0.Tcp? then e.1 else 0
    case UdpPackets => if e.0.Udp? then 1 else 0
    case UdpBytes => if e.0.Udp? then e.1 else 0
    case IcmpPackets => if e.0.Icmp? then 1 else 0
    case IcmpBytes => if e.0.Icmp? then e.1 else 0
    case Icmpv6Packets => if e.0.Icmpv6? then 1 else 0
    case Icmpv6Bytes => if e.0.Icmpv6? then e.1 else 0
    case OtherPackets => if e.0.Other? then 1 else 0
    case OtherBytes => if e.0.Other? then e.1 else 0
  }

  /** What a burst adds to a series. */
  function Volume(burst: Burst, m: Metric): nat {
    if burst == [] then 0 else Volume(burst[..|burst| - 1], m) + Adds(burst[|burst| - 1], m)
  }

  lemma PacketAdds(s: Stats, p: Protocol, n: nat, m: Metric)
    ensures Value(s.RecordPacket(p, n), m) == Value(s, m) + Adds((p, n), m)
  {
  }

  lemma {:induction false} BurstAdds(s: Stats, burst: Burst, m: Metric)
    ensures Value(After(s, burst), m) == Value(s, m) + Volume(burst, m)
  {
    if burst != [] {
      var n := |burst| - 1;
      BurstAdds(s, burst[..n], m);
      PacketAdds(After(s, burst[..n]), burst[n].0, burst[n].1, m);
    }
  }

  lemma FreshValue(ip: Ip, burst: Burst, m: Metric)
    ensures Value(After(Fresh(ip), burst), m) == Volume(burst, m)
  {
    BurstAdds(Fresh(ip), burst, m);
  }

  /** More in the ranked total, or as much and more in the other. */
  predicate Louder(c: Criterion, a: Burst, b: Burst) {
    var first, second := RankedTotal(c), RankedTotal(if c.Packets? then Bytes else Packets);
    Volume(a, first) > Volume(b, first)
    || (Volume(a, first) == Volume(b, first) && Volume(a, second) > Volume(b, second))
  }

  lemma LouderBeats(c: Criterion, x: Ip, a: Burst, y: Ip, b: Burst)
    requires Louder(c, a, b)
    ensures Beats(c, After(Fresh(x), a), After(Fresh(y), b))
  {
    FreshValue(x, a, TotalPackets);
    FreshValue(x, a, TotalBytes);
    FreshValue(y, b, TotalPackets);
    FreshValue(y, b, TotalBytes);
  }

  // ----- a run that leaves a counter ahead ---------------------------------------------

  const VICTIM := Ip(4, 0)

  function Other(i: nat): Ip { Ip(4, i + 1) }

  /** `k` more addresses with the same burst each. */
  function Filled(base: Table, burst: Burst, k: nat): Table {
    if k == 0 then base else Filled(base, burst, k - 1)[Other(k - 1) := After(Fresh(Other(k - 1)), burst)]
  }

  lemma {:induction false} FilledHolds(s: Stats, burst: Burst, k: nat)
    requires s.ip == VICTIM
    ensures var m := Filled(map[VICTIM := s], burst, k);
            && |m| == k + 1 && WellKeyed(m) && VICTIM in m && m[VICTIM] == s
            && (forall ip <- m :: ip == VICTIM || m[ip] == After(Fresh(ip), burst))
            && (forall i: nat :: Other(i) in m <==> i < k)
  {
    if k > 0 { FilledHolds(s, burst, k - 1); }
  }

  ghost function WithTable(t: Tracker, stats: Table): Tracker { t.(stats := stats) }

  /** The next address has room and no statistic yet. */
  lemma NextFits(t: Tracker, s: Stats, burst: Burst, k: nat)
    requires s.ip == VICTIM && t.stats == map[VICTIM := s] && k + 1 < t.maxTracked
    ensures var u := WithTable(t, Filled(t.stats, burst, k));
            HasRoom(u, Other(k)) && CurrentStats(u.stats, Other(k)) == Fresh(Other(k))
  {
    FilledHolds(s, burst, k);
  }

  lemma StatsInTable(t: Tracker, m: Table, s: Stats)
    ensures WithStats(WithTable(t, m), s) == WithTable(t, m[s.ip := s])
  {
  }

  lemma FillStep(t: Tracker, s: Stats, burst: Burst, k: nat, u: Tracker, v: Tracker) returns (calls: seq<Call>)
    requires s.ip == VICTIM && t.stats == map[VICTIM := s] && k + 1 < t.maxTracked && burst != []
    requires u == WithTable(t, Filled(t.stats, burst, k)) && v == WithTable(t, Filled(t.stats, burst, k + 1))
    ensures Leads(u, calls, v)
  {
    calls := CallsOf(Other(k), burst);
    NextFits(t, s, burst, k);
    BurstRecorded(u, Other(k), burst);
    StatsInTable(t, Filled(t.stats, burst, k), After(Fresh(Other(k)), burst));
  }

  predicate NoChange(calls: seq<Call>) { forall i :: 0 <= i < |calls| ==> !calls[i].SetCriterion? }

  lemma NoChangeConcat(a: seq<Call>, b: seq<Call>)
    requires NoChange(a) && NoChange(b)
    ensures NoChange(a + b)
  {
  }

  /** Some calls lead from `t` to `u`, without a change of criterion. */
  ghost predicate Leads(t: Tracker, calls: seq<Call>, u: Tracker) {
    NoChange(calls) && RunOf(t, calls) == u
  }

  lemma LeadsOn(t: Tracker, a: seq<Call>, u: Tracker, b: seq<Call>, v: Tracker)
    requires Leads(t, a, u) && Leads(u, b, v)
    ensures Leads(t, a + b, v)
  {
    NoChangeConcat(a, b);
    FoldJoin(Advance, t, a, u, b, v);
  }

  lemma {:induction false} FillRecorded(t: Tracker, s: Stats, burst: Burst, k: nat) returns (calls: seq<Call>)
    requires s.ip == VICTIM && t.stats == map[VICTIM := s] && k < t.maxTracked && burst != []
    ensures Leads(t, calls, WithTable(t, Filled(map[VICTIM := s], burst, k)))
  {
    if k == 0 {
      calls := [];
    } else {
      var first := FillRecorded(t, s, burst, k - 1);
      var u, v := WithTable(t, Filled(t.stats, burst, k - 1)), WithTable(t, Filled(t.stats, burst, k));
      var next := FillStep(t, s, burst, k - 1, u, v);
      LeadsOn(t, first, u, next, v);
      calls := first + next;
    }
  }

  /** The first address is gone from the table, what was exported is not. */
  ghost predicate Cleared(t: Tracker, u: Tracker, burst: Burst) {
    && u.capacity == t.capacity && u.maxTracked == t.maxTracked && u.criterion == t.criterion && u.last == t.last
    && WellKeyed(u.stats) && |u.stats| == t.maxTracked / 2 && VICTIM !in u.stats
    && (forall ip <- u.stats :: u.stats[ip] in {After(Fresh(ip), burst), Fresh(ip).RecordPacket(Tcp, 40)})
  }

  /** The packet of one more address makes the table drop the first one. */
  lemma VictimPruned(t: Tracker, s: Stats, first: Burst, burst: Burst) returns (u: Tracker)
    requires s == After(Fresh(VICTIM), first) && Louder(t.criterion, burst, first)
    requires t.maxTracked >= 1 && t.stats == Filled(map[VICTIM := s], burst, t.maxTracked - 1)
    ensures u == Advance(t, Record(Other(t.maxTracked - 1), Tcp, 40)) && Cleared(t, u, burst)
  {
    var k := t.maxTracked - 1;
    FilledHolds(s, burst, k);
    var x := Fresh(Other(k)).RecordPacket(Tcp, 40);
    var added := t.(stats := t.stats[Other(k) := x]);
    u := Pruned(added);
    var top := TheTop(added.stats, t.criterion, t.maxTracked / 2);
    KeptIps(added.stats, t.criterion, t.maxTracked / 2, top);
    forall ip ensures Beats(t.criterion, After(Fresh(ip), burst), s) {
      LouderBeats(t.criterion, ip, burst, VICTIM, first);
    }
    VictimNotKept(added.stats, t.stats, s, t.criterion, t.maxTracked / 2, top);
  }

  lemma NotOutranked(c: Criterion, a: Stats, b: Stats)
    requires a == b || Beats(c, b, a)
    ensures !Outranks(c, a, b)
  {
    RankingIsStrictTotal(c, a, b, a);
  }

  lemma VictimNotKept(stats: Table, before: Table, s: Stats, c: Criterion, keep: nat, top: seq<Stats>)
    requires WellKeyed(stats) && IsTop(stats, c, keep, top) && s.ip == VICTIM && keep < |before|
    requires VICTIM in before && forall ip <- before :: ip in stats && stats[ip] == before[ip]
    requires before[VICTIM] == s && forall ip <- before :: ip == VICTIM || Beats(c, before[ip], s)
    ensures !HasIp(top, VICTIM)
  {
    TopSize(stats, c, keep, top);
    if HasIp(top, VICTIM) {
      var i :| 0 <= i < |top| && top[i].ip == VICTIM;
      forall ip | ip in before.Keys ensures ip in IpsOf(top) {
        NotOutranked(c, top[i], stats[ip]);
        var j := IsListed(stats, c, keep, top, i, ip);
      }
      SubsetSize(before.Keys, IpsOf(top));
    }
  }

  /** The first address alone is exported as it is. */
  lemma VictimExported(t: Tracker, s: Stats)
    requires s.ip == VICTIM && t.stats == map[VICTIM := s] && t.capacity >= 1 && t.last == map[]
    ensures var u := Advance(t, Sync);
            u == t.(exported := u.exported, last := u.last, series := u.series, reset := u.reset)
            && forall m :: At(u.last, Label(VICTIM, m)) == Value(s, m)
  {
    var top := TheTop(t.stats, t.criterion, t.capacity);
    assert t.stats.Keys == {VICTIM};
    assert top[0].ip in t.stats.Keys;
    assert VICTIM in IpsOf(top);
  }

  /** Back in the table, the first address is in the Top-N again: first of all, or one of few. */
  lemma VictimBack(t: Tracker, s: Stats, m: Metric)
    requires s.ip == VICTIM && WellKeyed(t.stats) && VICTIM in t.stats && t.stats[VICTIM] == s && t.capacity >= 1
    requires |t.stats| <= t.capacity || forall ip <- t.stats :: ip == VICTIM || Beats(t.criterion, s, t.stats[ip])
    ensures var l := Label(VICTIM, m);
            l in Synced(t).series && Synced(t).series[l] == Max(At(t.last, l), Value(s, m))
  {
    var top := TheTop(t.stats, t.criterion, t.capacity);
    TopSize(t.stats, t.criterion, t.capacity, top);
    if |t.stats| <= t.capacity {
      SameSize(IpsOf(top), t.stats.Keys);
    } else {
      NotOutranked(t.criterion, top[0], s);
      var i := IsListed(t.stats, t.criterion, t.capacity, top, 0, VICTIM);
    }
  }

  lemma SameSize<T>(a: set<T>, b: set<T>)
    requires a <= b && |a| == |b|
    ensures a == b
  {
    assert b == a + (b - a);
  }

  /** Before, in between and after: the packets of the run. */
  datatype Plan = Plan(first: Burst, fill: Burst, second: Burst)

  /** The first address is outranked after its first burst, and ranks again after its second. */
  predicate Works(plan: Plan, capacity: nat, maxTracked: nat, c: Criterion) {
    && plan.first != [] && plan.fill != [] && plan.second != [] && Louder(c, plan.fill, plan.first)
    && (capacity > maxTracked / 2 || (Louder(c, plan.second, plan.fill) && Louder(c, plan.second, [(Tcp, 40)])))
  }

  lemma BeginRun(capacity: nat, maxTracked: nat, c: Criterion, plan: Plan) returns (calls: seq<Call>, t: Tracker)
    requires capacity >= 1 && maxTracked >= 1 && plan.first != []
    ensures Leads(Unused(capacity, maxTracked, c), calls, t)
    ensures t.capacity == capacity && t.maxTracked == maxTracked && t.criterion == c
    ensures t.stats == map[VICTIM := After(Fresh(VICTIM), plan.first)]
    ensures forall m :: At(t.last, Label(VICTIM, m)) == Value(After(Fresh(VICTIM), plan.first), m)
  {
    var start, s := Unused(capacity, maxTracked, c), After(Fresh(VICTIM), plan.first);
    assert start.stats.Keys + {VICTIM} == {VICTIM};
    BurstRecorded(start, VICTIM, plan.first);
    VictimExported(WithStats(start, s), s);
    t := Advance(WithStats(start, s), Sync);
    FoldOne(Advance, WithStats(start, s), Sync);
    LeadsOn(start, CallsOf(VICTIM, plan.first), WithStats(start, s), [Sync], t);
    calls := CallsOf(VICTIM, plan.first) + [Sync];
  }

  lemma MiddleRun(t: Tracker, s: Stats, plan: Plan) returns (calls: seq<Call>, u: Tracker)
    requires s == After(Fresh(VICTIM), plan.first) && Louder(t.criterion, plan.fill, plan.first)
    requires t.stats == map[VICTIM := s] && t.maxTracked >= 1 && plan.fill != []
    ensures Leads(t, calls, u) && Cleared(t, u, plan.fill)
  {
    var k := t.maxTracked - 1;
    var full := WithTable(t, Filled(map[VICTIM := s], plan.fill, k));
    var first := FillRecorded(t, s, plan.fill, k);
    var last;
    last, u := FullPruned(t, s, plan, full);
    LeadsOn(t, first, full, last, u);
    calls := first + last;
  }

  lemma FullPruned(t: Tracker, s: Stats, plan: Plan, full: Tracker) returns (last: seq<Call>, u: Tracker)
    requires s == After(Fresh(VICTIM), plan.first) && Louder(t.criterion, plan.fill, plan.first)
    requires t.maxTracked >= 1 && full == WithTable(t, Filled(map[VICTIM := s], plan.fill, t.maxTracked - 1))
    ensures Leads(full, last, u) && Cleared(t, u, plan.fill)
  {
    last := [Record(Other(t.maxTracked - 1), Tcp, 40)];
    u := VictimPruned(full, s, plan.first, plan.fill);
    ClearedFrom(t, full, u, plan.fill);
    FoldOne(Advance, full, last[0]);
  }

  lemma ClearedFrom(t: Tracker, full: Tracker, u: Tracker, burst: Burst)
    requires full == WithTable(t, full.stats) && Cleared(full, u, burst)
    ensures Cleared(t, u, burst)
  {
  }

  /** The second burst brings the first address back, and a sync exports the greater value. */
  lemma EndRun(t: Tracker, plan: Plan, m: Metric) returns (calls: seq<Call>, u: Tracker)
    requires Cleared(t, t, plan.fill) && t.capacity >= 1 && t.maxTracked >= 1 && Works(plan, t.capacity, t.maxTracked, t.criterion)
    ensures Leads(t, calls, u) && WellKeyed(u.stats)
    ensures VICTIM in u.stats && u.stats[VICTIM] == After(Fresh(VICTIM), plan.second)
    ensures Label(VICTIM, m) in Synced(u).series
    ensures Synced(u).series[Label(VICTIM, m)] == Max(At(t.last, Label(VICTIM, m)), Volume(plan.second, m))
  {
    calls := CallsOf(VICTIM, plan.second);
    BurstRecorded(t, VICTIM, plan.second);
    u := WithStats(t, After(Fresh(VICTIM), plan.second));
    BackInTable(t, plan, m);
  }

  lemma BackInTable(t: Tracker, plan: Plan, m: Metric)
    requires Cleared(t, t, plan.fill) && t.capacity >= 1 && Works(plan, t.capacity, t.maxTracked, t.criterion)
    ensures var s := After(Fresh(VICTIM), plan.second); var u := WithStats(t, s);
            WellKeyed(u.stats) && Label(VICTIM, m) in Synced(u).series
            && Synced(u).series[Label(VICTIM, m)] == Max(At(t.last, Label(VICTIM, m)), Volume(plan.second, m))
  {
    var s := After(Fresh(VICTIM), plan.second);
    var u := WithStats(t, s);
    assert u.stats.Keys == t.stats.Keys + {VICTIM};
    FreshValue(VICTIM, plan.second, m);
    SecondRanks(t, plan);
    VictimBack(u, s, m);
  }

  lemma SecondRanks(t: Tracker, plan: Plan)
    requires Cleared(t, t, plan.fill) && Works(plan, t.capacity, t.maxTracked, t.criterion)
    ensures t.capacity > t.maxTracked / 2
            || forall ip <- t.stats :: Beats(t.criterion, After(Fresh(VICTIM), plan.second), t.stats[ip])
  {
    if t.capacity <= t.maxTracked / 2 {
      forall ip | ip in t.stats ensures Beats(t.criterion, After(Fresh(VICTIM), plan.second), t.stats[ip]) {
        LouderBeats(t.criterion, VICTIM, plan.second, ip, plan.fill);
        LouderBeats(t.criterion, VICTIM, plan.second, ip, [(Tcp, 40)]);
        OnePacket(Fresh(ip), Tcp, 40);
      }
    }
  }

  lemma OnePacket(s: Stats, p: Protocol, n: nat)
    ensures After(s, [(p, n)]) == s.RecordPacket(p, n)
  {
  }

  /** The whole run: the counter keeps what the first burst exported. */
  lemma PlanRun(capacity: nat, maxTracked: nat, c: Criterion, plan: Plan, m: Metric) returns (calls: seq<Call>, t: Tracker)
    requires capacity >= 1 && maxTracked >= 1 && Works(plan, capacity, maxTracked, c)
    ensures Leads(Unused(capacity, maxTracked, c), calls, t) && WellKeyed(t.stats)
    ensures VICTIM in t.stats && t.stats[VICTIM] == After(Fresh(VICTIM), plan.second)
    ensures Label(VICTIM, m) in Synced(t).series
    ensures Synced(t).series[Label(VICTIM, m)] == Max(Volume(plan.first, m), Volume(plan.second, m))
  {
    var start := Unused(capacity, maxTracked, c);
    var a, t1 := BeginRun(capacity, maxTracked, c, plan);
    FreshValue(VICTIM, plan.first, m);
    var b, t2 := MiddleRun(t1, After(Fresh(VICTIM), plan.first), plan);
    var d;
    d, t := EndRun(t2, plan, m);
    LeadsOn(start, a, t1, b, t2);
    LeadsOn(start, a + b, t2, d, t);
    calls := a + b + d;
  }

  // ----- which packets to send ---------------------------------------------------------

  lemma VolumeOne(e: (Protocol, nat), m: Metric)
    ensures Volume([e], m) == Adds(e, m)
  {
  }

  lemma VolumeTwo(e: (Protocol, nat), m: Metric)
    ensures Volume([e, e], m) == Adds(e, m) + Adds(e, m)
  {
    assert [e, e][..1] == [e];
    VolumeOne(e, m);
  }

  lemma VolumeThree(e: (Protocol, nat), m: Metric)
    ensures Volume([e, e, e], m) == Adds(e, m) + Adds(e, m) + Adds(e, m)
  {
    assert [e, e, e][..2] == [e, e];
    VolumeTwo(e, m);
  }

  function ProtocolOf(m: Metric): Protocol {
    match m
    case UdpPackets => Udp case UdpBytes => Udp
    case IcmpPackets => Icmp case IcmpBytes => Icmp
    case Icmpv6Packets => Icmpv6 case Icmpv6Bytes => Icmpv6
    case OtherPackets => Protocol.Other case OtherBytes => Protocol.Other
    case _ => Tcp
  }

  function Different(p: Protocol): Protocol { if p.Tcp? then Udp else Tcp }

  function PlanFor(capacity: nat, maxTracked: nat, c: Criterion, m: Metric): Plan {
    var p := ProtocolOf(m);
    var q := Different(p);
    if capacity > maxTracked / 2 then Plan([(p, 100), (p, 100)], [(Tcp, 200), (Tcp, 200), (Tcp, 200)], [(q, 40)])
    else if c.Packets? then Plan([(p, 100)], [(Tcp, 200)], [(q, 45), (q, 45)])
    else Plan([(p, 50), (p, 50)], [(Tcp, 200)], [(q, 300)])
  }

  lemma WidePlanWorks(capacity: nat, maxTracked: nat, c: Criterion, p: Protocol, q: Protocol)
    requires capacity > maxTracked / 2
    ensures Works(Plan([(p, 100), (p, 100)], [(Tcp, 200), (Tcp, 200), (Tcp, 200)], [(q, 40)]), capacity, maxTracked, c)
  {
    VolumeTwo((p, 100), RankedTotal(c));
    VolumeThree((Tcp, 200), RankedTotal(c));
  }

  lemma PacketsPlanWorks(capacity: nat, maxTracked: nat, p: Protocol, q: Protocol)
    ensures Works(Plan([(p, 100)], [(Tcp, 200)], [(q, 45), (q, 45)]), capacity, maxTracked, Packets)
  {
    VolumeOne((p, 100), TotalPackets);
    VolumeOne((p, 100), TotalBytes);
    VolumeOne((Tcp, 200), TotalPackets);
    VolumeOne((Tcp, 200), TotalBytes);
    VolumeOne((Tcp, 40), TotalPackets);
    VolumeTwo((q, 45), TotalPackets);
  }

  lemma BytesPlanWorks(capacity: nat, maxTracked: nat, p: Protocol, q: Protocol)
    ensures Works(Plan([(p, 50), (p, 50)], [(Tcp, 200)], [(q, 300)]), capacity, maxTracked, Bytes)
  {
    VolumeTwo((p, 50), TotalBytes);
    VolumeOne((Tcp, 200), TotalBytes);
    VolumeOne((Tcp, 40), TotalBytes);
    VolumeOne((q, 300), TotalBytes);
  }

  lemma PlanWorks(capacity: nat, maxTracked: nat, c: Criterion, m: Metric)
    ensures Works(PlanFor(capacity, maxTracked, c, m), capacity, maxTracked, c)
  {
    var p := ProtocolOf(m);
    if capacity > maxTracked / 2 {
      WidePlanWorks(capacity, maxTracked, c, p, Different(p));
    } else if c.Packets? {
      PacketsPlanWorks(capacity, maxTracked, p, Different(p));
    } else {
      BytesPlanWorks(capacity, maxTracked, p, Different(p));
    }
  }

  lemma PlanLowers(capacity: nat, maxTracked: nat, c: Criterion, m: Metric)
    requires capacity > maxTracked / 2 || m != RankedTotal(c)
    ensures var plan := PlanFor(capacity, maxTracked, c, m); Volume(plan.first, m) > Volume(plan.second, m)
  {
    var p := ProtocolOf(m);
    var q := Different(p);
    if capacity > maxTracked / 2 {
      VolumeTwo((p, 100), m);
      VolumeOne((q, 40), m);
    } else if c.Packets? {
      VolumeOne((p, 100), m);
      VolumeTwo((q, 45), m);
    } else {
      VolumeTwo((p, 50), m);
      VolumeOne((q, 300), m);
    }
  }

  // ----- the exact condition -----------------------------------------------------------

  /** After a sync the counter is the statistic. */
  ghost predicate ExactAt(t: Tracker, l: Label) {
    WellKeyed(t.stats) && l in Synced(t).series ==> l.ip in t.stats && Synced(t).series[l] == Value(t.stats[l.ip], l.metric)
  }

  /** In no run with one criterion does a sync leave this series ahead of its statistic. */
  ghost predicate AlwaysExact(capacity: nat, maxTracked: nat, c: Criterion, m: Metric) {
    forall calls, ip :: SameCriterion(c, calls) ==> ExactAt(RunOf(Unused(capacity, maxTracked, c), calls), Label(ip, m))
  }

  /** A run with one criterion that leaves a counter ahead: two bursts of one address, with
      enough other addresses in between to make the table drop it. */
  lemma CounterAhead(capacity: nat, maxTracked: nat, c: Criterion, m: Metric) returns (calls: seq<Call>, t: Tracker)
    requires capacity >= 1 && maxTracked >= 1 && (capacity > maxTracked / 2 || m != RankedTotal(c))
    ensures SameCriterion(c, calls) && t == RunOf(Unused(capacity, maxTracked, c), calls) && WellKeyed(t.stats)
    ensures var l := Label(VICTIM, m);
            VICTIM in t.stats && l in Synced(t).series && Synced(t).series[l] > Value(t.stats[VICTIM], m)
  {
    var plan := PlanFor(capacity, maxTracked, c, m);
    PlanWorks(capacity, maxTracked, c, m);
    PlanLowers(capacity, maxTracked, c, m);
    calls, t := PlanRun(capacity, maxTracked, c, plan, m);
    FreshValue(VICTIM, plan.second, m);
  }

  /** A series is exact after every sync of every run with one criterion if and only if it is
      the ranked total and the Top-N is at most the kept half. */
  lemma AlwaysExactIff(capacity: nat, maxTracked: nat, c: Criterion, m: Metric)
    requires capacity >= 1 && maxTracked >= 1
    ensures AlwaysExact(capacity, maxTracked, c, m) <==> m == RankedTotal(c) && capacity <= maxTracked / 2
  {
    var start := Unused(capacity, maxTracked, c);
    if m == RankedTotal(c) && capacity <= maxTracked / 2 {
      forall calls, ip | SameCriterion(c, calls) ensures ExactAt(RunOf(start, calls), Label(ip, m)) {
        UnusedOk(capacity, maxTracked, c);
        RunOk(start, calls);
        RankedTotalExact(capacity, maxTracked, c, calls, ip);
      }
    } else {
      var calls, t := CounterAhead(capacity, maxTracked, c, m);
      assert !ExactAt(RunOf(start, calls), Label(VICTIM, m));
    }
  }

  /** If the criterion may change no series is safe, not even the ranked total. */
  lemma AheadAfterChange(capacity: nat, maxTracked: nat, c: Criterion, m: Metric) returns (calls: seq<Call>, t: Tracker)
    requires capacity >= 1 && maxTracked >= 1
    ensures t == RunOf(Unused(capacity, maxTracked, c), calls) && WellKeyed(t.stats)
    ensures var l := Label(VICTIM, m);
            VICTIM in t.stats && l in Synced(t).series && Synced(t).series[l] > Value(t.stats[VICTIM], m)
  {
    var other := if m == TotalPackets then Bytes else Packets;
    var start, change, rest := Unused(capacity, maxTracked, c), [SetCriterion(other)], [];
    rest, t := CounterAhead(capacity, maxTracked, other, m);
    calls := change + rest;
    FoldConcat(Advance, start, change, rest);
    FoldSnoc(Advance, start, [], SetCriterion(other));
    assert [] + change == change;
  }

  // ----- one series, one run -----------------------------------------------------------

  /** What a call means for one series: nothing, a sync without its address, or a sync that found
      this value of the statistic. */
  datatype Seen = Nothing | Out | Found(value: nat)

  ghost function SeenAt(t: Tracker, call: Call, l: Label): Seen {
    if !call.Sync? || !WellKeyed(t.stats) then Nothing
    else if l.ip in t.stats && l.ip in IpsOf(TheTop(t.stats, t.criterion, t.capacity)) then Found(Value(t.stats[l.ip], l.metric))
    else Out
  }

  ghost function See(l: Label): (Tracker, Call) -> Seen { (t: Tracker, call: Call) => SeenAt(t, call, l) }

  ghost function SeenBy(start: Tracker, calls: seq<Call>, l: Label): seq<Seen> {
    Trace(Advance, See(l), start, calls)
  }

  lemma SeenByAt(start: Tracker, calls: seq<Call>, l: Label, j: nat)
    requires j < |calls|
    ensures |SeenBy(start, calls, l)| == |calls|
    ensures SeenBy(start, calls, l)[j] == SeenAt(RunOf(start, calls[..j]), calls[j], l)
  {
    TraceAt(Advance, See(l), start, calls, j);
  }

  /** Sync `j` belongs to the present stay in the export and found more than `v`. */
  predicate FoundMore(seen: seq<Seen>, j: nat, v: nat) {
    j < |seen| && seen[j].Found? && seen[j].value > v && forall k :: j <= k < |seen| ==> !seen[k].Out?
  }

  /** The most any sync of the present stay found. */
  function Peak(seen: seq<Seen>): nat {
    if seen == [] then 0 else
    match seen[|seen| - 1]
    case Nothing => Peak(seen[..|seen| - 1])
    case Out => 0
    case Found(v) => Max(Peak(seen[..|seen| - 1]), v)
  }

  lemma {:induction false} PeakIsMost(seen: seq<Seen>, v: nat)
    ensures Peak(seen) > v <==> exists j: nat :: FoundMore(seen, j, v)
  {
    if seen != [] {
      var n := |seen| - 1;
      PeakIsMost(seen[..n], v);
      assert forall j: nat :: j < n ==> (FoundMore(seen, j, v) <==> FoundMore(seen[..n], j, v) && !seen[n].Out?);
      assert FoundMore(seen, n, v) <==> seen[n].Found? && seen[n].value > v;
    }
  }

  lemma AdvancePeak(t: Tracker, call: Call, l: Label)
    requires Ok(t)
    ensures At(Advance(t, call).last, l) ==
            match SeenAt(t, call, l) case Nothing => At(t.last, l) case Out => 0 case Found(v) => Max(At(t.last, l), v)
  {
    if call.Sync? { TopIps(t); }
  }

  /** What was last exported is the most any sync of the present stay found. */
  lemma {:induction false} LastIsPeak(start: Tracker, calls: seq<Call>, l: Label)
    requires Ok(start) && start.last == map[]
    ensures At(RunOf(start, calls).last, l) == Peak(SeenBy(start, calls, l))
  {
    if calls != [] {
      var n := |calls| - 1;
      LastIsPeak(start, calls[..n], l);
      RunOk(start, calls[..n]);
      AdvancePeak(RunOf(start, calls[..n]), calls[n], l);
      SnocTake(SeenBy(start, calls[..n], l), SeenAt(RunOf(start, calls[..n]), calls[n], l));
    }
  }

  /** After any run from scratch, a sync leaves a series ahead of its statistic if and only if an
      earlier sync of the same stay found more than the address has now; the address was then
      pruned in between. */
  lemma AheadIffFoundMore(start: Tracker, calls: seq<Call>, l: Label)
    requires Ok(start) && start.last == map[]
    ensures var t := RunOf(start, calls);
            WellKeyed(t.stats) && (l in Synced(t).series ==>
              && l.ip in t.stats && Synced(t).series[l] >= Value(t.stats[l.ip], l.metric)
              && (Synced(t).series[l] > Value(t.stats[l.ip], l.metric) <==>
                  exists j: nat :: FoundMore(SeenBy(start, calls, l), j, Value(t.stats[l.ip], l.metric)))
              && (Synced(t).series[l] > Value(t.stats[l.ip], l.metric) ==> l.ip in t.reset))
  {
    var t := RunOf(start, calls);
    RunOk(start, calls);
    TopIps(t);
    if l in Synced(t).series {
      LastIsPeak(start, calls, l);
      PeakIsMost(SeenBy(start, calls, l), Value(t.stats[l.ip], l.metric));
      if l.ip in t.exported { assert l in t.last; } else { assert l !in t.last; }
    }
  }

  // ----- what the statistics count -----------------------------------------------------

  /** What the recorded packets of one address add to a series. */
  function VolumeOf(calls: seq<Call>, ip: Ip, m: Metric): nat {
    if calls == [] then 0 else
    var call := calls[|calls| - 1];
    VolumeOf(calls[..|calls| - 1], ip, m) + if call.Record? && call.ip == ip then Adds((call.protocol, call.bytes), m) else 0
  }

  lemma StatAfter(t: Tracker, call: Call, ip: Ip)
    requires WellKeyed(t.stats) && ip in Advance(t, call).stats
    ensures (call.Record? && call.ip == ip) || ip in t.stats
    ensures Advance(t, call).stats[ip] == if call.Record? && call.ip == ip
                                          then CurrentStats(t.stats, ip).RecordPacket(call.protocol, call.bytes) else t.stats[ip]
  {
  }

  ghost predicate CountsFrom(s: Stats, calls: seq<Call>, k: nat, ip: Ip) {
    k <= |calls| && forall m: Metric :: Value(s, m) == VolumeOf(calls[k..], ip, m)
  }

  lemma CountsStep(t: Tracker, u: Tracker, calls: seq<Call>, before: seq<Call>, call: Call, k: nat, ip: Ip)
    requires calls == before + [call] && WellKeyed(t.stats) && u == Advance(t, call) && ip in u.stats
    requires if ip in t.stats then CountsFrom(t.stats[ip], before, k, ip) else k == |before|
    ensures CountsFrom(u.stats[ip], calls, k, ip)
  {
    forall m: Metric ensures Value(u.stats[ip], m) == VolumeOf(calls[k..], ip, m) {
      VolumeNext(calls, before, call, k, ip, m);
      ValueAfter(t, call, ip, m);
    }
  }

  lemma CountsNext(start: Tracker, calls: seq<Call>, before: seq<Call>, call: Call, k: nat, ip: Ip)
    requires Ok(start) && calls == before + [call] && ip in RunOf(start, calls).stats
    requires var t := RunOf(start, before); if ip in t.stats then CountsFrom(t.stats[ip], before, k, ip) else k == |before|
    ensures CountsFrom(RunOf(start, calls).stats[ip], calls, k, ip)
  {
    RunOk(start, before);
    FoldSnoc(Advance, start, before, call);
    CountsStep(RunOf(start, before), RunOf(start, calls), calls, before, call, k, ip);
  }

  /** A statistic counts the packets recorded since some moment at which its address was not in the table. */
  lemma {:induction false} CountsSince(start: Tracker, calls: seq<Call>, ip: Ip) returns (k: nat)
    requires Ok(start) && start.stats == map[] && ip in RunOf(start, calls).stats
    ensures k <= |calls| && ip !in RunOf(start, calls[..k]).stats && CountsFrom(RunOf(start, calls).stats[ip], calls, k, ip)
  {
    var n := |calls| - 1;
    var before := calls[..n];
    if ip in RunOf(start, before).stats {
      k := CountsSince(start, before, ip);
      assert before[..k] == calls[..k];
    } else {
      k := n;
    }
    CountsNext(start, calls, before, calls[n], k, ip);
  }

  lemma ValueAfter(t: Tracker, call: Call, ip: Ip, m: Metric)
    requires WellKeyed(t.stats) && ip in Advance(t, call).stats
    ensures Value(Advance(t, call).stats[ip], m) == (if ip in t.stats then Value(t.stats[ip], m) else 0)
            + if call.Record? && call.ip == ip then Adds((call.protocol, call.bytes), m) else 0
  {
    StatAfter(t, call, ip);
    if call.Record? && call.ip == ip { PacketAdds(CurrentStats(t.stats, ip), call.protocol, call.bytes, m); }
  }

  lemma VolumeNext(calls: seq<Call>, before: seq<Call>, call: Call, k: nat, ip: Ip, m: Metric)
    requires calls == before + [call] && k <= |before|
    ensures VolumeOf(calls[k..], ip, m) == VolumeOf(before[k..], ip, m)
            + if call.Record? && call.ip == ip then Adds((call.protocol, call.bytes), m) else 0
  {
    assert calls[k..] == before[k..] + [call];
    SnocTake(before[k..], call);
  }
}
