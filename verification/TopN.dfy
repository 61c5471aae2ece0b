/** Top-N blocked addresses: ranking, pruning of the tracked table, and delta export of
    counters with eviction and re-entry. */
module TopN {

  /** IPv4 addresses order before IPv6, then by value. */
  datatype Ip = Ip(version: nat, value: nat) {
    predicate Less(other: Ip) {
      version < other.version || (version == other.version && value < other.value)
    }
  }

  datatype Protocol = Tcp | Udp | Icmp | Icmpv6 | Other

  datatype Counts = Counts(tcp: nat, udp: nat, icmp: nat, icmpv6: nat, other: nat) {
    function Add(p: Protocol, n: nat): Counts {
      match p
      case Tcp => this.(tcp := tcp + n)
      case Udp => this.(udp := udp + n)
      case Icmp => this.(icmp := icmp + n)
      case Icmpv6 => this.(icmpv6 := icmpv6 + n)
      case Other => this.(other := other + n)
    }

    function Sum(): nat { tcp + udp + icmp + icmpv6 + other }
  }

  const ZERO := Counts(0, 0, 0, 0, 0)

  datatype Stats = Stats(ip: Ip, totalPackets: nat, totalBytes: nat, packets: Counts, bytes: Counts) {
    function RecordPacket(p: Protocol, n: nat): Stats {
      this.(totalPackets := totalPackets + 1, totalBytes := totalBytes + n, packets := packets.Add(p, 1), bytes := bytes.Add(p, n))
    }

    predicate Balanced() { packets.Sum() == totalPackets && bytes.Sum() == totalBytes }
  }

  function Fresh(ip: Ip): Stats { Stats(ip, 0, 0, ZERO, ZERO) }

  // ----- ranking ---------------------------------------------------------------------

  datatype Criterion = Packets | Bytes

  function Primary(c: Criterion, s: Stats): nat { if c.Packets? then s.totalPackets else s.totalBytes }
  function Secondary(c: Criterion, s: Stats): nat { if c.Packets? then s.totalBytes else s.totalPackets }

  /** The comparator of `sort_entries`: higher volume first, ties by address. */
  predicate Outranks(c: Criterion, a: Stats, b: Stats) {
    || Primary(c, a) > Primary(c, b)
    || (Primary(c, a) == Primary(c, b) && Secondary(c, a) > Secondary(c, b))
    || (Primary(c, a) == Primary(c, b) && Secondary(c, a) == Secondary(c, b) && a.ip.Less(b.ip))
  }

  /** Ranking is a strict total order on statistics of distinct addresses. */
  lemma RankingIsStrictTotal(c: Criterion, a: Stats, b: Stats, d: Stats)
    ensures !Outranks(c, a, a)
    ensures Outranks(c, a, b) && Outranks(c, b, d) ==> Outranks(c, a, d)
    ensures a.ip != b.ip ==> (Outranks(c, a, b) <==> !Outranks(c, b, a))
  {
  }

  /** The order of a listing: more of the ranked quantity, then more of the other one, then the
      lower address, IPv4 before IPv6. */
  predicate ComesFirst(c: Criterion, a: Stats, b: Stats) {
    var (a1, a2, b1, b2) := if c == Bytes then (a.totalBytes, a.totalPackets, b.totalBytes, b.totalPackets)
                            else (a.totalPackets, a.totalBytes, b.totalPackets, b.totalBytes);
    && a1 >= b1 && (a1 == b1 ==> a2 >= b2) && (a1 == b1 && a2 == b2 ==> a.ip.version <= b.ip.version)
    && (a1 == b1 && a2 == b2 && a.ip.version == b.ip.version ==> a.ip.value < b.ip.value)
  }

  /** The comparator decides exactly that order, also between an entry listed and one left out. */
  lemma OutranksFirst(c: Criterion, a: Stats, b: Stats)
    ensures Outranks(c, a, b) <==> ComesFirst(c, a, b)
  {
  }

  predicate Ranked(c: Criterion, s: seq<Stats>) {
    forall i, j :: 0 <= i < j < |s| ==> Outranks(c, s[i], s[j])
  }

  function Insert(c: Criterion, x: Stats, s: seq<Stats>): seq<Stats> {
    if s == [] then [x]
    else if Outranks(c, x, s[0]) then [x] + s
    else [s[0]] + Insert(c, x, s[1..])
  }

  /** The result of the library sort under the comparator. */
  function Sort(c: Criterion, s: seq<Stats>): seq<Stats> {
    if s == [] then [] else Insert(c, s[0], Sort(c, s[1..]))
  }

  predicate DistinctIps(s: seq<Stats>) {
    forall i, j :: 0 <= i < j < |s| ==> s[i].ip != s[j].ip
  }

  lemma {:induction false} InsertElements(c: Criterion, x: Stats, s: seq<Stats>)
    ensures |Insert(c, x, s)| == |s| + 1 && forall y :: y in Insert(c, x, s) <==> y == x || y in s
  {
    if s != [] && !Outranks(c, x, s[0]) {
      InsertElements(c, x, s[1..]);
      assert s == [s[0]] + s[1..];
    }
  }

  lemma {:induction false} InsertRanked(c: Criterion, x: Stats, s: seq<Stats>)
    requires Ranked(c, s) && forall y <- s :: y.ip != x.ip
    ensures Ranked(c, Insert(c, x, s))
  {
    if s != [] {
      if Outranks(c, x, s[0]) {
        forall j | 0 < j < |s| ensures Outranks(c, x, s[j]) { RankingIsStrictTotal(c, x, s[0], s[j]); }
      } else {
        assert s[0] in s;
        InsertRanked(c, x, s[1..]);
        InsertElements(c, x, s[1..]);
        RankingIsStrictTotal(c, x, s[0], s[0]);
        var rest := Insert(c, x, s[1..]);
        forall j | 0 <= j < |rest| ensures Outranks(c, s[0], rest[j]) {
          assert rest[j] in rest;
          if rest[j] in s[1..] {
            var k :| 0 <= k < |s[1..]| && s[1..][k] == rest[j];
          }
        }
      }
    }
  }

  lemma {:induction false} SortCorrect(c: Criterion, s: seq<Stats>)
    requires DistinctIps(s)
    ensures |Sort(c, s)| == |s| && (forall y :: y in Sort(c, s) <==> y in s) && Ranked(c, Sort(c, s))
  {
    if s != [] {
      SortCorrect(c, s[1..]);
      InsertElements(c, s[0], Sort(c, s[1..]));
      assert s == [s[0]] + s[1..];
      forall y | y in Sort(c, s[1..]) ensures y.ip != s[0].ip {
        var k :| 0 <= k < |s[1..]| && s[1..][k] == y;
        assert s[k + 1] == y;
      }
      InsertRanked(c, s[0], Sort(c, s[1..]));
    }
  }

  // ----- the Top-N list ----------------------------------------------------------------

  type Table = map<Ip, Stats>

  predicate WellKeyed(stats: Table) { forall ip <- stats :: stats[ip].ip == ip }

  function Min(a: nat, b: nat): nat { if a < b then a else b }

  ghost predicate HasIp(top: seq<Stats>, ip: Ip) {
    exists i :: 0 <= i < |top| && top[i].ip == ip
  }

  /** `top` is the Top-N of the table: ranked, full, and outranked by nothing it leaves out. */
  ghost predicate IsTop(stats: Table, c: Criterion, n: nat, top: seq<Stats>) {
    && |top| == Min(n, |stats|)
    && Ranked(c, top)
    && (forall i :: 0 <= i < |top| ==> top[i].ip in stats && stats[top[i].ip] == top[i])
    && (forall ip, i :: ip in stats && !HasIp(top, ip) && 0 <= i < |top| ==> Outranks(c, top[i], stats[ip]))
  }

  /** The list is unique: hash iteration order cannot change it. */
  lemma TopIsUnique(stats: Table, c: Criterion, n: nat, a: seq<Stats>, b: seq<Stats>)
    requires WellKeyed(stats) && IsTop(stats, c, n, a) && IsTop(stats, c, n, b)
    ensures a == b
  {
    for i := 0 to |a|
      invariant a[..i] == b[..i]
    {
      TopNext(stats, c, n, a, b, i);
    }
  }

  /** Two lists that agree so far agree on the next entry. */
  lemma TopNext(stats: Table, c: Criterion, n: nat, a: seq<Stats>, b: seq<Stats>, i: nat)
    requires WellKeyed(stats) && IsTop(stats, c, n, a) && IsTop(stats, c, n, b)
    requires i < |a| && a[..i] == b[..i]
    ensures a[i] == b[i]
  {
    TopNotBehind(stats, c, n, a, b, i);
    TopNotBehind(stats, c, n, b, a, i);
    RankingIsStrictTotal(c, a[i], b[i], a[i]);
  }

  lemma TopNotBehind(stats: Table, c: Criterion, n: nat, a: seq<Stats>, b: seq<Stats>, i: nat)
    requires WellKeyed(stats) && IsTop(stats, c, n, a) && IsTop(stats, c, n, b)
    requires i < |a| && a[..i] == b[..i]
    ensures a[i] == b[i] || Outranks(c, a[i], b[i])
  {
    if HasIp(a, b[i].ip) {
      var j :| 0 <= j < |a| && a[j].ip == b[i].ip;
      assert a[j] == b[i];
      if j < i {
        assert a[..i][j] == b[..i][j];
        RankingIsStrictTotal(c, b[j], b[i], b[i]);
      }
    }
  }

  /** The table's values in some order. */
  ghost predicate ValuesOf(stats: Table, rest: set<Ip>, entries: seq<Stats>) {
    && rest <= stats.Keys && |entries| == |stats.Keys| - |rest| && DistinctIps(entries)
    && forall s :: s in entries <==> s.ip in stats && s.ip !in rest && stats[s.ip] == s
  }

  lemma NextValue(stats: Table, rest: set<Ip>, entries: seq<Stats>, ip: Ip)
    requires WellKeyed(stats) && ValuesOf(stats, rest, entries) && ip in rest
    ensures ValuesOf(stats, rest - {ip}, entries + [stats[ip]])
  {
    forall i | 0 <= i < |entries| ensures entries[i].ip != ip { assert entries[i] in entries; }
  }

  method Values(stats: Table) returns (entries: seq<Stats>)
    requires WellKeyed(stats)
    ensures ValuesOf(stats, {}, entries)
  {
    entries := [];
    var rest := stats.Keys;
    while rest != {}
      invariant ValuesOf(stats, rest, entries)
      decreases rest
    {
      var ip :| ip in rest;
      NextValue(stats, rest, entries, ip);
      entries := entries + [stats[ip]];
      rest := rest - {ip};
    }
  }

  lemma {:induction false} ValuesExist(stats: Table, rest: set<Ip>, entries: seq<Stats>) returns (all: seq<Stats>)
    requires WellKeyed(stats) && ValuesOf(stats, rest, entries)
    ensures ValuesOf(stats, {}, all)
    decreases rest
  {
    if rest == {} {
      all := entries;
    } else {
      var ip :| ip in rest;
      NextValue(stats, rest, entries, ip);
      all := ValuesExist(stats, rest - {ip}, entries + [stats[ip]]);
    }
  }

  /** Sort and truncate. */
  method TopStats(stats: Table, c: Criterion, n: nat) returns (top: seq<Stats>)
    requires WellKeyed(stats)
    ensures IsTop(stats, c, n, top)
    ensures forall i, j :: 0 <= i < j < |top| ==> ComesFirst(c, top[i], top[j])
  {
    var entries := Values(stats);
    SortCorrect(c, entries);
    var sorted := Sort(c, entries);
    top := sorted[..Min(n, |sorted|)];
    TruncatedIsTop(stats, c, n, sorted);
    forall i, j | 0 <= i < j < |top| ensures ComesFirst(c, top[i], top[j]) {
      OutranksFirst(c, top[i], top[j]);
    }
  }

  lemma TruncatedIsTop(stats: Table, c: Criterion, n: nat, sorted: seq<Stats>)
    requires WellKeyed(stats) && Ranked(c, sorted) && |sorted| == |stats|
    requires forall s :: s in sorted <==> s.ip in stats && stats[s.ip] == s
    ensures IsTop(stats, c, n, sorted[..Min(n, |sorted|)])
  {
    var top := sorted[..Min(n, |sorted|)];
    forall i | 0 <= i < |top| ensures top[i].ip in stats && stats[top[i].ip] == top[i] { assert sorted[i] in sorted; }
    forall ip, i | ip in stats && !HasIp(top, ip) && 0 <= i < |top| ensures Outranks(c, top[i], stats[ip]) {
      assert stats[ip] in sorted;
      var j :| 0 <= j < |sorted| && sorted[j] == stats[ip];
      forall k | 0 <= k < |top| ensures sorted[k].ip != ip { assert top[k] == sorted[k]; }
    }
  }

  // ----- pruning ---------------------------------------------------------------------------

  ghost function Kept(stats: Table, keep: seq<Stats>): Table {
    map ip | ip in stats && HasIp(keep, ip) :: stats[ip]
  }

  lemma KeptIps(stats: Table, c: Criterion, n: nat, keep: seq<Stats>)
    requires WellKeyed(stats) && IsTop(stats, c, n, keep)
    ensures |Kept(stats, keep)| == |keep| && WellKeyed(Kept(stats, keep))
  {
    var m := Kept(stats, keep);
    var ips := set i | 0 <= i < |keep| :: keep[i].ip;
    assert m.Keys == ips;
    RankedDistinct(c, keep);
    CountIps(keep);
  }

  lemma RankedDistinct(c: Criterion, s: seq<Stats>)
    requires Ranked(c, s) && forall i, j :: 0 <= i < j < |s| && s[i].ip == s[j].ip ==> s[i] == s[j]
    ensures DistinctIps(s)
  {
    forall i, j | 0 <= i < j < |s| ensures s[i].ip != s[j].ip { RankingIsStrictTotal(c, s[i], s[j], s[j]); }
  }

  lemma {:induction false} CountIps(s: seq<Stats>)
    requires DistinctIps(s)
    ensures |set i | 0 <= i < |s| :: s[i].ip| == |s|
  {
    if s != [] {
      var n := |s| - 1;
      CountIps(s[..n]);
      var before := set i | 0 <= i < n :: s[..n][i].ip;
      assert forall i :: 0 <= i < n ==> s[..n][i] == s[i];
      assert (set i | 0 <= i < |s| :: s[i].ip) == before + {s[n].ip};
      assert s[n].ip !in before;
    }
  }

  /** Pruning to the `keep` best leaves the Top-N list unchanged iff N is at most `keep`
      (given that pruning removed something). */
  lemma PruningKeepsTop(stats: Table, c: Criterion, n: nat, keep: nat, kept: seq<Stats>, top: seq<Stats>)
    requires WellKeyed(stats) && IsTop(stats, c, keep, kept) && IsTop(stats, c, n, top) && |stats| > keep
    ensures IsTop(Kept(stats, kept), c, n, top) <==> n <= keep
  {
    var pruned := Kept(stats, kept);
    KeptIps(stats, c, keep, kept);
    if n <= keep {
      PrefixIsTop(stats, c, n, keep, kept);
      TopIsUnique(stats, c, n, kept[..n], top);
      forall i | 0 <= i < |top| ensures top[i].ip in pruned && pruned[top[i].ip] == top[i] {
        assert kept[i] == top[i];
        assert HasIp(kept, top[i].ip);
      }
    }
  }

  lemma PrefixIsTop(stats: Table, c: Criterion, n: nat, keep: nat, kept: seq<Stats>)
    requires WellKeyed(stats) && IsTop(stats, c, keep, kept) && n <= keep && |stats| > keep
    ensures IsTop(stats, c, n, kept[..n])
  {
    forall ip, i | ip in stats && !HasIp(kept[..n], ip) && 0 <= i < n ensures Outranks(c, kept[..n][i], stats[ip]) {
      if HasIp(kept, ip) {
        var j :| 0 <= j < |kept| && kept[j].ip == ip;
        forall k | 0 <= k < n ensures kept[k].ip != ip { assert kept[..n][k] == kept[k]; }
      }
    }
  }
}
