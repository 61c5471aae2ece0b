/** Turning feed entries into rules: allowlisting, deduplication and routing. */
module Prepare {
  import opened Bits
  import opened Cidr
  import opened Contexts
  import opened IpIndex
  import opened Lists
  import opened Rules
  import opened Targets

  // ----- the allowlist -----------------------------------------------------------------

  predicate InfrastructureHost(o: seq<Byte>)
    requires |o| == 4
  {
    || (o[0] == 140 && o[1] == 82 && 112 <= o[2] <= 127)
    || (o[0] == 192 && o[1] == 30 && 252 <= o[2] <= 255)
    || (o[0] == 185 && o[1] == 199 && 108 <= o[2] <= 111)
    || (o[0] == 143 && o[1] == 55 && 64 <= o[2] <= 79)
    || o == [20, 201, 28, 151] || o == [20, 205, 243, 166]
    || (o[0] == 4 && o[1] == 237 && 22 <= o[2] <= 23)
    || o[0] == 127
  }

  /** Only these four blocks, not blocks inside or around them. */
  predicate InfrastructureBlock(prefix: nat, o: seq<Byte>) {
    || (prefix == 20 && o == [140, 82, 112, 0]) || (prefix == 22 && o == [192, 30, 252, 0])
    || (prefix == 22 && o == [185, 199, 108, 0]) || (prefix == 20 && o == [143, 55, 64, 0])
  }

  predicate Allowlisted(t: Target) {
    t.family.V4? && |t.octets| == 4 &&
    if t.Exact? || t.prefix == 32 then InfrastructureHost(t.octets) else InfrastructureBlock(t.prefix, t.octets)
  }

  // ----- which rules come out ----------------------------------------------------------

  /** Single-address blocks are routed to the hash map. */
  function Slot(t: Target): Target {
    if t.Cidr? && t.prefix == t.family.Width() then Exact(t.family, t.octets) else t
  }

  predicate Keeps(e: Entry, slot: Target) {
    !Allowlisted(e.target) && Slot(e.target) == slot
  }

  /** The first entry of each slot that is not allowlisted. */
  function FirstRules(entries: seq<Entry>): map<Target, Rule> {
    FoldLeft(Keep, map[], entries)
  }

  function Keep(m: map<Target, Rule>, e: Entry): map<Target, Rule> {
    if Allowlisted(e.target) || Slot(e.target) in m then m else m[Slot(e.target) := Rule(e.ruleId, Drop)]
  }

  /** Entry `j` is the first one to ask for a slot. */
  ghost predicate FirstAt(entries: seq<Entry>, slot: Target, j: nat) {
    j < |entries| && Keeps(entries[j], slot) && forall i :: 0 <= i < j ==> !Keeps(entries[i], slot)
  }

  /** A slot has a rule iff some entry asks for it, and then it is that of the first one. */
  lemma {:induction false} FirstRulesAreFirst(entries: seq<Entry>, slot: Target) returns (j: nat)
    ensures slot in FirstRules(entries) ==>
            FirstAt(entries, slot, j) && FirstRules(entries)[slot] == Rule(entries[j].ruleId, Drop)
    ensures slot !in FirstRules(entries) ==> forall i :: 0 <= i < |entries| ==> !Keeps(entries[i], slot)
  {
    if entries == [] {
      j := 0;
    } else {
      var n := |entries| - 1;
      var init := entries[..n];
      j := FirstRulesAreFirst(init, slot);
      assert forall i :: 0 <= i < n ==> init[i] == entries[i];
      if slot !in FirstRules(init) { j := n; }
    }
  }

  // ----- preparing ---------------------------------------------------------------------

  datatype Report = Report(exact: nat, blocks: nat, deduped: nat, allowlisted: nat)

  /** The rule set holds exactly these rules, blocks without repetition. */
  ghost predicate Holds(rules: RuleSet, m: map<Target, Rule>) {
    && (forall ip: Ip :: ip in rules.exact <==> Exact(ip.family, ip.octets) in m)
    && (forall ip <- rules.exact :: rules.exact[ip] == m[Exact(ip.family, ip.octets)])
    && (forall i :: 0 <= i < |rules.blocks| ==>
          rules.blocks[i].0.Cidr? && rules.blocks[i].0 in m && rules.blocks[i].1 == m[rules.blocks[i].0])
    && (forall k <- m :: k.Cidr? ==> exists i :: 0 <= i < |rules.blocks| && rules.blocks[i].0 == k)
    && (forall i, j :: 0 <= i < j < |rules.blocks| ==> rules.blocks[i].0 != rules.blocks[j].0)
  }

  lemma HoldsExact(rules: RuleSet, m: map<Target, Rule>, ip: Ip, rule: Rule)
    requires Holds(rules, m) && ip !in rules.exact
    ensures Holds(rules.(exact := rules.exact[ip := rule]), m[Exact(ip.family, ip.octets) := rule])
  {
  }

  lemma HoldsBlock(rules: RuleSet, m: map<Target, Rule>, k: Target, rule: Rule)
    requires Holds(rules, m) && k.Cidr? && k !in m
    ensures Holds(rules.(blocks := rules.blocks + [(k, rule)]), m[k := rule])
  {
    var r := rules.(blocks := rules.blocks + [(k, rule)]);
    assert r.blocks[|rules.blocks|].0 == k;
    assert forall i :: 0 <= i < |rules.blocks| ==> r.blocks[i] == rules.blocks[i];
  }

  /** After `n` entries: the rules, the blocks seen and the three ways an entry was counted. */
  ghost predicate Prepared(rules: RuleSet, report: Report, seen: set<Target>, m: map<Target, Rule>, n: nat) {
    && Holds(rules, m) && (forall k: Target :: k in seen <==> k.Cidr? && k in m)
    && report.exact == |rules.exact| && report.blocks == |rules.blocks|
    && report.exact + report.blocks + report.deduped + report.allowlisted == n
  }

  method PrepareEntry(rules: RuleSet, report: Report, seen: set<Target>, e: Entry, ghost m: map<Target, Rule>,
                      ghost n: nat)
    returns (rules': RuleSet, report': Report, seen': set<Target>)
    requires Prepared(rules, report, seen, m, n)
    ensures Prepared(rules', report', seen', Keep(m, e), n + 1)
  {
    rules', report', seen' := rules, report, seen;
    var target, rule := e.target, Rule(e.ruleId, Drop);
    if Allowlisted(target) {
      report' := report.(allowlisted := report.allowlisted + 1);
    } else if target.Exact? || target.prefix == target.family.Width() {
      var ip := Ip(target.family, target.octets);
      if ip !in rules.exact {
        HoldsExact(rules, m, ip, rule);
        rules' := rules.(exact := rules.exact[ip := rule]);
        report' := report.(exact := report.exact + 1);
      } else {
        report' := report.(deduped := report.deduped + 1);
      }
    } else if target !in seen {
      HoldsBlock(rules, m, target, rule);
      seen' := seen + {target};
      rules' := rules.(blocks := rules.blocks + [(target, rule)]);
      report' := report.(blocks := report.blocks + 1);
    } else {
      report' := report.(deduped := report.deduped + 1);
    }
  }

  method NothingPrepared(ghost entries: seq<Entry>) returns (rules: RuleSet, report: Report, seen: set<Target>)
    ensures Prepared(rules, report, seen, FirstRules(entries[..0]), 0)
  {
    rules, report, seen := RuleSet(map[], []), Report(0, 0, 0, 0), {};
    ghost var none: map<Target, Rule> := map[];
    assert FirstRules(entries[..0]) == none;
  }

  method PrepareEach(entries: seq<Entry>) returns (rules: RuleSet, report: Report, seen: set<Target>)
    ensures Prepared(rules, report, seen, FirstRules(entries), |entries|)
  {
    rules, report, seen := NothingPrepared(entries);
    for i := 0 to |entries|
      invariant Prepared(rules, report, seen, FirstRules(entries[..i]), i)
    {
      FoldNext(Keep, map[], entries, i);
      rules, report, seen := PrepareEntry(rules, report, seen, entries[i], FirstRules(entries[..i]), i);
    }
    TakeAll(entries);
  }

  /**
   * `try_prepare_rules`: every entry is kept, deduplicated or allowlisted, and the rules are
   * the first ones of their slots.
   */
  method PrepareRules(entries: seq<Entry>) returns (rules: RuleSet, report: Report)
    ensures Holds(rules, FirstRules(entries))
    ensures report.exact == |rules.exact| && report.blocks == |rules.blocks|
    ensures report.exact + report.blocks + report.deduped + report.allowlisted == |entries|
  {
    var seen;
    rules, report, seen := PrepareEach(entries);
  }

  // ----- what the rules cover ----------------------------------------------------------

  lemma TrieHolds(rules: RuleSet, m: map<Target, Rule>, k: Target)
    requires Holds(rules, m)
    ensures k in TablesOf(rules).trie <==> k.Cidr? && k in m
    ensures k in TablesOf(rules).trie ==> TablesOf(rules).trie[k] == m[k]
  {
    if k in TablesOf(rules).trie {
      var i := PutAllSource(rules.blocks, k);
      assert rules.blocks[i].0 == k;
    }
    if k.Cidr? && k in m {
      var i :| 0 <= i < |rules.blocks| && rules.blocks[i].0 == k;
      PutAllHolds(map[], rules.blocks, i);
    }
  }

  lemma SlotDenotes(t: Target, ip: Ip)
    ensures Slot(t).Denotes(ip) <==> t.Denotes(ip)
  {
  }

  predicate Wanted(entries: seq<Entry>, ip: Ip) {
    exists e :: e in entries && !Allowlisted(e.target) && e.target.Denotes(ip)
  }

  /** A prepared rule in its slot comes from an entry, and every entry has one in its slot. */
  lemma SlotOfEntry(entries: seq<Entry>, e: Entry)
    requires e in entries && !Allowlisted(e.target)
    ensures Slot(e.target) in FirstRules(entries)
  {
    var i :| 0 <= i < |entries| && entries[i] == e;
    var j := FirstRulesAreFirst(entries, Slot(e.target));
    assert Keeps(entries[i], Slot(e.target));
  }

  lemma EntryOfSlot(entries: seq<Entry>, slot: Target) returns (e: Entry)
    requires slot in FirstRules(entries)
    ensures e in entries && Keeps(e, slot) && FirstRules(entries)[slot] == Rule(e.ruleId, Drop)
  {
    var j := FirstRulesAreFirst(entries, slot);
    e := entries[j];
  }

  /** Prepared rules are routed drop rules. */
  lemma PreparedIsRouted(entries: seq<Entry>, rules: RuleSet)
    requires Holds(rules, FirstRules(entries)) && forall e <- entries :: e.target.Canonical()
    ensures Routed(TablesOf(rules)) && AllDrop(TablesOf(rules))
  {
    var m, t := FirstRules(entries), TablesOf(rules);
    forall ip | ip in t.exact ensures ip.Valid() && t.exact[ip].action == Drop {
      var e := EntryOfSlot(entries, Exact(ip.family, ip.octets));
    }
    forall k | k in t.trie
      ensures k.Cidr? && k.Canonical() && k.prefix < k.family.Width() && t.trie[k].action == Drop
    {
      TrieHolds(rules, m, k);
      var e := EntryOfSlot(entries, k);
    }
  }

  /** The prepared rules cover exactly the union of the targets that are not allowlisted. */
  lemma PreparedCovers(entries: seq<Entry>, rules: RuleSet, ip: Ip)
    requires Holds(rules, FirstRules(entries)) && ip.Valid() && forall e <- entries :: e.target.Canonical()
    ensures Covered(TablesOf(rules), ip) <==> Wanted(entries, ip)
  {
    var m, t := FirstRules(entries), TablesOf(rules);
    if Covered(t, ip) {
      var k := Exact(ip.family, ip.octets);
      if ip !in t.exact {
        k :| k in t.trie && k.Denotes(ip);
        TrieHolds(rules, m, k);
      } else {
        ExactIsCanonical(k);
      }
      var e := EntryOfSlot(entries, k);
      SlotDenotes(e.target, ip);
    }
    if Wanted(entries, ip) {
      var e :| e in entries && !Allowlisted(e.target) && e.target.Denotes(ip);
      var k := Slot(e.target);
      SlotOfEntry(entries, e);
      SlotDenotes(e.target, ip);
      TrieHolds(rules, m, k);
      if k.Exact? { ExactIsCanonical(k); }
    }
  }

  /** The target is one of those a feed line gave under this ignore list. */
  ghost predicate FromLine(t: Target, ignored: seq<Ip>) {
    exists ts: seq<Target>, token: Token :: t in ts && DenotesMinus(ts, token, ignored)
  }

  /** No prepared feed rule ever covers an ignored address. */
  lemma IgnoredNeverCovered(entries: seq<Entry>, rules: RuleSet, ignored: seq<Ip>, ip: Ip)
    requires Holds(rules, FirstRules(entries)) && forall e <- entries :: FromLine(e.target, ignored)
    requires ip in ignored && ip.Valid()
    ensures !Covered(TablesOf(rules), ip)
  {
    forall e | e in entries ensures e.target.Canonical() && !e.target.Denotes(ip) {
      LineSparesIgnored(e.target, ignored, ip);
    }
    PreparedCovers(entries, rules, ip);
  }

  lemma LineSparesIgnored(t: Target, ignored: seq<Ip>, ip: Ip)
    requires FromLine(t, ignored) && ip in ignored && ip.Valid()
    ensures t.Canonical() && !t.Denotes(ip)
  {
    var ts: seq<Target>, token: Token :| t in ts && DenotesMinus(ts, token, ignored);
    ContainsIpDenotes(t, ip);
    assert !AnyContains(ts, ip);
  }

  // ----- what the allowlist protects ---------------------------------------------------

  /**
   * Hosts are compared by octet ranges, blocks only for equality: whenever 140.82.0.0/16 is among
   * the entries, the prepared rules cover 140.82.121.3 of the infrastructure.
   */
  lemma EnclosingBlockIsKept(entries: seq<Entry>, rules: RuleSet, e: Entry)
    requires Holds(rules, FirstRules(entries)) && forall x <- entries :: x.target.Canonical()
    requires e in entries && e.target == Cidr(V4, 16, [140, 82, 0, 0])
    ensures InfrastructureHost([140, 82, 121, 3]) && Covered(TablesOf(rules), Ip(V4, [140, 82, 121, 3]))
  {
    var host := Ip(V4, [140, 82, 121, 3]);
    WideBlockHolds(e.target, host);
    PreparedCovers(entries, rules, host);
  }

  lemma WideBlockHolds(wide: Target, host: Ip)
    requires wide == Cidr(V4, 16, [140, 82, 0, 0]) && host == Ip(V4, [140, 82, 121, 3])
    ensures wide.Canonical() && wide.Denotes(host) && !Allowlisted(wide)
  {
    OctetsCanonical(wide);
    DenotesByOctets(wide, host);
  }

  /** What is allowlisted: hosts of the infrastructure, and four blocks themselves. */
  lemma AllowlistedIff(t: Target)
    requires t.Valid()
    ensures Allowlisted(t) <==>
            if t.family.V4? && (t.Exact? || t.prefix == 32) then InInfrastructure(Ip(V4, t.octets))
            else t in {Cidr(V4, 20, [140, 82, 112, 0]), Cidr(V4, 22, [192, 30, 252, 0]),
                       Cidr(V4, 22, [185, 199, 108, 0]), Cidr(V4, 20, [143, 55, 64, 0])}
  {
    if t.family.V4? { HostsAreBlocks(t.octets); }
  }

  /** A host of the infrastructure is covered iff a block other than the four listed ones holds it. */
  lemma InfrastructureCoveredIff(entries: seq<Entry>, rules: RuleSet, o: seq<Byte>)
    requires Holds(rules, FirstRules(entries)) && forall e <- entries :: e.target.Canonical()
    requires |o| == 4 && InfrastructureHost(o)
    ensures Covered(TablesOf(rules), Ip(V4, o)) <==>
            exists e :: e in entries && e.target.Cidr? && e.target.prefix < 32 && e.target.Denotes(Ip(V4, o))
                        && e.target !in {Cidr(V4, 20, [140, 82, 112, 0]), Cidr(V4, 22, [192, 30, 252, 0]),
                                         Cidr(V4, 22, [185, 199, 108, 0]), Cidr(V4, 20, [143, 55, 64, 0])}
  {
    var ip := Ip(V4, o);
    PreparedCovers(entries, rules, ip);
    if Wanted(entries, ip) {
      var e :| e in entries && !Allowlisted(e.target) && e.target.Denotes(ip);
      if Slot(e.target).Exact? {
        SlotDenotes(e.target, ip);
        ExactIsCanonical(Slot(e.target));
      }
    }
  }

  /** The published blocks of the code hosting service, and the loopback block. */
  predicate InInfrastructure(ip: Ip) {
    || Cidr(V4, 20, [140, 82, 112, 0]).Denotes(ip) || Cidr(V4, 22, [192, 30, 252, 0]).Denotes(ip)
    || Cidr(V4, 22, [185, 199, 108, 0]).Denotes(ip) || Cidr(V4, 20, [143, 55, 64, 0]).Denotes(ip)
    || Exact(V4, [20, 201, 28, 151]).Denotes(ip) || Exact(V4, [20, 205, 243, 166]).Denotes(ip)
    || Cidr(V4, 23, [4, 237, 22, 0]).Denotes(ip) || Cidr(V4, 8, [127, 0, 0, 0]).Denotes(ip)
  }

  /** Masking an octet picks out one aligned range. */
  lemma MaskRange(rem: nat, b: Byte, c: Byte)
    requires rem <= 8 && Low(c, 8 - rem) == 0
    ensures MaskOctet(rem, b) == c <==> c <= b < c + Pow2(8 - rem)
    ensures MaskOctet(rem, c) == c
  {
    AlignedRange(b, c, 8 - rem);
  }

  lemma AlignedRange(b: nat, c: nat, k: nat)
    requires Low(c, k) == 0
    ensures Shl(Shr(b, k), k) == c <==> c <= b < c + Pow2(k)
    ensures Shl(Shr(c, k), k) == c
  {
    ShrLow(b, k);
    ShrLow(c, k);
    if c <= b < c + Pow2(k) { ShrLowUnique(Shr(c, k), b - c, k); }
  }

  /** An address cut inside its third octet. */
  lemma CutInThird(prefix: nat, o: seq<Byte>)
    requires 16 <= prefix < 24 && |o| == 4
    ensures NetworkOctets(prefix, o) == [o[0], o[1], MaskOctet(prefix - 16, o[2]), 0]
  {
    var n := NetworkOctets(prefix, o);
    assert n[0] == o[0] && n[1] == o[1] && n[2] == MaskOctet(prefix - 16, o[2]) && n[3] == 0;
  }

  lemma InBlock(prefix: nat, b: seq<Byte>, o: seq<Byte>)
    requires 16 <= prefix < 24 && |b| == |o| == 4 && b[3] == 0 && Low(b[2], 24 - prefix) == 0
    ensures Cidr(V4, prefix, b).Denotes(Ip(V4, o)) <==>
            o[0] == b[0] && o[1] == b[1] && b[2] <= o[2] < b[2] + Pow2(24 - prefix)
  {
    MaskRange(prefix - 16, o[2], b[2]);
    CutInThird(prefix, o);
    CutInThird(prefix, b);
    assert b == [b[0], b[1], b[2], 0];
    ByOctets(Cidr(V4, prefix, b), Ip(V4, o));
  }

  lemma ByOctets(t: Target, ip: Ip)
    requires t.Valid() && t.Cidr? && ip.Valid() && t.family == ip.family && NetworkOctets(t.prefix, t.octets) == t.octets
    ensures t.Denotes(ip) <==> NetworkOctets(t.prefix, ip.octets) == t.octets
  {
    OctetsCanonical(t);
    DenotesByOctets(t, ip);
  }

  lemma InOctetBlock(prefix: nat, b: seq<Byte>, o: seq<Byte>)
    requires prefix == 8 && |b| == |o| == 4 && b[1] == b[2] == b[3] == 0
    ensures Cidr(V4, prefix, b).Denotes(Ip(V4, o)) <==> o[0] == b[0]
  {
    FirstOctet(prefix, o);
    FirstOctet(prefix, b);
    ByOctets(Cidr(V4, prefix, b), Ip(V4, o));
  }

  lemma FirstOctet(prefix: nat, o: seq<Byte>)
    requires prefix == 8 && |o| == 4
    ensures NetworkOctets(prefix, o) == [o[0], 0, 0, 0]
  {
    MaskRange(prefix - 8, o[1], 0);
    ShrBound(o[1], 8, 8);
  }

  /** A published block by its third octet, of the given power of two. */
  lemma InHostingBlock(prefix: nat, a: Byte, b: Byte, c: Byte, size: nat, o: seq<Byte>)
    requires 16 <= prefix < 24 && size == Pow2(24 - prefix) && |o| == 4 && Low(c, 24 - prefix) == 0
    ensures Cidr(V4, prefix, [a, b, c, 0]).Denotes(Ip(V4, o)) <==> o[0] == a && o[1] == b && c <= o[2] < c + size
  {
    InBlock(prefix, [a, b, c, 0], o);
  }

  lemma IsHost(host: seq<Byte>, o: seq<Byte>)
    requires |host| == |o| == 4
    ensures Exact(V4, host).Denotes(Ip(V4, o)) <==> o == host
  {
    ExactIsCanonical(Exact(V4, host));
  }

  /** The octet ranges denote exactly these blocks. */
  lemma HostsAreBlocks(o: seq<Byte>)
    requires |o| == 4
    ensures InfrastructureHost(o) <==> InInfrastructure(Ip(V4, o))
  {
    InHostingBlock(20, 140, 82, 112, 16, o);
    InHostingBlock(22, 192, 30, 252, 4, o);
    InHostingBlock(22, 185, 199, 108, 4, o);
    InHostingBlock(20, 143, 55, 64, 16, o);
    InHostingBlock(23, 4, 237, 22, 2, o);
    InOctetBlock(8, [127, 0, 0, 0], o);
    IsHost([20, 201, 28, 151], o);
    IsHost([20, 205, 243, 166], o);
  }
}
