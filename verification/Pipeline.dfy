/** The parts put together: from import and loading to the rule ids in the maps and the verdict
    on a frame. */
module Pipeline {
  import opened Bits
  import opened Contexts
  import opened Lists
  import opened Outcomes
  import opened Reconcile
  import opened Rules
  import opened Targets
  import Attribution
  import Import
  import Loader
  import Prepare
  import Publish
  import RuleBlocks
  import Wire
  import Xdp

  // ----- from a rule set to the kernel maps --------------------------------------------

  /** Which of the four kernel maps a rule goes to. */
  datatype Kind = HashV4 | HashV6 | TrieV4 | TrieV6

  function KindOf(t: Target): Kind {
    if t.Exact? then (if t.family.V4? then HashV4 else HashV6) else (if t.family.V4? then TrieV4 else TrieV6)
  }

  function RuleMap(rules: RuleSet): map<Target, Rule> {
    (map ip | ip in rules.exact :: Exact(ip.family, ip.octets) := rules.exact[ip]) + PutAll(map[], rules.blocks)
  }

  function Part(m: map<Target, Rule>, kind: Kind): map<Target, Rule> { map k | k in m && KindOf(k) == kind :: m[k] }

  predicate InRules(rules: RuleSet, k: Target, rule: Rule) {
    if k.Exact? then Ip(k.family, k.octets) in rules.exact && rule == rules.exact[Ip(k.family, k.octets)]
    else (k, rule) in rules.blocks
  }

  /** A sync of one map gets the rules of its kind, in any order of the hash table. */
  predicate Sends(list: seq<(Target, Rule)>, rules: RuleSet, kind: Kind) {
    && (forall i :: 0 <= i < |list| ==> InRules(rules, list[i].0, list[i].1))
    && PutAll(map[], list) == Part(RuleMap(rules), kind)
  }

  predicate WellFormed(rules: RuleSet) { forall i :: 0 <= i < |rules.blocks| ==> rules.blocks[i].0.Cidr? }

  lemma RuleMapAt(rules: RuleSet, k: Target)
    requires WellFormed(rules)
    ensures k in RuleMap(rules) <==>
            if k.Exact? then Ip(k.family, k.octets) in TablesOf(rules).exact else k in TablesOf(rules).trie
    ensures k in RuleMap(rules) ==>
            RuleMap(rules)[k] == if k.Exact? then TablesOf(rules).exact[Ip(k.family, k.octets)] else TablesOf(rules).trie[k]
  {
    if k in PutAll(map[], rules.blocks) {
      var i := PutAllSource(rules.blocks, k);
      assert rules.blocks[i].0.Cidr?;
    }
    if k.Exact? && Ip(k.family, k.octets) in rules.exact {
      assert Exact(Ip(k.family, k.octets).family, Ip(k.family, k.octets).octets) == k;
    }
  }

  // ----- rule ids ----------------------------------------------------------------------

  /** What a worker parses; the coordinator adds the rule id. */
  datatype Raw = Raw(target: Target, metadataId: nat, line: nat)

  function WithId(r: (nat, Raw)): Entry { Entry(r.1.target, r.0, r.1.metadataId, r.1.line) }

  predicate NumberedFromOne(entries: seq<Entry>) {
    forall i :: 0 <= i < |entries| ==> entries[i].ruleId == i + 1
  }

  /** Whatever the interleaving, the imported entries are numbered from 1. */
  lemma ImportNumbers(c: Import.Config<Raw>, trace: seq<Import.State<Raw>>, i: nat)
    requires Import.Run(c, trace) && i < |trace|
    ensures NumberedFromOne(Map(WithId, trace[i].imported)) && |trace[i].imported| <= c.maxRuleId
  {
    Import.ClaimsAndIds(c, trace, i);
  }

  function IdOf(r: (Target, Rule)): (Target, nat) { (r.0, r.1.id) }

  /** The prepared rules of a numbered feed of fewer than 2^28 entries are a valid feed for every map. */
  lemma PreparedIsValidFeed(entries: seq<Entry>, rules: RuleSet, list: seq<(Target, Rule)>, kind: Kind)
    requires NumberedFromOne(entries) && |entries| < Publish.STATIC_RULE_BASE
    requires Prepare.Holds(rules, Prepare.FirstRules(entries)) && Sends(list, rules, kind)
    ensures Publish.ValidFeed(Publish.Prepared(Map(IdOf, list), |entries|))
  {
    forall i | 0 <= i < |list| ensures 1 <= list[i].1.id <= |entries| {
      var k := list[i].0;
      if !k.Exact? {
        var j :| 0 <= j < |rules.blocks| && rules.blocks[j] == (k, list[i].1);
      }
      var e := Prepare.EntryOfSlot(entries, k);
      var n :| 0 <= n < |entries| && entries[n] == e;
    }
  }

  /** Loaded static rules have static ids. */
  lemma LoadedHasStaticIds(files: Loader.Files, rules: RuleSet, meta: map<nat, Loader.Site>, next: nat,
                           list: seq<(Target, Rule)>, kind: Kind)
    requires Loader.Loaded(files, rules, meta, next) && Sends(list, rules, kind)
    ensures Publish.StaticIds(Map(IdOf, list))
  {
    forall i | 0 <= i < |list| ensures list[i].1.id >= Publish.STATIC_RULE_BASE {
      var k := list[i].0;
      if k.Exact? {
        assert Loader.From(files, meta, k, list[i].1);
      } else {
        var j :| 0 <= j < |rules.blocks| && rules.blocks[j] == (k, list[i].1);
        assert Loader.From(files, meta, k, list[i].1);
      }
    }
  }

  /** In RAM an id in range resolves to the context of its target. */
  lemma IdResolvesInRam(before: map<nat, RuleBlocks.RuleInfo>, after: map<nat, RuleBlocks.RuleInfo>,
                        meta: map<nat, Origin>, entries: seq<Entry>, id: nat)
    requires NumberedFromOne(entries) && 1 <= id <= |entries| && RuleBlocks.Registers(before, meta, entries)
    requires RuleBlocks.Indexed(before, after, meta, entries, RuleBlocks.TargetsOf(entries))
    ensures RuleBlocks.RamBlock(after, meta, id) == Some(ContextOf(meta, entries, entries[id - 1].target))
  {
    var i := id - 1;
    assert entries[i].ruleId == id;
    RuleBlocks.RamResolves(before, after, meta, entries, i);
  }

  /** With a cache it resolves to the line of its entry. */
  lemma IdResolvesCached(compact: map<nat, (nat, nat)>, meta: map<nat, Origin>, entries: seq<Entry>, id: nat)
    requires NumberedFromOne(entries) && 1 <= id <= |entries| && Attribution.Compact(compact, meta, entries)
    ensures var e := entries[id - 1]; var origin := meta[e.metadataId];
            RuleBlocks.CachedBlock(compact, meta, id) == Some(RuleBlocks.Single(origin.file, e.line, origin.category))
  {
    assert entries[id - 1].ruleId == id;
  }

  /** Over every run of jobs: whenever the map lock is free, each stored id is static or resolves
      in the registry built from the entries of the published feed. */
  lemma PublishedRulesResolve<C(!new)>(trace: seq<Publish.State<Target, C>>, i: nat, entries: seq<Entry>,
                                       before: map<nat, RuleBlocks.RuleInfo>, after: map<nat, RuleBlocks.RuleInfo>,
                                       compact: map<nat, (nat, nat)>, meta: map<nat, Origin>, k: Target)
    requires Publish.Run(trace) && i < |trace| && trace[i].mapHolder.None? && k in trace[i].shared.maps.entries
    requires NumberedFromOne(entries) && |entries| == trace[i].shared.registry
    requires RuleBlocks.Registers(before, meta, entries) && Attribution.Compact(compact, meta, entries)
    requires RuleBlocks.Indexed(before, after, meta, entries, RuleBlocks.TargetsOf(entries))
    ensures var id := trace[i].shared.maps.entries[k];
            id >= Publish.STATIC_RULE_BASE
            || (RuleBlocks.RamBlock(after, meta, id).Some? && RuleBlocks.CachedBlock(compact, meta, id).Some?)
  {
    Publish.PublishedIdsResolve(trace, i);
    var id := trace[i].shared.maps.entries[k];
    if id < Publish.STATIC_RULE_BASE {
      IdResolvesInRam(before, after, meta, entries, id);
      IdResolvesCached(compact, meta, entries, id);
    }
  }

  // ----- the verdict with both owners --------------------------------------------------

  /** The syncs each of the four maps went through. */
  type Runs = Kind -> seq<Sync<Target, Rule>>

  /** No insert failed, the owners share no key, and these rule sets came last. */
  ghost predicate Latest(runs: Runs, statics: RuleSet, feed: RuleSet) {
    forall kind :: NoFailures(runs(kind)) && Separate(runs(kind))
                   && Sends(LatestStatic(runs(kind)), statics, kind) && Sends(LatestFeed(runs(kind)), feed, kind)
  }

  /** One kernel map holds the rules of its kind of both owners. */
  lemma MapHolds(runs: Runs, statics: RuleSet, feed: RuleSet, kind: Kind, k: Target)
    requires Latest(runs, statics, feed)
    ensures Of(RunOf(runs(kind)).entries, RuleMap(statics), RuleMap(feed), kind, k)
  {
    var ops := runs(kind);
    var ours, theirs := LatestStatic(ops), LatestFeed(ops);
    UnionOfLatest(ops);
    assert ops[..|ops|] == ops;
    assert KeysOf(ours) !! KeysOf(theirs);
    UnionAt(ours, theirs, k);
    PutAllKeys(map[], ours);
    PutAllKeys(map[], theirs);
  }

  /** The tables the XDP program sees. */
  ghost function Held(runs: Runs): Tables {
    Tables(Hosts(TwoMaps(runs, HashV4, HashV6)), TwoMaps(runs, TrieV4, TrieV6))
  }

  ghost function TwoMaps(runs: Runs, x: Kind, y: Kind): map<Target, Rule> {
    RunOf(runs(x)).entries + RunOf(runs(y)).entries
  }

  function Hosts(m: map<Target, Rule>): map<Ip, Rule> {
    map k | k in m && k.Exact? :: Ip(k.family, k.octets) := m[k]
  }

  lemma HostsAt(m: map<Target, Rule>, ip: Ip)
    ensures ip in Hosts(m) <==> Exact(ip.family, ip.octets) in m
    ensures ip in Hosts(m) ==> Hosts(m)[ip] == m[Exact(ip.family, ip.octets)]
  {
    if Exact(ip.family, ip.octets) in m {
      assert Ip(Exact(ip.family, ip.octets).family, Exact(ip.family, ip.octets).octets) == ip;
    }
  }

  predicate OneOf(m: map<Target, Rule>, n: map<Target, Rule>, k: Target, rule: Rule) {
    (k in m && rule == m[k]) || (k in n && rule == n[k])
  }

  /** The map of one kind, given by the two rule maps. */
  ghost predicate Of(m: map<Target, Rule>, ours: map<Target, Rule>, theirs: map<Target, Rule>, kind: Kind, k: Target) {
    && (k in m <==> KindOf(k) == kind && (k in ours || k in theirs)) && (k in m ==> OneOf(ours, theirs, k, m[k]))
  }

  lemma TwoKinds(a: map<Target, Rule>, x: Kind, b: map<Target, Rule>, y: Kind,
                 ours: map<Target, Rule>, theirs: map<Target, Rule>, k: Target)
    requires Of(a, ours, theirs, x, k) && Of(b, ours, theirs, y, k) && x != y
    ensures k in a + b <==> (KindOf(k) == x || KindOf(k) == y) && (k in ours || k in theirs)
    ensures k in a + b ==> OneOf(ours, theirs, k, (a + b)[k])
  {
  }

  lemma TwoMapsHold(runs: Runs, x: Kind, y: Kind, statics: RuleSet, feed: RuleSet, k: Target)
    requires Latest(runs, statics, feed) && x != y
    ensures var m := TwoMaps(runs, x, y);
            && (k in m <==> (KindOf(k) == x || KindOf(k) == y) && (k in RuleMap(statics) || k in RuleMap(feed)))
            && (k in m ==> OneOf(RuleMap(statics), RuleMap(feed), k, m[k]))
  {
    MapHolds(runs, statics, feed, x, k);
    MapHolds(runs, statics, feed, y, k);
    TwoKinds(RunOf(runs(x)).entries, x, RunOf(runs(y)).entries, y, RuleMap(statics), RuleMap(feed), k);
  }

  lemma HeldHost(runs: Runs, statics: RuleSet, feed: RuleSet, ip: Ip)
    requires Latest(runs, statics, feed)
    ensures var k := Exact(ip.family, ip.octets);
            && (ip in Held(runs).exact <==> k in RuleMap(statics) || k in RuleMap(feed))
            && (ip in Held(runs).exact ==> OneOf(RuleMap(statics), RuleMap(feed), k, Held(runs).exact[ip]))
  {
    TwoMapsHold(runs, HashV4, HashV6, statics, feed, Exact(ip.family, ip.octets));
    HostsAt(TwoMaps(runs, HashV4, HashV6), ip);
  }

  lemma HeldBlock(runs: Runs, statics: RuleSet, feed: RuleSet, k: Target)
    requires Latest(runs, statics, feed)
    ensures k in Held(runs).trie <==> k.Cidr? && (k in RuleMap(statics) || k in RuleMap(feed))
    ensures k in Held(runs).trie ==> OneOf(RuleMap(statics), RuleMap(feed), k, Held(runs).trie[k])
  {
    TwoMapsHold(runs, TrieV4, TrieV6, statics, feed, k);
  }

  lemma HeldIsRouted(runs: Runs, statics: RuleSet, feed: RuleSet)
    requires Latest(runs, statics, feed) && WellFormed(statics) && WellFormed(feed)
    requires Routed(TablesOf(statics)) && AllDrop(TablesOf(statics))
    requires Routed(TablesOf(feed)) && AllDrop(TablesOf(feed))
    ensures Routed(Held(runs)) && AllDrop(Held(runs))
  {
    var t := Held(runs);
    forall ip | ip in t.exact ensures ip.Valid() && t.exact[ip].action == Drop {
      HeldHost(runs, statics, feed, ip);
      RuleMapAt(statics, Exact(ip.family, ip.octets));
      RuleMapAt(feed, Exact(ip.family, ip.octets));
    }
    forall k | k in t.trie
      ensures k.Cidr? && k.Canonical() && k.prefix < k.family.Width() && t.trie[k].action == Drop
    {
      HeldBlock(runs, statics, feed, k);
      RuleMapAt(statics, k);
      RuleMapAt(feed, k);
    }
  }

  /** Both owners' rules together cover what each covers. */
  lemma HeldCovers(runs: Runs, statics: RuleSet, feed: RuleSet, ip: Ip)
    requires Latest(runs, statics, feed) && WellFormed(statics) && WellFormed(feed)
    ensures Covered(Held(runs), ip) <==> Covered(TablesOf(statics), ip) || Covered(TablesOf(feed), ip)
  {
    HeldHost(runs, statics, feed, ip);
    RuleMapAt(statics, Exact(ip.family, ip.octets));
    RuleMapAt(feed, Exact(ip.family, ip.octets));
    forall k: Target
      ensures k in Held(runs).trie <==> k.Cidr? && (k in TablesOf(statics).trie || k in TablesOf(feed).trie)
    {
      HeldBlock(runs, statics, feed, k);
      RuleMapAt(statics, k);
      RuleMapAt(feed, k);
    }
    TrieIsBlocks(statics);
    TrieIsBlocks(feed);
  }

  lemma TrieIsBlocks(rules: RuleSet)
    requires WellFormed(rules)
    ensures forall k <- TablesOf(rules).trie :: k.Cidr?
  {
    forall k | k in TablesOf(rules).trie ensures k.Cidr? {
      var i := PutAllSource(rules.blocks, k);
    }
  }

  /** After any run of failure-free syncs of both owners with separate keys, a frame is dropped if
      and only if it is judged and a line of the latest rule files denotes its source, or an entry
      of the latest feed that is not allowlisted holds it. */
  lemma SystemVerdict(runs: Runs, statics: RuleSet, feed: RuleSet, files: Loader.Files, meta: map<nat, Loader.Site>,
                      next: nat, entries: seq<Entry>, data: seq<Byte>)
    requires Latest(runs, statics, feed)
    requires Loader.Loaded(files, statics, meta, next) && Loader.ValidFiles(files)
    requires Prepare.Holds(feed, Prepare.FirstRules(entries)) && forall e <- entries :: e.target.Canonical()
    ensures Xdp.Decide(Held(runs), data).Dropped? <==>
            Xdp.Judged(data).Some? && (Loader.Listed(files, Xdp.Judged(data).value) || Prepare.Wanted(entries, Xdp.Judged(data).value))
  {
    SystemTables(runs, statics, feed, files, meta, next, entries);
    Xdp.DroppedIffCovered(Held(runs), data);
    if Xdp.Judged(data).Some? {
      SystemCovers(runs, statics, feed, files, meta, next, entries, Xdp.Judged(data).value);
    }
  }

  lemma SystemTables(runs: Runs, statics: RuleSet, feed: RuleSet, files: Loader.Files, meta: map<nat, Loader.Site>,
                     next: nat, entries: seq<Entry>)
    requires Latest(runs, statics, feed)
    requires Loader.Loaded(files, statics, meta, next) && Loader.ValidFiles(files)
    requires Prepare.Holds(feed, Prepare.FirstRules(entries)) && forall e <- entries :: e.target.Canonical()
    ensures Routed(Held(runs)) && AllDrop(Held(runs))
  {
    Loader.LoadedIsRouted(files, statics, meta, next);
    Prepare.PreparedIsRouted(entries, feed);
    HeldIsRouted(runs, statics, feed);
  }

  lemma SystemCovers(runs: Runs, statics: RuleSet, feed: RuleSet, files: Loader.Files, meta: map<nat, Loader.Site>,
                     next: nat, entries: seq<Entry>, ip: Ip)
    requires Latest(runs, statics, feed) && ip.Valid()
    requires Loader.Loaded(files, statics, meta, next) && Loader.ValidFiles(files)
    requires Prepare.Holds(feed, Prepare.FirstRules(entries)) && forall e <- entries :: e.target.Canonical()
    ensures Covered(Held(runs), ip) <==> Loader.Listed(files, ip) || Prepare.Wanted(entries, ip)
  {
    HeldCovers(runs, statics, feed, ip);
    Loader.LoadedCovers(files, statics, meta, next, ip);
    Prepare.PreparedCovers(entries, feed, ip);
  }

  /** The same by the bytes of an IPv6 frame. */
  lemma Ipv6SystemVerdict(runs: Runs, statics: RuleSet, feed: RuleSet, files: Loader.Files, meta: map<nat, Loader.Site>,
                          next: nat, entries: seq<Entry>, link: seq<Byte>, h: Wire.Ip6, segment: seq<Byte>)
    requires Latest(runs, statics, feed)
    requires Loader.Loaded(files, statics, meta, next) && Loader.ValidFiles(files)
    requires Prepare.Holds(feed, Prepare.FirstRules(entries)) && forall e <- entries :: e.target.Canonical()
    requires Wire.Link(link, 0x86, 0xDD) && h.Valid()
    ensures Xdp.Decide(Held(runs), link + h.Bytes() + segment).Dropped? <==>
            Loader.Listed(files, Ip(V6, h.src)) || Prepare.Wanted(entries, Ip(V6, h.src))
  {
    Wire.Ipv6Judged(link, h, segment);
    SystemVerdict(runs, statics, feed, files, meta, next, entries, link + h.Bytes() + segment);
  }

  /** And of an IPv4 frame. */
  lemma Ipv4SystemVerdict(runs: Runs, statics: RuleSet, feed: RuleSet, files: Loader.Files, meta: map<nat, Loader.Site>,
                          next: nat, entries: seq<Entry>, link: seq<Byte>, h: Wire.Ip4, segment: seq<Byte>)
    requires Latest(runs, statics, feed)
    requires Loader.Loaded(files, statics, meta, next) && Loader.ValidFiles(files)
    requires Prepare.Holds(feed, Prepare.FirstRules(entries)) && forall e <- entries :: e.target.Canonical()
    requires Wire.Link(link, 0x08, 0x00) && h.Valid()
    ensures Xdp.Decide(Held(runs), link + h.Bytes() + segment).Dropped? <==>
            !Wire.Answers(h, segment) && (Loader.Listed(files, Ip(V4, h.src)) || Prepare.Wanted(entries, Ip(V4, h.src)))
  {
    Wire.Ipv4Judged(link, h, segment);
    SystemVerdict(runs, statics, feed, files, meta, next, entries, link + h.Bytes() + segment);
  }
}
