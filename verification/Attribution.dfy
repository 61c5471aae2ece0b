/** Which feeds a blocked packet is put down to: the winning rule's context merged with every
    context whose target holds the source address. */
module Attribution {
  import opened Bits
  import opened Contexts
  import opened IpIndex
  import opened Lists
  import opened Outcomes
  import opened RuleBlocks
  import opened Targets
  import Keys

  type Site = (string, nat)

  /** A missing line number reads as 0. */
  function LineAt(lines: seq<nat>, i: nat): nat { if i < |lines| then lines[i] else 0 }

  function Sites(files: seq<string>, lines: seq<nat>): set<Site> {
    set i | 0 <= i < |files| :: (files[i], LineAt(lines, i))
  }

  function SitesOf(c: Context): set<Site> { Sites(c.files, c.lines) }

  function Kinds(categories: seq<Category>): set<Category> { set k | k in categories }

  lemma KindsSnoc(categories: seq<Category>, k: Category)
    ensures Kinds(categories + [k]) == Kinds(categories) + {k}
  {
  }

  lemma SitesSnoc(files: seq<string>, lines: seq<nat>, file: string, line: nat)
    requires |files| == |lines|
    ensures Sites(files + [file], lines + [line]) == Sites(files, lines) + {(file, line)}
  {
    var f, l := files + [file], lines + [line];
    assert forall i :: 0 <= i < |files| ==> f[i] == files[i] && LineAt(l, i) == LineAt(lines, i);
    assert (f[|files|], LineAt(l, |files|)) == (file, line);
  }

  // ----- merging -----------------------------------------------------------------------

  /** The positions in order. */
  function Pairs(files: seq<string>, lines: seq<nat>): (pairs: seq<Site>)
    ensures |pairs| == |files|
  {
    seq(|files|, i requires 0 <= i < |files| => (files[i], LineAt(lines, i)))
  }

  lemma PairsSet(files: seq<string>, lines: seq<nat>, site: Site)
    ensures site in Pairs(files, lines) <==> site in Sites(files, lines)
  {
    if site in Pairs(files, lines) {
      var i :| 0 <= i < |files| && Pairs(files, lines)[i] == site;
    }
    if site in Sites(files, lines) {
      var i :| 0 <= i < |files| && (files[i], LineAt(lines, i)) == site;
      assert Pairs(files, lines)[i] == site;
    }
  }

  lemma PairsSnoc(files: seq<string>, lines: seq<nat>, file: string, line: nat)
    requires |files| == |lines|
    ensures Pairs(files + [file], lines + [line]) == Pairs(files, lines) + [(file, line)]
  {
  }

  lemma SitesAppended(files: seq<string>, lines: seq<nat>, more: seq<string>, others: seq<nat>, files': seq<string>, lines': seq<nat>)
    requires |files| == |lines| && |files'| == |lines'| && NoDuplicates(Pairs(files, lines))
    requires Pairs(files', lines') == AppendNew(Pairs(files, lines), Pairs(more, others))
    ensures Sites(files', lines') == Sites(files, lines) + Sites(more, others)
    ensures files <= files' && lines <= lines' && NoDuplicates(Pairs(files', lines'))
  {
    AppendNewOnce(Pairs(files, lines), Pairs(more, others));
    PairsPrefix(files, lines, files', lines');
    forall site: Site ensures site in Sites(files', lines') <==> site in Sites(files, lines) + Sites(more, others) {
      PairsSet(files, lines, site);
      PairsSet(more, others, site);
      PairsSet(files', lines', site);
      AppendNewHas(Pairs(files, lines), Pairs(more, others), site);
    }
  }

  lemma PairsPrefix(files: seq<string>, lines: seq<nat>, files': seq<string>, lines': seq<nat>)
    requires |files| == |lines| && |files'| == |lines'| && Pairs(files, lines) <= Pairs(files', lines')
    ensures files <= files' && lines <= lines'
  {
    forall i | 0 <= i < |files| ensures files'[i] == files[i] && lines'[i] == lines[i] {
      assert Pairs(files', lines')[i] == Pairs(files, lines)[i];
    }
  }

  lemma KindsAppended(categories: seq<Category>, more: seq<Category>)
    requires NoDuplicates(categories)
    ensures var all := AppendNew(categories, more);
            Kinds(all) == Kinds(categories) + Kinds(more) && categories <= all && NoDuplicates(all)
  {
    AppendNewOnce(categories, more);
    forall k: Category ensures k in AppendNew(categories, more) <==> k in categories || k in more {
      AppendNewHas(categories, more, k);
    }
  }

  /** The block under construction. */
  class Block {
    var files: seq<string>
    var lines: seq<nat>
    var categories: seq<Category>

    /** No position and no category is there twice. */
    ghost predicate Valid()
      reads this
    {
      |files| == |lines| && NoDuplicates(Pairs(files, lines)) && NoDuplicates(categories)
    }

    constructor ()
      ensures Valid() && Pairs(files, lines) == [] && Sites(files, lines) == {} && categories == []
    {
      files, lines, categories := [], [], [];
    }

    method Listed(file: string, line: nat) returns (dup: bool)
      ensures dup <==> (file, line) in Sites(files, lines)
    {
      for j := 0 to |files|
        invariant forall k :: 0 <= k < j ==> (files[k], LineAt(lines, k)) != (file, line)
      {
        if files[j] == file && LineAt(lines, j) == line {
          return true;
        }
      }
      dup := false;
    }

    method AddFiles(src: Context)
      requires |files| == |lines|
      modifies this`files, this`lines
      ensures |files| == |lines| && Pairs(files, lines) == AppendNew(old(Pairs(files, lines)), Pairs(src.files, src.lines))
    {
      ghost var start, pairs := Pairs(files, lines), Pairs(src.files, src.lines);
      for i := 0 to |src.files|
        invariant |files| == |lines| && Pairs(files, lines) == AppendNew(start, pairs[..i])
      {
        AppendNewNext(start, pairs, i);
        var file, line := src.files[i], LineAt(src.lines, i);
        PairsSet(files, lines, (file, line));
        var dup := Listed(file, line);
        if !dup {
          PairsSnoc(files, lines, file, line);
          files, lines := files + [file], lines + [line];
        }
      }
      TakeAll(pairs);
    }

    method AddCategories(src: Context)
      modifies this`categories
      ensures categories == AppendNew(old(categories), src.categories)
    {
      for i := 0 to |src.categories|
        invariant categories == AppendNew(old(categories), src.categories[..i])
      {
        var c := src.categories[i];
        AppendNewNext(old(categories), src.categories, i);
        if c !in categories {
          categories := categories + [c];
        }
      }
      TakeAll(src.categories);
    }

    /** `merge_into`: what is new is appended in its order, nothing twice, nothing is lost and
        nothing invented. */
    method MergeInto(src: Context)
      requires Valid()
      modifies this
      ensures Valid() && Sites(files, lines) == old(Sites(files, lines)) + SitesOf(src)
      ensures Kinds(categories) == old(Kinds(categories)) + Kinds(src.categories)
      ensures old(files) <= files && old(lines) <= lines && old(categories) <= categories
      ensures Pairs(files, lines) == AppendNew(old(Pairs(files, lines)), Pairs(src.files, src.lines))
      ensures categories == AppendNew(old(categories), src.categories)
    {
      AddFiles(src);
      AddCategories(src);
      SitesAppended(old(files), old(lines), src.files, src.lines, files, lines);
      KindsAppended(old(categories), src.categories);
    }
  }

  // ----- what an address is put down to ------------------------------------------------

  /** Source positions and categories of the entries of one target. */
  function TargetSites(meta: map<nat, Origin>, entries: seq<Entry>, t: Target): set<Site> {
    set e | e in entries && e.target == t && e.metadataId in meta :: (meta[e.metadataId].file, e.line)
  }

  function TargetKinds(meta: map<nat, Origin>, entries: seq<Entry>, t: Target): set<Category> {
    set e | e in entries && e.target == t && e.metadataId in meta :: meta[e.metadataId].category
  }

  /** And of all entries whose target holds an address. */
  function AllSites(meta: map<nat, Origin>, entries: seq<Entry>, ip: Ip): set<Site> {
    set e | e in entries && e.target.Denotes(ip) && e.metadataId in meta :: (meta[e.metadataId].file, e.line)
  }

  function AllKinds(meta: map<nat, Origin>, entries: seq<Entry>, ip: Ip): set<Category> {
    set e | e in entries && e.target.Denotes(ip) && e.metadataId in meta :: meta[e.metadataId].category
  }

  lemma RecordAdds(c: Context, origin: Origin, line: nat)
    requires |c.files| == |c.lines|
    ensures var d := c.Record(origin, line);
            |d.files| == |d.lines| && SitesOf(d) == SitesOf(c) + {(origin.file, line)}
            && Kinds(d.categories) == Kinds(c.categories) + {origin.category}
  {
    SitesSnoc(c.files, c.lines, origin.file, line);
    KindsSnoc(c.categories, origin.category);
    if c.Lists(origin.file, line) {
      var i :| 0 <= i < |c.files| && c.files[i] == origin.file && c.lines[i] == line;
      assert (c.files[i], LineAt(c.lines, i)) == (origin.file, line);
    }
  }

  /** A target's context holds exactly the positions and categories of its entries. */
  lemma {:induction false} ContextHolds(meta: map<nat, Origin>, entries: seq<Entry>, t: Target)
    ensures var c := ContextOf(meta, entries, t);
            |c.files| == |c.lines| && SitesOf(c) == TargetSites(meta, entries, t)
            && Kinds(c.categories) == TargetKinds(meta, entries, t)
  {
    if entries != [] {
      var n := |entries| - 1;
      var init, e := entries[..n], entries[n];
      ContextHolds(meta, init, t);
      assert entries == init + [e];
      assert forall x :: x in entries <==> x in init || x == e;
      if e.target == t && e.metadataId in meta {
        RecordAdds(ContextOf(meta, init, t), meta[e.metadataId], e.line);
        assert TargetSites(meta, entries, t) == TargetSites(meta, init, t) + {(meta[e.metadataId].file, e.line)};
        assert TargetKinds(meta, entries, t) == TargetKinds(meta, init, t) + {meta[e.metadataId].category};
      } else {
        assert TargetSites(meta, entries, t) == TargetSites(meta, init, t);
        assert TargetKinds(meta, entries, t) == TargetKinds(meta, init, t);
      }
    }
  }

  // ----- everything that was found -----------------------------------------------------

  function FoundSites(found: seq<Context>): set<Site> {
    if found == [] then {} else FoundSites(found[..|found| - 1]) + SitesOf(found[|found| - 1])
  }

  function FoundKinds(found: seq<Context>): set<Category> {
    if found == [] then {} else FoundKinds(found[..|found| - 1]) + Kinds(found[|found| - 1].categories)
  }

  lemma {:induction false} FoundIn(found: seq<Context>, i: nat)
    requires i < |found|
    ensures SitesOf(found[i]) <= FoundSites(found) && Kinds(found[i].categories) <= FoundKinds(found)
  {
    if i < |found| - 1 { FoundIn(found[..|found| - 1], i); }
  }

  /** The contexts of every target, as all three builders leave them. */
  ghost predicate IndexIs(index: map<Target, Context>, meta: map<nat, Origin>, entries: seq<Entry>) {
    forall t: Target :: (t in index <==> Mentioned(meta, entries, t))
                        && (t in index ==> index[t] == ContextOf(meta, entries, t))
  }

  lemma TargetPart(meta: map<nat, Origin>, entries: seq<Entry>, t: Target, ip: Ip)
    requires t.Denotes(ip)
    ensures TargetSites(meta, entries, t) <= AllSites(meta, entries, ip)
    ensures TargetKinds(meta, entries, t) <= AllKinds(meta, entries, ip)
  {
  }

  /** Positions and categories of the entries whose target is one of the hits. */
  function HitSites(meta: map<nat, Origin>, entries: seq<Entry>, hits: seq<Target>): set<Site> {
    set e | e in entries && e.target in hits && e.metadataId in meta :: (meta[e.metadataId].file, e.line)
  }

  function HitKinds(meta: map<nat, Origin>, entries: seq<Entry>, hits: seq<Target>): set<Category> {
    set e | e in entries && e.target in hits && e.metadataId in meta :: meta[e.metadataId].category
  }

  lemma HitPart(index: map<Target, Context>, meta: map<nat, Origin>, entries: seq<Entry>,
                hits: seq<Target>, found: seq<Context>, i: nat)
    requires IndexIs(index, meta, entries) && LooksUp(index, hits, found) && i < |hits|
    ensures SitesOf(found[i]) <= HitSites(meta, entries, hits)
    ensures Kinds(found[i].categories) <= HitKinds(meta, entries, hits)
  {
    ContextHolds(meta, entries, hits[i]);
    assert hits[i] in hits;
    assert TargetSites(meta, entries, hits[i]) <= HitSites(meta, entries, hits);
    assert TargetKinds(meta, entries, hits[i]) <= HitKinds(meta, entries, hits);
  }

  lemma {:induction false} UnionPart(found: seq<Context>, sites: set<Site>, kinds: set<Category>)
    requires forall i :: 0 <= i < |found| ==> SitesOf(found[i]) <= sites && Kinds(found[i].categories) <= kinds
    ensures FoundSites(found) <= sites && FoundKinds(found) <= kinds
  {
    if found != [] { UnionPart(found[..|found| - 1], sites, kinds); }
  }

  /** What lookup finds is exactly what the entries of the hits say. */
  lemma FoundIsHits(index: map<Target, Context>, meta: map<nat, Origin>, entries: seq<Entry>,
                    hits: seq<Target>, found: seq<Context>)
    requires IndexIs(index, meta, entries) && LooksUp(index, hits, found)
    ensures FoundSites(found) == HitSites(meta, entries, hits) && FoundKinds(found) == HitKinds(meta, entries, hits)
  {
    forall i | 0 <= i < |found|
      ensures SitesOf(found[i]) <= HitSites(meta, entries, hits)
      ensures Kinds(found[i].categories) <= HitKinds(meta, entries, hits)
    {
      HitPart(index, meta, entries, hits, found, i);
    }
    UnionPart(found, HitSites(meta, entries, hits), HitKinds(meta, entries, hits));
    forall s | s in HitSites(meta, entries, hits) ensures s in FoundSites(found) {
      var e :| e in entries && e.target in hits && e.metadataId in meta && s == (meta[e.metadataId].file, e.line);
      EntryFound(index, meta, entries, hits, found, e);
    }
    forall k | k in HitKinds(meta, entries, hits) ensures k in FoundKinds(found) {
      var e :| e in entries && e.target in hits && e.metadataId in meta && k == meta[e.metadataId].category;
      EntryFound(index, meta, entries, hits, found, e);
    }
  }

  lemma EntryIndexed(index: map<Target, Context>, meta: map<nat, Origin>, entries: seq<Entry>, e: Entry)
    requires IndexIs(index, meta, entries) && e in entries && e.metadataId in meta
    ensures e.target in index
  {
    assert Mentioned(meta, entries, e.target);
  }

  /** All of what the address is put down to, if no target that holds it is missing. */
  lemma FoundIsAll(index: map<Target, Context>, meta: map<nat, Origin>, entries: seq<Entry>, ip: Ip,
                   hits: seq<Target>, found: seq<Context>)
    requires IndexIs(index, meta, entries) && LooksUp(index, hits, found)
    requires forall t :: t in hits <==> t in index && t.Denotes(ip)
    ensures FoundSites(found) == AllSites(meta, entries, ip) && FoundKinds(found) == AllKinds(meta, entries, ip)
  {
    FoundIsHits(index, meta, entries, hits, found);
    forall e | e in entries && e.metadataId in meta ensures e.target in hits <==> e.target.Denotes(ip) {
      EntryIndexed(index, meta, entries, e);
    }
  }

  lemma EntryFound(index: map<Target, Context>, meta: map<nat, Origin>, entries: seq<Entry>,
                   hits: seq<Target>, found: seq<Context>, e: Entry)
    requires IndexIs(index, meta, entries) && LooksUp(index, hits, found)
    requires e in entries && e.metadataId in meta && e.target in hits
    ensures (meta[e.metadataId].file, e.line) in FoundSites(found)
    ensures meta[e.metadataId].category in FoundKinds(found)
  {
    var i :| 0 <= i < |hits| && hits[i] == e.target;
    ContextHolds(meta, entries, e.target);
    assert (meta[e.metadataId].file, e.line) in TargetSites(meta, entries, e.target);
    assert meta[e.metadataId].category in TargetKinds(meta, entries, e.target);
    FoundIn(found, i);
  }

  /** All positions and categories, the winner's first, as they come. */
  function AllPairs(winning: Option<Context>, found: seq<Context>): seq<Site> {
    (if winning.Some? then Pairs(winning.value.files, winning.value.lines) else [])
    + Flatten(Map((c: Context) => Pairs(c.files, c.lines), found))
  }

  function AllKindsOf(winning: Option<Context>, found: seq<Context>): seq<Category> {
    (if winning.Some? then winning.value.categories else []) + Flatten(Map((c: Context) => c.categories, found))
  }

  lemma NothingFound(winning: Option<Context>, found: seq<Context>)
    ensures AllPairs(winning, found[..0]) == if winning.Some? then Pairs(winning.value.files, winning.value.lines) else []
    ensures AllKindsOf(winning, found[..0]) == if winning.Some? then winning.value.categories else []
  {
  }

  lemma AllNext(winning: Option<Context>, found: seq<Context>, i: nat)
    requires i < |found|
    ensures AppendNew([], AllPairs(winning, found[..i + 1]))
            == AppendNew(AppendNew([], AllPairs(winning, found[..i])), Pairs(found[i].files, found[i].lines))
    ensures AppendNew([], AllKindsOf(winning, found[..i + 1]))
            == AppendNew(AppendNew([], AllKindsOf(winning, found[..i])), found[i].categories)
  {
    PartsNext((c: Context) => Pairs(c.files, c.lines), found, i,
              if winning.Some? then Pairs(winning.value.files, winning.value.lines) else []);
    PartsNext((c: Context) => c.categories, found, i, if winning.Some? then winning.value.categories else []);
  }

  lemma {:induction false} FoundPairs(found: seq<Context>, site: Site)
    ensures site in Flatten(Map((c: Context) => Pairs(c.files, c.lines), found)) <==> site in FoundSites(found)
  {
    if found != [] {
      var n := |found| - 1;
      FoundPairs(found[..n], site);
      PairsSet(found[n].files, found[n].lines, site);
    }
  }

  lemma {:induction false} FoundCategories(found: seq<Context>, kind: Category)
    ensures kind in Flatten(Map((c: Context) => c.categories, found)) <==> kind in FoundKinds(found)
  {
    if found != [] { FoundCategories(found[..|found| - 1], kind); }
  }

  lemma MergedSites(winning: Option<Context>, found: seq<Context>, files: seq<string>, lines: seq<nat>)
    requires Pairs(files, lines) == AppendNew([], AllPairs(winning, found))
    ensures Sites(files, lines) == (if winning.Some? then SitesOf(winning.value) else {}) + FoundSites(found)
  {
    forall site: Site
      ensures site in Sites(files, lines) <==>
              (winning.Some? && site in SitesOf(winning.value)) || site in FoundSites(found)
    {
      PairsSet(files, lines, site);
      AppendNewHas([], AllPairs(winning, found), site);
      FoundPairs(found, site);
      if winning.Some? { PairsSet(winning.value.files, winning.value.lines, site); }
    }
  }

  lemma MergedKinds(winning: Option<Context>, found: seq<Context>, categories: seq<Category>)
    requires categories == AppendNew([], AllKindsOf(winning, found))
    ensures Kinds(categories) == (if winning.Some? then Kinds(winning.value.categories) else {}) + FoundKinds(found)
  {
    forall kind: Category
      ensures kind in categories <==> (winning.Some? && kind in winning.value.categories) || kind in FoundKinds(found)
    {
      AppendNewHas([], AllKindsOf(winning, found), kind);
      FoundCategories(found, kind);
    }
  }

  /** The merging step of the consumer: the winner first, then everything lookup found. */
  method MergeAll(winning: Option<Context>, found: seq<Context>) returns (block: Block)
    ensures fresh(block) && block.Valid()
    ensures Pairs(block.files, block.lines) == AppendNew([], AllPairs(winning, found))
    ensures block.categories == AppendNew([], AllKindsOf(winning, found))
    ensures Sites(block.files, block.lines) == (if winning.Some? then SitesOf(winning.value) else {}) + FoundSites(found)
    ensures Kinds(block.categories) == (if winning.Some? then Kinds(winning.value.categories) else {}) + FoundKinds(found)
  {
    block := new Block();
    NothingFound(winning, found);
    if winning.Some? {
      block.MergeInto(winning.value);
    }
    for i := 0 to |found|
      invariant fresh(block) && block.Valid()
      invariant Pairs(block.files, block.lines) == AppendNew([], AllPairs(winning, found[..i]))
      invariant block.categories == AppendNew([], AllKindsOf(winning, found[..i]))
    {
      AllNext(winning, found, i);
      block.MergeInto(found[i]);
    }
    TakeAll(found);
    MergedSites(winning, found, block.files, block.lines);
    MergedKinds(winning, found, block.categories);
  }

  // ----- the two modes -----------------------------------------------------------------

  /** `build_ip_index` in RAM, distribution included: what the RAM lookup works on. */
  method BuildRamIndex(meta: map<nat, Origin>, entries: seq<Entry>)
    returns (v4: Ram<Context>, v6: Ram<Context>, ghost index: map<Target, Context>,
             ghost order4: seq<Target>, ghost order6: seq<Target>)
    requires forall e <- entries :: e.target.Canonical()
    ensures IndexIs(index, meta, entries)
    ensures RamHolds(V4, v4.exact, v4.lpm, index, order4) && RamHolds(V6, v6.exact, v6.lpm, index, order6)
  {
    var contexts := BuildIpIndex(meta, entries);
    assert forall t <- contexts :: Mentioned(meta, entries, t);
    index := contexts;
    v4, v6, order4, order6 := Distribute(contexts);
  }

  lemma ScanFindsAll<C>(index: map<Target, C>, exact: map<seq<Byte>, C>, lpm: seq<(nat, seq<Byte>, C)>,
                        order: seq<Target>, ip: Ip)
    requires ip.Valid() && RamHolds(ip.family, exact, lpm, index, order)
    ensures forall t :: t in ExactHits(index.Keys, ip) + ScanHits(order, ip) <==> t in index && t.Denotes(ip)
  {
    forall t ensures t in order <==> t in index.Keys && t.Cidr? && t.family == ip.family {
      if t in order {
        var i :| 0 <= i < |order| && order[i] == t;
      }
    }
    ProbeAgainstScan(index.Keys, order, ip);
  }

  lemma RamWinner(before: map<nat, RuleInfo>, rules: map<nat, RuleInfo>, meta: map<nat, Origin>, entries: seq<Entry>,
                  i: nat, ip: Ip)
    requires Registers(before, meta, entries) && i < |entries| && entries[i].target.Denotes(ip)
    requires Indexed(before, rules, meta, entries, TargetsOf(entries))
    ensures var w := RamBlock(rules, meta, entries[i].ruleId);
            w.Some? && SitesOf(w.value) <= AllSites(meta, entries, ip)
            && Kinds(w.value.categories) <= AllKinds(meta, entries, ip)
  {
    RamResolves(before, rules, meta, entries, i);
    ContextHolds(meta, entries, entries[i].target);
    TargetPart(meta, entries, entries[i].target, ip);
  }

  /**
   * In RAM, for both families: the attribution of a drop by a registered rule whose target
   * holds the source is everything the source is put down to.
   */
  method AttributeInRam(rules: map<nat, RuleInfo>, meta: map<nat, Origin>, id: nat,
                        exact: map<seq<Byte>, Context>, lpm: seq<(nat, seq<Byte>, Context)>, ip: Ip,
                        ghost before: map<nat, RuleInfo>, ghost entries: seq<Entry>, ghost i: nat,
                        ghost index: map<Target, Context>, ghost order: seq<Target>)
    returns (block: Block)
    requires ip.Valid() && Registers(before, meta, entries)
    requires Indexed(before, rules, meta, entries, TargetsOf(entries))
    requires IndexIs(index, meta, entries) && RamHolds(ip.family, exact, lpm, index, order)
    requires i < |entries| && entries[i].ruleId == id && entries[i].target.Denotes(ip)
    ensures Sites(block.files, block.lines) == AllSites(meta, entries, ip)
    ensures Kinds(block.categories) == AllKinds(meta, entries, ip)
  {
    var winning := RamBlock(rules, meta, id);
    var found := RamLookup(exact, lpm, ip, index, order);
    block := MergeAll(winning, found);
    RamFinds(rules, meta, id, exact, lpm, ip, before, entries, i, index, order, found);
  }

  lemma RamFinds(rules: map<nat, RuleInfo>, meta: map<nat, Origin>, id: nat,
                 exact: map<seq<Byte>, Context>, lpm: seq<(nat, seq<Byte>, Context)>, ip: Ip,
                 before: map<nat, RuleInfo>, entries: seq<Entry>, i: nat,
                 index: map<Target, Context>, order: seq<Target>, found: seq<Context>)
    requires ip.Valid() && Registers(before, meta, entries)
    requires Indexed(before, rules, meta, entries, TargetsOf(entries))
    requires IndexIs(index, meta, entries) && RamHolds(ip.family, exact, lpm, index, order)
    requires i < |entries| && entries[i].ruleId == id && entries[i].target.Denotes(ip)
    requires LooksUp(index, ExactHits(index.Keys, ip) + ScanHits(order, ip), found)
    ensures var winning := RamBlock(rules, meta, id);
            && winning.Some? && SitesOf(winning.value) + FoundSites(found) == AllSites(meta, entries, ip)
            && Kinds(winning.value.categories) + FoundKinds(found) == AllKinds(meta, entries, ip)
  {
    RamWinner(before, rules, meta, entries, i, ip);
    ScanFindsAll(index, exact, lpm, order, ip);
    FoundIsAll(index, meta, entries, ip, ExactHits(index.Keys, ip) + ScanHits(order, ip), found);
  }

  /** The rules as the cache mode keeps them. */
  predicate Compact(compact: map<nat, (nat, nat)>, meta: map<nat, Origin>, entries: seq<Entry>) {
    forall i :: 0 <= i < |entries| ==>
      && entries[i].metadataId != 0 && entries[i].metadataId in meta
      && entries[i].ruleId in compact && compact[entries[i].ruleId] == (entries[i].metadataId, entries[i].line)
  }

  lemma SingleSite(file: string, line: nat, category: Category)
    ensures SitesOf(Single(file, line, category)) == {(file, line)}
    ensures Kinds(Single(file, line, category).categories) == {category}
  {
    SitesSnoc([], [], file, line);
    assert [] + [file] == [file] && [] + [line] == [line];
  }

  lemma CachedWinner(compact: map<nat, (nat, nat)>, meta: map<nat, Origin>, entries: seq<Entry>, i: nat)
    requires Compact(compact, meta, entries) && i < |entries|
    ensures var w := CachedBlock(compact, meta, entries[i].ruleId);
            w.Some? && SitesOf(w.value) == {(meta[entries[i].metadataId].file, entries[i].line)}
            && Kinds(w.value.categories) == {meta[entries[i].metadataId].category}
  {
    var origin := meta[entries[i].metadataId];
    SingleSite(origin.file, entries[i].line, origin.category);
  }

  /** The index a store holds. */
  ghost function IndexOf(meta: map<nat, Origin>, entries: seq<Entry>): (index: map<Target, Context>)
    ensures IndexIs(index, meta, entries)
  {
    var targets := set e | e in entries && e.metadataId in meta :: e.target;
    map t | t in targets :: ContextOf(meta, entries, t)
  }

  lemma StoreOfIndex(store: map<seq<Byte>, Context>, meta: map<nat, Origin>, entries: seq<Entry>)
    requires StoreIs(store, meta, entries) && forall e <- entries :: e.target.Canonical()
    ensures StoreHolds(store, IndexOf(meta, entries))
  {
    forall t | t in IndexOf(meta, entries)
      ensures t.Canonical() && Keys.ContextKey(t) in store && store[Keys.ContextKey(t)] == ContextOf(meta, entries, t)
    {
      assert Mentioned(meta, entries, t);
    }
  }

  lemma ProbesFind(stored: set<Target>, ip: Ip)
    requires ip.Valid() && forall t <- stored :: t.Canonical()
    ensures forall t :: t in ExactHits(stored, ip) + ProbeHits(stored, ip, ip.family.Width()) <==>
                        t in stored && t.Denotes(ip) && !ProbeMisses(t, ip)
  {
    ProbeHitsAre(stored, ip, ip.family.Width());
    forall t | t in stored && t.Exact? ensures t.Denotes(ip) <==> t == Exact(ip.family, ip.octets) {
      ExactIsCanonical(t);
    }
  }

  /** Of what an address is put down to, the part that probing finds. */
  function ProbedSites(meta: map<nat, Origin>, entries: seq<Entry>, ip: Ip): set<Site> {
    set e | e in entries && e.target.Denotes(ip) && !ProbeMisses(e.target, ip) && e.metadataId in meta
      :: (meta[e.metadataId].file, e.line)
  }

  function ProbedKinds(meta: map<nat, Origin>, entries: seq<Entry>, ip: Ip): set<Category> {
    set e | e in entries && e.target.Denotes(ip) && !ProbeMisses(e.target, ip) && e.metadataId in meta
      :: meta[e.metadataId].category
  }

  /** Probing misses nothing of an IPv4 address. */
  lemma ProbedV4(meta: map<nat, Origin>, entries: seq<Entry>, ip: Ip)
    requires ip.family.V4?
    ensures ProbedSites(meta, entries, ip) == AllSites(meta, entries, ip)
    ensures ProbedKinds(meta, entries, ip) == AllKinds(meta, entries, ip)
  {
    assert forall t :: !ProbeMisses(t, ip);
  }

  lemma CachedFinds(index: map<Target, Context>, meta: map<nat, Origin>, entries: seq<Entry>, ip: Ip, found: seq<Context>)
    requires ip.Valid() && IndexIs(index, meta, entries) && forall t <- index :: t.Canonical()
    requires LooksUp(index, ExactHits(index.Keys, ip) + ProbeHits(index.Keys, ip, ip.family.Width()), found)
    ensures FoundSites(found) == ProbedSites(meta, entries, ip) && FoundKinds(found) == ProbedKinds(meta, entries, ip)
  {
    var hits := ExactHits(index.Keys, ip) + ProbeHits(index.Keys, ip, ip.family.Width());
    ProbesFind(index.Keys, ip);
    FoundIsHits(index, meta, entries, hits, found);
    forall e | e in entries && e.metadataId in meta
      ensures e.target in hits <==> e.target.Denotes(ip) && !ProbeMisses(e.target, ip)
    {
      EntryIndexed(index, meta, entries, e);
    }
  }

  lemma EntryIsPart(meta: map<nat, Origin>, entries: seq<Entry>, e: Entry, ip: Ip)
    requires e in entries && e.metadataId in meta && e.target.Denotes(ip)
    ensures (meta[e.metadataId].file, e.line) in AllSites(meta, entries, ip)
    ensures meta[e.metadataId].category in AllKinds(meta, entries, ip)
  {
  }

  /**
   * With a cache the attribution is the winner's own position and exactly those of the entries
   * that hold the source and that probing finds. For IPv4 that is the same as in RAM.
   */
  method AttributeCached(compact: map<nat, (nat, nat)>, meta: map<nat, Origin>, id: nat,
                         store: map<seq<Byte>, Context>, ip: Ip, ghost entries: seq<Entry>, ghost i: nat)
    returns (block: Block)
    requires ip.Valid() && Compact(compact, meta, entries)
    requires StoreIs(store, meta, entries) && forall e <- entries :: e.target.Canonical()
    requires i < |entries| && entries[i].ruleId == id && entries[i].target.Denotes(ip)
    ensures var winner := entries[i];
            && Sites(block.files, block.lines) == {(meta[winner.metadataId].file, winner.line)} + ProbedSites(meta, entries, ip)
            && Kinds(block.categories) == {meta[winner.metadataId].category} + ProbedKinds(meta, entries, ip)
    ensures Sites(block.files, block.lines) <= AllSites(meta, entries, ip)
    ensures Kinds(block.categories) <= AllKinds(meta, entries, ip)
    ensures ip.family.V4? ==> Sites(block.files, block.lines) == AllSites(meta, entries, ip)
    ensures ip.family.V4? ==> Kinds(block.categories) == AllKinds(meta, entries, ip)
  {
    block := MergeCached(compact, meta, id, store, ip, entries, i);
    EntryIsPart(meta, entries, entries[i], ip);
    if ip.family.V4? { ProbedV4(meta, entries, ip); }
  }

  method MergeCached(compact: map<nat, (nat, nat)>, meta: map<nat, Origin>, id: nat,
                     store: map<seq<Byte>, Context>, ip: Ip, ghost entries: seq<Entry>, ghost i: nat)
    returns (block: Block)
    requires ip.Valid() && Compact(compact, meta, entries)
    requires StoreIs(store, meta, entries) && forall e <- entries :: e.target.Canonical()
    requires i < |entries| && entries[i].ruleId == id
    ensures var winner := entries[i];
            && Sites(block.files, block.lines) == {(meta[winner.metadataId].file, winner.line)} + ProbedSites(meta, entries, ip)
            && Kinds(block.categories) == {meta[winner.metadataId].category} + ProbedKinds(meta, entries, ip)
  {
    ghost var index := IndexOf(meta, entries);
    StoreOfIndex(store, meta, entries);
    var winning := CachedBlock(compact, meta, id);
    var found := CachedLookup(store, ip, index);
    block := MergeAll(winning, found);
    CachedWinner(compact, meta, entries, i);
    CachedFinds(index, meta, entries, ip, found);
  }
}
