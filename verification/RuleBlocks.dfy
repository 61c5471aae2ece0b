/** From a rule id to the context of its target: the shared blocks in RAM, the compact cache. */
module RuleBlocks {
  import opened Contexts
  import opened Lists
  import opened Outcomes
  import opened Targets

  datatype RuleInfo = RuleInfo(metadataId: nat, category: Category, line: nat, block: Option<Context>)

  /** Every entry's rule and its metadata are registered. */
  predicate Registers(rules: map<nat, RuleInfo>, meta: map<nat, Origin>, entries: seq<Entry>) {
    forall i :: 0 <= i < |entries| ==>
      && entries[i].ruleId in rules && entries[i].metadataId in meta
      && rules[entries[i].ruleId] == InfoOf(meta, entries[i])
  }

  function InfoOf(meta: map<nat, Origin>, e: Entry): RuleInfo
    requires e.metadataId in meta
  {
    RuleInfo(e.metadataId, meta[e.metadataId].category, e.line, None)
  }

  predicate DistinctIds(entries: seq<Entry>) {
    forall i, j :: 0 <= i < j < |entries| ==> entries[i].ruleId != entries[j].ruleId
  }

  // ----- grouping ----------------------------------------------------------------------

  /** The rule ids of a target, in entry order. */
  function IdsOf(entries: seq<Entry>, t: Target): seq<nat> {
    if entries == [] then [] else
    var n := |entries| - 1;
    var before := IdsOf(entries[..n], t);
    if entries[n].target == t then before + [entries[n].ruleId] else before
  }

  lemma IdsNext(entries: seq<Entry>, i: nat, t: Target)
    requires i < |entries|
    ensures IdsOf(entries[..i + 1], t) ==
            IdsOf(entries[..i], t) + if entries[i].target == t then [entries[i].ruleId] else []
  {
    TakeSnoc(entries, i);
    SnocTake(entries[..i], entries[i]);
  }

  ghost predicate GroupsIds(groups: map<Target, seq<nat>>, entries: seq<Entry>) {
    && (forall t <- groups :: groups[t] == IdsOf(entries, t))
    && (forall t: Target :: t !in groups ==> IdsOf(entries, t) == [])
  }

  method GroupByTarget(entries: seq<Entry>) returns (groups: map<Target, seq<nat>>)
    ensures GroupsIds(groups, entries)
  {
    groups := map[];
    for i := 0 to |entries|
      invariant GroupsIds(groups, entries[..i])
    {
      var e := entries[i];
      forall t: Target
        ensures IdsOf(entries[..i + 1], t) == IdsOf(entries[..i], t) + if e.target == t then [e.ruleId] else []
      {
        IdsNext(entries, i, t);
      }
      groups := groups[e.target := (if e.target in groups then groups[e.target] else []) + [e.ruleId]];
    }
    TakeAll(entries);
  }

  // ----- one shared context ------------------------------------------------------------

  function AddRule(c: Context, info: RuleInfo, meta: map<nat, Origin>): Context {
    if info.metadataId in meta then c.Record(Origin(info.category, meta[info.metadataId].file), info.line)
    else if info.category in c.categories then c
    else c.(categories := c.categories + [info.category])
  }

  function ContextFrom(rules: map<nat, RuleInfo>, meta: map<nat, Origin>, ids: seq<nat>): Context {
    if ids == [] then EMPTY else
    var n := |ids| - 1;
    var before := ContextFrom(rules, meta, ids[..n]);
    if ids[n] in rules then AddRule(before, rules[ids[n]], meta) else before
  }

  /** What a rule contributes: its category, and its position if its file is known. */
  function RuleSite(rules: map<nat, RuleInfo>, meta: map<nat, Origin>): nat -> Option<(string, nat)> {
    (id: nat) => if id in rules && rules[id].metadataId in meta
                 then Some((meta[rules[id].metadataId].file, rules[id].line)) else None
  }

  function RuleKind(rules: map<nat, RuleInfo>): nat -> Option<Category> {
    (id: nat) => if id in rules then Some(rules[id].category) else None
  }

  lemma {:induction false} RulesInOrder(rules: map<nat, RuleInfo>, meta: map<nat, Origin>, ids: seq<nat>)
    ensures ListsFirst(ContextFrom(rules, meta, ids), Map(RuleSite(rules, meta), ids), Map(RuleKind(rules), ids))
  {
    if ids == [] {
      ListsNothing();
    } else {
      var n := |ids| - 1;
      var before := ContextFrom(rules, meta, ids[..n]);
      var sites, kinds := Map(RuleSite(rules, meta), ids[..n]), Map(RuleKind(rules), ids[..n]);
      RulesInOrder(rules, meta, ids[..n]);
      if ids[n] in rules && rules[ids[n]].metadataId in meta {
        var info := rules[ids[n]];
        ListsNext(before, sites, kinds, Origin(info.category, meta[info.metadataId].file), info.line);
      } else {
        ListsKind(before, sites, kinds, RuleKind(rules)(ids[n]));
      }
    }
  }

  /** The context of the rules of one target. */
  method BuildContext(rules: map<nat, RuleInfo>, meta: map<nat, Origin>, ids: seq<nat>) returns (context: Context)
    ensures context == ContextFrom(rules, meta, ids)
    ensures ListsFirst(context, Map(RuleSite(rules, meta), ids), Map(RuleKind(rules), ids))
  {
    context := CollectRules(rules, meta, ids);
    RulesInOrder(rules, meta, ids);
  }

  /** The loop over the rules. */
  method CollectRules(rules: map<nat, RuleInfo>, meta: map<nat, Origin>, ids: seq<nat>) returns (context: Context)
    ensures context == ContextFrom(rules, meta, ids)
  {
    var files, lines, categories := [], [], [];
    for i := 0 to |ids|
      invariant Context(files, lines, categories) == ContextFrom(rules, meta, ids[..i]) && |files| == |lines|
    {
      assert ids[..i + 1][..i] == ids[..i];
      if ids[i] in rules {
        var info := rules[ids[i]];
        ghost var before := Context(files, lines, categories);
        if info.metadataId in meta {
          var file, dup := meta[info.metadataId].file, false;
          for j := 0 to |files|
            invariant !dup && forall k :: 0 <= k < j ==> !(files[k] == file && lines[k] == info.line)
          {
            if files[j] == file && lines[j] == info.line {
              dup := true;
              break;
            }
          }
          assert dup <==> before.Lists(file, info.line);
          if !dup {
            files, lines := files + [file], lines + [info.line];
          }
        }
        if info.category !in categories {
          categories := categories + [info.category];
        }
      }
    }
    assert ids[..|ids|] == ids;
    context := Context(files, lines, categories);
  }

  /** The shared context is the context hash grouping gives the target. */
  lemma {:induction false} SharedContext(rules: map<nat, RuleInfo>, meta: map<nat, Origin>, entries: seq<Entry>, t: Target)
    requires Registers(rules, meta, entries)
    ensures ContextFrom(rules, meta, IdsOf(entries, t)) == ContextOf(meta, entries, t)
  {
    if entries != [] {
      var n := |entries| - 1;
      var init, e := entries[..n], entries[n];
      SharedContext(rules, meta, init, t);
      var ids := IdsOf(init, t);
      assert (ids + [e.ruleId])[..|ids|] == ids;
    }
  }

  // ----- the index ---------------------------------------------------------------------

  function TargetsOf(entries: seq<Entry>): set<Target> { set e | e in entries :: e.target }

  lemma {:induction false} IdsAre(entries: seq<Entry>, t: Target, id: nat)
    ensures id in IdsOf(entries, t) <==> exists i :: 0 <= i < |entries| && entries[i].target == t && entries[i].ruleId == id
  {
    if entries != [] {
      var n := |entries| - 1;
      IdsAre(entries[..n], t, id);
      assert forall i :: 0 <= i < n ==> entries[..n][i] == entries[i];
    }
  }

  function WithBlock(rules: map<nat, RuleInfo>, ids: seq<nat>, context: Context): map<nat, RuleInfo> {
    map id | id in rules :: if id in ids then rules[id].(block := Some(context)) else rules[id]
  }

  /** The rules with the blocks of the targets in `done` filled in. */
  ghost predicate Indexed(before: map<nat, RuleInfo>, after: map<nat, RuleInfo>, meta: map<nat, Origin>,
                          entries: seq<Entry>, done: set<Target>) {
    && after.Keys == before.Keys && (forall id <- before :: before[id].(block := None) == after[id].(block := None))
    && forall i :: 0 <= i < |entries| && entries[i].ruleId in before ==>
         after[entries[i].ruleId] == Filled(before, meta, entries, entries[i], entries[i].target in done)
  }

  function Filled(rules: map<nat, RuleInfo>, meta: map<nat, Origin>, entries: seq<Entry>, e: Entry, done: bool): RuleInfo
    requires e.ruleId in rules
  {
    var ids := IdsOf(entries, e.target);
    if done && |ids| > 1 then rules[e.ruleId].(block := Some(ContextFrom(rules, meta, ids))) else rules[e.ruleId]
  }

  lemma {:induction false} ContextIgnoresBlocks(a: map<nat, RuleInfo>, b: map<nat, RuleInfo>, meta: map<nat, Origin>, ids: seq<nat>)
    requires a.Keys == b.Keys && forall id <- a :: a[id].(block := None) == b[id].(block := None)
    ensures ContextFrom(a, meta, ids) == ContextFrom(b, meta, ids)
  {
    if ids != [] {
      ContextIgnoresBlocks(a, b, meta, ids[..|ids| - 1]);
      var id := ids[|ids| - 1];
      if id in a { assert a[id].(block := None) == b[id].(block := None); }
    }
  }

  lemma FillsTarget(before: map<nat, RuleInfo>, rules: map<nat, RuleInfo>, meta: map<nat, Origin>, entries: seq<Entry>,
                    done: set<Target>, t: Target)
    requires Indexed(before, rules, meta, entries, done) && DistinctIds(entries)
    ensures var ids := IdsOf(entries, t);
            Indexed(before, if |ids| > 1 then WithBlock(rules, ids, ContextFrom(rules, meta, ids)) else rules,
                    meta, entries, done + {t})
  {
    var ids := IdsOf(entries, t);
    ContextIgnoresBlocks(before, rules, meta, ids);
    forall i | 0 <= i < |entries| ensures entries[i].ruleId in ids <==> entries[i].target == t {
      IdsAre(entries, t, entries[i].ruleId);
    }
  }

  class Registry {
    var meta: map<nat, Origin>
    var rules: map<nat, RuleInfo>

    /** Hand the same context to every rule of a target. */
    method ShareBlock(ids: seq<nat>, context: Context)
      modifies this`rules
      ensures rules == WithBlock(old(rules), ids, context)
    {
      ghost var was := rules;
      assert WithBlock(was, ids[..0], context) == was;
      for i := 0 to |ids|
        invariant rules == WithBlock(was, ids[..i], context)
      {
        assert forall id :: id in ids[..i + 1] <==> id in ids[..i] || id == ids[i];
        if ids[i] in rules {
          rules := rules[ids[i] := rules[ids[i]].(block := Some(context))];
        }
      }
      assert ids[..|ids|] == ids;
    }

    /** `build_rule_block_index`: the groups are visited in any order. */
    method BuildRuleBlockIndex(entries: seq<Entry>)
      requires DistinctIds(entries)
      modifies this`rules
      ensures Indexed(old(rules), rules, meta, entries, TargetsOf(entries))
    {
      var groups := GroupByTarget(entries);
      var rest := groups.Keys;
      ghost var was := rules;
      ghost var done := {};
      while rest != {}
        invariant rest <= groups.Keys && done == groups.Keys - rest
        invariant Indexed(was, rules, meta, entries, done)
        decreases rest
      {
        var t :| t in rest;
        rest := rest - {t};
        FillsTarget(was, rules, meta, entries, done, t);
        done := done + {t};
        if |groups[t]| <= 1 {
          continue;
        }
        var context := BuildContext(rules, meta, groups[t]);
        ShareBlock(groups[t], context);
      }
      AllGrouped(groups, entries);
      assert done == groups.Keys;
    }
  }

  lemma AllGrouped(groups: map<Target, seq<nat>>, entries: seq<Entry>)
    requires GroupsIds(groups, entries)
    ensures forall e <- entries :: e.target in groups
  {
    forall i | 0 <= i < |entries| ensures entries[i].target in groups {
      IdsAre(entries, entries[i].target, entries[i].ruleId);
    }
  }

  // ----- resolving a rule id -----------------------------------------------------------

  function Single(file: string, line: nat, category: Category): Context { Context([file], [line], [category]) }

  /** `resolve_rule_block` in RAM: the shared block, or the rule's own line. */
  function RamBlock(rules: map<nat, RuleInfo>, meta: map<nat, Origin>, id: nat): Option<Context> {
    if id !in rules then None
    else if rules[id].block.Some? then rules[id].block
    else if rules[id].metadataId !in meta then None
    else Some(Single(meta[rules[id].metadataId].file, rules[id].line, rules[id].category))
  }

  /** `resolve_rule_block` with a cache: metadata id and line per rule; id 0 marks no rule. */
  function CachedBlock(compact: map<nat, (nat, nat)>, meta: map<nat, Origin>, id: nat): Option<Context> {
    if id !in compact || compact[id].0 == 0 || compact[id].0 !in meta then None
    else var origin := meta[compact[id].0]; Some(Single(origin.file, compact[id].1, origin.category))
  }

  /** In RAM every registered rule resolves to the whole context of its target. */
  lemma RamResolves(before: map<nat, RuleInfo>, after: map<nat, RuleInfo>, meta: map<nat, Origin>,
                    entries: seq<Entry>, i: nat)
    requires Registers(before, meta, entries) && i < |entries|
    requires Indexed(before, after, meta, entries, TargetsOf(entries))
    ensures RamBlock(after, meta, entries[i].ruleId) == Some(ContextOf(meta, entries, entries[i].target))
  {
    var e := entries[i];
    assert e in entries;
    SharedContext(before, meta, entries, e.target);
    IdsAre(entries, e.target, e.ruleId);
    BlockResolves(before[e.ruleId], before, after, meta, IdsOf(entries, e.target), e.ruleId);
  }

  /** A shared target's block is stored with the rule; another rule's is built from its own line. */
  lemma BlockResolves(info: RuleInfo, before: map<nat, RuleInfo>, after: map<nat, RuleInfo>, meta: map<nat, Origin>,
                      ids: seq<nat>, id: nat)
    requires id in ids && id in before && id in after && info == before[id] && info.block.None? && info.metadataId in meta
    requires after[id] == if |ids| > 1 then info.(block := Some(ContextFrom(before, meta, ids))) else info
    ensures RamBlock(after, meta, id) == Some(ContextFrom(before, meta, ids))
  {
    if |ids| <= 1 { OneRule(before, meta, ids, id); }
  }

  lemma OneRule(rules: map<nat, RuleInfo>, meta: map<nat, Origin>, ids: seq<nat>, id: nat)
    requires id in ids && |ids| <= 1 && id in rules && rules[id].metadataId in meta
    ensures ContextFrom(rules, meta, ids) == Single(meta[rules[id].metadataId].file, rules[id].line, rules[id].category)
  {
    assert ids[..0] == [];
  }
}
