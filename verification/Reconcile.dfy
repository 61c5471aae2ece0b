/** Static rules and feed rules share one kernel map; differential syncs of the two owners,
    under arbitrary insert failures. One instance models each of the four kernel maps. */
module Reconcile {
  import opened Lists

  ghost function KeysOf<K, V>(rules: seq<(K, V)>): set<K> {
    set i | 0 <= i < |rules| :: rules[i].0
  }

  /** Rules accepted before the first failing insert; everything after it is skipped. */
  ghost function Accepted<K, V>(rules: seq<(K, V)>, failAt: nat): seq<(K, V)> {
    if failAt < |rules| then rules[..failAt] else rules
  }

  lemma {:induction false} PutAllKeys<K, V>(m: map<K, V>, rules: seq<(K, V)>)
    ensures PutAll(m, rules).Keys == m.Keys + KeysOf(rules)
    ensures forall k <- m :: k !in KeysOf(rules) ==> PutAll(m, rules)[k] == m[k]
  {
    if rules != [] {
      var n := |rules| - 1;
      PutAllKeys(m, rules[..n]);
      assert rules == rules[..n] + [rules[n]];
      assert KeysOf(rules) == KeysOf(rules[..n]) + {rules[n].0};
    }
  }

  lemma KeysOfSnoc<K, V>(rules: seq<(K, V)>, i: nat)
    requires i < |rules|
    ensures KeysOf(rules[..i + 1]) == KeysOf(rules[..i]) + {rules[i].0}
    ensures forall m: map<K, V> :: PutAll(m, rules[..i + 1]) == PutAll(m, rules[..i])[rules[i].0 := rules[i].1]
  {
    TakeSnoc(rules, i);
    SnocTake(rules[..i], rules[i]);
  }

  // ----- what a sync must leave ----------------------------------------------------------

  /** After a static sync: the accepted rules and the feed's keys, nothing else. */
  ghost function StaticSynced<K, V>(m: map<K, V>, feedOwned: set<K>, rules: seq<(K, V)>): map<K, V> {
    var installed := KeysOf(rules);
    var all := PutAll(m, rules);
    map k | k in all && (k in installed || k in feedOwned) :: all[k]
  }

  /** After a feed sync: stale feed keys gone, everything else kept or installed. */
  ghost function FeedSynced<K, V>(m: map<K, V>, feedOwned: set<K>, rules: seq<(K, V)>): map<K, V> {
    PutAll(m, rules) - (feedOwned - KeysOf(rules))
  }

  lemma StaticSyncedIsRemoval<K, V>(m: map<K, V>, feedOwned: set<K>, rules: seq<(K, V)>)
    ensures StaticSynced(m, feedOwned, rules) == PutAll(m, rules) - (m.Keys - feedOwned - KeysOf(rules))
  {
    PutAllKeys(m, rules);
  }

  /** No intermediate map loses a key that is there both before and after. */
  ghost predicate NeverDropped<K, V>(before: map<K, V>, history: seq<map<K, V>>, after: map<K, V>) {
    forall i, k :: 0 <= i < |history| && k in before && k in after ==> k in history[i]
  }

  ghost predicate AllHold<K, V>(history: seq<map<K, V>>, keys: set<K>) {
    forall h <- history :: keys <= h.Keys
  }

  lemma NotDropped<K, V>(before: map<K, V>, h1: seq<map<K, V>>, h2: seq<map<K, V>>, after: map<K, V>)
    requires AllHold(h1, before.Keys) && AllHold(h2, after.Keys)
    ensures NeverDropped(before, h1 + h2, after)
  {
    forall i, k | 0 <= i < |h1 + h2| && k in before && k in after ensures k in (h1 + h2)[i] {
      assert (h1 + h2)[i] in if i < |h1| then h1 else h2;
    }
  }

  /** The keys of the first `n` rules. */
  ghost function FirstKeys<K, V>(rules: seq<(K, V)>, n: nat): set<K>
    requires n <= |rules|
  {
    set i | 0 <= i < n :: rules[i].0
  }

  /** No later rule below `n` has the same key. */
  ghost predicate LastOf<K, V>(rules: seq<(K, V)>, n: nat, i: nat) {
    i < n <= |rules| && forall j :: i < j < n ==> rules[j].0 != rules[i].0
  }

  /** The first `n` rules were written, the last one of each key winning; of what was there before,
      only the keys in `kept` are left, with their values. */
  ghost predicate Wrote<K, V>(before: map<K, V>, rules: seq<(K, V)>, n: nat, kept: set<K>, after: map<K, V>) {
    && n <= |rules| && after.Keys == FirstKeys(rules, n) + before.Keys * kept
    && (forall i: nat :: LastOf(rules, n, i) ==> rules[i].0 in after && after[rules[i].0] == rules[i].1)
    && (forall k <- after :: k !in FirstKeys(rules, n) ==> k in before && after[k] == before[k])
  }

  /** How many inserts go through. */
  function Reach<K, V>(rules: seq<(K, V)>, failAt: nat): nat { if failAt < |rules| then failAt else |rules| }

  lemma AcceptedAre<K, V>(rules: seq<(K, V)>, failAt: nat)
    ensures |Accepted(rules, failAt)| == Reach(rules, failAt)
    ensures KeysOf(Accepted(rules, failAt)) == FirstKeys(rules, Reach(rules, failAt))
    ensures forall i :: 0 <= i < Reach(rules, failAt) ==> Accepted(rules, failAt)[i] == rules[i]
  {
  }

  lemma LastAccepted<K, V>(before: map<K, V>, rules: seq<(K, V)>, failAt: nat, i: nat)
    requires LastOf(rules, Reach(rules, failAt), i)
    ensures var accepted := Accepted(rules, failAt);
            rules[i].0 in KeysOf(accepted) && rules[i].0 in PutAll(before, accepted)
            && PutAll(before, accepted)[rules[i].0] == rules[i].1
  {
    AcceptedAre(rules, failAt);
    PutAllHolds(before, Accepted(rules, failAt), i);
  }

  lemma AcceptedWrote<K, V>(before: map<K, V>, rules: seq<(K, V)>, failAt: nat, kept: set<K>, after: map<K, V>)
    requires var accepted := Accepted(rules, failAt);
             && after.Keys == KeysOf(accepted) + before.Keys * kept && after.Keys <= PutAll(before, accepted).Keys
             && forall k <- after :: after[k] == PutAll(before, accepted)[k]
    ensures Wrote(before, rules, Reach(rules, failAt), kept, after)
  {
    AcceptedAre(rules, failAt);
    PutAllKeys(before, Accepted(rules, failAt));
    forall i: nat | LastOf(rules, Reach(rules, failAt), i) ensures rules[i].0 in after && after[rules[i].0] == rules[i].1 {
      LastAccepted(before, rules, failAt, i);
    }
  }

  lemma StaticSyncedWrote<K, V>(before: map<K, V>, feedOwned: set<K>, rules: seq<(K, V)>, failAt: nat)
    ensures Wrote(before, rules, Reach(rules, failAt), feedOwned, StaticSynced(before, feedOwned, Accepted(rules, failAt)))
    ensures KeysOf(Accepted(rules, failAt)) == FirstKeys(rules, Reach(rules, failAt))
  {
    AcceptedAre(rules, failAt);
    PutAllKeys(before, Accepted(rules, failAt));
    AcceptedWrote(before, rules, failAt, feedOwned, StaticSynced(before, feedOwned, Accepted(rules, failAt)));
  }

  lemma FeedSyncedWrote<K, V>(before: map<K, V>, feedOwned: set<K>, rules: seq<(K, V)>, failAt: nat)
    ensures Wrote(before, rules, Reach(rules, failAt), before.Keys - feedOwned,
                  FeedSynced(before, feedOwned, Accepted(rules, failAt)))
    ensures KeysOf(Accepted(rules, failAt)) == FirstKeys(rules, Reach(rules, failAt))
  {
    AcceptedAre(rules, failAt);
    PutAllKeys(before, Accepted(rules, failAt));
    AcceptedWrote(before, rules, failAt, before.Keys - feedOwned, FeedSynced(before, feedOwned, Accepted(rules, failAt)));
  }

  class SharedMap<K(==), V> {
    var entries: map<K, V>
    var feedOwned: set<K>

    constructor ()
      ensures entries == map[] && feedOwned == {}
    {
      entries := map[];
      feedOwned := {};
    }

    /** The insert loop of both syncs: stop writing at the first failure. */
    method InsertAll(rules: seq<(K, V)>, failAt: nat)
      returns (installed: set<K>, inserted: nat, ghost history: seq<map<K, V>>)
      modifies this`entries
      ensures installed == KeysOf(Accepted(rules, failAt)) && inserted == |Accepted(rules, failAt)|
      ensures entries == PutAll(old(entries), Accepted(rules, failAt))
      ensures inserted == if failAt < |rules| then failAt else |rules|
      ensures installed == FirstKeys(rules, inserted)
      ensures Wrote(old(entries), rules, inserted, old(entries).Keys, entries)
      ensures AllHold(history, old(entries).Keys)
    {
      installed, inserted, history := {}, 0, [];
      var warned := false;
      PutAllKeys(entries, Accepted(rules, failAt));
      for i := 0 to |rules|
        invariant warned <==> failAt < i
        invariant inserted == (if i <= failAt then i else failAt)
        invariant installed == KeysOf(rules[..inserted])
        invariant entries == PutAll(old(entries), rules[..inserted])
        invariant AllHold(history, old(entries).Keys)
      {
        if !warned {
          if i == failAt {
            warned := true;
          } else {
            KeysOfSnoc(rules, i);
            PutAllKeys(old(entries), rules[..i + 1]);
            entries := entries[rules[i].0 := rules[i].1];
            installed := installed + {rules[i].0};
            inserted := inserted + 1;
            history := history + [entries];
          }
        }
      }
      TakeAll(rules);
      AcceptedAre(rules, failAt);
      AcceptedWrote(old(entries), rules, failAt, old(entries).Keys, entries);
    }

    /** Remove the given keys one by one, in any order. */
    method RemoveAll(stale: set<K>) returns (removed: nat, ghost history: seq<map<K, V>>)
      modifies this`entries
      ensures entries == old(entries) - stale && removed == |stale|
      ensures AllHold(history, old(entries).Keys - stale)
    {
      removed, history := 0, [];
      var rest := stale;
      while rest != {}
        invariant rest <= stale && removed == |stale| - |rest|
        invariant entries == old(entries) - (stale - rest)
        invariant AllHold(history, old(entries).Keys - stale)
        decreases rest
      {
        var k :| k in rest;
        entries := entries - {k};
        removed := removed + 1;
        rest := rest - {k};
        history := history + [entries];
      }
    }

    /** `sync_rules`, for one map. */
    method SyncRules(rules: seq<(K, V)>, failAt: nat) returns (inserted: nat, removed: nat, ghost history: seq<map<K, V>>)
      modifies this`entries
      ensures entries == StaticSynced(old(entries), feedOwned, Accepted(rules, failAt))
      ensures inserted == if failAt < |rules| then failAt else |rules|
      ensures Wrote(old(entries), rules, inserted, feedOwned, entries)
      ensures removed == |old(entries).Keys - feedOwned - FirstKeys(rules, inserted)|
      ensures NeverDropped(old(entries), history, entries)
    {
      var installed;
      ghost var h1, h2;
      PutAllKeys(entries, Accepted(rules, failAt));
      installed, inserted, h1 := InsertAll(rules, failAt);
      var staticKeys := entries.Keys - feedOwned;
      var stale := set k | k in staticKeys - installed && k !in feedOwned;
      assert stale == old(entries).Keys - feedOwned - installed;
      StaticSyncedIsRemoval(old(entries), feedOwned, Accepted(rules, failAt));
      removed, h2 := RemoveAll(stale);
      NotDropped(old(entries), h1, h2, entries);
      history := h1 + h2;
      StaticSyncedWrote(old(entries), feedOwned, rules, failAt);
    }

    /** `sync_firehol_rules`, for one map. The guard on static keys reads the map minus the feed's
        own keys, so it never blocks a removal. */
    method SyncFeedRules(rules: seq<(K, V)>, failAt: nat)
      returns (inserted: nat, removed: nat, ghost history: seq<map<K, V>>)
      modifies this
      ensures entries == FeedSynced(old(entries), old(feedOwned), Accepted(rules, failAt))
      ensures inserted == if failAt < |rules| then failAt else |rules|
      ensures Wrote(old(entries), rules, inserted, old(entries).Keys - old(feedOwned), entries)
      ensures feedOwned == FirstKeys(rules, inserted)
      ensures removed == |old(feedOwned) - feedOwned|
      ensures NeverDropped(old(entries), history, entries)
    {
      var installed;
      ghost var h1, h2;
      PutAllKeys(entries, Accepted(rules, failAt));
      installed, inserted, h1 := InsertAll(rules, failAt);
      var staticKeys := entries.Keys - feedOwned;
      var stale := set k | k in feedOwned - installed && k !in staticKeys;
      assert stale == feedOwned - installed;
      removed, h2 := RemoveAll(stale);
      FeedSyncedWrote(old(entries), feedOwned, rules, failAt);
      feedOwned := installed;
      NotDropped(old(entries), h1, h2, entries);
      history := h1 + h2;
    }
  }

  // ----- every run of syncs -------------------------------------------------------------------

  datatype Sync<K, V> = StaticSync(rules: seq<(K, V)>, failAt: nat) | FeedSync(rules: seq<(K, V)>, failAt: nat)
  datatype Maps<K, V> = Maps(entries: map<K, V>, feedOwned: set<K>)

  ghost function After<K, V>(s: Maps<K, V>, op: Sync<K, V>): Maps<K, V> {
    var rules := Accepted(op.rules, op.failAt);
    if op.StaticSync? then Maps(StaticSynced(s.entries, s.feedOwned, rules), s.feedOwned)
    else Maps(FeedSynced(s.entries, s.feedOwned, rules), KeysOf(rules))
  }

  ghost function RunOf<K, V>(ops: seq<Sync<K, V>>): Maps<K, V> {
    if ops == [] then Maps(map[], {}) else After(RunOf(ops[..|ops| - 1]), ops[|ops| - 1])
  }

  /** One sync of a run, in terms of its rules and the first failure alone. */
  lemma SyncWrote<K, V>(s: Maps<K, V>, op: Sync<K, V>)
    ensures var n := if op.failAt < |op.rules| then op.failAt else |op.rules|;
            && Wrote(s.entries, op.rules, n, if op.StaticSync? then s.feedOwned else s.entries.Keys - s.feedOwned,
                     After(s, op).entries)
            && After(s, op).feedOwned == if op.StaticSync? then s.feedOwned else FirstKeys(op.rules, n)
  {
    StaticSyncedWrote(s.entries, s.feedOwned, op.rules, op.failAt);
    FeedSyncedWrote(s.entries, s.feedOwned, op.rules, op.failAt);
  }

  /** Whatever failed, after any run every feed-owned key is in the map. */
  lemma {:induction false} FeedOwnedStaysInside<K, V>(ops: seq<Sync<K, V>>)
    ensures RunOf(ops).feedOwned <= RunOf(ops).entries.Keys
  {
    if ops != [] {
      var n := |ops| - 1;
      FeedOwnedStaysInside(ops[..n]);
      PutAllKeys(RunOf(ops[..n]).entries, Accepted(ops[n].rules, ops[n].failAt));
    }
  }

  /** A static sync at any point of any run leaves exactly what it installed and the feed's keys. */
  lemma StaticSyncKeys<K, V>(ops: seq<Sync<K, V>>, rules: seq<(K, V)>, failAt: nat)
    ensures var s := RunOf(ops);
            After(s, StaticSync(rules, failAt)).entries.Keys == KeysOf(Accepted(rules, failAt)) + s.feedOwned
  {
    FeedOwnedStaysInside(ops);
    PutAllKeys(RunOf(ops).entries, Accepted(rules, failAt));
  }

  /** A feed sync leaves everything but its old keys, and what it installed. */
  lemma FeedSyncKeys<K, V>(ops: seq<Sync<K, V>>, rules: seq<(K, V)>, failAt: nat)
    ensures var s := RunOf(ops);
            After(s, FeedSync(rules, failAt)).entries.Keys == s.entries.Keys - s.feedOwned + KeysOf(Accepted(rules, failAt))
  {
    PutAllKeys(RunOf(ops).entries, Accepted(rules, failAt));
  }

  /** A feed sync keeps a set of installed static keys iff none of them is an old feed key the
      new feed no longer has. */
  lemma FeedSyncKeepsStaticKeys<K, V>(s: Maps<K, V>, rules: seq<(K, V)>, failAt: nat, statics: set<K>)
    requires statics <= s.entries.Keys
    ensures statics <= After(s, FeedSync(rules, failAt)).entries.Keys <==>
            statics !! s.feedOwned - KeysOf(Accepted(rules, failAt))
  {
    PutAllKeys(s.entries, Accepted(rules, failAt));
    var gone := s.feedOwned - KeysOf(Accepted(rules, failAt));
    assert After(s, FeedSync(rules, failAt)).entries.Keys == PutAll(s.entries, Accepted(rules, failAt)).Keys - gone;
    if !(statics !! gone) {
      var k :| k in statics && k in gone;
      assert k !in After(s, FeedSync(rules, failAt)).entries;
    }
  }

  /** A feed sync leaves a set of installed static rules unchanged, keys and values, iff none of
      their keys is an old feed key the new feed no longer has, and no accepted feed rule ends up
      with another value on one of their keys. */
  lemma FeedSyncKeepsStaticRules<K, V>(s: Maps<K, V>, rules: seq<(K, V)>, failAt: nat, statics: map<K, V>)
    requires statics.Keys <= s.entries.Keys && forall k <- statics :: statics[k] == s.entries[k]
    ensures var accepted := Accepted(rules, failAt);
            var after := After(s, FeedSync(rules, failAt)).entries;
            (forall k <- statics :: k in after && after[k] == statics[k]) <==>
            forall k <- statics ::
              if k in KeysOf(accepted) then k in PutAll(map[], accepted) && PutAll(map[], accepted)[k] == statics[k]
              else k !in s.feedOwned
  {
    forall k | k in statics
      ensures var accepted := Accepted(rules, failAt);
              var after := After(s, FeedSync(rules, failAt)).entries;
              k in after && after[k] == statics[k] <==>
              if k in KeysOf(accepted) then k in PutAll(map[], accepted) && PutAll(map[], accepted)[k] == statics[k]
              else k !in s.feedOwned
    {
      FeedSyncAt(s, rules, failAt, k);
    }
  }

  /** One installed key after a feed sync. */
  lemma FeedSyncAt<K, V>(s: Maps<K, V>, rules: seq<(K, V)>, failAt: nat, k: K)
    requires k in s.entries
    ensures var accepted := Accepted(rules, failAt);
            var after := After(s, FeedSync(rules, failAt)).entries;
            if k in KeysOf(accepted) then k in PutAll(map[], accepted) && k in after && after[k] == PutAll(map[], accepted)[k]
            else if k in s.feedOwned then k !in after
            else k in after && after[k] == s.entries[k]
  {
    var accepted := Accepted(rules, failAt);
    PutAllKeys(s.entries, accepted);
    if k in KeysOf(accepted) { PutAllDecides(s.entries, accepted, k); }
  }

  lemma AcceptedKeys<K, V>(rules: seq<(K, V)>, failAt: nat)
    ensures KeysOf(Accepted(rules, failAt)) <= KeysOf(rules)
  {
    forall k | k in KeysOf(Accepted(rules, failAt)) ensures k in KeysOf(rules) {
      var i :| 0 <= i < |Accepted(rules, failAt)| && Accepted(rules, failAt)[i].0 == k;
      assert rules[i].0 == k;
    }
  }

  /** What a caller can check beforehand: static keys that neither the old nor the new feed has
      keep their rules, wherever the inserts fail. */
  lemma SeparateStaticRulesKept<K, V>(s: Maps<K, V>, rules: seq<(K, V)>, failAt: nat, statics: map<K, V>)
    requires statics.Keys <= s.entries.Keys && forall k <- statics :: statics[k] == s.entries[k]
    requires statics.Keys !! s.feedOwned + KeysOf(rules)
    ensures var after := After(s, FeedSync(rules, failAt)).entries;
            forall k <- statics :: k in after && after[k] == statics[k]
  {
    AcceptedKeys(rules, failAt);
    FeedSyncKeepsStaticRules(s, rules, failAt, statics);
  }

  /** And nothing less will do for every failure: a key the old feed has is lost when the first
      insert fails, a key the new feed has takes the feed's value when none does. */
  lemma SeparateIsNeeded<K, V>(s: Maps<K, V>, rules: seq<(K, V)>, statics: map<K, V>)
    requires statics.Keys <= s.entries.Keys && forall k <- statics :: statics[k] == s.entries[k]
    requires forall k <- statics :: k in PutAll(map[], rules) ==> PutAll(map[], rules)[k] != statics[k]
    ensures (forall failAt: nat, k :: k in statics ==>
               var after := After(s, FeedSync(rules, failAt)).entries; k in after && after[k] == statics[k])
            <==> statics.Keys !! s.feedOwned + KeysOf(rules)
  {
    if statics.Keys !! s.feedOwned + KeysOf(rules) {
      forall failAt: nat ensures var after := After(s, FeedSync(rules, failAt)).entries;
                                 forall k <- statics :: k in after && after[k] == statics[k]
      {
        SeparateStaticRulesKept(s, rules, failAt, statics);
      }
    } else {
      var k :| k in statics && k in s.feedOwned + KeysOf(rules);
      FeedSyncAt(s, rules, |rules|, k);
      FeedSyncAt(s, rules, 0, k);
    }
  }

  /** "Does not clobber static rules" fails when the sources overlap: a feed rule with the key of
      a static rule takes its place and its rule id. */
  lemma StaticRuleOverwritten<K, V>(k: K, ours: V, theirs: V)
    requires ours != theirs
    ensures var before := RunOf([StaticSync([(k, ours)], 1)]);
            k in before.entries && before.entries[k] == ours && k !in before.feedOwned
    ensures var after := RunOf([StaticSync([(k, ours)], 1), FeedSync([(k, theirs)], 1)]);
            k in after.entries && after.entries[k] == theirs != ours
  {
    var ops := [StaticSync([(k, ours)], 1), FeedSync([(k, theirs)], 1)];
    assert ops[..1] == [StaticSync([(k, ours)], 1)];
    assert [StaticSync([(k, ours)], 1)][..0] == [];
    var r, first := (k, theirs), (k, ours);
    assert r in [r] && k in KeysOf([r]) && first in [first] && k in KeysOf([first]);
    PutAllKeys(map[], [first]);
    FeedSyncAt(RunOf(ops[..1]), [r], 1, k);
  }

  /** And a static rule whose key the feed once listed disappears with the feed's copy. */
  lemma StaticRuleLost<K, V>(k: K, ours: V, theirs: V)
    ensures k in RunOf([StaticSync([(k, ours)], 1)]).entries
    ensures k !in RunOf([StaticSync([(k, ours)], 1), FeedSync([(k, theirs)], 1), FeedSync([], 0)]).entries
  {
    var ops := [StaticSync([(k, ours)], 1), FeedSync([(k, theirs)], 1), FeedSync([], 0)];
    assert ops[..2] == [StaticSync([(k, ours)], 1), FeedSync([(k, theirs)], 1)];
    assert ops[..2][..1] == [StaticSync([(k, ours)], 1)];
    var r := (k, theirs);
    assert r in [r] && KeysOf([r]) == {k};
    assert RunOf(ops[..2]).feedOwned == {k};
    assert KeysOf<K, V>([]) == {};
    var first := (k, ours);
    assert first in [first] && k in KeysOf([first]);
    PutAllKeys(map[], [first]);
    assert [StaticSync([(k, ours)], 1)][..0] == [];
  }

  // ----- separate sources ------------------------------------------------------------------------

  lemma {:induction false} PutAllDecides<K, V>(m: map<K, V>, rules: seq<(K, V)>, k: K)
    requires k in KeysOf(rules)
    ensures k in PutAll(m, rules) && k in PutAll(map[], rules) && PutAll(m, rules)[k] == PutAll(map[], rules)[k]
  {
    var n := |rules| - 1;
    if k != rules[n].0 {
      assert k in KeysOf(rules[..n]) by {
        var i :| 0 <= i < |rules| && rules[i].0 == k;
        assert rules[..n][i].0 == k;
      }
      PutAllDecides(m, rules[..n], k);
    }
  }

  ghost function LatestStatic<K, V>(ops: seq<Sync<K, V>>): seq<(K, V)> {
    if ops == [] then [] else
    var op := ops[|ops| - 1];
    if op.StaticSync? then op.rules else LatestStatic(ops[..|ops| - 1])
  }

  ghost function LatestFeed<K, V>(ops: seq<Sync<K, V>>): seq<(K, V)> {
    if ops == [] then [] else
    var op := ops[|ops| - 1];
    if op.FeedSync? then op.rules else LatestFeed(ops[..|ops| - 1])
  }

  ghost predicate NoFailures<K, V>(ops: seq<Sync<K, V>>) {
    forall i :: 0 <= i < |ops| ==> ops[i].failAt >= |ops[i].rules|
  }

  /** At every moment of the run, the latest static and the latest feed rules share no key. */
  ghost predicate Separate<K, V>(ops: seq<Sync<K, V>>) {
    forall n :: 0 <= n <= |ops| ==> KeysOf(LatestStatic(ops[..n])) !! KeysOf(LatestFeed(ops[..n]))
  }

  ghost function Union<K, V>(statics: seq<(K, V)>, feed: seq<(K, V)>): map<K, V> {
    PutAll(PutAll(map[], statics), feed)
  }

  lemma UnionKeys<K, V>(statics: seq<(K, V)>, feed: seq<(K, V)>)
    ensures Union(statics, feed).Keys == KeysOf(statics) + KeysOf(feed)
  {
    PutAllKeys(map[], statics);
    PutAllKeys(PutAll(map[], statics), feed);
  }

  lemma UnionAt<K, V>(statics: seq<(K, V)>, feed: seq<(K, V)>, k: K)
    requires KeysOf(statics) !! KeysOf(feed)
    ensures k in Union(statics, feed) <==> k in KeysOf(statics) || k in KeysOf(feed)
    ensures k in KeysOf(statics) ==> k in PutAll(map[], statics) && Union(statics, feed)[k] == PutAll(map[], statics)[k]
    ensures k in KeysOf(feed) ==> k in PutAll(map[], feed) && Union(statics, feed)[k] == PutAll(map[], feed)[k]
  {
    PutAllKeys(map[], statics);
    PutAllKeys(PutAll(map[], statics), feed);
    if k in KeysOf(feed) { PutAllDecides(PutAll(map[], statics), feed, k); }
  }

  lemma StaticReplaces<K, V>(statics: seq<(K, V)>, feed: seq<(K, V)>, rules: seq<(K, V)>)
    requires KeysOf(statics) !! KeysOf(feed) && KeysOf(rules) !! KeysOf(feed)
    ensures StaticSynced(Union(statics, feed), KeysOf(feed), rules) == Union(rules, feed)
  {
    var m := Union(statics, feed);
    PutAllKeys(m, rules);
    var result, expected := StaticSynced(m, KeysOf(feed), rules), Union(rules, feed);
    UnionKeys(statics, feed);
    UnionKeys(rules, feed);
    assert result.Keys == expected.Keys;
    forall k | k in expected ensures result[k] == expected[k] {
      UnionAt(statics, feed, k);
      UnionAt(rules, feed, k);
      if k in KeysOf(rules) { PutAllDecides(m, rules, k); }
    }
  }

  lemma FeedReplaces<K, V>(statics: seq<(K, V)>, feed: seq<(K, V)>, rules: seq<(K, V)>)
    requires KeysOf(statics) !! KeysOf(feed) && KeysOf(statics) !! KeysOf(rules)
    ensures FeedSynced(Union(statics, feed), KeysOf(feed), rules) == Union(statics, rules)
  {
    var m := Union(statics, feed);
    PutAllKeys(m, rules);
    var result, expected := FeedSynced(m, KeysOf(feed), rules), Union(statics, rules);
    UnionKeys(statics, feed);
    UnionKeys(statics, rules);
    assert result.Keys == expected.Keys;
    forall k | k in expected ensures result[k] == expected[k] {
      UnionAt(statics, feed, k);
      UnionAt(statics, rules, k);
      if k in KeysOf(rules) { PutAllDecides(m, rules, k); }
    }
  }

  /** With separate sources and no failures, the map is the latest static rules and the latest
      feed rules, keys and values, after every run. */
  lemma {:induction false} UnionOfLatest<K, V>(ops: seq<Sync<K, V>>)
    requires NoFailures(ops) && Separate(ops)
    ensures RunOf(ops) == Maps(Union(LatestStatic(ops), LatestFeed(ops)), KeysOf(LatestFeed(ops)))
  {
    if ops != [] {
      var n := |ops| - 1;
      var before, op := ops[..n], ops[n];
      assert ops[..n + 1] == ops;
      assert forall k :: 0 <= k <= n ==> before[..k] == ops[..k];
      assert Separate(before);
      UnionOfLatest(before);
      assert KeysOf(LatestStatic(ops[..n])) !! KeysOf(LatestFeed(ops[..n]));
      assert KeysOf(LatestStatic(ops[..n + 1])) !! KeysOf(LatestFeed(ops[..n + 1]));
      if op.StaticSync? {
        StaticReplaces(LatestStatic(before), LatestFeed(before), op.rules);
      } else {
        FeedReplaces(LatestStatic(before), LatestFeed(before), op.rules);
      }
    }
  }
}
