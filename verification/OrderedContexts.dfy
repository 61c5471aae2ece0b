/** The streaming context builder over contributions that RocksDB keeps sorted by key. */
module OrderedContexts {
  import opened Bits
  import opened Targets
  import opened Keys
  import opened Outcomes
  import opened Lists
  import opened Contexts

  type Row = (seq<Byte>, seq<Byte>)

  /** Contribution key: the target's key followed by the 8-byte import sequence. */
  function ContributionKey(t: Target, sequence: nat): seq<Byte> {
    ContextKey(t) + ToBe(sequence, 8)
  }

  function ContributionValue(e: Entry): seq<Byte> {
    ToBe(e.metadataId, 4) + ToBe(e.line, 4)
  }

  function RowOfEntry(e: Entry, sequence: nat): Row {
    (ContributionKey(e.target, sequence), ContributionValue(e))
  }

  /** What the import leaves in the contributions column family, entries numbered in order. */
  function Contributions(entries: seq<Entry>): map<seq<Byte>, seq<Byte>> {
    PutAll(map[], Numbered(RowOfEntry, entries, 0))
  }

  // ----- rows are entries ----------------------------------------------------------

  predicate RowIs(row: Row, entries: seq<Entry>, i: nat) {
    i < |entries| && row == RowOfEntry(entries[i], i)
  }

  lemma ContributionKeyInjective(t: Target, i: nat, u: Target, j: nat)
    requires t.Valid() && u.Valid() && i < Pow2(64) && j < Pow2(64) && ContributionKey(t, i) == ContributionKey(u, j)
    ensures t == u && i == j
  {
    var k := ContributionKey(t, i);
    assert ContextKey(t) == k[..|k| - 8] && ContextKey(u) == k[..|k| - 8];
    assert ToBe(i, 8) == k[|k| - 8..] && ToBe(j, 8) == k[|k| - 8..];
    KeyPrefixFree(t, u);
    BeRoundTrip(i, 8);
    BeRoundTrip(j, 8);
  }

  lemma ContributionHolds(entries: seq<Entry>, i: nat)
    requires ValidEntries(entries) && i < |entries|
    ensures ContributionKey(entries[i].target, i) in Contributions(entries)
  {
    var rows := Numbered(RowOfEntry, entries, 0);
    forall j | i < j < |rows| ensures rows[j].0 != rows[i].0 {
      assert entries[i] in entries && entries[j] in entries;
      if rows[j].0 == rows[i].0 { ContributionKeyInjective(entries[i].target, i, entries[j].target, j); }
    }
    PutAllHolds(map[], rows, i);
  }

  lemma ContributionSource(entries: seq<Entry>, k: seq<Byte>) returns (i: nat)
    requires k in Contributions(entries)
    ensures RowIs((k, Contributions(entries)[k]), entries, i)
  {
    i := PutAllSource(Numbered(RowOfEntry, entries, 0), k);
  }

  // ----- byte order ------------------------------------------------------------------

  lemma {:induction false} LexLessSamePrefix(p: seq<Byte>, a: seq<Byte>, b: seq<Byte>)
    ensures LexLess(p + a, p + b) <==> LexLess(a, b)
  {
    if p == [] {
      assert p + a == a && p + b == b;
    } else {
      assert (p + a)[1..] == p[1..] + a && (p + b)[1..] == p[1..] + b;
      LexLessSamePrefix(p[1..], a, b);
    }
  }

  lemma {:induction false} LexBetween(p: seq<Byte>, a: seq<Byte>, k: seq<Byte>, b: seq<Byte>)
    requires LexLess(p + a, k) && LexLess(k, p + b)
    ensures p <= k
  {
    if p != [] {
      LexHeads(p, a, k, b);
      LexBetween(p[1..], a, k[1..], b);
      PrefixCons(p, k);
    }
  }

  lemma LexHeads(p: seq<Byte>, a: seq<Byte>, k: seq<Byte>, b: seq<Byte>)
    requires p != [] && LexLess(p + a, k) && LexLess(k, p + b)
    ensures k != [] && k[0] == p[0] && LexLess(p[1..] + a, k[1..]) && LexLess(k[1..], p[1..] + b)
  {
    TailConcat(p, a);
    TailConcat(p, b);
  }

  lemma PrefixCons(p: seq<Byte>, k: seq<Byte>)
    requires p != [] && k != [] && p[0] == k[0] && p[1..] <= k[1..]
    ensures p <= k
  {
    forall i | 0 <= i < |p| ensures p[i] == k[i] {
      if i > 0 { assert p[1..][i - 1] == k[1..][i - 1]; }
    }
  }

  /** Keys of one target are contiguous in byte order, and ordered by sequence number. */
  lemma ContiguousKeys(t: Target, i: nat, u: Target, j: nat, k: nat)
    requires t.Valid() && u.Valid()
    requires LexLess(ContributionKey(t, i), ContributionKey(u, j)) && LexLess(ContributionKey(u, j), ContributionKey(t, k))
    ensures t == u
  {
    LexBetween(ContextKey(t), ToBe(i, 8), ContributionKey(u, j), ToBe(k, 8));
    assert ContextKey(t)[0] == ContextKey(u)[0];
    assert ContextKey(t) == ContributionKey(u, j)[..|ContextKey(t)|] == ContextKey(u);
    KeyPrefixFree(t, u);
  }

  lemma SequenceOrder(t: Target, i: nat, j: nat)
    requires i < Pow2(64) && j < Pow2(64) && LexLess(ContributionKey(t, i), ContributionKey(t, j))
    ensures i < j
  {
    LexLessSamePrefix(ContextKey(t), ToBe(i, 8), ToBe(j, 8));
    LexLessIsNumeric(ToBe(i, 8), ToBe(j, 8));
    BeRoundTrip(i, 8);
    BeRoundTrip(j, 8);
  }

  // ----- folding chosen entries ----------------------------------------------------------

  /** Every position names an entry. */
  predicate Within(at: seq<nat>, entries: seq<Entry>) {
    forall j :: 0 <= j < |at| ==> at[j] < |entries|
  }

  predicate Registered(meta: map<nat, Origin>, entries: seq<Entry>) {
    forall i :: 0 <= i < |entries| ==> entries[i].metadataId in meta
  }

  /** Record the entries at the given positions, in the given order. */
  function Fold(meta: map<nat, Origin>, entries: seq<Entry>, at: seq<nat>): Context
    requires Within(at, entries) && Registered(meta, entries)
  {
    if at == [] then EMPTY else
    var e := entries[at[|at| - 1]];
    Fold(meta, entries, at[..|at| - 1]).Record(meta[e.metadataId], e.line)
  }

  predicate Increasing(s: seq<nat>) {
    forall i, j :: 0 <= i < j < |s| ==> s[i] < s[j]
  }

  /** Positions of the entries for `t`, in entry order. */
  function Positions(entries: seq<Entry>, t: Target): (at: seq<nat>)
    ensures Within(at, entries) && Increasing(at)
    ensures forall i: nat :: i in at <==> i < |entries| && entries[i].target == t
  {
    if entries == [] then [] else
    var n := |entries| - 1;
    var before := Positions(entries[..n], t);
    if entries[n].target == t then before + [n] else before
  }

  lemma {:induction false} FoldPrefix(meta: map<nat, Origin>, a: seq<Entry>, b: seq<Entry>, at: seq<nat>)
    requires Registered(meta, a) && Registered(meta, b) && Within(at, a) && Within(at, b) && a <= b
    ensures Fold(meta, a, at) == Fold(meta, b, at)
  {
    if at != [] {
      assert a[at[|at| - 1]] == b[at[|at| - 1]];
      FoldPrefix(meta, a, b, at[..|at| - 1]);
    }
  }

  lemma {:induction false} ContextIsFold(meta: map<nat, Origin>, entries: seq<Entry>, t: Target)
    requires Registered(meta, entries)
    ensures ContextOf(meta, entries, t) == Fold(meta, entries, Positions(entries, t))
  {
    if entries != [] {
      var n := |entries| - 1;
      var before := entries[..n];
      ContextIsFold(meta, before, t);
      FoldPrefix(meta, before, entries, Positions(before, t));
      if entries[n].target == t {
        assert Positions(entries, t)[..|Positions(before, t)|] == Positions(before, t);
      }
    }
  }

  // ----- the streaming pass -----------------------------------------------------------------

  /** `at[j]` is the position of the entry behind `rows[j]`. */
  ghost predicate Behind(rows: seq<Row>, entries: seq<Entry>, at: seq<nat>) {
    && |at| == |rows| && Within(at, entries)
    && forall j :: 0 <= j < |rows| ==> RowIs(rows[j], entries, at[j])
  }

  lemma {:induction false} RowPositions(rows: seq<Row>, entries: seq<Entry>) returns (at: seq<nat>)
    requires forall j :: 0 <= j < |rows| ==>
               rows[j].0 in Contributions(entries) && rows[j].1 == Contributions(entries)[rows[j].0]
    ensures Behind(rows, entries, at)
  {
    if rows == [] {
      at := [];
    } else {
      var n := |rows| - 1;
      at := RowPositions(rows[..n], entries);
      var i := ContributionSource(entries, rows[n].0);
      BehindNext(rows, entries, at, i);
      at := at + [i];
    }
  }

  lemma BehindNext(rows: seq<Row>, entries: seq<Entry>, at: seq<nat>, i: nat)
    requires rows != [] && Behind(rows[..|rows| - 1], entries, at) && RowIs(rows[|rows| - 1], entries, i)
    ensures Behind(rows, entries, at + [i])
  {
  }

  lemma EntryHasRow(rows: seq<Row>, entries: seq<Entry>, at: seq<nat>, i: nat)
    requires ValidEntries(entries) && Iterates(LexLess, rows, Contributions(entries)) && i < |entries| && Behind(rows, entries, at)
    ensures i in at
  {
    var k := ContributionKey(entries[i].target, i);
    ContributionHolds(entries, i);
    var j :| 0 <= j < |rows| && rows[j].0 == k;
    assert RowIs(rows[j], entries, at[j]);
    assert entries[i] in entries && entries[at[j]] in entries;
    ContributionKeyInjective(entries[i].target, i, entries[at[j]].target, at[j]);
  }

  /** Of the positions `at`, those whose entry is for `t`. */
  function Chosen(entries: seq<Entry>, at: seq<nat>, t: Target): (chosen: seq<nat>)
    requires Within(at, entries)
    ensures Within(chosen, entries)
    ensures forall i: nat :: i in chosen <==> i in at && entries[i].target == t
  {
    if at == [] then [] else
    var n := |at| - 1;
    assert at == at[..n] + [at[n]];
    var before := Chosen(entries, at[..n], t);
    if entries[at[n]].target == t then before + [at[n]] else before
  }

  ghost predicate InRuns(entries: seq<Entry>, at: seq<nat>)
    requires Within(at, entries)
  {
    && (forall i, j :: 0 <= i < j < |at| && entries[at[i]].target == entries[at[j]].target ==> at[i] < at[j])
    && (forall i, j, k :: 0 <= i < j < k < |at| && entries[at[i]].target == entries[at[k]].target ==>
          entries[at[j]].target == entries[at[i]].target)
  }

  /** Rows of a sorted cursor: same-target rows ascend, and no target comes back after another. */
  lemma SortedRowsAreGrouped(rows: seq<Row>, entries: seq<Entry>, at: seq<nat>)
    requires ValidEntries(entries) && Behind(rows, entries, at)
    requires forall i, j :: 0 <= i < j < |rows| ==> LexLess(rows[i].0, rows[j].0)
    ensures InRuns(entries, at)
  {
    forall j | 0 <= j < |at|
      ensures entries[at[j]].target.Valid() && rows[j].0 == ContributionKey(entries[at[j]].target, at[j])
    {
      assert RowIs(rows[j], entries, at[j]) && entries[at[j]] in entries;
    }
    forall i, j | 0 <= i < j < |at| && entries[at[i]].target == entries[at[j]].target ensures at[i] < at[j] {
      assert LexLess(rows[i].0, rows[j].0);
      SequenceOrder(entries[at[i]].target, at[i], at[j]);
    }
    forall i, j, k | 0 <= i < j < k < |at| && entries[at[i]].target == entries[at[k]].target
      ensures entries[at[j]].target == entries[at[i]].target
    {
      assert LexLess(rows[i].0, rows[j].0) && LexLess(rows[j].0, rows[k].0);
      ContiguousKeys(entries[at[i]].target, at[i], entries[at[j]].target, at[j], at[k]);
    }
  }

  lemma {:induction false} ChosenIncreasing(entries: seq<Entry>, at: seq<nat>, t: Target)
    requires Within(at, entries) && InRuns(entries, at)
    ensures Increasing(Chosen(entries, at, t))
  {
    if at != [] {
      var n := |at| - 1;
      var before := at[..n];
      ChosenIncreasing(entries, before, t);
      if entries[at[n]].target == t {
        var chosen := Chosen(entries, before, t);
        forall k | 0 <= k < |chosen| ensures chosen[k] < at[n] {
          assert chosen[k] in chosen;
          var j :| 0 <= j < n && at[j] == chosen[k];
        }
      }
    }
  }

  /** The rows of a target, as the cursor meets them, are its entries in entry order. */
  lemma ChosenIsPositions(entries: seq<Entry>, at: seq<nat>, t: Target)
    requires Within(at, entries) && InRuns(entries, at) && forall i :: 0 <= i < |entries| ==> i in at
    ensures Chosen(entries, at, t) == Positions(entries, t)
  {
    ChosenIncreasing(entries, at, t);
    AscendingUnique((i: nat) => i, Chosen(entries, at, t), Positions(entries, t));
  }

  lemma ChosenSnoc(entries: seq<Entry>, at: seq<nat>, i: nat, t: Target)
    requires Within(at, entries) && i < |entries|
    ensures Chosen(entries, at + [i], t) == Chosen(entries, at, t) + (if entries[i].target == t then [i] else [])
  {
    assert (at + [i])[..|at|] == at;
  }

  lemma FoldSnoc(meta: map<nat, Origin>, entries: seq<Entry>, at: seq<nat>, i: nat)
    requires Within(at, entries) && Registered(meta, entries) && i < |entries|
    ensures Fold(meta, entries, at + [i]) == Fold(meta, entries, at).Record(meta[entries[i].metadataId], entries[i].line)
  {
    assert (at + [i])[..|at|] == at;
  }

  /** The target being read: its key, and the fold of its rows so far. */
  ghost predicate Open(meta: map<nat, Origin>, entries: seq<Entry>, at: seq<nat>, current: seq<Byte>, context: Context)
    requires Within(at, entries) && Registered(meta, entries)
  {
    if at == [] then current == []
    else var t := entries[at[|at| - 1]].target;
         current == ContextKey(t) && context == Fold(meta, entries, Chosen(entries, at, t))
  }

  /** Everything seen, except the target still open, has been written. */
  ghost predicate Written(meta: map<nat, Origin>, entries: seq<Entry>, at: seq<nat>,
                          store: map<seq<Byte>, Context>, current: seq<Byte>)
    requires Within(at, entries) && Registered(meta, entries)
  {
    forall t: Target :: t.Valid() ==>
      && (ContextKey(t) in store <==> ContextKey(t) != current && Chosen(entries, at, t) != [])
      && (ContextKey(t) in store ==> store[ContextKey(t)] == Fold(meta, entries, Chosen(entries, at, t)))
  }

  function Emit(store: map<seq<Byte>, Context>, current: seq<Byte>, context: Context): map<seq<Byte>, Context> {
    if current == [] then store else store[current := context]
  }

  predicate ValidTargets(entries: seq<Entry>) {
    forall i :: 0 <= i < |entries| ==> entries[i].target.Valid()
  }

  /** Another row of the open target. */
  lemma SameTargetStep(meta: map<nat, Origin>, entries: seq<Entry>, at: seq<nat>, i: nat,
                       store: map<seq<Byte>, Context>, current: seq<Byte>, context: Context)
    requires Within(at, entries) && Registered(meta, entries) && i < |entries| && ValidTargets(entries)
    requires Open(meta, entries, at, current, context) && Written(meta, entries, at, store, current)
    requires current == ContextKey(entries[i].target)
    ensures Within(at + [i], entries) && Written(meta, entries, at + [i], store, current)
    ensures Open(meta, entries, at + [i], current, context.Record(meta[entries[i].metadataId], entries[i].line))
  {
    var t := entries[i].target;
    KeyPrefixFree(t, entries[at[|at| - 1]].target);
    ChosenSnoc(entries, at, i, t);
    FoldSnoc(meta, entries, Chosen(entries, at, t), i);
    forall u: Target | u.Valid() && u != t
      ensures Chosen(entries, at + [i], u) == Chosen(entries, at, u)
    {
      ChosenSnoc(entries, at, i, u);
    }
  }

  /** The first row of the next target: the open one is written out, never to be seen again. */
  lemma NewTargetStep(meta: map<nat, Origin>, entries: seq<Entry>, at: seq<nat>, i: nat,
                      store: map<seq<Byte>, Context>, current: seq<Byte>, context: Context)
    requires Within(at, entries) && Registered(meta, entries) && i < |entries| && ValidTargets(entries)
    requires Open(meta, entries, at, current, context) && Written(meta, entries, at, store, current)
    requires Within(at + [i], entries) && InRuns(entries, at + [i]) && current != ContextKey(entries[i].target)
    ensures Written(meta, entries, at + [i], Emit(store, current, context), ContextKey(entries[i].target))
    ensures Open(meta, entries, at + [i], ContextKey(entries[i].target),
                 EMPTY.Record(meta[entries[i].metadataId], entries[i].line))
  {
    var t := entries[i].target;
    NewTargetIsUnseen(entries, at, i);
    ChosenSnoc(entries, at, i, t);
    FoldSnoc(meta, entries, [], i);
    assert [] + [i] == [i];
    CloseTarget(meta, entries, at, store, current, context);
    OpenTarget(meta, entries, at, i, Emit(store, current, context));
  }

  lemma OpenTarget(meta: map<nat, Origin>, entries: seq<Entry>, at: seq<nat>, i: nat, store: map<seq<Byte>, Context>)
    requires Within(at, entries) && Registered(meta, entries) && i < |entries| && ValidTargets(entries)
    requires Written(meta, entries, at, store, []) && Chosen(entries, at, entries[i].target) == []
    ensures Within(at + [i], entries) && Written(meta, entries, at + [i], store, ContextKey(entries[i].target))
  {
    var t := entries[i].target;
    forall u: Target | u.Valid()
      ensures ContextKey(u) == ContextKey(t) ==> u == t
      ensures u != t ==> Chosen(entries, at + [i], u) == Chosen(entries, at, u)
    {
      if ContextKey(u) == ContextKey(t) { KeyPrefixFree(u, t); }
      ChosenSnoc(entries, at, i, u);
    }
  }

  /** Writing out the open target completes the index of everything seen. */
  lemma CloseTarget(meta: map<nat, Origin>, entries: seq<Entry>, at: seq<nat>,
                    store: map<seq<Byte>, Context>, current: seq<Byte>, context: Context)
    requires Within(at, entries) && Registered(meta, entries) && ValidTargets(entries)
    requires Open(meta, entries, at, current, context) && Written(meta, entries, at, store, current)
    ensures Written(meta, entries, at, Emit(store, current, context), [])
  {
    if at != [] {
      var last := at[|at| - 1];
      var t := entries[last].target;
      assert last in at && last in Chosen(entries, at, t);
      forall u: Target | u.Valid() && ContextKey(u) == current ensures u == t { KeyPrefixFree(u, t); }
    }
  }

  lemma NewTargetIsUnseen(entries: seq<Entry>, at: seq<nat>, i: nat)
    requires Within(at, entries) && i < |entries| && Within(at + [i], entries) && InRuns(entries, at + [i])
    requires at == [] || entries[at[|at| - 1]].target != entries[i].target
    ensures Chosen(entries, at, entries[i].target) == []
  {
    var t, next := entries[i].target, at + [i];
    var chosen := Chosen(entries, at, t);
    assert |chosen| > 0 ==> chosen[0] in chosen;
    forall j | 0 <= j < |at| ensures entries[at[j]].target != t {
      assert next[j] == at[j];
      NotBefore(entries, next, j);
    }
  }

  /** Where the target changes, it changes to one no earlier row has. */
  lemma NotBefore(entries: seq<Entry>, at: seq<nat>, j: nat)
    requires Within(at, entries) && InRuns(entries, at) && j + 1 < |at|
    requires entries[at[|at| - 2]].target != entries[at[|at| - 1]].target
    ensures entries[at[j]].target != entries[at[|at| - 1]].target
  {
  }

  // ----- `build_ordered_contexts` ----------------------------------------------------------

  predicate WellFormedRow(row: Row) {
    var len := if |row.0| >= 8 then |row.0| - 8 else 0;
    && |row.1| == 8 && |row.0| > 0
    && (row.0[0], len) in {(1, 5), (2, 17), (3, 6), (4, 18)}
  }

  lemma RowOf(entries: seq<Entry>, row: Row, i: nat)
    requires ValidEntries(entries) && RowIs(row, entries, i)
    ensures WellFormedRow(row) && row.0[..|row.0| - 8] == ContextKey(entries[i].target)
    ensures FromBe(row.1[..4]) == entries[i].metadataId && FromBe(row.1[4..8]) == entries[i].line
  {
    assert entries[i] in entries;
    ValueFields(row.1, entries[i]);
  }

  lemma ValueFields(value: seq<Byte>, e: Entry)
    requires e.Valid() && value == ContributionValue(e)
    ensures |value| == 8 && FromBe(value[..4]) == e.metadataId && FromBe(value[4..8]) == e.line
  {
    assert value[..4] == ToBe(e.metadataId, 4) && value[4..8] == ToBe(e.line, 4);
    BeRoundTrip(e.metadataId, 4);
    BeRoundTrip(e.line, 4);
  }

  ghost predicate Streaming(meta: map<nat, Origin>, entries: seq<Entry>, at: seq<nat>,
                            store: map<seq<Byte>, Context>, current: seq<Byte>, context: Context) {
    Within(at, entries) && Registered(meta, entries) ==>
      Open(meta, entries, at, current, context) && Written(meta, entries, at, store, current)
  }

  lemma StreamStep(meta: map<nat, Origin>, entries: seq<Entry>, at: seq<nat>, i: nat,
                   store: map<seq<Byte>, Context>, current: seq<Byte>, context: Context)
    requires i < |at| && Within(at, entries) && InRuns(entries, at) && ValidTargets(entries)
    requires Streaming(meta, entries, at[..i], store, current, context) && entries[at[i]].metadataId in meta
    ensures var e := entries[at[i]];
            var same := current == ContextKey(e.target);
            Streaming(meta, entries, at[..i + 1], if same then store else Emit(store, current, context), ContextKey(e.target),
                      (if same then context else EMPTY).Record(meta[e.metadataId], e.line))
  {
    assert at[..i + 1] == at[..i] + [at[i]];
    if Registered(meta, entries) {
      if current == ContextKey(entries[at[i]].target) {
        SameTargetStep(meta, entries, at[..i], at[i], store, current, context);
      } else {
        NewTargetStep(meta, entries, at[..i], at[i], store, current, context);
      }
    }
  }

  lemma StreamEnd(meta: map<nat, Origin>, entries: seq<Entry>, at: seq<nat>,
                  store: map<seq<Byte>, Context>, current: seq<Byte>, context: Context)
    requires Within(at, entries) && InRuns(entries, at) && ValidTargets(entries)
    requires Streaming(meta, entries, at, store, current, context) && forall i :: 0 <= i < |entries| ==> i in at
    requires forall j :: 0 <= j < |at| ==> entries[at[j]].metadataId in meta
    ensures Registered(meta, entries) && StoreIs(Emit(store, current, context), meta, entries)
  {
    forall i | 0 <= i < |entries| ensures entries[i].metadataId in meta {
      assert i in at;
    }
    CloseTarget(meta, entries, at, store, current, context);
    StreamedStoreIs(meta, entries, at, Emit(store, current, context));
  }

  /** One row: close the last target if this one is new, and record the contribution. */
  method StreamRow(meta: map<nat, Origin>, row: Row, store: map<seq<Byte>, Context>, current: seq<Byte>, context: Context,
                   ghost entries: seq<Entry>, ghost at: seq<nat>, ghost i: nat)
    returns (ok: bool, store': map<seq<Byte>, Context>, current': seq<Byte>, context': Context)
    requires ValidEntries(entries) && Within(at, entries) && InRuns(entries, at) && ValidTargets(entries)
    requires i < |at| && RowIs(row, entries, at[i]) && Streaming(meta, entries, at[..i], store, current, context)
    ensures ok <==> entries[at[i]].metadataId in meta
    ensures ok ==> Streaming(meta, entries, at[..i + 1], store', current', context')
  {
    store', current', context' := store, current, context;
    RowOf(entries, row, at[i]);
    if !WellFormedRow(row) {
      return false, store, current, context;
    }
    var target := row.0[..|row.0| - 8];
    var metadataId, line := FromBe(row.1[..4]), FromBe(row.1[4..8]);
    ok := metadataId in meta;
    if ok {
      StreamStep(meta, entries, at, i, store, current, context);
      if current != target {
        store' := Emit(store, current, context);
        context' := EMPTY;
        current' := target;
      }
      context' := context'.Record(meta[metadataId], line);
    }
  }

  lemma NotRegistered(meta: map<nat, Origin>, entries: seq<Entry>, at: seq<nat>, i: nat)
    requires Within(at, entries) && i < |at| && entries[at[i]].metadataId !in meta
    ensures !Registered(meta, entries)
  {
    assert entries[at[i]] in entries;
  }

  /** Every row so far had registered metadata. */
  ghost predicate KnownUpTo(meta: map<nat, Origin>, entries: seq<Entry>, at: seq<nat>, n: nat)
    requires Within(at, entries) && n <= |at|
  {
    forall j :: 0 <= j < n ==> entries[at[j]].metadataId in meta
  }

  lemma AllKnown(meta: map<nat, Origin>, entries: seq<Entry>, at: seq<nat>)
    requires Within(at, entries) && KnownUpTo(meta, entries, at, |at|) && forall i :: 0 <= i < |entries| ==> i in at
    ensures Registered(meta, entries)
  {
    forall i | 0 <= i < |entries| ensures entries[i].metadataId in meta {
      assert i in at;
      var j :| 0 <= j < |at| && at[j] == i;
      assert entries[at[j]].metadataId in meta;
    }
  }

  /** The visitor loop, over rows known to come from `entries` in grouped order. */
  method VisitRows(meta: map<nat, Origin>, rows: seq<Row>, ghost entries: seq<Entry>, ghost at: seq<nat>)
    returns (ok: bool, store: map<seq<Byte>, Context>, current: seq<Byte>, context: Context)
    requires ValidEntries(entries) && Behind(rows, entries, at) && InRuns(entries, at) && ValidTargets(entries)
    ensures ok ==> KnownUpTo(meta, entries, at, |at|) && Streaming(meta, entries, at, store, current, context)
    ensures !ok ==> !Registered(meta, entries)
  {
    store, current, context, ok := map[], [], EMPTY, true;
    for i := 0 to |rows|
      invariant KnownUpTo(meta, entries, at, i)
      invariant Streaming(meta, entries, at[..i], store, current, context)
    {
      ok, store, current, context := StreamRow(meta, rows[i], store, current, context, entries, at, i);
      if !ok {
        NotRegistered(meta, entries, at, i);
        return;
      }
    }
    ok := true;
    assert at[..|rows|] == at;
  }

  method StreamRows(meta: map<nat, Origin>, rows: seq<Row>, ghost entries: seq<Entry>, ghost at: seq<nat>)
    returns (result: Result<map<seq<Byte>, Context>>)
    requires ValidEntries(entries) && Behind(rows, entries, at) && InRuns(entries, at) && ValidTargets(entries)
    requires forall i :: 0 <= i < |entries| ==> i in at
    ensures result.Ok? <==> Registered(meta, entries)
    ensures result.Ok? ==> StoreIs(result.value, meta, entries)
  {
    var ok, store, current, context := VisitRows(meta, rows, entries, at);
    if !ok {
      return Err;
    }
    AllKnown(meta, entries, at);
    StreamEnd(meta, entries, at, store, current, context);
    return Ok(Emit(store, current, context));
  }

  /** `build_ordered_contexts`: one pass over the sorted contributions gives every target its
      entry-order context; an unregistered metadata id fails the build, and nothing else does. */
  method BuildOrderedContexts(meta: map<nat, Origin>, rows: seq<Row>, ghost entries: seq<Entry>)
    returns (result: Result<map<seq<Byte>, Context>>)
    requires ValidEntries(entries) && Iterates(LexLess, rows, Contributions(entries))
    ensures result.Ok? <==> Registered(meta, entries)
    ensures result.Ok? ==> StoreIs(result.value, meta, entries)
  {
    ghost var at := RowPositions(rows, entries);
    CursorMeetsEveryEntry(rows, entries, at);
    result := StreamRows(meta, rows, entries, at);
  }

  lemma CursorMeetsEveryEntry(rows: seq<Row>, entries: seq<Entry>, at: seq<nat>)
    requires ValidEntries(entries) && Iterates(LexLess, rows, Contributions(entries)) && Behind(rows, entries, at)
    ensures InRuns(entries, at) && ValidTargets(entries) && forall i :: 0 <= i < |entries| ==> i in at
  {
    SortedRowsAreGrouped(rows, entries, at);
    forall i | 0 <= i < |entries| ensures i in at && entries[i].target.Valid() {
      EntryHasRow(rows, entries, at, i);
      assert entries[i] in entries;
    }
  }

  lemma StreamedStoreIs(meta: map<nat, Origin>, entries: seq<Entry>, at: seq<nat>, store: map<seq<Byte>, Context>)
    requires Within(at, entries) && Registered(meta, entries) && InRuns(entries, at)
    requires (forall i :: 0 <= i < |entries| ==> i in at) && Written(meta, entries, at, store, [])
    ensures StoreIs(store, meta, entries)
  {
    forall t: Target | t.Valid()
      ensures ContextKey(t) in store <==> Mentioned(meta, entries, t)
      ensures ContextKey(t) in store ==> store[ContextKey(t)] == ContextOf(meta, entries, t)
    {
      ChosenIsPositions(entries, at, t);
      ContextIsFold(meta, entries, t);
      var found := Positions(entries, t);
      if found != [] {
        assert found[0] in found;
        assert entries[found[0]] in entries;
      }
      if Mentioned(meta, entries, t) {
        var e :| e in entries && e.target == t;
        var i :| 0 <= i < |entries| && entries[i] == e;
        assert i in found;
      }
    }
  }
}
