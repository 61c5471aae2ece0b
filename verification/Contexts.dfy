/** The file/line/category context of every target, built three ways: hash grouping in RAM,
    batched read-modify-write on disk, and one streaming pass over byte-sorted contributions. */
module Contexts {
  import opened Bits
  import opened Targets
  import opened Keys
  import opened Lists
  import opened Outcomes

  datatype Category = Abuse | Attacks | Malware | Spam | Proxy | Botnet | Unroutable | Anonymizers | Other

  /** The per-file part of the metadata that contexts need. */
  datatype Origin = Origin(category: Category, file: string)

  datatype Entry = Entry(target: Target, ruleId: nat, metadataId: nat, line: nat) {
    predicate Valid() {
      target.Valid() && ruleId < Pow2(32) && metadataId < Pow2(32) && line < Pow2(32)
    }
  }

  predicate ValidEntries(entries: seq<Entry>) {
    |entries| < Pow2(64) && forall e <- entries :: e.Valid()
  }

  datatype Context = Context(files: seq<string>, lines: seq<nat>, categories: seq<Category>) {
    predicate Lists(file: string, line: nat) {
      exists i :: 0 <= i < |files| && i < |lines| && files[i] == file && lines[i] == line
    }

    /** Append a source position and its category, each unless already present. */
    function Record(origin: Origin, line: nat): Context {
      var listed := Lists(origin.file, line);
      Context(if listed then files else files + [origin.file],
              if listed then lines else lines + [line],
              if origin.category in categories then categories else categories + [origin.category])
    }
  }

  const EMPTY := Context([], [], [])

  /** The specification: contributions to `t`, recorded in entry order. */
  function ContextOf(meta: map<nat, Origin>, entries: seq<Entry>, t: Target): Context {
    if entries == [] then EMPTY else
    var e := entries[|entries| - 1];
    var before := ContextOf(meta, entries[..|entries| - 1], t);
    if e.target == t && e.metadataId in meta then before.Record(meta[e.metadataId], e.line) else before
  }

  predicate Mentioned(meta: map<nat, Origin>, entries: seq<Entry>, t: Target) {
    exists e :: e in entries && e.target == t && e.metadataId in meta
  }

  /** An on-disk index holding the specified context of every mentioned target. */
  ghost predicate StoreIs(store: map<seq<Byte>, Context>, meta: map<nat, Origin>, entries: seq<Entry>) {
    forall t: Target :: t.Valid() ==>
      && (ContextKey(t) in store <==> Mentioned(meta, entries, t))
      && (ContextKey(t) in store ==> store[ContextKey(t)] == ContextOf(meta, entries, t))
  }

  lemma Snoc(meta: map<nat, Origin>, entries: seq<Entry>, e: Entry, t: Target)
    ensures Mentioned(meta, entries + [e], t) <==>
            Mentioned(meta, entries, t) || (e.target == t && e.metadataId in meta)
    ensures ContextOf(meta, entries + [e], t) ==
            if e.target == t && e.metadataId in meta
            then ContextOf(meta, entries, t).Record(meta[e.metadataId], e.line) else ContextOf(meta, entries, t)
  {
    assert (entries + [e])[..|entries|] == entries;
    assert forall x :: x in entries + [e] <==> x in entries || x == e;
  }

  lemma {:induction false} UnmentionedIsEmpty(meta: map<nat, Origin>, entries: seq<Entry>, t: Target)
    requires !Mentioned(meta, entries, t)
    ensures ContextOf(meta, entries, t) == EMPTY
  {
    if entries != [] {
      var n := |entries| - 1;
      assert entries[n] in entries;
      UnmentionedIsEmpty(meta, entries[..n], t);
    }
  }

  // ----- what a context lists ---------------------------------------------------------

  function Assemble(sites: seq<(string, nat)>, categories: seq<Category>): Context {
    Context(seq(|sites|, i requires 0 <= i < |sites| => sites[i].0),
            seq(|sites|, i requires 0 <= i < |sites| => sites[i].1), categories)
  }

  function WithSite(sites: seq<(string, nat)>, file: string, line: nat): seq<(string, nat)> {
    if (file, line) in sites then sites else sites + [(file, line)]
  }

  function WithCategory(categories: seq<Category>, category: Category): seq<Category> {
    if category in categories then categories else categories + [category]
  }

  lemma AssembleRecord(sites: seq<(string, nat)>, categories: seq<Category>, origin: Origin, line: nat)
    ensures Assemble(WithSite(sites, origin.file, line), WithCategory(categories, origin.category))
            == Assemble(sites, categories).Record(origin, line)
  {
    var c := Assemble(sites, categories);
    if c.Lists(origin.file, line) {
      var i :| 0 <= i < |c.files| && c.files[i] == origin.file && c.lines[i] == line;
      assert sites[i] == (origin.file, line);
    }
    if (origin.file, line) in sites {
      var i :| 0 <= i < |sites| && sites[i] == (origin.file, line);
      assert c.files[i] == origin.file && c.lines[i] == line;
    }
  }

  /** The context lists exactly the given positions and categories, each once, in the order in
      which they first occur. */
  ghost predicate ListsFirst(c: Context, sites: seq<Option<(string, nat)>>, kinds: seq<Option<Category>>) {
    exists listed, at, kindAt :: c == Assemble(listed, c.categories) && FirstSeen(sites, listed, at)
                                 && FirstSeen(kinds, c.categories, kindAt)
  }

  lemma ListsNothing()
    ensures ListsFirst(EMPTY, [], [])
  {
    assert EMPTY == Assemble([], []) && FirstSeen<(string, nat)>([], [], []) && FirstSeen<Category>([], [], []);
  }

  lemma ListsNext(c: Context, sites: seq<Option<(string, nat)>>, kinds: seq<Option<Category>>, origin: Origin, line: nat)
    requires ListsFirst(c, sites, kinds)
    ensures ListsFirst(c.Record(origin, line), sites + [Some((origin.file, line))], kinds + [Some(origin.category)])
  {
    var listed, at, kindAt :| c == Assemble(listed, c.categories) && FirstSeen(sites, listed, at)
                              && FirstSeen(kinds, c.categories, kindAt);
    AssembleRecord(listed, c.categories, origin, line);
    var at' := FirstSeenSnoc(sites, Some((origin.file, line)), listed, at);
    var kindAt' := FirstSeenSnoc(kinds, Some(origin.category), c.categories, kindAt);
    assert FirstSeen(sites + [Some((origin.file, line))], WithSite(listed, origin.file, line), at');
    assert FirstSeen(kinds + [Some(origin.category)], WithCategory(c.categories, origin.category), kindAt');
  }

  lemma ListsKind(c: Context, sites: seq<Option<(string, nat)>>, kinds: seq<Option<Category>>, kind: Option<Category>)
    requires ListsFirst(c, sites, kinds)
    ensures ListsFirst(if kind.Some? then c.(categories := WithCategory(c.categories, kind.value)) else c,
                       sites + [None], kinds + [kind])
  {
    var listed, at, kindAt :| c == Assemble(listed, c.categories) && FirstSeen(sites, listed, at)
                              && FirstSeen(kinds, c.categories, kindAt);
    var at' := FirstSeenSnoc(sites, None, listed, at);
    var kindAt' := FirstSeenSnoc(kinds, kind, c.categories, kindAt);
    assert FirstSeen(sites + [None], listed, at');
    assert FirstSeen(kinds + [kind], if kind.Some? then WithCategory(c.categories, kind.value) else c.categories, kindAt');
  }

  /** There is only one such context. */
  lemma ListsOnly(c: Context, d: Context, sites: seq<Option<(string, nat)>>, kinds: seq<Option<Category>>)
    requires ListsFirst(c, sites, kinds) && ListsFirst(d, sites, kinds)
    ensures c == d
  {
    var a, at, ka :| c == Assemble(a, c.categories) && FirstSeen(sites, a, at) && FirstSeen(kinds, c.categories, ka);
    var b, bt, kb :| d == Assemble(b, d.categories) && FirstSeen(sites, b, bt) && FirstSeen(kinds, d.categories, kb);
    FirstSeenUnique(sites, a, at, b, bt);
    FirstSeenUnique(kinds, c.categories, ka, d.categories, kb);
  }

  /** In a context no position and no category is repeated. */
  lemma ListsOnce(c: Context, sites: seq<Option<(string, nat)>>, kinds: seq<Option<Category>>)
    requires ListsFirst(c, sites, kinds)
    ensures |c.files| == |c.lines| && NoDuplicates(c.categories)
    ensures forall i, j :: 0 <= i < j < |c.files| ==> c.files[i] != c.files[j] || c.lines[i] != c.lines[j]
  {
    var listed, at, kindAt :| c == Assemble(listed, c.categories) && FirstSeen(sites, listed, at)
                              && FirstSeen(kinds, c.categories, kindAt);
    FirstSeenOnce(sites, listed, at);
    FirstSeenOnce(kinds, c.categories, kindAt);
    assert forall i :: 0 <= i < |listed| ==> listed[i] == (c.files[i], c.lines[i]);
  }

  /** What an entry contributes to a target. */
  function SiteFor(meta: map<nat, Origin>, t: Target): Entry -> Option<(string, nat)> {
    (e: Entry) => if e.target == t && e.metadataId in meta then Some((meta[e.metadataId].file, e.line)) else None
  }

  function KindFor(meta: map<nat, Origin>, t: Target): Entry -> Option<Category> {
    (e: Entry) => if e.target == t && e.metadataId in meta then Some(meta[e.metadataId].category) else None
  }

  /** The context of a target lists the positions and categories its entries contribute. */
  lemma {:induction false} ContextInOrder(meta: map<nat, Origin>, entries: seq<Entry>, t: Target)
    ensures ListsFirst(ContextOf(meta, entries, t), Map(SiteFor(meta, t), entries), Map(KindFor(meta, t), entries))
  {
    if entries == [] {
      ListsNothing();
    } else {
      var n := |entries| - 1;
      var e, before := entries[n], ContextOf(meta, entries[..n], t);
      var sites, kinds := Map(SiteFor(meta, t), entries[..n]), Map(KindFor(meta, t), entries[..n]);
      ContextInOrder(meta, entries[..n], t);
      if e.target == t && e.metadataId in meta {
        ListsNext(before, sites, kinds, meta[e.metadataId], e.line);
      } else {
        ListsKind(before, sites, kinds, None);
      }
    }
  }

  // ----- hash grouping (in RAM) ----------------------------------------------------

  ghost predicate Grouped(meta: map<nat, Origin>, entries: seq<Entry>, sites: map<Target, seq<(string, nat)>>,
                          categories: map<Target, seq<Category>>) {
    && (forall t :: t in sites <==> Mentioned(meta, entries, t))
    && (forall t <- sites :: t in categories && Assemble(sites[t], categories[t]) == ContextOf(meta, entries, t))
    && categories.Keys == sites.Keys
  }

  lemma OpenGroup(meta: map<nat, Origin>, entries: seq<Entry>, t: Target, sitesBy: map<Target, seq<(string, nat)>>,
                  categoriesBy: map<Target, seq<Category>>, sites: seq<(string, nat)>, categories: seq<Category>)
    requires Grouped(meta, entries, sitesBy, categoriesBy)
    requires sites == if t in sitesBy then sitesBy[t] else []
    requires categories == if t in categoriesBy then categoriesBy[t] else []
    ensures Assemble(sites, categories) == ContextOf(meta, entries, t)
  {
    if t !in sitesBy { UnmentionedIsEmpty(meta, entries, t); }
  }

  lemma GroupedStep(meta: map<nat, Origin>, entries: seq<Entry>, e: Entry, sitesBy: map<Target, seq<(string, nat)>>,
                    categoriesBy: map<Target, seq<Category>>, sites: seq<(string, nat)>, categories: seq<Category>)
    requires Grouped(meta, entries, sitesBy, categoriesBy) && e.metadataId in meta
    requires sites == if e.target in sitesBy then sitesBy[e.target] else []
    requires categories == if e.target in categoriesBy then categoriesBy[e.target] else []
    ensures Grouped(meta, entries + [e], sitesBy[e.target := WithSite(sites, meta[e.metadataId].file, e.line)],
                    categoriesBy[e.target := WithCategory(categories, meta[e.metadataId].category)])
  {
    OpenGroup(meta, entries, e.target, sitesBy, categoriesBy, sites, categories);
    AssembleRecord(sites, categories, meta[e.metadataId], e.line);
    forall t
      ensures Mentioned(meta, entries + [e], t) <==> Mentioned(meta, entries, t) || t == e.target
      ensures t != e.target ==> ContextOf(meta, entries + [e], t) == ContextOf(meta, entries, t)
    {
      Snoc(meta, entries, e, t);
    }
    Snoc(meta, entries, e, e.target);
  }

  lemma GroupedSkip(meta: map<nat, Origin>, entries: seq<Entry>, e: Entry, sitesBy: map<Target, seq<(string, nat)>>,
                    categoriesBy: map<Target, seq<Category>>)
    requires Grouped(meta, entries, sitesBy, categoriesBy) && e.metadataId !in meta
    ensures Grouped(meta, entries + [e], sitesBy, categoriesBy)
  {
    forall t
      ensures Mentioned(meta, entries + [e], t) <==> Mentioned(meta, entries, t)
      ensures ContextOf(meta, entries + [e], t) == ContextOf(meta, entries, t)
    {
      Snoc(meta, entries, e, t);
    }
  }

  /** `build_ip_index` without a cache. */
  method BuildIpIndex(meta: map<nat, Origin>, entries: seq<Entry>) returns (index: map<Target, Context>)
    ensures forall t :: t in index <==> Mentioned(meta, entries, t)
    ensures forall t <- index :: index[t] == ContextOf(meta, entries, t)
  {
    var sitesBy: map<Target, seq<(string, nat)>> := map[];
    var categoriesBy: map<Target, seq<Category>> := map[];
    for i := 0 to |entries|
      invariant Grouped(meta, entries[..i], sitesBy, categoriesBy)
    {
      var e := entries[i];
      TakeSnoc(entries, i);
      if e.metadataId in meta {
        var sites := if e.target in sitesBy then sitesBy[e.target] else [];
        var categories := if e.target in categoriesBy then categoriesBy[e.target] else [];
        GroupedStep(meta, entries[..i], e, sitesBy, categoriesBy, sites, categories);
        sitesBy := sitesBy[e.target := WithSite(sites, meta[e.metadataId].file, e.line)];
        categoriesBy := categoriesBy[e.target := WithCategory(categories, meta[e.metadataId].category)];
      } else {
        GroupedSkip(meta, entries[..i], e, sitesBy, categoriesBy);
      }
    }
    TakeAll(entries);
    index := map t | t in sitesBy :: Assemble(sitesBy[t], categoriesBy[t]);
  }

  // ----- batched read-modify-write (on disk) ------------------------------------------

  /** The batch's working contexts: each mentioned target, up to date with `done + batch`. */
  ghost predicate Loaded(contexts: map<Target, Context>, meta: map<nat, Origin>, done: seq<Entry>, batch: seq<Entry>) {
    && (forall t <- contexts :: t.Valid() && contexts[t] == ContextOf(meta, done + batch, t))
    && (forall t :: t in contexts <==> Mentioned(meta, batch, t))
  }

  lemma LoadedStep(contexts: map<Target, Context>, meta: map<nat, Origin>, done: seq<Entry>, batch: seq<Entry>,
                   e: Entry, context: Context)
    requires Loaded(contexts, meta, done, batch) && e.target.Valid()
    requires e.metadataId in meta ==> context == ContextOf(meta, done + batch, e.target).Record(meta[e.metadataId], e.line)
    ensures Loaded(if e.metadataId in meta then contexts[e.target := context] else contexts, meta, done, batch + [e])
  {
    assert done + (batch + [e]) == (done + batch) + [e];
    forall t
      ensures Mentioned(meta, batch + [e], t) <==> Mentioned(meta, batch, t) || (e.target == t && e.metadataId in meta)
      ensures ContextOf(meta, done + (batch + [e]), t) ==
              if e.target == t && e.metadataId in meta
              then ContextOf(meta, done + batch, t).Record(meta[e.metadataId], e.line) else ContextOf(meta, done + batch, t)
    {
      Snoc(meta, batch, e, t);
      Snoc(meta, done + batch, e, t);
    }
  }

  /** The context a batch starts from for a target: its own working copy, or what is on disk. */
  function Fetch(store: map<seq<Byte>, Context>, contexts: map<Target, Context>, t: Target): Context {
    if t in contexts then contexts[t]
    else if ContextKey(t) in store then store[ContextKey(t)]
    else EMPTY
  }

  lemma FetchIsCurrent(store: map<seq<Byte>, Context>, contexts: map<Target, Context>, meta: map<nat, Origin>,
                       done: seq<Entry>, batch: seq<Entry>, t: Target)
    requires StoreIs(store, meta, done) && Loaded(contexts, meta, done, batch) && t.Valid()
    ensures Fetch(store, contexts, t) == ContextOf(meta, done + batch, t)
  {
    if t !in contexts {
      UntouchedContext(meta, done, batch, t);
      if ContextKey(t) !in store { UnmentionedIsEmpty(meta, done, t); }
    }
  }

  /** `cache_entry_contexts`: merge one batch into the index. */
  method CacheEntryContexts(store: map<seq<Byte>, Context>, meta: map<nat, Origin>, batch: seq<Entry>,
                            ghost done: seq<Entry>) returns (updated: map<seq<Byte>, Context>)
    requires StoreIs(store, meta, done) && forall e <- batch :: e.target.Valid()
    ensures StoreIs(updated, meta, done + batch)
  {
    var contexts: map<Target, Context> := map[];
    for i := 0 to |batch|
      invariant Loaded(contexts, meta, done, batch[..i])
    {
      var e := batch[i];
      assert e in batch;
      assert batch[..i + 1] == batch[..i] + [e];
      if e.metadataId in meta {
        FetchIsCurrent(store, contexts, meta, done, batch[..i], e.target);
        var context := Fetch(store, contexts, e.target).Record(meta[e.metadataId], e.line);
        LoadedStep(contexts, meta, done, batch[..i], e, context);
        contexts := contexts[e.target := context];
      } else {
        LoadedStep(contexts, meta, done, batch[..i], e, EMPTY);
      }
    }
    assert batch[..|batch|] == batch;
    updated := WriteAll(store, contexts);
    forall t: Target | t.Valid()
      ensures ContextKey(t) in updated <==> Mentioned(meta, done + batch, t)
      ensures ContextKey(t) in updated ==> updated[ContextKey(t)] == ContextOf(meta, done + batch, t)
    {
      MentionedConcat(meta, done, batch, t);
      FetchIsCurrent(store, contexts, meta, done, batch, t);
    }
  }

  /** The write batch: one put per context, in any order. */
  method WriteAll(store: map<seq<Byte>, Context>, contexts: map<Target, Context>) returns (updated: map<seq<Byte>, Context>)
    requires forall t <- contexts :: t.Valid()
    ensures forall t: Target :: t.Valid() ==>
              && (ContextKey(t) in updated <==> t in contexts || ContextKey(t) in store)
              && (t in contexts ==> updated[ContextKey(t)] == contexts[t])
              && (t !in contexts && ContextKey(t) in store ==> updated[ContextKey(t)] == store[ContextKey(t)])
  {
    updated := store;
    var rest := contexts.Keys;
    while rest != {}
      invariant rest <= contexts.Keys
      invariant forall t: Target :: t.Valid() ==>
                  && (ContextKey(t) in updated <==> t in contexts.Keys - rest || ContextKey(t) in store)
                  && (t in contexts.Keys - rest ==> updated[ContextKey(t)] == contexts[t])
                  && (t !in contexts.Keys - rest && ContextKey(t) in store ==> updated[ContextKey(t)] == store[ContextKey(t)])
      decreases rest
    {
      var t :| t in rest;
      updated := updated[ContextKey(t) := contexts[t]];
      rest := rest - {t};
      forall u: Target | u.Valid() && ContextKey(u) == ContextKey(t) ensures u == t { KeyPrefixFree(u, t); }
    }
  }

  lemma MentionedConcat(meta: map<nat, Origin>, a: seq<Entry>, b: seq<Entry>, t: Target)
    ensures Mentioned(meta, a + b, t) <==> Mentioned(meta, a, t) || Mentioned(meta, b, t)
  {
    assert forall x :: x in a + b <==> x in a || x in b;
  }

  lemma {:induction false} UntouchedContext(meta: map<nat, Origin>, done: seq<Entry>, batch: seq<Entry>, t: Target)
    requires !Mentioned(meta, batch, t)
    ensures ContextOf(meta, done + batch, t) == ContextOf(meta, done, t)
  {
    if batch == [] {
      assert done + batch == done;
    } else {
      var n := |batch| - 1;
      assert batch == batch[..n] + [batch[n]] && done + batch == done + batch[..n] + [batch[n]];
      Snoc(meta, batch[..n], batch[n], t);
      Snoc(meta, done + batch[..n], batch[n], t);
      UntouchedContext(meta, done, batch[..n], t);
    }
  }

  /** `build_ip_index` with a cache, for any division of the entries into chunks. */
  method BuildChunkedIndex(meta: map<nat, Origin>, chunks: seq<seq<Entry>>) returns (store: map<seq<Byte>, Context>)
    requires forall chunk <- chunks :: forall e <- chunk :: e.target.Valid()
    ensures StoreIs(store, meta, Flatten(chunks))
  {
    store := map[];
    for i := 0 to |chunks|
      invariant StoreIs(store, meta, Flatten(chunks[..i]))
    {
      assert chunks[i] in chunks;
      assert chunks[..i + 1][..i] == chunks[..i];
      store := CacheEntryContexts(store, meta, chunks[i], Flatten(chunks[..i]));
    }
    assert chunks[..|chunks|] == chunks;
  }
}
