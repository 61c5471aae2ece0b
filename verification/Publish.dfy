/** Publication of feed rules and static rules under the sync lock and the map lock, over every
    interleaving of startup, cron and static-reload jobs. */
module Publish {
  import Loader
  import opened Lists
  import opened Outcomes
  import opened Reconcile

  const STATIC_RULE_BASE: nat := Loader.STATIC_RULE_BASE

  /** What the jobs share: the kernel map with its owners, the active registry (rule ids
      1..registry resolve), and the commit it was loaded from. */
  datatype Shared<K, C> = Shared(maps: Maps<K, nat>, registry: nat, commit: Option<C>)

  /** A parsed, validated and prepared feed: `entries` rule ids were assigned, some became rules. */
  datatype Prepared<K> = Prepared(rules: seq<(K, nat)>, entries: nat)

  datatype Outcome<C> =
    | Updated                                // rules loaded
    | UpToDate(reported: Option<C>)          // nothing to report
    | SkippedAlreadyRunning
    | Failed
    | StaticDone

  datatype Job<K, C> =
    | FeedIdle(startup: bool)
    | FeedHasSync(startup: bool)
    | FeedHasMaps(startup: bool, seen: Shared<K, C>)
    | FeedFetched(seen: Shared<K, C>, commit: C)
    | FeedPrepared(seen: Shared<K, C>, commit: C, feed: Prepared<K>)
    | FeedLoaded(commit: C, feed: Prepared<K>)          // maps written, registry not yet
    | FeedRegistered(commit: C, feed: Prepared<K>)      // registry replaced, commit not yet
    | FeedPublished(commit: C, feed: Prepared<K>)
    | StaticIdle
    | StaticRead(rules: seq<(K, nat)>)
    | StaticHasMaps(rules: seq<(K, nat)>)
    | Ended(outcome: Outcome<C>)
  {
    predicate HoldsMaps() {
      FeedHasMaps? || FeedFetched? || FeedPrepared? || FeedLoaded? || FeedRegistered? || FeedPublished? || StaticHasMaps?
    }
    predicate HoldsSync() { FeedHasSync? || (HoldsMaps() && !StaticHasMaps?) }
    /** Holds the map lock and has not written anything yet. */
    predicate Untouched() { FeedHasMaps? || FeedFetched? || FeedPrepared? }
  }

  datatype State<K, C> = State(
    shared: Shared<K, C>,
    source: Option<C>,                // history: the commit whose feed the map holds
    syncHolder: Option<nat>,
    mapHolder: Option<nat>,
    jobs: seq<Job<K, C>>)

  datatype Event<K, C> =
    | AcquireSync(job: nat)
    | AcquireMaps(job: nat)
    | Fetch(job: nat, fetched: Option<(bool, C)>)       // git: (already up to date, commit), or an error
    | Prepare(job: nat, prepared: Option<Prepared<K>>)  // parse, validate, prepare, clear the spool
    | Load(job: nat, failAt: nat)
    | Register(job: nat)
    | StoreCommit(job: nat)
    | Return(job: nat)
    | ReadStatic(job: nat, lines: Option<seq<(K, nat)>>)
    | SyncStatic(job: nat, failAt: nat)

  ghost predicate ValidFeed<K>(feed: Prepared<K>) {
    feed.entries < STATIC_RULE_BASE && forall i :: 0 <= i < |feed.rules| ==> 1 <= feed.rules[i].1 <= feed.entries
  }

  ghost predicate StaticIds<K>(rules: seq<(K, nat)>) {
    forall i :: 0 <= i < |rules| ==> rules[i].1 >= STATIC_RULE_BASE
  }

  /** The early exit of `synchronize_and_load_internal`. */
  predicate Skips<K, C(==)>(s: State<K, C>, startup: bool, result: (bool, C)) {
    result.0 && !startup && s.shared.commit == Some(result.1) && s.shared.registry > 0
  }

  ghost predicate Enabled<K, C>(s: State<K, C>, e: Event<K, C>) {
    e.job < |s.jobs| && var j := s.jobs[e.job];
    match e
    case AcquireSync(_) => j.FeedIdle? && (j.startup ==> s.syncHolder.None?)
    case AcquireMaps(_) => (j.FeedHasSync? || j.StaticRead?) && s.mapHolder.None?
    case Fetch(_, _) => j.FeedHasMaps?
    case Prepare(_, result) => j.FeedFetched? && (result.Some? ==> ValidFeed(result.value))
    case Load(_, _) => j.FeedPrepared?
    case Register(_) => j.FeedLoaded?
    case StoreCommit(_) => j.FeedRegistered?
    case Return(_) => j.FeedPublished?
    case ReadStatic(_, result) => j.StaticIdle? && (result.Some? ==> StaticIds(result.value))
    case SyncStatic(_, _) => j.StaticHasMaps?
  }

  function With<K, C>(s: State<K, C>, job: nat, j: Job<K, C>): State<K, C>
    requires job < |s.jobs|
  {
    s.(jobs := s.jobs[job := j])
  }

  /** The job is over and drops both guards. */
  function End<K, C>(s: State<K, C>, job: nat, outcome: Outcome<C>): State<K, C>
    requires job < |s.jobs|
  {
    With(s, job, Ended(outcome)).(
      syncHolder := if s.jobs[job].HoldsSync() then None else s.syncHolder,
      mapHolder := if s.jobs[job].HoldsMaps() then None else s.mapHolder)
  }

  ghost function Apply<K, C>(s: State<K, C>, e: Event<K, C>): State<K, C>
    requires Enabled(s, e)
  {
    var i := e.job;
    var j := s.jobs[i];
    match e
    case AcquireSync(_) =>
      if s.syncHolder.Some? then End(s, i, SkippedAlreadyRunning)
      else With(s, i, FeedHasSync(j.startup)).(syncHolder := Some(i))
    case AcquireMaps(_) =>
      With(s, i, if j.StaticRead? then StaticHasMaps(j.rules) else FeedHasMaps(j.startup, s.shared)).(mapHolder := Some(i))
    case Fetch(_, result) =>
      if result.None? then End(s, i, Failed)
      else if Skips(s, j.startup, result.value) then End(s, i, UpToDate(s.shared.commit))
      else With(s, i, FeedFetched(j.seen, result.value.1))
    case Prepare(_, result) =>
      if result.None? || result.value.entries == 0 then End(s, i, Failed)
      else With(s, i, FeedPrepared(j.seen, j.commit, result.value))
    case Load(_, failAt) =>
      With(s, i, FeedLoaded(j.commit, j.feed)).(
        shared := s.shared.(maps := After(s.shared.maps, FeedSync(j.feed.rules, failAt))), source := Some(j.commit))
    case Register(_) =>
      With(s, i, FeedRegistered(j.commit, j.feed)).(shared := s.shared.(registry := j.feed.entries))
    case StoreCommit(_) =>
      With(s, i, FeedPublished(j.commit, j.feed)).(shared := s.shared.(commit := Some(j.commit)))
    case Return(_) =>
      End(s, i, if |j.feed.rules| == 0 && s.shared.registry > 0 then UpToDate(s.shared.commit) else Updated)
    case ReadStatic(_, result) => With(s, i, if result.None? then Ended(Failed) else StaticRead(result.value))
    case SyncStatic(_, failAt) =>
      End(s, i, StaticDone).(shared := s.shared.(maps := After(s.shared.maps, StaticSync(j.rules, failAt))))
  }

  ghost predicate Init<K, C>(s: State<K, C>) {
    && s.shared == Shared(Maps(map[], {}), 0, None) && s.source.None? && s.syncHolder.None? && s.mapHolder.None?
    && forall i :: 0 <= i < |s.jobs| ==> s.jobs[i].FeedIdle? || s.jobs[i].StaticIdle?
  }

  ghost predicate Next<K(!new), C(!new)>(s: State<K, C>, s': State<K, C>) {
    exists e: Event<K, C> :: Enabled(s, e) && Apply(s, e) == s'
  }

  ghost predicate Run<K(!new), C(!new)>(trace: seq<State<K, C>>) {
    |trace| > 0 && Init(trace[0]) && forall i :: 0 <= i < |trace| - 1 ==> Next(trace[i], trace[i + 1])
  }

  // ----- rule ids ------------------------------------------------------------------------------

  /** Every stored rule id is static, or belongs to the feed and is below its entry count. */
  ghost predicate IdsResolve<K>(maps: Maps<K, nat>, entries: nat) {
    && entries < STATIC_RULE_BASE
    && forall k <- maps.entries ::
         maps.entries[k] >= STATIC_RULE_BASE || (k in maps.feedOwned && 1 <= maps.entries[k] <= entries)
  }

  lemma {:induction false} PutAllFrom<K, V>(m: map<K, V>, rules: seq<(K, V)>, k: K)
    requires k in KeysOf(rules)
    ensures k in PutAll(m, rules) && exists i :: 0 <= i < |rules| && rules[i].1 == PutAll(m, rules)[k]
  {
    var n := |rules| - 1;
    if k == rules[n].0 {
      assert rules[n].1 == PutAll(m, rules)[k];
    } else {
      assert k in KeysOf(rules[..n]) by {
        var i :| 0 <= i < |rules| && rules[i].0 == k;
        assert rules[..n][i].0 == k;
      }
      PutAllFrom(m, rules[..n], k);
      var i :| 0 <= i < n && rules[..n][i].1 == PutAll(m, rules[..n])[k];
      assert rules[i].1 == PutAll(m, rules)[k];
    }
  }

  lemma AcceptedFrom<K>(rules: seq<(K, nat)>, failAt: nat, k: K, m: map<K, nat>)
    requires k in KeysOf(Accepted(rules, failAt))
    ensures k in PutAll(m, Accepted(rules, failAt))
    ensures exists i :: 0 <= i < |rules| && rules[i].1 == PutAll(m, Accepted(rules, failAt))[k]
  {
    var accepted := Accepted(rules, failAt);
    PutAllFrom(m, accepted, k);
    var i :| 0 <= i < |accepted| && accepted[i].1 == PutAll(m, accepted)[k];
    assert rules[i] == accepted[i];
  }

  lemma FeedSyncResolves<K>(maps: Maps<K, nat>, entries: nat, feed: Prepared<K>, failAt: nat)
    requires IdsResolve(maps, entries) && ValidFeed(feed)
    ensures IdsResolve(After(maps, FeedSync(feed.rules, failAt)), feed.entries)
  {
    var accepted := Accepted(feed.rules, failAt);
    PutAllKeys(maps.entries, accepted);
    var after := After(maps, FeedSync(feed.rules, failAt));
    forall k | k in after.entries
      ensures after.entries[k] >= STATIC_RULE_BASE || (k in after.feedOwned && 1 <= after.entries[k] <= feed.entries)
    {
      if k in KeysOf(accepted) { AcceptedFrom(feed.rules, failAt, k, maps.entries); }
    }
  }

  lemma StaticSyncResolves<K>(maps: Maps<K, nat>, entries: nat, rules: seq<(K, nat)>, failAt: nat)
    requires IdsResolve(maps, entries) && StaticIds(rules)
    ensures IdsResolve(After(maps, StaticSync(rules, failAt)), entries)
  {
    var accepted := Accepted(rules, failAt);
    PutAllKeys(maps.entries, accepted);
    var after := After(maps, StaticSync(rules, failAt));
    forall k | k in after.entries
      ensures after.entries[k] >= STATIC_RULE_BASE || (k in after.feedOwned && 1 <= after.entries[k] <= entries)
    {
      if k in KeysOf(accepted) { AcceptedFrom(rules, failAt, k, maps.entries); }
    }
  }

  // ----- the invariant ---------------------------------------------------------------------------

  /** How many rule ids the feed in the map was numbered with. */
  ghost function MapEntries<K, C>(s: State<K, C>): nat {
    if s.mapHolder.Some? && s.mapHolder.value < |s.jobs| && s.jobs[s.mapHolder.value].FeedLoaded?
    then s.jobs[s.mapHolder.value].feed.entries else s.shared.registry
  }

  ghost predicate JobOk<K, C>(s: State<K, C>, i: nat)
    requires i < |s.jobs|
  {
    var j := s.jobs[i];
    && (j.HoldsSync() <==> s.syncHolder == Some(i))
    && (j.HoldsMaps() <==> s.mapHolder == Some(i))
    && (j.Untouched() ==> j.seen == s.shared)
    && (j.FeedPrepared? || j.FeedLoaded? || j.FeedRegistered? || j.FeedPublished? ==> ValidFeed(j.feed) && j.feed.entries > 0)
    && (j.FeedRegistered? || j.FeedPublished? ==> s.shared.registry == j.feed.entries)
    && (j.FeedLoaded? || j.FeedRegistered? ==> s.source == Some(j.commit))
    && (j.StaticRead? || j.StaticHasMaps? ==> StaticIds(j.rules))
  }

  ghost predicate Inv<K, C>(s: State<K, C>) {
    && (s.mapHolder.Some? ==> s.mapHolder.value < |s.jobs|) && (s.syncHolder.Some? ==> s.syncHolder.value < |s.jobs|)
    && (forall i :: 0 <= i < |s.jobs| ==> JobOk(s, i))
    && IdsResolve(s.shared.maps, MapEntries(s))
    && (s.source == s.shared.commit
        || (s.mapHolder.Some? && (s.jobs[s.mapHolder.value].FeedLoaded? || s.jobs[s.mapHolder.value].FeedRegistered?)))
  }

  lemma ActingJobStep<K, C>(s: State<K, C>, e: Event<K, C>)
    requires Inv(s) && Enabled(s, e)
    ensures JobOk(Apply(s, e), e.job)
  {
    assert JobOk(s, e.job);
  }

  lemma OtherJobStep<K, C>(s: State<K, C>, e: Event<K, C>, i: nat)
    requires Inv(s) && Enabled(s, e) && i < |s.jobs| && i != e.job
    ensures JobOk(Apply(s, e), i)
  {
    var j := s.jobs[i];
    assert JobOk(s, e.job) && JobOk(s, i);
    assert Apply(s, e).jobs[i] == j;
    if j.HoldsMaps() { assert !s.jobs[e.job].HoldsMaps(); }
    if j.HoldsSync() { assert !s.jobs[e.job].HoldsSync(); }
  }

  lemma IdsStep<K, C>(s: State<K, C>, e: Event<K, C>)
    requires Inv(s) && Enabled(s, e)
    ensures IdsResolve(Apply(s, e).shared.maps, MapEntries(Apply(s, e)))
  {
    var j := s.jobs[e.job];
    assert JobOk(s, e.job);
    match e {
      case Load(_, failAt) => FeedSyncResolves(s.shared.maps, MapEntries(s), j.feed, failAt);
      case SyncStatic(_, failAt) => StaticSyncResolves(s.shared.maps, MapEntries(s), j.rules, failAt);
      case _ =>
    }
  }

  lemma NextInv<K, C>(s: State<K, C>, e: Event<K, C>)
    requires Inv(s) && Enabled(s, e)
    ensures Inv(Apply(s, e))
  {
    var s' := Apply(s, e);
    forall i | 0 <= i < |s'.jobs| ensures JobOk(s', i) {
      if i == e.job { ActingJobStep(s, e); } else { OtherJobStep(s, e, i); }
    }
    IdsStep(s, e);
    assert JobOk(s, e.job);
  }

  lemma {:induction false} RunInv<K(!new), C(!new)>(trace: seq<State<K, C>>, i: nat)
    requires Run(trace) && i < |trace|
    ensures Inv(trace[i])
  {
    if i > 0 {
      RunInv(trace, i - 1);
      assert Next(trace[i - 1], trace[i - 1 + 1]);
      var e: Event<K, C> :| Enabled(trace[i - 1], e) && Apply(trace[i - 1], e) == trace[i];
      NextInv(trace[i - 1], e);
    }
  }

  // ----- the guarantees ----------------------------------------------------------------------------

  /** Whenever the map lock is free, every stored rule id resolves in the active registry or lies
      in the static namespace, and the map's feed rules come from the recorded commit. */
  lemma PublishedIdsResolve<K(!new), C(!new)>(trace: seq<State<K, C>>, i: nat)
    requires Run(trace) && i < |trace| && trace[i].mapHolder.None?
    ensures var s := trace[i].shared;
            forall k <- s.maps.entries :: s.maps.entries[k] >= STATIC_RULE_BASE || 1 <= s.maps.entries[k] <= s.registry
    ensures trace[i].source == trace[i].shared.commit
  {
    RunInv(trace, i);
  }

  /** The two locks each have at most one holder, and a job that fails, skips or is refused leaves
      map, registry and commit as it found them when it took the map lock. */
  lemma EndedUntouched<K(!new), C(!new)>(trace: seq<State<K, C>>, i: nat, e: Event<K, C>)
    requires Run(trace) && i + 1 < |trace| && Enabled(trace[i], e) && Apply(trace[i], e) == trace[i + 1]
    requires trace[i + 1].jobs[e.job].Ended? && !e.Return? && !e.SyncStatic?
    ensures trace[i + 1].shared == trace[i].shared
    ensures trace[i].jobs[e.job].Untouched() ==> trace[i].jobs[e.job].seen == trace[i + 1].shared
  {
    RunInv(trace, i);
    assert JobOk(trace[i], e.job);
  }

  /** The step from state `t` of a run is event `e`. */
  ghost predicate Did<K(!new), C(!new)>(trace: seq<State<K, C>>, t: nat, e: Event<K, C>) {
    t + 1 < |trace| && Enabled(trace[t], e) && Apply(trace[t], e) == trace[t + 1]
  }

  lemma StepAt<K(!new), C(!new)>(trace: seq<State<K, C>>, t: nat) returns (e: Event<K, C>)
    requires Run(trace) && t + 1 < |trace|
    ensures Did(trace, t, e) && Inv(trace[t])
  {
    RunInv(trace, t);
    assert Next(trace[t], trace[t + 1]);
    e :| Enabled(trace[t], e) && Apply(trace[t], e) == trace[t + 1];
  }

  /** Before it fetches, a job is still the startup job or the scheduled job it was created as. */
  lemma {:induction false} StartupKept<K(!new), C(!new)>(trace: seq<State<K, C>>, t: nat, job: nat)
    requires Run(trace) && t < |trace| && job < |trace[t].jobs| && Early(trace[t].jobs[job])
    ensures job < |trace[0].jobs| && trace[0].jobs[job] == FeedIdle(trace[t].jobs[job].startup)
  {
    if t == 0 {
      assert Init(trace[0]);
    } else {
      var e := StepAt(trace, t - 1);
      EarlyStep(trace[t - 1], e, job);
      StartupKept(trace, t - 1, job);
    }
  }

  predicate Early<K, C>(j: Job<K, C>) { j.FeedIdle? || j.FeedHasSync? || j.FeedHasMaps? }

  lemma EarlyStep<K, C>(s: State<K, C>, e: Event<K, C>, job: nat)
    requires Enabled(s, e) && job < |Apply(s, e).jobs| && Early(Apply(s, e).jobs[job])
    ensures job < |s.jobs| && Early(s.jobs[job]) && s.jobs[job].startup == Apply(s, e).jobs[job].startup
  {
  }

  /**
   * What a fetch leads to. It fails if git does. It ends the job as up to date if and only if git
   * reports no change, the job is not the startup one, the fetched commit is the one loaded last
   * and the registry is not empty; the rules in the map then came from that commit. Otherwise the
   * job goes on with the fetched commit.
   */
  lemma FetchDecides<K(!new), C(!new)>(trace: seq<State<K, C>>, t: nat, job: nat, fetched: Option<(bool, C)>)
    requires Run(trace) && Did(trace, t, Fetch(job, fetched))
    ensures job < |trace[0].jobs| && trace[0].jobs[job].FeedIdle?
    ensures var s, next := trace[t].shared, trace[t + 1].jobs[job];
            && (next == Ended(Failed) <==> fetched.None?)
            && (next.Ended? && next.outcome.UpToDate? <==>
                fetched.Some? && fetched.value.0 && !trace[0].jobs[job].startup && s.commit == Some(fetched.value.1) && s.registry > 0)
            && (next.Ended? && next.outcome.UpToDate? ==> trace[t].source == Some(fetched.value.1))
            && (next.Ended? || (fetched.Some? && next == FeedFetched(s, fetched.value.1)))
            && trace[t + 1].shared == s
  {
    RunInv(trace, t);
    assert JobOk(trace[t], job);
    StartupKept(trace, t, job);
  }

  /** The startup job never ends at a successful fetch: it always loads. */
  lemma StartupLoads<K(!new), C(!new)>(trace: seq<State<K, C>>, t: nat, job: nat, result: (bool, C))
    requires Run(trace) && Did(trace, t, Fetch(job, Some(result)))
    requires job < |trace[0].jobs| && trace[0].jobs[job] == FeedIdle(true)
    ensures trace[t + 1].jobs[job] == FeedFetched(trace[t].shared, result.1)
  {
    FetchDecides(trace, t, job, Some(result));
  }

  // ----- what is published is what was fetched and prepared ------------------------------------------

  /** The steps by which a job came to where it is: fetch, preparation and load of a feed, or the
      reading of static rules. */
  datatype Past = Past(fetch: nat, same: bool, prepare: nat, load: nat, failAt: nat, read: nat)

  ghost predicate DidFetch<K(!new), C(!new)>(trace: seq<State<K, C>>, t: nat, job: nat, past: Past, commit: C) {
    past.fetch < t && Did(trace, past.fetch, Fetch(job, Some((past.same, commit))))
  }

  ghost predicate DidPrepare<K(!new), C(!new)>(trace: seq<State<K, C>>, t: nat, job: nat, past: Past, commit: C, feed: Prepared<K>) {
    past.prepare < t && DidFetch(trace, past.prepare, job, past, commit) && Did(trace, past.prepare, Prepare(job, Some(feed)))
  }

  /** The map is as the load left it, which found everything as the fetch did. */
  ghost predicate DidLoad<K(!new), C(!new)>(trace: seq<State<K, C>>, t: nat, job: nat, past: Past, commit: C, feed: Prepared<K>)
    requires t < |trace|
  {
    && past.load < t && DidPrepare(trace, past.load, job, past, commit, feed) && Did(trace, past.load, Load(job, past.failAt))
    && trace[past.load].shared == trace[past.fetch].shared
    && trace[t].shared.maps == After(trace[past.fetch].shared.maps, FeedSync(feed.rules, past.failAt))
  }

  ghost predicate CameBy<K(!new), C(!new)>(trace: seq<State<K, C>>, t: nat, job: nat, past: Past)
    requires t < |trace| && job < |trace[t].jobs|
  {
    match trace[t].jobs[job]
    case FeedFetched(seen, commit) => DidFetch(trace, t, job, past, commit) && seen == trace[past.fetch].shared
    case FeedPrepared(seen, commit, feed) => DidPrepare(trace, t, job, past, commit, feed) && seen == trace[past.fetch].shared
    case FeedLoaded(commit, feed) => DidLoad(trace, t, job, past, commit, feed)
    case FeedRegistered(commit, feed) => DidLoad(trace, t, job, past, commit, feed) && trace[t].shared.registry == feed.entries
    case FeedPublished(commit, feed) => DidLoad(trace, t, job, past, commit, feed)
      && trace[t].shared.registry == feed.entries && trace[t].shared.commit == Some(commit)
    case StaticRead(rules) => DidRead(trace, t, job, past, rules)
    case StaticHasMaps(rules) => DidRead(trace, t, job, past, rules)
    case _ => true
  }

  ghost predicate DidRead<K(!new), C(!new)>(trace: seq<State<K, C>>, t: nat, job: nat, past: Past, rules: seq<(K, nat)>) {
    past.read < t && Did(trace, past.read, ReadStatic(job, Some(rules)))
  }

  /** Nobody else writes while a job holds the map lock. */
  lemma OthersWait<K(!new), C(!new)>(trace: seq<State<K, C>>, t: nat, e: Event<K, C>, job: nat)
    requires Did(trace, t, e) && Inv(trace[t]) && job < |trace[t].jobs| && job != e.job && trace[t].jobs[job].HoldsMaps()
    ensures trace[t + 1].shared == trace[t].shared && trace[t + 1].jobs[job] == trace[t].jobs[job]
  {
    assert JobOk(trace[t], job) && JobOk(trace[t], e.job);
  }

  lemma OtherCameBy<K(!new), C(!new)>(trace: seq<State<K, C>>, t: nat, e: Event<K, C>, job: nat, past: Past)
    requires Did(trace, t, e) && Inv(trace[t]) && job < |trace[t].jobs| && job != e.job && CameBy(trace, t, job, past)
    ensures CameBy(trace, t + 1, job, past)
  {
    if trace[t].jobs[job].HoldsMaps() { OthersWait(trace, t, e, job); }
    StillCameBy(trace, t, job, past);
  }

  lemma StillCameBy<K(!new), C(!new)>(trace: seq<State<K, C>>, t: nat, job: nat, past: Past)
    requires t + 1 < |trace| && job < |trace[t].jobs| && CameBy(trace, t, job, past)
    requires job < |trace[t + 1].jobs| && trace[t + 1].jobs[job] == trace[t].jobs[job]
    requires trace[t].jobs[job].HoldsMaps() ==> trace[t + 1].shared == trace[t].shared
    ensures CameBy(trace, t + 1, job, past)
  {
  }

  /** The job takes over what it fetched, prepared or read. */
  lemma TakesOver<K(!new), C(!new)>(trace: seq<State<K, C>>, t: nat, e: Event<K, C>, past: Past) returns (past': Past)
    requires Did(trace, t, e) && Inv(trace[t]) && CameBy(trace, t, e.job, past) && !e.Load? && !e.Register? && !e.StoreCommit?
    ensures CameBy(trace, t + 1, e.job, past')
  {
    assert JobOk(trace[t], e.job);
    past' := past;
    match e {
      case Fetch(_, fetched) =>
        if fetched.Some? { past' := past.(fetch := t, same := fetched.value.0); }
      case Prepare(_, _) => past' := past.(prepare := t);
      case ReadStatic(_, _) => past' := past.(read := t);
      case _ =>
    }
  }

  /** And writes it. */
  lemma Writes<K(!new), C(!new)>(trace: seq<State<K, C>>, t: nat, e: Event<K, C>, past: Past) returns (past': Past)
    requires Did(trace, t, e) && Inv(trace[t]) && CameBy(trace, t, e.job, past) && (e.Load? || e.Register? || e.StoreCommit?)
    ensures CameBy(trace, t + 1, e.job, past')
  {
    assert JobOk(trace[t], e.job);
    past' := if e.Load? then past.(load := t, failAt := e.failAt) else past;
  }

  lemma ActingCameBy<K(!new), C(!new)>(trace: seq<State<K, C>>, t: nat, e: Event<K, C>, past: Past) returns (past': Past)
    requires Did(trace, t, e) && Inv(trace[t]) && CameBy(trace, t, e.job, past)
    ensures CameBy(trace, t + 1, e.job, past')
  {
    if e.Load? || e.Register? || e.StoreCommit? {
      past' := Writes(trace, t, e, past);
    } else {
      past' := TakesOver(trace, t, e, past);
    }
  }

  lemma SameJobs<K(!new), C(!new)>(trace: seq<State<K, C>>, t: nat)
    requires Run(trace) && t + 1 < |trace|
    ensures |trace[t].jobs| == |trace[t + 1].jobs|
  {
    var e := StepAt(trace, t);
  }

  lemma StepCameBy<K(!new), C(!new)>(trace: seq<State<K, C>>, t: nat, job: nat, past: Past) returns (past': Past)
    requires Run(trace) && t + 1 < |trace| && job < |trace[t].jobs| == |trace[t + 1].jobs| && CameBy(trace, t, job, past)
    ensures CameBy(trace, t + 1, job, past')
  {
    var e := StepAt(trace, t);
    if e.job == job {
      past' := ActingCameBy(trace, t, e, past);
    } else {
      past' := past;
      OtherCameBy(trace, t, e, job, past);
    }
  }

  lemma NothingYet<K(!new), C(!new)>(trace: seq<State<K, C>>, job: nat, past: Past)
    requires |trace| > 0 && Init(trace[0]) && job < |trace[0].jobs|
    ensures CameBy(trace, 0, job, past)
  {
  }

  lemma {:induction false} RunCameBy<K(!new), C(!new)>(trace: seq<State<K, C>>, t: nat, job: nat) returns (past: Past)
    requires Run(trace) && t < |trace| && job < |trace[t].jobs|
    ensures CameBy(trace, t, job, past)
  {
    if t == 0 {
      past := Past(0, false, 0, 0, 0, 0);
      NothingYet(trace, job, past);
    } else {
      SameJobs(trace, t - 1);
      past := RunCameBy(trace, t - 1, job);
      past := StepCameBy(trace, t - 1, job, past);
    }
  }

  /**
   * When a job has published, it fetched a commit and prepared a feed in that order; the recorded
   * commit is the fetched one, the registry has the entries of that feed, and the map is the one
   * found at the fetch with the feed's rules written up to the first failed insert.
   */
  lemma PublishedAsFetched<K(!new), C(!new)>(trace: seq<State<K, C>>, t: nat, job: nat)
    returns (past: Past, commit: C, feed: Prepared<K>)
    requires Run(trace) && t < |trace| && job < |trace[t].jobs| && trace[t].jobs[job].FeedPublished?
    ensures past.fetch < past.prepare < past.load < t
    ensures Did(trace, past.fetch, Fetch(job, Some((past.same, commit)))) && Did(trace, past.prepare, Prepare(job, Some(feed)))
    ensures Did(trace, past.load, Load(job, past.failAt))
    ensures var before, after := trace[past.fetch].shared.maps, trace[t].shared;
            var n := if past.failAt < |feed.rules| then past.failAt else |feed.rules|;
            && after.commit == Some(commit) && after.registry == feed.entries
            && after.maps.feedOwned == FirstKeys(feed.rules, n)
            && Wrote(before.entries, feed.rules, n, before.entries.Keys - before.feedOwned, after.maps.entries)
  {
    past := RunCameBy(trace, t, job);
    commit, feed := trace[t].jobs[job].commit, trace[t].jobs[job].feed;
    SyncWrote(trace[past.fetch].shared.maps, FeedSync(feed.rules, past.failAt));
  }

  /** A static sync writes the rules its job read, up to the first failed insert, and keeps of the
      rest what the feed owns. */
  lemma StaticWrittenAsRead<K(!new), C(!new)>(trace: seq<State<K, C>>, t: nat, job: nat, failAt: nat)
    returns (read: nat, rules: seq<(K, nat)>)
    requires Run(trace) && Did(trace, t, SyncStatic(job, failAt))
    ensures read < t && Did(trace, read, ReadStatic(job, Some(rules)))
    ensures var before, after := trace[t].shared, trace[t + 1].shared;
            && after.registry == before.registry && after.commit == before.commit
            && after.maps.feedOwned == before.maps.feedOwned
            && Wrote(before.maps.entries, rules, if failAt < |rules| then failAt else |rules|, before.maps.feedOwned,
                     after.maps.entries)
  {
    var past := RunCameBy(trace, t, job);
    read, rules := past.read, trace[t].jobs[job].rules;
    SyncWrote(trace[t].shared.maps, StaticSync(rules, failAt));
  }

  /** A job that did reload still reports "up to date" exactly when preparation left no rule:
      that outcome alone does not mean that nothing changed. */
  lemma UpToDateAfterReload<K(!new), C(!new)>(trace: seq<State<K, C>>, i: nat, job: nat)
    requires Run(trace) && i < |trace| && job < |trace[i].jobs| && trace[i].jobs[job].FeedPublished?
    ensures Apply(trace[i], Return(job)).jobs[job].outcome.UpToDate? <==> trace[i].jobs[job].feed.rules == []
  {
    RunInv(trace, i);
    assert JobOk(trace[i], job);
  }

  lemma ExtendRun<K(!new), C(!new)>(trace: seq<State<K, C>>, e: Event<K, C>) returns (longer: seq<State<K, C>>)
    requires Run(trace) && Enabled(trace[|trace| - 1], e)
    ensures Run(longer) && longer[0] == trace[0] && longer[|longer| - 1] == Apply(trace[|trace| - 1], e)
  {
    var last := trace[|trace| - 1];
    longer := trace + [Apply(last, e)];
    assert Next(last, Apply(last, e));
  }

  /** A first feed whose one entry is allowlisted: run up to the writes. */
  lemma AllowlistedFeedPrepared(c: nat) returns (trace: seq<State<nat, nat>>)
    ensures Run(trace) && trace[0].shared.commit.None?
    ensures var s := trace[|trace| - 1];
            |s.jobs| == 1 && s.jobs[0].FeedPrepared? && s.jobs[0].commit == c && s.jobs[0].feed == Prepared([], 1)
  {
    trace := [State(Shared(Maps(map[], {}), 0, None), None, None, None, [FeedIdle(false)])];
    trace := ExtendRun(trace, AcquireSync(0));
    trace := ExtendRun(trace, AcquireMaps(0));
    trace := ExtendRun(trace, Fetch(0, Some((false, c))));
    trace := ExtendRun(trace, Prepare(0, Some(Prepared([], 1))));
  }

  /** Its end: the outcome is "up to date", yet commit and registry were replaced. */
  lemma ReloadReportedUpToDate(c: nat) returns (trace: seq<State<nat, nat>>)
    ensures Run(trace) && trace[0].shared.commit.None?
    ensures var s := trace[|trace| - 1];
            s.jobs == [Ended(UpToDate(Some(c)))] && s.shared.commit == Some(c) && s.shared.registry == 1
  {
    trace := AllowlistedFeedPrepared(c);
    trace := ExtendRun(trace, Load(0, 0));
    trace := ExtendRun(trace, Register(0));
    trace := ExtendRun(trace, StoreCommit(0));
    trace := ExtendRun(trace, Return(0));
  }
}
