/** Where every imported entry comes from: whatever the interleaving, the entries of one file are
    imported, and numbered, in the order of its lines. */
module ImportOrder {
  import opened Import
  import opened Lists

  /** A place in the feed files. */
  datatype Place = Place(file: nat, position: nat)

  predicate Stands<E(==)>(c: Config<E>, p: Place, entry: E) {
    p.file < |c.files| && p.position < |c.files[p.file]| && c.files[p.file][p.position] == Good(entry)
  }

  predicate StandEach<E(==)>(c: Config<E>, places: seq<Place>, entries: seq<E>) {
    |places| == |entries| && forall k :: 0 <= k < |places| ==> Stands(c, places[k], entries[k])
  }

  // ----- places in the order of their lines ----------------------------------------------

  /** How many of the places are in a file. */
  function Count(places: seq<Place>, file: nat): nat {
    if places == [] then 0 else
    var n := |places| - 1;
    Count(places[..n], file) + if places[n].file == file then 1 else 0
  }

  /** Each place is the next one of its file. */
  predicate Ordered(places: seq<Place>) {
    forall k :: 0 <= k < |places| ==> places[k].position == Count(places[..k], places[k].file)
  }

  predicate Without(places: seq<Place>, file: nat) {
    forall k :: 0 <= k < |places| ==> places[k].file != file
  }

  lemma {:induction false} CountConcat(a: seq<Place>, b: seq<Place>, file: nat)
    ensures Count(a + b, file) == Count(a, file) + Count(b, file)
  {
    if b == [] {
      assert a + b == a;
    } else {
      CountConcat(a, b[..|b| - 1], file);
      TakeConcat(a, b, |b| - 1);
    }
  }

  lemma {:induction false} CountNone(places: seq<Place>, file: nat)
    requires Without(places, file)
    ensures Count(places, file) == 0
  {
    if places != [] { CountNone(places[..|places| - 1], file); }
  }

  lemma {:induction false} CountMonotone(places: seq<Place>, j: nat, k: nat, file: nat)
    requires j <= k <= |places|
    ensures Count(places[..j], file) <= Count(places[..k], file)
  {
    if j < k {
      CountMonotone(places, j, k - 1, file);
      assert places[..k][..k - 1] == places[..k - 1];
    }
  }

  lemma CountNext(places: seq<Place>, k: nat)
    requires k < |places|
    ensures Count(places[..k + 1], places[k].file) == Count(places[..k], places[k].file) + 1
  {
    assert places[..k + 1][..k] == places[..k];
  }

  lemma OrderedSnoc(places: seq<Place>, p: Place)
    requires Ordered(places) && p.position == Count(places, p.file)
    ensures Ordered(places + [p])
  {
    var longer := places + [p];
    SnocTake(places, p);
    forall k | 0 <= k < |longer| ensures longer[k].position == Count(longer[..k], longer[k].file) {
      if k < |places| { assert longer[..k] == places[..k]; }
    }
  }

  lemma OrderedPrefix(places: seq<Place>, n: nat)
    requires Ordered(places) && n <= |places|
    ensures Ordered(places[..n])
  {
    forall k | 0 <= k < n ensures places[..n][k].position == Count(places[..n][..k], places[..n][k].file) {
      assert places[..n][..k] == places[..k];
    }
  }

  /** Places of other files in between do not matter. */
  lemma OrderedBetween(line: seq<Place>, sent: seq<Place>, buffer: seq<Place>)
    requires Ordered(line + sent) && Ordered(line + buffer)
    requires forall k :: 0 <= k < |buffer| ==> Without(sent, buffer[k].file)
    ensures Ordered(line + sent + buffer)
  {
    var all := line + sent + buffer;
    forall k | 0 <= k < |all| ensures all[k].position == Count(all[..k], all[k].file) {
      if k < |line + sent| {
        assert all[..k] == (line + sent)[..k] && all[k] == (line + sent)[k];
      } else {
        PlaceBehind(line, sent, buffer, k - |line + sent|);
      }
    }
  }

  lemma PlaceBehind(line: seq<Place>, sent: seq<Place>, buffer: seq<Place>, k: nat)
    requires k < |buffer| && Ordered(line + buffer) && Without(sent, buffer[k].file)
    ensures buffer[k].position == Count((line + sent + buffer)[..|line + sent| + k], buffer[k].file)
  {
    var f := buffer[k].file;
    assert (line + buffer)[|line| + k] == buffer[k];
    TakeConcat(line, buffer, k);
    TakeConcat(line + sent, buffer, k);
    CountConcat(line, buffer[..k], f);
    CountConcat(line + sent, buffer[..k], f);
    CountConcat(line, sent, f);
    CountNone(sent, f);
  }

  lemma OrderedAscends(places: seq<Place>, j: nat, k: nat)
    requires Ordered(places) && j < k < |places| && places[j].file == places[k].file
    ensures places[j].position < places[k].position
  {
    CountNext(places, j);
    CountMonotone(places, j + 1, k, places[k].file);
  }

  /** Every place up to the count is there. */
  lemma {:induction false} OrderedFills(places: seq<Place>, n: nat, file: nat, position: nat) returns (k: nat)
    requires Ordered(places) && n <= |places| && position < Count(places[..n], file)
    ensures k < n && places[k] == Place(file, position)
  {
    assert places[..n][..n - 1] == places[..n - 1];
    if places[n - 1].file == file && position == Count(places[..n - 1], file) {
      k := n - 1;
    } else {
      k := OrderedFills(places, n - 1, file, position);
    }
  }

  // ----- where the entries in a state come from --------------------------------------------

  /** The places of what is imported or in the channel, and of each worker's buffer. */
  datatype Sources = Sources(line: seq<Place>, buffers: seq<seq<Place>>)

  function BufferOf<E>(w: Worker<E>): seq<E> {
    if w.Erring? || w.Exited() then [] else w.buffer
  }

  predicate Owns(claims: seq<(nat, nat)>, i: nat, file: nat) { file < |claims| && claims[file].0 == i }

  /** A worker holds entries of files it claimed only. */
  predicate Follows<E(==)>(c: Config<E>, claims: seq<(nat, nat)>, i: nat, w: Worker<E>, buffer: seq<Place>) {
    && StandEach(c, buffer, BufferOf(w)) && (w.Parsing? ==> Owns(claims, i, w.file))
    && forall k :: 0 <= k < |buffer| ==> Owns(claims, i, buffer[k].file)
  }

  /** Its buffer continues the line, up to where it has parsed. */
  predicate Continues<E>(line: seq<Place>, w: Worker<E>, buffer: seq<Place>) {
    Ordered(line + buffer) && (w.Parsing? ==> w.position == Count(line + buffer, w.file))
  }

  /** A claimed file is being parsed, or all of it is on its way. */
  predicate FileRead<E>(c: Config<E>, claims: seq<(nat, nat)>, workers: seq<Worker<E>>, src: Sources, file: nat) {
    file < |claims| && file < |c.files| && var i := claims[file].0;
    i < |workers| && i < |src.buffers| && WorkerRead(c, workers[i], src.line + src.buffers[i], file)
  }

  predicate WorkerRead<E>(c: Config<E>, w: Worker<E>, places: seq<Place>, file: nat)
    requires file < |c.files|
  {
    (w.Parsing? && w.file == file) || Count(places, file) == |c.files[file]|
  }

  ghost predicate LineOk<E>(c: Config<E>, entries: seq<E>, claimed: nat, line: seq<Place>) {
    && StandEach(c, line, entries) && Ordered(line)
    && forall k :: 0 <= k < |line| ==> line[k].file < claimed
  }

  ghost predicate BuffersOk<E>(c: Config<E>, claims: seq<(nat, nat)>, workers: seq<Worker<E>>, faulted: bool, src: Sources) {
    && |src.buffers| == |workers|
    && (forall i :: 0 <= i < |workers| ==> Follows(c, claims, i, workers[i], src.buffers[i]))
    && (!faulted ==> forall i :: 0 <= i < |workers| ==> Continues(src.line, workers[i], src.buffers[i]))
  }

  ghost predicate FilesOk<E>(c: Config<E>, claims: seq<(nat, nat)>, workers: seq<Worker<E>>, src: Sources) {
    forall f :: 0 <= f < |claims| ==> FileRead(c, claims, workers, src, f)
  }

  /** Imported entries first, then the channel. */
  ghost function OnTheWay<E>(s: State<E>): seq<E> { Entries(s.imported) + Flatten(s.channel) }

  ghost predicate Traced<E>(c: Config<E>, s: State<E>, src: Sources) {
    && LineOk(c, OnTheWay(s), |s.claims|, src.line)
    && BuffersOk(c, s.claims, s.workers, s.faulted, src)
    && (Clean(s) ==> FilesOk(c, s.claims, s.workers, src))
  }

  // ----- the worker that moves ---------------------------------------------------------------

  ghost function NextBuffer<E>(w: Worker<E>, m: Move<E>, buffer: seq<Place>): seq<Place> {
    if m.sends != [] then []
    else if w.Parsing? && m.next.Parsing? then buffer + [Place(w.file, w.position)]
    else if BufferOf(m.next) == [] then []
    else buffer
  }

  ghost function NextLine<E>(line: seq<Place>, m: Move<E>, buffer: seq<Place>): seq<Place> {
    if m.sends != [] then line + buffer else line
  }

  lemma OwnsStill(claims: seq<(nat, nat)>, more: seq<(nat, nat)>, i: nat, file: nat)
    requires claims <= more && Owns(claims, i, file)
    ensures Owns(more, i, file)
  {
  }

  lemma FollowsStill<E>(c: Config<E>, claims: seq<(nat, nat)>, more: seq<(nat, nat)>, i: nat, w: Worker<E>, buffer: seq<Place>)
    requires claims <= more && Follows(c, claims, i, w, buffer)
    ensures Follows(c, more, i, w, buffer)
  {
    forall k | 0 <= k < |buffer| ensures Owns(more, i, buffer[k].file) {
      OwnsStill(claims, more, i, buffer[k].file);
    }
  }

  /** How a move changes what is being parsed. */
  ghost predicate Shaped<E>(c: Config<E>, fileIndex: nat, w: Worker<E>, m: Move<E>) {
    && (m.sends != [] && m.next.Parsing? ==> w.Parsing? && m.next.file == w.file && m.next.position == w.position)
    && (m.sends == [] && m.next.Parsing? ==>
          if w.Claiming? then m.next.file == fileIndex < |c.files| && m.next.position == 0
          else w.Parsing? && m.next.file == w.file && m.next.position == w.position + 1)
    && (m.sends == [] && w.Claiming? && m.next.Parsing? ==> m.next.buffer == w.buffer)
    && (m.takesIndex ==> w.Claiming? && (fileIndex < |c.files| ==> m.next.Parsing?))
  }

  lemma MoveShape<E>(c: Config<E>, fileIndex: nat, abort: bool, open: bool, w: Worker<E>)
    ensures Shaped(c, fileIndex, w, WorkerMove(c, fileIndex, abort, open, w))
  {
  }

  /** How a move changes the buffer. */
  ghost predicate Buffers<E>(c: Config<E>, w: Worker<E>, m: Move<E>) {
    if m.sends == [] && w.Parsing? && m.next.Parsing? then
      && w.file < |c.files| && w.position < |c.files[w.file]| && c.files[w.file][w.position].Good?
      && m.next.buffer == w.buffer + [c.files[w.file][w.position].entry]
    else BufferOf(m.next) == [] || (m.sends == [] && BufferOf(m.next) == BufferOf(w))
  }

  lemma MoveBuffer<E>(c: Config<E>, fileIndex: nat, abort: bool, open: bool, w: Worker<E>)
    ensures Buffers(c, w, WorkerMove(c, fileIndex, abort, open, w))
  {
  }

  lemma NextStands<E>(c: Config<E>, w: Worker<E>, m: Move<E>, buffer: seq<Place>)
    requires Buffers(c, w, m) && StandEach(c, buffer, BufferOf(w)) && (m.sends != [] ==> BufferOf(m.next) == [])
    ensures StandEach(c, NextBuffer(w, m, buffer), BufferOf(m.next))
  {
  }

  lemma MoveFollows<E>(c: Config<E>, claims: seq<(nat, nat)>, more: seq<(nat, nat)>, i: nat, fileIndex: nat, w: Worker<E>,
                       m: Move<E>, buffer: seq<Place>)
    requires Shaped(c, fileIndex, w, m) && Buffers(c, w, m) && Follows(c, claims, i, w, buffer) && claims <= more
    requires w.Claiming? && m.next.Parsing? ==> Owns(more, i, fileIndex)
    ensures Follows(c, more, i, m.next, NextBuffer(w, m, buffer))
  {
    FollowsStill(c, claims, more, i, w, buffer);
    NextStands(c, w, m, buffer);
  }

  lemma NewFile(line: seq<Place>, buffer: seq<Place>, i: nat, claims: seq<(nat, nat)>)
    requires forall k :: 0 <= k < |line| ==> line[k].file < |claims|
    requires forall k :: 0 <= k < |buffer| ==> Owns(claims, i, buffer[k].file)
    ensures Count(line + buffer, |claims|) == 0
  {
    CountNone(line + buffer, |claims|);
  }

  lemma ParsedNext(line: seq<Place>, buffer: seq<Place>, p: Place)
    requires Ordered(line + buffer) && p.position == Count(line + buffer, p.file)
    ensures Ordered(line + (buffer + [p])) && Count(line + (buffer + [p]), p.file) == p.position + 1
  {
    Associative(line, buffer, [p]);
    OrderedSnoc(line + buffer, p);
    SnocTake(line + buffer, p);
  }

  lemma NothingAdded<T>(line: seq<T>)
    ensures line + [] == line
  {
  }

  lemma SendContinues<E>(line: seq<Place>, w: Worker<E>, buffer: seq<Place>, next: Worker<E>)
    requires Continues(line, w, buffer) && (next.Parsing? ==> w.Parsing? && next.file == w.file && next.position == w.position)
    ensures Continues(line + buffer, next, [])
  {
    NothingAdded(line + buffer);
  }

  lemma QuietContinues<E>(line: seq<Place>, w: Worker<E>, buffer: seq<Place>, next: Worker<E>, kept: seq<Place>)
    requires Continues(line, w, buffer) && Ordered(line) && (kept == buffer || kept == []) && !next.Parsing?
    ensures Continues(line, next, kept)
  {
    NothingAdded(line);
  }

  lemma MoveContinues<E>(c: Config<E>, claims: seq<(nat, nat)>, i: nat, fileIndex: nat, w: Worker<E>, m: Move<E>,
                         line: seq<Place>, buffer: seq<Place>)
    requires Shaped(c, fileIndex, w, m) && Follows(c, claims, i, w, buffer) && (fileIndex < |c.files| ==> |claims| == fileIndex)
    requires Continues(line, w, buffer) && Ordered(line) && forall k :: 0 <= k < |line| ==> line[k].file < |claims|
    ensures Continues(NextLine(line, m, buffer), m.next, NextBuffer(w, m, buffer))
  {
    if m.sends != [] {
      SendContinues(line, w, buffer, m.next);
    } else if !m.next.Parsing? {
      QuietContinues(line, w, buffer, m.next, NextBuffer(w, m, buffer));
    } else if w.Claiming? {
      ClaimContinues(line, w, buffer, i, claims, m.next);
      SameClaimed(c, w, m, buffer);
    } else {
      ParsedNext(line, buffer, Place(w.file, w.position));
    }
  }

  lemma SameClaimed<E>(c: Config<E>, w: Worker<E>, m: Move<E>, buffer: seq<Place>)
    requires StandEach(c, buffer, BufferOf(w)) && w.Claiming? && m.next.Parsing? && m.next.buffer == w.buffer && m.sends == []
    ensures NextBuffer(w, m, buffer) == buffer
  {
  }

  lemma ClaimContinues<E>(line: seq<Place>, w: Worker<E>, buffer: seq<Place>, i: nat, claims: seq<(nat, nat)>, next: Worker<E>)
    requires Continues(line, w, buffer) && next.Parsing? && next.file == |claims| && next.position == 0
    requires forall k :: 0 <= k < |line| ==> line[k].file < |claims|
    requires forall k :: 0 <= k < |buffer| ==> Owns(claims, i, buffer[k].file)
    ensures Continues(line, next, buffer)
  {
    NewFile(line, buffer, i, claims);
  }

  // ----- the others ----------------------------------------------------------------------------

  /** Files of one worker are not in the buffer of another. */
  lemma NotShared(claims: seq<(nat, nat)>, i: nat, sent: seq<Place>, j: nat, file: nat)
    requires i != j && Owns(claims, j, file) && forall k :: 0 <= k < |sent| ==> Owns(claims, i, sent[k].file)
    ensures Without(sent, file)
  {
  }

  lemma CountBetween(line: seq<Place>, sent: seq<Place>, buffer: seq<Place>, file: nat)
    requires Without(sent, file)
    ensures Count(line + sent + buffer, file) == Count(line + buffer, file)
  {
    CountConcat(line + sent, buffer, file);
    CountConcat(line, sent, file);
    CountConcat(line, buffer, file);
    CountNone(sent, file);
  }

  lemma OtherContinues<E>(c: Config<E>, claims: seq<(nat, nat)>, i: nat, sent: seq<Place>, v: Worker<E>,
                          j: nat, w: Worker<E>, line: seq<Place>, buffer: seq<Place>)
    requires i != j && Follows(c, claims, i, v, sent) && Follows(c, claims, j, w, buffer)
    requires Ordered(line + sent) && Continues(line, w, buffer)
    ensures Continues(line + sent, w, buffer)
  {
    forall k | 0 <= k < |buffer| ensures Without(sent, buffer[k].file) {
      NotShared(claims, i, sent, j, buffer[k].file);
    }
    OrderedBetween(line, sent, buffer);
    if w.Parsing? {
      NotShared(claims, i, sent, j, w.file);
      CountBetween(line, sent, buffer, w.file);
    }
  }

  // ----- one step of a worker --------------------------------------------------------------------

  ghost function MovedSources<E>(src: Sources, i: nat, w: Worker<E>, m: Move<E>): Sources
    requires i < |src.buffers|
  {
    Sources(NextLine(src.line, m, src.buffers[i]), src.buffers[i := NextBuffer(w, m, src.buffers[i])])
  }

  lemma StandConcat<E>(c: Config<E>, places: seq<Place>, entries: seq<E>, more: seq<Place>, others: seq<E>)
    requires StandEach(c, places, entries) && StandEach(c, more, others)
    ensures StandEach(c, places + more, entries + others)
  {
  }

  lemma SentLine<E>(c: Config<E>, claims: seq<(nat, nat)>, i: nat, entries: seq<E>, w: Worker<E>, line: seq<Place>, buffer: seq<Place>)
    requires LineOk(c, entries, |claims|, line) && Follows(c, claims, i, w, buffer) && Ordered(line + buffer)
    ensures LineOk(c, entries + BufferOf(w), |claims|, line + buffer)
  {
    StandConcat(c, line, entries, buffer, BufferOf(w));
  }

  lemma SentOnTheWay<E>(s: State<E>, s': State<E>, sends: seq<seq<E>>, batch: seq<E>)
    requires s'.imported == s.imported && s'.channel == s.channel + sends && (sends == [] || sends == [batch])
    ensures OnTheWay(s') == if sends == [] then OnTheWay(s) else OnTheWay(s) + batch
  {
    NothingAdded(s.channel);
    FlattenSnoc(s.channel, batch);
    Associative(Entries(s.imported), Flatten(s.channel), batch);
  }

  lemma MoveBuffers<E>(c: Config<E>, s: State<E>, i: nat, m: Move<E>, claims: seq<(nat, nat)>, src: Sources, j: nat)
    requires Traced(c, s, src) && i < |s.workers| && j < |s.workers| && i != j && s.claims <= claims
    ensures Follows(c, claims, j, s.workers[j], src.buffers[j])
    ensures !s.faulted ==> Continues(NextLine(src.line, m, src.buffers[i]), s.workers[j], src.buffers[j])
  {
    assert Follows(c, s.claims, j, s.workers[j], src.buffers[j]) && Follows(c, s.claims, i, s.workers[i], src.buffers[i]);
    FollowsStill(c, s.claims, claims, j, s.workers[j], src.buffers[j]);
    if !s.faulted {
      assert Continues(src.line, s.workers[i], src.buffers[i]);
      OtherContinues(c, s.claims, i, src.buffers[i], s.workers[i], j, s.workers[j], src.line, src.buffers[j]);
    }
  }

  /** The file the moving worker read, if any, is still read or complete. */
  lemma OwnFile<E>(c: Config<E>, claims: seq<(nat, nat)>, i: nat, fileIndex: nat, abort: bool, open: bool,
                   w: Worker<E>, line: seq<Place>, buffer: seq<Place>, f: nat)
    requires Continues(line, w, buffer) && StandEach(c, buffer, BufferOf(w))
    requires (w.Parsing? ==> w.file < |c.files| && w.position <= |c.files[w.file]|) && c.batchSize > 0
    requires var next := WorkerMove(c, fileIndex, abort, open, w).next; !next.Erring? && !next.Failed?
    requires f < |c.files| && WorkerRead(c, w, line + buffer, f)
    ensures var m := WorkerMove(c, fileIndex, abort, open, w);
            WorkerRead(c, m.next, NextLine(line, m, buffer) + NextBuffer(w, m, buffer), f)
  {
    var m := WorkerMove(c, fileIndex, abort, open, w);
    if m.sends != [] {
      NothingAdded(line + buffer);
    } else if w.Parsing? && m.next.Parsing? {
      var p := Place(w.file, w.position);
      Associative(line, buffer, [p]);
      SnocTake(line + buffer, p);
    } else {
      SameBuffer(w, m, buffer, c);
    }
  }

  lemma SameBuffer<E>(w: Worker<E>, m: Move<E>, buffer: seq<Place>, c: Config<E>)
    requires m.sends == [] && !(w.Parsing? && m.next.Parsing?) && StandEach(c, buffer, BufferOf(w)) && BufferOf(m.next) == BufferOf(w)
    ensures NextBuffer(w, m, buffer) == buffer
  {
  }

  /** What is known before a worker moves. */
  ghost predicate Ready<E>(c: Config<E>, s: State<E>, src: Sources, i: nat, m: Move<E>, s': State<E>) {
    && Inv(c, s) && Traced(c, s, src) && Enabled(c, s, Work(i)) && s' == WorkerStep(c, s, i)
    && m == WorkerMove(c, s.fileIndex, s.abort, s.phase.Consuming?, s.workers[i])
  }

  lemma MoveSends<E>(c: Config<E>, fileIndex: nat, abort: bool, open: bool, w: Worker<E>)
    ensures var m := WorkerMove(c, fileIndex, abort, open, w);
            m.sends == [] || (m.sends == [BufferOf(w)] && open && !m.takesIndex)
  {
  }

  lemma StepOnTheWay<E>(c: Config<E>, s: State<E>, i: nat, m: Move<E>, s': State<E>)
    requires i < |s.workers| && s' == WorkerStep(c, s, i)
    requires m == WorkerMove(c, s.fileIndex, s.abort, s.phase.Consuming?, s.workers[i])
    ensures OnTheWay(s') == if m.sends == [] then OnTheWay(s) else OnTheWay(s) + BufferOf(s.workers[i])
  {
    MoveSends(c, s.fileIndex, s.abort, s.phase.Consuming?, s.workers[i]);
    SentOnTheWay(s, s', m.sends, BufferOf(s.workers[i]));
  }

  /** What the step does to the claims. */
  lemma StepClaims<E>(c: Config<E>, s: State<E>, src: Sources, i: nat, m: Move<E>, s': State<E>)
    requires Ready(c, s, src, i, m, s')
    ensures s.claims <= s'.claims && (m.sends != [] ==> s'.claims == s.claims && !s.faulted)
  {
    MoveSends(c, s.fileIndex, s.abort, s.phase.Consuming?, s.workers[i]);
  }

  lemma LineStill<E>(c: Config<E>, entries: seq<E>, claimed: nat, more: nat, line: seq<Place>)
    requires LineOk(c, entries, claimed, line) && claimed <= more
    ensures LineOk(c, entries, more, line)
  {
  }

  lemma WorkLine<E>(c: Config<E>, s: State<E>, src: Sources, i: nat, m: Move<E>, s': State<E>)
    requires Ready(c, s, src, i, m, s')
    ensures LineOk(c, OnTheWay(s'), |s'.claims|, NextLine(src.line, m, src.buffers[i]))
  {
    StepClaims(c, s, src, i, m, s');
    StepOnTheWay(c, s, i, m, s');
    if m.sends != [] {
      assert Continues(src.line, s.workers[i], src.buffers[i]) && Follows(c, s.claims, i, s.workers[i], src.buffers[i]);
      SentLine(c, s.claims, i, OnTheWay(s), s.workers[i], src.line, src.buffers[i]);
    } else {
      LineStill(c, OnTheWay(s), |s.claims|, |s'.claims|, src.line);
    }
  }

  lemma WorkBuffers<E>(c: Config<E>, s: State<E>, src: Sources, i: nat, m: Move<E>, s': State<E>)
    requires Ready(c, s, src, i, m, s')
    ensures BuffersOk(c, s'.claims, s'.workers, s'.faulted, MovedSources(src, i, s.workers[i], m))
  {
    var src' := MovedSources(src, i, s.workers[i], m);
    var w, buffer := s.workers[i], src.buffers[i];
    assert Follows(c, s.claims, i, w, buffer);
    MoveShape(c, s.fileIndex, s.abort, s.phase.Consuming?, w);
    MoveBuffer(c, s.fileIndex, s.abort, s.phase.Consuming?, w);
    StepClaims(c, s, src, i, m, s');
    SameOrOneMore(c, s, i, m, s');
    MoveFollows(c, s.claims, s'.claims, i, s.fileIndex, w, m, buffer);
    forall j | 0 <= j < |s'.workers|
      ensures Follows(c, s'.claims, j, s'.workers[j], src'.buffers[j])
      ensures !s'.faulted ==> Continues(src'.line, s'.workers[j], src'.buffers[j])
    {
      if j != i {
        MoveBuffers(c, s, i, m, s'.claims, src, j);
      } else if !s.faulted {
        MoveContinues(c, s.claims, i, s.fileIndex, w, m, src.line, buffer);
      }
    }
  }

  lemma OthersFile<E>(c: Config<E>, s: State<E>, src: Sources, i: nat, m: Move<E>, s': State<E>, f: nat)
    requires Ready(c, s, src, i, m, s') && s.claims <= s'.claims
    requires FileRead(c, s.claims, s.workers, src, f) && s.claims[f].0 != i
    ensures FileRead(c, s'.claims, s'.workers, MovedSources(src, i, s.workers[i], m), f)
  {
    var j := s.claims[f].0;
    assert Follows(c, s.claims, i, s.workers[i], src.buffers[i]);
    NotShared(s.claims, i, src.buffers[i], j, f);
    CountBetween(src.line, src.buffers[i], src.buffers[j], f);
  }

  lemma OwnFileStep<E>(c: Config<E>, s: State<E>, src: Sources, i: nat, m: Move<E>, s': State<E>, f: nat)
    requires Ready(c, s, src, i, m, s') && Clean(s) && Clean(s') && s.claims <= s'.claims
    requires FileRead(c, s.claims, s.workers, src, f) && s.claims[f].0 == i
    ensures FileRead(c, s'.claims, s'.workers, MovedSources(src, i, s.workers[i], m), f)
  {
    assert s'.workers[i] == m.next && WorkerOk(c, s.fileIndex, Clean(s), s.faulted, s.workers[i]);
    assert Continues(src.line, s.workers[i], src.buffers[i]) && Follows(c, s.claims, i, s.workers[i], src.buffers[i]);
    OwnFile(c, s.claims, i, s.fileIndex, s.abort, s.phase.Consuming?, s.workers[i], src.line, src.buffers[i], f);
  }

  lemma ClaimedFile<E>(c: Config<E>, s: State<E>, src: Sources, i: nat, m: Move<E>, s': State<E>, f: nat)
    requires Ready(c, s, src, i, m, s') && |s.claims| <= f < |s'.claims|
    ensures FileRead(c, s'.claims, s'.workers, MovedSources(src, i, s.workers[i], m), f)
  {
    MoveShape(c, s.fileIndex, s.abort, s.phase.Consuming?, s.workers[i]);
    SameOrOneMore(c, s, i, m, s');
  }

  lemma SameOrOneMore<E>(c: Config<E>, s: State<E>, i: nat, m: Move<E>, s': State<E>)
    requires Inv(c, s) && i < |s.workers| && s' == WorkerStep(c, s, i)
    requires m == WorkerMove(c, s.fileIndex, s.abort, s.phase.Consuming?, s.workers[i])
    ensures s'.claims == s.claims || (m.takesIndex && |s.claims| == s.fileIndex < |c.files| && s'.claims == s.claims + [(i, s.fileIndex)])
  {
  }

  lemma WorkFile<E>(c: Config<E>, s: State<E>, src: Sources, i: nat, m: Move<E>, s': State<E>, f: nat)
    requires Ready(c, s, src, i, m, s') && Clean(s) && Clean(s') && f < |s'.claims|
    ensures FileRead(c, s'.claims, s'.workers, MovedSources(src, i, s.workers[i], m), f)
  {
    StepClaims(c, s, src, i, m, s');
    if f >= |s.claims| {
      ClaimedFile(c, s, src, i, m, s', f);
    } else {
      assert FileRead(c, s.claims, s.workers, src, f);
      if s.claims[f].0 == i { OwnFileStep(c, s, src, i, m, s', f); } else { OthersFile(c, s, src, i, m, s', f); }
    }
  }

  lemma WorkTraced<E>(c: Config<E>, s: State<E>, src: Sources, i: nat, m: Move<E>, s': State<E>)
    requires Ready(c, s, src, i, m, s')
    ensures Traced(c, s', MovedSources(src, i, s.workers[i], m))
  {
    WorkLine(c, s, src, i, m, s');
    WorkBuffers(c, s, src, i, m, s');
    if Clean(s') {
      CleanBefore(c, s, Work(i));
      forall f | 0 <= f < |s'.claims| ensures FileRead(c, s'.claims, s'.workers, MovedSources(src, i, s.workers[i], m), f) {
        WorkFile(c, s, src, i, m, s', f);
      }
    }
  }

  // ----- the coordinator ---------------------------------------------------------------------------

  lemma ReceivedOnTheWay<E>(imported: seq<(nat, E)>, channel: seq<seq<E>>, start: nat)
    requires channel != []
    ensures Entries(imported + Numbered(Number, channel[0], start)) + Flatten(channel[1..]) == Entries(imported) + Flatten(channel)
  {
    FlattenCons(channel);
    EntriesConcat(imported, channel[0], start);
    Associative(Entries(imported), channel[0], Flatten(channel[1..]));
  }

  lemma ReceiveTraced<E>(c: Config<E>, s: State<E>, src: Sources, s': State<E>)
    requires Traced(c, s, src) && s.channel != []
    requires s' == s.(channel := s.channel[1..], imported := s.imported + Numbered(Number, s.channel[0], |s.imported| + 1))
    ensures Traced(c, s', src)
  {
    ReceivedOnTheWay(s.imported, s.channel, |s.imported| + 1);
    SameTraced(c, s, src, s');
  }

  lemma SameTraced<E>(c: Config<E>, s: State<E>, src: Sources, s': State<E>)
    requires Traced(c, s, src) && OnTheWay(s') == OnTheWay(s)
    requires s'.claims == s.claims && s'.workers == s.workers && s'.faulted == s.faulted
    ensures Traced(c, s', src)
  {
  }

  lemma FaultTraced<E>(c: Config<E>, s: State<E>, src: Sources)
    requires Traced(c, s, src)
    ensures |s.imported| <= |src.line| && Traced(c, Fault(s), Sources(src.line[..|s.imported|], src.buffers))
  {
    OrderedPrefix(src.line, |s.imported|);
    assert OnTheWay(s)[..|s.imported|] == Entries(s.imported);
    NothingAdded(Entries(s.imported));
  }

  lemma StepTraced<E>(c: Config<E>, s: State<E>, src: Sources, e: Event, s': State<E>) returns (src': Sources)
    requires Inv(c, s) && Traced(c, s, src) && Enabled(c, s, e) && s' == Apply(c, s, e)
    ensures Traced(c, s', src')
  {
    if e.Work? {
      var m := WorkerMove(c, s.fileIndex, s.abort, s.phase.Consuming?, s.workers[e.worker]);
      WorkTraced(c, s, src, e.worker, m, s');
      src' := MovedSources(src, e.worker, s.workers[e.worker], m);
    } else if s' == Fault(s) {
      FaultTraced(c, s, src);
      src' := Sources(src.line[..|s.imported|], src.buffers);
    } else {
      src' := src;
      if e.Receive? { ReceiveTraced(c, s, src, s'); } else { SameTraced(c, s, src, s'); }
    }
  }

  lemma InitTraced<E>(c: Config<E>, s: State<E>) returns (src: Sources)
    requires Init(c, s)
    ensures Traced(c, s, src)
  {
    src := Sources([], seq(|s.workers|, _ => []));
  }

  lemma StepAt<E(!new)>(c: Config<E>, trace: seq<State<E>>, i: nat) returns (e: Event)
    requires Run(c, trace) && i + 1 < |trace|
    ensures Enabled(c, trace[i], e) && trace[i + 1] == Apply(c, trace[i], e) && Inv(c, trace[i])
  {
    RunInv(c, trace, i);
    assert Next(c, trace[i], trace[i + 1]);
    e :| Enabled(c, trace[i], e) && Apply(c, trace[i], e) == trace[i + 1];
  }

  lemma {:induction false} RunTraced<E(!new)>(c: Config<E>, trace: seq<State<E>>, i: nat) returns (src: Sources)
    requires Run(c, trace) && i < |trace|
    ensures Traced(c, trace[i], src)
  {
    if i == 0 {
      src := InitTraced(c, trace[0]);
    } else {
      src := RunTraced(c, trace, i - 1);
      var e := StepAt(c, trace, i - 1);
      src := StepTraced(c, trace[i - 1], src, e, trace[i]);
    }
  }

  // ----- the guarantees ----------------------------------------------------------------------------

  /** Every imported entry has its place in a claimed file. Of one file, an entry is imported after
      all entries above it and none is left out. */
  ghost predicate InFileOrder<E>(c: Config<E>, s: State<E>, from: seq<Place>) {
    && StandEach(c, from, Entries(s.imported))
    && (forall k :: 0 <= k < |from| ==> from[k].file < |s.claims|)
    && (forall j, k :: 0 <= j < k < |from| && from[j].file == from[k].file ==> from[j].position < from[k].position)
    && (forall k, p: nat :: 0 <= k < |from| && p < from[k].position ==> Place(from[k].file, p) in from[..k])
  }

  lemma IsInFileOrder<E>(c: Config<E>, s: State<E>, from: seq<Place>)
    requires StandEach(c, from, Entries(s.imported)) && Ordered(from)
    requires forall k :: 0 <= k < |from| ==> from[k].file < |s.claims|
    ensures InFileOrder(c, s, from)
  {
    forall j, k | 0 <= j < k < |from| && from[j].file == from[k].file ensures from[j].position < from[k].position {
      OrderedAscends(from, j, k);
    }
    forall k, p: nat | 0 <= k < |from| && p < from[k].position ensures Place(from[k].file, p) in from[..k] {
      var j := OrderedFills(from, k, from[k].file, p);
      assert from[..k][j] == Place(from[k].file, p);
    }
  }

  /** After success nothing is on its way any more. */
  lemma FileImported<E>(c: Config<E>, s: State<E>, src: Sources, f: nat)
    requires Inv(c, s) && Traced(c, s, src) && s.phase == Finished(true) && f < |s.claims|
    ensures f < |c.files| && |src.line| == |s.imported| && Count(src.line, f) == |c.files[f]|
  {
    var i := s.claims[f].0;
    assert FileRead(c, s.claims, s.workers, src, f);
    assert s.workers[i].Done? && Follows(c, s.claims, i, s.workers[i], src.buffers[i]);
    NothingAdded(src.line);
  }

  lemma AllImported<E>(c: Config<E>, s: State<E>, src: Sources, f: nat, p: nat)
    requires Inv(c, s) && Traced(c, s, src) && s.phase == Finished(true) && f < |s.claims|
    requires f < |c.files| && p < |c.files[f]|
    ensures |src.line| == |s.imported| && Place(f, p) in src.line
  {
    FileImported(c, s, src, f);
    TakeAll(src.line);
    var k := OrderedFills(src.line, |src.line|, f, p);
  }

  lemma TracedInOrder<E>(c: Config<E>, s: State<E>, src: Sources)
    requires Traced(c, s, src)
    ensures |s.imported| <= |src.line| && InFileOrder(c, s, src.line[..|s.imported|])
  {
    OrderedPrefix(src.line, |s.imported|);
    assert OnTheWay(s)[..|s.imported|] == Entries(s.imported);
    IsInFileOrder(c, s, src.line[..|s.imported|]);
  }

  /** In every reachable state the imported entries come in the order of the lines of each file; a
      successful import has all of them. */
  lemma ImportedInFileOrder<E(!new)>(c: Config<E>, trace: seq<State<E>>, i: nat) returns (from: seq<Place>)
    requires Run(c, trace) && i < |trace|
    ensures InFileOrder(c, trace[i], from)
    ensures trace[i].phase == Finished(true) ==>
              forall f, p: nat :: 0 <= f < |c.files| && p < |c.files[f]| ==> Place(f, p) in from
  {
    var src := RunTraced(c, trace, i);
    TracedInOrder(c, trace[i], src);
    from := src.line[..|trace[i].imported|];
    if trace[i].phase == Finished(true) {
      RunInv(c, trace, i);
      SuccessImportsEverything(c, trace, i);
      TakeAll(src.line);
      forall f, p: nat | 0 <= f < |c.files| && p < |c.files[f]| ensures Place(f, p) in from {
        AllImported(c, trace[i], src, f, p);
      }
    }
  }

  /** The import positions of one file, ascending: there stand its first, second, ... entry, and after a
      successful import all of them. The rule id is the position counted from 1. */
  lemma FileImportedInOrder<E(!new)>(c: Config<E>, trace: seq<State<E>>, i: nat, f: nat) returns (at: seq<nat>)
    requires Run(c, trace) && i < |trace| && f < |trace[i].claims|
    ensures f < |c.files| && |at| <= |c.files[f]| && (trace[i].phase == Finished(true) ==> |at| == |c.files[f]|)
    ensures forall j, k :: 0 <= j < k < |at| ==> at[j] < at[k]
    ensures forall k :: 0 <= k < |at| ==> at[k] < |trace[i].imported| && trace[i].imported[at[k]].0 == at[k] + 1
    ensures forall k :: 0 <= k < |at| ==> c.files[f][k] == Good(trace[i].imported[at[k]].1)
  {
    var s := trace[i];
    var src := RunTraced(c, trace, i);
    RunInv(c, trace, i);
    TracedInOrder(c, s, src);
    var from := src.line[..|s.imported|];
    OrderedPrefix(src.line, |s.imported|);
    TakeAll(from);
    at := PlacesOf(from, |from|, f);
    if s.phase == Finished(true) {
      FileImported(c, s, src, f);
      TakeAll(src.line);
    }
    if at != [] { assert Stands(c, from[at[|at| - 1]], Entries(s.imported)[at[|at| - 1]]); }
  }

  lemma {:induction false} PlacesOf(places: seq<Place>, n: nat, f: nat) returns (at: seq<nat>)
    requires Ordered(places) && n <= |places|
    ensures |at| == Count(places[..n], f)
    ensures forall j, k :: 0 <= j < k < |at| ==> at[j] < at[k]
    ensures forall k :: 0 <= k < |at| ==> at[k] < n && places[at[k]] == Place(f, k)
  {
    if n == 0 {
      at := [];
    } else {
      at := PlacesOf(places, n - 1, f);
      assert places[..n][..n - 1] == places[..n - 1];
      if places[n - 1].file == f { at := at + [n - 1]; }
    }
  }
}
