/** The parallel feed import: workers stealing files through an atomic index, batches over a
    bounded channel, and one coordinator that numbers entries, over every interleaving. */
module Import {
  import opened Lists

  /** One parsed position of a feed file: an entry, or the line that fails the import. */
  datatype Item<E> = Good(entry: E) | Bad

  datatype Config<E> = Config(files: seq<seq<Item<E>>>, batchSize: nat, maxRuleId: nat)

  datatype Worker<E> =
    | Checking(buffer: seq<E>)                          // about to read the abort flag
    | Claiming(buffer: seq<E>)                          // about to take the next file index
    | Parsing(file: nat, position: nat, buffer: seq<E>)
    | Draining(buffer: seq<E>)                          // no more files, last flush
    | Erring                                            // parse or send error, abort not stored yet
    | Done
    | Failed
  {
    predicate Exited() { Done? || Failed? }
  }

  datatype Phase = Consuming | Joining(ok: bool) | Finished(ok: bool)

  datatype State<E> = State(
    fileIndex: nat,
    abort: bool,
    workers: seq<Worker<E>>,
    channel: seq<seq<E>>,
    phase: Phase,
    imported: seq<(nat, E)>,          // rule id and entry, in publication order
    claims: seq<(nat, nat)>,          // history: which worker claimed which file
    faulted: bool)                    // history: the coordinator hit a write error or id overflow
  {
    predicate AllExited() { forall i :: 0 <= i < |workers| ==> workers[i].Exited() }
    predicate AllDone() { forall i :: 0 <= i < |workers| ==> workers[i].Done? }
  }

  datatype Event = Work(worker: nat) | Receive(fault: bool) | Close(fault: bool) | Join

  predicate Init<E>(c: Config<E>, s: State<E>) {
    && c.batchSize > 0 && |s.workers| > 0
    && s.fileIndex == 0 && !s.abort && s.channel == [] && s.phase.Consuming?
    && s.imported == [] && s.claims == [] && !s.faulted
    && forall i :: 0 <= i < |s.workers| ==> s.workers[i] == Checking([])
  }

  /** A batch is waiting to be sent: the buffer is full, or the worker is draining. */
  predicate Sending<E>(c: Config<E>, w: Worker<E>) {
    (w.Parsing? && |w.buffer| >= c.batchSize) || (w.Draining? && w.buffer != [])
  }

  predicate Enabled<E>(c: Config<E>, s: State<E>, e: Event) {
    match e
    case Work(i) =>
      && i < |s.workers| && !s.workers[i].Exited()
      && (Sending(c, s.workers[i]) && s.phase.Consuming? ==> |s.channel| < |s.workers|)
    case Receive(_) => s.phase.Consuming? && s.channel != []
    case Close(_) => s.phase.Consuming? && s.channel == [] && s.AllExited()
    case Join => s.phase.Joining? && s.AllExited()
  }

  /** The effect of one worker step: its next state, and what it does to the shared ones. */
  datatype Move<E> = Move(next: Worker<E>, sends: seq<seq<E>>, takesIndex: bool, aborts: bool)

  /** One step of one worker thread, given the file index, the abort flag and whether the
      receiving end of the channel is still open. */
  function WorkerMove<E>(c: Config<E>, fileIndex: nat, abort: bool, open: bool, w: Worker<E>): Move<E> {
    match w
    case Checking(buffer) => Move(if abort then Draining(buffer) else Claiming(buffer), [], false, false)
    case Claiming(buffer) =>
      Move(if fileIndex < |c.files| then Parsing(fileIndex, 0, buffer) else Draining(buffer), [], true, false)
    case Parsing(file, position, buffer) =>
      if |buffer| >= c.batchSize then
        if open then Move(Parsing(file, position, []), [buffer], false, false) else Move(Erring, [], false, false)
      else if file < |c.files| && position < |c.files[file]| then
        match c.files[file][position] {
          case Good(entry) => Move(Parsing(file, position + 1, buffer + [entry]), [], false, false)
          case Bad => Move(Erring, [], false, false)
        }
      else Move(Checking(buffer), [], false, false)
    case Draining(buffer) =>
      if buffer == [] then Move(Done, [], false, false)
      else if open then Move(Draining([]), [buffer], false, false)
      else Move(Failed, [], false, false)
    case Erring => Move(Failed, [], false, true)
    case _ => Move(w, [], false, false)
  }

  function WorkerStep<E>(c: Config<E>, s: State<E>, i: nat): State<E>
    requires i < |s.workers|
  {
    var m := WorkerMove(c, s.fileIndex, s.abort, s.phase.Consuming?, s.workers[i]);
    s.(workers := s.workers[i := m.next],
       channel := s.channel + m.sends,
       abort := s.abort || m.aborts,
       fileIndex := if m.takesIndex then s.fileIndex + 1 else s.fileIndex,
       claims := if m.takesIndex && s.fileIndex < |c.files| then s.claims + [(i, s.fileIndex)] else s.claims)
  }

  /** Rule ids follow publication order. */
  function Number<E>(entry: E, ruleId: nat): (nat, E) { (ruleId, entry) }

  function Fault<E>(s: State<E>): State<E> {
    s.(phase := Joining(false), abort := true, channel := [], faulted := true)
  }

  function Apply<E>(c: Config<E>, s: State<E>, e: Event): State<E>
    requires Enabled(c, s, e)
  {
    match e
    case Work(i) => WorkerStep(c, s, i)
    case Receive(fault) =>
      var batch := s.channel[0];
      if fault || |s.imported| + |batch| > c.maxRuleId then Fault(s)
      else s.(channel := s.channel[1..], imported := s.imported + Numbered(Number, batch, |s.imported| + 1))
    case Close(fault) => if fault then Fault(s) else s.(phase := Joining(true))
    case Join => s.(phase := Finished(s.phase.ok && s.AllDone()))
  }

  ghost predicate Next<E>(c: Config<E>, s: State<E>, s': State<E>) {
    exists e: Event :: Enabled(c, s, e) && Apply(c, s, e) == s'
  }

  ghost predicate Run<E(!new)>(c: Config<E>, trace: seq<State<E>>) {
    |trace| > 0 && Init(c, trace[0]) && forall i :: 0 <= i < |trace| - 1 ==> Next(c, trace[i], trace[i + 1])
  }

  // ----- conservation --------------------------------------------------------------------

  ghost function Wrap<E>(entries: seq<E>): multiset<Item<E>> {
    multiset(Map((e: E) => Good(e), entries))
  }

  lemma WrapConcat<E>(a: seq<E>, b: seq<E>)
    ensures Wrap(a + b) == Wrap(a) + Wrap(b)
  {
    assert Map((e: E) => Good(e), a + b) == Map((e: E) => Good(e), a) + Map((e: E) => Good(e), b);
  }

  /** What a worker still holds: its buffer and the unparsed rest of its file. */
  ghost function Load<E>(c: Config<E>, w: Worker<E>): multiset<Item<E>> {
    match w
    case Checking(buffer) => Wrap(buffer)
    case Claiming(buffer) => Wrap(buffer)
    case Parsing(file, position, buffer) =>
      Wrap(buffer) + if file < |c.files| && position <= |c.files[file]| then multiset(c.files[file][position..]) else multiset{}
    case Draining(buffer) => Wrap(buffer)
    case _ => multiset{}
  }

  ghost function Held<E>(c: Config<E>, ws: seq<Worker<E>>): multiset<Item<E>> {
    Total((w: Worker<E>) => Load(c, w), ws)
  }

  ghost function From<E>(c: Config<E>, index: nat): multiset<Item<E>>
    decreases |c.files| - index
  {
    if index >= |c.files| then multiset{} else multiset(c.files[index]) + From(c, index + 1)
  }

  ghost function Entries<E>(imported: seq<(nat, E)>): seq<E> {
    Map((x: (nat, E)) => x.1, imported)
  }

  /** No error so far anywhere. */
  predicate Clean<E>(s: State<E>) {
    && !s.faulted
    && (forall i :: 0 <= i < |s.workers| ==> !s.workers[i].Erring? && !s.workers[i].Failed?)
  }

  ghost predicate Conserved<E>(c: Config<E>, s: State<E>) {
    From(c, 0) == Wrap(Entries(s.imported)) + Wrap(Flatten(s.channel)) + Held(c, s.workers) + From(c, s.fileIndex)
  }

  // ----- the invariant -------------------------------------------------------------------

  /** What holds of a worker, given the file index and whether errors or faults have occurred. */
  predicate WorkerOk<E>(c: Config<E>, fileIndex: nat, clean: bool, faulted: bool, w: Worker<E>) {
    && (w.Parsing? ==> w.file < |c.files| && w.file < fileIndex && w.position <= |c.files[w.file]|)
    && (w.Draining? || w.Done? ==> fileIndex >= |c.files| || !clean)
    && (w.Erring? || w.Failed? ==> faulted || HasBad(c))
  }

  predicate HasBad<E>(c: Config<E>) {
    exists f, k :: 0 <= f < |c.files| && 0 <= k < |c.files[f]| && c.files[f][k].Bad?
  }

  predicate WorkersOk<E>(c: Config<E>, s: State<E>) {
    forall i :: 0 <= i < |s.workers| ==> WorkerOk(c, s.fileIndex, Clean(s), s.faulted, s.workers[i])
  }

  predicate ClaimsOk<E>(c: Config<E>, s: State<E>) {
    && |s.claims| == (if s.fileIndex < |c.files| then s.fileIndex else |c.files|)
    && forall i :: 0 <= i < |s.claims| ==> s.claims[i].1 == i && s.claims[i].0 < |s.workers|
  }

  predicate IdsOk<E>(c: Config<E>, s: State<E>) {
    |s.imported| <= c.maxRuleId && forall i :: 0 <= i < |s.imported| ==> s.imported[i].0 == i + 1
  }

  predicate PhaseOk<E>(s: State<E>) {
    && (s.abort ==> !Clean(s))
    && (s.phase.Joining? ==> (s.phase.ok <==> !s.faulted))
    && (!s.phase.Consuming? && !s.faulted ==> s.AllExited())
    && (!s.phase.Consuming? ==> s.channel == [])
    && (s.phase.Finished? ==> s.AllExited() && (s.phase.ok <==> !s.faulted && s.AllDone()))
    && (s.faulted ==> !s.phase.Consuming?)
    && (forall i :: 0 <= i < |s.channel| ==> s.channel[i] != []) && |s.channel| <= |s.workers|
  }

  ghost predicate Inv<E>(c: Config<E>, s: State<E>) {
    && c.batchSize > 0 && |s.workers| > 0
    && WorkersOk(c, s) && ClaimsOk(c, s) && IdsOk(c, s) && PhaseOk(s)
    && (Clean(s) ==> Conserved(c, s))
  }

  lemma InitInv<E>(c: Config<E>, s: State<E>)
    requires Init(c, s)
    ensures Inv(c, s)
  {
    TotalNothing((w: Worker<E>) => Load(c, w), s.workers);
  }

  // ----- what one move keeps ----------------------------------------------------------------

  /** A move of a sound worker is sound; a worker turns bad only for a cause. */
  lemma MoveOk<E>(c: Config<E>, fileIndex: nat, abort: bool, open: bool, w: Worker<E>, clean: bool, faulted: bool)
    requires WorkerOk(c, fileIndex, clean, faulted, w) && (abort ==> !clean) && (!open ==> faulted) && c.batchSize > 0
    ensures var m := WorkerMove(c, fileIndex, abort, open, w);
            && WorkerOk(c, if m.takesIndex then fileIndex + 1 else fileIndex, clean, faulted, m.next)
            && (m.aborts ==> w.Erring?)
            && (forall i :: 0 <= i < |m.sends| ==> m.sends[i] != []) && (m.sends != [] ==> Sending(c, w) && open)
  {
  }

  /** Nothing appears or disappears: load and unclaimed files before, load, sent batches and
      unclaimed files after. */
  ghost predicate Balanced<X>(load: multiset<X>, rest: multiset<X>, load': multiset<X>, sent: multiset<X>, rest': multiset<X>) {
    load + rest == load' + sent + rest'
  }

  /** A move that is not an error keeps the worker's load, counting what it takes and sends. */
  lemma MoveConserves<E>(c: Config<E>, fileIndex: nat, abort: bool, open: bool, w: Worker<E>, clean: bool, faulted: bool)
    requires WorkerOk(c, fileIndex, clean, faulted, w)
    requires var next := WorkerMove(c, fileIndex, abort, open, w).next; !next.Erring? && !next.Failed?
    ensures var m := WorkerMove(c, fileIndex, abort, open, w);
            Balanced(Load(c, w), From(c, fileIndex), Load(c, m.next), Wrap(Flatten(m.sends)),
                     From(c, if m.takesIndex then fileIndex + 1 else fileIndex))
  {
    if Sending(c, w) {
      SendMove(c, fileIndex, abort, open, w);
    } else if w.Claiming? {
      ClaimMove(c, fileIndex, abort, open, w);
    } else {
      QuietMove(c, fileIndex, abort, open, w);
      NothingSent<E>();
      NoChange(Load(c, w), From(c, fileIndex));
    }
  }

  lemma SendMove<E>(c: Config<E>, fileIndex: nat, abort: bool, open: bool, w: Worker<E>)
    requires Sending(c, w) && open
    ensures var m := WorkerMove(c, fileIndex, abort, open, w);
            !m.takesIndex && Balanced(Load(c, w), From(c, fileIndex), Load(c, m.next), Wrap(Flatten(m.sends)), From(c, fileIndex))
  {
    FlattenOne(w.buffer);
    SendConserves(c, w, From(c, fileIndex));
  }

  lemma ClaimMove<E>(c: Config<E>, fileIndex: nat, abort: bool, open: bool, w: Worker<E>)
    requires w.Claiming?
    ensures var m := WorkerMove(c, fileIndex, abort, open, w);
            m.takesIndex && Balanced(Load(c, w), From(c, fileIndex), Load(c, m.next), Wrap(Flatten(m.sends)), From(c, fileIndex + 1))
  {
    NothingSent<E>();
    ClaimConserves(c, fileIndex, w.buffer);
  }

  lemma QuietMove<E>(c: Config<E>, fileIndex: nat, abort: bool, open: bool, w: Worker<E>)
    requires w.Parsing? ==> w.file < |c.files| && w.position <= |c.files[w.file]|
    requires var m := WorkerMove(c, fileIndex, abort, open, w);
             !w.Claiming? && !Sending(c, w) && !m.next.Erring? && !m.next.Failed?
    ensures var m := WorkerMove(c, fileIndex, abort, open, w);
            Load(c, w) == Load(c, m.next) && m.sends == [] && !m.takesIndex
  {
    if w.Parsing? {
      if w.position < |c.files[w.file]| { ParseConserves(c, w); } else { ParsedAll(c, w); }
    }
  }

  lemma ParsedAll<E>(c: Config<E>, w: Worker<E>)
    requires w.Parsing? && w.file < |c.files| && w.position == |c.files[w.file]|
    ensures Load(c, w) == Wrap(w.buffer)
  {
    assert c.files[w.file][w.position..] == [];
  }

  lemma NoChange<X>(load: multiset<X>, rest: multiset<X>)
    ensures Balanced(load, rest, load, multiset{}, rest)
  {
  }

  lemma NothingSent<E>()
    ensures Wrap<E>(Flatten([])) == multiset{}
  {
  }

  lemma ClaimConserves<E>(c: Config<E>, fileIndex: nat, buffer: seq<E>)
    ensures Balanced(Wrap(buffer), From(c, fileIndex),
                     Load(c, if fileIndex < |c.files| then Parsing(fileIndex, 0, buffer) else Draining(buffer)),
                     multiset{}, From(c, fileIndex + 1))
  {
    if fileIndex < |c.files| {
      assert c.files[fileIndex][0..] == c.files[fileIndex];
    }
  }

  lemma FlattenOne<T>(part: seq<T>)
    ensures Flatten([part]) == part
  {
    assert Flatten([part]) == Flatten([]) + part;
  }

  lemma SendConserves<E>(c: Config<E>, w: Worker<E>, rest: multiset<Item<E>>)
    requires w.Parsing? || w.Draining?
    ensures var next := if w.Parsing? then Parsing(w.file, w.position, []) else Draining([]);
            Balanced(Load(c, w), rest, Load(c, next), Wrap(w.buffer), rest)
  {
    assert Wrap<E>([]) == multiset{};
  }

  lemma ParseConserves<E>(c: Config<E>, w: Worker<E>)
    requires w.Parsing? && w.file < |c.files| && w.position < |c.files[w.file]| && c.files[w.file][w.position].Good?
    ensures Load(c, Parsing(w.file, w.position + 1, w.buffer + [c.files[w.file][w.position].entry])) == Load(c, w)
  {
    var rest := c.files[w.file][w.position..];
    var entry := rest[0].entry;
    assert rest == [rest[0]] + c.files[w.file][w.position + 1..];
    WrapConcat(w.buffer, [entry]);
    assert Map((e: E) => Good(e), [entry]) == [Good(entry)];
  }

  // ----- what every step keeps ----------------------------------------------------------------

  lemma ErrorsStay<E>(c: Config<E>, s: State<E>, e: Event)
    requires Enabled(c, s, e) && !Clean(s)
    ensures !Clean(Apply(c, s, e))
  {
    if !s.faulted {
      var i :| 0 <= i < |s.workers| && (s.workers[i].Erring? || s.workers[i].Failed?);
      assert Apply(c, s, e).workers[i].Erring? || Apply(c, s, e).workers[i].Failed?;
    }
  }

  lemma WorkerOkMonotone<E>(c: Config<E>, w: Worker<E>, index: nat, clean: bool, faulted: bool,
                            index': nat, clean': bool, faulted': bool)
    requires WorkerOk(c, index, clean, faulted, w) && index <= index' && (clean' ==> clean) && (faulted ==> faulted')
    ensures WorkerOk(c, index', clean', faulted', w)
  {
  }

  /** The worker that moved. */
  lemma MovedWorkerOk<E>(c: Config<E>, s: State<E>, i: nat, s': State<E>)
    requires Inv(c, s) && Enabled(c, s, Work(i)) && s' == WorkerStep(c, s, i) && (Clean(s') ==> Clean(s))
    ensures WorkerOk(c, s'.fileIndex, Clean(s'), s'.faulted, s'.workers[i])
  {
    OpenUnlessFaulted(c, s, i);
    MoveOk(c, s.fileIndex, s.abort, s.phase.Consuming?, s.workers[i], Clean(s), s.faulted);
    WorkerOkMonotone(c, s'.workers[i], s'.fileIndex, Clean(s), s.faulted, s'.fileIndex, Clean(s'), s'.faulted);
  }

  /** A worker that did not move. */
  lemma OtherWorkerOk<E>(c: Config<E>, s: State<E>, i: nat, s': State<E>)
    requires WorkersOk(c, s) && i < |s.workers| && i < |s'.workers| && s'.workers[i] == s.workers[i]
    requires s.fileIndex <= s'.fileIndex && (Clean(s') ==> Clean(s)) && (s.faulted ==> s'.faulted)
    ensures WorkerOk(c, s'.fileIndex, Clean(s'), s'.faulted, s'.workers[i])
  {
    WorkerOkMonotone(c, s.workers[i], s.fileIndex, Clean(s), s.faulted, s'.fileIndex, Clean(s'), s'.faulted);
  }

  lemma WorkersStep<E>(c: Config<E>, s: State<E>, e: Event)
    requires Inv(c, s) && Enabled(c, s, e)
    ensures WorkersOk(c, Apply(c, s, e))
  {
    var s' := Apply(c, s, e);
    if !Clean(s) { ErrorsStay(c, s, e); }
    forall i | 0 <= i < |s'.workers| ensures WorkerOk(c, s'.fileIndex, Clean(s'), s'.faulted, s'.workers[i]) {
      if e == Work(i) {
        MovedWorkerOk(c, s, i, s');
      } else {
        OtherWorkerOk(c, s, i, s');
      }
    }
  }

  lemma OpenUnlessFaulted<E>(c: Config<E>, s: State<E>, i: nat)
    requires Inv(c, s) && Enabled(c, s, Work(i))
    ensures !s.phase.Consuming? ==> s.faulted
  {
  }

  lemma ClaimsStep<E>(c: Config<E>, s: State<E>, e: Event)
    requires Inv(c, s) && Enabled(c, s, e)
    ensures ClaimsOk(c, Apply(c, s, e))
  {
  }

  lemma IdsStep<E>(c: Config<E>, s: State<E>, e: Event)
    requires Inv(c, s) && Enabled(c, s, e)
    ensures IdsOk(c, Apply(c, s, e))
  {
  }

  lemma PhaseWorkStep<E>(c: Config<E>, s: State<E>, i: nat)
    requires Inv(c, s) && Enabled(c, s, Work(i))
    ensures PhaseOk(Apply(c, s, Work(i)))
  {
    var s' := Apply(c, s, Work(i));
    OpenUnlessFaulted(c, s, i);
    MoveOk(c, s.fileIndex, s.abort, s.phase.Consuming?, s.workers[i], Clean(s), s.faulted);
    if !Clean(s) { ErrorsStay(c, s, Work(i)); }
    if s.workers[i].Erring? { assert s'.workers[i].Failed?; }
    assert !s.AllExited();
  }

  lemma PhaseStep<E>(c: Config<E>, s: State<E>, e: Event)
    requires Inv(c, s) && Enabled(c, s, e)
    ensures PhaseOk(Apply(c, s, e))
  {
    if e.Work? { PhaseWorkStep(c, s, e.worker); }
  }

  // ----- conservation over steps ----------------------------------------------------------------

  lemma EntriesConcat<E>(imported: seq<(nat, E)>, batch: seq<E>, start: nat)
    ensures Entries(imported + Numbered(Number, batch, start)) == Entries(imported) + batch
  {
  }

  /** Moving `batch` from one pile to another leaves the sum unchanged. */
  lemma Shift<X>(all: multiset<X>, a: multiset<X>, b: multiset<X>, h: multiset<X>, f: multiset<X>,
                 batch: multiset<X>, b': multiset<X>)
    requires all == a + b + h + f && b == batch + b'
    ensures all == (a + batch) + b' + h + f
  {
  }

  lemma ReceiveConserves<E>(c: Config<E>, s: State<E>)
    requires Conserved(c, s) && Enabled(c, s, Receive(false)) && |s.imported| + |s.channel[0]| <= c.maxRuleId
    ensures Conserved(c, Apply(c, s, Receive(false)))
  {
    var batch := s.channel[0];
    FlattenCons(s.channel);
    WrapConcat(batch, Flatten(s.channel[1..]));
    EntriesConcat(s.imported, batch, |s.imported| + 1);
    WrapConcat(Entries(s.imported), batch);
    Shift(From(c, 0), Wrap(Entries(s.imported)), Wrap(Flatten(s.channel)), Held(c, s.workers), From(c, s.fileIndex),
          Wrap(batch), Wrap(Flatten(s.channel[1..])));
  }

  lemma Rebalance<X>(all: multiset<X>, a: multiset<X>, b: multiset<X>, h: multiset<X>, f: multiset<X>,
                     load: multiset<X>, load': multiset<X>, sent: multiset<X>, h': multiset<X>, f': multiset<X>)
    requires all == a + b + h + f && h' + load == h + load' && Balanced(load, f, load', sent, f')
    ensures all == a + (b + sent) + h' + f'
  {
    forall x ensures all[x] == (a + (b + sent) + h' + f')[x] {
      assert h'[x] + load[x] == h[x] + load'[x] by { assert (h' + load)[x] == (h + load')[x]; }
      assert load[x] + f[x] == load'[x] + sent[x] + f'[x] by { assert (load + f)[x] == (load' + sent + f')[x]; }
    }
  }

  lemma WorkConserves<E>(c: Config<E>, s: State<E>, i: nat)
    requires Inv(c, s) && Clean(s) && Enabled(c, s, Work(i)) && Clean(Apply(c, s, Work(i)))
    ensures Conserved(c, Apply(c, s, Work(i)))
  {
    var w := s.workers[i];
    var m := WorkerMove(c, s.fileIndex, s.abort, s.phase.Consuming?, w);
    var s' := Apply(c, s, Work(i));
    assert s'.workers[i] == m.next;
    MoveConserves(c, s.fileIndex, s.abort, s.phase.Consuming?, w, Clean(s), s.faulted);
    TotalUpdate((w: Worker<E>) => Load(c, w), s.workers, i, m.next);
    FlattenConcat(s.channel, m.sends);
    WrapConcat(Flatten(s.channel), Flatten(m.sends));
    Rebalance(From(c, 0), Wrap(Entries(s.imported)), Wrap(Flatten(s.channel)), Held(c, s.workers), From(c, s.fileIndex),
              Load(c, w), Load(c, m.next), Wrap(Flatten(m.sends)), Held(c, s'.workers), From(c, s'.fileIndex));
  }

  lemma NextInv<E>(c: Config<E>, s: State<E>, e: Event)
    requires Inv(c, s) && Enabled(c, s, e)
    ensures Inv(c, Apply(c, s, e))
  {
    WorkersStep(c, s, e);
    ClaimsStep(c, s, e);
    IdsStep(c, s, e);
    PhaseStep(c, s, e);
    CleanStepConserves(c, s, e);
    SameWorkers(c, s, e);
    InvFrom(c, |s.workers|, Apply(c, s, e));
  }

  lemma InvFrom<E>(c: Config<E>, workers: nat, s: State<E>)
    requires c.batchSize > 0 && 0 < workers == |s.workers|
    requires WorkersOk(c, s) && ClaimsOk(c, s) && IdsOk(c, s) && PhaseOk(s) && (Clean(s) ==> Conserved(c, s))
    ensures Inv(c, s)
  {
  }

  lemma SameWorkers<E>(c: Config<E>, s: State<E>, e: Event)
    requires Enabled(c, s, e)
    ensures |Apply(c, s, e).workers| == |s.workers|
  {
  }

  lemma CleanBefore<E>(c: Config<E>, s: State<E>, e: Event)
    requires Enabled(c, s, e) && Clean(Apply(c, s, e))
    ensures Clean(s)
  {
    if !Clean(s) { ErrorsStay(c, s, e); }
  }

  lemma CleanStepConserves<E>(c: Config<E>, s: State<E>, e: Event)
    requires Inv(c, s) && Enabled(c, s, e)
    ensures Clean(Apply(c, s, e)) ==> Conserved(c, Apply(c, s, e))
  {
    if Clean(Apply(c, s, e)) {
      CleanBefore(c, s, e);
      StepConserves(c, s, e);
    }
  }

  lemma StepConserves<E>(c: Config<E>, s: State<E>, e: Event)
    requires Inv(c, s) && Clean(s) && Enabled(c, s, e) && Clean(Apply(c, s, e))
    ensures Conserved(c, Apply(c, s, e))
  {
    match e
    case Work(i) => WorkConserves(c, s, i);
    case Receive(fault) => ReceiveConserves(c, s);
    case _ =>
  }

  /** Every state of every run satisfies the invariant. */
  lemma {:induction false} RunInv<E(!new)>(c: Config<E>, trace: seq<State<E>>, i: nat)
    requires Run(c, trace) && i < |trace|
    ensures Inv(c, trace[i])
  {
    if i == 0 {
      InitInv(c, trace[0]);
    } else {
      RunInv(c, trace, i - 1);
      assert Next(c, trace[i - 1], trace[i - 1 + 1]);
      var e: Event :| Enabled(c, trace[i - 1], e) && Apply(c, trace[i - 1], e) == trace[i];
      NextInv(c, trace[i - 1], e);
    }
  }

  // ----- the guarantees -----------------------------------------------------------------------

  /** In every reachable state each file has been claimed at most once, and rule ids are 1..N. */
  lemma ClaimsAndIds<E(!new)>(c: Config<E>, trace: seq<State<E>>, i: nat)
    requires Run(c, trace) && i < |trace|
    ensures forall j, k :: 0 <= j < k < |trace[i].claims| ==> trace[i].claims[j].1 != trace[i].claims[k].1
    ensures |trace[i].imported| <= c.maxRuleId
    ensures forall j :: 0 <= j < |trace[i].imported| ==> trace[i].imported[j].0 == j + 1
  {
    RunInv(c, trace, i);
  }

  /** The channel never holds more batches than there are workers. */
  lemma ChannelIsBounded<E(!new)>(c: Config<E>, trace: seq<State<E>>, i: nat)
    requires Run(c, trace) && i < |trace|
    ensures |trace[i].channel| <= |trace[0].workers| == |trace[i].workers|
  {
    RunInv(c, trace, i);
    SameCrew(c, trace, i);
  }

  lemma {:induction false} SameCrew<E(!new)>(c: Config<E>, trace: seq<State<E>>, i: nat)
    requires Run(c, trace) && i < |trace|
    ensures |trace[0].workers| == |trace[i].workers|
  {
    if i > 0 {
      SameCrew(c, trace, i - 1);
      assert Next(c, trace[i - 1], trace[i - 1 + 1]);
    }
  }

  /** A successful import holds exactly the entries of all files, as a multiset, each file having
      been claimed; it is impossible when some line is invalid. */
  lemma SuccessImportsEverything<E(!new)>(c: Config<E>, trace: seq<State<E>>, i: nat)
    requires Run(c, trace) && i < |trace| && trace[i].phase == Finished(true)
    ensures Wrap(Entries(trace[i].imported)) == From(c, 0)
    ensures !HasBad(c)
    ensures |trace[i].claims| == |c.files| && forall f :: 0 <= f < |c.files| ==> trace[i].claims[f].1 == f
  {
    var s := trace[i];
    RunInv(c, trace, i);
    assert s.workers[0].Done?;
    assert WorkerOk(c, s.fileIndex, Clean(s), s.faulted, s.workers[0]);
    TotalNothing((w: Worker<E>) => Load(c, w), s.workers);
    NothingSent<E>();
    AllInOnePile(Wrap(Entries(s.imported)));
    GoodOnly(c, 0, Entries(s.imported));
  }

  lemma AllInOnePile<X>(a: multiset<X>)
    ensures a + multiset{} + multiset{} + multiset{} == a
  {
  }

  lemma {:induction false} GoodOnly<E>(c: Config<E>, index: nat, entries: seq<E>)
    requires From(c, index) <= Wrap(entries)
    ensures forall f, k :: index <= f < |c.files| && 0 <= k < |c.files[f]| ==> c.files[f][k].Good?
    decreases |c.files| - index
  {
    if index < |c.files| {
      GoodOnly(c, index + 1, entries);
      forall k | 0 <= k < |c.files[index]| ensures c.files[index][k].Good? {
        assert c.files[index][k] in multiset(c.files[index]);
        assert c.files[index][k] in Wrap(entries);
        assert c.files[index][k] in Map((e: E) => Good(e), entries);
      }
    }
  }

  /** An import fails only for a cause: an invalid line, a write error, or rule ids running out. */
  lemma FailureHasCause<E(!new)>(c: Config<E>, trace: seq<State<E>>, i: nat)
    requires Run(c, trace) && i < |trace| && trace[i].phase == Finished(false)
    ensures trace[i].faulted || HasBad(c)
  {
    RunInv(c, trace, i);
    var s := trace[i];
    if !s.faulted {
      var k :| 0 <= k < |s.workers| && !s.workers[k].Done?;
      assert WorkerOk(c, s.fileIndex, Clean(s), s.faulted, s.workers[k]);
    }
  }

  /** Without coordinator faults the outcome is decided by the input alone. */
  lemma OutcomeDecided<E(!new)>(c: Config<E>, trace: seq<State<E>>, i: nat)
    requires Run(c, trace) && i < |trace| && trace[i].phase.Finished? && !trace[i].faulted
    ensures trace[i].phase.ok <==> !HasBad(c)
  {
    if trace[i].phase.ok {
      SuccessImportsEverything(c, trace, i);
    } else {
      FailureHasCause(c, trace, i);
    }
  }

  /** No unfinished state is stuck. */
  lemma NeverStuck<E(!new)>(c: Config<E>, trace: seq<State<E>>, i: nat)
    requires Run(c, trace) && i < |trace| && !trace[i].phase.Finished?
    ensures exists e: Event :: Enabled(c, trace[i], e)
  {
    RunInv(c, trace, i);
    var s := trace[i];
    if s.phase.Consuming? && s.channel != [] {
      assert Enabled(c, s, Receive(false));
    } else if s.AllExited() {
      assert Enabled(c, s, if s.phase.Consuming? then Close(false) else Join);
    } else {
      var k :| 0 <= k < |s.workers| && !s.workers[k].Exited();
      assert Enabled(c, s, Work(k));
    }
  }

  // ----- termination --------------------------------------------------------------------------

  ghost function WorkerWeight<E>(c: Config<E>, w: Worker<E>): nat {
    match w
    case Checking(buffer) => 6 + 3 * |buffer|
    case Claiming(buffer) => 5 + 3 * |buffer|
    case Parsing(file, position, buffer) =>
      7 + 3 * |buffer|
      + if file < |c.files| && position <= |c.files[file]| then 4 * (|c.files[file]| - position) else 0
    case Draining(buffer) => 2 + 3 * |buffer|
    case Erring => 1
    case _ => 0
  }

  ghost function FilesWeight<E>(c: Config<E>, index: nat): nat
    decreases |c.files| - index
  {
    if index >= |c.files| then 0 else 3 + 4 * |c.files[index]| + FilesWeight(c, index + 1)
  }

  /** Steps still possible, counted generously. */
  ghost function Measure<E>(c: Config<E>, s: State<E>): nat {
    Weight((w: Worker<E>) => WorkerWeight(c, w), s.workers) + FilesWeight(c, s.fileIndex) + 2 * |Flatten(s.channel)|
    + match s.phase { case Consuming => 2 case Joining(_) => 1 case Finished(_) => 0 }
  }

  lemma MoveDecreases<E>(c: Config<E>, fileIndex: nat, abort: bool, open: bool, w: Worker<E>, clean: bool, faulted: bool)
    requires WorkerOk(c, fileIndex, clean, faulted, w) && !w.Exited() && c.batchSize > 0
    ensures var m := WorkerMove(c, fileIndex, abort, open, w);
            WorkerWeight(c, m.next) + 2 * |Flatten(m.sends)|
            + FilesWeight(c, if m.takesIndex then fileIndex + 1 else fileIndex)
            < WorkerWeight(c, w) + FilesWeight(c, fileIndex)
  {
    if w.Parsing? || w.Draining? { FlattenOne(w.buffer); }
  }

  lemma ChannelGrows<E>(channel: seq<seq<E>>, sends: seq<seq<E>>)
    ensures |Flatten(channel + sends)| == |Flatten(channel)| + |Flatten(sends)|
  {
    FlattenConcat(channel, sends);
  }

  lemma WorkDecreases<E>(c: Config<E>, s: State<E>, i: nat)
    requires Inv(c, s) && Enabled(c, s, Work(i))
    ensures Measure(c, Apply(c, s, Work(i))) < Measure(c, s)
  {
    var w := s.workers[i];
    var m := WorkerMove(c, s.fileIndex, s.abort, s.phase.Consuming?, w);
    assert WorkerOk(c, s.fileIndex, Clean(s), s.faulted, w);
    MoveDecreases(c, s.fileIndex, s.abort, s.phase.Consuming?, w, Clean(s), s.faulted);
    WeightUpdate((w: Worker<E>) => WorkerWeight(c, w), s.workers, i, m.next);
    ChannelGrows(s.channel, m.sends);
  }

  lemma StepDecreases<E>(c: Config<E>, s: State<E>, e: Event)
    requires Inv(c, s) && Enabled(c, s, e)
    ensures Measure(c, Apply(c, s, e)) < Measure(c, s)
  {
    match e
    case Work(i) => WorkDecreases(c, s, i);
    case Receive(fault) => FlattenCons(s.channel);
    case _ =>
  }

  /** Every run is finite: its length is bounded by its first state alone. */
  lemma {:induction false} RunsAreBounded<E(!new)>(c: Config<E>, trace: seq<State<E>>, i: nat)
    requires Run(c, trace) && i < |trace|
    ensures Measure(c, trace[i]) + i <= Measure(c, trace[0])
  {
    if i > 0 {
      RunsAreBounded(c, trace, i - 1);
      RunInv(c, trace, i - 1);
      assert Next(c, trace[i - 1], trace[i - 1 + 1]);
      var e: Event :| Enabled(c, trace[i - 1], e) && Apply(c, trace[i - 1], e) == trace[i];
      StepDecreases(c, trace[i - 1], e);
    }
  }
}
