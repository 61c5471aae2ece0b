/** Facts about sequences and maps that hold whatever the elements are. */
module Lists {
  import opened Outcomes

  lemma TakeSnoc<T>(s: seq<T>, i: nat)
    requires i < |s|
    ensures s[..i + 1] == s[..i] + [s[i]]
  {
  }

  lemma TakeAll<T>(s: seq<T>)
    ensures s[..|s|] == s
  {
  }

  lemma SnocTake<T>(s: seq<T>, x: T)
    ensures (s + [x])[..|s|] == s
  {
  }

  lemma TailConcat<T>(s: seq<T>, t: seq<T>)
    requires s != []
    ensures (s + t)[1..] == s[1..] + t && (s + t)[0] == s[0]
  {
  }

  ghost predicate Ascending<T(!new)>(rank: T -> nat, s: seq<T>) {
    forall i, j :: 0 <= i < j < |s| ==> rank(s[i]) < rank(s[j])
  }

  lemma BelowLast<T(!new)>(rank: T -> nat, s: seq<T>, x: T)
    requires Ascending(rank, s) && s != []
    ensures x in s[..|s| - 1] <==> x in s && x != s[|s| - 1]
  {
  }

  /** A set of elements has only one ascending listing. */
  lemma {:induction false} AscendingUnique<T(!new)>(rank: T -> nat, a: seq<T>, b: seq<T>)
    requires Ascending(rank, a) && Ascending(rank, b) && forall x :: x in a <==> x in b
    ensures a == b
  {
    assert |a| > 0 ==> a[|a| - 1] in a;
    assert |b| > 0 ==> b[|b| - 1] in b;
    if a != [] {
      assert b[|b| - 1] == a[|a| - 1];
      var a', b' := a[..|a| - 1], b[..|b| - 1];
      forall x ensures x in a' <==> x in b' {
        BelowLast(rank, a, x);
        BelowLast(rank, b, x);
      }
      AscendingUnique(rank, a', b');
    }
  }

  function Map<E, R>(f: E -> R, es: seq<E>): (rs: seq<R>)
    ensures |rs| == |es| && forall i :: 0 <= i < |es| ==> rs[i] == f(es[i])
  {
    if es == [] then [] else Map(f, es[..|es| - 1]) + [f(es[|es| - 1])]
  }

  /** Each element with its position, counted from `start`. */
  function Numbered<E, R>(f: (E, nat) -> R, es: seq<E>, start: nat): (rs: seq<R>)
    ensures |rs| == |es| && forall i :: 0 <= i < |es| ==> rs[i] == f(es[i], start + i)
  {
    if es == [] then [] else
    var n := |es| - 1;
    Numbered(f, es[..n], start) + [f(es[n], start + n)]
  }

  lemma NumberedConcat<E, R>(f: (E, nat) -> R, whole: seq<E>, a: seq<E>, b: seq<E>, start: nat, next: nat)
    requires whole == a + b && next == start + |a|
    ensures Numbered(f, whole, start) == Numbered(f, a, start) + Numbered(f, b, next)
  {
    NumbersConcat(f, whole, a, b, start, next, Numbered(f, whole, start), Numbered(f, a, start), Numbered(f, b, next));
  }

  ghost predicate Numbers<E, R>(f: (E, nat) -> R, es: seq<E>, start: nat, rs: seq<R>) {
    |rs| == |es| && forall i :: 0 <= i < |es| ==> rs[i] == f(es[i], start + i)
  }

  lemma NumbersConcat<E, R>(f: (E, nat) -> R, whole: seq<E>, a: seq<E>, b: seq<E>, start: nat, next: nat,
                            all: seq<R>, x: seq<R>, y: seq<R>)
    requires whole == a + b && next == start + |a|
    requires Numbers(f, whole, start, all) && Numbers(f, a, start, x) && Numbers(f, b, next, y)
    ensures all == x + y
  {
    forall i | 0 <= i < |all| ensures all[i] == (x + y)[i] {
      if i >= |a| { assert start + i == next + (i - |a|); }
    }
  }

  function FoldLeft<S, E>(step: (S, E) -> S, start: S, es: seq<E>): S {
    if es == [] then start else step(FoldLeft(step, start, es[..|es| - 1]), es[|es| - 1])
  }

  lemma FoldNext<S, E>(step: (S, E) -> S, start: S, es: seq<E>, i: nat)
    requires i < |es|
    ensures FoldLeft(step, start, es[..i + 1]) == step(FoldLeft(step, start, es[..i]), es[i])
  {
    TakeSnoc(es, i);
    SnocTake(es[..i], es[i]);
  }

  lemma FoldSnoc<S, E>(step: (S, E) -> S, start: S, es: seq<E>, e: E)
    ensures FoldLeft(step, start, es + [e]) == step(FoldLeft(step, start, es), e)
  {
    SnocTake(es, e);
  }

  lemma {:induction false} FoldConcat<S, E>(step: (S, E) -> S, start: S, a: seq<E>, b: seq<E>)
    ensures FoldLeft(step, start, a + b) == FoldLeft(step, FoldLeft(step, start, a), b)
  {
    if b == [] {
      assert a + b == a;
    } else {
      var n := |b| - 1;
      FoldConcat(step, start, a, b[..n]);
      assert a + b == a + b[..n] + [b[n]];
      FoldSnoc(step, start, a + b[..n], b[n]);
    }
  }

  lemma FoldJoin<S, E>(step: (S, E) -> S, start: S, a: seq<E>, mid: S, b: seq<E>, end: S)
    requires FoldLeft(step, start, a) == mid && FoldLeft(step, mid, b) == end
    ensures FoldLeft(step, start, a + b) == end
  {
    FoldConcat(step, start, a, b);
  }

  lemma FoldOne<S, E>(step: (S, E) -> S, start: S, e: E)
    ensures FoldLeft(step, start, [e]) == step(start, e)
  {
  }

  /** What `see` makes of every state and the event it meets. */
  function Trace<S, E, R>(step: (S, E) -> S, see: (S, E) -> R, start: S, es: seq<E>): (rs: seq<R>)
    ensures |rs| == |es|
  {
    if es == [] then [] else
    var n := |es| - 1;
    Trace(step, see, start, es[..n]) + [see(FoldLeft(step, start, es[..n]), es[n])]
  }

  lemma {:induction false} TraceAt<S, E, R>(step: (S, E) -> S, see: (S, E) -> R, start: S, es: seq<E>, j: nat)
    requires j < |es|
    ensures Trace(step, see, start, es)[j] == see(FoldLeft(step, start, es[..j]), es[j])
  {
    var n := |es| - 1;
    if j < n {
      TraceAt(step, see, start, es[..n], j);
      assert es[..n][..j] == es[..j];
    }
  }

  function Flatten<T>(parts: seq<seq<T>>): seq<T> {
    if parts == [] then [] else Flatten(parts[..|parts| - 1]) + parts[|parts| - 1]
  }

  lemma FlattenSnoc<T>(parts: seq<seq<T>>, part: seq<T>)
    ensures Flatten(parts + [part]) == Flatten(parts) + part
  {
    SnocTake(parts, part);
  }

  /** Where part `c` starts when every part has `size` elements. */
  function Offset(size: nat, c: nat): nat {
    if c == 0 then 0 else Offset(size, c - 1) + size
  }

  lemma {:induction false} OffsetMonotone(size: nat, c: nat, n: nat)
    requires c <= n
    ensures Offset(size, c) <= Offset(size, n)
  {
    if c < n { OffsetMonotone(size, c, n - 1); }
  }

  /** The parts of a flattening into equal sizes are found by position. */
  lemma {:induction false} FlattenAt<T>(parts: seq<seq<T>>, size: nat, c: nat)
    requires forall i :: 0 <= i < |parts| ==> |parts[i]| == size
    ensures |Flatten(parts)| == Offset(size, |parts|)
    ensures c < |parts| ==> Offset(size, c) <= Offset(size, c + 1) <= |Flatten(parts)|
    ensures c < |parts| ==> Flatten(parts)[Offset(size, c)..Offset(size, c + 1)] == parts[c]
  {
    if parts != [] {
      var n := |parts| - 1;
      FlattenAt(parts[..n], size, c);
      var head := Flatten(parts[..n]);
      if c < n {
        OffsetMonotone(size, c + 1, n);
        SliceLeft(head, parts[n], Offset(size, c), Offset(size, c + 1));
      } else if c == n {
        assert (head + parts[n])[|head|..] == parts[n];
      }
    }
  }

  lemma SliceLeft<T>(a: seq<T>, b: seq<T>, i: nat, j: nat)
    requires i <= j <= |a|
    ensures (a + b)[i..j] == a[i..j]
  {
  }

  lemma {:induction false} FlattenCons<T>(parts: seq<seq<T>>)
    requires parts != []
    ensures Flatten(parts) == parts[0] + Flatten(parts[1..])
  {
    var n := |parts| - 1;
    if n > 0 {
      FlattenCons(parts[..n]);
      InitOfTail(parts);
    }
  }

  lemma {:induction false} FlattenConcat<T>(a: seq<seq<T>>, b: seq<seq<T>>)
    ensures Flatten(a + b) == Flatten(a) + Flatten(b)
  {
    if b == [] {
      assert a + b == a;
    } else {
      var n := |b| - 1;
      FlattenConcat(a, b[..n]);
      TakeConcat(a, b, n);
      Associative(Flatten(a), Flatten(b[..n]), b[n]);
    }
  }

  lemma Associative<T>(a: seq<T>, b: seq<T>, c: seq<T>)
    ensures a + b + c == a + (b + c)
  {
  }

  lemma TakeConcat<T>(a: seq<T>, b: seq<T>, n: nat)
    requires n <= |b|
    ensures (a + b)[..|a| + n] == a + b[..n]
  {
  }

  lemma InitOfTail<T>(s: seq<T>)
    requires |s| > 1
    ensures s[..|s| - 1][1..] == s[1..][..|s| - 2]
  {
  }

  // ----- first occurrences ------------------------------------------------------------

  /** `at` lists, in order, the positions of `xs` that hold something for the first time, and
      `list` what they hold. */
  ghost predicate FirstSeen<X>(xs: seq<Option<X>>, list: seq<X>, at: seq<nat>) {
    && |at| == |list| && (forall i, j :: 0 <= i < j < |at| ==> at[i] < at[j])
    && (forall i :: 0 <= i < |at| ==> FirstAt(xs, at[i], list[i]))
    && (forall p :: 0 <= p < |xs| && xs[p].Some? ==> xs[p].value in list)
  }

  predicate FirstAt<X(==)>(xs: seq<Option<X>>, p: nat, x: X) {
    p < |xs| && xs[p] == Some(x) && forall q :: 0 <= q < p ==> xs[q] != Some(x)
  }

  lemma FirstAtStill<X>(xs: seq<Option<X>>, y: Option<X>, p: nat, x: X)
    requires FirstAt(xs, p, x)
    ensures FirstAt(xs + [y], p, x)
  {
  }

  lemma FirstSeenSnoc<X>(xs: seq<Option<X>>, y: Option<X>, list: seq<X>, at: seq<nat>) returns (at': seq<nat>)
    requires FirstSeen(xs, list, at)
    ensures FirstSeen(xs + [y], if y.None? || y.value in list then list else list + [y.value], at')
  {
    at' := at;
    forall i | 0 <= i < |at| ensures FirstAt(xs + [y], at[i], list[i]) {
      FirstAtStill(xs, y, at[i], list[i]);
    }
    if y.Some? && y.value !in list {
      at' := at + [|xs|];
      assert FirstAt(xs + [y], |xs|, y.value);
    }
  }

  /** No element occurs twice. */
  lemma FirstSeenOnce<X>(xs: seq<Option<X>>, list: seq<X>, at: seq<nat>)
    requires FirstSeen(xs, list, at)
    ensures NoDuplicates(list)
  {
    forall i, j | 0 <= i < j < |list| ensures list[i] != list[j] {
      assert FirstAt(xs, at[i], list[i]) && FirstAt(xs, at[j], list[j]);
    }
  }

  lemma FirstSeenHas<X>(xs: seq<Option<X>>, list: seq<X>, at: seq<nat>, p: nat)
    requires FirstSeen(xs, list, at)
    ensures p in at <==> p < |xs| && xs[p].Some? && FirstAt(xs, p, xs[p].value)
  {
    if p in at {
      var i :| 0 <= i < |at| && at[i] == p;
      assert FirstAt(xs, at[i], list[i]);
    }
    if p < |xs| && xs[p].Some? && FirstAt(xs, p, xs[p].value) {
      var i :| 0 <= i < |list| && list[i] == xs[p].value;
      assert FirstAt(xs, at[i], list[i]);
    }
  }

  /** There is only one such list. */
  lemma FirstSeenUnique<X>(xs: seq<Option<X>>, a: seq<X>, at: seq<nat>, b: seq<X>, bt: seq<nat>)
    requires FirstSeen(xs, a, at) && FirstSeen(xs, b, bt)
    ensures a == b
  {
    forall p: nat ensures p in at <==> p in bt {
      FirstSeenHas(xs, a, at, p);
      FirstSeenHas(xs, b, bt, p);
    }
    AscendingUnique((p: nat) => p, at, bt);
    forall i | 0 <= i < |a| ensures a[i] == b[i] {
      assert FirstAt(xs, at[i], a[i]) && FirstAt(xs, bt[i], b[i]);
    }
  }

  /** Append each element unless it is there already. */
  function AppendNew<X(==)>(list: seq<X>, xs: seq<X>): seq<X> {
    if xs == [] then list else
    var before := AppendNew(list, xs[..|xs| - 1]);
    if xs[|xs| - 1] in before then before else before + [xs[|xs| - 1]]
  }

  lemma {:induction false} AppendNewOnce<X>(list: seq<X>, xs: seq<X>)
    requires NoDuplicates(list)
    ensures NoDuplicates(AppendNew(list, xs)) && list <= AppendNew(list, xs)
  {
    if xs != [] { AppendNewOnce(list, xs[..|xs| - 1]); }
  }

  lemma {:induction false} AppendNewHas<X>(list: seq<X>, xs: seq<X>, x: X)
    ensures x in AppendNew(list, xs) <==> x in list || x in xs
  {
    if xs != [] { AppendNewHas(list, xs[..|xs| - 1], x); }
  }

  lemma AppendNewNext<X>(list: seq<X>, xs: seq<X>, i: nat)
    requires i < |xs|
    ensures var before := AppendNew(list, xs[..i]);
            AppendNew(list, xs[..i + 1]) == if xs[i] in before then before else before + [xs[i]]
  {
    TakeSnoc(xs, i);
    SnocTake(xs[..i], xs[i]);
  }

  lemma {:induction false} AppendNewConcat<X>(list: seq<X>, a: seq<X>, b: seq<X>)
    ensures AppendNew(AppendNew(list, a), b) == AppendNew(list, a + b)
  {
    if b == [] {
      assert a + b == a;
    } else {
      AppendNewConcat(list, a, b[..|b| - 1]);
      TakeConcat(a, b, |b| - 1);
    }
  }

  /** Appending the parts of one more element. */
  lemma PartsNext<E, X>(part: E -> seq<X>, es: seq<E>, i: nat, first: seq<X>)
    requires i < |es|
    ensures AppendNew([], first + Flatten(Map(part, es[..i + 1]))) ==
            AppendNew(AppendNew([], first + Flatten(Map(part, es[..i]))), part(es[i]))
  {
    TakeSnoc(es, i);
    SnocTake(es[..i], es[i]);
    FlattenSnoc(Map(part, es[..i]), part(es[i]));
    Associative(first, Flatten(Map(part, es[..i])), part(es[i]));
    AppendNewConcat([], first + Flatten(Map(part, es[..i])), part(es[i]));
  }

  /** From nothing this gives the elements in the order in which they first occur. */
  lemma {:induction false} AppendNewFirst<X>(xs: seq<X>) returns (at: seq<nat>)
    ensures FirstSeen(Map((x: X) => Some(x), xs), AppendNew([], xs), at)
  {
    if xs == [] {
      at := [];
    } else {
      var n := |xs| - 1;
      at := AppendNewFirst(xs[..n]);
      at := FirstSeenSnoc(Map((x: X) => Some(x), xs[..n]), Some(xs[n]), AppendNew([], xs[..n]), at);
    }
  }

  // ----- sums -------------------------------------------------------------------------

  ghost function Total<W, X>(f: W -> multiset<X>, ws: seq<W>): multiset<X> {
    if ws == [] then multiset{} else Total(f, ws[..|ws| - 1]) + f(ws[|ws| - 1])
  }

  lemma SwapAdd<X>(t: multiset<X>, a: multiset<X>, b: multiset<X>)
    ensures t + a + b == t + b + a
  {
  }

  lemma {:induction false} TotalUpdate<W, X>(f: W -> multiset<X>, ws: seq<W>, i: nat, w: W)
    requires i < |ws|
    ensures Total(f, ws[i := w]) + f(ws[i]) == Total(f, ws) + f(w)
  {
    var n := |ws| - 1;
    if i == n {
      assert ws[i := w][..n] == ws[..n];
      SwapAdd(Total(f, ws[..n]), f(w), f(ws[i]));
    } else {
      TotalUpdate(f, ws[..n], i, w);
      assert ws[i := w][..n] == ws[..n][i := w];
      SwapAdd(Total(f, ws[..n][i := w]), f(ws[n]), f(ws[i]));
      SwapAdd(Total(f, ws[..n]), f(w), f(ws[n]));
    }
  }

  lemma {:induction false} TotalNothing<W, X>(f: W -> multiset<X>, ws: seq<W>)
    requires forall i :: 0 <= i < |ws| ==> f(ws[i]) == multiset{}
    ensures Total(f, ws) == multiset{}
  {
    if ws != [] { TotalNothing(f, ws[..|ws| - 1]); }
  }

  ghost function Weight<W>(f: W -> nat, ws: seq<W>): nat {
    if ws == [] then 0 else Weight(f, ws[..|ws| - 1]) + f(ws[|ws| - 1])
  }

  lemma {:induction false} WeightUpdate<W>(f: W -> nat, ws: seq<W>, i: nat, w: W)
    requires i < |ws|
    ensures Weight(f, ws[i := w]) + f(ws[i]) == Weight(f, ws) + f(w)
  {
    var n := |ws| - 1;
    if i == n {
      assert ws[i := w][..n] == ws[..n];
    } else {
      WeightUpdate(f, ws[..n], i, w);
      assert ws[i := w][..n] == ws[..n][i := w];
    }
  }

  /** The elements that satisfy a condition, in order. */
  function Picked<W>(which: W -> bool, ws: seq<W>): seq<W> {
    if ws == [] then [] else
    Picked(which, ws[..|ws| - 1]) + if which(ws[|ws| - 1]) then [ws[|ws| - 1]] else []
  }

  lemma PickedNext<W>(which: W -> bool, f: W -> nat, ws: seq<W>)
    requires ws != []
    ensures var n := |ws| - 1; var before := Picked(which, ws[..n]);
            && |Picked(which, ws)| == |before| + (if which(ws[n]) then 1 else 0)
            && Weight(f, Picked(which, ws)) == Weight(f, before) + if which(ws[n]) then f(ws[n]) else 0
  {
    var n := |ws| - 1;
    SnocTake(Picked(which, ws[..n]), ws[n]);
    if !which(ws[n]) { assert Picked(which, ws) == Picked(which, ws[..n]); }
  }

  // ----- puts into a map -------------------------------------------------------------

  function PutAll<K, V>(db: map<K, V>, rows: seq<(K, V)>): map<K, V> {
    if rows == [] then db else
    var n := |rows| - 1;
    PutAll(db, rows[..n])[rows[n].0 := rows[n].1]
  }

  lemma {:induction false} PutAllHolds<K, V>(db: map<K, V>, rows: seq<(K, V)>, i: nat)
    requires i < |rows| && forall j :: i < j < |rows| ==> rows[j].0 != rows[i].0
    ensures rows[i].0 in PutAll(db, rows) && PutAll(db, rows)[rows[i].0] == rows[i].1
  {
    if i < |rows| - 1 { PutAllHolds(db, rows[..|rows| - 1], i); }
  }

  lemma {:induction false} PutAllHas<K, V>(rows: seq<(K, V)>, i: nat)
    requires i < |rows|
    ensures rows[i].0 in PutAll(map[], rows)
  {
    if i < |rows| - 1 { PutAllHas(rows[..|rows| - 1], i); }
  }

  lemma {:induction false} PutAllSource<K, V>(rows: seq<(K, V)>, k: K) returns (i: nat)
    requires k in PutAll(map[], rows)
    ensures i < |rows| && rows[i] == (k, PutAll(map[], rows)[k])
  {
    var n := |rows| - 1;
    if k == rows[n].0 {
      i := n;
    } else {
      i := PutAllSource(rows[..n], k);
    }
  }

  lemma {:induction false} PutAllConcat<K, V>(db: map<K, V>, a: seq<(K, V)>, b: seq<(K, V)>)
    ensures PutAll(PutAll(db, a), b) == PutAll(db, a + b)
  {
    if b == [] {
      assert a + b == a;
    } else {
      PutAllConcat(db, a, b[..|b| - 1]);
      assert (a + b)[..|a| + |b| - 1] == a + b[..|b| - 1];
    }
  }

  /** Putting numbered rows in two goes. */
  lemma NumberedPuts<E, K, V>(row: (E, nat) -> (K, V), db: map<K, V>, whole: seq<E>, a: seq<E>, b: seq<E>, start: nat, next: nat)
    requires whole == a + b && next == start + |a|
    ensures PutAll(db, Numbered(row, whole, start)) == PutAll(PutAll(db, Numbered(row, a, start)), Numbered(row, b, next))
  {
    NumberedConcat(row, whole, a, b, start, next);
    PutAllConcat(db, Numbered(row, a, start), Numbered(row, b, next));
  }

  // ----- probing -----------------------------------------------------------------------

  predicate NoDuplicates<T(==)>(s: seq<T>) {
    forall i, j :: 0 <= i < j < |s| ==> s[i] != s[j]
  }

  /** What is stored of `at(n)`, `at(n - 1)`, ..., `at(0)`. */
  function HitsDown<T(==)>(stored: set<T>, at: nat -> T, n: nat): seq<T> {
    (if at(n) in stored then [at(n)] else []) + if n == 0 then [] else HitsDown(stored, at, n - 1)
  }

  lemma {:induction false} HitsDownAre<T>(stored: set<T>, at: nat -> T, n: nat, t: T)
    ensures t in HitsDown(stored, at, n) <==> t in stored && Reaches(at, n, t)
  {
    if n > 0 {
      HitsDownAre(stored, at, n - 1, t);
      InConcat(if at(n) in stored then [at(n)] else [], HitsDown(stored, at, n - 1), t);
      ReachesNext(at, n, t);
    } else {
      assert Reaches(at, n, t) <==> at(n) == t;
    }
  }

  ghost predicate Reaches<T>(at: nat -> T, n: nat, t: T) {
    exists p: nat :: p <= n && at(p) == t
  }

  lemma ReachesNext<T>(at: nat -> T, n: nat, t: T)
    requires n > 0
    ensures Reaches(at, n, t) <==> at(n) == t || Reaches(at, n - 1, t)
  {
  }

  lemma InConcat<T>(a: seq<T>, b: seq<T>, x: T)
    ensures x in a + b <==> x in a || x in b
  {
  }

  lemma WithoutOne<T>(s: seq<T>, i: nat) returns (rest: seq<T>)
    requires NoDuplicates(s) && i < |s|
    ensures |rest| + 1 == |s| && NoDuplicates(rest)
    ensures forall j :: 0 <= j < |rest| ==> rest[j] == s[if j < i then j else j + 1] != s[i]
  {
    rest := s[..i] + s[i + 1..];
  }

  lemma FirstIsNew<T>(first: seq<T>, rest: seq<T>, x: T)
    requires (first == [x] || first == []) && x !in rest && NoDuplicates(rest)
    ensures NoDuplicates(first + rest)
  {
  }

  ghost predicate Apart<T>(at: nat -> T, n: nat) {
    forall p: nat :: p < n ==> at(p) != at(n)
  }

  lemma NotBelow<T>(stored: set<T>, at: nat -> T, n: nat)
    requires n > 0 && Apart(at, n)
    ensures at(n) !in HitsDown(stored, at, n - 1)
  {
    HitsDownAre(stored, at, n - 1, at(n));
  }

  lemma OnceMore<T>(stored: set<T>, at: nat -> T, n: nat)
    requires n > 0 && at(n) !in HitsDown(stored, at, n - 1) && NoDuplicates(HitsDown(stored, at, n - 1))
    ensures NoDuplicates(HitsDown(stored, at, n))
  {
    FirstIsNew(if at(n) in stored then [at(n)] else [], HitsDown(stored, at, n - 1), at(n));
  }

  lemma {:induction false} HitsDownOnce<T>(stored: set<T>, at: nat -> T, n: nat)
    requires forall q: nat :: q <= n ==> Apart(at, q)
    ensures NoDuplicates(HitsDown(stored, at, n))
  {
    if n > 0 {
      HitsDownOnce(stored, at, n - 1);
      NotBelow(stored, at, n);
      OnceMore(stored, at, n);
    }
  }

  lemma HitsDownStep<T>(stored: set<T>, at: nat -> T, n: nat, done: seq<T>)
    ensures done + HitsDown(stored, at, n) ==
            (if at(n) in stored then done + [at(n)] else done) + if n == 0 then [] else HitsDown(stored, at, n - 1)
  {
  }

  // ----- cursors ---------------------------------------------------------------------

  /** `rows` visits the map `db`, each key once, in ascending order of `less`. */
  ghost predicate Iterates<K(!new), V>(less: (K, K) -> bool, rows: seq<(K, V)>, db: map<K, V>) {
    && (forall i, j :: 0 <= i < j < |rows| ==> less(rows[i].0, rows[j].0))
    && (forall k :: k in db <==> exists i :: 0 <= i < |rows| && rows[i].0 == k)
    && (forall i :: 0 <= i < |rows| ==> rows[i].0 in db && rows[i].1 == db[rows[i].0])
  }

  lemma DistinctPuts<K(!new), V(!new)>(rank: ((K, V)) -> nat, rows: seq<(K, V)>, i: nat)
    requires Ascending(rank, rows) && i < |rows|
    requires forall r: (K, V), q: (K, V) :: r.0 == q.0 ==> rank(r) == rank(q)
    ensures rows[i].0 in PutAll(map[], rows) && PutAll(map[], rows)[rows[i].0] == rows[i].1
  {
    forall j | i < j < |rows| ensures rows[j].0 != rows[i].0 {
      assert rank(rows[i]) < rank(rows[j]);
    }
    PutAllHolds(map[], rows, i);
  }

  /** When `less` is the order of the rows' ranks, a cursor meets the rows in ascending rank. */
  lemma CursorInRankOrder<K(!new), V(!new)>(less: (K, K) -> bool, rank: ((K, V)) -> nat,
                                            rows: seq<(K, V)>, expected: seq<(K, V)>)
    requires Iterates(less, rows, PutAll(map[], expected)) && Ascending(rank, expected)
    requires forall r: (K, V), q: (K, V) :: r.0 == q.0 ==> rank(r) == rank(q)
    requires forall r, q :: r in expected && q in expected && less(r.0, q.0) ==> rank(r) < rank(q)
    ensures rows == expected
  {
    forall j | 0 <= j < |rows| ensures rows[j] in expected {
      var i := PutAllSource(expected, rows[j].0);
      assert expected[i] == rows[j];
    }
    forall i | 0 <= i < |expected| ensures expected[i] in rows {
      DistinctPuts(rank, expected, i);
      var j :| 0 <= j < |rows| && rows[j].0 == expected[i].0;
      assert rows[j] == expected[i];
    }
    AscendingUnique(rank, rows, expected);
  }
}
