/** The chunked line reader of the feed files: one growing buffer, arbitrary short reads. */
module LineReader {
  import opened Bits
  import opened Lists

  const NEWLINE: Byte := 10
  const CHUNK := 1024 * 1024

  type Line = seq<Byte>

  // ----- what is to be visited ---------------------------------------------------------

  /** `split_terminator('\n')`: the newline-terminated pieces, and a last one if not empty. */
  function Split(text: seq<Byte>): seq<Line> {
    if text == [] then [] else
    var i := FirstNewline(text);
    if i == |text| then [text] else [text[..i]] + Split(text[i + 1..])
  }

  function FirstNewline(text: seq<Byte>): (i: nat)
    ensures i <= |text| && (i < |text| ==> text[i] == NEWLINE) && forall j :: 0 <= j < i ==> text[j] != NEWLINE
  {
    if text == [] || text[0] == NEWLINE then 0 else 1 + FirstNewline(text[1..])
  }

  predicate Complete(text: seq<Byte>) {
    text == [] || text[|text| - 1] == NEWLINE
  }

  /** Splitting after a newline splits the list of lines. */
  lemma {:induction false} SplitConcat(a: seq<Byte>, b: seq<Byte>)
    requires Complete(a)
    ensures Split(a + b) == Split(a) + Split(b)
  {
    if a == [] {
      assert a + b == b;
    } else {
      var i := FirstNewline(a);
      SameFirstNewline(a, b);
      assert (a + b)[..i] == a[..i];
      DropConcat(a, b, i + 1);
      SplitConcat(a[i + 1..], b);
      ConsConcat(a[..i], Split(a[i + 1..]), Split(b));
    }
  }

  lemma SameFirstNewline(a: seq<Byte>, b: seq<Byte>)
    requires a != [] && Complete(a)
    ensures FirstNewline(a) < |a| && FirstNewline(a + b) == FirstNewline(a)
  {
    var i, j := FirstNewline(a), FirstNewline(a + b);
    assert a[|a| - 1] == NEWLINE;
    assert (a + b)[i] == NEWLINE;
    assert forall k :: 0 <= k < |a| ==> (a + b)[k] == a[k];
  }

  lemma DropConcat(a: seq<Byte>, b: seq<Byte>, n: nat)
    requires n <= |a|
    ensures (a + b)[n..] == a[n..] + b
  {
  }

  lemma ConsConcat<T>(x: T, a: seq<T>, b: seq<T>)
    ensures [x] + (a + b) == ([x] + a) + b
  {
  }

  function Terminated(lines: seq<Line>): seq<Byte> {
    if lines == [] then [] else lines[0] + [NEWLINE] + Terminated(lines[1..])
  }

  lemma {:induction false} LinesHoldNoNewline(text: seq<Byte>)
    ensures forall i :: 0 <= i < |Split(text)| ==> NEWLINE !in Split(text)[i]
  {
    if text != [] && FirstNewline(text) < |text| {
      LinesHoldNoNewline(text[FirstNewline(text) + 1..]);
    }
  }

  /** The lines, each ended by a newline, give the text back. */
  lemma {:induction false} SplitJoins(text: seq<Byte>)
    ensures Terminated(Split(text)) == if Complete(text) then text else text + [NEWLINE]
  {
    if text != [] {
      var i := FirstNewline(text);
      if i < |text| {
        SplitJoins(text[i + 1..]);
        JoinFirst(text[..i], Split(text[i + 1..]));
        CutAtNewline(text, i);
      } else {
        JoinFirst(text, []);
      }
    }
  }

  lemma JoinFirst(line: Line, rest: seq<Line>)
    ensures Terminated([line] + rest) == line + [NEWLINE] + Terminated(rest)
  {
    assert ([line] + rest)[1..] == rest;
  }

  lemma CutAtNewline(text: seq<Byte>, i: nat)
    requires i < |text| && text[i] == NEWLINE
    ensures text == text[..i] + [NEWLINE] + text[i + 1..]
    ensures text + [NEWLINE] == text[..i] + [NEWLINE] + (text[i + 1..] + [NEWLINE])
    ensures Complete(text) <==> Complete(text[i + 1..])
  {
  }

  // ----- the reader --------------------------------------------------------------------

  /** What one call to `read` does: be interrupted, fail, or return at most `most` bytes. */
  datatype Read = Interrupted | Failure | Short(most: nat)

  datatype Outcome = Completed(bytes: nat) | ReadError | NotText | Rejected

  function Min(a: nat, b: nat): nat { if a < b then a else b }

  /** Bytes returned by a successful read into `space` free bytes with `left` bytes to go. */
  function ReadSize(most: nat, space: nat, left: nat): nat {
    Min(if most == 0 then 1 else most, Min(space, left))
  }

  /** One past the last newline of `buffer[..used]`, or 0. */
  method AfterLastNewline(buffer: array<Byte>, used: nat) returns (end: nat)
    requires used <= buffer.Length
    ensures end <= used && (end > 0 ==> buffer[end - 1] == NEWLINE)
    ensures forall i :: end <= i < used ==> buffer[i] != NEWLINE
  {
    end := used;
    while end > 0 && buffer[end - 1] != NEWLINE
      invariant end <= used && forall i :: end <= i < used ==> buffer[i] != NEWLINE
    {
      end := end - 1;
    }
  }

  /** `copy_within(end..used, 0)`: move the unfinished line to the front. */
  method ShiftDown(buffer: array<Byte>, end: nat, used: nat, ghost rest: seq<Byte>)
    requires end <= used <= buffer.Length && buffer[end..used] == rest
    modifies buffer
    ensures buffer[..used - end] == rest
  {
    for i := 0 to used - end
      invariant buffer[..i] == old(buffer[end..end + i])
      invariant forall j :: i <= j < buffer.Length ==> buffer[j] == old(buffer[j])
    {
      buffer[i] := buffer[end + i];
    }
  }

  /** A full buffer is replaced by one of twice its size with the same bytes in front. */
  method Grow(buffer: array<Byte>, ghost held: seq<Byte>) returns (bigger: array<Byte>)
    requires buffer.Length > 0 && buffer[..] == held
    ensures fresh(bigger) && bigger.Length == 2 * buffer.Length && bigger[..buffer.Length] == held
  {
    bigger := new Byte[2 * buffer.Length](_ => 0);
    for i := 0 to buffer.Length
      invariant bigger[..i] == buffer[..i] && buffer[..] == held
    {
      bigger[i] := buffer[i];
    }
    assert buffer[..buffer.Length] == held;
  }

  /** `read` into the free part of the buffer. */
  method ReadInto(buffer: array<Byte>, used: nat, file: seq<Byte>, position: nat, n: nat)
    requires used + n <= buffer.Length && position + n <= |file|
    modifies buffer
    ensures buffer[..used] == old(buffer[..used]) && buffer[used..used + n] == file[position..position + n]
  {
    for i := 0 to n
      invariant buffer[..used] == old(buffer[..used]) && buffer[used..used + i] == file[position..position + i]
    {
      buffer[used + i] := file[position + i];
    }
  }

  function Labelled(line: Line, number: nat): (Line, nat) { (line, number) }

  /** The first `n` lines of a file, numbered from 1. */
  function Visits(lines: seq<Line>): seq<(Line, nat)> {
    Numbered(Labelled, lines, 1)
  }

  /** Line `i` of the file comes as number `i + 1`. */
  lemma VisitsNumbered(lines: seq<Line>, i: nat)
    requires i < |lines|
    ensures |Visits(lines)| == |lines| && Visits(lines)[i] == (lines[i], i + 1)
  {
  }

  /**
   * A chunk decodes as UTF-8 exactly when its lines do: the newline byte is no part of a
   * longer code.
   */
  predicate Text(valid: Line -> bool, lines: seq<Line>) {
    forall i :: 0 <= i < |lines| ==> valid(lines[i])
  }

  /** Visit the lines of one chunk; the visitor refuses line number `refused`. */
  method VisitChunk(ghost seen: seq<Line>, lines: seq<Line>, refused: nat, visited: seq<(Line, nat)>)
    returns (visited': seq<(Line, nat)>, ok: bool)
    requires visited == Visits(seen)
    ensures ok <==> !(|seen| < refused <= |seen| + |lines|)
    ensures visited' == Visits(seen + lines[..if ok then |lines| else refused - |seen|])
  {
    visited' := visited;
    assert seen + lines[..0] == seen;
    for i := 0 to |lines|
      invariant visited' == Visits(seen + lines[..i]) && !(|seen| < refused <= |seen| + i)
    {
      var number := |visited'| + 1;
      visited' := visited' + [(lines[i], number)];
      VisitNext(seen, lines, i);
      if number == refused {
        return visited', false;
      }
    }
    ok := true;
  }

  lemma VisitNext(seen: seq<Line>, lines: seq<Line>, i: nat)
    requires i < |lines|
    ensures Visits(seen + lines[..i + 1]) == Visits(seen + lines[..i]) + [(lines[i], |seen| + i + 1)]
  {
    var before, upTo := seen + lines[..i], seen + lines[..i + 1];
    TakeSnoc(lines, i);
    Associative(seen, lines[..i], [lines[i]]);
    NumberedConcat(Labelled, upTo, before, [lines[i]], 1, |seen| + i + 1);
  }

  lemma VisitPrefix(whole: seq<Line>, some: seq<Line>)
    requires some <= whole
    ensures Visits(some) <= Visits(whole)
  {
    NumberedConcat(Labelled, whole, some, whole[|some|..], 1, |some| + 1);
  }

  /** Lines split off so far, the next chunk of lines, and the whole file. */
  lemma SplitUpTo(file: seq<Byte>, done: nat, mid: nat)
    requires done <= mid <= |file| && Complete(file[..done])
    requires mid == |file| || Complete(file[..mid])
    ensures Split(file[..mid]) == Split(file[..done]) + Split(file[done..mid])
    ensures Split(file[..mid]) <= Split(file)
  {
    SplitConcat(file[..done], file[done..mid]);
    assert file[..done] + file[done..mid] == file[..mid];
    SplitPrefix(file, mid);
  }

  lemma SplitPrefix(file: seq<Byte>, mid: nat)
    requires mid <= |file| && (mid == |file| || Complete(file[..mid]))
    ensures Split(file[..mid]) <= Split(file)
  {
    if mid == |file| {
      assert file[..mid] == file;
    } else {
      SplitConcat(file[..mid], file[mid..]);
      assert file == file[..mid] + file[mid..];
    }
  }

  method Decodes(valid: Line -> bool, lines: seq<Line>) returns (ok: bool)
    ensures ok <==> Text(valid, lines)
  {
    for i := 0 to |lines|
      invariant Text(valid, lines[..i])
    {
      if !valid(lines[i]) {
        return false;
      }
    }
    ok := true;
  }

  /** Every line before byte `mid` was visited, and nothing was wrong with them. */
  ghost predicate Visited(file: seq<Byte>, mid: nat, valid: Line -> bool, refused: nat,
                          visited: seq<(Line, nat)>)
  {
    && mid <= |file| && (mid == |file| || Complete(file[..mid]))
    && visited == Visits(Split(file[..mid]))
    && Text(valid, Split(file[..mid])) && !(1 <= refused <= |Split(file[..mid])|)
  }

  lemma VisitedIsPrefix(file: seq<Byte>, mid: nat, valid: Line -> bool, refused: nat, visited: seq<(Line, nat)>)
    requires Visited(file, mid, valid, refused, visited)
    ensures visited <= Visits(Split(file))
    ensures mid == |file| ==> visited == Visits(Split(file)) && Text(valid, Split(file))
                              && !(1 <= refused <= |Split(file)|)
  {
    if mid == |file| {
      assert file[..mid] == file;
    } else {
      SplitPrefix(file, mid);
      VisitPrefix(Split(file), Split(file[..mid]));
    }
  }

  /** How visiting may end early. */
  ghost predicate Stopped(file: seq<Byte>, valid: Line -> bool, refused: nat, visited: seq<(Line, nat)>, outcome: Outcome) {
    && visited <= Visits(Split(file))
    && ((outcome.NotText? && !Text(valid, Split(file))) || (outcome.Rejected? && 1 <= refused == |visited|))
  }

  /** Visit the complete lines of one chunk, the bytes from `done` to `mid` of the file. */
  method VisitUpTo(ghost file: seq<Byte>, ghost done: nat, ghost mid: nat, chunk: seq<Byte>,
                   valid: Line -> bool, refused: nat, visited: seq<(Line, nat)>)
    returns (visited': seq<(Line, nat)>, outcome: Outcome)
    requires Visited(file, done, valid, refused, visited) && Complete(file[..done])
    requires done <= mid <= |file| && chunk == file[done..mid]
    requires mid == |file| || Complete(file[..mid])
    ensures outcome.Completed? ==> Visited(file, mid, valid, refused, visited') && outcome.bytes == |chunk|
    ensures !outcome.Completed? ==> Stopped(file, valid, refused, visited', outcome)
  {
    ghost var seen, whole := Split(file[..done]), Split(file);
    SplitUpTo(file, done, mid);
    var lines := Split(chunk);
    var ok := Decodes(valid, lines);
    if !ok {
      NotAllText(valid, seen, lines, whole);
      VisitPrefix(whole, seen);
      return visited, NotText;
    }
    visited', ok := VisitLines(seen, whole, lines, refused, visited);
    outcome := if ok then Completed(|chunk|) else Rejected;
  }

  /** The lines behind `seen`, of all the lines of the file. */
  method VisitLines(ghost seen: seq<Line>, ghost whole: seq<Line>, lines: seq<Line>, refused: nat, visited: seq<(Line, nat)>)
    returns (visited': seq<(Line, nat)>, ok: bool)
    requires visited == Visits(seen) && seen + lines <= whole && !(1 <= refused <= |seen|)
    ensures visited' <= Visits(whole)
    ensures ok ==> visited' == Visits(seen + lines) && !(1 <= refused <= |seen| + |lines|)
    ensures !ok ==> 1 <= refused == |visited'|
  {
    visited', ok := VisitChunk(seen, lines, refused, visited);
    TakeAll(lines);
    VisitPrefix(whole, seen + lines[..if ok then |lines| else refused - |seen|]);
  }

  lemma NotAllText(valid: Line -> bool, seen: seq<Line>, lines: seq<Line>, whole: seq<Line>)
    requires seen + lines <= whole && !Text(valid, lines)
    ensures !Text(valid, whole)
  {
    var i :| 0 <= i < |lines| && !valid(lines[i]);
    assert whole[|seen| + i] == lines[i];
  }

  /** Read `n` bytes behind the unfinished line and find where the complete lines end. */
  method Fill(buffer: array<Byte>, used: nat, file: seq<Byte>, ghost done: nat, position: nat, n: nat)
    returns (end: nat, ghost mid: nat)
    requires used + n <= buffer.Length && done + used == position && position + n <= |file|
    requires buffer[..used] == file[done..position] && Complete(file[..done])
    modifies buffer
    ensures end <= used + n && (n == 0 ==> end == used) && mid == done + end
    ensures buffer[..end] == file[done..mid] && buffer[end..used + n] == file[mid..position + n]
    ensures n != 0 ==> Complete(file[..mid])
  {
    ReadInto(buffer, used, file, position, n);
    ghost var part := buffer[..used + n];
    JoinSlices(part, used, file, done, position + n);
    end := used;
    if n != 0 {
      end := AfterLastNewline(buffer, used + n);
      CompleteUpTo(part, file, done, end);
    }
    mid := done + end;
    SameSlices(part, file, done, end);
  }

  lemma JoinSlices(part: seq<Byte>, used: nat, whole: seq<Byte>, start: nat, end: nat)
    requires used <= |part| && start + |part| == end <= |whole|
    requires part[..used] == whole[start..start + used] && part[used..] == whole[start + used..end]
    ensures part == whole[start..end]
  {
    assert part == part[..used] + part[used..];
  }

  lemma CompleteUpTo(part: seq<Byte>, whole: seq<Byte>, start: nat, end: nat)
    requires start + |part| <= |whole| && part == whole[start..start + |part|] && end <= |part|
    requires Complete(whole[..start]) && (end > 0 ==> part[end - 1] == NEWLINE)
    ensures Complete(whole[..start + end])
  {
    if end > 0 { assert whole[start + end - 1] == part[end - 1]; }
  }

  lemma SameSlices(part: seq<Byte>, whole: seq<Byte>, start: nat, end: nat)
    requires start + |part| <= |whole| && part == whole[start..start + |part|] && end <= |part|
    ensures part[..end] == whole[start..start + end]
    ensures part[end..] == whole[start + end..start + |part|]
  {
  }

  /** The front of the buffer is a given part of the file. */
  ghost predicate Holds(buffer: array<Byte>, used: nat, part: seq<Byte>)
    reads buffer
  {
    used <= buffer.Length && buffer[..used] == part
  }

  /** A full buffer is doubled. */
  method MakeRoom(buffer: array<Byte>, used: nat, ghost part: seq<Byte>) returns (roomy: array<Byte>)
    requires 0 < buffer.Length && Holds(buffer, used, part)
    ensures used < roomy.Length && Holds(roomy, used, part) && (roomy == buffer || fresh(roomy))
  {
    roomy := buffer;
    if used == buffer.Length {
      assert buffer[..] == buffer[..used];
      roomy := Grow(buffer, part);
    }
  }

  /** What the reader may end with, after `visited`. */
  ghost predicate Ends(file: seq<Byte>, plan: seq<Read>, valid: Line -> bool, refused: nat,
                       visited: seq<(Line, nat)>, outcome: Outcome)
  {
    visited <= Visits(Split(file)) &&
    match outcome
    case Completed(bytes) =>
      visited == Visits(Split(file)) && bytes == |file|
      && Text(valid, Split(file)) && !(1 <= refused <= |Split(file)|)
    case ReadError => Failure in plan
    case NotText => !Text(valid, Split(file))
    case Rejected => 1 <= refused == |visited|
  }

  /** Only the unfinished line stays in the buffer. */
  method KeepRest(buffer: array<Byte>, end: nat, used: nat, ghost rest: seq<Byte>) returns (kept: nat)
    requires end <= used <= buffer.Length && buffer[end..used] == rest
    modifies buffer
    ensures kept == used - end && Holds(buffer, kept, rest)
  {
    ShiftDown(buffer, end, used, rest);
    kept := used - end;
  }

  /** Visit the complete lines in the buffer, the bytes up to `end`, and keep the rest. */
  method Consume(buffer: array<Byte>, end: nat, full: nat, ghost file: seq<Byte>, ghost done: nat, ghost mid: nat,
                 ghost rest: seq<Byte>, valid: Line -> bool, refused: nat, visited: seq<(Line, nat)>)
    returns (used: nat, visited': seq<(Line, nat)>, outcome: Outcome)
    requires end <= full <= buffer.Length && buffer[end..full] == rest
    requires done <= mid <= |file| && buffer[..end] == file[done..mid] && Complete(file[..done])
    requires Visited(file, done, valid, refused, visited) && (mid == |file| || Complete(file[..mid]))
    modifies buffer
    ensures outcome.Completed? ==>
      used == full - end && Holds(buffer, used, rest) && Visited(file, mid, valid, refused, visited')
    ensures !outcome.Completed? ==> Stopped(file, valid, refused, visited', outcome)
  {
    used := full;
    visited', outcome := VisitUpTo(file, done, mid, buffer[..end], valid, refused, visited);
    if outcome.Completed? {
      used := KeepRest(buffer, end, full, rest);
    }
  }

  /** One turn of the loop after a read of `n` bytes; `more` unless it was the last. */
  method TakeChunk(buffer: array<Byte>, used: nat, file: seq<Byte>, ghost done: nat, position: nat, n: nat,
                   ghost plan: seq<Read>, valid: Line -> bool, refused: nat, visited: seq<(Line, nat)>)
    returns (more: bool, used': nat, ghost mid: nat, visited': seq<(Line, nat)>, outcome: Outcome)
    requires used + n <= buffer.Length && done + used == position && position + n <= |file|
    requires n == 0 <==> position == |file|
    requires Holds(buffer, used, file[done..position]) && Complete(file[..done])
    requires Visited(file, done, valid, refused, visited)
    modifies buffer
    ensures more ==>
      && n != 0 && mid + used' == position + n && Holds(buffer, used', file[mid..position + n])
      && Visited(file, mid, valid, refused, visited') && Complete(file[..mid])
    ensures !more ==> Ends(file, plan, valid, refused, visited', outcome)
  {
    var end;
    end, mid := Fill(buffer, used, file, done, position, n);
    used', visited', outcome :=
      Consume(buffer, end, used + n, file, done, mid, file[mid..position + n], valid, refused, visited);
    more := outcome.Completed? && n != 0;
    if outcome.Completed? && n == 0 {
      VisitedIsPrefix(file, mid, valid, refused, visited');
      outcome := Completed(position);
    }
  }

  /**
   * Whatever the reads return, the visited lines are those of the whole file, numbered from 1:
   * all of them if the reader completes, a prefix otherwise. It completes unless a read fails,
   * a line is no text or the visitor refuses one.
   */
  method VisitFileLines(file: seq<Byte>, plan: seq<Read>, valid: Line -> bool, refused: nat)
    returns (visited: seq<(Line, nat)>, outcome: Outcome)
    ensures Ends(file, plan, valid, refused, visited, outcome)
  {
    var buffer := new Byte[CHUNK](_ => 0);
    var used: nat, position: nat, calls: nat := 0, 0, 0;
    ghost var done: nat := 0;
    visited := [];
    while true
      invariant fresh(buffer) && 0 < buffer.Length
      invariant done + used == position <= |file| && calls <= |plan|
      invariant Holds(buffer, used, file[done..position]) && Complete(file[..done])
      invariant Visited(file, done, valid, refused, visited)
      decreases |plan| - calls, |file| - position
    {
      buffer := MakeRoom(buffer, used, file[done..position]);
      var call := Short(|file|);
      if calls < |plan| {
        call, calls := plan[calls], calls + 1;
      }
      if call.Failure? {
        VisitedIsPrefix(file, done, valid, refused, visited);
        return visited, ReadError;
      }
      if call.Short? {
        var n := ReadSize(call.most, buffer.Length - used, |file| - position);
        var more;
        more, used, done, visited, outcome :=
          TakeChunk(buffer, used, file, done, position, n, plan, valid, refused, visited);
        position := position + n;
        if !more {
          return;
        }
      }
    }
  }
}
