/** The disk spool of the import: 30-byte records packed into blocks, written in bulk
    batches next to the sorted contributions, and replayed for rule preparation. */
module Spool {
  import opened Bits
  import opened Targets
  import opened Keys
  import opened Outcomes
  import opened Lists
  import opened Contexts
  import opened OrderedContexts

  // ----- records -----------------------------------------------------------------

  function Encode(e: Entry): (record: seq<Byte>)
    ensures |record| >= 30
  {
    var t := e.target;
    [ContextKey(t)[0], if t.Exact? then 0 else t.prefix % 256]
    + t.octets + Zeros(if |t.octets| <= 16 then 16 - |t.octets| else 0)
    + ToBe(e.ruleId, 4) + ToBe(e.metadataId, 4) + ToBe(e.line, 4)
  }

  function DecodeTarget(bytes: seq<Byte>): Result<Target>
    requires |bytes| == 30
  {
    if bytes[0] == V4_EXACT then Ok(Exact(V4, bytes[2..6]))
    else if bytes[0] == V6_EXACT then Ok(Exact(V6, bytes[2..18]))
    else if bytes[0] == V4_LPM && bytes[1] <= 32 then Ok(Cidr(V4, bytes[1], bytes[2..6]))
    else if bytes[0] == V6_LPM && bytes[1] <= 128 then Ok(Cidr(V6, bytes[1], bytes[2..18]))
    else Err
  }

  function Decode(bytes: seq<Byte>): Result<Entry> {
    if |bytes| != 30 || DecodeTarget(bytes).Err? then Err
    else Ok(Entry(DecodeTarget(bytes).value, FromBe(bytes[18..22]), FromBe(bytes[22..26]), FromBe(bytes[26..30])))
  }

  lemma EncodeLayout(e: Entry)
    requires e.Valid()
    ensures var b := Encode(e);
            && |b| == 30 && b[2..2 + |e.target.octets|] == e.target.octets && b[18..22] == ToBe(e.ruleId, 4)
            && b[22..26] == ToBe(e.metadataId, 4) && b[26..30] == ToBe(e.line, 4)
            && b[22..30] == ContributionValue(e)
  {
  }

  /** Exactly these records are accepted, and what they give is an entry that encodes. */
  lemma DecodesIff(bytes: seq<Byte>)
    ensures Decode(bytes).Ok? <==>
            |bytes| == 30 && (bytes[0] in {1, 2} || (bytes[0] == 3 && bytes[1] <= 32) || (bytes[0] == 4 && bytes[1] <= 128))
    ensures Decode(bytes).Ok? ==> Decode(bytes).value.Valid()
  {
    if |bytes| == 30 {
      FourBytes(bytes[18..22]);
      FourBytes(bytes[22..26]);
      FourBytes(bytes[26..30]);
    }
  }

  lemma FourBytes(b: seq<Byte>)
    requires |b| == 4
    ensures FromBe(b) < Pow2(32)
  {
    FromBeBound(b);
  }

  lemma EncodedTail(e: Entry)
    requires e.Valid()
    ensures |Encode(e)| == 30 && Encode(e)[22..] == ContributionValue(e)
  {
    EncodeLayout(e);
    assert Encode(e)[22..] == Encode(e)[22..30];
  }

  lemma DecodeTargetEncode(e: Entry)
    requires e.Valid()
    ensures |Encode(e)| == 30 && DecodeTarget(Encode(e)) == Ok(e.target)
  {
    EncodeLayout(e);
    TaggedTarget(Encode(e), e.target);
  }

  lemma TaggedTarget(bytes: seq<Byte>, t: Target)
    requires t.Valid() && |bytes| == 30 && bytes[0] == ContextKey(t)[0] && bytes[2..2 + |t.octets|] == t.octets
    requires t.Cidr? ==> bytes[1] == t.prefix
    ensures DecodeTarget(bytes) == Ok(t)
  {
  }

  /** Reading a record back gives the entry that was written. */
  lemma DecodeEncode(e: Entry)
    requires e.Valid()
    ensures |Encode(e)| == 30 && Decode(Encode(e)) == Ok(e)
  {
    DecodeTargetEncode(e);
    EncodeLayout(e);
    BeRoundTrip(e.ruleId, 4);
    BeRoundTrip(e.metadataId, 4);
    BeRoundTrip(e.line, 4);
  }

  /** A block: the records of consecutive entries, packed. */
  function EncodeAll(entries: seq<Entry>): seq<Byte> {
    Flatten(Map(Encode, entries))
  }

  lemma {:induction false} RecordOffset(c: nat)
    ensures Offset(30, c) == 30 * c
  {
    if c > 0 { RecordOffset(c - 1); }
  }

  /** The record at position `c` of a block reads back as the entry packed there. */
  lemma RecordAt(entries: seq<Entry>, c: nat)
    requires forall e <- entries :: e.Valid()
    ensures |EncodeAll(entries)| == 30 * |entries|
    ensures c < |entries| ==> Decode(EncodeAll(entries)[30 * c..30 * (c + 1)]) == Ok(entries[c])
  {
    var parts := Map(Encode, entries);
    forall i | 0 <= i < |parts| ensures |parts[i]| == 30 {
      assert entries[i] in entries;
      EncodedTail(entries[i]);
    }
    FlattenAt(parts, 30, c);
    RecordOffset(|entries|);
    RecordOffset(c);
    RecordOffset(c + 1);
    if c < |entries| {
      assert entries[c] in entries;
      DecodeEncode(entries[c]);
    }
  }

  // ----- bulk writing ----------------------------------------------------------------

  datatype ColumnFamily = ContributionsFamily | EntriesFamily
  datatype Put<K, V> = Put(family: ColumnFamily, row: (K, V))
  datatype Db<K, V> = Db(contributions: map<K, V>, blocks: map<K, V>)

  function Applied<K, V>(db: Db<K, V>, put: Put<K, V>): Db<K, V> {
    if put.family.ContributionsFamily? then db.(contributions := db.contributions[put.row.0 := put.row.1])
    else db.(blocks := db.blocks[put.row.0 := put.row.1])
  }

  function ApplyAll<K, V>(db: Db<K, V>, puts: seq<Put<K, V>>): Db<K, V> {
    if puts == [] then db else Applied(ApplyAll(db, puts[..|puts| - 1]), puts[|puts| - 1])
  }

  lemma ApplySnoc<K, V>(db: Db<K, V>, puts: seq<Put<K, V>>, put: Put<K, V>)
    ensures ApplyAll(db, puts + [put]) == Applied(ApplyAll(db, puts), put)
  {
    SnocTake(puts, put);
  }

  lemma PutAllSnoc<K, V>(db: map<K, V>, rows: seq<(K, V)>, row: (K, V))
    ensures PutAll(db, rows + [row]) == PutAll(db, rows)[row.0 := row.1]
  {
    SnocTake(rows, row);
  }

  /** One writer, one pending batch, committed whenever its size reaches the limit. */
  class BulkWriter<K(==), V> {
    var committed: Db<K, V>
    var batch: seq<Put<K, V>>
    const limit: nat
    const sizeInBytes: seq<Put<K, V>> -> nat

    /** What the database holds once everything pending is written. */
    function View(): Db<K, V>
      reads this
    {
      ApplyAll(committed, batch)
    }

    constructor (limit: nat, sizeInBytes: seq<Put<K, V>> -> nat)
      ensures View() == Db(map[], map[])
    {
      this.limit := limit;
      this.sizeInBytes := sizeInBytes;
      committed := Db(map[], map[]);
      batch := [];
    }

    /** Write the pending batch; `fails` is the storage engine's own verdict. */
    method Commit(fails: bool) returns (ok: bool)
      modifies this
      ensures ok ==> View() == old(View()) && batch == [] && committed == View()
      ensures !ok ==> fails
    {
      if batch == [] {
        return true;
      }
      var pending := batch;
      batch := [];
      if fails {
        return false;
      }
      committed := ApplyAll(committed, pending);
      return true;
    }

    /** Queue the contributions of one block and, when spooling, the block itself. */
    method Queue(rows: seq<(K, V)>, block: Option<(K, V)>, fails: bool) returns (ok: bool)
      modifies this
      ensures !ok ==> fails
      ensures ok ==> View().contributions == PutAll(old(View()).contributions, rows)
      ensures ok ==> View().blocks ==
                     if block.Some? then old(View()).blocks[block.value.0 := block.value.1] else old(View()).blocks
    {
      for i := 0 to |rows|
        invariant committed == old(committed) && View().blocks == old(View()).blocks
        invariant View().contributions == PutAll(old(View()).contributions, rows[..i])
      {
        ApplySnoc(committed, batch, Put(ContributionsFamily, rows[i]));
        PutAllSnoc(old(View()).contributions, rows[..i], rows[i]);
        TakeSnoc(rows, i);
        batch := batch + [Put(ContributionsFamily, rows[i])];
      }
      TakeAll(rows);
      if block.Some? {
        ApplySnoc(committed, batch, Put(EntriesFamily, block.value));
        batch := batch + [Put(EntriesFamily, block.value)];
      }
      ok := true;
      if sizeInBytes(batch) >= limit {
        ok := Commit(fails);
      }
    }
  }

  type Bytes = seq<Byte>

  /** An entry's contribution: its numbered key, and the tail of its record. */
  function EncodedRow(e: Entry, sequence: nat): Row {
    (ContributionKey(e.target, sequence), Encode(e)[22..])
  }

  lemma EncodedRows(entries: seq<Entry>, sequence: nat)
    requires forall e <- entries :: e.Valid()
    ensures Numbered(EncodedRow, entries, sequence) == Numbered(RowOfEntry, entries, sequence)
  {
    forall i | 0 <= i < |entries| ensures EncodedRow(entries[i], sequence + i) == RowOfEntry(entries[i], sequence + i) {
      assert entries[i] in entries;
      EncodedTail(entries[i]);
    }
  }

  /** The per-entry loop of `entries`, whatever the encodings are. */
  method EncodeEach<E, R, P>(row: (E, nat) -> R, record: E -> seq<P>, entries: seq<E>, sequence: nat)
    returns (rows: seq<R>, buffer: seq<P>)
    ensures rows == Numbered(row, entries, sequence) && buffer == Flatten(Map(record, entries))
  {
    rows, buffer := [], [];
    ghost var records := Map(record, entries);
    for offset := 0 to |entries|
      invariant |rows| == offset && forall i :: 0 <= i < offset ==> rows[i] == row(entries[i], sequence + i)
      invariant buffer == Flatten(records[..offset])
    {
      FlattenSnoc(records[..offset], records[offset]);
      TakeSnoc(records, offset);
      rows := rows + [row(entries[offset], sequence + offset)];
      buffer := buffer + record(entries[offset]);
    }
    TakeAll(records);
  }

  /** `BulkWriter::entries`: a contribution each and, when spooling, one block of records. */
  method WriteEntries(writer: BulkWriter<Bytes, Bytes>, entries: seq<Entry>, sequence: nat, spool: bool, fails: bool)
    returns (ok: bool)
    requires forall e <- entries :: e.Valid()
    modifies writer
    ensures !ok ==> fails
    ensures ok ==> writer.View().contributions ==
                   PutAll(old(writer.View()).contributions, Numbered(RowOfEntry, entries, sequence))
    ensures ok ==> writer.View().blocks ==
                   if spool then old(writer.View()).blocks[ToBe(sequence, 8) := EncodeAll(entries)]
                   else old(writer.View()).blocks
  {
    var rows, buffer := EncodeEach(EncodedRow, Encode, entries, sequence);
    EncodedRows(entries, sequence);
    ok := writer.Queue(rows, if spool then Some((ToBe(sequence, 8), buffer)) else None, fails);
  }

  // ----- the consumer's writes ----------------------------------------------------------

  /** Sequence number at which each block starts. */
  function Start<T>(batches: seq<seq<T>>, i: nat): nat
    requires i <= |batches|
  {
    |Flatten(batches[..i])|
  }

  /** The blocks, keyed by start sequence, in arrival order. */
  function BlockRows<T, R>(row: (nat, seq<T>) -> R, batches: seq<seq<T>>): (rows: seq<R>)
    ensures |rows| == |batches| && forall i :: 0 <= i < |rows| ==> rows[i] == row(Start(batches, i), batches[i])
  {
    if batches == [] then [] else
    var n := |batches| - 1;
    assert forall i :: 0 <= i < n ==> batches[..n][..i] == batches[..i];
    BlockRows(row, batches[..n]) + [row(Start(batches, n), batches[n])]
  }

  function BlockRow(start: nat, entries: seq<Entry>): Row {
    (ToBe(start, 8), EncodeAll(entries))
  }

  /** The database after importing the batches in order. */
  function Spooled(batches: seq<seq<Entry>>): Db<Bytes, Bytes> {
    Db(Contributions(Flatten(batches)), PutAll(map[], BlockRows(BlockRow, batches)))
  }

  lemma SpooledSnoc(batches: seq<seq<Entry>>, batch: seq<Entry>)
    ensures var before, start := Spooled(batches), |Flatten(batches)|;
            Spooled(batches + [batch]) == Db(PutAll(before.contributions, Numbered(RowOfEntry, batch, start)),
                                             before.blocks[ToBe(start, 8) := EncodeAll(batch)])
  {
    FlattenSnoc(batches, batch);
    ContributionsJoin(Flatten(batches + [batch]), Flatten(batches), batch);
    BlocksSnoc(BlockRow, batches, batch);
  }

  lemma ContributionsJoin(whole: seq<Entry>, before: seq<Entry>, batch: seq<Entry>)
    requires whole == before + batch
    ensures Contributions(whole) == PutAll(Contributions(before), Numbered(RowOfEntry, batch, |before|))
  {
    NumberedPuts(RowOfEntry, map[], whole, before, batch, 0, |before|);
  }

  lemma BlocksSnoc<T, K, V>(row: (nat, seq<T>) -> (K, V), batches: seq<seq<T>>, batch: seq<T>)
    ensures PutAll(map[], BlockRows(row, batches + [batch])) ==
            var (key, value) := row(|Flatten(batches)|, batch); PutAll(map[], BlockRows(row, batches))[key := value]
  {
    SnocTake(batches, batch);
    PutAllSnoc(map[], BlockRows(row, batches), row(|Flatten(batches)|, batch));
  }

  /** The consumer loop's writes: every received block, numbered in arrival order, then a final commit. */
  method SpoolBatches(writer: BulkWriter<Bytes, Bytes>, batches: seq<seq<Entry>>, failsAt: nat -> bool) returns (ok: bool)
    requires writer.View() == Db(map[], map[])
    requires forall b <- batches :: forall e <- b :: e.Valid()
    modifies writer
    ensures ok ==> writer.committed == Spooled(batches) && writer.batch == []
    ensures (forall i :: !failsAt(i)) ==> ok
  {
    var sequence := 0;
    assert writer.View() == Spooled([]);
    for i := 0 to |batches|
      invariant sequence == |Flatten(batches[..i])| && writer.View() == Spooled(batches[..i])
    {
      assert batches[i] in batches;
      TakeSnoc(batches, i);
      SpooledSnoc(batches[..i], batches[i]);
      FlattenSnoc(batches[..i], batches[i]);
      ok := WriteEntries(writer, batches[i], sequence, true, failsAt(i));
      if !ok {
        return;
      }
      sequence := sequence + |batches[i]|;
    }
    TakeAll(batches);
    ok := writer.Commit(failsAt(|batches|));
  }

  // ----- replay -----------------------------------------------------------------------

  lemma {:induction false} StartsIncrease<T>(batches: seq<seq<T>>, i: nat, j: nat)
    requires i < j <= |batches| && forall k :: 0 <= k < |batches| ==> batches[k] != []
    ensures Start(batches, i) < Start(batches, j)
  {
    assert batches[..j][..j - 1] == batches[..j - 1];
    if i < j - 1 { StartsIncrease(batches, i, j - 1); }
  }

  /** A block's key is its start sequence. */
  lemma BlockKey(batches: seq<seq<Entry>>, i: nat)
    requires |Flatten(batches)| < Pow2(64) && i < |batches|
    requires forall k :: 0 <= k < |batches| ==> batches[k] != []
    ensures var key := BlockRows(BlockRow, batches)[i].0; |key| == 8 && FromBe(key) == Start(batches, i)
  {
    StartsIncrease(batches, i, |batches|);
    TakeAll(batches);
    BeRoundTrip(Start(batches, i), 8);
  }

  function KeyNumber(row: Row): nat { FromBe(row.0) }

  lemma BlocksAscend(batches: seq<seq<Entry>>)
    requires |Flatten(batches)| < Pow2(64) && forall i :: 0 <= i < |batches| ==> batches[i] != []
    ensures Ascending(KeyNumber, BlockRows(BlockRow, batches))
  {
    var rows := BlockRows(BlockRow, batches);
    forall i, j | 0 <= i < j < |rows| ensures KeyNumber(rows[i]) < KeyNumber(rows[j]) {
      BlockKey(batches, i);
      BlockKey(batches, j);
      StartsIncrease(batches, i, j);
    }
  }

  lemma BlockKeyOrder(batches: seq<seq<Entry>>, r: Row, q: Row)
    requires |Flatten(batches)| < Pow2(64) && forall i :: 0 <= i < |batches| ==> batches[i] != []
    requires r in BlockRows(BlockRow, batches) && q in BlockRows(BlockRow, batches) && LexLess(r.0, q.0)
    ensures KeyNumber(r) < KeyNumber(q)
  {
    var rows := BlockRows(BlockRow, batches);
    var i :| 0 <= i < |rows| && rows[i] == r;
    var j :| 0 <= j < |rows| && rows[j] == q;
    BlockKey(batches, i);
    BlockKey(batches, j);
    LexLessIsNumeric(r.0, q.0);
  }

  /** Byte order of the 8-byte keys is numeric order, so the cursor meets blocks in arrival order. */
  lemma CursorInArrivalOrder(rows: seq<Row>, batches: seq<seq<Entry>>)
    requires Iterates(LexLess, rows, Spooled(batches).blocks) && |Flatten(batches)| < Pow2(64)
    requires forall i :: 0 <= i < |batches| ==> batches[i] != []
    ensures rows == BlockRows(BlockRow, batches)
  {
    var expected := BlockRows(BlockRow, batches);
    BlocksAscend(batches);
    forall r, q | r in expected && q in expected && LexLess(r.0, q.0) ensures KeyNumber(r) < KeyNumber(q) {
      BlockKeyOrder(batches, r, q);
    }
    CursorInRankOrder(LexLess, KeyNumber, rows, expected);
  }

  /** Split a block into 30-byte records and decode each, whatever the decoding is. */
  method DecodeEach<P, E>(decode: seq<P> -> Result<E>, bytes: seq<P>, ghost entries: seq<E>) returns (result: Result<seq<E>>)
    requires |bytes| == 30 * |entries| && entries != []
    requires forall c :: 0 <= c < |entries| ==> decode(bytes[30 * c..30 * (c + 1)]) == Ok(entries[c])
    ensures result == Ok(entries)
  {
    if |bytes| == 0 || |bytes| % 30 != 0 {
      return Err;
    }
    var decoded := [];
    var count := |bytes| / 30;
    assert count == |entries|;
    for c := 0 to count
      invariant |decoded| == c && forall i :: 0 <= i < c ==> decoded[i] == entries[i]
    {
      var record := decode(bytes[30 * c..30 * (c + 1)]);
      assert record == Ok(entries[c]);
      if record.Err? {
        return Err;
      }
      decoded := decoded + [record.value];
    }
    assert decoded == entries;
    return Ok(decoded);
  }

  /** Decode one block of packed records. */
  method ReplayBlock(bytes: Bytes, ghost entries: seq<Entry>) returns (result: Result<seq<Entry>>)
    requires entries != [] && (forall e <- entries :: e.Valid()) && bytes == EncodeAll(entries)
    ensures result == Ok(entries)
  {
    RecordAt(entries, 0);
    forall c | 0 <= c < |entries| ensures Decode(bytes[30 * c..30 * (c + 1)]) == Ok(entries[c]) {
      RecordAt(entries, c);
    }
    result := DecodeEach(Decode, bytes, entries);
  }

  method ReplayBlocks(blocks: seq<Bytes>, ghost batches: seq<seq<Entry>>) returns (result: Result<seq<Entry>>)
    requires |blocks| == |batches| && forall i :: 0 <= i < |blocks| ==> blocks[i] == EncodeAll(batches[i])
    requires forall i :: 0 <= i < |batches| ==> batches[i] != [] && forall e <- batches[i] :: e.Valid()
    ensures result == Ok(Flatten(batches))
  {
    var visited := [];
    for i := 0 to |blocks|
      invariant visited == Flatten(batches[..i])
    {
      TakeSnoc(batches, i);
      FlattenSnoc(batches[..i], batches[i]);
      var block := ReplayBlock(blocks[i], batches[i]);
      if block.Err? {
        return Err;
      }
      visited := visited + block.value;
    }
    TakeAll(batches);
    return Ok(visited);
  }

  /** `visit_entries` over the spool yields the imported entries, whatever the batching was. */
  method VisitEntries(rows: seq<Row>, ghost batches: seq<seq<Entry>>) returns (result: Result<seq<Entry>>)
    requires Iterates(LexLess, rows, Spooled(batches).blocks) && |Flatten(batches)| < Pow2(64)
    requires forall i :: 0 <= i < |batches| ==> batches[i] != [] && forall e <- batches[i] :: e.Valid()
    ensures result == Ok(Flatten(batches))
  {
    CursorInArrivalOrder(rows, batches);
    result := ReplayBlocks(Map((r: Row) => r.1, rows), batches);
  }
}
