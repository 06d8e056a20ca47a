/**
 * The two loops of the container (packages/app-runtime/src/plugin-archive.ts:59-154): byte buffers filled
 * field by field behind a running offset, and the directory walked behind a running cursor.
 */
module PluginArchiveIo {
  import opened PluginArchive
  import opened Results
  import Crc32

  // ---- Buffers ----

  /** Bytes written from the front of a fresh buffer: `done`, then a gap of zeros up to `at`, then `chunk`. */
  ghost function Then(done: seq<Byte>, at: nat, chunk: seq<Byte>): (s: seq<Byte>)
    requires |done| <= at
    ensures |s| == at + |chunk|
  {
    (if |done| == at then done else done + Zeros(at - |done|)) + chunk
  }

  /** `done` has been written, and nothing after it. */
  ghost predicate Holds(buffer: seq<Byte>, done: seq<Byte>) {
    |done| <= |buffer| && buffer == done + Zeros(|buffer| - |done|)
  }

  /** `set`, `setUint16` and `setUint32`: the bytes of `chunk` from `at` on. */
  method Set(buffer: array<Byte>, at: nat, chunk: seq<Byte>, ghost done: seq<Byte>)
    requires |done| <= at && at + |chunk| <= buffer.Length && Holds(buffer[..], done)
    modifies buffer
    ensures Holds(buffer[..], Then(done, at, chunk))
  {
    forall i | 0 <= i < |chunk| { buffer[at + i] := chunk[i]; }
    ghost var now := Then(done, at, chunk);
    assert forall i :: 0 <= i < |done| ==> buffer[i] == done[i];
    assert buffer[..] == now + Zeros(buffer.Length - |now|);
  }

  method Buffer(size: nat) returns (buffer: array<Byte>)
    ensures fresh(buffer) && buffer.Length == size && Holds(buffer[..], [])
  {
    buffer := new Byte[size](_ => 0);
    assert buffer[..] == [] + Zeros(size);
  }

  lemma Filled(buffer: seq<Byte>, done: seq<Byte>)
    requires Holds(buffer, done) && |done| == |buffer|
    ensures buffer == done
  {}

  method WriteLocal(entry: Entry, crc: nat) returns (record: seq<Byte>)
    requires crc == Checksum(entry.data)
    ensures record == LocalRecord(entry)
  {
    hide Le16, Le32, Holds, Then, Checksum;
    var local := Buffer(LOCAL_SIZE + |entry.name| + |entry.data|);
    ghost var h := [];
    Set(local, 0, Le32(LOCAL_SIGNATURE), h);
    h := Then(h, 0, Le32(LOCAL_SIGNATURE));
    Set(local, 4, Le16(VERSION), h);
    h := Then(h, 4, Le16(VERSION));
    Set(local, 8, Le16(0), h);
    h := Then(h, 8, Le16(0));
    Set(local, 14, Le32(crc), h);
    h := Then(h, 14, Le32(crc));
    Set(local, 18, Le32(|entry.data|), h);
    h := Then(h, 18, Le32(|entry.data|));
    Set(local, 22, Le32(|entry.data|), h);
    h := Then(h, 22, Le32(|entry.data|));
    Set(local, 26, Le16(|entry.name|), h);
    h := Then(h, 26, Le16(|entry.name|));
    Set(local, LOCAL_SIZE, entry.name, h);
    h := Then(h, LOCAL_SIZE, entry.name);
    Set(local, LOCAL_SIZE + |entry.name|, entry.data, h);
    h := Then(h, LOCAL_SIZE + |entry.name|, entry.data);
    Filled(local[..], h);
    LocalLayout(entry);
    record := local[..];
  }

  /** The buffer's fields, in the order of APPNOTE section 4.3.7. */
  lemma LocalLayout(e: Entry)
    ensures LocalRecord(e) ==
      Then(Then(Then(Then(Then(Then(Then(Then(Then([],
        0, Le32(LOCAL_SIGNATURE)), 4, Le16(VERSION)), 8, Le16(0)), 14, Le32(Checksum(e.data))), 18, Le32(|e.data|)),
        22, Le32(|e.data|)), 26, Le16(|e.name|)), LOCAL_SIZE, e.name), LOCAL_SIZE + |e.name|, e.data)
  {
    hide Le16, Le32, Checksum;
  }

  method WriteCentral(entry: Entry, crc: nat, offset: nat) returns (record: seq<Byte>)
    requires crc == Checksum(entry.data)
    ensures record == CentralRecord(entry, offset)
  {
    hide Le16, Le32, Holds, Then, Checksum;
    var central := Buffer(CENTRAL_SIZE + |entry.name|);
    ghost var h := [];
    Set(central, 0, Le32(CENTRAL_SIGNATURE), h);
    h := Then(h, 0, Le32(CENTRAL_SIGNATURE));
    Set(central, 4, Le16(VERSION), h);
    h := Then(h, 4, Le16(VERSION));
    Set(central, 6, Le16(VERSION), h);
    h := Then(h, 6, Le16(VERSION));
    Set(central, 16, Le32(crc), h);
    h := Then(h, 16, Le32(crc));
    Set(central, 20, Le32(|entry.data|), h);
    h := Then(h, 20, Le32(|entry.data|));
    Set(central, 24, Le32(|entry.data|), h);
    h := Then(h, 24, Le32(|entry.data|));
    Set(central, 28, Le16(|entry.name|), h);
    h := Then(h, 28, Le16(|entry.name|));
    Set(central, 42, Le32(offset), h);
    h := Then(h, 42, Le32(offset));
    Set(central, CENTRAL_SIZE, entry.name, h);
    h := Then(h, CENTRAL_SIZE, entry.name);
    Filled(central[..], h);
    CentralLayout(entry, offset);
    record := central[..];
  }

  lemma CentralLayout(e: Entry, offset: nat)
    ensures CentralRecord(e, offset) ==
      Then(Then(Then(Then(Then(Then(Then(Then(Then([],
        0, Le32(CENTRAL_SIGNATURE)), 4, Le16(VERSION)), 6, Le16(VERSION)), 16, Le32(Checksum(e.data))),
        20, Le32(|e.data|)), 24, Le32(|e.data|)), 28, Le16(|e.name|)), 42, Le32(offset)), CENTRAL_SIZE, e.name)
  {
    hide Le16, Le32, Checksum;
  }

  method WriteEnd(count: nat, centralSize: nat, offset: nat) returns (record: seq<Byte>)
    ensures record == EndRecord(count, centralSize, offset)
  {
    hide Le16, Le32, Holds, Then;
    var end := Buffer(END_SIZE);
    ghost var h := [];
    Set(end, 0, Le32(END_SIGNATURE), h);
    h := Then(h, 0, Le32(END_SIGNATURE));
    Set(end, 8, Le16(count), h);
    h := Then(h, 8, Le16(count));
    Set(end, 10, Le16(count), h);
    h := Then(h, 10, Le16(count));
    Set(end, 12, Le32(centralSize), h);
    h := Then(h, 12, Le32(centralSize));
    Set(end, 16, Le32(offset), h);
    h := Then(h, 16, Le32(offset));
    EndLayout(end[..], count, centralSize, offset);
    record := end[..];
  }

  lemma EndLayout(buffer: seq<Byte>, count: nat, centralSize: nat, offset: nat)
    requires |buffer| == END_SIZE
    requires Holds(buffer, Then(Then(Then(Then(Then([], 0, Le32(END_SIGNATURE)), 8, Le16(count)), 10, Le16(count)),
                                     12, Le32(centralSize)), 16, Le32(offset)))
    ensures buffer == EndRecord(count, centralSize, offset)
  {
    hide Le16, Le32;
  }

  // ---- Chunks ----

  function Flat(chunks: seq<seq<Byte>>): seq<Byte> {
    if chunks == [] then [] else Flat(chunks[..|chunks| - 1]) + chunks[|chunks| - 1]
  }

  lemma {:induction false} FlatConcat(a: seq<seq<Byte>>, b: seq<seq<Byte>>)
    ensures Flat(a + b) == Flat(a) + Flat(b)
    decreases |b|
  {
    if b == [] {
      assert a + b == a;
    } else {
      var n := |b| - 1;
      FlatConcat(a, b[..n]);
      assert (a + b)[..|a + b| - 1] == a + b[..n];
    }
  }

  lemma FlatSnoc(chunks: seq<seq<Byte>>, chunk: seq<Byte>)
    ensures Flat(chunks + [chunk]) == Flat(chunks) + chunk
  {
    assert (chunks + [chunk])[..|chunks|] == chunks;
  }

  lemma {:induction false} FlatGrows(chunks: seq<seq<Byte>>, k: nat)
    requires k <= |chunks|
    ensures |Flat(chunks[..k])| <= |Flat(chunks)|
    decreases |chunks| - k
  {
    if k == |chunks| {
      assert chunks[..k] == chunks;
    } else {
      FlatGrows(chunks, k + 1);
      assert chunks[..k + 1] == chunks[..k] + [chunks[k]];
      FlatSnoc(chunks[..k], chunks[k]);
    }
  }

  lemma FlatOfNothing()
    ensures Flat([]) == []
  {}

  lemma ThenAtOnce(done: seq<Byte>, chunk: seq<Byte>)
    ensures Then(done, |done|, chunk) == done + chunk
  {}

  method Join(chunks: seq<seq<Byte>>, size: nat) returns (out: array<Byte>)
    requires size == |Flat(chunks)|
    ensures fresh(out) && out[..] == Flat(chunks)
  {
    hide Flat, Holds;
    out := Buffer(size);
    var cursor, k := 0, 0;
    assert chunks[..0] == [];
    FlatOfNothing();
    while k < |chunks|
      invariant 0 <= k <= |chunks| && out.Length == size
      invariant cursor == |Flat(chunks[..k])| && Holds(out[..], Flat(chunks[..k]))
    {
      assert chunks[..k + 1] == chunks[..k] + [chunks[k]];
      FlatSnoc(chunks[..k], chunks[k]);
      FlatGrows(chunks, k + 1);
      Set(out, cursor, chunks[k], Flat(chunks[..k]));
      ThenAtOnce(Flat(chunks[..k]), chunks[k]);
      cursor := cursor + |chunks[k]|;
      k := k + 1;
    }
    assert chunks[..|chunks|] == chunks;
    Filled(out[..], Flat(chunks));
  }

  lemma EntriesSnoc(es: seq<Entry>, k: nat)
    requires k < |es|
    ensures Locals(es[..k + 1]) == Locals(es[..k]) + LocalRecord(es[k])
    ensures Centrals(es[..k + 1]) == Centrals(es[..k]) + CentralRecord(es[k], |Locals(es[..k])|)
  {
    hide LocalRecord, CentralRecord;
    assert es[..k + 1][..k] == es[..k];
  }

  method SumOfLengths(chunks: seq<seq<Byte>>) returns (sum: nat)
    ensures sum == |Flat(chunks)|
  {
    sum := 0;
    var k := 0;
    while k < |chunks|
      invariant 0 <= k <= |chunks| && sum == |Flat(chunks[..k])|
    {
      assert chunks[..k + 1] == chunks[..k] + [chunks[k]];
      FlatSnoc(chunks[..k], chunks[k]);
      sum := sum + |chunks[k]|;
      k := k + 1;
    }
    assert chunks[..|chunks|] == chunks;
  }

  /** `writeZip`; `table` is the CRC table of the module. */
  method WriteZip(table: array<bv32>, entries: seq<Entry>) returns (out: array<Byte>)
    requires Crc32.IsTable(table[..])
    ensures fresh(out) && out[..] == Zip(entries)
  {
    hide LocalRecord, CentralRecord, EndRecord, Flat, Locals, Centrals, Crc32.IsTable;
    var locals, centrals: seq<seq<Byte>> := [], [];
    var offset, k := 0, 0;
    NoEntries(entries);
    while k < |entries|
      invariant 0 <= k <= |entries|
      invariant Flat(locals) == Locals(entries[..k]) && Flat(centrals) == Centrals(entries[..k])
      invariant offset == |Locals(entries[..k])|
    {
      hide Checksum;
      var entry := entries[k];
      var word := Crc32.Crc32(table, entry.data);
      var crc := word as int;
      SameChecksum(entry.data, crc);
      var local := WriteLocal(entry, crc);
      var central := WriteCentral(entry, crc, offset);
      FlatSnoc(locals, local);
      FlatSnoc(centrals, central);
      EntriesSnoc(entries, k);
      locals := locals + [local];
      centrals := centrals + [central];
      offset := offset + |local|;
      k := k + 1;
    }
    assert entries[..|entries|] == entries;
    var centralSize := SumOfLengths(centrals);
    var end := WriteEnd(|entries|, centralSize, offset);
    FlatConcat(locals, centrals);
    FlatSnoc(locals + centrals, end);
    out := Join(locals + centrals + [end], offset + centralSize + END_SIZE);
  }

  lemma NoEntries(entries: seq<Entry>)
    ensures Flat([]) == Locals(entries[..0]) == Centrals(entries[..0]) == []
  {}

  lemma SameChecksum(data: seq<Byte>, crc: nat)
    requires crc == Crc32.Checksum(data) as int
    ensures crc == Checksum(data)
  {}

  // ---- Reading ----

  function Prepend(entries: seq<Entry>, r: Result<seq<Entry>, ReadError>): Result<seq<Entry>, ReadError> {
    match r
    case Ok(rest) => Ok(entries + rest)
    case Err(error) => Err(error)
  }

  lemma ReadOne(bytes: seq<Byte>, cursor: nat, index: nat, count: nat, entries: seq<Entry>)
    requires index < count
    ensures var step := ReadRecord(bytes, cursor, index);
            Prepend(entries, ReadFrom(bytes, cursor, index, count))
            == if step.Err? then Err(step.error)
               else Prepend(entries + [step.value.entry], ReadFrom(bytes, step.value.next, index + 1, count))
  {
    hide ReadRecord;
    var step := ReadRecord(bytes, cursor, index);
    if step.Ok? {
      var rest := ReadFrom(bytes, step.value.next, index + 1, count);
      if rest.Ok? { assert entries + ([step.value.entry] + rest.value) == entries + [step.value.entry] + rest.value; }
    }
  }

  method FindEnd(bytes: seq<Byte>) returns (found: int)
    ensures ScanFrom(bytes, |bytes| - END_SIZE) == if found < 0 then None else Some(found)
    ensures 0 <= found ==> EndAt(bytes, found)
  {
    found := -1;
    var i := |bytes| - END_SIZE;
    while i >= ScanFloor(bytes)
      invariant i <= |bytes| - END_SIZE
      invariant ScanFrom(bytes, |bytes| - END_SIZE) == ScanFrom(bytes, i)
      decreases i
    {
      if U32(bytes, i) == END_SIGNATURE {
        found := i;
        return;
      }
      i := i - 1;
    }
  }

  method ReadZip(bytes: seq<Byte>) returns (r: Result<seq<Entry>, ReadError>)
    ensures r == Read(bytes)
    ensures Answers(bytes, r)
  {
    hide U16, U32, ReadFrom, ReadRecord, EndAt, Answers;
    ReadIff(bytes, Read(bytes));
    var end := FindEnd(bytes);
    if end < 0 { return Err(NotAZip); }
    EndIsInside(bytes, end);
    PrependNothing(ReadFrom(bytes, U32(bytes, end + 16), 0, U16(bytes, end + 10)));
    var count := U16(bytes, end + 10);
    var cursor: nat := U32(bytes, end + 16);
    var entries: seq<Entry> := [];
    var index := 0;
    while index < count
      invariant 0 <= index <= count
      invariant Read(bytes) == Prepend(entries, ReadFrom(bytes, cursor, index, count))
    {
      hide Read;
      ReadOne(bytes, cursor, index, count, entries);
      var step := ReadRecord(bytes, cursor, index);
      if step.Err? { return Err(step.error); }
      entries := entries + [step.value.entry];
      cursor := step.value.next;
      index := index + 1;
    }
    NoneLeft(bytes, cursor, count);
    assert entries + [] == entries;
    r := Ok(entries);
  }

  lemma PrependNothing(r: Result<seq<Entry>, ReadError>)
    ensures Prepend([], r) == r
  {
    if r.Ok? { assert [] + r.value == r.value; }
  }

  lemma NoneLeft(bytes: seq<Byte>, cursor: nat, count: nat)
    ensures ReadFrom(bytes, cursor, count, count) == Ok([])
  {}
}
