/**
 * The store-only ZIP container of a plugin archive (packages/app-runtime/src/plugin-archive.ts:58-154;
 * APPNOTE sections 4.3.7, 4.3.12 and 4.3.16). An entry's name is its encoded byte string.
 */
module PluginArchive {
  import opened Results
  import Crc32

  type Byte = Crc32.Byte

  datatype Entry = Entry(name: seq<Byte>, data: seq<Byte>)

  /** `OutOfBounds` is the RangeError of a DataView read past the end of the buffer. */
  datatype ReadError =
    | NotAZip
    | CorruptDirectory(index: nat)
    | UnsupportedMethod(name: seq<Byte>, compression: nat)
    | OutOfBounds

  const LOCAL_SIGNATURE: nat := 0x04034b50
  const CENTRAL_SIGNATURE: nat := 0x02014b50
  const END_SIGNATURE: nat := 0x06054b50
  const LOCAL_SIZE: nat := 30
  const CENTRAL_SIZE: nat := 46
  const END_SIZE: nat := 22
  const TWO_16: nat := 0x1_0000
  const TWO_32: nat := 0x1_0000_0000
  const VERSION: nat := 20
  const MAX_COMMENT: nat := 65535

  // ---- Little-endian fields; setUint16 and setUint32 keep the low bits of what they are given ----

  function ByteOf(n: nat): Byte { n % 256 }

  function Le16(n: nat): (f: seq<Byte>)
    ensures |f| == 2
  {
    [ByteOf(n), ByteOf(n / 256)]
  }

  function Le32(n: nat): (f: seq<Byte>)
    ensures |f| == 4
  {
    Le16(n) + Le16(n / TWO_16)
  }

  function U16(bytes: seq<Byte>, at: nat): (n: nat)
    requires at + 2 <= |bytes|
    ensures n < TWO_16
  {
    (bytes[at] as int) + 256 * (bytes[at + 1] as int)
  }

  function U32(bytes: seq<Byte>, at: nat): (n: nat)
    requires at + 4 <= |bytes|
    ensures n < TWO_32
  {
    U16(bytes, at) + TWO_16 * U16(bytes, at + 2)
  }

  function Zeros(n: nat): (z: seq<Byte>)
    ensures |z| == n
  {
    seq(n, _ => 0)
  }

  lemma U16OfLe16(n: nat)
    ensures U16(Le16(n), 0) == n % TWO_16
  {}

  lemma U32OfLe32(n: nat)
    ensures U32(Le32(n), 0) == n % TWO_32
  {
    hide Le16;
    U16OfLe16(n);
    U16OfLe16(n / TWO_16);
    assert U16(Le32(n), 0) == U16(Le16(n), 0) && U16(Le32(n), 2) == U16(Le16(n / TWO_16), 0);
    HalvesOfWord(n);
  }

  lemma HalvesOfWord(n: nat)
    ensures n % TWO_16 + TWO_16 * (n / TWO_16 % TWO_16) == n % TWO_32
  {
    var q := n / TWO_16;
    assert n == TWO_32 * (q / TWO_16) + (TWO_16 * (q % TWO_16) + n % TWO_16);
  }

  // ---- What is written ----

  function Checksum(data: seq<Byte>): nat {
    Crc32.Checksum(data) as int
  }

  function LocalHeader(e: Entry): (h: seq<Byte>)
    ensures |h| == LOCAL_SIZE
  {
    Le32(LOCAL_SIGNATURE) + Le16(VERSION) + Zeros(2) + Le16(0) + Zeros(4) + Le32(Checksum(e.data))
      + Le32(|e.data|) + Le32(|e.data|) + Le16(|e.name|) + Zeros(2)
  }

  function LocalRecord(e: Entry): (r: seq<Byte>)
    ensures |r| == LOCAL_SIZE + |e.name| + |e.data|
  {
    LocalHeader(e) + e.name + e.data
  }

  function CentralHeader(e: Entry, offset: nat): (h: seq<Byte>)
    ensures |h| == CENTRAL_SIZE
  {
    Le32(CENTRAL_SIGNATURE) + Le16(VERSION) + Le16(VERSION) + Zeros(8) + Le32(Checksum(e.data))
      + Le32(|e.data|) + Le32(|e.data|) + Le16(|e.name|) + Zeros(12) + Le32(offset)
  }

  function CentralRecord(e: Entry, offset: nat): (r: seq<Byte>)
    ensures |r| == CENTRAL_SIZE + |e.name|
  {
    CentralHeader(e, offset) + e.name
  }

  function EndRecord(count: nat, centralSize: nat, offset: nat): (r: seq<Byte>)
    ensures |r| == END_SIZE
  {
    Le32(END_SIGNATURE) + Zeros(4) + Le16(count) + Le16(count) + Le32(centralSize) + Le32(offset) + Zeros(2)
  }

  function Locals(es: seq<Entry>): seq<Byte> {
    if es == [] then [] else Locals(es[..|es| - 1]) + LocalRecord(es[|es| - 1])
  }

  /** The central directory; each record holds the offset at which its entry's local record starts. */
  function Centrals(es: seq<Entry>): seq<Byte> {
    if es == [] then []
    else
      var rest := es[..|es| - 1];
      Centrals(rest) + CentralRecord(es[|es| - 1], |Locals(rest)|)
  }

  function Zip(es: seq<Entry>): (z: seq<Byte>)
    ensures |z| == |Locals(es)| + |Centrals(es)| + END_SIZE
  {
    Locals(es) + Centrals(es) + EndRecord(|es|, |Centrals(es)|, |Locals(es)|)
  }

  // ---- What is read ----

  predicate EndAt(bytes: seq<Byte>, i: nat) {
    i + END_SIZE <= |bytes| && U32(bytes, i) == END_SIGNATURE
  }

  /** Where the backward scan stops looking. */
  function ScanFloor(bytes: seq<Byte>): nat {
    if |bytes| < END_SIZE + MAX_COMMENT then 0 else |bytes| - END_SIZE - MAX_COMMENT
  }

  /** The backward scan, from position `i` down. */
  function ScanFrom(bytes: seq<Byte>, i: int): Option<nat>
    decreases i
  {
    if i < ScanFloor(bytes) then None
    else if EndAt(bytes, i) then Some(i)
    else ScanFrom(bytes, i - 1)
  }

  /** The scan finds the last end record, if one lies close enough to the end. */
  ghost predicate IsEnd(bytes: seq<Byte>, found: Option<nat>) {
    match found
    case Some(i) =>
      && |bytes| <= i + END_SIZE + MAX_COMMENT && EndAt(bytes, i)
      && forall j :: i < j ==> !EndAt(bytes, j)
    case None => forall j: nat :: |bytes| <= j + END_SIZE + MAX_COMMENT ==> !EndAt(bytes, j)
  }

  function Min(a: nat, b: nat): nat { if a <= b then a else b }

  /** `subarray` and `slice` clamp both ends to the buffer. */
  function Clamped(bytes: seq<Byte>, from: nat, to: nat): seq<Byte>
    requires from <= to
  {
    bytes[Min(from, |bytes|)..Min(to, |bytes|)]
  }

  datatype Step = Step(entry: Entry, next: nat)

  /** One record of the central directory, and the entry it names. */
  function ReadRecord(bytes: seq<Byte>, cursor: nat, index: nat): Result<Step, ReadError> {
    if cursor + 4 > |bytes| then Err(OutOfBounds)
    else if U32(bytes, cursor) != CENTRAL_SIGNATURE then Err(CorruptDirectory(index))
    else if cursor + CENTRAL_SIZE > |bytes| then Err(OutOfBounds)
    else
      var nameLength := U16(bytes, cursor + 28);
      var name := Clamped(bytes, cursor + CENTRAL_SIZE, cursor + CENTRAL_SIZE + nameLength);
      var compression := U16(bytes, cursor + 10);
      var local := U32(bytes, cursor + 42);
      if compression != 0 then Err(UnsupportedMethod(name, compression))
      else if local + LOCAL_SIZE > |bytes| then Err(OutOfBounds)
      else
        var start := local + LOCAL_SIZE + U16(bytes, local + 26) + U16(bytes, local + 28);
        var data := Clamped(bytes, start, start + U32(bytes, cursor + 20));
        Ok(Step(Entry(name, data),
                cursor + CENTRAL_SIZE + nameLength + U16(bytes, cursor + 30) + U16(bytes, cursor + 32)))
  }

  /** The records from number `index` on. */
  function ReadFrom(bytes: seq<Byte>, cursor: nat, index: nat, count: nat): Result<seq<Entry>, ReadError>
    requires index <= count
    decreases count - index
  {
    if index == count then Ok([])
    else
      match ReadRecord(bytes, cursor, index)
      case Err(error) => Err(error)
      case Ok(step) =>
        match ReadFrom(bytes, step.next, index + 1, count)
        case Err(error) => Err(error)
        case Ok(rest) => Ok([step.entry] + rest)
  }

  function Read(bytes: seq<Byte>): Result<seq<Entry>, ReadError> {
    match ScanFrom(bytes, |bytes| - END_SIZE)
    case None => Err(NotAZip)
    case Some(end) =>
      if EndAt(bytes, end) then ReadFrom(bytes, U32(bytes, end + 16), 0, U16(bytes, end + 10)) else Err(NotAZip)
  }

  lemma {:induction false} ScanFindsLast(bytes: seq<Byte>, i: int)
    requires forall j :: 0 <= j && i < j ==> !EndAt(bytes, j)
    ensures IsEnd(bytes, ScanFrom(bytes, i))
    decreases i
  {
    if ScanFloor(bytes) <= i && !EndAt(bytes, i) { ScanFindsLast(bytes, i - 1); }
  }

  lemma ReadFindsLastEnd(bytes: seq<Byte>)
    ensures IsEnd(bytes, ScanFrom(bytes, |bytes| - END_SIZE))
  {
    ScanFindsLast(bytes, |bytes| - END_SIZE);
  }

  // ---- The directory, by position ----

  /** `piece` is what stands at `from`: `length` bytes, or as many of them as there are. */
  ghost predicate Cut(bytes: seq<Byte>, from: nat, length: nat, piece: seq<Byte>) {
    && |piece| <= length
    && (|piece| < length ==> from + |piece| >= |bytes|)
    && forall i :: 0 <= i < |piece| ==> from + i < |bytes| && piece[i] == bytes[from + i]
  }

  /** The record at `at` stores `e`: its name behind the record, its data behind the local header it points at. */
  ghost predicate Stores(bytes: seq<Byte>, at: nat, e: Entry) {
    && at + 46 <= |bytes| && U32(bytes, at) == CENTRAL_SIGNATURE && U16(bytes, at + 10) == 0
    && Cut(bytes, at + 46, U16(bytes, at + 28), e.name)
    && var local := U32(bytes, at + 42);
    && local + 30 <= |bytes|
    && Cut(bytes, local + 30 + U16(bytes, local + 26) + U16(bytes, local + 28), U32(bytes, at + 20), e.data)
  }

  /** The record at `at` cannot be read, and this is the reason given. */
  ghost predicate Breaks(bytes: seq<Byte>, at: nat, index: nat, error: ReadError) {
    match error
    case NotAZip => false
    case CorruptDirectory(i) => i == index && at + 4 <= |bytes| && U32(bytes, at) != CENTRAL_SIGNATURE
    case UnsupportedMethod(name, compression) =>
      && at + 46 <= |bytes| && U32(bytes, at) == CENTRAL_SIGNATURE
      && U16(bytes, at + 10) == compression && compression != 0
      && Cut(bytes, at + 46, U16(bytes, at + 28), name)
    case OutOfBounds =>
      || at + 4 > |bytes|
      || (U32(bytes, at) == CENTRAL_SIGNATURE && at + 46 > |bytes|)
      || (at + 46 <= |bytes| && U32(bytes, at) == CENTRAL_SIGNATURE && U16(bytes, at + 10) == 0
          && U32(bytes, at + 42) + 30 > |bytes|)
  }

  /** Records that lie one after the other, each behind the name, the extra field and the comment of the one before. */
  ghost predicate Chain(bytes: seq<Byte>, ats: seq<nat>, es: seq<Entry>) {
    && |ats| == |es| + 1
    && forall k :: 0 <= k < |es| ==>
         && Stores(bytes, ats[k], es[k])
         && ats[k + 1] == ats[k] + 46 + U16(bytes, ats[k] + 28) + U16(bytes, ats[k] + 30) + U16(bytes, ats[k] + 32)
  }

  /** A chain that is as long as announced, or that ends at the first record that cannot be read. */
  ghost predicate ChainAnswers(
    bytes: seq<Byte>, ats: seq<nat>, es: seq<Entry>, index: nat, count: nat, r: Result<seq<Entry>, ReadError>)
  {
    && Chain(bytes, ats, es)
    && match r
       case Ok(found) => es == found && index + |es| == count
       case Err(error) => index + |es| < count && Breaks(bytes, ats[|es|], index + |es|, error)
  }

  ghost predicate DirectoryAnswers(bytes: seq<Byte>, start: nat, count: nat, r: Result<seq<Entry>, ReadError>) {
    exists ats, es :: ChainAnswers(bytes, ats, es, 0, count, r) && ats[0] == start
  }

  /** What reading has to answer: the chain that starts where the last end record says. */
  ghost predicate Answers(bytes: seq<Byte>, r: Result<seq<Entry>, ReadError>) {
    || (IsEnd(bytes, None) && r == Err(NotAZip))
    || exists end: nat :: IsEnd(bytes, Some(end))
         && DirectoryAnswers(bytes, U32(bytes, end + 16), U16(bytes, end + 10), r)
  }

  lemma ClampedIsCut(bytes: seq<Byte>, from: nat, length: nat, piece: seq<Byte>)
    ensures Cut(bytes, from, length, piece) <==> piece == Clamped(bytes, from, from + length)
  {
    var clamped := Clamped(bytes, from, from + length);
    assert from <= |bytes| ==> forall i :: 0 <= i < |clamped| ==> clamped[i] == bytes[from + i];
    if Cut(bytes, from, length, piece) {
      if |piece| > 0 {
        var last := piece[|piece| - 1];
        assert from + (|piece| - 1) < |bytes|;
      }
      assert |piece| == |clamped|;
    }
  }

  /** One record is read exactly as its positions say. */
  lemma RecordIsRead(bytes: seq<Byte>, at: nat, index: nat)
    ensures forall e: Entry :: Stores(bytes, at, e) <==>
      ReadRecord(bytes, at, index).Ok? && ReadRecord(bytes, at, index).value.entry == e
    ensures forall error :: Breaks(bytes, at, index, error) <==> ReadRecord(bytes, at, index) == Err(error)
    ensures ReadRecord(bytes, at, index).Ok? ==>
      ReadRecord(bytes, at, index).value.next
      == at + 46 + U16(bytes, at + 28) + U16(bytes, at + 30) + U16(bytes, at + 32)
  {
    hide U16, U32, Cut, Clamped;
    if at + 46 <= |bytes| {
      var nameAt, nameLength, size, local := at + 46, U16(bytes, at + 28), U32(bytes, at + 20), U32(bytes, at + 42);
      forall name
        ensures Cut(bytes, nameAt, nameLength, name) <==> name == Clamped(bytes, nameAt, nameAt + nameLength)
      {
        ClampedIsCut(bytes, nameAt, nameLength, name);
      }
      if local + 30 <= |bytes| {
        var start := local + 30 + U16(bytes, local + 26) + U16(bytes, local + 28);
        forall data ensures Cut(bytes, start, size, data) <==> data == Clamped(bytes, start, start + size) {
          ClampedIsCut(bytes, start, size, data);
        }
      }
    }
  }

  lemma {:induction false} DirectoryIsRead(bytes: seq<Byte>, at: nat, index: nat, count: nat)
    returns (ats: seq<nat>, es: seq<Entry>)
    requires index <= count
    ensures ChainAnswers(bytes, ats, es, index, count, ReadFrom(bytes, at, index, count)) && ats[0] == at
    decreases count - index
  {
    hide U16, U32, Stores, Breaks, ReadRecord;
    ats, es := [at], [];
    if index < count {
      RecordIsRead(bytes, at, index);
      var step := ReadRecord(bytes, at, index);
      if step.Ok? {
        var restAts, rest := DirectoryIsRead(bytes, step.value.next, index + 1, count);
        ats, es := [at] + restAts, [step.value.entry] + rest;
      }
    }
  }

  lemma {:induction false} ChainDetermines(bytes: seq<Byte>, ats: seq<nat>, es: seq<Entry>, index: nat, count: nat,
                                           r: Result<seq<Entry>, ReadError>)
    requires index <= count && ChainAnswers(bytes, ats, es, index, count, r)
    ensures ReadFrom(bytes, ats[0], index, count) == r
    decreases |es|
  {
    hide U16, U32, Stores, Breaks, ReadRecord;
    if index < count {
      RecordIsRead(bytes, ats[0], index);
      if |es| > 0 {
        var rest := if r.Ok? then Ok(es[1..]) else r;
        ChainDetermines(bytes, ats[1..], es[1..], index + 1, count, rest);
        assert es == [es[0]] + es[1..];
      }
    }
  }

  lemma DirectoryIff(bytes: seq<Byte>, start: nat, count: nat, r: Result<seq<Entry>, ReadError>)
    ensures ReadFrom(bytes, start, 0, count) == r <==> DirectoryAnswers(bytes, start, count, r)
  {
    hide ReadFrom;
    var ats, es := DirectoryIsRead(bytes, start, 0, count);
    if DirectoryAnswers(bytes, start, count, r) {
      ats, es :| ChainAnswers(bytes, ats, es, 0, count, r) && ats[0] == start;
      ChainDetermines(bytes, ats, es, 0, count, r);
    }
  }

  /** Reading answers, for every byte string, what the positions in it say, and nothing else. */
  lemma ReadIff(bytes: seq<Byte>, r: Result<seq<Entry>, ReadError>)
    ensures Read(bytes) == r <==> Answers(bytes, r)
  {
    hide U16, U32, ReadFrom, DirectoryAnswers, EndAt, ScanFrom;
    ReadFindsLastEnd(bytes);
    var found := ScanFrom(bytes, |bytes| - END_SIZE);
    if found.Some? {
      EndIsInside(bytes, found.value);
      DirectoryIff(bytes, U32(bytes, found.value + 16), U16(bytes, found.value + 10), r);
    }
  }

  // ---- Reading undoes writing ----

  ghost predicate At(bytes: seq<Byte>, at: nat, piece: seq<Byte>) {
    at + |piece| <= |bytes| && bytes[at..at + |piece|] == piece
  }

  lemma AtInside(before: seq<Byte>, bytes: seq<Byte>, after: seq<Byte>, at: nat, piece: seq<Byte>)
    requires At(bytes, at, piece)
    ensures At(before + bytes + after, |before| + at, piece)
  {
    var all := before + bytes + after;
    assert all[|before|..|before| + |bytes|] == bytes;
    assert all[|before| + at..|before| + at + |piece|] == bytes[at..at + |piece|];
  }

  lemma AtPart(bytes: seq<Byte>, at: nat, piece: seq<Byte>, from: nat, part: seq<Byte>)
    requires At(bytes, at, piece) && At(piece, from, part)
    ensures At(bytes, at + from, part)
  {
    forall i | 0 <= i < |part| ensures bytes[at + from + i] == part[i] {
      assert part[i] == piece[from..from + |part|][i];
      assert piece[from + i] == bytes[at..at + |piece|][from + i];
    }
    assert bytes[at + from..at + from + |part|] == part;
  }

  lemma U16At(bytes: seq<Byte>, at: nat, n: nat)
    requires At(bytes, at, Le16(n))
    ensures U16(bytes, at) == n % TWO_16
  {
    hide Le16;
    U16OfLe16(n);
    assert bytes[at] == bytes[at..at + 2][0] && bytes[at + 1] == bytes[at..at + 2][1];
  }

  lemma U32At(bytes: seq<Byte>, at: nat, n: nat)
    requires At(bytes, at, Le32(n))
    ensures U32(bytes, at) == n % TWO_32
  {
    hide Le16;
    U32OfLe32(n);
    assert Le32(n)[..2] == Le16(n) && Le32(n)[2..] == Le16(n / TWO_16);
    assert bytes[at..at + 4][..2] == bytes[at..at + 2] && bytes[at..at + 4][2..] == bytes[at + 2..at + 4];
    U16At(bytes, at, n);
    U16At(bytes, at + 2, n / TWO_16);
    U16OfLe16(n);
    U16OfLe16(n / TWO_16);
    assert U16(Le32(n), 0) == U16(Le16(n), 0) && U16(Le32(n), 2) == U16(Le16(n / TWO_16), 0);
  }

  /** On disk the three signatures are the letters PK and two digits (APPNOTE sections 4.3.7, 4.3.12 and 4.3.16). */
  lemma SignaturesOnDisk()
    ensures Le32(LOCAL_SIGNATURE) == [0x50, 0x4b, 3, 4]
    ensures Le32(CENTRAL_SIGNATURE) == [0x50, 0x4b, 1, 2]
    ensures Le32(END_SIGNATURE) == [0x50, 0x4b, 5, 6]
  {}

  // ---- The fields of the two headers ----

  lemma CentralFields(e: Entry, offset: nat)
    ensures var h := CentralHeader(e, offset);
            && U32(h, 0) == CENTRAL_SIGNATURE && U16(h, 4) == U16(h, 6) == VERSION
            && U32(h, 8) == U32(h, 12) == U32(h, 34) == U32(h, 38) == 0
            && U16(h, 10) == U16(h, 30) == U16(h, 32) == 0
            && U32(h, 16) == Checksum(e.data) % TWO_32 && U32(h, 20) == |e.data| % TWO_32
            && U32(h, 24) == |e.data| % TWO_32
            && U16(h, 28) == |e.name| % TWO_16 && U32(h, 42) == offset % TWO_32
  {
    hide Le16, Le32, U16, U32, Checksum;
    var h := CentralHeader(e, offset);
    assert At(h, 0, Le32(CENTRAL_SIGNATURE));
    assert At(h, 4, Le16(VERSION)) && At(h, 6, Le16(VERSION));
    assert At(h, 16, Le32(Checksum(e.data)));
    assert At(h, 20, Le32(|e.data|));
    assert At(h, 24, Le32(|e.data|));
    assert At(h, 28, Le16(|e.name|));
    assert At(h, 42, Le32(offset));
    assert At(h, 8, Zeros(8)) && At(h, 30, Zeros(12));
    U32At(h, 0, CENTRAL_SIGNATURE);
    U16At(h, 4, VERSION);
    U16At(h, 6, VERSION);
    U32At(h, 16, Checksum(e.data));
    U32At(h, 20, |e.data|);
    U32At(h, 24, |e.data|);
    U16At(h, 28, |e.name|);
    U32At(h, 42, offset);
    NoWordIn(h, 8, 8, 0);
    NoWordIn(h, 8, 8, 4);
    NoWordIn(h, 30, 12, 0);
    NoWordIn(h, 30, 12, 4);
    NoWordIn(h, 30, 12, 8);
  }

  lemma NothingAt(bytes: seq<Byte>, at: nat)
    requires At(bytes, at, Zeros(2))
    ensures U16(bytes, at) == 0
  {
    assert bytes[at] == bytes[at..at + 2][0] && bytes[at + 1] == bytes[at..at + 2][1];
  }

  lemma LocalFields(e: Entry)
    ensures var h := LocalHeader(e);
            && U32(h, 0) == LOCAL_SIGNATURE && U16(h, 4) == VERSION && U16(h, 6) == U16(h, 8) == 0
            && U32(h, 10) == 0 && U16(h, 28) == 0
            && U32(h, 14) == Checksum(e.data) % TWO_32 && U32(h, 18) == |e.data| % TWO_32
            && U32(h, 22) == |e.data| % TWO_32 && U16(h, 26) == |e.name| % TWO_16
  {
    hide Le16, Le32, U16, U32, Checksum;
    var h := LocalHeader(e);
    assert At(h, 0, Le32(LOCAL_SIGNATURE));
    assert At(h, 4, Le16(VERSION));
    assert At(h, 6, Zeros(2));
    assert At(h, 8, Le16(0));
    assert At(h, 10, Zeros(4));
    assert At(h, 14, Le32(Checksum(e.data)));
    assert At(h, 18, Le32(|e.data|));
    assert At(h, 22, Le32(|e.data|));
    assert At(h, 26, Le16(|e.name|));
    assert h[28] == 0 && h[29] == 0;
    assert At(h, 28, Zeros(2));
    U32At(h, 0, LOCAL_SIGNATURE);
    U16At(h, 4, VERSION);
    NothingAt(h, 6);
    U16At(h, 8, 0);
    NoWordIn(h, 10, 4, 0);
    U32At(h, 14, Checksum(e.data));
    U32At(h, 18, |e.data|);
    U32At(h, 22, |e.data|);
    U16At(h, 26, |e.name|);
    NothingAt(h, 28);
  }

  lemma EndFields(count: nat, centralSize: nat, offset: nat)
    ensures var e := EndRecord(count, centralSize, offset);
            && U32(e, 0) == END_SIGNATURE && U32(e, 4) == 0 && U16(e, 8) == U16(e, 10) == count % TWO_16
            && U32(e, 12) == centralSize % TWO_32 && U32(e, 16) == offset % TWO_32 && U16(e, 20) == 0
  {
    hide Le16, Le32, U16, U32;
    var e := EndRecord(count, centralSize, offset);
    assert At(e, 0, Le32(END_SIGNATURE));
    assert At(e, 4, Zeros(4));
    assert At(e, 8, Le16(count));
    assert At(e, 10, Le16(count));
    assert At(e, 12, Le32(centralSize));
    assert At(e, 16, Le32(offset));
    assert e[20] == 0 && e[21] == 0;
    assert At(e, 20, Zeros(2));
    U32At(e, 0, END_SIGNATURE);
    U16At(e, 8, count);
    U16At(e, 10, count);
    U32At(e, 12, centralSize);
    U32At(e, 16, offset);
    NothingAt(e, 20);
    NoWordIn(e, 4, 4, 0);
  }

  lemma NoWordIn(bytes: seq<Byte>, at: nat, n: nat, from: nat)
    requires At(bytes, at, Zeros(n)) && from + 4 <= n
    ensures U32(bytes, at + from) == U16(bytes, at + from) == U16(bytes, at + from + 2) == 0
  {
    hide U16;
    AtPart(bytes, at, Zeros(n), from, Zeros(2));
    AtPart(bytes, at, Zeros(n), from + 2, Zeros(2));
    NothingAt(bytes, at + from);
    NothingAt(bytes, at + from + 2);
  }

  /** A field of a piece is the same field of the whole. */
  lemma FieldOf(bytes: seq<Byte>, at: nat, piece: seq<Byte>, i: nat)
    requires At(bytes, at, piece)
    ensures i + 2 <= |piece| ==> U16(bytes, at + i) == U16(piece, i)
    ensures i + 4 <= |piece| ==> U32(bytes, at + i) == U32(piece, i)
  {
    assert forall j :: 0 <= j < |piece| ==> piece[j] == bytes[at + j];
  }

  // ---- Where the records lie ----

  lemma {:induction false} LocalsGrow(es: seq<Entry>, k: nat)
    requires k < |es|
    ensures At(Locals(es), |Locals(es[..k])|, LocalRecord(es[k]))
    decreases |es|
  {
    hide LocalRecord;
    var n := |es| - 1;
    if k == n {
    } else {
      LocalsGrow(es[..n], k);
      assert es[..n][..k] == es[..k];
      AtInside([], Locals(es[..n]), LocalRecord(es[n]), |Locals(es[..k])|, LocalRecord(es[k]));
      assert [] + Locals(es[..n]) + LocalRecord(es[n]) == Locals(es);
    }
  }

  lemma {:induction false} CentralsGrow(es: seq<Entry>, k: nat)
    requires k < |es|
    ensures At(Centrals(es), |Centrals(es[..k])|, CentralRecord(es[k], |Locals(es[..k])|))
    ensures |Centrals(es[..k + 1])| == |Centrals(es[..k])| + CENTRAL_SIZE + |es[k].name|
    decreases |es|
  {
    hide CentralRecord, Locals;
    var n := |es| - 1;
    assert es[..k + 1][..k] == es[..k];
    if k == n {
      assert es[..k + 1] == es;
    } else {
      CentralsGrow(es[..n], k);
      assert es[..n][..k] == es[..k] && es[..n][..k + 1] == es[..k + 1];
      var last := CentralRecord(es[n], |Locals(es[..n])|);
      AtInside([], Centrals(es[..n]), last, |Centrals(es[..k])|, CentralRecord(es[k], |Locals(es[..k])|));
      assert [] + Centrals(es[..n]) + last == Centrals(es);
    }
  }

  /** The position of the central record of entry `k`. */
  function Position(es: seq<Entry>, k: nat): nat
    requires k <= |es|
  {
    |Locals(es)| + |Centrals(es[..k])|
  }

  lemma RecordsLie(es: seq<Entry>, trailer: seq<Byte>, k: nat)
    requires k < |es|
    ensures At(Zip(es) + trailer, |Locals(es[..k])|, LocalRecord(es[k]))
    ensures At(Zip(es) + trailer, Position(es, k), CentralRecord(es[k], |Locals(es[..k])|))
    ensures Position(es, k + 1) == Position(es, k) + CENTRAL_SIZE + |es[k].name|
  {
    hide LocalRecord, CentralRecord, EndRecord, Locals, Centrals;
    LocalsGrow(es, k);
    CentralsGrow(es, k);
    var end := EndRecord(|es|, |Centrals(es)|, |Locals(es)|);
    AtInside([], Locals(es), Centrals(es) + end + trailer, |Locals(es[..k])|, LocalRecord(es[k]));
    assert [] + Locals(es) + (Centrals(es) + end + trailer) == Zip(es) + trailer;
    AtInside(Locals(es), Centrals(es), end + trailer, |Centrals(es[..k])|, CentralRecord(es[k], |Locals(es[..k])|));
    assert Locals(es) + Centrals(es) + (end + trailer) == Zip(es) + trailer;
  }

  lemma {:induction false} PrefixIsShorter(es: seq<Entry>, k: nat)
    requires k < |es|
    ensures |Locals(es[..k])| + LOCAL_SIZE + |es[k].name| + |es[k].data| <= |Locals(es)|
  {
    LocalsGrow(es, k);
  }

  // ---- One record ----

  predicate NameFits(e: Entry) { |e.name| < TWO_16 }

  ghost predicate IsCentral(bytes: seq<Byte>, at: nat, e: Entry, offset: nat) {
    && at + CENTRAL_SIZE + |e.name| <= |bytes|
    && U32(bytes, at) == CENTRAL_SIGNATURE
    && U16(bytes, at + 4) == U16(bytes, at + 6) == VERSION
    && U16(bytes, at + 10) == 0
    && U32(bytes, at + 8) == U32(bytes, at + 12) == U32(bytes, at + 34) == U32(bytes, at + 38) == 0
    && U32(bytes, at + 16) == Checksum(e.data)
    && U32(bytes, at + 20) == U32(bytes, at + 24) == |e.data|
    && U16(bytes, at + 28) == |e.name|
    && U16(bytes, at + 30) == U16(bytes, at + 32) == 0
    && U32(bytes, at + 42) == offset
    && At(bytes, at + CENTRAL_SIZE, e.name)
  }

  ghost predicate IsLocal(bytes: seq<Byte>, at: nat, e: Entry) {
    && at + LOCAL_SIZE + |e.name| + |e.data| <= |bytes|
    && U32(bytes, at) == LOCAL_SIGNATURE
    && U16(bytes, at + 4) == VERSION
    && U16(bytes, at + 6) == U16(bytes, at + 8) == U32(bytes, at + 10) == 0
    && U32(bytes, at + 14) == Checksum(e.data)
    && U32(bytes, at + 18) == U32(bytes, at + 22) == |e.data|
    && U16(bytes, at + 26) == |e.name|
    && U16(bytes, at + 28) == 0
    && At(bytes, at + LOCAL_SIZE, e.name)
    && At(bytes, at + LOCAL_SIZE + |e.name|, e.data)
  }

  lemma ChecksumIsAWord(data: seq<Byte>)
    ensures Checksum(data) < TWO_32
  {}

  lemma CentralIsWritten(bytes: seq<Byte>, at: nat, e: Entry, offset: nat)
    requires At(bytes, at, CentralRecord(e, offset))
    requires NameFits(e) && |e.data| < TWO_32 && offset < TWO_32
    ensures IsCentral(bytes, at, e, offset)
  {
    hide U16, U32, CentralHeader, Checksum;
    var h := CentralHeader(e, offset);
    CentralFields(e, offset);
    ChecksumIsAWord(e.data);
    assert At(CentralRecord(e, offset), 0, h) && At(CentralRecord(e, offset), CENTRAL_SIZE, e.name);
    AtPart(bytes, at, CentralRecord(e, offset), 0, h);
    AtPart(bytes, at, CentralRecord(e, offset), CENTRAL_SIZE, e.name);
    hide At, CentralRecord;
    FieldOf(bytes, at, h, 0);
    FieldOf(bytes, at, h, 4);
    FieldOf(bytes, at, h, 6);
    FieldOf(bytes, at, h, 8);
    FieldOf(bytes, at, h, 10);
    FieldOf(bytes, at, h, 12);
    FieldOf(bytes, at, h, 16);
    FieldOf(bytes, at, h, 20);
    FieldOf(bytes, at, h, 24);
    FieldOf(bytes, at, h, 28);
    FieldOf(bytes, at, h, 30);
    FieldOf(bytes, at, h, 32);
    FieldOf(bytes, at, h, 34);
    FieldOf(bytes, at, h, 38);
    FieldOf(bytes, at, h, 42);
  }

  lemma LocalIsWritten(bytes: seq<Byte>, at: nat, e: Entry)
    requires At(bytes, at, LocalRecord(e))
    requires NameFits(e) && |e.data| < TWO_32
    ensures IsLocal(bytes, at, e)
  {
    hide U16, U32, LocalHeader, Checksum;
    var h := LocalHeader(e);
    LocalFields(e);
    ChecksumIsAWord(e.data);
    assert At(LocalRecord(e), 0, h) && At(LocalRecord(e), LOCAL_SIZE, e.name);
    assert At(LocalRecord(e), LOCAL_SIZE + |e.name|, e.data);
    AtPart(bytes, at, LocalRecord(e), 0, h);
    AtPart(bytes, at, LocalRecord(e), LOCAL_SIZE, e.name);
    AtPart(bytes, at, LocalRecord(e), LOCAL_SIZE + |e.name|, e.data);
    hide At, LocalRecord;
    FieldOf(bytes, at, h, 0);
    FieldOf(bytes, at, h, 4);
    FieldOf(bytes, at, h, 6);
    FieldOf(bytes, at, h, 8);
    FieldOf(bytes, at, h, 10);
    FieldOf(bytes, at, h, 14);
    FieldOf(bytes, at, h, 18);
    FieldOf(bytes, at, h, 22);
    FieldOf(bytes, at, h, 26);
    FieldOf(bytes, at, h, 28);
  }

  lemma RecordReadsBack(bytes: seq<Byte>, e: Entry, cursor: nat, offset: nat, index: nat)
    requires IsCentral(bytes, cursor, e, offset) && IsLocal(bytes, offset, e)
    ensures ReadRecord(bytes, cursor, index) == Ok(Step(e, cursor + CENTRAL_SIZE + |e.name|))
  {
    hide U16, U32, Checksum;
  }

  // ---- The whole archive ----

  /** The 16- and 32-bit fields can hold what is written to them. */
  predicate Fits(es: seq<Entry>) {
    && |es| < TWO_16
    && |Locals(es)| < TWO_32
    && forall k :: 0 <= k < |es| ==> NameFits(es[k])
  }

  /** Bytes appended to an archive that hold no end record of their own. */
  ghost predicate HarmlessTrailer(es: seq<Entry>, trailer: seq<Byte>) {
    && |trailer| <= MAX_COMMENT
    && forall j :: |Zip(es)| - END_SIZE < j ==> !EndAt(Zip(es) + trailer, j)
  }

  /** The offset of a central record points at a local header with the same name, checksum and size. */
  lemma EntryIsWritten(es: seq<Entry>, trailer: seq<Byte>, k: nat)
    requires Fits(es) && k < |es|
    ensures var z, at := Zip(es) + trailer, Position(es, k);
            && IsCentral(z, at, es[k], |Locals(es[..k])|)
            && IsLocal(z, |Locals(es[..k])|, es[k])
            && Position(es, k + 1) == at + CENTRAL_SIZE + |es[k].name|
  {
    hide Zip, Position, Locals, LocalRecord, CentralRecord, IsCentral, IsLocal, At;
    RecordsLie(es, trailer, k);
    PrefixIsShorter(es, k);
    CentralIsWritten(Zip(es) + trailer, Position(es, k), es[k], |Locals(es[..k])|);
    LocalIsWritten(Zip(es) + trailer, |Locals(es[..k])|, es[k]);
  }

  lemma {:induction false} RecordsReadBack(es: seq<Entry>, trailer: seq<Byte>, k: nat)
    requires Fits(es) && k <= |es|
    ensures ReadFrom(Zip(es) + trailer, Position(es, k), k, |es|) == Ok(es[k..])
    decreases |es| - k
  {
    hide Zip, ReadRecord, LocalRecord, CentralRecord, Position, Locals, Centrals, IsCentral, IsLocal, At;
    if k == |es| {
      assert es[k..] == [];
    } else {
      EntryIsWritten(es, trailer, k);
      RecordReadsBack(Zip(es) + trailer, es[k], Position(es, k), |Locals(es[..k])|, k);
      RecordsReadBack(es, trailer, k + 1);
      assert es[k..] == [es[k]] + es[k + 1..];
    }
  }

  /** The end record announces the entries, and the size and the start of the directory; it has no comment. */
  lemma EndLies(es: seq<Entry>, trailer: seq<Byte>)
    ensures var end := |Zip(es)| - END_SIZE;
            && EndAt(Zip(es) + trailer, end)
            && U16(Zip(es) + trailer, end + 8) == U16(Zip(es) + trailer, end + 10) == |es| % TWO_16
            && U32(Zip(es) + trailer, end + 4) == 0 && U16(Zip(es) + trailer, end + 20) == 0
            && U32(Zip(es) + trailer, end + 12) == |Centrals(es)| % TWO_32
            && U32(Zip(es) + trailer, end + 16) == |Locals(es)| % TWO_32
  {
    hide U16, U32, EndRecord, Locals, Centrals;
    var e := EndRecord(|es|, |Centrals(es)|, |Locals(es)|);
    var end := |Zip(es)| - END_SIZE;
    assert (Zip(es) + trailer)[end..end + END_SIZE] == e;
    EndFields(|es|, |Centrals(es)|, |Locals(es)|);
    FieldOf(Zip(es) + trailer, end, e, 0);
    FieldOf(Zip(es) + trailer, end, e, 4);
    FieldOf(Zip(es) + trailer, end, e, 8);
    FieldOf(Zip(es) + trailer, end, e, 10);
    FieldOf(Zip(es) + trailer, end, e, 12);
    FieldOf(Zip(es) + trailer, end, e, 16);
    FieldOf(Zip(es) + trailer, end, e, 20);
  }

  lemma {:induction false} ScanReaches(bytes: seq<Byte>, i: int, end: nat)
    requires EndAt(bytes, end) && ScanFloor(bytes) <= end <= i
    requires forall j :: end < j ==> !EndAt(bytes, j)
    ensures ScanFrom(bytes, i) == Some(end)
    decreases i
  {
    if end < i { ScanReaches(bytes, i - 1, end); }
  }

  lemma ReadOfZip(es: seq<Entry>, trailer: seq<Byte>)
    requires HarmlessTrailer(es, trailer)
    ensures Read(Zip(es) + trailer) == ReadFrom(Zip(es) + trailer, |Locals(es)| % TWO_32, 0, |es| % TWO_16)
  {
    hide EndAt, ReadFrom, U16, U32, Locals, Centrals, EndRecord;
    var bytes, end := Zip(es) + trailer, |Zip(es)| - END_SIZE;
    EndLies(es, trailer);
    assert bytes[..|Zip(es)|] == Zip(es) && |bytes| == |Zip(es)| + |trailer|;
    hide Zip;
    ScanReaches(bytes, |bytes| - END_SIZE, end);
    EndIsInside(bytes, end);
  }

  lemma EndIsInside(bytes: seq<Byte>, end: nat)
    requires EndAt(bytes, end)
    ensures end + END_SIZE <= |bytes|
  {}

  lemma StartOfDirectory(es: seq<Entry>)
    ensures Position(es, 0) == |Locals(es)|
  {
    hide Locals;
    assert es[..0] == [];
  }

  lemma FieldsHold(es: seq<Entry>)
    requires Fits(es)
    ensures |Locals(es)| % TWO_32 == |Locals(es)| && |es| % TWO_16 == |es|
  {
    hide Locals, NameFits;
  }

  /** Reading undoes writing, even under a trailing comment. */
  lemma RoundTrip(es: seq<Entry>, trailer: seq<Byte>)
    requires Fits(es) && HarmlessTrailer(es, trailer)
    ensures Read(Zip(es) + trailer) == Ok(es)
  {
    hide Zip, ReadFrom, Locals, HarmlessTrailer, Read, Position, Fits;
    assert es[..0] == [] && es[0..] == es;
    StartOfDirectory(es);
    FieldsHold(es);
    RecordsReadBack(es, trailer, 0);
    ReadOfZip(es, trailer);
  }

  lemma BareArchive(es: seq<Entry>)
    ensures HarmlessTrailer(es, []) && Zip(es) + [] == Zip(es)
  {
    hide Zip;
    assert Zip(es) + [] == Zip(es);
  }

  lemma {:induction false} RecordsAreInLimits(bytes: seq<Byte>, cursor: nat, index: nat, count: nat)
    requires index <= count
    ensures var r := ReadFrom(bytes, cursor, index, count);
            r.Ok? ==> |r.value| == count - index && forall k :: 0 <= k < |r.value| ==> NameFits(r.value[k])
    decreases count - index
  {
    hide U16, U32;
    if index < count {
      var step := ReadRecord(bytes, cursor, index);
      if step.Ok? {
        RecordsAreInLimits(bytes, step.value.next, index + 1, count);
        NameIsShort(bytes, cursor, index);
      }
    }
  }

  lemma NameIsShort(bytes: seq<Byte>, cursor: nat, index: nat)
    ensures var r := ReadRecord(bytes, cursor, index);
            r.Ok? ==> NameFits(r.value.entry)
  {}

  /** Below 4 GiB of local records, exactly the archives that fit the 16-bit fields read back. */
  lemma RoundTripIff(es: seq<Entry>)
    requires |Locals(es)| < TWO_32
    ensures Read(Zip(es)) == Ok(es) <==> |es| < TWO_16 && forall k :: 0 <= k < |es| ==> NameFits(es[k])
  {
    hide Zip, ReadFrom, Locals, HarmlessTrailer, Read, NameFits;
    BareArchive(es);
    if Read(Zip(es)) == Ok(es) {
      ReadOfZip(es, []);
      RecordsAreInLimits(Zip(es), |Locals(es)| % TWO_32, 0, |es| % TWO_16);
    } else if |es| < TWO_16 && forall k :: 0 <= k < |es| ==> NameFits(es[k]) {
      RoundTrip(es, []);
    }
  }

  lemma WriteIsInjective(a: seq<Entry>, b: seq<Entry>)
    requires Fits(a) && Fits(b) && Zip(a) == Zip(b)
    ensures a == b
  {
    hide Zip, Read, Fits, HarmlessTrailer;
    BareArchive(a);
    BareArchive(b);
    RoundTrip(a, []);
    RoundTrip(b, []);
  }
}
