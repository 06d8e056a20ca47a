/**
 * The CRC-32 of the plugin archive (packages/app-runtime/src/plugin-archive.ts:41-56): a table-driven
 * loop, and the division of the message, bit by bit, that it stands for (APPNOTE section 4.4.7).
 */
module Crc32 {

  type Byte = b: int | 0 <= b < 256

  /** The generator polynomial, least significant bit first. */
  const POLYNOMIAL: bv32 := 0xedb88320
  const ALL_ONES: bv32 := 0xffffffff

  // The three word operations, named so that the proofs above the word level can hide them.

  predicate Odd(c: bv32) { c & 1 == 1 }

  function Half(c: bv32): bv32 { c >> 1 }

  function Xor(x: bv32, y: bv32): bv32 { x ^ y }

  // ---- The reference: one message bit at a time ----

  /** The register after one more message bit. */
  function Feed(register: bv32, bit: bool): bv32 {
    if Odd(register) != bit then Xor(POLYNOMIAL, Half(register)) else Half(register)
  }

  function Divide(register: bv32, bits: seq<bool>): bv32 {
    if bits == [] then register
    else Feed(Divide(register, bits[..|bits| - 1]), bits[|bits| - 1])
  }

  /** The bits of a byte in the order they enter the register. */
  function BitsOf(b: Byte): (bits: seq<bool>)
    ensures |bits| == 8
  {
    var b1 := b / 2;
    var b2 := b1 / 2;
    var b3 := b2 / 2;
    var b4 := b3 / 2;
    var b5 := b4 / 2;
    var b6 := b5 / 2;
    [b % 2 == 1, b1 % 2 == 1, b2 % 2 == 1, b3 % 2 == 1, b4 % 2 == 1, b5 % 2 == 1, b6 % 2 == 1, b6 / 2 == 1]
  }

  /** A byte widened to a word. */
  function Word(b: Byte): bv32 {
    WordOf(BitsOf(b))
  }

  function WordOf(bits: seq<bool>): bv32
    requires |bits| == 8
  {
    (if bits[0] then 1 else 0) | (if bits[1] then 2 else 0) | (if bits[2] then 4 else 0) | (if bits[3] then 8 else 0)
    | (if bits[4] then 16 else 0) | (if bits[5] then 32 else 0) | (if bits[6] then 64 else 0)
    | (if bits[7] then 128 else 0)
  }

  function Bits(data: seq<Byte>): (bits: seq<bool>)
    ensures |bits| == 8 * |data|
  {
    if data == [] then [] else Bits(data[..|data| - 1]) + BitsOf(data[|data| - 1])
  }

  function Checksum(data: seq<Byte>): bv32 {
    Xor(Divide(ALL_ONES, Bits(data)), ALL_ONES)
  }

  lemma {:induction false} DivideConcat(register: bv32, head: seq<bool>, tail: seq<bool>)
    ensures Divide(register, head + tail) == Divide(Divide(register, head), tail)
    decreases |tail|
  {
    hide Feed;
    if tail == [] {
      assert head + tail == head;
    } else {
      var rest := tail[..|tail| - 1];
      assert (head + tail)[..|head + tail| - 1] == head + rest;
      DivideConcat(register, head, rest);
    }
  }

  // ---- Division is linear over exclusive or ----

  lemma OddOfXor(x: bv32, y: bv32)
    ensures Odd(Xor(x, y)) == (Odd(x) != Odd(y))
  {
    assert x & 1 == 0 || x & 1 == 1;
    assert (x ^ y) & 1 == (x & 1) ^ (y & 1);
  }

  lemma HalfOfXor(x: bv32, y: bv32)
    ensures Half(Xor(x, y)) == Xor(Half(x), Half(y))
  {}

  lemma XorCancels(p: bv32, x: bv32, y: bv32)
    ensures Xor(Xor(p, x), Xor(p, y)) == Xor(x, y)
  {
    assert (p ^ x) ^ (p ^ y) == x ^ y;
  }

  lemma XorMoves(p: bv32, x: bv32, y: bv32)
    ensures Xor(Xor(p, x), y) == Xor(p, Xor(x, y))
  {}

  lemma XorSwaps(p: bv32, x: bv32, y: bv32)
    ensures Xor(x, Xor(p, y)) == Xor(p, Xor(x, y))
  {}

  lemma FeedIsLinear(x: bv32, xBit: bool, y: bv32, yBit: bool)
    ensures Feed(Xor(x, y), xBit != yBit) == Xor(Feed(x, xBit), Feed(y, yBit))
  {
    hide Odd, Half, Xor;
    OddOfXor(x, y);
    HalfOfXor(x, y);
    XorCancels(POLYNOMIAL, Half(x), Half(y));
    XorMoves(POLYNOMIAL, Half(x), Half(y));
    XorSwaps(POLYNOMIAL, Half(x), Half(y));
  }

  function Differences(a: seq<bool>, b: seq<bool>): (d: seq<bool>)
    requires |a| == |b|
  {
    seq(|a|, i requires 0 <= i < |a| => a[i] != b[i])
  }

  lemma {:induction false} DivideIsLinear(x: bv32, a: seq<bool>, y: bv32, b: seq<bool>)
    requires |a| == |b|
    ensures Divide(Xor(x, y), Differences(a, b)) == Xor(Divide(x, a), Divide(y, b))
    decreases |a|
  {
    hide Feed, Xor;
    if a != [] {
      var n := |a| - 1;
      DivideIsLinear(x, a[..n], y, b[..n]);
      assert Differences(a, b)[..n] == Differences(a[..n], b[..n]);
      FeedIsLinear(Divide(x, a[..n]), a[n], Divide(y, b[..n]), b[n]);
    }
  }

  // ---- Bursts ----

  /** A bound under the difference of two registers, `age` bits after they first differ. */
  function Floor(age: nat): bv32
    requires age > 0
  {
    if age == 1 then 0x80000000 else Half(Floor(age - 1))
  }

  predicate AtLeast(x: bv32, y: bv32) { x >= y }

  lemma HalvesAreOrdered(x: bv32, y: bv32)
    requires AtLeast(x, y)
    ensures AtLeast(Half(x), Half(y))
  {
    RawHalvesAreOrdered(x, y);
  }

  lemma RawHalvesAreOrdered(x: bv32, y: bv32)
    requires x >= y
    ensures x >> 1 >= y >> 1
  {}

  lemma HalfIsBelow(x: bv32, y: bv32)
    requires AtLeast(x, y)
    ensures AtLeast(x, Half(y))
  {
    assert x >= y >> 1;
  }

  lemma {:induction false} FloorFalls(age: nat, steps: nat)
    requires age > 0
    ensures AtLeast(Floor(age), Floor(age + steps))
  {
    if steps > 0 {
      FloorFalls(age, steps - 1);
      hide AtLeast, Half;
      HalfIsBelow(Floor(age), Floor(age + steps - 1));
    }
  }

  lemma FloorFallsBy4(age: nat)
    requires age > 0
    ensures Floor(age + 4) == Half(Half(Half(Half(Floor(age)))))
  {
    hide Half;
    assert Floor(age + 2) == Half(Half(Floor(age)));
  }

  lemma FloorIsPositive(age: nat)
    requires 0 < age <= 32
    ensures Floor(age) != 0
  {
    FloorFallsBy4(1);
    assert Floor(5) == 0x8000000;
    FloorFallsBy4(5);
    assert Floor(9) == 0x800000;
    FloorFallsBy4(9);
    assert Floor(13) == 0x80000;
    FloorFallsBy4(13);
    assert Floor(17) == 0x8000;
    FloorFallsBy4(17);
    assert Floor(21) == 0x800;
    FloorFallsBy4(21);
    assert Floor(25) == 0x80;
    FloorFallsBy4(25);
    assert Floor(29) == 8;
    assert Floor(31) == 2;
    FloorFalls(age, 32 - age);
    AboveZero(Floor(age), Floor(32));
  }

  lemma PolynomialSetsTheTopBit(d: bv32)
    ensures Xor(POLYNOMIAL, Half(d)) >= 0x80000000
  {}

  lemma FeedKeepsFloor(d: bv32, bit: bool, floor: bv32)
    requires AtLeast(d, floor)
    ensures AtLeast(Feed(d, bit), Half(floor))
  {
    PolynomialSetsTheTopBit(d);
    assert 0x80000000 >= floor >> 1;
    HalvesAreOrdered(d, floor);
  }

  lemma FeedKeepsDifference(d: bv32)
    requires d != 0
    ensures Feed(d, false) != 0
  {
    PolynomialSetsTheTopBit(d);
  }

  lemma FeedOfNoDifference()
    ensures Feed(0, true) == POLYNOMIAL && Feed(0, false) == 0
  {}

  lemma XorTellsApart(x: bv32, y: bv32)
    ensures Xor(x, y) == 0 <==> x == y
  {}

  /** The two messages differ at `first`, and nowhere before it or from `first + 32` on. */
  ghost predicate BurstAt(a: seq<bool>, b: seq<bool>, first: nat) {
    && |a| == |b| && first < |a|
    && a[first] != b[first]
    && (forall i :: 0 <= i < |a| && (i < first || first + 32 <= i) ==> a[i] == b[i])
  }

  /** What the difference of the two registers is known to be after `k` bits. */
  predicate DifferenceAfter(k: nat, first: nat, d: bv32) {
    if k <= first then d == 0
    else d != 0 && (k <= first + 32 ==> AtLeast(d, Floor(k - first)))
  }

  lemma DifferenceStep(k: nat, first: nat, d: bv32, differ: bool)
    requires DifferenceAfter(k, first, d)
    requires k < first ==> !differ
    requires k == first ==> differ
    requires first + 32 <= k ==> !differ
    ensures DifferenceAfter(k + 1, first, Feed(d, differ))
  {
    hide Feed, Half, AtLeast;
    FeedOfNoDifference();
    if k == first {
      assert Floor(1) == 0x80000000;
      assert AtLeast(POLYNOMIAL, 0x80000000) by { TopBit(); }
    } else if first < k < first + 32 {
      FeedKeepsFloor(d, differ, Floor(k - first));
      FloorIsPositive(k + 1 - first);
      AboveZero(Feed(d, differ), Floor(k + 1 - first));
    } else if first + 32 <= k {
      FeedKeepsDifference(d);
    }
  }

  lemma TopBit()
    ensures AtLeast(POLYNOMIAL, 0x80000000)
  {}

  lemma AboveZero(x: bv32, y: bv32)
    requires AtLeast(x, y) && y != 0
    ensures x != 0
  {}

  lemma {:induction false} DifferenceOfBurst(r: bv32, a: seq<bool>, b: seq<bool>, first: nat, k: nat)
    requires BurstAt(a, b, first) && k <= |a|
    ensures DifferenceAfter(k, first, Xor(Divide(r, a[..k]), Divide(r, b[..k])))
    decreases k
  {
    hide Feed, Xor;
    if k == 0 {
      XorTellsApart(r, r);
    } else {
      hide DifferenceAfter;
      var i := k - 1;
      DifferenceOfBurst(r, a, b, first, i);
      assert a[..k][..i] == a[..i] && b[..k][..i] == b[..i];
      var d := Xor(Divide(r, a[..i]), Divide(r, b[..i]));
      FeedIsLinear(Divide(r, a[..i]), a[i], Divide(r, b[..i]), b[i]);
      DifferenceStep(i, first, d, a[i] != b[i]);
    }
  }

  /** Every burst of at most 32 bits changes what is left of the division. */
  lemma BurstChangesRemainder(r: bv32, a: seq<bool>, b: seq<bool>, first: nat)
    requires BurstAt(a, b, first)
    ensures Divide(r, a) != Divide(r, b)
  {
    hide Xor, Divide, Floor, AtLeast;
    DifferenceOfBurst(r, a, b, first, |a|);
    assert a[..|a|] == a && b[..|b|] == b;
    XorTellsApart(Divide(r, a), Divide(r, b));
  }

  lemma {:induction false} BitAt(data: seq<Byte>, i: nat, j: nat)
    requires i < |data| && j < 8
    ensures Bits(data)[8 * i + j] == BitsOf(data[i])[j]
    decreases |data|
  {
    hide BitsOf;
    if i < |data| - 1 { BitAt(data[..|data| - 1], i, j); }
  }

  lemma HalfAndDigit(a: nat, b: nat)
    requires a / 2 == b / 2 && (a % 2 == 1) == (b % 2 == 1)
    ensures a == b
  {}

  lemma BitsTellBytesApart(a: Byte, b: Byte)
    requires BitsOf(a) == BitsOf(b)
    ensures a == b
  {
    var x, y := BitsOf(a), BitsOf(b);
    assert x[0] == y[0] && x[1] == y[1] && x[2] == y[2] && x[3] == y[3];
    assert x[4] == y[4] && x[5] == y[5] && x[6] == y[6] && x[7] == y[7];
    var a1, b1 := a / 2, b / 2;
    var a2, b2 := a1 / 2, b1 / 2;
    var a3, b3 := a2 / 2, b2 / 2;
    var a4, b4 := a3 / 2, b3 / 2;
    var a5, b5 := a4 / 2, b4 / 2;
    HalfAndDigit(a5 / 2, b5 / 2);
    HalfAndDigit(a5, b5);
    HalfAndDigit(a4, b4);
    HalfAndDigit(a3, b3);
    HalfAndDigit(a2, b2);
    HalfAndDigit(a1, b1);
    HalfAndDigit(a, b);
  }

  /** The least index at which two different messages of one length differ. */
  lemma FirstDifference(a: seq<bool>, b: seq<bool>, at: nat) returns (first: nat)
    requires |a| == |b| && at < |a| && a[at] != b[at]
    ensures first <= at && a[first] != b[first]
    ensures forall i :: 0 <= i < first ==> a[i] == b[i]
  {
    first := 0;
    while a[first] == b[first]
      invariant first <= at && forall i :: 0 <= i < first ==> a[i] == b[i]
      decreases at - first
    {
      first := first + 1;
    }
  }

  /** Two inputs of one length that differ only inside four consecutive bytes have different checksums. */
  lemma ChecksumDetectsBurst(a: seq<Byte>, b: seq<Byte>, start: nat)
    requires |a| == |b| && a != b
    requires forall i :: 0 <= i < |a| && (i < start || start + 4 <= i) ==> a[i] == b[i]
    ensures Checksum(a) != Checksum(b)
  {
    hide BitsOf, Bits, Divide, Xor;
    var byte :| 0 <= byte < |a| && a[byte] != b[byte];
    if BitsOf(a[byte]) == BitsOf(b[byte]) { BitsTellBytesApart(a[byte], b[byte]); }
    var bit :| 0 <= bit < 8 && BitsOf(a[byte])[bit] != BitsOf(b[byte])[bit];
    BitAt(a, byte, bit);
    BitAt(b, byte, bit);
    var first := FirstDifference(Bits(a), Bits(b), 8 * byte + bit);
    forall i | 0 <= i < |Bits(a)| && (i < 8 * start || 8 * start + 32 <= i) ensures Bits(a)[i] == Bits(b)[i] {
      assert i == 8 * (i / 8) + i % 8;
      BitAt(a, i / 8, i % 8);
      BitAt(b, i / 8, i % 8);
    }
    assert BurstAt(Bits(a), Bits(b), first);
    BurstChangesRemainder(ALL_ONES, Bits(a), Bits(b), first);
    XorUndone(Divide(ALL_ONES, Bits(a)), Divide(ALL_ONES, Bits(b)), ALL_ONES);
  }

  lemma XorUndone(x: bv32, y: bv32, mask: bv32)
    ensures Xor(x, mask) == Xor(y, mask) ==> x == y
  {}

  // ---- The table ----

  const NO_BITS: seq<bool> := [false, false, false, false, false, false, false, false]

  /** What eight empty message bits make of a byte. */
  function TableEntry(n: bv32): bv32 {
    Divide(n, NO_BITS)
  }

  ghost predicate IsTable(table: seq<bv32>) {
    |table| == 256 && forall n :: 0 <= n < 256 ==> table[n] == TableEntry(n as bv32)
  }

  /** The loop's own words for one empty bit. */
  lemma FeedNothing(c: bv32)
    ensures Feed(c, false) == if c & 1 == 1 then POLYNOMIAL ^ (c >> 1) else c >> 1
  {}

  /** The table, filled in nested loops. */
  method BuildTable() returns (table: array<bv32>)
    ensures fresh(table) && IsTable(table[..])
  {
    hide Feed;
    table := new bv32[256];
    var n := 0;
    while n < 256
      invariant 0 <= n <= 256
      invariant forall m :: 0 <= m < n ==> table[m] == TableEntry(m as bv32)
    {
      var c := n as bv32;
      var bit := 0;
      while bit < 8
        invariant 0 <= bit <= 8
        invariant c == Divide(n as bv32, NO_BITS[..bit])
        invariant forall m :: 0 <= m < n ==> table[m] == TableEntry(m as bv32)
      {
        assert NO_BITS[..bit + 1][..bit] == NO_BITS[..bit];
        FeedNothing(c);
        c := if c & 1 == 1 then POLYNOMIAL ^ (c >> 1) else c >> 1;
        bit := bit + 1;
      }
      assert NO_BITS[..8] == NO_BITS;
      table[n] := c;
      n := n + 1;
    }
  }

  // ---- One table look-up is eight steps of the division ----

  function Halves(x: bv32, n: nat): bv32 {
    if n == 0 then x else Half(Halves(x, n - 1))
  }

  /** While the message repeats the register's own low bits, division only shifts. */
  lemma {:induction false} RegisterShiftsOut(x: bv32, bits: seq<bool>, n: nat)
    requires n <= |bits| && forall k :: 0 <= k < n ==> Odd(Halves(x, k)) == bits[k]
    ensures Divide(x, bits[..n]) == Halves(x, n)
  {
    if n > 0 {
      RegisterShiftsOut(x, bits, n - 1);
      assert bits[..n][..n - 1] == bits[..n - 1];
      hide Half, Odd, Xor;
      assert Odd(Halves(x, n - 1)) == bits[n - 1];
    }
  }

  lemma ShiftsAdd(x: bv32)
    ensures Half(x >> 1) == x >> 2 && Half(x >> 2) == x >> 3 && Half(x >> 3) == x >> 4 && Half(x >> 4) == x >> 5
    ensures Half(x >> 5) == x >> 6 && Half(x >> 6) == x >> 7 && Half(x >> 7) == x >> 8
  {}

  lemma EightHalves(x: bv32)
    ensures Halves(x, 0) == x && Halves(x, 1) == x >> 1 && Halves(x, 2) == x >> 2 && Halves(x, 3) == x >> 3
    ensures Halves(x, 4) == x >> 4 && Halves(x, 5) == x >> 5 && Halves(x, 6) == x >> 6 && Halves(x, 7) == x >> 7
    ensures Halves(x, 8) == x >> 8
  {
    assert Halves(x, 1) == x >> 1;
    hide Half;
    ShiftsAdd(x);
    assert Halves(x, 2) == x >> 2;
    assert Halves(x, 3) == x >> 3;
    assert Halves(x, 4) == x >> 4;
    assert Halves(x, 5) == x >> 5;
    assert Halves(x, 6) == x >> 6;
    assert Halves(x, 7) == x >> 7;
  }

  function Low(x: bv32): bv32 { x & 0xff }

  function High(x: bv32): bv32 { x & 0xffffff00 }

  lemma HalvesOfHigh(x: bv32, k: nat)
    requires k < 8
    ensures !Odd(Halves(High(x), k))
  {
    hide Halves;
    EightHalves(High(x));
  }

  lemma LowBitsOfWord(bits: seq<bool>)
    requires |bits| == 8
    ensures var w := WordOf(bits);
            Odd(w) == bits[0] && Odd(Half(w)) == bits[1] && Odd(Half(Half(w))) == bits[2]
            && Odd(Half(Half(Half(w)))) == bits[3]
  {}

  /** Four halvings move the upper half of a byte to the lower. */
  lemma WordMovesDown(bits: seq<bool>)
    requires |bits| == 8
    ensures Half(Half(Half(Half(WordOf(bits))))) == WordOf(bits[4..] + [false, false, false, false])
  {}

  lemma {:induction false} HalvesAdd(x: bv32, m: nat, n: nat)
    ensures Halves(x, m + n) == Halves(Halves(x, m), n)
  {
    hide Half;
    if n > 0 { HalvesAdd(x, m, n - 1); }
  }

  lemma FourHalves(x: bv32)
    ensures Halves(x, 0) == x && Halves(x, 1) == Half(x) && Halves(x, 2) == Half(Half(x))
    ensures Halves(x, 3) == Half(Half(Half(x))) && Halves(x, 4) == Half(Half(Half(Half(x))))
  {
    hide Half;
    assert Halves(x, 1) == Half(x);
    assert Halves(x, 2) == Half(Half(x));
  }

  lemma HalfOfWord(bits: seq<bool>, k: nat)
    requires |bits| == 8 && k < 8
    ensures Odd(Halves(WordOf(bits), k)) == bits[k]
  {
    hide Halves, WordOf, Odd, Half;
    var w := WordOf(bits);
    FourHalves(w);
    if k < 4 {
      LowBitsOfWord(bits);
    } else {
      var upper := bits[4..] + [false, false, false, false];
      WordMovesDown(bits);
      HalvesAdd(w, 4, k - 4);
      FourHalves(WordOf(upper));
      LowBitsOfWord(upper);
    }
  }

  lemma WordHasNoHighPart(bits: seq<bool>)
    requires |bits| == 8
    ensures WordOf(bits) & 0xff == WordOf(bits)
  {}

  lemma HighShiftsOut(x: bv32)
    ensures Divide(High(x), NO_BITS) == x >> 8
  {
    hide High, Divide, Halves, Odd;
    forall k | 0 <= k < 8 ensures Odd(Halves(High(x), k)) == NO_BITS[k] { HalvesOfHigh(x, k); }
    RegisterShiftsOut(High(x), NO_BITS, 8);
    assert NO_BITS[..8] == NO_BITS;
    EightHalves(High(x));
    HighKeepsTheRest(x);
  }

  lemma HighKeepsTheRest(x: bv32)
    ensures High(x) >> 8 == x >> 8
  {}

  lemma ByteShiftsOut(b: Byte)
    ensures Divide(Word(b), BitsOf(b)) == 0
  {
    hide BitsOf, Divide, Halves, Odd, WordOf;
    forall k | 0 <= k < 8 ensures Odd(Halves(Word(b), k)) == BitsOf(b)[k] { HalfOfWord(BitsOf(b), k); }
    RegisterShiftsOut(Word(b), BitsOf(b), 8);
    assert BitsOf(b)[..8] == BitsOf(b);
    EightHalves(Word(b));
    WordHasNoHighPart(BitsOf(b));
    LowShiftsOut(Word(b));
  }

  lemma LowShiftsOut(x: bv32)
    requires x & 0xff == x
    ensures x >> 8 == 0
  {}

  lemma XorNothing(x: bv32)
    ensures Xor(x, 0) == x && Xor(Low(x), High(x)) == x
  {}

  lemma XorHasNoHighPart(register: bv32, low: bv32)
    requires low & 0xff == low
    ensures Xor(register, low) >> 8 == register >> 8
  {}

  lemma LookUp(register: bv32, b: Byte)
    ensures Divide(register, BitsOf(b)) == Xor(TableEntry(Low(Xor(register, Word(b)))), register >> 8)
  {
    hide Divide, BitsOf, Xor, Low, High, Word;
    var x := Xor(register, Word(b));
    DivideIsLinear(register, BitsOf(b), Word(b), BitsOf(b));
    assert Differences(BitsOf(b), BitsOf(b)) == NO_BITS;
    ByteShiftsOut(b);
    XorNothing(Divide(register, BitsOf(b)));
    DivideIsLinear(Low(x), NO_BITS, High(x), NO_BITS);
    assert Differences(NO_BITS, NO_BITS) == NO_BITS;
    XorNothing(x);
    HighShiftsOut(x);
    WordIsLow(b);
    XorHasNoHighPart(register, Word(b));
  }

  lemma WordIsLow(b: Byte)
    ensures Word(b) & 0xff == Word(b)
  {
    hide WordOf;
    WordHasNoHighPart(BitsOf(b));
  }

  lemma WordIsItsNumber(x: bv32)
    ensures (Low(x) as int) < 256 && (Low(x) as int) as bv32 == Low(x)
  {}

  lemma ChecksumStep(data: seq<Byte>, index: nat)
    requires index < |data|
    ensures Divide(ALL_ONES, Bits(data[..index + 1]))
         == Divide(Divide(ALL_ONES, Bits(data[..index])), BitsOf(data[index]))
  {
    hide Divide, BitsOf;
    assert data[..index + 1][..index] == data[..index];
    DivideConcat(ALL_ONES, Bits(data[..index]), BitsOf(data[index]));
  }

  lemma TableAt(table: seq<bv32>, x: bv32)
    requires IsTable(table)
    ensures |table| == 256
    ensures (Low(x) as int) < 256 && table[Low(x) as int] == TableEntry(Low(x))
  {
    hide TableEntry;
    WordIsItsNumber(x);
  }

  method Crc32(table: array<bv32>, data: seq<Byte>) returns (crc: bv32)
    requires IsTable(table[..])
    ensures crc == Checksum(data)
  {
    hide BitsOf, IsTable, Bits;
    crc := ALL_ONES;
    var index := 0;
    assert Bits(data[..0]) == [] by { NoBits(); }
    while index < |data|
      invariant 0 <= index <= |data|
      invariant crc == Divide(ALL_ONES, Bits(data[..index]))
    {
      hide Divide, Xor, Low, TableEntry;
      ChecksumStep(data, index);
      LookUp(crc, data[index]);
      TableAt(table[..], Xor(crc, Word(data[index])));
      crc := Xor(table[Low(Xor(crc, Word(data[index]))) as int], crc >> 8);
      index := index + 1;
    }
    assert data[..|data|] == data;
    crc := Xor(crc, ALL_ONES);
  }

  lemma NoBits()
    ensures Bits([]) == []
  {}

  // ---- A known checksum ----

  lemma DivideBit(bits: seq<bool>, k: nat, before: bv32, after: bv32)
    requires k < |bits| && Divide(ALL_ONES, bits[..k]) == before && Feed(before, bits[k]) == after
    ensures Divide(ALL_ONES, bits[..k + 1]) == after
  {
    hide Feed;
    assert bits[..k + 1][..k] == bits[..k];
  }

  const LETTER_A: seq<bool> := [true, false, false, false, false, true, true, false]

  /** The letter a has the checksum that every implementation of CRC-32 gives it. */
  lemma KnownChecksum()
    ensures Checksum([0x61]) == 0xe8b7be43
  {
    hide Divide, Bits;
    assert LETTER_A[..0] == [] && LETTER_A[..8] == LETTER_A;
    DivideNothing();
    DivideBit(LETTER_A, 0, 0xffffffff, 0x7fffffff);
    DivideBit(LETTER_A, 1, 0x7fffffff, 0xd2477cdf);
    DivideBit(LETTER_A, 2, 0xd2477cdf, 0x849b3d4f);
    DivideBit(LETTER_A, 3, 0x849b3d4f, 0xaff51d87);
    DivideBit(LETTER_A, 4, 0xaff51d87, 0xba420de3);
    DivideBit(LETTER_A, 5, 0xba420de3, 0x5d2106f1);
    DivideBit(LETTER_A, 6, 0x5d2106f1, 0x2e908378);
    DivideBit(LETTER_A, 7, 0x2e908378, 0x174841bc);
    LetterBits();
  }

  lemma DivideNothing()
    ensures Divide(ALL_ONES, []) == ALL_ONES
  {}

  lemma LetterBits()
    ensures Bits([0x61]) == LETTER_A
  {
    NoBits();
    assert [0x61][..0] == [];
    assert BitsOf(0x61) == LETTER_A;
  }
}
