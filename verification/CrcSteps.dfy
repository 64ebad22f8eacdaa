/** Why the table lookups compute the bit-serial remainder. */
module CrcSteps {
  import opened CrcTables

  /** The polynomial of section 8 of RFC 1952, reflected. */
  const POLYNOMIAL: bv32 := 0xEDB88320

  /** One step of the division: the lowest bit goes, and the polynomial with it. */
  function Step(c: bv32): bv32 {
    if c & 1 != 0 then (c >> 1) ^ POLYNOMIAL else c >> 1
  }

  function Iter<T>(f: T -> T, c: T, n: nat): T
    decreases n
  {
    if n == 0 then c else Iter(f, f(c), n - 1)
  }

  function Shift4(c: bv32): bv32 { Iter(Step, c, 4) }

  function Shift8(c: bv32): bv32 { Iter(Step, c, 8) }

  // ---- A step is linear ----

  function Xor(x: bv32, y: bv32): bv32 { x ^ y }

  lemma {:induction false} XorShift(x: bv32, y: bv32)
    ensures (x ^ y) >> 1 == (x >> 1) ^ (y >> 1)
  {
  }

  lemma {:induction false} LowBit(x: bv32)
    ensures x & 1 == 0 || x & 1 == 1
  {
  }

  lemma {:induction false} XorLow(x: bv32, y: bv32)
    ensures (x ^ y) & 1 == (x & 1) ^ (y & 1)
  {
  }

  lemma {:induction false} XorParity(x: bv32, y: bv32)
    ensures (x ^ y) & 1 != 0 <==> (x & 1 != 0) != (y & 1 != 0)
  {
    LowBit(x);
    LowBit(y);
    XorLow(x, y);
  }

  lemma {:induction false} XorTwice(a: bv32, b: bv32, p: bv32)
    ensures (a ^ p) ^ (b ^ p) == a ^ b
  {
  }

  lemma {:induction false} XorSwap(a: bv32, b: bv32, p: bv32)
    ensures (a ^ p) ^ b == (a ^ b) ^ p && a ^ (b ^ p) == (a ^ b) ^ p
  {
  }

  lemma {:induction false} StepBothOdd(x: bv32, y: bv32)
    requires x & 1 != 0 && y & 1 != 0
    ensures Step(x ^ y) == Step(x) ^ Step(y)
  {
    XorParity(x, y);
    XorShift(x, y);
    XorTwice(x >> 1, y >> 1, POLYNOMIAL);
  }

  lemma {:induction false} StepLeftOdd(x: bv32, y: bv32)
    requires x & 1 != 0 && y & 1 == 0
    ensures Step(x ^ y) == Step(x) ^ Step(y)
  {
    XorParity(x, y);
    XorShift(x, y);
    XorSwap(x >> 1, y >> 1, POLYNOMIAL);
  }

  lemma {:induction false} StepRightOdd(x: bv32, y: bv32)
    requires x & 1 == 0 && y & 1 != 0
    ensures Step(x ^ y) == Step(x) ^ Step(y)
  {
    XorParity(x, y);
    XorShift(x, y);
    XorSwap(x >> 1, y >> 1, POLYNOMIAL);
  }

  lemma {:induction false} StepNoneOdd(x: bv32, y: bv32)
    requires x & 1 == 0 && y & 1 == 0
    ensures Step(x ^ y) == Step(x) ^ Step(y)
  {
    XorParity(x, y);
    XorShift(x, y);
  }

  lemma {:induction false} StepXor(x: bv32, y: bv32)
    ensures Step(x ^ y) == Step(x) ^ Step(y)
  {
    if x & 1 != 0 {
      if y & 1 != 0 { StepBothOdd(x, y); } else { StepLeftOdd(x, y); }
    } else {
      if y & 1 != 0 { StepRightOdd(x, y); } else { StepNoneOdd(x, y); }
    }
  }

  // ---- ... and so are several ----

  ghost predicate Linear<T(!new)>(f: T -> T, op: (T, T) -> T) {
    forall x, y :: f(op(x, y)) == op(f(x), f(y))
  }

  lemma {:induction false} IterLinear<T(!new)>(f: T -> T, op: (T, T) -> T, x: T, y: T, n: nat)
    requires Linear(f, op)
    ensures Iter(f, op(x, y), n) == op(Iter(f, x, n), Iter(f, y, n))
  {
    if n > 0 { IterLinear(f, op, f(x), f(y), n - 1); }
  }

  lemma {:induction false} IterAdd<T>(f: T -> T, x: T, m: nat, n: nat)
    ensures Iter(f, x, m + n) == Iter(f, Iter(f, x, m), n)
  {
    if m > 0 { IterAdd(f, f(x), m - 1, n); }
  }

  lemma {:induction false} StepLinear()
    ensures Linear(Step, Xor)
  {
    forall x, y ensures Step(Xor(x, y)) == Xor(Step(x), Step(y)) { StepXor(x, y); }
  }

  lemma {:induction false} StepsXor(x: bv32, y: bv32, n: nat)
    ensures Iter(Step, Xor(x, y), n) == Xor(Iter(Step, x, n), Iter(Step, y, n))
  {
    StepLinear();
    IterLinear(Step, Xor, x, y, n);
  }

  lemma {:induction false} Shift4Xor(x: bv32, y: bv32)
    ensures Shift4(x ^ y) == Shift4(x) ^ Shift4(y)
  {
    StepsXor(x, y, 4);
  }

  lemma {:induction false} Shift8Xor(x: bv32, y: bv32)
    ensures Shift8(x ^ y) == Shift8(x) ^ Shift8(y)
  {
    StepsXor(x, y, 8);
  }

  lemma {:induction false} Shift8Twice(x: bv32)
    ensures Shift8(x) == Shift4(Shift4(x))
  {
    IterAdd(Step, x, 4, 4);
  }

  // ---- Where the low bits are zero nothing is subtracted ----

  lemma {:induction false} StepEven(x: bv32)
    requires x & 1 == 0
    ensures Step(x) == x >> 1
  {
  }

  lemma {:induction false} Shift4High(x: bv32)
    requires x & 0xF == 0
    ensures Shift4(x) == x >> 4
  {
    assert x & 1 == 0 && (x >> 1) & 1 == 0 && (x >> 2) & 1 == 0 && (x >> 3) & 1 == 0;
    StepEven(x);
    StepEven(x >> 1);
    StepEven(x >> 2);
    StepEven(x >> 3);
    assert Step(x >> 3) == x >> 4 && Step(x >> 2) == x >> 3 && Step(x >> 1) == x >> 2;
    assert Iter(Step, x >> 4, 0) == x >> 4;
    assert Iter(Step, x >> 3, 1) == x >> 4;
    assert Iter(Step, x >> 2, 2) == x >> 4;
    assert Iter(Step, x >> 1, 3) == x >> 4;
  }

  lemma {:induction false} Shift4Parts(x: bv32, low: bv32, high: bv32)
    requires low ^ high == x && high & 0xF == 0 && high >> 4 == x >> 4
    ensures Shift4(x) == Shift4(low) ^ (x >> 4)
  {
    Shift4Xor(low, high);
    Shift4High(high);
  }

  /** Four steps at once: the low nibble decides what is added to the rest. */
  lemma {:induction false} Shift4Split(x: bv32)
    ensures Shift4(x) == Shift4(x & 0xF) ^ (x >> 4)
  {
    Shift4Parts(x, x & 0xF, x & 0xFFFFFFF0);
  }

  lemma {:induction false} Shift8High(x: bv32, y: bv32)
    requires x & 0xF == 0 && x >> 4 == y && y & 0xF == 0
    ensures Shift8(x) == y >> 4
  {
    Shift8Twice(x);
    Shift4High(x);
    Shift4High(y);
  }

  lemma {:induction false} Shift8Parts(x: bv32, low: bv32, high: bv32, y: bv32)
    requires low ^ high == x && high & 0xF == 0 && high >> 4 == y && y & 0xF == 0 && y >> 4 == x >> 8
    ensures Shift8(x) == Shift8(low) ^ (x >> 8)
  {
    Shift8Xor(low, high);
    Shift8High(high, y);
  }

  lemma {:induction false} Low8(x: bv32, low: bv32, high: bv32)
    requires low == x & 0xFF && high == x & 0xFFFFFF00
    ensures low ^ high == x
  {
  }

  lemma {:induction false} High8(x: bv32, high: bv32)
    requires high == x & 0xFFFFFF00
    ensures high & 0xF == 0
  {
  }

  lemma {:induction false} Middle8(x: bv32, high: bv32, y: bv32)
    requires high == x & 0xFFFFFF00 && y == high >> 4
    ensures y & 0xF == 0
  {
  }

  lemma {:induction false} Top8(x: bv32, high: bv32, y: bv32)
    requires high == x & 0xFFFFFF00 && y == high >> 4
    ensures y >> 4 == x >> 8
  {
  }

  /** ... and eight: the low byte. */
  lemma {:induction false} Shift8Split(x: bv32) returns (low: bv32)
    ensures low == x & 0xFF && Shift8(x) == Shift8(low) ^ (x >> 8)
  {
    low := x & 0xFF;
    var high := x & 0xFFFFFF00;
    var y := high >> 4;
    Low8(x, low, high);
    High8(x, high);
    Middle8(x, high, y);
    Top8(x, high, y);
    Shift8Parts(x, low, high, y);
  }

  // ---- The tables ----

  /** Sixteen values of a function. */
  function Tabulate(f: bv32 -> bv32, base: bv32): (s: seq<bv32>)
    ensures |s| == 16
  {
    [f(base), f(base ^ 1), f(base ^ 2), f(base ^ 3), f(base ^ 4), f(base ^ 5), f(base ^ 6), f(base ^ 7),
     f(base ^ 8), f(base ^ 9), f(base ^ 10), f(base ^ 11), f(base ^ 12), f(base ^ 13), f(base ^ 14), f(base ^ 15)]
  }

  lemma {:induction false} EntryLow(f: bv32 -> bv32, base: bv32, j: bv32)
    requires j <= 7
    ensures (j as nat) < 16 && Tabulate(f, base)[j as nat] == f(base ^ j)
  {
    assert base ^ 0 == base;
    assert j == 0 || j == 1 || j == 2 || j == 3 || j == 4 || j == 5 || j == 6 || j == 7;
  }

  lemma {:induction false} EntryHigh(f: bv32 -> bv32, base: bv32, j: bv32)
    requires 8 <= j <= 15
    ensures (j as nat) < 16 && Tabulate(f, base)[j as nat] == f(base ^ j)
  {
    assert j == 8 || j == 9 || j == 10 || j == 11 || j == 12 || j == 13 || j == 14 || j == 15;
  }

  lemma {:induction false} Entry(f: bv32 -> bv32, base: bv32, j: bv32)
    requires j <= 15
    ensures (j as nat) < 16 && Tabulate(f, base)[j as nat] == f(base ^ j)
  {
    if j < 8 { EntryLow(f, base, j); } else { EntryHigh(f, base, j); }
  }

  lemma {:induction false} Table16Right()
    ensures TABLE16 == Tabulate(Shift4, 0)
  {
  }

  lemma {:induction false} Row0Right()
    ensures ROW0 == Tabulate(Shift8, 0x00)
  {
  }

  lemma {:induction false} Row1Right()
    ensures ROW1 == Tabulate(Shift8, 0x10)
  {
  }

  lemma {:induction false} Row2Right()
    ensures ROW2 == Tabulate(Shift8, 0x20)
  {
  }

  lemma {:induction false} Row3Right()
    ensures ROW3 == Tabulate(Shift8, 0x30)
  {
  }

  lemma {:induction false} Row4Right()
    ensures ROW4 == Tabulate(Shift8, 0x40)
  {
  }

  lemma {:induction false} Row5Right()
    ensures ROW5 == Tabulate(Shift8, 0x50)
  {
  }

  lemma {:induction false} Row6Right()
    ensures ROW6 == Tabulate(Shift8, 0x60)
  {
  }

  lemma {:induction false} Row7Right()
    ensures ROW7 == Tabulate(Shift8, 0x70)
  {
  }

  lemma {:induction false} Row8Right()
    ensures ROW8 == Tabulate(Shift8, 0x80)
  {
  }

  lemma {:induction false} Row9Right()
    ensures ROW9 == Tabulate(Shift8, 0x90)
  {
  }

  lemma {:induction false} RowARight()
    ensures ROWA == Tabulate(Shift8, 0xA0)
  {
  }

  lemma {:induction false} RowBRight()
    ensures ROWB == Tabulate(Shift8, 0xB0)
  {
  }

  lemma {:induction false} RowCRight()
    ensures ROWC == Tabulate(Shift8, 0xC0)
  {
  }

  lemma {:induction false} RowDRight()
    ensures ROWD == Tabulate(Shift8, 0xD0)
  {
  }

  lemma {:induction false} RowERight()
    ensures ROWE == Tabulate(Shift8, 0xE0)
  {
  }

  lemma {:induction false} RowFRight()
    ensures ROWF == Tabulate(Shift8, 0xF0)
  {
  }

  lemma {:induction false} LowRows(j: bv32)
    requires j <= 7
    ensures (j as nat) < 16 && TABLE256[j as nat] == Tabulate(Shift8, j << 4)
  {
    Row0Right();
    Row1Right();
    Row2Right();
    Row3Right();
    Row4Right();
    Row5Right();
    Row6Right();
    Row7Right();
    assert j == 0 || j == 1 || j == 2 || j == 3 || j == 4 || j == 5 || j == 6 || j == 7;
  }

  lemma {:induction false} HighRows(j: bv32)
    requires 8 <= j <= 15
    ensures (j as nat) < 16 && TABLE256[j as nat] == Tabulate(Shift8, j << 4)
  {
    Row8Right();
    Row9Right();
    RowARight();
    RowBRight();
    RowCRight();
    RowDRight();
    RowERight();
    RowFRight();
    assert j == 8 || j == 9 || j == 10 || j == 11 || j == 12 || j == 13 || j == 14 || j == 15;
  }

  /** ngx_crc32_table_short[j] */
  function Table16(j: bv32): bv32
    requires j <= 0xF
  {
    Entry(Shift4, 0, j);
    TABLE16[j as nat]
  }

  /** ngx_crc32_table256[j] */
  function Table256(j: bv32): bv32
    requires j <= 0xFF
  {
    HalvesOf(j);
    TABLE256[(j >> 4) as nat][(j & 0xF) as nat]
  }

  lemma {:induction false} HalvesOf(j: bv32)
    requires j <= 0xFF
    ensures j >> 4 <= 0xF && j & 0xF <= 0xF && ((j >> 4) << 4) ^ (j & 0xF) == j
    ensures ((j >> 4) as nat) < 16 && ((j & 0xF) as nat) < 16
    ensures |TABLE256[(j >> 4) as nat]| == 16
  {
  }

  lemma {:induction false} Table16Is(j: bv32)
    requires j <= 0xF
    ensures Table16(j) == Shift4(j)
  {
    Table16Right();
    Entry(Shift4, 0, j);
    assert 0 ^ j == j;
  }

  lemma {:induction false} RowEntry(h: bv32, l: bv32, j: bv32)
    requires h <= 0xF && l <= 0xF && (h << 4) ^ l == j
    ensures (h as nat) < 16 && (l as nat) < 16 && |TABLE256[h as nat]| == 16
      && TABLE256[h as nat][l as nat] == Shift8(j)
  {
    if h < 8 { LowRows(h); } else { HighRows(h); }
    Entry(Shift8, h << 4, l);
  }

  lemma {:induction false} Table256Is(j: bv32)
    requires j <= 0xFF
    ensures Table256(j) == Shift8(j)
  {
    HalvesOf(j);
    RowEntry(j >> 4, j & 0xF, j);
  }

  // ---- A byte at a time, and a nibble ----

  lemma {:induction false} HighKept(crc: bv32, c: bv32)
    requires c <= 0xFF
    ensures (crc ^ c) >> 8 == crc >> 8
  {
  }

  /** The step of `ngx_crc32_long` and `ngx_crc32_update`. */
  lemma {:induction false} ByteStep(crc: bv32, c: bv32, x: bv32, j: bv32)
    requires c <= 0xFF && x == crc ^ c && j == x & 0xFF
    ensures j <= 0xFF && Table256(j) ^ (crc >> 8) == Shift8(x)
  {
    var low := Shift8Split(x);
    HighKept(crc, c);
    assert j <= 0xFF;
    Table256Is(j);
  }

  lemma {:induction false} NibbleHigh(crc: bv32, m: bv32)
    requires m <= 0xF
    ensures (crc ^ m) >> 4 == crc >> 4
  {
  }

  /** Half a step of `ngx_crc32_short`. */
  lemma {:induction false} NibbleStep(crc: bv32, m: bv32, x: bv32, j: bv32)
    requires m <= 0xF && x == crc ^ m && j == x & 0xF
    ensures j <= 0xF && Table16(j) ^ (crc >> 4) == Shift4(x)
  {
    Shift4Split(x);
    NibbleHigh(crc, m);
    assert j <= 0xF;
    Table16Is(j);
  }

  lemma {:induction false} FirstNibble(a: bv32, high: bv32, b: bv32, m: bv32)
    requires a ^ high == b && high & 0xF == 0 && high >> 4 == m
    ensures Shift4(b) == Shift4(a) ^ m
  {
    Shift4Xor(a, high);
    Shift4High(high);
  }

  lemma {:induction false} SecondNibble(b: bv32, s: bv32)
    requires s == Shift4(b)
    ensures Shift4(s) == Shift8(b)
  {
    Shift8Twice(b);
  }

  /** Two nibbles make a byte. */
  lemma {:induction false} TwoNibbles(a: bv32, high: bv32, b: bv32, m: bv32)
    requires a ^ high == b && high & 0xF == 0 && high >> 4 == m
    ensures Shift4(Shift4(a) ^ m) == Shift8(b)
  {
    FirstNibble(a, high, b, m);
    SecondNibble(b, Shift4(a) ^ m);
  }

  // ---- A bit at a time ----

  /** The remainder after one more bit. */
  function FeedBit(crc: bv32, bit: bool): bv32 {
    if (crc & 1 != 0) != bit then (crc >> 1) ^ POLYNOMIAL else crc >> 1
  }

  /** `a` fed with `b`, `h(b)`, `h(h(b))` and so on, `n` times. */
  function Fold<A, B>(g: (A, B) -> A, h: B -> B, a: A, b: B, n: nat): A
    decreases n
  {
    if n == 0 then a else Fold(g, h, g(a, b), h(b), n - 1)
  }

  function FeedLow(crc: bv32, c: bv32): bv32 { FeedBit(crc, c & 1 != 0) }

  function Half(c: bv32): bv32 { c >> 1 }

  /** The remainder after the `n` low bits of `c`, lowest first. */
  function FeedBits(crc: bv32, c: bv32, n: nat): bv32 { Fold(FeedLow, Half, crc, c, n) }

  ghost predicate Carries<A(!new), B(!new)>(f: A -> A, join: (A, B) -> A, g: (A, B) -> A, h: B -> B) {
    forall a, b :: f(join(a, b)) == join(g(a, b), h(b))
  }

  /** Feeding bit by bit is stepping with everything added at the start. */
  lemma {:induction false} FoldIter<A(!new),
      B(!new)>(f: A -> A, join: (A, B) -> A, g: (A, B) -> A, h: B -> B, a: A, b: B, n: nat)
    requires Carries(f, join, g, h)
    ensures Iter(f, join(a, b), n) == join(Fold(g, h, a, b, n), Iter(h, b, n))
    decreases n
  {
    if n > 0 { FoldIter(f, join, g, h, g(a, b), h(b), n - 1); }
  }

  lemma {:induction false} FeedOdd(a: bv32, b: bv32)
    requires (a & 1 != 0) != (b & 1 != 0)
    ensures Step(Xor(a, b)) == Xor(FeedLow(a, b), Half(b))
  {
    XorParity(a, b);
    XorShift(a, b);
    XorSwap(a >> 1, b >> 1, POLYNOMIAL);
  }

  lemma {:induction false} FeedEven(a: bv32, b: bv32)
    requires (a & 1 != 0) == (b & 1 != 0)
    ensures Step(Xor(a, b)) == Xor(FeedLow(a, b), Half(b))
  {
    XorParity(a, b);
    XorShift(a, b);
  }

  lemma {:induction false} FeedCarry(a: bv32, b: bv32)
    ensures Step(Xor(a, b)) == Xor(FeedLow(a, b), Half(b))
  {
    if (a & 1 != 0) != (b & 1 != 0) { FeedOdd(a, b); } else { FeedEven(a, b); }
  }

  lemma {:induction false} FeedCarries()
    ensures Carries(Step, Xor, FeedLow, Half)
  {
    forall a, b ensures Step(Xor(a, b)) == Xor(FeedLow(a, b), Half(b)) { FeedCarry(a, b); }
  }

  lemma {:induction false} BitsAreSteps(crc: bv32, c: bv32, n: nat)
    ensures Iter(Step, Xor(crc, c), n) == Xor(FeedBits(crc, c, n), Iter(Half, c, n))
  {
    FeedCarries();
    FoldIter(Step, Xor, FeedLow, Half, crc, c, n);
  }
}
