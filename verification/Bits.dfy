/** Single bits of machine words. */
module Bits {

  function Pow2(n: nat): (r: nat)
    ensures r > 0
  {
    if n == 0 then 1 else 2 * Pow2(n - 1)
  }

  /** w >> k */
  function Shr(w: nat, k: nat): nat {
    if k == 0 then w else Shr(w / 2, k - 1)
  }

  /** w & (1 << i) */
  predicate Bit(w: nat, i: nat) {
    Shr(w, i) % 2 == 1
  }

  /** w | (1 << i) */
  function SetBit(w: nat, i: nat): nat {
    if i == 0 then w / 2 * 2 + 1 else SetBit(w / 2, i - 1) * 2 + w % 2
  }

  /** w & ~(1 << i) */
  function ClearBit(w: nat, i: nat): nat {
    if i == 0 then w / 2 * 2 else ClearBit(w / 2, i - 1) * 2 + w % 2
  }

  lemma {:induction false} SetBitAt(w: nat, i: nat, j: nat)
    ensures Bit(SetBit(w, i), j) == (j == i || Bit(w, j))
  {
    if i > 0 && j > 0 { SetBitAt(w / 2, i - 1, j - 1); }
  }

  lemma {:induction false} ClearBitAt(w: nat, i: nat, j: nat)
    ensures Bit(ClearBit(w, i), j) == (j != i && Bit(w, j))
  {
    if i > 0 && j > 0 { ClearBitAt(w / 2, i - 1, j - 1); }
  }

  lemma {:induction false} SetBitBound(w: nat, i: nat, n: nat)
    requires w < Pow2(n) && i < n
    ensures SetBit(w, i) < Pow2(n)
  {
    if i > 0 { SetBitBound(w / 2, i - 1, n - 1); }
  }

  lemma {:induction false} ClearBitBound(w: nat, i: nat, n: nat)
    requires w < Pow2(n)
    ensures ClearBit(w, i) < Pow2(n)
  {
    if i > 0 && n > 0 { ClearBitBound(w / 2, i - 1, n - 1); }
    if i > 0 && n == 0 { ClearBitBound(w / 2, i - 1, 0); }
  }

  /** w & ((1 << k) - 1) */
  function Low(w: nat, k: nat): nat {
    if k == 0 then 0 else Low(w / 2, k - 1) * 2 + w % 2
  }

  /** A word is all ones exactly when every bit below `n` is set. */
  lemma {:induction false} AllOnes(w: nat, n: nat)
    requires w < Pow2(n)
    ensures w == Pow2(n) - 1 <==> forall i :: 0 <= i < n ==> Bit(w, i)
  {
    if w == Pow2(n) - 1 {
      forall i | 0 <= i < n ensures Bit(w, i) { OnesAt(n, i); }
    } else {
      var i := ZeroBit(w, n);
    }
  }

  lemma {:induction false} OnesAt(n: nat, i: nat)
    ensures Bit(Pow2(n) - 1, i) == (i < n)
  {
    if n == 0 {
      ZeroAt(i);
    } else if i > 0 {
      assert (Pow2(n) - 1) / 2 == Pow2(n - 1) - 1;
      OnesAt(n - 1, i - 1);
    }
  }

  lemma {:induction false} ZeroAt(i: nat)
    ensures !Bit(0, i)
  {
    if i > 0 { ZeroAt(i - 1); }
  }

  /** A word below all ones has a clear bit. */
  lemma {:induction false} ZeroBit(w: nat, n: nat) returns (i: nat)
    requires w < Pow2(n) - 1
    ensures i < n && !Bit(w, i)
  {
    if w % 2 == 0 {
      i := 0;
    } else {
      i := ZeroBit(w / 2, n - 1);
      i := i + 1;
    }
  }

  /** A word that is not 0 has a set bit. */
  lemma {:induction false} OneBit(w: nat, n: nat) returns (i: nat)
    requires 0 < w < Pow2(n)
    ensures i < n && Bit(w, i)
  {
    if w % 2 == 1 {
      i := 0;
    } else {
      i := OneBit(w / 2, n - 1);
      i := i + 1;
    }
  }

  lemma {:induction false} ShrBit(w: nat, k: nat, i: nat)
    ensures Bit(Shr(w, k), i) == Bit(w, k + i)
  {
    if k > 0 { ShrBit(w / 2, k - 1, i); }
  }

  lemma {:induction false} ShrBound(w: nat, k: nat, n: nat)
    requires w < Pow2(k + n)
    ensures Shr(w, k) < Pow2(n)
  {
    if k > 0 { ShrBound(w / 2, k - 1, n); }
  }

  lemma {:induction false} ShrSetBit(w: nat, k: nat, i: nat)
    ensures Shr(SetBit(w, k + i), k) == SetBit(Shr(w, k), i)
  {
    if k > 0 { ShrSetBit(w / 2, k - 1, i); }
  }

  lemma {:induction false} ShrClearBit(w: nat, k: nat, i: nat)
    ensures Shr(ClearBit(w, k + i), k) == ClearBit(Shr(w, k), i)
  {
    if k > 0 { ShrClearBit(w / 2, k - 1, i); }
  }

  /** Setting or clearing a bit at or above `k` leaves the low `k` bits. */
  lemma {:induction false} SetBitLow(w: nat, i: nat, k: nat)
    requires k <= i
    ensures Low(SetBit(w, i), k) == Low(w, k)
  {
    if k > 0 {
      assert SetBit(w, i) / 2 == SetBit(w / 2, i - 1) && SetBit(w, i) % 2 == w % 2;
      SetBitLow(w / 2, i - 1, k - 1);
    }
  }

  lemma {:induction false} ClearBitLow(w: nat, i: nat, k: nat)
    requires k <= i
    ensures Low(ClearBit(w, i), k) == Low(w, k)
  {
    if k > 0 {
      assert ClearBit(w, i) / 2 == ClearBit(w / 2, i - 1) && ClearBit(w, i) % 2 == w % 2;
      ClearBitLow(w / 2, i - 1, k - 1);
    }
  }

  lemma {:induction false} ShrSum(hi: nat, lo: nat, k: nat)
    requires lo < Pow2(k)
    ensures Shr(hi * Pow2(k) + lo, k) == hi
  {
    if k > 0 {
      var m := hi * Pow2(k - 1);
      assert hi * Pow2(k) + lo == 2 * m + lo;
      assert (2 * m + lo) / 2 == m + lo / 2;
      ShrSum(hi, lo / 2, k - 1);
    }
  }

  lemma {:induction false} LowSum(hi: nat, lo: nat, k: nat)
    ensures Low(hi * Pow2(k) + lo, k) == Low(lo, k)
  {
    if k > 0 {
      var m := hi * Pow2(k - 1);
      assert hi * Pow2(k) + lo == 2 * m + lo;
      assert (2 * m + lo) / 2 == m + lo / 2 && (2 * m + lo) % 2 == lo % 2;
      LowSum(hi, lo / 2, k - 1);
    }
  }

  lemma {:induction false} LowWhole(w: nat, k: nat)
    requires w < Pow2(k)
    ensures Low(w, k) == w
  {
    if k > 0 { LowWhole(w / 2, k - 1); }
  }

  lemma {:induction false} Pow2Mono(a: nat, b: nat)
    requires a <= b
    ensures Pow2(a) <= Pow2(b)
  {
    if a < b { Pow2Mono(a, b - 1); }
  }

  lemma {:induction false} ShrNext(w: nat, k: nat)
    ensures Shr(w, k) / 2 == Shr(w, k + 1)
  {
    if k > 0 { ShrNext(w / 2, k - 1); }
  }

  lemma {:induction false} ShrZero(w: nat, k: nat)
    ensures Shr(w, k) == 0 <==> w < Pow2(k)
  {
    if k > 0 { ShrZero(w / 2, k - 1); }
  }

  lemma {:induction false} Pow2Add(a: nat, b: nat)
    ensures Pow2(a + b) == Pow2(a) * Pow2(b)
  {
    if a > 0 { Pow2Add(a - 1, b); }
  }

  lemma {:induction false} Pow2Values()
    ensures Pow2(4) == 16 && Pow2(16) == 0x1_0000
    ensures Pow2(32) == 0x1_0000_0000
    ensures Pow2(64) == 0x1_0000_0000_0000_0000
  {
    assert Pow2(8) == 0x100;
    assert Pow2(16) == 0x1_0000;
    assert Pow2(24) == 0x100_0000;
    assert Pow2(32) == 0x1_0000_0000;
    assert Pow2(40) == 0x100_0000_0000;
    assert Pow2(48) == 0x1_0000_0000_0000;
    assert Pow2(56) == 0x100_0000_0000_0000;
  }
}
