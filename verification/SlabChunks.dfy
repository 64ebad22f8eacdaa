/** The three bitmap encodings of a page of chunks: in the page itself for small chunks,
    in the whole `slab` word for chunks of the exact size, in its upper half for big ones. */
module SlabChunks {
  import opened Words
  import opened Bits
  import opened SlabLists
  import opened SlabState

  lemma {:induction false} Classes(shift: nat)
    requires 3 <= shift < PAGE_SHIFT
    ensures Size(shift) * Cap(shift) == 4096 && Header(shift) < Cap(shift)
    ensures shift < EXACT_SHIFT ==> Cap(shift) == 64 * MapWords(shift) && Header(shift) <= 8 && MapWords(shift) >= 1
    ensures shift == EXACT_SHIFT ==> Cap(shift) == 64
    ensures shift > EXACT_SHIFT ==> Cap(shift) <= 32
    ensures Header(shift) * Size(shift) >= MapWords(shift) * 8 || shift >= EXACT_SHIFT
    ensures Header(shift) + 2 <= Cap(shift)
  {
  }

  /** Chunk `j` marked in the record or the in-page bitmap. */
  function MarkRec(rec: Rec, shift: nat, j: nat): Rec
    requires 3 <= shift < PAGE_SHIFT && j < Cap(shift)
  {
    if shift < EXACT_SHIFT then rec
    else
      var w := SetBit(rec.slab, if shift == EXACT_SHIFT then j else 32 + j);
      if w < W64 then rec.(slab := w) else rec
  }

  function MarkBits(bitmap: seq<Word>, shift: nat, j: nat): seq<Word>
    requires 3 <= shift < PAGE_SHIFT && j < Cap(shift)
  {
    if shift < EXACT_SHIFT && j / 64 < |bitmap| then
      var w := SetBit(bitmap[j / 64], j % 64);
      if w < W64 then bitmap[j / 64 := w] else bitmap
    else bitmap
  }

  /** ... and cleared. */
  function UnmarkRec(rec: Rec, shift: nat, j: nat): Rec
    requires 3 <= shift < PAGE_SHIFT && j < Cap(shift)
  {
    if shift < EXACT_SHIFT then rec
    else
      var w := ClearBit(rec.slab, if shift == EXACT_SHIFT then j else 32 + j);
      if w < W64 then rec.(slab := w) else rec
  }

  function UnmarkBits(bitmap: seq<Word>, shift: nat, j: nat): seq<Word>
    requires 3 <= shift < PAGE_SHIFT && j < Cap(shift)
  {
    if shift < EXACT_SHIFT && j / 64 < |bitmap| then
      var w := ClearBit(bitmap[j / 64], j % 64);
      if w < W64 then bitmap[j / 64 := w] else bitmap
    else bitmap
  }

  lemma {:induction false} WordBit(w: Word, i: nat)
    requires i < 64
    ensures SetBit(w, i) < W64 && ClearBit(w, i) < W64
  {
    Pow2Values();
    SetBitBound(w, i, 64);
    ClearBitBound(w, i, 64);
  }

  /** Setting a mark sets that mark and no other. */
  lemma {:induction false} MarkedAfterMark(rec: Rec, bitmap: seq<Word>, shift: nat, j: nat, a: nat)
    requires 3 <= shift < PAGE_SHIFT && j < Cap(shift) && a < Cap(shift)
    requires shift < EXACT_SHIFT ==> |bitmap| == MapWords(shift)
    ensures shift < EXACT_SHIFT ==> a / 64 < |bitmap| && |MarkBits(bitmap, shift, j)| == |bitmap|
    ensures Marked(MarkRec(rec, shift, j), MarkBits(bitmap, shift, j), shift, a) <==>
      a == j || Marked(rec, bitmap, shift, a)
  {
    Classes(shift);
    if shift < EXACT_SHIFT {
      WordBit(bitmap[j / 64], j % 64);
      if a / 64 == j / 64 { SetBitAt(bitmap[j / 64], j % 64, a % 64); }
      assert a == j <==> a / 64 == j / 64 && a % 64 == j % 64;
    } else if shift == EXACT_SHIFT {
      WordBit(rec.slab, j);
      SetBitAt(rec.slab, j, a);
    } else {
      WordBit(rec.slab, 32 + j);
      SetBitAt(rec.slab, 32 + j, 32 + a);
    }
  }

  lemma {:induction false} MarkedAfterUnmark(rec: Rec, bitmap: seq<Word>, shift: nat, j: nat, a: nat)
    requires 3 <= shift < PAGE_SHIFT && j < Cap(shift) && a < Cap(shift)
    requires shift < EXACT_SHIFT ==> |bitmap| == MapWords(shift)
    ensures shift < EXACT_SHIFT ==> a / 64 < |bitmap| && |UnmarkBits(bitmap, shift, j)| == |bitmap|
    ensures Marked(UnmarkRec(rec, shift, j), UnmarkBits(bitmap, shift, j), shift, a) <==>
      a != j && Marked(rec, bitmap, shift, a)
  {
    Classes(shift);
    if shift < EXACT_SHIFT {
      WordBit(bitmap[j / 64], j % 64);
      if a / 64 == j / 64 { ClearBitAt(bitmap[j / 64], j % 64, a % 64); }
      assert a == j <==> a / 64 == j / 64 && a % 64 == j % 64;
    } else if shift == EXACT_SHIFT {
      WordBit(rec.slab, j);
      ClearBitAt(rec.slab, j, a);
    } else {
      WordBit(rec.slab, 32 + j);
      ClearBitAt(rec.slab, 32 + j, 32 + a);
    }
  }

  /** Handing out a chunk. */
  lemma {:induction false} MarkOk(rec: Rec, bitmap: seq<Word>, shift: nat, live: set<nat>, j: nat)
    requires 3 <= shift < PAGE_SHIFT && ChunkMarks(rec, bitmap, shift, live) && Header(shift) <= j < Cap(shift)
    ensures ChunkMarks(MarkRec(rec, shift, j), MarkBits(bitmap, shift, j), shift, live + {j})
  {
    Classes(shift);
    var rec', bitmap' := MarkRec(rec, shift, j), MarkBits(bitmap, shift, j);
    forall a | 0 <= a < Cap(shift)
      ensures shift < EXACT_SHIFT ==> a / 64 < |bitmap'|
      ensures Marked(rec', bitmap', shift, a) <==> a < Header(shift) || a in live + {j}
    {
      MarkedAfterMark(rec, bitmap, shift, j, a);
    }
    MarkedAfterMark(rec, bitmap, shift, j, j);
    if shift > EXACT_SHIFT {
      WordBit(rec.slab, 32 + j);
      SetBitLow(rec.slab, 32 + j, 4);
      ShrSetBit(rec.slab, 32, j);
      SetBitBound(Shr(rec.slab, 32), j, Cap(shift));
    }
  }

  /** Taking a chunk back. */
  lemma {:induction false} UnmarkOk(rec: Rec, bitmap: seq<Word>, shift: nat, live: set<nat>, j: nat)
    requires 3 <= shift < PAGE_SHIFT && ChunkMarks(rec, bitmap, shift, live) && Header(shift) <= j < Cap(shift)
    ensures ChunkMarks(UnmarkRec(rec, shift, j), UnmarkBits(bitmap, shift, j), shift, live - {j})
  {
    Classes(shift);
    var rec', bitmap' := UnmarkRec(rec, shift, j), UnmarkBits(bitmap, shift, j);
    forall a | 0 <= a < Cap(shift)
      ensures shift < EXACT_SHIFT ==> a / 64 < |bitmap'|
      ensures Marked(rec', bitmap', shift, a) <==> a < Header(shift) || a in live - {j}
    {
      MarkedAfterUnmark(rec, bitmap, shift, j, a);
    }
    MarkedAfterUnmark(rec, bitmap, shift, j, j);
    if shift > EXACT_SHIFT {
      WordBit(rec.slab, 32 + j);
      ClearBitLow(rec.slab, 32 + j, 4);
      ShrClearBit(rec.slab, 32, j);
      ClearBitBound(Shr(rec.slab, 32), j, Cap(shift));
    }
  }

  // ---- The tests for a full and for an empty page ----

  /** Every chunk is marked, as the allocator tests it. */
  predicate AllMarked(rec: Rec, bitmap: seq<Word>, shift: nat)
    requires 3 <= shift < PAGE_SHIFT
  {
    if shift < EXACT_SHIFT then forall a :: 0 <= a < |bitmap| ==> bitmap[a] == BUSY
    else if shift == EXACT_SHIFT then rec.slab == BUSY
    else Shr(rec.slab, 32) == Pow2(Cap(shift)) - 1
  }

  /** No chunk but the header is marked, as the allocator tests it. */
  predicate NoneMarked(rec: Rec, bitmap: seq<Word>, shift: nat)
    requires 3 <= shift < PAGE_SHIFT
  {
    if shift < EXACT_SHIFT then
      |bitmap| > 0 && Shr(bitmap[0], Header(shift)) == 0 && forall a :: 1 <= a < |bitmap| ==> bitmap[a] == 0
    else if shift == EXACT_SHIFT then rec.slab == 0
    else Shr(rec.slab, 32) == 0
  }

  lemma {:induction false} WordFull(w: Word)
    ensures w == BUSY <==> forall i :: 0 <= i < 64 ==> Bit(w, i)
  {
    Pow2Values();
    AllOnes(w, 64);
  }

  lemma {:induction false} WordEmpty(w: nat, n: nat)
    requires w < Pow2(n)
    ensures w == 0 <==> forall i :: 0 <= i < n ==> !Bit(w, i)
  {
    if w == 0 {
      forall i: nat ensures !Bit(0, i) { ZeroAt(i); }
    } else {
      var i := OneBit(w, n);
      assert Bit(w, i);
    }
  }

  lemma {:induction false} FullTest(rec: Rec, bitmap: seq<Word>, shift: nat, live: set<nat>)
    requires 3 <= shift < PAGE_SHIFT && ChunkMarks(rec, bitmap, shift, live)
    ensures AllMarked(rec, bitmap, shift) <==> Full(shift, live)
  {
    Classes(shift);
    if shift < EXACT_SHIFT {
      FullTestSmall(rec, bitmap, shift, live);
    } else if shift == EXACT_SHIFT {
      WordFull(rec.slab);
      assert forall j :: 0 <= j < 64 ==> (Marked(rec, bitmap, shift, j) <==> Bit(rec.slab, j));
    } else {
      AllOnes(Shr(rec.slab, 32), Cap(shift));
      forall j: nat ensures Bit(Shr(rec.slab, 32), j) == Bit(rec.slab, 32 + j) { ShrBit(rec.slab, 32, j); }
      assert forall j :: 0 <= j < Cap(shift) ==> (Marked(rec, bitmap, shift, j) <==> Bit(Shr(rec.slab, 32), j));
    }
  }

  lemma {:induction false} FullTestSmall(rec: Rec, bitmap: seq<Word>, shift: nat, live: set<nat>)
    requires 3 <= shift < EXACT_SHIFT && ChunkMarks(rec, bitmap, shift, live)
    ensures (forall a :: 0 <= a < |bitmap| ==> bitmap[a] == BUSY) <==> Full(shift, live)
  {
    Classes(shift);
    if forall a :: 0 <= a < |bitmap| ==> bitmap[a] == BUSY {
      forall j | Header(shift) <= j < Cap(shift) ensures j in live {
        WordFull(bitmap[j / 64]);
        assert Bit(bitmap[j / 64], j % 64);
        assert Marked(rec, bitmap, shift, j);
      }
    } else {
      var a :| 0 <= a < |bitmap| && bitmap[a] != BUSY;
      Pow2Values();
      var i := ZeroBit(bitmap[a], 64);
      var j := 64 * a + i;
      assert j / 64 == a && j % 64 == i;
      assert !Marked(rec, bitmap, shift, j);
    }
  }

  lemma {:induction false} EmptyTest(rec: Rec, bitmap: seq<Word>, shift: nat, live: set<nat>)
    requires 3 <= shift < PAGE_SHIFT && ChunkMarks(rec, bitmap, shift, live)
    ensures NoneMarked(rec, bitmap, shift) <==> live == {}
  {
    Classes(shift);
    if shift < EXACT_SHIFT {
      EmptyTestSmall(rec, bitmap, shift, live);
    } else if shift == EXACT_SHIFT {
      Pow2Values();
      WordEmpty(rec.slab, 64);
      assert forall j :: 0 <= j < 64 ==> (Marked(rec, bitmap, shift, j) <==> Bit(rec.slab, j));
    } else {
      WordEmpty(Shr(rec.slab, 32), Cap(shift));
      forall j: nat ensures Bit(Shr(rec.slab, 32), j) == Bit(rec.slab, 32 + j) { ShrBit(rec.slab, 32, j); }
      assert forall j :: 0 <= j < Cap(shift) ==> (Marked(rec, bitmap, shift, j) <==> Bit(Shr(rec.slab, 32), j));
    }
  }

  lemma {:induction false} EmptyTestSmall(rec: Rec, bitmap: seq<Word>, shift: nat, live: set<nat>)
    requires 3 <= shift < EXACT_SHIFT && ChunkMarks(rec, bitmap, shift, live)
    ensures NoneMarked(rec, bitmap, shift) <==> live == {}
  {
    Classes(shift);
    if NoneMarked(rec, bitmap, shift) {
      if live != {} {
        var j :| j in live;
        NoneThenClear(rec, bitmap, shift, live, j);
      }
    } else if live == {} {
      ClearThenNone(rec, bitmap, shift);
    }
  }

  lemma {:induction false} NoneThenClear(rec: Rec, bitmap: seq<Word>, shift: nat, live: set<nat>, j: nat)
    requires 3 <= shift < EXACT_SHIFT && ChunkMarks(rec, bitmap, shift, live)
    requires NoneMarked(rec, bitmap, shift)
    ensures j !in live
  {
    if j in live {
      SmallBit(rec, bitmap, shift, live, j);
      ZeroAt(j % 64);
      if j < 64 { ShrBit(bitmap[0], Header(shift), j - Header(shift)); ZeroAt(j - Header(shift)); }
    }
  }

  /** While a chunk is out the page is not empty, even if a mark of its header is lost. */
  lemma {:induction false} HeaderUnmarked(rec: Rec, bitmap: seq<Word>, shift: nat, live: set<nat>, j: nat)
    requires 3 <= shift < EXACT_SHIFT && ChunkMarks(rec, bitmap, shift, live) && live != {}
      && j < Header(shift) < Cap(shift)
    ensures |UnmarkBits(bitmap, shift, j)| == |bitmap| > 0 && !Marked(rec, UnmarkBits(bitmap, shift, j), shift, j)
    ensures !NoneMarked(rec, UnmarkBits(bitmap, shift, j), shift)
  {
    Classes(shift);
    var bitmap' := UnmarkBits(bitmap, shift, j);
    MarkedAfterUnmark(rec, bitmap, shift, j, j);
    var a :| a in live;
    MarkedAfterUnmark(rec, bitmap, shift, j, a);
    if NoneMarked(rec, bitmap', shift) {
      ZeroAt(a % 64);
      if a < 64 { ShrBit(bitmap'[0], Header(shift), a - Header(shift)); ZeroAt(a - Header(shift)); }
    }
  }

  lemma {:induction false} ClearThenNone(rec: Rec, bitmap: seq<Word>, shift: nat)
    requires 3 <= shift < EXACT_SHIFT && ChunkMarks(rec, bitmap, shift, {})
    ensures NoneMarked(rec, bitmap, shift)
  {
    Classes(shift);
    Pow2Values();
    var h := Header(shift);
    ShrBound(bitmap[0], h, 64 - h);
    if Shr(bitmap[0], h) != 0 {
      var i := OneBit(Shr(bitmap[0], h), 64 - h);
      ShrBit(bitmap[0], h, i);
      SmallBit(rec, bitmap, shift, {}, h + i);
    }
    forall a | 1 <= a < |bitmap| ensures bitmap[a] == 0 {
      if bitmap[a] != 0 {
        var i := OneBit(bitmap[a], 64);
        assert (64 * a + i) / 64 == a && (64 * a + i) % 64 == i;
        SmallBit(rec, bitmap, shift, {}, 64 * a + i);
      }
    }
  }

  lemma {:induction false} SmallBit(rec: Rec, bitmap: seq<Word>, shift: nat, live: set<nat>, j: nat)
    requires 3 <= shift < EXACT_SHIFT && ChunkMarks(rec, bitmap, shift, live) && j < Cap(shift)
    ensures j / 64 < |bitmap| && (Bit(bitmap[j / 64], j % 64) <==> j < Header(shift) || j in live)
  {
    Classes(shift);
    assert Marked(rec, bitmap, shift, j) <==> j < Header(shift) || j in live;
  }

  // ---- A page just cut into chunks ----

  /** The record of the new page, on the list of the slot whose head is `head`. */
  function FirstRec(shift: nat, head: int): Rec
    requires 3 <= shift < PAGE_SHIFT
  {
    Rec(if shift < EXACT_SHIFT then shift else if shift == EXACT_SHIFT then 1
      else 0x1_0000_0000 + shift, head, head, KindOf(shift))
  }

  /** (2 << n) - 1: the header chunks, and one more. */
  function FirstWord(shift: nat): (w: Word)
    requires 3 <= shift < EXACT_SHIFT
  {
    assert Header(shift) <= 8 && Pow2(9) == 512;
    2 * Pow2(Header(shift)) - 1
  }

  /** The bitmap of a new page, if it is in the page. */
  ghost predicate FirstMap(bitmap: seq<Word>, shift: nat)
    requires 3 <= shift < PAGE_SHIFT
  {
    shift < EXACT_SHIFT ==>
      |bitmap| == MapWords(shift) && bitmap[0] == FirstWord(shift) && forall a :: 1 <= a < |bitmap| ==> bitmap[a] == 0
  }

  /** A new page has its first chunk behind the header handed out. */
  lemma {:induction false} FirstMarks(shift: nat, head: int, bitmap: seq<Word>)
    requires 3 <= shift < PAGE_SHIFT && FirstMap(bitmap, shift)
    ensures ChunkMarks(FirstRec(shift, head), bitmap, shift, {Header(shift)})
  {
    Classes(shift);
    forall j | 0 <= j < Cap(shift)
      ensures shift < EXACT_SHIFT ==> j / 64 < |bitmap|
      ensures Marked(FirstRec(shift, head), bitmap, shift, j) <==> j <= Header(shift)
    {
      FirstMark(shift, head, bitmap, j);
    }
    if shift < EXACT_SHIFT { assert Low(shift, 4) == shift by { assert Pow2(4) == 16; LowWhole(shift, 4); } }
    if shift > EXACT_SHIFT { BigFirst(shift, 0); assert Pow2(1) == 2; Pow2Mono(1, Cap(shift)); }
  }

  lemma {:induction false} FirstMark(shift: nat, head: int, bitmap: seq<Word>, j: nat)
    requires 3 <= shift < PAGE_SHIFT && FirstMap(bitmap, shift) && j < Cap(shift)
    ensures shift < EXACT_SHIFT ==> j / 64 < |bitmap|
    ensures Marked(FirstRec(shift, head), bitmap, shift, j) <==> j <= Header(shift)
  {
    Classes(shift);
    if shift < EXACT_SHIFT {
      OnesAt(Header(shift) + 1, j % 64);
      ZeroAt(j % 64);
    } else if shift == EXACT_SHIFT {
      OnesAt(1, j);
    } else {
      BigFirst(shift, j);
    }
  }

  lemma {:induction false} BigFirst(shift: nat, j: nat)
    requires EXACT_SHIFT < shift < 16
    ensures Low(0x1_0000_0000 + shift, 4) == shift
    ensures Shr(0x1_0000_0000 + shift, 32) == 1
    ensures Bit(0x1_0000_0000 + shift, 32 + j) <==> j == 0
  {
    var w := 0x1_0000_0000 + shift;
    Pow2Values();
    ShrSum(1, shift, 32);
    ShrBit(w, 32, j);
    OnesAt(1, j);
    LowSum(0x1000_0000, shift, 4);
    LowWhole(shift, 4);
  }

  /** Chunk `j` is the lowest that is not out. */
  ghost predicate Lowest(shift: nat, live: set<nat>, j: nat)
    requires shift <= PAGE_SHIFT
  {
    Header(shift) <= j < Cap(shift) && j !in live && forall a :: Header(shift) <= a < j ==> a in live
  }

  /** The lowest chunk without a mark is a chunk to give, if the page is not full. */
  lemma {:induction false} LowestIsFree(rec: Rec, bitmap: seq<Word>, shift: nat, live: set<nat>, j: nat)
    requires 3 <= shift < PAGE_SHIFT && ChunkMarks(rec, bitmap, shift, live) && !Full(shift, live)
    requires j <= Cap(shift) && forall a :: 0 <= a < j ==>
      (shift < EXACT_SHIFT ==> a / 64 < |bitmap|) && Marked(rec, bitmap, shift, a)
    requires j < Cap(shift) ==> (shift < EXACT_SHIFT ==> j / 64 < |bitmap|) && !Marked(rec, bitmap, shift, j)
    ensures Header(shift) <= j < Cap(shift) && j !in live
    ensures forall a :: Header(shift) <= a < j ==> a in live
  {
    Classes(shift);
    var b :| Header(shift) <= b < Cap(shift) && b !in live;
    assert !Marked(rec, bitmap, shift, b);
    if j < Cap(shift) { assert Marked(rec, bitmap, shift, j) <==> j < Header(shift) || j in live; }
  }
}
