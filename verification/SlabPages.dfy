/** The page layer of ngx_slab.c: what taking and giving back whole pages does to the
    page records. */
module SlabPages {
  import opened Words
  import opened SlabRuns
  import opened SlabLists
  import opened SlabState

  /** The records of `k` allocated pages from `x` on. */
  function BusyRec(x: int, k: nat, z: int): Rec
    requires 1 <= k < PAGE_START
  {
    if z == x then Rec(PAGE_START + k, NULL, NULL, Page) else Rec(BUSY, NULL, NULL, Page)
  }

  ghost predicate Filled(R: Recs, R': Recs, x: int, k: nat)
    requires 1 <= k < PAGE_START
  {
    && |R'| == |R|
    && forall z :: 0 <= z < |R| ==> R'[z] == if x <= z < x + k then BusyRec(x, k, z) else R[z]
  }

  /** The links after `ngx_slab_alloc_pages` has cut `k` of the `len` pages at `x` off. */
  function CutLinks(R: Recs, x: int, len: nat, k: nat): Recs
    requires 0 <= x && 1 <= k <= len < W64 && x + len <= |R|
    requires 0 <= R[x].prev < |R| && 0 <= R[x].next < |R|
  {
    if len > k then
      var R1 := R[x + len - 1 := R[x + len - 1].(prev := x + k, kind := Page)];
      Moved(R1[x + k := R1[x + k].(slab := len - k)], x, x + k)
    else Unlinked(R, x)
  }

  /** The free list with the remainder in the place of the run, or without it. */
  function CutList(free: seq<int>, j: nat, x: int, len: nat, k: nat): seq<int>
    requires j < |free|
  {
    if len > k then free[j := x + k] else Without(free, j)
  }

  /** Outside the run only links on the free list change; inside, what is cut off stays a
      free run. */
  ghost predicate CutEffect(R: Recs, R': Recs, head: int, free: seq<int>, x: int, len: nat, k: nat) {
    && |R'| == |R| && 0 <= x && x + len <= |R| && 1 <= k <= len
    && (forall z :: 0 <= z < |R| && !(x <= z < x + len) ==>
          R'[z].slab == R[z].slab && (z != head && z !in free ==> R'[z] == R[z]))
    && (forall z :: x + k < z < x + len - 1 ==> R'[z] == R[z])
    && (k < len ==> R'[x + k].slab == len - k)
    && (k + 1 < len ==> R'[x + len - 1] == R[x + len - 1].(prev := x + k, kind := Page))
  }

  lemma {:induction false} CutWhole(R: Recs, head: int, free: seq<int>, j: nat, len: nat)
    requires Ring(R, head, free, Page) && j < |free| && 1 <= len
    requires free[j] + len <= head
    ensures var x := free[j];
      && 0 <= x && 0 <= R[x].prev < |R| && 0 <= R[x].next < |R|
      && Ring(Unlinked(R, x), head, Without(free, j), Page)
      && CutEffect(R, Unlinked(R, x), head, free, x, len, len)
  {
    UnlinkRing(R, head, free, Page, j);
    assert forall z :: z in Without(free, j) ==> z in free;
  }

  lemma {:induction false} CutFront(R: Recs, head: int, free: seq<int>, j: nat, len: nat, k: nat)
    requires Ring(R, head, free, Page) && j < |free| && 1 <= k < len < W64
    requires free[j] + len <= head && forall z :: free[j] < z < free[j] + len ==> z !in free
    ensures var x := free[j];
      && 0 <= x && 0 <= R[x].prev < |R| && 0 <= R[x].next < |R|
      && Ring(CutLinks(R, x, len, k), head, free[j := x + k], Page)
      && CutEffect(R, CutLinks(R, x, len, k), head, free, x, len, k)
  {
    var x := free[j];
    assert LinkedAt(R, head, free, Page, j) && x in free;
    var R1 := R[x + len - 1 := R[x + len - 1].(prev := x + k, kind := Page)];
    var R2 := R1[x + k := R1[x + k].(slab := len - k)];
    assert Ring(R2, head, free, Page) by {
      assert forall z :: 0 <= z < |R| && z in free ==> SameLinks(R[z], R2[z]);
      RingFrame(R, R2, head, free, Page);
    }
    assert R2[x] == R[x];
    MoveRing(R2, head, free, j, x + k);
    CutFrontEffect(R, R2, CutLinks(R, x, len, k), head, free, j, len, k);
  }

  lemma {:induction false} CutFrontEffect(R: Recs, R2: Recs, R': Recs, head: int, free: seq<int>, j: nat, len: nat,
      k: nat)
    requires j < |free| && 1 <= k < len < W64 && 0 <= free[j] && free[j] + len <= head < |R|
    requires forall z :: free[j] < z < free[j] + len ==> z !in free
    requires R2 == (var x := free[j]; var R1 := R[x + len - 1 := R[x + len - 1].(prev := x + k, kind := Page)];
                    R1[x + k := R1[x + k].(slab := len - k)])
    requires Relinked(R2, R', head, free[j := free[j] + k])
    ensures CutEffect(R, R', head, free, free[j], len, k)
  {
    var x := free[j];
    var list := free[j := x + k];
    forall z | 0 <= z < |R| && z != head && z !in free && z != x + k ensures R'[z] == R2[z] {
      assert z !in list;
    }
    assert forall z :: x + k < z < x + len ==> z !in free && R'[z] == R2[z];
  }

  lemma {:induction false} CutRing(R: Recs, head: int, free: seq<int>, j: nat, len: nat, k: nat)
    requires Ring(R, head, free, Page) && j < |free| && 1 <= k <= len < W64
    requires free[j] + len <= head && forall z :: free[j] < z < free[j] + len ==> z !in free
    ensures var x := free[j];
      && 0 <= x && 0 <= R[x].prev < |R| && 0 <= R[x].next < |R|
      && Ring(CutLinks(R, x, len, k), head, CutList(free, j, x, len, k), Page)
      && CutEffect(R, CutLinks(R, x, len, k), head, free, x, len, k)
  {
    if k < len { CutFront(R, head, free, j, len, k); } else { CutWhole(R, head, free, j, len); }
  }

  /** Inside a run no record but the first can be on the free list. */
  lemma {:induction false} InnerNotListed(n: nat, runs: seq<Run>, free: seq<int>, i: nat)
    requires Tiles(runs, 0, n) && FreeList(runs, free) && i < |runs|
    ensures forall z :: runs[i].start < z < runs[i].End() ==> z !in free
    ensures !runs[i].Free? ==> runs[i].start !in free
  {
    TilesAt(runs, 0, n, i);
    forall z | runs[i].start <= z < runs[i].End() && z in free ensures z == runs[i].start && runs[i].Free? {
      FreeListed(n, runs, free, z, i);
    }
  }

  /** The slot lists are not affected by what happens to runs of whole pages. */
  lemma {:induction false} WholePageSlot(lay: Layout, R: Recs, R': Recs, bits: seq<seq<Word>>, runs: seq<Run>,
      free: seq<int>, s: nat, list: seq<int>, lo: nat, hi: nat, mid: seq<Run>)
    requires lay.Ok() && |R| == lay.Records() && |bits| == lay.n && s < lay.Slots()
    requires Tiles(runs, 0, lay.n) && FreeList(runs, free) && SlotList(lay.minShift, runs, s, list)
    requires Ring(R, lay.SlotHead(s), list, KindOf(lay.minShift + s))
    requires lo < hi <= |runs| && forall j :: lo <= j < hi ==> !runs[j].Chunks?
    requires forall j :: 0 <= j < |mid| ==> !mid[j].Chunks?
    requires Quiet(lay, R, R', bits, bits, runs[lo].start, runs[hi - 1].End(), free, [])
    requires R'[lay.SlotHead(s)].next == R[lay.SlotHead(s)].next
    ensures Ring(R', lay.SlotHead(s), list, KindOf(lay.minShift + s))
    ensures SlotChange(lay.minShift, runs, lo, hi, mid, s, list, list)
  {
    SlotUnchanged(lay.minShift, lay.n, runs, s, list, lo, hi, mid);
    forall z | z in list ensures !(runs[lo].start <= z < runs[hi - 1].End()) {
      OpenOutside(lay, runs, s, list, lo, hi, z);
    }
    SlotRingFrame(lay, R, R', bits, bits, runs, free, s, [], s, list, KindOf(lay.minShift + s), runs[lo].start,
      runs[hi - 1].End());
  }

  lemma {:induction false} OpenOutside(lay: Layout, runs: seq<Run>, s: nat, list: seq<int>, lo: nat, hi: nat, z: int)
    requires Tiles(runs, 0, lay.n) && SlotList(lay.minShift, runs, s, list) && z in list
    requires lo < hi <= |runs| && forall j :: lo <= j < hi ==> !runs[j].Chunks?
    ensures !(runs[lo].start <= z < runs[hi - 1].End())
  {
    assert OpenStart(lay.minShift, runs, s, z);
    var i :| 0 <= i < |runs| && OpenPage(lay.minShift, runs[i], s) && runs[i].start == z;
    TilesAt(runs, 0, lay.n, i);
    if i < lo { TilesOrder(runs, 0, lay.n, i, lo); } else { TilesOrder(runs, 0, lay.n, hi - 1, i); }
  }

  /** Allocation of `k` pages from the front of free run `i`, which is entry `j` of the
      free list, keeps everything that holds between calls. */
  lemma {:induction false} TakeSound(lay: Layout, R: Recs, R': Recs, bits: seq<seq<Word>>, runs: seq<Run>,
      free: seq<int>, slots: seq<seq<int>>, i: nat, j: nat, k: nat)
    requires Sound(lay, R, bits, runs, free, slots) && i < |runs| && runs[i].Free? && 1 <= k <= runs[i].len
    requires j < |free| && free[j] == runs[i].start
    requires var r := runs[i]; r.End() <= lay.n && 0 <= R[r.start].prev < |R| && 0 <= R[r.start].next < |R|
    requires var r := runs[i]; Filled(CutLinks(R, r.start, r.len, k), R', r.start, k)
    ensures Sound(lay, R', bits, Taken(runs, i, k), CutList(free, j, runs[i].start, runs[i].len, k), slots)
  {
    var r := runs[i];
    var x, len := r.start, r.len;
    var free' := CutList(free, j, x, len, k);
    assert EncodedAt(lay, R, bits, runs, i);
    TakeEffect(lay, R, R', bits, runs, free, i, j, k);
    TakenTiles(runs, lay.n, i, k);
    forall s | 0 <= s < |slots|
      ensures Ring(R', lay.SlotHead(s), slots[s], KindOf(lay.minShift + s))
      ensures SlotChange(lay.minShift, runs, i, i + 1, Cut(r, k), s, slots[s], slots[s])
    {
      WholePageSlot(lay, R, R', bits, runs, free, s, slots[s], i, i + 1, Cut(r, k));
    }
    SoundSplice(lay, R, R', bits, bits, runs, free, slots, 0, [], i, i + 1, Cut(r, k), free', slots);
  }

  /** What the allocation does to the records, seen from the free list and the new runs. */
  lemma {:induction false} TakeEffect(lay: Layout, R: Recs, R': Recs, bits: seq<seq<Word>>, runs: seq<Run>,
      free: seq<int>, i: nat, j: nat, k: nat)
    requires lay.Ok() && |R| == lay.Records() && |bits| == lay.n
    requires Tiles(runs, 0, lay.n) && FreeList(runs, free) && Ring(R, lay.FreeHead(), free, Page)
    requires i < |runs| && runs[i].Free? && 1 <= k <= runs[i].len && RunOk(lay.n, lay.minShift, R, bits, runs[i])
    requires j < |free| && free[j] == runs[i].start
    requires var r := runs[i]; 0 <= R[r.start].prev < |R| && 0 <= R[r.start].next < |R|
    requires var r := runs[i]; Filled(CutLinks(R, r.start, r.len, k), R', r.start, k)
    ensures var r := runs[i];
      && Ring(R', lay.FreeHead(), CutList(free, j, r.start, r.len, k), Page)
      && Quiet(lay, R, R', bits, bits, r.start, r.End(), free, [])
      && (forall s :: 0 <= s < lay.Slots() ==> R'[lay.SlotHead(s)].next == R[lay.SlotHead(s)].next)
      && Encoded(lay, R', bits, Cut(r, k))
      && FreeChange(runs, i, i + 1, Cut(r, k), free, CutList(free, j, r.start, r.len, k))
  {
    var r := runs[i];
    var x, len := r.start, r.len;
    var R1, free' := CutLinks(R, x, len, k), CutList(free, j, x, len, k);
    InnerNotListed(lay.n, runs, free, i);
    EachOnce(|R|, lay.FreeHead(), free);
    CutRing(R, lay.FreeHead(), free, j, len, k);
    TakeFreeRing(R1, R', lay.FreeHead(), free, free', j, x, len, k);
    TakeRuns(lay, R, R1, R', bits, free, r, k);
    TakeFreeChange(lay.n, runs, free, i, j, k);
    forall s | 0 <= s < lay.Slots() ensures R'[lay.SlotHead(s)].next == R[lay.SlotHead(s)].next {
      HeadsNotListed(lay, runs, free, lay.SlotHead(s));
    }
  }

  lemma {:induction false} HeadsNotListed(lay: Layout, runs: seq<Run>, free: seq<int>, z: int)
    requires Tiles(runs, 0, lay.n) && FreeList(runs, free) && z >= lay.n
    ensures z !in free
  {
    if z in free {
      assert FreeStart(runs, z);
      var i :| 0 <= i < |runs| && runs[i].Free? && runs[i].start == z;
      TilesAt(runs, 0, lay.n, i);
    }
  }

  lemma {:induction false} TakeFreeRing(R1: Recs, R': Recs, head: int, free: seq<int>, free': seq<int>, j: nat,
      x: int, len: nat, k: nat)
    requires j < |free| && free[j] == x && 1 <= k <= len && k < PAGE_START
    requires free' == CutList(free, j, x, len, k) && x + len <= head
    requires forall z :: x < z < x + len ==> z !in free
    requires forall a, b :: 0 <= a < b < |free| ==> free[a] != free[b]
    requires Ring(R1, head, free', Page) && Filled(R1, R', x, k)
    ensures Ring(R', head, free', Page)
  {
    forall z | z in free' ensures !(x <= z < x + k) {
      var a :| 0 <= a < |free'| && free'[a] == z;
      if len > k {
        assert a != j ==> free[a] in free && free[a] != x;
      } else {
        WithoutAt(free, j, a);
        assert free[if a < j then a else a + 1] in free;
      }
    }
    RingFrame(R1, R', head, free', Page);
  }

  /** The new runs are encoded. */
  lemma {:induction false} TakeRuns(lay: Layout, R: Recs, R1: Recs, R': Recs, bits: seq<seq<Word>>, free: seq<int>,
      r: Run, k: nat)
    requires lay.Ok() && |R| == lay.Records() && |bits| == lay.n && r.Free? && 1 <= k <= r.len
    requires RunOk(lay.n, lay.minShift, R, bits, r)
    requires CutEffect(R, R1, lay.FreeHead(), free, r.start, r.len, k) && Filled(R1, R', r.start, k)
    ensures Encoded(lay, R', bits, Cut(r, k))
  {
    var x, len := r.start, r.len;
    assert RunOk(lay.n, lay.minShift, R', bits, Busy(x, k));
    if k < len {
      var f := Free(x + k, len - k);
      assert f.End() == x + len;
      forall z | x + k < z < x + len ensures R'[z].slab == 0 && R'[z].next == NULL && R'[z].kind == Page {
        assert R'[z] == R1[z];
      }
      assert RunOk(lay.n, lay.minShift, R', bits, f);
    }
    forall a | 0 <= a < |Cut(r, k)| ensures EncodedAt(lay, R', bits, Cut(r, k), a) {
      assert Cut(r, k)[a] == Busy(x, k) || (k < len && Cut(r, k)[a] == Free(x + k, len - k));
    }
  }

  lemma {:induction false} TakeFreeChange(n: nat, runs: seq<Run>, free: seq<int>, i: nat, j: nat, k: nat)
    requires Tiles(runs, 0, n) && FreeList(runs, free) && i < |runs| && runs[i].Free? && 1 <= k <= runs[i].len
    requires j < |free| && free[j] == runs[i].start
    requires forall a, b :: 0 <= a < b < |free| ==> free[a] != free[b]
    ensures FreeChange(runs, i, i + 1, Cut(runs[i], k), free, CutList(free, j, runs[i].start, runs[i].len, k))
  {
    var r := runs[i];
    var free', mid := CutList(free, j, r.start, r.len, k), Cut(r, k);
    forall x | x in free' ensures (x in free && Elsewhere(runs, i, i + 1, x)) || FreeStart(mid, x) {
      var a :| 0 <= a < |free'| && free'[a] == x;
      if k < r.len {
        if a == j { assert mid[1].Free? && mid[1].start == x; } else { assert free[a] in free; }
      } else {
        WithoutAt(free, j, a);
        assert free[if a < j then a else a + 1] in free;
      }
    }
    forall x | x in free && Elsewhere(runs, i, i + 1, x) ensures x in free' {
      var a :| 0 <= a < |free| && free[a] == x;
      assert a != j;
      if k < r.len { assert free'[a] == x; } else { WithoutAt(free, j, if a < j then a else a - 1); }
    }
    if k < r.len { assert free'[j] == r.start + k; }
  }
}
