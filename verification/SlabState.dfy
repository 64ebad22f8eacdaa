/** How the page records of a slab pool encode the runs it holds. */
module SlabState {
  import opened Words
  import opened Bits
  import opened SlabRuns
  import opened SlabLists

  // ---- Size classes of a 4096-byte page ----

  const PAGE_SHIFT := 12
  const EXACT_SHIFT := 6

  const POWERS: seq<nat> := [1, 2, 4, 8, 16, 32, 64, 128, 256, 512, 1024, 2048, 4096]

  /** 1 << shift */
  function Size(shift: nat): nat
    requires shift <= PAGE_SHIFT
  {
    POWERS[shift]
  }

  /** ngx_pagesize >> shift: the chunks in a page. */
  function Cap(shift: nat): nat
    requires shift <= PAGE_SHIFT
  {
    POWERS[PAGE_SHIFT - shift]
  }

  /** The chunks at the front of a page that hold its bitmap. */
  function Header(shift: nat): nat
    requires shift <= PAGE_SHIFT
  {
    if shift >= EXACT_SHIFT then 0
    else
      var n := Cap(shift) / (Size(shift) * 8);
      if n == 0 then 1 else n
  }

  /** The words of an in-page bitmap. */
  function MapWords(shift: nat): nat
    requires shift <= PAGE_SHIFT
  {
    Cap(shift) / 64
  }

  function KindOf(shift: nat): Kind {
    if shift < EXACT_SHIFT then Small else if shift == EXACT_SHIFT then Exact else Big
  }

  // ---- The encoding of one run ----

  const PAGE_START: nat := HALF64
  const BUSY: Word := W64 - 1

  /** Is chunk `j` marked in the bitmap of a page, wherever that bitmap is? */
  predicate Marked(rec: Rec, bitmap: seq<Word>, shift: nat, j: nat)
    requires shift < EXACT_SHIFT ==> j / 64 < |bitmap|
  {
    if shift < EXACT_SHIFT then Bit(bitmap[j / 64], j % 64)
    else if shift == EXACT_SHIFT then Bit(rec.slab, j)
    else Bit(rec.slab, 32 + j)
  }

  /** No chunk of the page is left. */
  predicate Full(shift: nat, live: set<nat>)
    requires shift <= PAGE_SHIFT
  {
    forall j :: Header(shift) <= j < Cap(shift) ==> j in live
  }

  /** The record and the bitmap of a page mark its header and the chunks handed out. */
  ghost predicate ChunkMarks(rec: Rec, bitmap: seq<Word>, shift: nat, live: set<nat>)
    requires 3 <= shift < PAGE_SHIFT
  {
    && (forall j :: j in live ==> Header(shift) <= j < Cap(shift))
    && (shift < EXACT_SHIFT ==> |bitmap| == MapWords(shift))
    && (forall j :: 0 <= j < Cap(shift) ==> (Marked(rec, bitmap, shift, j) <==> j < Header(shift) || j in live))
    && (shift != EXACT_SHIFT ==> Low(rec.slab, 4) == shift)
    && (shift > EXACT_SHIFT ==> Shr(rec.slab, 32) < Pow2(Cap(shift)))
  }

  /** ... and the page is on no list when it is full. */
  ghost predicate ChunkPageOk(rec: Rec, bitmap: seq<Word>, shift: nat, live: set<nat>)
    requires 3 <= shift < PAGE_SHIFT
  {
    && live != {} && rec.kind == KindOf(shift)
    && ChunkMarks(rec, bitmap, shift, live)
    && (Full(shift, live) ==> rec.next == NULL && rec.prev == NULL)
  }

  ghost predicate RunOk(n: nat, minShift: nat, R: Recs, bits: seq<seq<Word>>, r: Run)
    requires 3 <= minShift < PAGE_SHIFT && |R| >= n && |bits| == n
  {
    && r.End() <= n
    && match r
       case Free(start, len) =>
         && len >= 1
         && R[start].slab == len
         && (forall z :: start < z < start + len ==> R[z].slab == 0 && R[z].next == NULL && R[z].kind == Page)
         && (len > 1 && start + len < n ==> R[start + len - 1].prev == start)
       case Busy(start, len) =>
         && len >= 1
         && R[start].slab == PAGE_START + len && R[start].next == NULL && R[start].prev == NULL && R[start].kind == Page
         && (forall z :: start < z < start + len ==> R[z] == Rec(BUSY, NULL, NULL, Page))
       case Chunks(start, slot, live) =>
         && minShift + slot < PAGE_SHIFT
         && ChunkPageOk(R[start], bits[start], minShift + slot, live)
  }

  // ---- The whole pool ----

  ghost predicate FreeStart(runs: seq<Run>, x: int) {
    exists i :: 0 <= i < |runs| && runs[i].Free? && runs[i].start == x
  }

  /** A page of size class `slot` that still has chunks to give. */
  ghost predicate OpenPage(minShift: nat, r: Run, slot: nat) {
    r.Chunks? && r.slot == slot && minShift + slot < PAGE_SHIFT && !Full(minShift + slot, r.live)
  }

  ghost predicate OpenStart(minShift: nat, runs: seq<Run>, slot: nat, x: int) {
    exists i :: 0 <= i < |runs| && OpenPage(minShift, runs[i], slot) && runs[i].start == x
  }

  /** The sizes of a pool: pages, smallest class, and the record index space of page
      records, slot heads and the head of the free list. */
  datatype Layout = Layout(n: nat, minShift: nat) {
    ghost predicate Ok() { 1 <= n < HALF64 - 1 && 3 <= minShift < PAGE_SHIFT }
    function Slots(): nat { if minShift < PAGE_SHIFT then PAGE_SHIFT - minShift else 0 }
    function SlotHead(s: nat): nat { n + s }
    function FreeHead(): nat { n + Slots() }
    function Records(): nat { n + Slots() + 1 }
  }

  ghost predicate FreeIn(runs: seq<Run>, i: int, free: seq<int>)
    requires 0 <= i < |runs|
  {
    runs[i].Free? ==> runs[i].start in free
  }

  /** The free list holds the starts of the free runs. */
  ghost predicate FreeList(runs: seq<Run>, free: seq<int>) {
    && (forall x {:trigger FreeStart(runs, x)} :: x in free ==> FreeStart(runs, x))
    && (forall i {:trigger FreeIn(runs, i, free)} :: 0 <= i < |runs| ==> FreeIn(runs, i, free))
  }

  ghost predicate OpenIn(minShift: nat, runs: seq<Run>, i: int, s: nat, list: seq<int>)
    requires 0 <= i < |runs|
  {
    OpenPage(minShift, runs[i], s) ==> runs[i].start in list
  }

  /** The list of a slot holds the pages of its class that have chunks to give. */
  ghost predicate SlotList(minShift: nat, runs: seq<Run>, s: nat, list: seq<int>) {
    && OpenPages(minShift, runs, s, list)
    && (forall i {:trigger OpenIn(minShift, runs, i, s, list)} :: 0 <= i < |runs| ==>
      OpenIn(minShift, runs, i, s, list))
  }

  ghost predicate Listed(lay: Layout, runs: seq<Run>, free: seq<int>, slots: seq<seq<int>>) {
    && |slots| == lay.Slots()
    && FreeList(runs, free)
    && forall s :: 0 <= s < |slots| ==> SlotList(lay.minShift, runs, s, slots[s])
  }

  ghost predicate Linked(lay: Layout, R: Recs, free: seq<int>, slots: seq<seq<int>>)
    requires lay.Ok() && |R| == lay.Records()
  {
    && Ring(R, lay.FreeHead(), free, Page)
    && |slots| == lay.Slots()
    && forall s :: 0 <= s < |slots| ==> Ring(R, lay.SlotHead(s), slots[s], KindOf(lay.minShift + s))
  }

  ghost predicate EncodedAt(lay: Layout, R: Recs, bits: seq<seq<Word>>, runs: seq<Run>, i: int)
    requires lay.Ok() && |R| == lay.Records() && |bits| == lay.n && 0 <= i < |runs|
  {
    RunOk(lay.n, lay.minShift, R, bits, runs[i])
  }

  ghost predicate Encoded(lay: Layout, R: Recs, bits: seq<seq<Word>>, runs: seq<Run>)
    requires lay.Ok() && |R| == lay.Records() && |bits| == lay.n
  {
    forall i {:trigger EncodedAt(lay, R, bits, runs, i)} :: 0 <= i < |runs| ==> EncodedAt(lay, R, bits, runs, i)
  }

  /** Everything that holds between two calls. */
  ghost predicate Sound(lay: Layout, R: Recs, bits: seq<seq<Word>>, runs: seq<Run>, free: seq<int>,
      slots: seq<seq<int>>) {
    && lay.Ok() && |R| == lay.Records() && |bits| == lay.n
    && Tiles(runs, 0, lay.n) && Coalesced(runs)
    && Encoded(lay, R, bits, runs)
    && Linked(lay, R, free, slots)
    && Listed(lay, runs, free, slots)
  }

  /** A record on the free list belongs to no run but the free run it starts. */
  lemma {:induction false} FreeListed(n: nat, runs: seq<Run>, free: seq<int>, z: int, i: nat)
    requires Tiles(runs, 0, n) && FreeList(runs, free) && i < |runs|
    requires z in free && runs[i].start <= z < runs[i].End()
    ensures runs[i].Free? && runs[i].start == z
  {
    assert FreeStart(runs, z);
    var j :| 0 <= j < |runs| && runs[j].Free? && runs[j].start == z;
    TilesAt(runs, 0, n, j);
    RunUnique(runs, 0, n, i, j, z);
  }

  lemma {:induction false} OpenListed(lay: Layout, runs: seq<Run>, s: nat, open: seq<int>, z: int, i: nat)
    requires Tiles(runs, 0, lay.n) && OpenPages(lay.minShift, runs, s, open) && i < |runs|
    requires z in open && runs[i].start <= z < runs[i].End()
    ensures OpenPage(lay.minShift, runs[i], s) && runs[i].start == z
  {
    assert OpenStart(lay.minShift, runs, s, z);
    var j :| 0 <= j < |runs| && OpenPage(lay.minShift, runs[j], s) && runs[j].start == z;
    TilesAt(runs, 0, lay.n, j);
    RunUnique(runs, 0, lay.n, i, j, z);
  }

  /** The pages of `open` are open pages of slot `s`. */
  ghost predicate OpenPages(minShift: nat, runs: seq<Run>, s: nat, open: seq<int>) {
    forall x {:trigger OpenStart(minShift, runs, s, x)} :: x in open ==> OpenStart(minShift, runs, s, x)
  }

  /** Outside pages `lo .. hi` only links have changed, and only of records on the free
      list or among the pages `open` of one slot. */
  ghost predicate Quiet(lay: Layout, R: Recs, R': Recs, bits: seq<seq<Word>>, bits': seq<seq<Word>>, lo: int, hi: int,
      free: seq<int>, open: seq<int>)
    requires lay.Ok() && |R| == lay.Records() && |bits| == lay.n
  {
    && |R'| == |R| && |bits'| == |bits|
    && (forall z :: 0 <= z < lay.n && !(lo <= z < hi) ==>
          && R'[z].slab == R[z].slab && bits'[z] == bits[z]
          && (z !in free && z !in open ==> R'[z] == R[z])
          && (z in open ==> R'[z].kind == R[z].kind))
  }

  /** A run outside the touched pages is encoded as before. */
  lemma {:induction false} RunFrame(lay: Layout, R: Recs, R': Recs, bits: seq<seq<Word>>, bits': seq<seq<Word>>,
      runs: seq<Run>, free: seq<int>, s: nat, open: seq<int>, i: nat, lo: int, hi: int)
    requires lay.Ok() && |R| == lay.Records() && |bits| == lay.n
    requires Tiles(runs, 0, lay.n) && FreeList(runs, free) && OpenPages(lay.minShift, runs, s, open) && i < |runs|
    requires RunOk(lay.n, lay.minShift, R, bits, runs[i])
    requires Quiet(lay, R, R', bits, bits', lo, hi, free, open) && (runs[i].End() <= lo || hi <= runs[i].start)
    ensures RunOk(lay.n, lay.minShift, R', bits', runs[i])
  {
    if runs[i].Chunks? {
      PageFrame(lay, R, R', bits, bits', runs, free, s, open, i, lo, hi);
    } else {
      WholeFrame(lay, R, R', bits, bits', runs, free, s, open, i, lo, hi);
    }
  }

  lemma {:induction false} PageFrame(lay: Layout, R: Recs, R': Recs, bits: seq<seq<Word>>, bits': seq<seq<Word>>,
      runs: seq<Run>, free: seq<int>, s: nat, open: seq<int>, i: nat, lo: int, hi: int)
    requires lay.Ok() && |R| == lay.Records() && |bits| == lay.n
    requires Tiles(runs, 0, lay.n) && FreeList(runs, free) && OpenPages(lay.minShift, runs, s, open) && i < |runs|
    requires runs[i].Chunks? && RunOk(lay.n, lay.minShift, R, bits, runs[i])
    requires Quiet(lay, R, R', bits, bits', lo, hi, free, open) && (runs[i].End() <= lo || hi <= runs[i].start)
    ensures RunOk(lay.n, lay.minShift, R', bits', runs[i])
  {
    var start, shift := runs[i].start, lay.minShift + runs[i].slot;
    assert start !in free by { if start in free { FreeListed(lay.n, runs, free, start, i); } }
    if start in open {
      OpenListed(lay, runs, s, open, start, i);
      ChunkFrame(R[start], R'[start], bits[start], shift, runs[i].live);
    }
    assert ChunkPageOk(R'[start], bits'[start], shift, runs[i].live);
  }

  lemma {:induction false} WholeFrame(lay: Layout, R: Recs, R': Recs, bits: seq<seq<Word>>, bits': seq<seq<Word>>,
      runs: seq<Run>, free: seq<int>, s: nat, open: seq<int>, i: nat, lo: int, hi: int)
    requires lay.Ok() && |R| == lay.Records() && |bits| == lay.n
    requires Tiles(runs, 0, lay.n) && FreeList(runs, free) && OpenPages(lay.minShift, runs, s, open) && i < |runs|
    requires RunOk(lay.n, lay.minShift, R, bits, runs[i]) && !runs[i].Chunks?
    requires Quiet(lay, R, R', bits, bits', lo, hi, free, open) && (runs[i].End() <= lo || hi <= runs[i].start)
    ensures RunOk(lay.n, lay.minShift, R', bits', runs[i])
  {
    var r := runs[i];
    forall z | r.start <= z < r.End()
      ensures R'[z].slab == R[z].slab && (!(r.Free? && z == r.start) ==> R'[z] == R[z])
    {
      if z in free { FreeListed(lay.n, runs, free, z, i); }
      if z in open { OpenListed(lay, runs, s, open, z, i); }
    }
  }

  /** Links do not matter to the encoding of a page that is not full. */
  lemma {:induction false} ChunkFrame(rec: Rec, rec': Rec, bitmap: seq<Word>, shift: nat, live: set<nat>)
    requires 3 <= shift < PAGE_SHIFT && ChunkPageOk(rec, bitmap, shift, live) && !Full(shift, live)
    requires rec'.slab == rec.slab && rec'.kind == rec.kind
    ensures ChunkPageOk(rec', bitmap, shift, live)
  {
    forall j | 0 <= j < Cap(shift)
      ensures (shift < EXACT_SHIFT ==> j / 64 < |bitmap|)
        && (Marked(rec', bitmap, shift, j) <==> j < Header(shift) || j in live)
    {
      assert Marked(rec, bitmap, shift, j) <==> j < Header(shift) || j in live;
    }
  }

  lemma {:induction false} EncodedOutside(lay: Layout, R: Recs, R': Recs, bits: seq<seq<Word>>, bits': seq<seq<Word>>,
      runs: seq<Run>, free: seq<int>, s: nat, open: seq<int>, lo: nat, hi: nat, i: nat)
    requires lay.Ok() && |R| == lay.Records() && |bits| == lay.n
    requires Tiles(runs, 0, lay.n) && FreeList(runs, free) && OpenPages(lay.minShift, runs, s, open)
    requires lo < hi <= |runs| && i < |runs| && !(lo <= i < hi)
    requires Encoded(lay, R, bits, runs)
    requires Quiet(lay, R, R', bits, bits', runs[lo].start, runs[hi - 1].End(), free, open)
    ensures RunOk(lay.n, lay.minShift, R', bits', runs[i])
  {
    assert EncodedAt(lay, R, bits, runs, i);
    if i < lo { TilesOrder(runs, 0, lay.n, i, lo); } else { TilesOrder(runs, 0, lay.n, hi - 1, i); }
    RunFrame(lay, R, R', bits, bits', runs, free, s, open, i, runs[lo].start, runs[hi - 1].End());
  }

  /** Replacing the runs in the touched pages. */
  lemma {:induction false} EncodedSplice(lay: Layout, R: Recs, R': Recs, bits: seq<seq<Word>>, bits': seq<seq<Word>>,
      runs: seq<Run>, free: seq<int>, s: nat, open: seq<int>, lo: nat, hi: nat, mid: seq<Run>)
    requires lay.Ok() && |R| == lay.Records() && |bits| == lay.n
    requires Tiles(runs, 0, lay.n) && FreeList(runs, free) && OpenPages(lay.minShift, runs, s, open)
    requires Encoded(lay, R, bits, runs) && lo < hi <= |runs|
    requires Quiet(lay, R, R', bits, bits', runs[lo].start, runs[hi - 1].End(), free, open)
    requires Encoded(lay, R', bits', mid)
    ensures Encoded(lay, R', bits', Splice(runs, lo, hi, mid))
  {
    var runs' := Splice(runs, lo, hi, mid);
    forall k | 0 <= k < |runs'| ensures EncodedAt(lay, R', bits', runs', k) {
      SpliceAt(runs, lo, hi, mid, k);
      if k < lo {
        EncodedOutside(lay, R, R', bits, bits', runs, free, s, open, lo, hi, k);
      } else if k < lo + |mid| {
        assert EncodedAt(lay, R', bits', mid, k - lo);
      } else {
        EncodedOutside(lay, R, R', bits, bits', runs, free, s, open, lo, hi, k - |mid| + (hi - lo));
      }
    }
  }

  /** A slot list none of whose pages is touched. */
  lemma {:induction false} SlotRingFrame(lay: Layout, R: Recs, R': Recs, bits: seq<seq<Word>>, bits': seq<seq<Word>>,
      runs: seq<Run>, free: seq<int>, s: nat, open: seq<int>, t: nat, list: seq<int>, kind: Kind, lo: int, hi: int)
    requires lay.Ok() && |R| == lay.Records() && |bits| == lay.n && t < lay.Slots()
    requires Tiles(runs, 0, lay.n) && FreeList(runs, free) && SlotList(lay.minShift, runs, t, list)
    requires OpenPages(lay.minShift, runs, s, open) && (s != t || open == [])
    requires Ring(R, lay.SlotHead(t), list, kind)
    requires Quiet(lay, R, R', bits, bits', lo, hi, free, open)
    requires R'[lay.SlotHead(t)].next == R[lay.SlotHead(t)].next
    requires forall x :: x in list ==> !(lo <= x < hi)
    ensures Ring(R', lay.SlotHead(t), list, kind)
  {
    forall z | 0 <= z < |R| && z in list ensures SameLinks(R[z], R'[z]) {
      assert OpenStart(lay.minShift, runs, t, z);
      var i :| 0 <= i < |runs| && OpenPage(lay.minShift, runs[i], t) && runs[i].start == z;
      TilesAt(runs, 0, lay.n, i);
      if z in free { FreeListed(lay.n, runs, free, z, i); }
      if z in open { OpenListed(lay, runs, s, open, z, i); }
    }
    RingFrame(R, R', lay.SlotHead(t), list, kind);
  }

  // ---- Replacing a stretch of runs, in the lists ----

  /** None of the runs `lo .. hi` starts at `x`. */
  ghost predicate Elsewhere(runs: seq<Run>, lo: nat, hi: nat, x: int)
    requires hi <= |runs|
  {
    forall j :: lo <= j < hi ==> runs[j].start != x
  }

  /** The free list loses the runs `lo .. hi` and gains the free ones of `mid`. */
  ghost predicate FreeChange(runs: seq<Run>, lo: nat, hi: nat, mid: seq<Run>, free: seq<int>, free': seq<int>)
    requires hi <= |runs|
  {
    && (forall x :: x in free' ==> (x in free && Elsewhere(runs, lo, hi, x)) || FreeStart(mid, x))
    && (forall x :: x in free && Elsewhere(runs, lo, hi, x) ==> x in free')
    && (forall j :: 0 <= j < |mid| && mid[j].Free? ==> mid[j].start in free')
  }

  /** ... and a slot list likewise. */
  ghost predicate SlotChange(minShift: nat, runs: seq<Run>, lo: nat, hi: nat, mid: seq<Run>, s: nat, list: seq<int>,
      list': seq<int>)
    requires hi <= |runs|
  {
    && (forall x :: x in list' ==> (x in list && Elsewhere(runs, lo, hi, x)) || OpenStart(minShift, mid, s, x))
    && (forall x :: x in list && Elsewhere(runs, lo, hi, x) ==> x in list')
    && (forall j :: 0 <= j < |mid| && OpenPage(minShift, mid[j], s) ==> mid[j].start in list')
  }

  lemma {:induction false} StartUnique(runs: seq<Run>, n: nat, i: nat, lo: nat, hi: nat)
    requires Tiles(runs, 0, n) && i < |runs| && lo <= hi <= |runs| && !(lo <= i < hi)
    ensures Elsewhere(runs, lo, hi, runs[i].start)
  {
    forall j | lo <= j < hi ensures runs[j].start != runs[i].start {
      TilesAt(runs, 0, n, i);
      TilesAt(runs, 0, n, j);
      if i < j { TilesOrder(runs, 0, n, i, j); } else { TilesOrder(runs, 0, n, j, i); }
    }
  }

  lemma {:induction false} FreeListSplice(n: nat, runs: seq<Run>, free: seq<int>, lo: nat, hi: nat, mid: seq<Run>,
      free': seq<int>)
    requires Tiles(runs, 0, n) && FreeList(runs, free) && lo < hi <= |runs|
    requires FreeChange(runs, lo, hi, mid, free, free')
    ensures FreeList(Splice(runs, lo, hi, mid), free')
  {
    var runs' := Splice(runs, lo, hi, mid);
    forall x | x in free' ensures FreeStart(runs', x) {
      if FreeStart(mid, x) {
        var j :| 0 <= j < |mid| && mid[j].Free? && mid[j].start == x;
        var k := SpliceHas(runs, lo, hi, mid, j);
      } else {
        assert FreeStart(runs, x);
        var j :| 0 <= j < |runs| && runs[j].Free? && runs[j].start == x;
        var k := SpliceKeeps(runs, lo, hi, mid, j);
      }
    }
    forall k | 0 <= k < |runs'| ensures FreeIn(runs', k, free') {
      SpliceAt(runs, lo, hi, mid, k);
      if k < lo || k >= lo + |mid| {
        var j := if k < lo then k else k - |mid| + (hi - lo);
        assert FreeIn(runs, j, free);
        StartUnique(runs, n, j, lo, hi);
      }
    }
  }

  lemma {:induction false} SlotListSplice(minShift: nat, n: nat, runs: seq<Run>, s: nat, list: seq<int>, lo: nat,
      hi: nat, mid: seq<Run>, list': seq<int>)
    requires Tiles(runs, 0, n) && SlotList(minShift, runs, s, list) && lo < hi <= |runs|
    requires SlotChange(minShift, runs, lo, hi, mid, s, list, list')
    ensures SlotList(minShift, Splice(runs, lo, hi, mid), s, list')
  {
    var runs' := Splice(runs, lo, hi, mid);
    forall x | x in list' ensures OpenStart(minShift, runs', s, x) {
      if OpenStart(minShift, mid, s, x) {
        var j :| 0 <= j < |mid| && OpenPage(minShift, mid[j], s) && mid[j].start == x;
        var k := SpliceHas(runs, lo, hi, mid, j);
      } else {
        assert OpenStart(minShift, runs, s, x);
        var j :| 0 <= j < |runs| && OpenPage(minShift, runs[j], s) && runs[j].start == x;
        var k := SpliceKeeps(runs, lo, hi, mid, j);
      }
    }
    forall k | 0 <= k < |runs'| ensures OpenIn(minShift, runs', k, s, list') {
      SpliceAt(runs, lo, hi, mid, k);
      if k < lo || k >= lo + |mid| {
        var j := if k < lo then k else k - |mid| + (hi - lo);
        assert OpenIn(minShift, runs, j, s, list);
        StartUnique(runs, n, j, lo, hi);
      }
    }
  }

  /** A slot list does not change when none of the runs involved is an open page of its. */
  lemma {:induction false} SlotUnchanged(minShift: nat, n: nat, runs: seq<Run>, s: nat, list: seq<int>, lo: nat,
      hi: nat, mid: seq<Run>)
    requires Tiles(runs, 0, n) && SlotList(minShift, runs, s, list) && lo < hi <= |runs|
    requires forall j :: lo <= j < hi ==> !OpenPage(minShift, runs[j], s)
    requires forall j :: 0 <= j < |mid| ==> !OpenPage(minShift, mid[j], s)
    ensures SlotChange(minShift, runs, lo, hi, mid, s, list, list)
  {
    forall x | x in list ensures Elsewhere(runs, lo, hi, x) {
      assert OpenStart(minShift, runs, s, x);
      var i :| 0 <= i < |runs| && OpenPage(minShift, runs[i], s) && runs[i].start == x;
      StartUnique(runs, n, i, lo, hi);
    }
  }

  /** Replacing a stretch of runs keeps everything that holds between calls, if the
      records of the new runs are right and the lists change accordingly. */
  lemma {:induction false} SoundSplice(lay: Layout, R: Recs, R': Recs, bits: seq<seq<Word>>, bits': seq<seq<Word>>,
      runs: seq<Run>, free: seq<int>, slots: seq<seq<int>>, t: nat, open: seq<int>, lo: nat, hi: nat, mid: seq<Run>,
      free': seq<int>, slots': seq<seq<int>>)
    requires Sound(lay, R, bits, runs, free, slots) && lo < hi <= |runs|
    requires Tiles(Splice(runs, lo, hi, mid), 0, lay.n) && Coalesced(Splice(runs, lo, hi, mid))
    requires OpenPages(lay.minShift, runs, t, open)
    requires Quiet(lay, R, R', bits, bits', runs[lo].start, runs[hi - 1].End(), free, open)
    requires Encoded(lay, R', bits', mid)
    requires Linked(lay, R', free', slots')
    requires FreeChange(runs, lo, hi, mid, free, free')
    requires forall s :: 0 <= s < |slots| ==> SlotChange(lay.minShift, runs, lo, hi, mid, s, slots[s], slots'[s])
    ensures Sound(lay, R', bits', Splice(runs, lo, hi, mid), free', slots')
  {
    EncodedSplice(lay, R, R', bits, bits', runs, free, t, open, lo, hi, mid);
    FreeListSplice(lay.n, runs, free, lo, hi, mid, free');
    forall s | 0 <= s < |slots| ensures SlotList(lay.minShift, Splice(runs, lo, hi, mid), s, slots'[s]) {
      SlotListSplice(lay.minShift, lay.n, runs, s, slots[s], lo, hi, mid, slots'[s]);
    }
  }
}
