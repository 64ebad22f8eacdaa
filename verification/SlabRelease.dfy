/** What `ngx_slab_free_pages` does to the page records: a run becomes free and joins
    the free runs next to it. */
module SlabRelease {
  import opened Words
  import opened SlabRuns
  import opened SlabLists
  import opened SlabState
  import opened SlabPages

  const FREE_REC := Rec(0, NULL, NULL, Page)

  /** Records `a .. b` are inside a free run. */
  ghost predicate Zero(R: Recs, a: int, b: int)
    requires 0 <= a && b <= |R|
  {
    forall z :: a <= z < b ==> R[z].slab == 0 && R[z].next == NULL && R[z].kind == Page
  }

  /** Outside `lo .. hi` nothing but links on the free list has changed. */
  ghost predicate Apart(R: Recs, R': Recs, head: int, free: seq<int>, lo: int, hi: int) {
    && |R'| == |R|
    && forall z :: 0 <= z < |R| && !(lo <= z < hi) ==>
         R'[z].slab == R[z].slab && (z != head && z !in free ==> R'[z] == R[z])
  }

  lemma {:induction false} ApartTrans(R: Recs, R1: Recs, R2: Recs, head: int, free: seq<int>, free1: seq<int>,
      lo: int, hi: int)
    requires Apart(R, R1, head, free, lo, hi) && Apart(R1, R2, head, free1, lo, hi)
    requires forall x :: x in free1 ==> x in free
    ensures Apart(R, R2, head, free, lo, hi)
  {
  }

  /** The page at `x` gets its length, the ones after it are cleared. */
  ghost predicate Cleared(R: Recs, R': Recs, x: int, k: nat)
    requires 0 <= x
  {
    && |R'| == |R|
    && x < |R| && R'[x].slab == k
    && forall z :: 0 <= z < |R| && z != x ==> R'[z] == if x < z < x + k then FREE_REC else R[z]
  }

  /** The run at `y` becomes part of the run before it, which starts at `x`. */
  function JoinRight(R: Recs, x: int, y: int): Recs
    requires 0 <= x < |R| && 0 <= y < |R| && x != y && R[x].slab + R[y].slab < W64
    requires 0 <= R[y].prev < |R| && 0 <= R[y].next < |R|
  {
    Unlinked(R[x := R[x].(slab := R[x].slab + R[y].slab)], y)[y := FREE_REC]
  }

  /** Taking entry `j` off the free list, its record then being cleared. */
  lemma {:induction false} DropRing(R: Recs, head: int, free: seq<int>, j: nat, rec: Rec)
    requires Ring(R, head, free, Page) && j < |free|
    ensures var y := free[j];
      && 0 <= y < |R| && 0 <= R[y].prev < |R| && 0 <= R[y].next < |R|
      && Ring(Unlinked(R, y)[y := rec], head, Without(free, j), Page)
      && Relinked(R, Unlinked(R, y), head, free)
  {
    UnlinkRing(R, head, free, Page, j);
    ProperWithout(|R|, head, free, j);
    assert forall z :: z in Without(free, j) ==> z in free;
    RingFrame(Unlinked(R, free[j]), Unlinked(R, free[j])[free[j] := rec], head, Without(free, j), Page);
  }

  lemma {:induction false} JoinRightRing(R: Recs, head: int, free: seq<int>, j: nat, x: int, hi: int)
    requires Ring(R, head, free, Page) && j < |free| && 0 <= x < free[j] < hi <= head
    requires x !in free && R[x].slab + R[free[j]].slab < W64
    ensures var y := free[j];
      && 0 <= R[y].prev < |R| && 0 <= R[y].next < |R|
      && Ring(JoinRight(R, x, y), head, Without(free, j), Page)
      && Relinked(R[x := R[x].(slab := R[x].slab + R[y].slab)],
        Unlinked(R[x := R[x].(slab := R[x].slab + R[y].slab)], y), head, free)
  {
    var y := free[j];
    assert LinkedAt(R, head, free, Page, j) && y in free;
    var R1 := R[x := R[x].(slab := R[x].slab + R[y].slab)];
    RingFrame(R, R1, head, free, Page);
    DropRing(R1, head, free, j, FREE_REC);
  }

  lemma {:induction false} JoinRightEffect(R: Recs, head: int, free: seq<int>, j: nat, x: int, hi: int)
    requires Ring(R, head, free, Page) && j < |free| && 0 <= x < free[j] < hi <= head
    requires x !in free && (forall z :: x < z < hi && z != free[j] ==> z !in free)
    requires R[x].slab + R[free[j]].slab < W64
    requires Zero(R, x + 1, free[j]) && Zero(R, free[j] + 1, hi)
    ensures var y := free[j];
      && 0 <= R[y].prev < |R| && 0 <= R[y].next < |R|
      && var R' := JoinRight(R, x, y);
         && Ring(R', head, Without(free, j), Page) && Apart(R, R', head, free, x, hi)
         && R'[x].slab == R[x].slab + R[y].slab && Zero(R', x + 1, hi)
  {
    JoinRightRing(R, head, free, j, x, hi);
    var y := free[j];
    assert y in free;
    var R1 := R[x := R[x].(slab := R[x].slab + R[y].slab)];
    var R2 := Unlinked(R1, y);
    assert forall z :: 0 <= z < |R| && z != head && z !in free ==> R2[z] == R1[z];
    assert forall z :: x < z < hi && z != y ==> R2[z] == R[z];
  }

  /** The run at `x` becomes part of the free run before it, which starts at `l`. */
  function JoinLeft(R: Recs, l: int, x: int): Recs
    requires 0 <= x < |R| && 0 <= l < |R| && x != l && R[x].slab + R[l].slab < W64
    requires 0 <= R[l].prev < |R| && 0 <= R[l].next < |R|
  {
    Unlinked(R[l := R[l].(slab := R[l].slab + R[x].slab)], l)[x := FREE_REC]
  }

  lemma {:induction false} JoinLeftRing(R: Recs, head: int, free: seq<int>, j: nat, x: int)
    requires Ring(R, head, free, Page) && j < |free| && 0 <= free[j] < x < head
    requires x !in free && R[x].slab + R[free[j]].slab < W64
    ensures var l := free[j];
      && 0 <= R[l].prev < |R| && 0 <= R[l].next < |R|
      && Ring(JoinLeft(R, l, x), head, Without(free, j), Page)
      && Relinked(R[l := R[l].(slab := R[l].slab + R[x].slab)],
        Unlinked(R[l := R[l].(slab := R[l].slab + R[x].slab)], l), head, free)
      && l !in Without(free, j)
  {
    var l := free[j];
    assert LinkedAt(R, head, free, Page, j) && l in free;
    var R1 := R[l := R[l].(slab := R[l].slab + R[x].slab)];
    RingFrame(R, R1, head, free, Page);
    UnlinkRing(R1, head, free, Page, j);
    ProperWithout(|R|, head, free, j);
    assert forall z :: z in Without(free, j) ==> z in free;
    RingFrame(Unlinked(R1, l), Unlinked(R1, l)[x := FREE_REC], head, Without(free, j), Page);
  }

  lemma {:induction false} JoinLeftEffect(R: Recs, head: int, free: seq<int>, j: nat, x: int, hi: int)
    requires Ring(R, head, free, Page) && j < |free| && 0 <= free[j] < x < hi <= head
    requires (forall z :: free[j] < z < hi ==> z !in free)
    requires R[x].slab + R[free[j]].slab < W64
    requires Zero(R, free[j] + 1, x) && Zero(R, x + 1, hi)
    ensures var l := free[j];
      && 0 <= R[l].prev < |R| && 0 <= R[l].next < |R|
      && var R' := JoinLeft(R, l, x);
         && Ring(R', head, Without(free, j), Page) && Apart(R, R', head, free, l, hi)
         && R'[l].slab == R[l].slab + R[x].slab && Zero(R', l + 1, hi) && l !in Without(free, j)
  {
    JoinLeftRing(R, head, free, j, x);
    var l := free[j];
    assert l in free;
    var R1 := R[l := R[l].(slab := R[l].slab + R[x].slab)];
    var R2 := Unlinked(R1, l);
    assert forall z :: 0 <= z < |R| && z != head && z !in free ==> R2[z] == R1[z];
    assert forall z :: l < z < hi && z != x ==> R2[z] == R[z];
  }

  /** The last page of the run points back to its first, which goes to the front of the
      free list. */
  function Closed(R: Recs, head: int, page: int, total: nat): Recs
    requires 0 <= page && 1 <= total && page + total <= head < |R| && 0 <= R[head].next < |R|
  {
    Pushed(LastMarked(R, page, total), head, page, Page)
  }

  /** The last page of a run points at the first. */
  function LastMarked(R: Recs, page: int, total: nat): Recs
    requires 0 <= page && 1 <= total && page + total <= |R|
  {
    var last := page + total - 1;
    if total > 1 then R[last := R[last].(prev := page, kind := Page)] else R
  }

  lemma {:induction false} LastMarkedEffect(R: Recs, head: int, free: seq<int>, page: int, total: nat)
    requires Ring(R, head, free, Page) && 0 <= page && 1 <= total && page + total <= head
    requires (forall z :: page <= z < page + total ==> z !in free) && Zero(R, page + 1, page + total)
    ensures var R' := LastMarked(R, page, total);
      && Ring(R', head, free, Page) && Apart(R, R', head, free, page, page + total)
      && R'[page].slab == R[page].slab && Zero(R', page + 1, page + total)
      && (total > 1 ==> R'[page + total - 1].prev == page)
  {
    RingFrame(R, LastMarked(R, page, total), head, free, Page);
  }

  lemma {:induction false} PushedApart(R: Recs, head: int, free: seq<int>, page: int)
    requires Ring(R, head, free, Page) && 0 <= page < |R| && page != head && page !in free && 0 <= R[head].next < |R|
    ensures var R' := Pushed(R, head, page, Page);
      && |R'| == |R| && R'[page].slab == R[page].slab
      && forall z :: 0 <= z < |R| ==>
        R'[z].slab == R[z].slab && (z != head && z != page && z !in free ==> R'[z] == R[z])
  {
    PushRing(R, head, free, Page, page);
    var R' := Pushed(R, head, page, Page);
    forall z | 0 <= z < |R| ensures R'[z].slab == R[z].slab
      && (z != head && z != page && z !in free ==> R'[z] == R[z]) {
      assert z in [page] + free <==> z == page || z in free;
    }
  }

  lemma {:induction false} ClosedEffect(R: Recs, head: int, free: seq<int>, page: int, total: nat)
    requires Ring(R, head, free, Page) && 0 <= page && 1 <= total && page + total <= head
    requires (forall z :: page <= z < page + total ==> z !in free) && Zero(R, page + 1, page + total)
    ensures 0 <= R[head].next < |R|
    ensures var R' := Closed(R, head, page, total);
      && Ring(R', head, [page] + free, Page) && Apart(R, R', head, free, page, page + total)
      && R'[page].slab == R[page].slab && Zero(R', page + 1, page + total)
      && (total > 1 ==> R'[page + total - 1].prev == page)
  {
    var R1 := LastMarked(R, page, total);
    LastMarkedEffect(R, head, free, page, total);
    PushRing(R1, head, free, Page, page);
    PushedApart(R1, head, free, page);
  }

  // ---- The whole release ----

  /** A free run starts on the free list; a run that is not free has no page there. */
  lemma {:induction false} FreeRunFacts(lay: Layout, R: Recs, bits: seq<seq<Word>>, runs: seq<Run>, free: seq<int>,
      i: nat)
    requires lay.Ok() && |R| == lay.Records() && |bits| == lay.n
    requires Tiles(runs, 0, lay.n) && FreeList(runs, free) && i < |runs|
    requires RunOk(lay.n, lay.minShift, R, bits, runs[i])
    ensures forall z :: runs[i].start < z < runs[i].End() ==> z !in free
    ensures runs[i].Free? <==> runs[i].start in free
    ensures runs[i].Free? ==>
      R[runs[i].start].slab == runs[i].len && Zero(R, runs[i].start + 1, runs[i].End())
  {
    assert FreeIn(runs, i, free);
    InnerNotListed(lay.n, runs, free, i);
  }

  /** The records and the free list after the run to the right has joined. */
  ghost predicate RightDone(R: Recs, R2: Recs, head: int, free: seq<int>, free2: seq<int>, x: int, hi: int) {
    && 0 <= x < hi <= head
    && Ring(R2, head, free2, Page) && Apart(R, R2, head, free, x, hi)
    && R2[x].slab == hi - x && Zero(R2, x + 1, hi)
    && (forall z :: z in free2 ==> z in free)
    && (forall z :: z in free && !(x <= z < hi) ==> z in free2)
    && (forall z :: x <= z < hi ==> z !in free2)
  }

  lemma {:induction false} ReleaseAlone(R: Recs, R0: Recs, head: int, free: seq<int>, x: int, k: nat)
    requires Ring(R, head, free, Page) && 0 <= x && 1 <= k < W64 && x + k <= head
    requires forall z :: x <= z < x + k ==> z !in free
    requires Cleared(R, R0, x, k)
    ensures RightDone(R, R0, head, free, free, x, x + k)
  {
    RingFrame(R, R0, head, free, Page);
  }

  lemma {:induction false} ReleaseRight(R: Recs, R0: Recs, head: int, free: seq<int>, x: int, k: nat, len: nat)
    requires Ring(R, head, free, Page) && 0 <= x && 1 <= k && 1 <= len && x + k + len <= head < W64
    requires x + k in free && R[x + k].slab == len && Zero(R, x + k + 1, x + k + len)
    requires forall z :: x <= z < x + k + len && z != x + k ==> z !in free
    requires Cleared(R, R0, x, k)
    ensures var y := x + k;
      && 0 <= R0[y].prev < |R| && 0 <= R0[y].next < |R| && R0[x].slab + R0[y].slab < W64
      && RightDone(R, JoinRight(R0, x, y), head, free, Minus(free, y), x, x + k + len)
  {
    var y, hi, j := x + k, x + k + len, IndexOf(free, x + k);
    RingFrame(R, R0, head, free, Page);
    assert LinkedAt(R0, head, free, Page, j);
    JoinRightEffect(R0, head, free, j, x, hi);
    MinusMembers(|R|, head, free, y);
    assert Apart(R, R0, head, free, x, hi);
    ApartTrans(R, R0, JoinRight(R0, x, y), head, free, free, x, hi);
  }

  /** ... and after the run to the left has joined. */
  lemma {:induction false} ReleaseLeft(R: Recs, R2: Recs, head: int, free: seq<int>, free2: seq<int>, l: int, x: int,
      hi: int)
    requires RightDone(R, R2, head, free, free2, x, hi) && head < W64 && 0 <= l < x
    requires l in free && R[l].slab == x - l && Zero(R, l + 1, x)
    requires forall z :: l < z < x ==> z !in free
    ensures && 0 <= R2[l].prev < |R| && 0 <= R2[l].next < |R| && R2[x].slab + R2[l].slab < W64
    ensures RightDone(R, JoinLeft(R2, l, x), head, free, Minus(free2, l), l, hi)
  {
    assert l in free2;
    var j := IndexOf(free2, l);
    assert LinkedAt(R2, head, free2, Page, j);
    JoinLeftEffect(R2, head, free2, j, x, hi);
    MinusMembers(|R|, head, free2, l);
    ApartWider(R, R2, head, free, x, hi, l);
    ApartTrans(R, R2, JoinLeft(R2, l, x), head, free, free2, l, hi);
  }

  lemma {:induction false} ApartWider(R: Recs, R': Recs, head: int, free: seq<int>, lo: int, hi: int, l: int)
    requires Apart(R, R', head, free, lo, hi) && l <= lo
    ensures Apart(R, R', head, free, l, hi)
  {
  }

  /** ... and once the joined run heads the free list. */
  lemma {:induction false} ReleaseClosed(R: Recs, R3: Recs, head: int, free: seq<int>, free3: seq<int>, page: int,
      hi: int)
    requires RightDone(R, R3, head, free, free3, page, hi)
    ensures 0 <= R3[head].next < |R3|
    ensures var R' := Closed(R3, head, page, hi - page);
      && Ring(R', head, [page] + free3, Page) && Apart(R, R', head, free, page, hi)
      && R'[page].slab == hi - page && Zero(R', page + 1, hi)
      && (hi - page > 1 ==> R'[hi - 1].prev == page)
  {
    ClosedEffect(R3, head, free3, page, hi - page);
    ApartTrans(R, R3, Closed(R3, head, page, hi - page), head, free, free3, page, hi);
  }

  lemma {:induction false} ReleaseFreeChange(n: nat, runs: seq<Run>, free: seq<int>, free3: seq<int>, i: nat)
    requires Tiles(runs, 0, n) && FreeList(runs, free) && i < |runs| && !runs[i].Free?
    requires var f := Joined(runs, i);
      && (forall z :: z in free3 ==> z in free && !(f.start <= z < f.End()))
      && (forall z :: z in free && !(f.start <= z < f.End()) ==> z in free3)
    ensures var f := Joined(runs, i);
      FreeChange(runs, JoinLow(runs, i), JoinHigh(runs, i) + 1, [f], free, [f.start] + free3)
  {
    var f, lo, hi := Joined(runs, i), JoinLow(runs, i), JoinHigh(runs, i);
    JoinedBounds(runs, n, i);
    assert [f][0].Free?;
    forall x | x in free3 ensures Elsewhere(runs, lo, hi + 1, x) {
      forall j | lo <= j < hi + 1 ensures runs[j].start != x { JoinedSpan(runs, n, i, j); }
    }
    forall x | x in free && Elsewhere(runs, lo, hi + 1, x) ensures !(f.start <= x < f.End()) {
      assert FreeStart(runs, x);
      var j :| 0 <= j < |runs| && runs[j].Free? && runs[j].start == x;
      TilesAt(runs, 0, n, j);
      if j < lo { TilesOrder(runs, 0, n, j, lo); }
      if j > hi { TilesOrder(runs, 0, n, hi, j); }
    }
  }

  lemma {:induction false} JoinedSpan(runs: seq<Run>, n: nat, i: nat, j: nat)
    requires Tiles(runs, 0, n) && i < |runs| && !runs[i].Free? && JoinLow(runs, i) <= j <= JoinHigh(runs, i)
    ensures Joined(runs, i).start <= runs[j].start < Joined(runs, i).End()
  {
    JoinedBounds(runs, n, i);
    TilesAt(runs, 0, n, j);
    var lo, hi := JoinLow(runs, i), JoinHigh(runs, i);
    if lo < j { TilesOrder(runs, 0, n, lo, j); TilesAt(runs, 0, n, lo); }
    if j < hi { TilesOrder(runs, 0, n, j, hi); TilesAt(runs, 0, n, hi); }
  }

  /** The records once run `i` and its free neighbours are one run at the front of the
      free list, the rest of which is `free3`. */
  ghost predicate GivenBack(R: Recs, R': Recs, head: int, free: seq<int>, free3: seq<int>, f: Run) {
    && f.Free? && f.len >= 1 && f.End() <= head < |R'|
    && Ring(R', head, [f.start] + free3, Page) && Apart(R, R', head, free, f.start, f.End())
    && R'[f.start].slab == f.len && Zero(R', f.start + 1, f.End()) && (f.len > 1 ==> R'[f.End() - 1].prev == f.start)
    && (forall z :: z in free3 ==> z in free && !(f.start <= z < f.End()))
    && (forall z :: z in free && !(f.start <= z < f.End()) ==> z in free3)
  }

  lemma {:induction false} ReleaseEffect(lay: Layout, R: Recs, R': Recs, bits: seq<seq<Word>>, runs: seq<Run>,
      free: seq<int>, free3: seq<int>, f: Run)
    requires lay.Ok() && |R| == lay.Records() && |bits| == lay.n
    requires Tiles(runs, 0, lay.n) && FreeList(runs, free)
    requires GivenBack(R, R', lay.FreeHead(), free, free3, f) && f.End() <= lay.n
    ensures Quiet(lay, R, R', bits, bits, f.start, f.End(), free, [])
    ensures Encoded(lay, R', bits, [f])
    ensures forall s :: 0 <= s < lay.Slots() ==> R'[lay.SlotHead(s)].next == R[lay.SlotHead(s)].next
  {
    forall s | 0 <= s < lay.Slots() ensures R'[lay.SlotHead(s)].next == R[lay.SlotHead(s)].next {
      HeadsNotListed(lay, runs, free, lay.SlotHead(s));
    }
    assert RunOk(lay.n, lay.minShift, R', bits, f);
    forall a | 0 <= a < |[f]| ensures EncodedAt(lay, R', bits, [f], a) { assert [f][a] == f; }
  }

  lemma {:induction false} JoinedWhole(runs: seq<Run>, i: nat)
    requires i < |runs| && runs[i].Busy?
    ensures forall j :: JoinLow(runs, i) <= j < JoinHigh(runs, i) + 1 ==> !runs[j].Chunks?
  {
  }

  /** Giving back run `i` keeps everything that holds between calls. */
  lemma {:induction false} ReleaseSound(lay: Layout, R: Recs, R': Recs, bits: seq<seq<Word>>, runs: seq<Run>,
      free: seq<int>, slots: seq<seq<int>>, free3: seq<int>, i: nat)
    requires Sound(lay, R, bits, runs, free, slots) && i < |runs| && runs[i].Busy?
    requires GivenBack(R, R', lay.FreeHead(), free, free3, Joined(runs, i))
    ensures Sound(lay, R', bits, Released(runs, i), [Joined(runs, i).start] + free3, slots)
  {
    var f, lo, hi := Joined(runs, i), JoinLow(runs, i), JoinHigh(runs, i);
    JoinedBounds(runs, lay.n, i);
    ReleaseEffect(lay, R, R', bits, runs, free, free3, f);
    ReleasedTiles(runs, lay.n, i);
    ReleaseFreeChange(lay.n, runs, free, free3, i);
    JoinedWhole(runs, i);
    forall s | 0 <= s < |slots|
      ensures Ring(R', lay.SlotHead(s), slots[s], KindOf(lay.minShift + s))
      ensures SlotChange(lay.minShift, runs, lo, hi + 1, [f], s, slots[s], slots[s])
    {
      WholePageSlot(lay, R, R', bits, runs, free, s, slots[s], lo, hi + 1, [f]);
    }
    SoundSplice(lay, R, R', bits, bits, runs, free, slots, 0, [], lo, hi + 1, [f], [f.start] + free3, slots);
  }

  // ---- The tests that find the neighbours ----

  /** The record after the run is the start of a free run exactly if it has a `next`. */
  lemma {:induction false} RightTest(lay: Layout, R: Recs, R0: Recs, bits: seq<seq<Word>>, runs: seq<Run>,
      free: seq<int>, i: nat)
    requires lay.Ok() && |R| == lay.Records() && |bits| == lay.n
    requires Tiles(runs, 0, lay.n) && FreeList(runs, free) && Ring(R, lay.FreeHead(), free, Page)
    requires Encoded(lay, R, bits, runs) && i < |runs| && runs[i].Busy?
    requires Cleared(R, R0, runs[i].start, runs[i].len)
    ensures runs[i].End() <= lay.n
    ensures runs[i].End() == lay.n ==> !FreeAt(runs, i + 1)
    ensures runs[i].End() < lay.n ==>
      var y := runs[i].End();
      (R0[y].kind == Page && R0[y].next != NULL <==> FreeAt(runs, i + 1))
  {
    TilesAt(runs, 0, lay.n, i);
    if i + 1 < |runs| {
      TilesAt(runs, 0, lay.n, i + 1);
      TilesOrder(runs, 0, lay.n, i, i + 1);
      assert EncodedAt(lay, R, bits, runs, i + 1);
      if runs[i + 1].Free? {
        assert FreeIn(runs, i + 1, free);
        assert LinkedAt(R, lay.FreeHead(), free, Page, IndexOf(free, runs[i + 1].start));
      }
    }
  }

  /** Where the code looks for the run before `x`: at the record before it, or where that
      record points back to. */
  function Before(R: Recs, x: int): int
    requires 0 < x <= |R|
  {
    if R[x - 1].slab == 0 then R[x - 1].prev else x - 1
  }

  lemma {:induction false} LeftTest(lay: Layout, R: Recs, R2: Recs, bits: seq<seq<Word>>, runs: seq<Run>,
      free: seq<int>, free2: seq<int>, i: nat, hi: int)
    requires lay.Ok() && |R| == lay.Records() && |bits| == lay.n
    requires Tiles(runs, 0, lay.n) && FreeList(runs, free)
    requires Encoded(lay, R, bits, runs) && i < |runs| && runs[i].Busy?
    requires RightDone(R, R2, lay.FreeHead(), free, free2, runs[i].start, hi)
    ensures runs[i].start == 0 ==> !FreeAt(runs, i - 1)
    ensures runs[i].start > 0 ==>
      var x := runs[i].start;
      if R2[x - 1].kind == Page then
        var p := Before(R2, x);
        0 <= p < x && (R2[p].next != NULL <==> FreeAt(runs, i - 1)) && (FreeAt(runs, i - 1) ==> p == runs[i - 1].start)
      else !FreeAt(runs, i - 1)
  {
    var x := runs[i].start;
    TilesAt(runs, 0, lay.n, i);
    if i > 0 {
      TilesAt(runs, 0, lay.n, i - 1);
      TilesOrder(runs, 0, lay.n, i - 1, i);
      assert EncodedAt(lay, R, bits, runs, i - 1);
      LeftTestAt(lay, R, R2, bits, runs, free, free2, i, hi);
    } else {
      assert runs[..0] == [];
    }
  }

  lemma {:induction false} LeftTestAt(lay: Layout, R: Recs, R2: Recs, bits: seq<seq<Word>>, runs: seq<Run>,
      free: seq<int>, free2: seq<int>, i: nat, hi: int)
    requires lay.Ok() && |R| == lay.Records() && |bits| == lay.n
    requires Tiles(runs, 0, lay.n) && FreeList(runs, free)
    requires 0 < i < |runs| && runs[i].Busy? && runs[i - 1].End() == runs[i].start && runs[i - 1].Len() >= 1
    requires RunOk(lay.n, lay.minShift, R, bits, runs[i - 1]) && runs[i].End() <= lay.n && runs[i].Len() >= 1
    requires RightDone(R, R2, lay.FreeHead(), free, free2, runs[i].start, hi)
    ensures var x := runs[i].start;
      if R2[x - 1].kind == Page then
        var p := Before(R2, x);
        0 <= p < x && (R2[p].next != NULL <==> FreeAt(runs, i - 1)) && (FreeAt(runs, i - 1) ==> p == runs[i - 1].start)
      else !FreeAt(runs, i - 1)
  {
    var x, r := runs[i].start, runs[i - 1];
    InnerNotListed(lay.n, runs, free, i - 1);
    if r.Free? {
      assert FreeIn(runs, i - 1, free);
      assert r.start in free && r.start in free2;
      InnerLinks(R2, lay.FreeHead(), free2, Page, r.start);
      assert R2[r.start].slab == r.len;
      if r.len > 1 {
        assert r.start < x - 1 && x - 1 !in free;
        assert R2[x - 1] == R[x - 1];
      }
    } else {
      assert R2[x - 1] == R[x - 1];
    }
  }

  /** Everything `Sound` says about whole pages. */
  ghost predicate PagesSound(lay: Layout, R: Recs, bits: seq<seq<Word>>, runs: seq<Run>, free: seq<int>) {
    && lay.Ok() && |R| == lay.Records() && |bits| == lay.n
    && Tiles(runs, 0, lay.n) && FreeList(runs, free) && Ring(R, lay.FreeHead(), free, Page)
    && Encoded(lay, R, bits, runs)
  }

  /** The end of the run that starts with run `i` once the run to the right has joined. */
  function RightEnd(runs: seq<Run>, i: nat): nat
    requires i < |runs|
  {
    if FreeAt(runs, i + 1) then runs[i + 1].End() else runs[i].End()
  }

  /** No inner page of the run, nor of the free run behind it, is listed. */
  lemma {:induction false} RightFacts(lay: Layout, R: Recs, bits: seq<seq<Word>>, runs: seq<Run>, free: seq<int>,
      i: nat)
    requires PagesSound(lay, R, bits, runs, free) && i < |runs| && runs[i].Busy? && FreeAt(runs, i + 1)
    ensures var x, k, len := runs[i].start, runs[i].len, runs[i + 1].len;
      && 0 <= x && 1 <= k && 1 <= len && x + k + len <= lay.FreeHead() < W64 && runs[i + 1].End() == x + k + len
      && x + k in free && R[x + k].slab == len && Zero(R, x + k + 1, x + k + len)
      && forall z :: x <= z < x + k + len && z != x + k ==> z !in free
  {
    TilesAt(runs, 0, lay.n, i);
    TilesAt(runs, 0, lay.n, i + 1);
    TilesOrder(runs, 0, lay.n, i, i + 1);
    assert EncodedAt(lay, R, bits, runs, i) && EncodedAt(lay, R, bits, runs, i + 1);
    FreeRunFacts(lay, R, bits, runs, free, i);
    FreeRunFacts(lay, R, bits, runs, free, i + 1);
  }

  lemma {:induction false} RightMerged(lay: Layout, R: Recs, R0: Recs, bits: seq<seq<Word>>, runs: seq<Run>,
      free: seq<int>, i: nat)
    requires PagesSound(lay, R, bits, runs, free) && i < |runs| && runs[i].Busy? && FreeAt(runs, i + 1)
    requires Cleared(R, R0, runs[i].start, runs[i].len)
    ensures var x, y := runs[i].start, runs[i].End();
      && y in free && x < y && 0 <= R0[y].prev < |R| && 0 <= R0[y].next < |R| && R0[y].prev != y
      && R0[x].slab + R0[y].slab < W64
      && RightDone(R, JoinRight(R0, x, y), lay.FreeHead(), free, Minus(free, y), x, RightEnd(runs, i))
  {
    var x, k := runs[i].start, runs[i].len;
    RightFacts(lay, R, bits, runs, free, i);
    ReleaseRight(R, R0, lay.FreeHead(), free, x, k, runs[i + 1].len);
    InnerLinks(R, lay.FreeHead(), free, Page, x + k);
  }

  lemma {:induction false} RightAlone(lay: Layout, R: Recs, R0: Recs, bits: seq<seq<Word>>, runs: seq<Run>,
      free: seq<int>, i: nat)
    requires PagesSound(lay, R, bits, runs, free) && i < |runs| && runs[i].Busy?
    requires Cleared(R, R0, runs[i].start, runs[i].len)
    ensures RightDone(R, R0, lay.FreeHead(), free, free, runs[i].start, runs[i].End())
  {
    TilesAt(runs, 0, lay.n, i);
    assert EncodedAt(lay, R, bits, runs, i);
    FreeRunFacts(lay, R, bits, runs, free, i);
    ReleaseAlone(R, R0, lay.FreeHead(), free, runs[i].start, runs[i].len);
  }

  lemma {:induction false} RightStep(lay: Layout, R: Recs, R0: Recs, bits: seq<seq<Word>>, runs: seq<Run>,
      free: seq<int>, i: nat)
    requires PagesSound(lay, R, bits, runs, free) && i < |runs| && runs[i].Busy?
    requires Cleared(R, R0, runs[i].start, runs[i].len)
    ensures var x, y := runs[i].start, runs[i].End();
      if FreeAt(runs, i + 1) then
        && y in free && x < y && 0 <= R0[y].prev < |R| && 0 <= R0[y].next < |R| && R0[y].prev != y
        && R0[x].slab + R0[y].slab < W64
        && RightDone(R, JoinRight(R0, x, y), lay.FreeHead(), free, Minus(free, y), x, RightEnd(runs, i))
      else RightDone(R, R0, lay.FreeHead(), free, free, x, y)
  {
    if FreeAt(runs, i + 1) { RightMerged(lay, R, R0, bits, runs, free, i); } else {
      RightAlone(lay, R, R0, bits, runs, free, i);
    }
  }

  lemma {:induction false} LeftStep(lay: Layout, R: Recs, R2: Recs, bits: seq<seq<Word>>, runs: seq<Run>,
      free: seq<int>, free2: seq<int>, i: nat, hi: int)
    requires PagesSound(lay, R, bits, runs, free) && FreeAt(runs, i - 1) && i < |runs| && runs[i].Busy?
    requires RightDone(R, R2, lay.FreeHead(), free, free2, runs[i].start, hi)
    ensures var x, l := runs[i].start, runs[i - 1].start;
      && l < x && l in free2
      && 0 <= R2[l].prev < |R| && 0 <= R2[l].next < |R| && R2[l].prev != l && R2[x].slab + R2[l].slab < W64
      && RightDone(R, JoinLeft(R2, l, x), lay.FreeHead(), free, Minus(free2, l), l, hi)
  {
    var x, l := runs[i].start, runs[i - 1].start;
    TilesAt(runs, 0, lay.n, i - 1);
    TilesOrder(runs, 0, lay.n, i - 1, i);
    assert EncodedAt(lay, R, bits, runs, i - 1);
    FreeRunFacts(lay, R, bits, runs, free, i - 1);
    ReleaseLeft(R, R2, lay.FreeHead(), free, free2, l, x, hi);
    InnerLinks(R2, lay.FreeHead(), free2, Page, l);
  }

  lemma {:induction false} CloseStep(R: Recs, R3: Recs, head: int, free: seq<int>, free3: seq<int>, f: Run)
    requires f.Free? && f.len >= 1 && RightDone(R, R3, head, free, free3, f.start, f.End())
    ensures 0 <= R3[head].next < |R3|
    ensures GivenBack(R, Closed(R3, head, f.start, f.len), head, free, free3, f)
  {
    ReleaseClosed(R, R3, head, free, free3, f.start, f.End());
    assert f.End() - f.start == f.len;
  }

  // ---- The tests and the joins together ----

  /** The free run to the right of the pages below `y`, as the code finds it. */
  function RightJoin(R: Recs, n: nat, y: nat): int
    requires n <= |R|
  {
    if y < n && R[y].kind == Page && R[y].next != NULL then y else NULL
  }

  /** The free run to the left of page `x`, as the code finds it. */
  function LeftJoin(R: Recs, x: nat): int
    requires x < |R|
  {
    if x > 0 && R[x - 1].kind == Page then
      var p := Before(R, x);
      if 0 <= p < |R| && R[p].next != NULL then p else NULL
    else NULL
  }

  /** The records `x` and `y` of two runs can be joined. */
  predicate Joinable(R: Recs, x: int, y: int) {
    && 0 <= x < |R| && 0 <= y < |R| && x != y && R[x].slab + R[y].slab < W64
    && 0 <= R[y].prev < |R| && 0 <= R[y].next < |R| && R[y].prev != y
  }

  function AfterRight(R: Recs, x: int, y: int): Recs
    requires y != NULL ==> Joinable(R, x, y)
  {
    if y == NULL then R else JoinRight(R, x, y)
  }

  function AfterLeft(R: Recs, l: int, x: int): Recs
    requires l != NULL ==> Joinable(R, x, l)
  {
    if l == NULL then R else JoinLeft(R, l, x)
  }

  lemma {:induction false} RightPlan(lay: Layout, R: Recs, R0: Recs, bits: seq<seq<Word>>, runs: seq<Run>,
      free: seq<int>, i: nat) returns (free2: seq<int>)
    requires PagesSound(lay, R, bits, runs, free) && i < |runs| && runs[i].Busy?
    requires Cleared(R, R0, runs[i].start, runs[i].len)
    ensures runs[i].End() <= lay.n && runs[i].len >= 1
    ensures var x := runs[i].start;
      var y := RightJoin(R0, lay.n, runs[i].End());
      && (y != NULL ==> Joinable(R0, x, y))
      && RightDone(R, AfterRight(R0, x, y), lay.FreeHead(), free, free2, x, RightEnd(runs, i))
      && RightEnd(runs, i) == runs[i].End() + (if y == NULL then 0 else R0[y].slab)
  {
    TilesAt(runs, 0, lay.n, i);
    RightTest(lay, R, R0, bits, runs, free, i);
    RightStep(lay, R, R0, bits, runs, free, i);
    free2 := if FreeAt(runs, i + 1) then Minus(free, runs[i].End()) else free;
  }

  lemma {:induction false} LeftPlan(lay: Layout, R: Recs, R2: Recs, bits: seq<seq<Word>>, runs: seq<Run>,
      free: seq<int>, free2: seq<int>, i: nat) returns (free3: seq<int>)
    requires PagesSound(lay, R, bits, runs, free) && i < |runs| && runs[i].Busy?
    requires RightDone(R, R2, lay.FreeHead(), free, free2, runs[i].start, RightEnd(runs, i))
    ensures var x, f := runs[i].start, Joined(runs, i);
      && x < |R2| && (x > 0 && R2[x - 1].kind == Page ==> 0 <= Before(R2, x) < |R2|)
      && var l := LeftJoin(R2, x);
      && (l != NULL ==> Joinable(R2, x, l))
      && RightDone(R, AfterLeft(R2, l, x), lay.FreeHead(), free, free3, f.start, f.End())
      && f.start == (if l == NULL then x else l) && f.End() == RightEnd(runs, i) && f.End() <= lay.n
      && f.len == RightEnd(runs, i) - x + (if l == NULL then 0 else R2[l].slab)
      && f.len >= 1
  {
    JoinedBounds(runs, lay.n, i);
    TilesAt(runs, 0, lay.n, i);
    LeftTest(lay, R, R2, bits, runs, free, free2, i, RightEnd(runs, i));
    free3 := free2;
    if FreeAt(runs, i - 1) {
      LeftStep(lay, R, R2, bits, runs, free, free2, i, RightEnd(runs, i));
      LeftLength(lay, R, R2, bits, runs, free, free2, i);
      free3 := Minus(free2, runs[i - 1].start);
    }
  }

  lemma {:induction false} LeftLength(lay: Layout, R: Recs, R2: Recs, bits: seq<seq<Word>>, runs: seq<Run>,
      free: seq<int>, free2: seq<int>, i: nat)
    requires PagesSound(lay, R, bits, runs, free) && FreeAt(runs, i - 1) && i < |runs| && runs[i].Busy?
    requires RightDone(R, R2, lay.FreeHead(), free, free2, runs[i].start, RightEnd(runs, i))
    ensures runs[i - 1].start < |R2| && R2[runs[i - 1].start].slab == runs[i - 1].len
  {
    TilesAt(runs, 0, lay.n, i - 1);
    TilesOrder(runs, 0, lay.n, i - 1, i);
    assert EncodedAt(lay, R, bits, runs, i - 1);
  }

  /** The tests of `ngx_slab_free_pages` look at records there are. */
  predicate CanJoinRight(n: nat, R: Recs, x: int, k: nat) {
    && 0 <= x && 1 <= k && x + k <= n < |R|
    && var y := RightJoin(R, n, x + k);
       y != NULL ==> Joinable(R, x, y)
  }

  predicate CanJoinLeft(R: Recs, x: int) {
    && 0 <= x < |R| && (x > 0 && R[x - 1].kind == Page ==> 0 <= Before(R, x) < |R|)
    && var l := LeftJoin(R, x);
       l != NULL ==> Joinable(R, x, l)
  }

  predicate CanClose(head: int, R: Recs, x: int, total: nat) {
    0 <= x && 1 <= total && x + total <= head < |R| && 0 <= R[head].next < |R|
  }

  /** Records, start and length once the run to the right has joined, if it is free ... */
  function RightJoined(n: nat, R: Recs, x: int, k: nat): (Recs, nat)
    requires CanJoinRight(n, R, x, k)
  {
    var y := RightJoin(R, n, x + k);
    (AfterRight(R, x, y), k + if y == NULL then 0 else R[y].slab)
  }

  /** ... and the run to the left. */
  function LeftJoined(R: Recs, x: int, k: nat): (Recs, int, nat)
    requires CanJoinLeft(R, x)
  {
    var l := LeftJoin(R, x);
    (AfterLeft(R, l, x), if l == NULL then x else l, k + if l == NULL then 0 else R[l].slab)
  }

  lemma {:induction false} RightPart(lay: Layout, R: Recs, R0: Recs, bits: seq<seq<Word>>, runs: seq<Run>,
      free: seq<int>, i: nat) returns (free2: seq<int>)
    requires PagesSound(lay, R, bits, runs, free) && i < |runs| && runs[i].Busy?
    requires Cleared(R, R0, runs[i].start, runs[i].len)
    ensures CanJoinRight(lay.n, R0, runs[i].start, runs[i].len)
    ensures runs[i].start + RightJoined(lay.n, R0, runs[i].start, runs[i].len).1 == RightEnd(runs, i)
    ensures RightDone(R, RightJoined(lay.n, R0, runs[i].start, runs[i].len).0, lay.FreeHead(), free, free2,
      runs[i].start, RightEnd(runs, i))
  {
    free2 := RightPlan(lay, R, R0, bits, runs, free, i);
  }

  lemma {:induction false} LeftPart(lay: Layout, R: Recs, R2: Recs, bits: seq<seq<Word>>, runs: seq<Run>,
      free: seq<int>, free2: seq<int>, i: nat, k2: nat) returns (free3: seq<int>)
    requires PagesSound(lay, R, bits, runs, free) && i < |runs| && runs[i].Busy?
    requires RightDone(R, R2, lay.FreeHead(), free, free2, runs[i].start, RightEnd(runs, i))
      && runs[i].start + k2 == RightEnd(runs, i)
    ensures CanJoinLeft(R2, runs[i].start)
    ensures LeftJoined(R2, runs[i].start, k2).1 == Joined(runs, i).start
      && LeftJoined(R2, runs[i].start, k2).2 == Joined(runs, i).len
    ensures Joined(runs, i).len >= 1
    ensures RightDone(R, LeftJoined(R2, runs[i].start, k2).0, lay.FreeHead(), free, free3, Joined(runs, i).start,
      Joined(runs, i).End())
  {
    free3 := LeftPlan(lay, R, R2, bits, runs, free, free2, i);
  }

  /** Everything after the run to the right has joined. */
  ghost predicate LeftAndClosed(lay: Layout, R: Recs, R2: Recs, runs: seq<Run>, free: seq<int>, free3: seq<int>,
      i: nat, k2: nat)
    requires i < |runs|
  {
    && CanJoinLeft(R2, runs[i].start)
    && var (R3, first, total) := LeftJoined(R2, runs[i].start, k2);
    && CanClose(lay.FreeHead(), R3, first, total)
    && GivenBack(R, Closed(R3, lay.FreeHead(), first, total), lay.FreeHead(), free, free3, Joined(runs, i))
  }

  lemma {:induction false} ClosePart(lay: Layout, R: Recs, R2: Recs, bits: seq<seq<Word>>, runs: seq<Run>,
      free: seq<int>, free2: seq<int>, i: nat, k2: nat) returns (free3: seq<int>)
    requires PagesSound(lay, R, bits, runs, free) && i < |runs| && runs[i].Busy?
    requires RightDone(R, R2, lay.FreeHead(), free, free2, runs[i].start, RightEnd(runs, i))
      && runs[i].start + k2 == RightEnd(runs, i)
    ensures LeftAndClosed(lay, R, R2, runs, free, free3, i, k2)
  {
    free3 := LeftPart(lay, R, R2, bits, runs, free, free2, i, k2);
    CloseStep(R, LeftJoined(R2, runs[i].start, k2).0, lay.FreeHead(), free, free3, Joined(runs, i));
  }

  lemma {:induction false} JoinPlan(lay: Layout, R: Recs, R0: Recs, bits: seq<seq<Word>>, runs: seq<Run>,
      free: seq<int>, i: nat) returns (free3: seq<int>)
    requires PagesSound(lay, R, bits, runs, free) && i < |runs| && runs[i].Busy?
    requires Cleared(R, R0, runs[i].start, runs[i].len)
    ensures CanJoinRight(lay.n, R0, runs[i].start, runs[i].len)
    ensures var (R2, k2) := RightJoined(lay.n, R0, runs[i].start, runs[i].len);
      LeftAndClosed(lay, R, R2, runs, free, free3, i, k2)
  {
    var free2 := RightPart(lay, R, R0, bits, runs, free, i);
    var p := RightJoined(lay.n, R0, runs[i].start, runs[i].len);
    free3 := ClosePart(lay, R, p.0, bits, runs, free, free2, i, p.1);
  }
}
