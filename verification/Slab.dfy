/** The slab allocator of ngx_slab.c. */
module Slab {
  import opened Words
  import opened Bits
  import opened SlabRuns
  import opened SlabLists
  import opened SlabState
  import opened SlabPages
  import opened SlabRelease
  import opened SlabChunks
  import opened SlabSteps
  import opened SlabBlocks
  import opened SlabStats
  import opened SlabInit

  const MAX_SIZE: nat := 2048

  /** What `ngx_slab_free_locked` says. */
  /** What becomes of a pointer that is given back; `NoRecord`: memory that is no page record
      is taken for one. */
  datatype Status = Freed | Outside | WrongChunk | ChunkAlreadyFree | PageAlreadyFree | WrongPage | NoRecord

  /** The pages for a request larger than `MAX_SIZE`. */
  function PagesFor(size: nat): nat {
    size / PAGE_SIZE + if size % PAGE_SIZE != 0 then 1 else 0
  }

  /** The size class of a request: the smallest power of two that is large enough. */
  ghost predicate ShiftFor(minShift: nat, size: nat, shift: nat) {
    minShift <= shift < PAGE_SHIFT && size <= Size(shift) && (shift > minShift ==> Size(shift - 1) < size)
  }

  /** What a request is granted. */
  ghost predicate Granted(minShift: nat, size: nat, granted: nat) {
    if size > MAX_SIZE then granted == PagesFor(size) * PAGE_SIZE
    else exists shift: nat :: ShiftFor(minShift, size, shift) && granted == Size(shift)
  }

  /** ... is enough, and less than twice as much or the smallest chunk, or less than a page more. */
  lemma {:induction false} GrantedEnough(minShift: nat, size: nat, granted: nat)
    requires 3 <= minShift < PAGE_SHIFT && Granted(minShift, size, granted)
    ensures size <= granted
    ensures granted < 2 * size || granted == Size(minShift) || (size > MAX_SIZE && granted < size + PAGE_SIZE)
  {
    if size <= MAX_SIZE {
      var shift: nat :| ShiftFor(minShift, size, shift) && granted == Size(shift);
      if shift > minShift { assert Size(shift) == 2 * Size(shift - 1); }
    }
  }

  /** There is no memory for a request: no free run of enough pages; or no free page at
      all and no page of the size class with a chunk to give. */
  ghost predicate NoRoom(minShift: nat, runs: seq<Run>, size: nat) {
    if size > MAX_SIZE then
      forall a :: 0 <= a < |runs| && runs[a].Free? ==> runs[a].len < PagesFor(size)
    else
      && (forall a :: 0 <= a < |runs| ==> !runs[a].Free?)
      && forall a, slot: nat :: 0 <= a < |runs| && ShiftFor(minShift, size, minShift + slot) ==>
        !OpenPage(minShift, runs[a], slot)
  }

  /** The counters of requests and failures of slot `s`, after a request of `size`. */
  ghost predicate RequestCounted(minShift: nat, size: nat, before: Stat, after: Stat, s: nat, failed: bool) {
    var own := size <= MAX_SIZE && ShiftFor(minShift, size, minShift + s);
    && after.reqs == before.reqs + (if own then 1 else 0)
    && after.fails == before.fails + (if own && failed then 1 else 0)
  }

  /** A size has one class. */
  lemma {:induction false} ShiftUnique(minShift: nat, size: nat, a: nat, b: nat)
    requires ShiftFor(minShift, size, a) && ShiftFor(minShift, size, b)
    ensures a == b
  {
    SizeMono(a, b);
    SizeMono(b, a);
  }

  lemma {:induction false} SizeMono(a: nat, b: nat)
    requires a <= PAGE_SHIFT && b <= PAGE_SHIFT
    ensures a < b ==> Size(a) <= Size(b - 1)
  {
    if a < b {
      SizeIsPow2(a);
      SizeIsPow2(b - 1);
      Pow2Mono(a, b - 1);
    }
  }

  /** 1 << shift */
  lemma {:induction false} SizeIsPow2(shift: nat)
    requires shift <= PAGE_SHIFT
    ensures Size(shift) == Pow2(shift)
  {
    assert Pow2(4) == 16 && Pow2(8) == 256 && Pow2(12) == 4096;
  }

  lemma {:induction false} ShiftFits(minShift: nat, size: nat, shift: nat)
    requires 3 <= minShift < PAGE_SHIFT && Size(minShift) < size <= MAX_SIZE
    requires shift >= 1 && Shr(size - 1, shift) == 0 && (shift > 1 ==> Shr(size - 1, shift - 1) != 0)
    ensures ShiftFor(minShift, size, shift)
  {
    SizeIsPow2(minShift);
    ShrZero(size - 1, shift);
    ShrZero(size - 1, shift - 1);
    if shift <= minShift { Pow2Mono(shift, minShift); }
    SizeIsPow2(PAGE_SHIFT - 1);
    if shift >= PAGE_SHIFT { Pow2Mono(PAGE_SHIFT - 1, shift - 1); }
    SizeIsPow2(shift);
    SizeIsPow2(shift - 1);
  }

  /** How many page records fit behind the slots and their statistics, where the pages start,
      and the bytes from there to the end of the pool. */
  datatype Division = Division(pages: int, start: nat, end: int)

  const REC_SIZE := 24
  const STAT_SIZE := 32

  function Room(minShift: nat, base: nat, limit: nat): Division
    requires minShift < PAGE_SHIFT
  {
    var slots := PAGE_SHIFT - minShift;
    var p := base + slots * (REC_SIZE + STAT_SIZE);
    var pages := if limit < p then 0 else (limit - p) / (PAGE_SIZE + REC_SIZE);
    var start := (p + pages * REC_SIZE + PAGE_SIZE - 1) / PAGE_SIZE * PAGE_SIZE;
    Division(pages, start, limit - start)
  }

  /** The slots, of 24 bytes each with statistics of 32, the records, of 24 bytes each, and the
      pages, of 4096 bytes each, lie one behind the other from `base` to `limit`: there are as
      many records as fit with their pages, and the pages start at the first multiple of 4096
      behind them. */
  ghost predicate Divided(minShift: nat, base: nat, limit: nat, records: int, start: int) {
    && base + (12 - minShift) * 56 + records * 4120 <= limit < base + (12 - minShift) * 56 + (records + 1) * 4120
    && base + (12 - minShift) * 56 + records * 24 <= start < base + (12 - minShift) * 56 + records * 24 + 4096
    && start % 4096 == 0
  }

  /** Aligning the pages costs at most the last one. */
  lemma {:induction false} RoomForPages(minShift: nat, base: nat, limit: nat)
    requires minShift < PAGE_SHIFT
    ensures var d := Room(minShift, base, limit);
      && d.pages >= 0 && d.end == limit - d.start
      && (d.pages >= 1 ==> d.end > (d.pages - 1) * PAGE_SIZE && Divided(minShift, base, limit, d.pages, d.start))
  {
    var p := base + (PAGE_SHIFT - minShift) * (REC_SIZE + STAT_SIZE);
    var pages := if limit < p then 0 else (limit - p) / (PAGE_SIZE + REC_SIZE);
    var q := p + pages * REC_SIZE + PAGE_SIZE - 1;
    assert q - PAGE_SIZE < q / PAGE_SIZE * PAGE_SIZE <= q;
  }

  /** ngx_slab_pool_t.  Page records, slot heads and the head of the free list share one
      index space, so a pointer to any of them is an index. */
  class Pool {
    const lay: Layout
    const recs: array<Rec>
    const bits: array<seq<Word>>   // the bitmap words at the start of each page
    const stats: array<Stat>
    const end: nat       // pool->end - pool->start
    const records: nat   // the page records, of which the last may be for no page
    var pfree: nat

    ghost var runs: seq<Run>
    ghost var free: seq<int>
    ghost var slots: seq<seq<int>>

    ghost predicate Valid()
      reads this, recs, bits
    {
      && Sound(lay, recs[..], bits[..], runs, free, slots)
      && pfree == Sum(runs, FreePages)
    }

    /** There is a record for every page, and a page for every record but where there is no
        room for it. */
    predicate Sized() { lay.n == if end / PAGE_SIZE < records then end / PAGE_SIZE else records }

    /** A pointer in the pool, behind the page of the last record. */
    predicate Unrecorded(p: int) { 0 <= p <= end && records * PAGE_SIZE <= p }

    /** `ngx_slab_init` of a pool whose slots start at the address `base` and which ends at
        `limit`, for at least one page. */
    constructor (minShift: nat, base: nat, limit: nat)
      requires 3 <= minShift < PAGE_SHIFT && limit < HALF64
      requires var d := Room(minShift, base, limit); d.pages >= 1 && d.end >= PAGE_SIZE
      ensures Valid() && Balanced() && Sized() && fresh(recs) && fresh(bits) && fresh(stats)
      ensures lay.minShift == minShift && pfree == lay.n
      ensures Divided(minShift, base, limit, records, limit - end) && records <= lay.n + 1
      ensures forall b :: !Live(lay.minShift, runs, b)
    {
      var d := Room(minShift, base, limit);
      RoomForPages(minShift, base, limit);
      var pages, size := d.pages, d.end;
      records := pages;
      var m := pages - size / PAGE_SIZE;
      var n := if m > 0 then pages - m else pages;
      var l := Layout(n, minShift);
      lay, end, pfree := l, size, n;
      var slotCount := PAGE_SHIFT - minShift;
      var r := new Rec[n + slotCount + 1](_ => FREE_REC);
      recs := r;
      bits := new seq<Word>[n](_ => []);
      stats := new Stat[slotCount](_ => Stat(0, 0, 0, 0));
      runs, free, slots := [Run.Free(0, n)], [0], NoLists(slotCount);
      new;
      LinkSlots(r, n, slotCount);
      r[l.FreeHead()] := Rec(0, 0, NULL, Page);
      r[0] := Rec(n, l.FreeHead(), l.FreeHead(), Page);
      InitSound(l, recs[..], bits[..]);
      InitEmpty(l, stats[..]);
    }

    /** Every slot is an empty list. */
    static method LinkSlots(r: array<Rec>, n: nat, slotCount: nat)
      requires n + slotCount < r.Length && forall z :: 0 <= z < r.Length ==> r[z] == FREE_REC
      modifies r
      ensures forall z :: 0 <= z < r.Length ==>
        r[z] == if n <= z < n + slotCount then Rec(0, z, NULL, Page) else FREE_REC
    {
      var i := 0;
      while i < slotCount
        invariant 0 <= i <= slotCount
        invariant forall z :: 0 <= z < r.Length ==> r[z] == if n <= z < n + i then Rec(0, z, NULL, Page) else FREE_REC
      {
        r[n + i] := Rec(0, n + i, NULL, Page);
        i := i + 1;
      }
    }

    /** The statistics agree with the pages. */
    ghost predicate Balanced()
      reads this, stats
    {
      stats.Length == lay.Slots() && Counted(lay.minShift, runs, stats[..])
    }

    /** The free list entry `j` is the start of free run `i`. */
    lemma {:induction false} FreeRunOf(j: nat) returns (i: nat)
      requires Valid() && j < |free|
      ensures i < |runs| && runs[i].Free? && runs[i].start == free[j] && runs[i].End() <= lay.n
      ensures 0 <= free[j] < lay.n && recs[free[j]].slab == runs[i].len
      ensures recs[free[j]].next == Succ(lay.FreeHead(), free, j) && 0 <= recs[free[j]].next < recs.Length
      ensures 0 <= recs[free[j]].prev < recs.Length && recs[free[j]].prev != free[j]
    {
      assert free[j] in free;
      assert FreeStart(runs, free[j]);
      i :| 0 <= i < |runs| && runs[i].Free? && runs[i].start == free[j];
      TilesAt(runs, 0, lay.n, i);
      assert EncodedAt(lay, recs[..], bits[..], runs, i);
      assert LinkedAt(recs[..], lay.FreeHead(), free, Page, j);
      InnerLinks(recs[..], lay.FreeHead(), free, Page, free[j]);
    }

    /** The records of an allocation, from `from` on. */
    method FillBusy(page: int, k: nat)
      requires 0 <= page && 1 <= k < PAGE_START && page + k <= recs.Length
      modifies recs
      ensures Filled(old(recs[..]), recs[..], page, k)
    {
      recs[page] := Rec(PAGE_START + k, NULL, NULL, Page);
      var p := page + 1;
      while p < page + k
        invariant page + 1 <= p <= page + k
        invariant forall z :: 0 <= z < recs.Length ==>
          recs[z] == if page <= z < p then BusyRec(page, k, z) else old(recs[z])
      {
        recs[p] := Rec(BUSY, NULL, NULL, Page);
        p := p + 1;
      }
    }

    /** The links of `ngx_slab_alloc_pages`: cut `k` pages off the run at `page`. */
    method CutRun(page: int, k: nat)
      requires 0 <= page < recs.Length && 1 <= k <= recs[page].slab && page + recs[page].slab <= recs.Length
      requires 0 <= recs[page].prev < recs.Length && 0 <= recs[page].next < recs.Length
      requires recs[page].prev != page
      modifies recs
      ensures recs[..] == CutLinks(old(recs[..]), page, old(recs[page].slab), k)
    {
      var len := recs[page].slab;
      if len > k {
        recs[page + len - 1] := recs[page + len - 1].(prev := page + k, kind := Page);
        recs[page + k] := recs[page + k].(slab := len - k);
        recs[page + k] := recs[page + k].(next := recs[page].next, prev := recs[page].prev, kind := recs[page].kind);
        recs[recs[page].prev] := recs[recs[page].prev].(next := page + k);
        recs[recs[page].next] := recs[recs[page].next].(prev := page + k, kind := Page);
      } else {
        recs[recs[page].prev] := recs[recs[page].prev].(next := recs[page].next);
        recs[recs[page].next] := recs[recs[page].next].(prev := recs[page].prev, kind := recs[page].kind);
      }
    }

    /** The walk along the free list: the first run with at least `k` pages. */
    method FirstFit(k: nat) returns (page: int, ghost i: nat, ghost j: nat)
      requires Valid() && 1 <= k
      ensures page == NULL ==> forall a :: 0 <= a < |runs| && runs[a].Free? ==> runs[a].len < k
      ensures page != NULL ==>
        && i < |runs| && runs[i].Free? && runs[i].start == page && k <= runs[i].len && runs[i].End() <= lay.n
        && j < |free| && free[j] == page && recs[page].slab == runs[i].len
        && 0 <= recs[page].prev < recs.Length && recs[page].prev != page
        && 0 <= recs[page].next < recs.Length
        && forall a :: 0 <= a < j ==> 0 <= free[a] < recs.Length && recs[free[a]].slab < k
    {
      page := recs[lay.FreeHead()].next;
      i, j := 0, 0;
      while page != lay.FreeHead()
        invariant j <= |free| && page == Succ(lay.FreeHead(), free, j - 1)
        invariant forall a :: 0 <= a < j ==> 0 <= free[a] < recs.Length && recs[free[a]].slab < k
        decreases |free| - j
      {
        i := FreeRunOf(j);
        if recs[page].slab >= k { return; }
        page := recs[page].next;
        j := j + 1;
      }
      page := NULL;
      NoFit(k);
    }

    lemma {:induction false} NoFit(k: nat)
      requires Valid()
      requires forall a :: 0 <= a < |free| ==> 0 <= free[a] < recs.Length && recs[free[a]].slab < k
      ensures forall a :: 0 <= a < |runs| && runs[a].Free? ==> runs[a].len < k
    {
      forall a | 0 <= a < |runs| && runs[a].Free? ensures runs[a].len < k {
        assert EncodedAt(lay, recs[..], bits[..], runs, a);
        assert FreeIn(runs, a, free);
        assert runs[a].start in free;
        var b :| 0 <= b < |free| && free[b] == runs[a].start;
      }
    }

    /** `ngx_slab_alloc_pages`: the first run on the free list that is long enough; it fails
        only if there is none. */
    method AllocPages(k: nat) returns (page: int, ghost i: nat)
      requires Valid() && 1 <= k
      modifies this, recs
      ensures Valid()
      ensures page == NULL ==>
        && runs == old(runs) && free == old(free) && slots == old(slots) && recs[..] == old(recs[..])
          && pfree == old(pfree)
        && (forall a :: 0 <= a < |runs| && runs[a].Free? ==> runs[a].len < k)
        && (forall a: nat :: Interrupted(runs, a, k))
      ensures page != NULL ==>
        && i < |old(runs)| && old(runs)[i].Free? && old(runs)[i].start == page && k <= old(runs)[i].len
        && runs == Taken(old(runs), i, k) && slots == old(slots) && pfree == old(pfree) - k
        && 0 <= page < lay.n
    {
      ghost var j;
      page, i, j := FirstFit(k);
      if page != NULL {
        Take(page, k, i, j);
      } else {
        forall a: nat ensures Interrupted(runs, a, k) { NoStretch(runs, lay.n, a, k); }
      }
    }

    /** The allocation itself, from free run `i`, entry `j` of the free list. */
    method Take(page: int, k: nat, ghost i: nat, ghost j: nat)
      requires Valid() && j < |free| && free[j] == page && i < |runs| && runs[i].Free? && runs[i].start == page
      requires 1 <= k <= runs[i].len && runs[i].End() <= lay.n && recs[page].slab == runs[i].len
      requires 0 <= recs[page].prev < recs.Length && recs[page].prev != page
      requires 0 <= recs[page].next < recs.Length
      modifies this, recs
      ensures Valid() && runs == Taken(old(runs), i, k) && slots == old(slots) && pfree == old(pfree) - k
    {
      ghost var R, r := recs[..], runs[i];
      CutRun(page, k);
      FillBusy(page, k);
      TakeSound(lay, R, recs[..], bits[..], runs, free, slots, i, j, k);
      TakenTiles(runs, lay.n, i, k);
      pfree := pfree - k;
      free := CutList(free, j, page, r.len, k);
      runs := Taken(runs, i, k);
    }

    // ---- Giving pages back ----

    /** A record leaves its list: its neighbours are linked to each other. */
    method Unlink(x: int)
      requires 0 <= x < recs.Length && 0 <= recs[x].prev < recs.Length && 0 <= recs[x].next < recs.Length
      requires recs[x].prev != x
      modifies recs
      ensures recs[..] == Unlinked(old(recs[..]), x)
    {
      recs[recs[x].prev] := recs[recs[x].prev].(next := recs[x].next);
      recs[recs[x].next] := recs[recs[x].next].(prev := recs[x].prev, kind := recs[x].kind);
    }

    /** The page gets its length and the ones after it are cleared; a page on a slot list
        leaves it. */
    method ClearRun(page: int, k: nat)
      requires 0 <= page && 1 <= k < W64 && page + k <= recs.Length
      requires recs[page].next != NULL ==>
        && 0 <= recs[page].prev < recs.Length && 0 <= recs[page].next < recs.Length && recs[page].prev != page
        && k == 1 && recs[page].next != page
      modifies recs
      ensures var R := old(recs[..]); Cleared(if R[page].next != NULL then Unlinked(R, page) else R, recs[..], page, k)
    {
      recs[page] := recs[page].(slab := k);
      var p := page + 1;
      while p < page + k
        invariant page + 1 <= p <= page + k
        invariant recs[page] == old(recs[page]).(slab := k)
        invariant forall z :: 0 <= z < recs.Length && z != page ==>
          recs[z] == if page < z < p then FREE_REC else old(recs[z])
      {
        recs[p] := FREE_REC;
        p := p + 1;
      }
      if recs[page].next != NULL {
        Unlink(page);
      }
    }

    /** The free run at `join` becomes part of the run at `page`. */
    method Absorb(page: int, join: int)
      requires 0 <= page < recs.Length && 0 <= join < recs.Length && page != join
      requires recs[page].slab + recs[join].slab < W64
      requires 0 <= recs[join].prev < recs.Length && 0 <= recs[join].next < recs.Length && recs[join].prev != join
      modifies recs
      ensures recs[..] == JoinRight(old(recs[..]), page, join)
    {
      recs[page] := recs[page].(slab := recs[page].slab + recs[join].slab);
      Unlink(join);
      recs[join] := FREE_REC;
    }

    /** The run at `page` becomes part of the free run at `join`. */
    method GiveTo(join: int, page: int)
      requires 0 <= page < recs.Length && 0 <= join < recs.Length && page != join
      requires recs[page].slab + recs[join].slab < W64
      requires 0 <= recs[join].prev < recs.Length && 0 <= recs[join].next < recs.Length && recs[join].prev != join
      modifies recs
      ensures recs[..] == JoinLeft(old(recs[..]), join, page)
    {
      recs[join] := recs[join].(slab := recs[join].slab + recs[page].slab);
      Unlink(join);
      recs[page] := FREE_REC;
    }

    /** The tail of the run points back to its head, and the head goes on the free list. */
    method PutInFront(page: int, pages: nat)
      requires CanClose(lay.FreeHead(), recs[..], page, pages + 1)
      modifies recs
      ensures recs[..] == Closed(old(recs[..]), lay.FreeHead(), page, pages + 1)
    {
      if pages > 0 {
        recs[page + pages] := recs[page + pages].(prev := page, kind := Page);
      }
      recs[page] := recs[page].(prev := lay.FreeHead(), kind := Page);
      recs[page] := recs[page].(next := recs[lay.FreeHead()].next);
      recs[recs[page].next] := recs[recs[page].next].(prev := page, kind := Page);
      recs[lay.FreeHead()] := recs[lay.FreeHead()].(next := page);
    }

    /** The pool is in order if `page` is taken for an allocation of `k` pages, run `i`. */
    ghost predicate Detached(page: int, k: nat, i: nat)
      reads this, recs, bits
    {
      && 0 <= page < recs.Length && 1 <= k < PAGE_START
      && (recs[page].next != NULL ==>
            && 0 <= recs[page].prev < recs.Length && 0 <= recs[page].next < recs.Length
            && recs[page].prev != page && recs[page].next != page && k == 1)
      && Sound(lay, Plain(recs[..], page, k), bits[..], runs, free, slots)
      && i < |runs| && runs[i] == Busy(page, k)
      && pfree == Sum(runs, FreePages)
    }

    /** `ngx_slab_free_pages`: run `i` becomes free and joins its free neighbours. */
    method ReleasePages(page: int, k: nat, ghost i: nat)
      requires Detached(page, k, i)
      modifies this, recs
      ensures Valid() && runs == Released(old(runs), i) && slots == old(slots) && pfree == old(pfree) + k
    {
      ghost var N := Plain(recs[..], page, k);
      TilesAt(runs, 0, lay.n, i);
      pfree := pfree + k;
      ghost var free3 := JoinAndClose(page, k, N, i);
      ReleaseSound(lay, N, recs[..], bits[..], runs, free, slots, free3, i);
      ReleasedTiles(runs, lay.n, i);
      free := [Joined(runs, i).start] + free3;
      runs := Released(runs, i);
    }

    /** Pages that are given back at once leave the pool as it was. */
    method TakeAndGiveBack(k: nat) returns (page: int)
      requires Valid() && 1 <= k
      modifies this, recs
      ensures Valid() && runs == old(runs) && slots == old(slots) && pfree == old(pfree)
    {
      ghost var i;
      page, i := AllocPages(k);
      if page != NULL {
        TakenThenReleased(old(runs), lay.n, i, k);
        WholeDetached(page, i);
        ReleasePages(page, k, i);
      }
    }

    /** The records of the run cleared, joined with its free neighbours, and put on the
        free list. */
    method JoinAndClose(page: int, k: nat, ghost N: Recs, ghost i: nat) returns (ghost free3: seq<int>)
      requires 0 <= page < page + k <= lay.n && k < PAGE_START && lay.n < recs.Length
      requires recs[page].next != NULL ==>
        && 0 <= recs[page].prev < recs.Length && 0 <= recs[page].next < recs.Length
        && recs[page].prev != page && recs[page].next != page && k == 1
      requires N == Plain(recs[..], page, k) && i < |runs| && runs[i] == Busy(page, k)
      requires PagesSound(lay, N, bits[..], runs, free)
      modifies recs
      ensures GivenBack(N, recs[..], lay.FreeHead(), free, free3, Joined(runs, i))
    {
      ClearRun(page, k);
      free3 := JoinPlan(lay, N, recs[..], bits[..], runs, free, i);
      Join(page, k, N, i, free3);
    }

    /** The cleared run joined with its neighbours and put on the free list, which is then
        `free3` behind it. */
    method Join(page: int, k: nat, ghost N: Recs, ghost i: nat, ghost free3: seq<int>)
      requires 0 <= page && i < |runs| && runs[i] == Busy(page, k) && CanJoinRight(lay.n, recs[..], page, k)
      requires var (R2, k2) := RightJoined(lay.n, recs[..], page, k);
        LeftAndClosed(lay, N, R2, runs, free, free3, i, k2)
      modifies recs
      ensures GivenBack(N, recs[..], lay.FreeHead(), free, free3, Joined(runs, i))
    {
      var pages := JoinNext(page, k);
      var first;
      first, pages := JoinPrevious(page, pages);
      PutInFront(first, pages);
    }

    /** Join with the run to the right if that is free. */
    method JoinNext(page: int, k: nat) returns (pages: nat)
      requires CanJoinRight(lay.n, recs[..], page, k)
      modifies recs
      ensures (recs[..], pages + 1) == RightJoined(lay.n, old(recs[..]), page, k)
    {
      pages := k - 1;
      var join := page + k;
      if join < lay.n {
        if recs[join].kind == Page {
          if recs[join].next != NULL {
            pages := pages + recs[join].slab;
            Absorb(page, join);
          }
        }
      }
    }

    /** Join with the run to the left if that is free. */
    method JoinPrevious(page: int, pages0: nat) returns (first: int, pages: nat)
      requires CanJoinLeft(recs[..], page)
      modifies recs
      ensures (recs[..], first, pages + 1) == LeftJoined(old(recs[..]), page, pages0 + 1)
    {
      first, pages := page, pages0;
      if page > 0 {
        var join := page - 1;
        if recs[join].kind == Page {
          if recs[join].slab == 0 {
            join := recs[join].prev;
          }
          if recs[join].next != NULL {
            pages := pages + recs[join].slab;
            GiveTo(join, page);
            first := join;
          }
        }
      }
    }

    // ---- Chunks ----

    /** The bit scans: the lowest clear bit of `w` among the `cap` bits from `base` on. */
    method LowestClear(w: Word, base: nat, cap: nat) returns (i: nat)
      ensures i <= cap && (forall a :: base <= a < base + i ==> Bit(w, a))
      ensures i < cap ==> !Bit(w, base + i)
    {
      i := 0;
      while i < cap && Bit(w, base + i)
        invariant i <= cap && forall a :: base <= a < base + i ==> Bit(w, a)
      {
        i := i + 1;
      }
    }

    /** The smallest shift for a size above the smallest chunk. */
    method FindShift(size: nat) returns (shift: nat)
      requires lay.Ok() && size <= MAX_SIZE
      ensures ShiftFor(lay.minShift, size, shift)
    {
      SizeIsPow2(lay.minShift);
      if size > Size(lay.minShift) {
        shift := 1;
        var s := (size - 1) / 2;
        while s != 0
          invariant s == Shr(size - 1, shift) && shift >= 1
          invariant shift > 1 ==> Shr(size - 1, shift - 1) != 0
          decreases s
        {
          ShrNext(size - 1, shift);
          s := s / 2;
          shift := shift + 1;
        }
        ShiftFits(lay.minShift, size, shift);
      } else {
        shift := lay.minShift;
      }
    }

    /** Find the lowest chunk of a page that is not marked; `cap` if there is none. */
    method PickChunk(page: int, shift: nat) returns (j: nat)
      requires 0 <= page < recs.Length && page < bits.Length && 3 <= shift < PAGE_SHIFT
      requires shift < EXACT_SHIFT ==> |bits[page]| == MapWords(shift)
      ensures j <= Cap(shift) && (forall a :: 0 <= a < j ==> Marked(recs[page], bits[page], shift, a))
      ensures j < Cap(shift) ==> !Marked(recs[page], bits[page], shift, j)
      ensures shift < EXACT_SHIFT ==> forall a :: 0 <= a < j / 64 ==> bits[page][a] == BUSY
    {
      Classes(shift);
      if shift < EXACT_SHIFT {
        j := PickSmall(bits[page]);
      } else if shift == EXACT_SHIFT {
        j := LowestClear(recs[page].slab, 0, 64);
      } else {
        j := LowestClear(recs[page].slab, 32, Cap(shift));
      }
    }

    method PickSmall(bitmap: seq<Word>) returns (j: nat)
      ensures j <= 64 * |bitmap| && (forall a :: 0 <= a < j ==> Bit(bitmap[a / 64], a % 64))
      ensures j < 64 * |bitmap| ==> !Bit(bitmap[j / 64], j % 64)
      ensures forall a :: 0 <= a < j / 64 ==> bitmap[a] == BUSY
    {
      var n := 0;
      while n < |bitmap|
        invariant n <= |bitmap| && forall a :: 0 <= a < n ==> bitmap[a] == BUSY
      {
        if bitmap[n] != BUSY {
          WordFull(bitmap[n]);
          var i := LowestClear(bitmap[n], 0, 64);
          j := 64 * n + i;
          assert j / 64 == n && j % 64 == i;
          MarkedBelow(bitmap, n, i);
          return;
        }
        n := n + 1;
      }
      j := 64 * n;
      MarkedBelow(bitmap, n, 0);
    }

    static lemma {:induction false} MarkedBelow(bitmap: seq<Word>, n: nat, i: nat)
      requires n <= |bitmap| && i < 64 && (forall a :: 0 <= a < n ==> bitmap[a] == BUSY)
      requires i > 0 ==> n < |bitmap| && forall b :: 0 <= b < i ==> Bit(bitmap[n], b)
      ensures forall a :: 0 <= a < 64 * n + i ==> a / 64 < |bitmap| && Bit(bitmap[a / 64], a % 64)
    {
      forall a | 0 <= a < 64 * n + i ensures a / 64 < |bitmap| && Bit(bitmap[a / 64], a % 64) {
        if a / 64 < n { WordFull(BUSY); }
      }
    }

    /** Set the bit of chunk `j`. */
    method MarkChunk(page: int, shift: nat, j: nat)
      requires 0 <= page < recs.Length && page < bits.Length && 3 <= shift < PAGE_SHIFT && j < Cap(shift)
      requires shift < EXACT_SHIFT ==> |bits[page]| == MapWords(shift)
      modifies recs, bits
      ensures recs[..] == old(recs[..])[page := MarkRec(old(recs[page]), shift, j)]
      ensures bits[..] == old(bits[..])[page := MarkBits(old(bits[page]), shift, j)]
    {
      Classes(shift);
      if shift < EXACT_SHIFT {
        WordBit(bits[page][j / 64], j % 64);
        bits[page] := bits[page][j / 64 := SetBit(bits[page][j / 64], j % 64)];
      } else {
        var i := if shift == EXACT_SHIFT then j else 32 + j;
        WordBit(recs[page].slab, i);
        recs[page] := recs[page].(slab := SetBit(recs[page].slab, i));
      }
    }

    /** Clear the bit of chunk `j`. */
    method UnmarkChunk(page: int, shift: nat, j: nat)
      requires 0 <= page < recs.Length && page < bits.Length && 3 <= shift < PAGE_SHIFT && j < Cap(shift)
      requires shift < EXACT_SHIFT ==> |bits[page]| == MapWords(shift)
      modifies recs, bits
      ensures recs[..] == old(recs[..])[page := UnmarkRec(old(recs[page]), shift, j)]
      ensures bits[..] == old(bits[..])[page := UnmarkBits(old(bits[page]), shift, j)]
    {
      Classes(shift);
      if shift < EXACT_SHIFT {
        WordBit(bits[page][j / 64], j % 64);
        bits[page] := bits[page][j / 64 := ClearBit(bits[page][j / 64], j % 64)];
      } else {
        var i := if shift == EXACT_SHIFT then j else 32 + j;
        WordBit(recs[page].slab, i);
        recs[page] := recs[page].(slab := ClearBit(recs[page].slab, i));
      }
    }

    /** After chunk `j` has been marked: is the page full?  The words before that of `j` are
        known to be. */
    method NowFull(page: int, shift: nat, j: nat) returns (full: bool)
      requires 0 <= page < recs.Length && page < bits.Length && 3 <= shift < PAGE_SHIFT
      requires shift < EXACT_SHIFT ==> j / 64 < |bits[page]| && forall a :: 0 <= a < j / 64 ==> bits[page][a] == BUSY
      ensures full <==> AllMarked(recs[page], bits[page], shift)
    {
      if shift < EXACT_SHIFT {
        var n := j / 64;
        full := bits[page][n] == BUSY;
        if full {
          n := n + 1;
          while n < |bits[page]|
            invariant n <= |bits[page]| && forall a :: 0 <= a < n ==> bits[page][a] == BUSY
          {
            if bits[page][n] != BUSY { return false; }
            n := n + 1;
          }
        }
      } else if shift == EXACT_SHIFT {
        full := recs[page].slab == BUSY;
      } else {
        full := Shr(recs[page].slab, 32) == Pow2(Cap(shift)) - 1;
      }
    }

    /** Has the page no chunk out any more? */
    method NowEmpty(page: int, shift: nat) returns (empty: bool)
      requires 0 <= page < recs.Length && page < bits.Length && 3 <= shift < PAGE_SHIFT
      requires shift < EXACT_SHIFT ==> |bits[page]| == MapWords(shift)
      ensures empty <==> NoneMarked(recs[page], bits[page], shift)
    {
      Classes(shift);
      if shift < EXACT_SHIFT {
        if Shr(bits[page][0], Header(shift)) != 0 { return false; }
        var i := 1;
        while i < |bits[page]|
          invariant 1 <= i <= |bits[page]| && forall a :: 1 <= a < i ==> bits[page][a] == 0
        {
          if bits[page][i] != 0 { return false; }
          i := i + 1;
        }
        empty := true;
      } else if shift == EXACT_SHIFT {
        empty := recs[page].slab == 0;
      } else {
        empty := Shr(recs[page].slab, 32) == 0;
      }
    }

    /** A page that has become full leaves its list. */
    method LeaveList(page: int)
      requires 0 <= page < recs.Length && 0 <= recs[page].prev < recs.Length && 0 <= recs[page].next < recs.Length
      requires recs[page].prev != page
      modifies recs
      ensures recs[..] == TakenOff(old(recs[..]), page)
    {
      Unlink(page);
      recs[page] := recs[page].(next := NULL, prev := NULL);
    }

    /** A page that was full goes in front of its list. */
    method EnterList(page: int, head: int, kind: Kind)
      requires 0 <= page < recs.Length && 0 <= head < recs.Length && page != head && 0 <= recs[head].next < recs.Length
      modifies recs
      ensures recs[..] == Pushed(old(recs[..]), head, page, kind)
    {
      recs[page] := recs[page].(next := recs[head].next);
      recs[head] := recs[head].(next := page);
      recs[page] := recs[page].(prev := head, kind := kind);
      recs[recs[page].next] := recs[recs[page].next].(prev := page, kind := kind);
    }

    /** Hand out the lowest chunk of a page that has one; is the page full now? */
    method MarkLowest(page: int, shift: nat, ghost live: set<nat>) returns (j: nat, full: bool)
      requires 0 <= page < recs.Length && page < bits.Length && 3 <= shift < PAGE_SHIFT
      requires ChunkMarks(recs[page], bits[page], shift, live) && !Full(shift, live)
      modifies recs, bits
      ensures Lowest(shift, live, j)
      ensures recs[..] == old(recs[..])[page := MarkRec(old(recs[page]), shift, j)]
      ensures bits[..] == old(bits[..])[page := MarkBits(old(bits[page]), shift, j)]
      ensures full == Full(shift, live + {j})
    {
      j := PickChunk(page, shift);
      LowestIsFree(recs[page], bits[page], shift, live, j);
      MarkOk(recs[page], bits[page], shift, live, j);
      MarkChunk(page, shift, j);
      full := NowFull(page, shift, j);
      FullTest(recs[page], bits[page], shift, live + {j});
    }

    /** ... and if it is, it leaves its list. */
    method MarkAndLeave(page: int, shift: nat, ghost live: set<nat>) returns (j: nat, ghost full: bool)
      requires 0 <= page < recs.Length && page < bits.Length && 3 <= shift < PAGE_SHIFT
      requires ChunkMarks(recs[page], bits[page], shift, live) && !Full(shift, live)
      requires 0 <= recs[page].prev < recs.Length && 0 <= recs[page].next < recs.Length && recs[page].prev != page
      modifies recs, bits
      ensures Lowest(shift, live, j)
      ensures full == Full(shift, live + {j})
      ensures recs[..] == HandedOut(old(recs[..]), page, shift, j, full)
      ensures bits[..] == old(bits[..])[page := MarkBits(old(bits[page]), shift, j)]
    {
      var leave;
      j, leave := MarkLowest(page, shift, live);
      full := leave;
      if leave { LeaveList(page); }
    }

    /** A chunk from the page in front of the list of slot `s`. */
    method HandOut(page: int, s: nat, ghost i: nat) returns (j: nat)
      requires Valid() && ChunkRun(lay, runs, i, s) && runs[i].start == page && page < lay.n
      requires !Full(lay.minShift + s, runs[i].live)
      modifies this, recs, bits
      ensures Valid() && pfree == old(pfree)
      ensures var shift, r := lay.minShift + s, old(runs)[i];
        Lowest(shift, r.live, j) && runs == old(runs)[i := r.(live := r.live + {j})]
    {
      ghost var R, B, full := recs[..], bits[..], false;
      ChunkRunFacts(lay, R, B, runs, free, slots, i, s);
      j, full := MarkAndLeave(page, lay.minShift + s, runs[i].live);
      slots := HandedOutSound(lay, R, B, runs, free, slots, i, s, j, full);
      runs := runs[i := runs[i].(live := runs[i].live + {j})];
    }

    /** The record and the bitmap of a page just cut into chunks. */
    method FormatPage(page: int, shift: nat, head: int)
      requires 0 <= page < recs.Length && page < bits.Length && 0 <= head < recs.Length && page != head
      requires 3 <= shift < PAGE_SHIFT
      modifies recs, bits
      ensures recs[..] == Opened(old(recs[..]), page, head, FirstRec(shift, head))
      ensures FirstMap(bits[page], shift) && bits[..] == old(bits[..])[page := bits[page]]
    {
      Classes(shift);
      if shift < EXACT_SHIFT {
        var bitmap: seq<Word> := [FirstWord(shift)];
        var i := 1;
        while i < MapWords(shift)
          invariant 1 <= i <= MapWords(shift) && |bitmap| == i && bitmap[0] == FirstWord(shift)
          invariant forall a :: 1 <= a < i ==> bitmap[a] == 0
        {
          bitmap := bitmap + [0];
          i := i + 1;
        }
        bits[page] := bitmap;
      }
      recs[page] := FirstRec(shift, head);
      recs[head] := recs[head].(next := page);
    }

    /** A single page becomes a page of chunks. */
    method FormatRun(page: int, s: nat, ghost i: nat)
      requires Valid() && s < lay.Slots() && slots[s] == [] && 0 <= page < lay.n
      requires i < |runs| && runs[i] == Busy(page, 1)
      modifies this`slots, this`runs, recs, bits
      ensures Valid() && runs == old(runs)[i := Chunks(page, s, {Header(lay.minShift + s)})]
    {
      ghost var R, B := recs[..], bits[..];
      FormatPage(page, lay.minShift + s, lay.SlotHead(s));
      OpenSound(lay, R, B, runs, free, slots, i, s, bits[page]);
      SumUpdate(runs, i, Chunks(page, s, {Header(lay.minShift + s)}), FreePages);
      slots := slots[s := [page]];
      runs := runs[i := Chunks(page, s, {Header(lay.minShift + s)})];
    }

    /** A new page for slot `s`, which has none with chunks to give. */
    method OpenNew(s: nat) returns (page: int, ghost i: nat)
      requires Valid() && s < lay.Slots() && slots[s] == []
      modifies this, recs, bits
      ensures Valid()
      ensures page == NULL ==> runs == old(runs) && pfree == old(pfree) && forall a :: 0 <= a < |runs| ==>
        !runs[a].Free?
      ensures page != NULL ==>
        && i < |old(runs)| && old(runs)[i].Free? && old(runs)[i].start == page && 1 <= old(runs)[i].len
        && i < |Taken(old(runs), i, 1)| && pfree == old(pfree) - 1
        && runs == Taken(old(runs), i, 1)[i := Chunks(page, s, {Header(lay.minShift + s)})]
    {
      page, i := AllocPages(1);
      if page != NULL {
        FormatRun(page, s, i);
      } else {
        NoFreeRun(runs, lay.n);
      }
    }

    static lemma {:induction false} NoFreeRun(runs: seq<Run>, n: nat)
      requires Tiles(runs, 0, n) && forall a :: 0 <= a < |runs| && runs[a].Free? ==> runs[a].len < 1
      ensures forall a :: 0 <= a < |runs| ==> !runs[a].Free?
    {
      forall a | 0 <= a < |runs| ensures !runs[a].Free? { TilesAt(runs, 0, n, a); }
    }

    /** The first page on the list of slot `s`; is there one? */
    lemma {:induction false} FrontPage(s: nat) returns (i: nat)
      requires Valid() && s < lay.Slots()
      ensures var page := recs[lay.SlotHead(s)].next;
        && 0 <= page < recs.Length && (recs[page].next != page <==> slots[s] != [])
        && (slots[s] != [] ==>
              && ChunkRun(lay, runs, i, s) && runs[i].start == page && page < lay.n
              && !Full(lay.minShift + s, runs[i].live))
        && (slots[s] == [] ==> forall a :: 0 <= a < |runs| ==> !OpenPage(lay.minShift, runs[a], s))
    {
      i := 0;
      var list := slots[s];
      assert Ring(recs[..], lay.SlotHead(s), list, KindOf(lay.minShift + s)) && SlotList(lay.minShift, runs, s, list);
      if list != [] {
        assert list[0] in list;
        InnerLinks(recs[..], lay.SlotHead(s), list, KindOf(lay.minShift + s), list[0]);
        assert OpenStart(lay.minShift, runs, s, list[0]);
        i :| 0 <= i < |runs| && OpenPage(lay.minShift, runs[i], s) && runs[i].start == list[0];
        TilesAt(runs, 0, lay.n, i);
      } else {
        forall a | 0 <= a < |runs| ensures !OpenPage(lay.minShift, runs[a], s) {
          assert OpenIn(lay.minShift, runs, a, s, list);
        }
      }
    }

    /** `ngx_slab_alloc_locked`.  The result is an offset from the start of the first page. */
    method Alloc(size: nat) returns (p: int, ghost granted: nat)
      requires Valid() && Balanced()
      modifies this, recs, bits, stats
      ensures Valid() && Balanced()
      ensures p == NULL ==> runs == old(runs) && NoRoom(lay.minShift, runs, size)
      ensures p != NULL ==>
        p >= 0 && Granted(lay.minShift, size, granted)
        && Allocated(lay.minShift, old(runs), runs, Block(p, granted))
      ensures forall s :: 0 <= s < stats.Length ==>
        RequestCounted(lay.minShift, size, old(stats[s]), stats[s], s, p == NULL)
    {
      granted := 0;
      SoundAllBounded(lay, recs[..], bits[..], runs, free, slots);
      if size > MAX_SIZE {
        p := AllocWhole(PagesFor(size));
        granted := PagesFor(size) * PAGE_SIZE;
        return;
      }
      var shift := FindShift(size);
      var s := shift - lay.minShift;
      p := AllocChunk(s);
      granted := Size(shift);
      ClassStats(size, s, old(stats[..]), stats[..], p == NULL);
      if p == NULL { ClassRoom(lay.minShift, runs, size, s); }
    }

    method AllocWhole(k: nat) returns (p: int)
      requires Valid() && Balanced() && 1 <= k && AllBounded(lay.minShift, runs)
      modifies this, recs
      ensures Valid() && Balanced()
      ensures p == NULL ==> runs == old(runs) && forall a :: 0 <= a < |runs| && runs[a].Free? ==> runs[a].len < k
      ensures p != NULL ==> p >= 0 && Allocated(lay.minShift, old(runs), runs, Block(p, k * PAGE_SIZE))
    {
      ghost var before := runs;
      var page;
      ghost var i;
      page, i := AllocPages(k);
      p := page;
      if page != NULL {
        p := page * PAGE_SIZE;
        TakenAllocated(lay.minShift, before, lay.n, i, k);
        PagesCounted(lay.minShift, before, i, i + 1, Cut(before[i], k), stats[..]);
      }
    }

    method AllocChunk(s: nat) returns (p: int)
      requires Valid() && Balanced() && s < lay.Slots() && AllBounded(lay.minShift, runs)
      modifies this, recs, bits, stats
      ensures Valid() && Balanced()
      ensures p == NULL ==> runs == old(runs) && forall a :: 0 <= a < |runs| ==>
        !runs[a].Free? && !OpenPage(lay.minShift, runs[a], s)
      ensures p != NULL ==> p >= 0 && Allocated(lay.minShift, old(runs), runs, Block(p, Size(lay.minShift + s)))
      ensures forall t :: 0 <= t < stats.Length && t != s ==> stats[t] == old(stats[t])
      ensures stats[s].reqs == old(stats[s].reqs) + 1 && stats[s].fails == old(stats[s].fails)
        + (if p == NULL then 1 else 0)
    {
      stats[s] := stats[s].(reqs := stats[s].reqs + 1);
      ghost var i := FrontPage(s);
      var page := recs[lay.SlotHead(s)].next;
      if recs[page].next != page {
        p := FromOpen(page, s, i);
      } else {
        p := FromNew(s);
      }
    }

    method FromOpen(page: int, s: nat, ghost i: nat) returns (p: int)
      requires Valid() && stats.Length == lay.Slots() && Counted(lay.minShift, runs, stats[..])
        && AllBounded(lay.minShift, runs)
      requires ChunkRun(lay, runs, i, s) && runs[i].start == page && page < lay.n
        && !Full(lay.minShift + s, runs[i].live)
      modifies this, recs, bits, stats
      ensures Valid() && Balanced()
      ensures p >= 0 && Allocated(lay.minShift, old(runs), runs, Block(p, Size(lay.minShift + s)))
      ensures forall t :: 0 <= t < stats.Length && t != s ==> stats[t] == old(stats[t])
      ensures stats[s].reqs == old(stats[s].reqs) && stats[s].fails == old(stats[s].fails)
    {
      ghost var before := runs;
      var j := HandOut(page, s, i);
      ChunkAllocated(lay.minShift, before, lay.n, i, j);
      p := page * PAGE_SIZE + j * Size(lay.minShift + s);
      var stat := stats[s].(used := stats[s].used + 1);
      PageCounted(lay.minShift, before, i, runs[i], stats[..], s, stat);
      stats[s] := stat;
    }

    method FromNew(s: nat) returns (p: int)
      requires Valid() && Balanced() && s < lay.Slots() && slots[s] == [] && AllBounded(lay.minShift, runs)
      modifies this, recs, bits, stats
      ensures Valid() && Balanced()
      ensures p == NULL ==> runs == old(runs) && forall a :: 0 <= a < |runs| ==> !runs[a].Free?
      ensures p != NULL ==> p >= 0 && Allocated(lay.minShift, old(runs), runs, Block(p, Size(lay.minShift + s)))
      ensures forall t :: 0 <= t < stats.Length && t != s ==> stats[t] == old(stats[t])
      ensures stats[s].reqs == old(stats[s].reqs) && stats[s].fails == old(stats[s].fails)
        + (if p == NULL then 1 else 0)
    {
      ghost var before := runs;
      var shift := lay.minShift + s;
      var page;
      ghost var i;
      page, i := OpenNew(s);
      if page != NULL {
        Classes(shift);
        CutAllocated(lay.minShift, before, lay.n, i, s, Header(shift));
        p := page * PAGE_SIZE + Header(shift) * Size(shift);
        var stat := stats[s].(total := stats[s].total + Cap(shift) - Header(shift), used := stats[s].used + 1);
        NewCounted(lay.minShift, before, i, s, Header(shift), stats[..], stat);
        stats[s] := stat;
      } else {
        p := NULL;
        stats[s] := stats[s].(fails := stats[s].fails + 1);
      }
    }

    static lemma {:induction false} ClassRoom(minShift: nat, runs: seq<Run>, size: nat, s: nat)
      requires size <= MAX_SIZE && ShiftFor(minShift, size, minShift + s)
      requires forall a :: 0 <= a < |runs| ==> !runs[a].Free? && !OpenPage(minShift, runs[a], s)
      ensures NoRoom(minShift, runs, size)
    {
      forall a, slot: nat | 0 <= a < |runs| && ShiftFor(minShift, size, minShift + slot)
        ensures !OpenPage(minShift, runs[a], slot) {
        ShiftUnique(minShift, size, minShift + s, minShift + slot);
      }
    }

    lemma {:induction false} ClassStats(size: nat, s: nat, before: seq<Stat>, after: seq<Stat>, failed: bool)
      requires size <= MAX_SIZE && ShiftFor(lay.minShift, size, lay.minShift + s) && s < |before| == |after|
      requires forall t :: 0 <= t < |before| && t != s ==> after[t] == before[t]
      requires after[s].reqs == before[s].reqs + 1 && after[s].fails == before[s].fails + (if failed then 1 else 0)
      ensures forall t :: 0 <= t < |before| ==> RequestCounted(lay.minShift, size, before[t], after[t], t, failed)
    {
      forall t | 0 <= t < |before| ensures RequestCounted(lay.minShift, size, before[t], after[t], t, failed) {
        if ShiftFor(lay.minShift, size, lay.minShift + t) {
          ShiftUnique(lay.minShift, size, lay.minShift + s, lay.minShift + t);
        }
      }
    }

    // ---- Giving chunks back ----

    /** The mark of chunk `j` of page `page` is cleared: a full page goes on its list first.
        Was it the last chunk that was out? */
    method ClearChunk(page: int, shift: nat, head: int, j: nat, ghost live: set<nat>) returns (empty: bool)
      requires 0 <= page < recs.Length && page < bits.Length && 3 <= shift < PAGE_SHIFT && j < Cap(shift)
      requires ChunkMarks(recs[page], bits[page], shift, live) && live != {} && (j in live || j < Header(shift))
      requires (recs[page].next == NULL) == Full(shift, live)
      requires 0 <= head < recs.Length && page != head && 0 <= recs[head].next < recs.Length
      modifies recs, bits
      ensures recs[..] == TakenBack(old(recs[..]), page, head, shift, j, Full(shift, live))
      ensures bits[..] == old(bits[..])[page := UnmarkBits(old(bits[page]), shift, j)]
      ensures empty <==> live == {j}
      ensures j < Header(shift) ==>
        !empty && shift < EXACT_SHIFT && 0 < |bits[page]|
        && !Marked(recs[page], bits[page], shift, j)
    {
      FullTest(recs[page], bits[page], shift, live);
      ghost var rec := recs[page];
      var full := if shift == EXACT_SHIFT then recs[page].slab == BUSY else recs[page].next == NULL;
      if full { EnterList(page, head, KindOf(shift)); }
      LinksOnly(rec, recs[page], bits[page], shift, live);
      Unmarking(recs[page], bits[page], shift, live, j);
      UnmarkChunk(page, shift, j);
      empty := NowEmpty(page, shift);
    }

    static lemma {:induction false} Unmarking(rec: Rec, bitmap: seq<Word>, shift: nat, live: set<nat>, j: nat)
      requires 3 <= shift < PAGE_SHIFT && j < Cap(shift)
      requires ChunkMarks(rec, bitmap, shift, live) && live != {} && (j in live || j < Header(shift))
      ensures var rec', bitmap' := UnmarkRec(rec, shift, j), UnmarkBits(bitmap, shift, j);
        && (shift < EXACT_SHIFT ==> |bitmap'| == |bitmap| == MapWords(shift) > 0)
        && (NoneMarked(rec', bitmap', shift) <==> live == {j})
        && (j < Header(shift) ==> shift < EXACT_SHIFT && live != {j} && !Marked(rec', bitmap', shift, j))
    {
      Classes(shift);
      if j < Header(shift) {
        HeaderUnmarked(rec, bitmap, shift, live, j);
      } else {
        UnmarkOk(rec, bitmap, shift, live, j);
        EmptyTest(UnmarkRec(rec, shift, j), UnmarkBits(bitmap, shift, j), shift, live - {j});
      }
    }

    /** The run of page `page`, and what its record says of it. */
    lemma {:induction false} PageRun(page: nat) returns (i: nat)
      requires Valid() && page < lay.n
      ensures i < |runs| && runs[i].start <= page < runs[i].End()
      ensures recs[page].kind == Page <==> !runs[i].Chunks?
      ensures runs[i].Chunks? ==>
        && ChunkRun(lay, runs, i, runs[i].slot) && runs[i].start == page
        && recs[page].kind == KindOf(lay.minShift + runs[i].slot)
        && (lay.minShift + runs[i].slot != EXACT_SHIFT ==> Low(recs[page].slab, 4) == lay.minShift + runs[i].slot)
      ensures !runs[i].Chunks? ==>
        && (recs[page].slab < PAGE_START <==> runs[i].Free?)
        && (runs[i].Busy? ==> (recs[page].slab == BUSY <==> page != runs[i].start))
        && (runs[i].Busy? && page == runs[i].start ==>
          recs[page].slab == PAGE_START + runs[i].len && recs[page].next == NULL)
    {
      i := RunAt(runs, 0, lay.n, page);
      TilesAt(runs, 0, lay.n, i);
      assert EncodedAt(lay, recs[..], bits[..], runs, i);
      if runs[i].Free? && page == runs[i].start {
        assert FreeIn(runs, i, free);
        assert page in free;
        InnerLinks(recs[..], lay.FreeHead(), free, Page, page);
      }
    }

    /** The run of whole pages as it is, is what `ReleasePages` expects. */
    lemma {:induction false} WholeDetached(page: int, i: nat)
      requires Valid() && i < |runs| && runs[i].Busy? && runs[i].start == page
      ensures Detached(page, runs[i].len, i)
    {
      TilesAt(runs, 0, lay.n, i);
      assert EncodedAt(lay, recs[..], bits[..], runs, i);
      assert Plain(recs[..], page, runs[i].len) == recs[..];
    }

    /** A pointer into whole pages. */
    method FreeWhole(p: nat, page: nat, ghost i: nat) returns (status: Status, ghost b: Block)
      requires Valid() && Balanced() && AllBounded(lay.minShift, runs) && page == p / PAGE_SIZE < lay.n
      requires i < |runs| && runs[i].start <= page < runs[i].End() && !runs[i].Chunks?
      requires recs[page].slab < PAGE_START <==> runs[i].Free?
      requires runs[i].Busy? ==> (recs[page].slab == BUSY <==> page != runs[i].start)
      requires runs[i].Busy? && page == runs[i].start ==> recs[page].slab == PAGE_START + runs[i].len
      modifies this, recs
      ensures Valid() && Balanced()
      ensures status != NoRecord
      ensures status == Freed <==> LiveAddr(lay.minShift, old(runs), p)
      ensures status == Freed ==> b.addr == p && Allocated(lay.minShift, runs, old(runs), b)
      ensures status != Freed ==> unchanged(this, recs)
      ensures status != Freed ==>
        status == if p % PAGE_SIZE != 0 then WrongChunk else if old(runs)[i].Free? then PageAlreadyFree else WrongPage
    {
      b := Block(0, 0);
      PageAddr(lay.minShift, runs, lay.n, i, p);
      if p % PAGE_SIZE != 0 {
        return WrongChunk, b;
      }
      if recs[page].slab < PAGE_START {
        return PageAlreadyFree, b;
      }
      if recs[page].slab == BUSY {
        return WrongPage, b;
      }
      status, b := Freed, PageBlock(runs[i].start, runs[i].len);
      PageBlockOnly(lay.minShift, runs[i]);
      RunReleased(lay.minShift, runs, lay.n, i, b);
      ReleasedCounted(lay.minShift, runs, i, stats[..]);
      WholeDetached(page, i);
      ReleasePages(page, recs[page].slab - PAGE_START, i);
    }

    /** A pointer into a page of chunks. */
    method FreeChunk(p: nat, page: nat, shift: nat, ghost i: nat) returns (status: Status, ghost b: Block)
      requires Valid() && Balanced() && AllBounded(lay.minShift, runs) && page == p / PAGE_SIZE < lay.n
      requires i < |runs| && runs[i].Chunks? && ChunkRun(lay, runs, i, runs[i].slot) && runs[i].start == page
      requires shift == lay.minShift + runs[i].slot
      modifies this, recs, bits, stats
      ensures !HeaderAddr(lay.minShift, old(runs), p) ==> Valid() && Balanced()
      ensures status != NoRecord
      ensures status == Freed <==> LiveAddr(lay.minShift, old(runs), p) || HeaderAddr(lay.minShift, old(runs), p)
      ensures LiveAddr(lay.minShift, old(runs), p) ==> b.addr == p && Allocated(lay.minShift, runs, old(runs), b)
      ensures HeaderAddr(lay.minShift, old(runs), p) ==>
        !Valid() && runs == old(runs) && HeaderLost(p, i, old(bits[..]))
      ensures status != Freed ==> unchanged(this, recs, bits, stats)
      ensures status != Freed ==>
        Size(shift) > 0 && status == if p % PAGE_SIZE % Size(shift) != 0 then WrongChunk else ChunkAlreadyFree
    {
      b := Block(0, 0);
      ChunkPointer(p, i);
      var size := Size(shift);
      if p % PAGE_SIZE % size != 0 {
        return WrongChunk, b;
      }
      var j := p % PAGE_SIZE / size;
      ChunkMark(p, page, shift, j, i);
      status, b := FreeMarked(page, shift, j, i);
    }

    /** What a pointer into a page of chunks points at ... */
    lemma {:induction false} ChunkPointer(p: nat, i: nat)
      requires Valid() && AllBounded(lay.minShift, runs) && p / PAGE_SIZE < lay.n
      requires i < |runs| && runs[i].Chunks? && ChunkRun(lay, runs, i, runs[i].slot) && runs[i].start == p / PAGE_SIZE
      ensures 3 <= lay.minShift + runs[i].slot < PAGE_SHIFT && Size(lay.minShift + runs[i].slot) > 0
      ensures var shift := lay.minShift + runs[i].slot;
        var aligned, j := p % PAGE_SIZE % Size(shift) == 0, p % PAGE_SIZE / Size(shift);
        && (LiveAddr(lay.minShift, runs, p) <==> aligned && j in runs[i].live)
        && (HeaderAddr(lay.minShift, runs, p) <==> aligned && j < Header(shift))
        && (j in runs[i].live ==> j >= Header(shift))
    {
      ChunkAddr(lay.minShift, runs, lay.n, i, p);
      HeaderExact(lay, runs, i, p);
      ChunkRunFacts(lay, recs[..], bits[..], runs, free, slots, i, runs[i].slot);
    }

    /** ... and what its mark says. */
    lemma {:induction false} ChunkMark(p: nat, page: nat, shift: nat, j: nat, i: nat)
      requires Valid() && page == p / PAGE_SIZE < lay.n && page < recs.Length && page < bits.Length
      requires i < |runs| && runs[i].Chunks? && ChunkRun(lay, runs, i, runs[i].slot) && runs[i].start == page
      requires shift == lay.minShift + runs[i].slot && 3 <= shift < PAGE_SHIFT && Size(shift) > 0
      requires p % PAGE_SIZE % Size(shift) == 0 && j == p % PAGE_SIZE / Size(shift)
      ensures j < Cap(shift) && ChunkBlock(page, shift, j).addr == p && (shift < EXACT_SHIFT ==> j / 64 < |bits[page]|)
      ensures Marked(recs[page], bits[page], shift, j) <==> j in runs[i].live || j < Header(shift)
    {
      AddrOfChunk(p, shift);
      MarkedIsLive(p, i, j);
      HeaderExact(lay, runs, i, p);
    }

    /** Chunk `j` of a page comes back if it is marked. */
    method FreeMarked(page: nat, shift: nat, j: nat, ghost i: nat) returns (status: Status, ghost b: Block)
      requires Valid() && Balanced() && AllBounded(lay.minShift, runs) && page < lay.n
      requires i < |runs| && runs[i].Chunks? && ChunkRun(lay, runs, i, runs[i].slot) && runs[i].start == page
      requires shift == lay.minShift + runs[i].slot && 3 <= shift < PAGE_SHIFT && j < Cap(shift)
      requires shift < EXACT_SHIFT ==> j / 64 < |bits[page]|
      requires Marked(recs[page], bits[page], shift, j) <==> j in runs[i].live || j < Header(shift)
      modifies this, recs, bits, stats
      ensures status != NoRecord
      ensures status == Freed <==> j in old(runs)[i].live || j < Header(shift)
      ensures j >= Header(shift) ==> Valid() && Balanced()
      ensures status == Freed && j >= Header(shift) ==>
        b == ChunkBlock(page, shift, j) && Allocated(lay.minShift, runs, old(runs), b)
      ensures j < Header(shift) ==> !Valid() && runs == old(runs) && HeaderUnset(page, runs[i].slot, j, old(bits[..]))
      ensures status != Freed ==> unchanged(this, recs, bits, stats)
      ensures status != Freed ==> status == ChunkAlreadyFree
    {
      b := Block(0, 0);
      if !Marked(recs[page], bits[page], shift, j) {
        return ChunkAlreadyFree, b;
      }
      status, b := Freed, ChunkBlock(page, shift, j);
      ReturnChunk(page, shift - lay.minShift, j, i);
    }

    /** A marked chunk is out, unless it belongs to the header. */
    lemma {:induction false} MarkedIsLive(p: nat, i: nat, j: nat)
      requires Valid() && i < |runs| && runs[i].Chunks? && ChunkRun(lay, runs, i, runs[i].slot)
        && p / PAGE_SIZE == runs[i].start
      requires var size := Size(lay.minShift + runs[i].slot);
        size > 0 && p % PAGE_SIZE % size == 0 && j == p % PAGE_SIZE / size
      requires j < Cap(lay.minShift + runs[i].slot)
      ensures runs[i].start < lay.n
      ensures lay.minShift + runs[i].slot < EXACT_SHIFT ==> j / 64 < |bits[runs[i].start]|
      ensures Marked(recs[runs[i].start], bits[runs[i].start], lay.minShift + runs[i].slot, j) <==>
        j in runs[i].live || HeaderAddr(lay.minShift, runs, p)
    {
      var x, shift := runs[i].start, lay.minShift + runs[i].slot;
      ChunkRunFacts(lay, recs[..], bits[..], runs, free, slots, i, runs[i].slot);
      Classes(shift);
      assert Marked(recs[x], bits[x], shift, j) <==> j < Header(shift) || j in runs[i].live;
      HeaderExact(lay, runs, i, p);
    }

    /** The chunks of a page that hold its bitmap are marked though they are not out. */
    lemma {:induction false} HeaderMarked(i: nat)
      requires Valid() && AllBounded(lay.minShift, runs)
      requires i < |runs| && runs[i].Chunks? && lay.minShift + runs[i].slot < EXACT_SHIFT
      ensures var p := runs[i].start * PAGE_SIZE;
        && runs[i].start < lay.n && |bits[runs[i].start]| > 0
          && Marked(recs[runs[i].start], bits[runs[i].start], lay.minShift + runs[i].slot, 0)
        && HeaderAddr(lay.minShift, runs, p) && !LiveAddr(lay.minShift, runs, p)
    {
      var x, shift := runs[i].start, lay.minShift + runs[i].slot;
      TilesAt(runs, 0, lay.n, i);
      assert EncodedAt(lay, recs[..], bits[..], runs, i);
      Classes(shift);
      ChunkAddr(lay.minShift, runs, lay.n, i, x * PAGE_SIZE);
      assert Marked(recs[x], bits[x], shift, 0);
      assert HeaderAt(x, shift, x * PAGE_SIZE);
    }

    static lemma {:induction false} WholeNoHeader(lay: Layout, runs: seq<Run>, i: nat, p: nat)
      requires Tiles(runs, 0, lay.n) && i < |runs| && runs[i].start <= p / PAGE_SIZE < runs[i].End() && !runs[i].Chunks?
      ensures !HeaderAddr(lay.minShift, runs, p)
    {
      if HeaderAddr(lay.minShift, runs, p) {
        var k :| 0 <= k < |runs| && runs[k].Chunks? && lay.minShift + runs[k].slot < EXACT_SHIFT
          && HeaderAt(runs[k].start, lay.minShift + runs[k].slot, p);
        RunUnique(runs, 0, lay.n, i, k, p / PAGE_SIZE);
      }
    }

    /** Which pointers into a page of chunks point at its header. */
    static lemma {:induction false} HeaderExact(lay: Layout, runs: seq<Run>, i: nat, p: nat)
      requires Tiles(runs, 0, lay.n) && i < |runs| && runs[i].Chunks? && p / PAGE_SIZE == runs[i].start
      requires lay.minShift + runs[i].slot < PAGE_SHIFT && Size(lay.minShift + runs[i].slot) > 0
      ensures var shift := lay.minShift + runs[i].slot;
        HeaderAddr(lay.minShift, runs, p) <==>
          p % PAGE_SIZE % Size(shift) == 0 && p % PAGE_SIZE / Size(shift) < Header(shift)
    {
      var x, shift := runs[i].start, lay.minShift + runs[i].slot;
      if HeaderAddr(lay.minShift, runs, p) {
        var k :| 0 <= k < |runs| && runs[k].Chunks? && lay.minShift + runs[k].slot < EXACT_SHIFT
          && HeaderAt(runs[k].start, lay.minShift + runs[k].slot, p);
        RunUnique(runs, 0, lay.n, i, k, x);
      }
      if p % PAGE_SIZE % Size(shift) == 0 && p % PAGE_SIZE / Size(shift) < Header(shift) {
        assert HeaderAt(x, shift, p);
      }
    }

    /** Chunk `j` of the page comes back; with the last chunk goes the page. */
    method ReturnChunk(page: nat, s: nat, j: nat, ghost i: nat)
      requires Valid() && Balanced() && AllBounded(lay.minShift, runs)
      requires ChunkRun(lay, runs, i, s) && runs[i].start == page && page < lay.n && j < Cap(lay.minShift + s)
      requires j in runs[i].live || j < Header(lay.minShift + s)
      modifies this, recs, bits, stats
      ensures j >= Header(lay.minShift + s) ==>
        Valid() && Balanced() && Allocated(lay.minShift, runs, old(runs), ChunkBlock(page, lay.minShift + s, j))
      ensures j < Header(lay.minShift + s) ==> !Valid() && runs == old(runs) && HeaderUnset(page, s, j, old(bits[..]))
    {
      ghost var R, B, live := recs[..], bits[..], runs[i].live;
      var shift := lay.minShift + s;
      ChunkRunFacts(lay, R, B, runs, free, slots, i, s);
      PageIncluded(lay.minShift, runs, i, stats[..]);
      var empty := ClearChunk(page, shift, lay.SlotHead(s), j, live);
      if empty {
        GiveUp(page, s, j, i, R, B);
      } else if j < Header(shift) {
        stats[s] := stats[s].(used := stats[s].used - 1);
        NoLongerValid(page, s, j, i);
      } else {
        KeepPage(page, s, j, i, R, B);
      }
    }

    /** The mark of chunk `j`, which holds part of the bitmap of its page, is cleared. */
    ghost predicate HeaderUnset(page: nat, s: nat, j: nat, B: seq<seq<Word>>)
      reads this, recs, bits
    {
      && 3 <= lay.minShift + s < EXACT_SHIFT && j < Cap(lay.minShift + s) && page < |B|
      && bits[..] == B[page := UnmarkBits(B[page], lay.minShift + s, j)]
      && page < recs.Length && page < bits.Length && j / 64 < |bits[page]|
      && !Marked(recs[page], bits[page], lay.minShift + s, j)
    }

    /** ... for the chunk at address `p`. */
    ghost predicate HeaderLost(p: nat, i: nat, B: seq<seq<Word>>)
      reads this, recs, bits
    {
      && i < |runs| && runs[i].Chunks? && runs[i].start == p / PAGE_SIZE && lay.minShift + runs[i].slot < EXACT_SHIFT
      && Size(lay.minShift + runs[i].slot) > 0
      && HeaderUnset(p / PAGE_SIZE, runs[i].slot, p % PAGE_SIZE / Size(lay.minShift + runs[i].slot), B)
    }

    lemma {:induction false} NoLongerValid(page: nat, s: nat, j: nat, i: nat)
      requires ChunkRun(lay, runs, i, s) && runs[i].start == page && 3 <= lay.minShift + s < EXACT_SHIFT
      requires j < Header(lay.minShift + s) && page < recs.Length && page < bits.Length && j / 64 < |bits[page]|
      requires !Marked(recs[page], bits[page], lay.minShift + s, j)
      ensures !Valid()
    {
      Classes(lay.minShift + s);
      if Valid() { ChunkRunFacts(lay, recs[..], bits[..], runs, free, slots, i, s); }
    }

    /** What is known once the bit of chunk `j` has been cleared; `R` and `B` are the records
        and bitmaps before. */
    ghost predicate ChunkCleared(page: nat, s: nat, j: nat, i: nat, R: Recs, B: seq<seq<Word>>)
      reads this, recs, bits, stats
    {
      && Sound(lay, R, B, runs, free, slots) && pfree == Sum(runs, FreePages) && Balanced()
        && AllBounded(lay.minShift, runs)
      && ChunkRun(lay, runs, i, s) && runs[i].start == page && page < lay.n && j in runs[i].live
      && Header(lay.minShift + s) <= j < Cap(lay.minShift + s)
      && 0 <= R[lay.SlotHead(s)].next < |R|
      && recs[..] == TakenBack(R, page, lay.SlotHead(s), lay.minShift + s, j, Full(lay.minShift + s, runs[i].live))
      && bits[..] == B[page := UnmarkBits(B[page], lay.minShift + s, j)]
      && stats[s].used >= 1 && stats[s].total >= Usable(lay.minShift + s)
    }

    method KeepPage(page: nat, s: nat, j: nat, ghost i: nat, ghost R: Recs, ghost B: seq<seq<Word>>)
      requires ChunkCleared(page, s, j, i, R, B) && runs[i].live != {j}
      modifies this, stats
      ensures Valid() && Balanced()
      ensures Allocated(lay.minShift, runs, old(runs), ChunkBlock(page, lay.minShift + s, j))
    {
      var stat := stats[s].(used := stats[s].used - 1);
      BackCounted(lay.minShift, runs, i, j, stats[..], s, stat);
      ChunkReleased(lay.minShift, runs, lay.n, i, j);
      slots := TakenBackSound(lay, R, B, runs, free, slots, i, s, j, Full(lay.minShift + s, runs[i].live));
      runs := runs[i := runs[i].(live := runs[i].live - {j})];
      stats[s] := stat;
    }

    method GiveUp(page: nat, s: nat, j: nat, ghost i: nat, ghost R: Recs, ghost B: seq<seq<Word>>)
      requires ChunkCleared(page, s, j, i, R, B) && runs[i].live == {j}
      modifies this, recs, stats
      ensures Valid() && Balanced()
      ensures Allocated(lay.minShift, runs, old(runs), ChunkBlock(page, lay.minShift + s, j))
    {
      ghost var before, shift := runs, lay.minShift + s;
      LastChunk(lay, before, i, s, j, stats[..]);
      var stat := stats[s].(total := stats[s].total - Usable(lay.minShift + s), used := stats[s].used - 1);
      GoneCounted(lay.minShift, before, i, j, stats[..], s, stat);
      EmptySound(lay, R, recs[..], B, bits[..], runs, free, slots, i, s);
      SumUpdate(runs, i, Busy(page, 1), FreePages);
      slots := slots[s := Minus(slots[s], page)];
      runs := runs[i := Busy(page, 1)];
      ReleasePages(page, 1, i);
      stats[s] := stat;
    }

    /** Giving back the page of the last chunk gives back that chunk. */
    static lemma {:induction false} LastChunk(lay: Layout, runs: seq<Run>, i: nat, s: nat, j: nat, stats: seq<Stat>)
      requires Tiles(runs, 0, lay.n) && Coalesced(runs) && AllBounded(lay.minShift, runs)
      requires ChunkRun(lay, runs, i, s) && runs[i].live == {j}
      ensures Released(runs[i := Busy(runs[i].start, 1)], i) == Released(runs, i)
      ensures Allocated(lay.minShift, Released(runs, i), runs, ChunkBlock(runs[i].start, lay.minShift + s, j))
      ensures !Full(lay.minShift + s, runs[i].live)
    {
      ReleasedAs(runs, i, Busy(runs[i].start, 1));
      ChunkBlockOnly(lay.minShift, runs[i], j);
      RunReleased(lay.minShift, runs, lay.n, i, ChunkBlock(runs[i].start, lay.minShift + s, j));
      if Full(lay.minShift + s, runs[i].live) { FullNotLast(lay.minShift + s, runs[i].live, j); }
    }

    /** A pointer above the pool is no block. */
    lemma {:induction false} OutsideNotLive(p: nat)
      requires Valid() && lay.n * PAGE_SIZE <= p
      ensures !LiveAddr(lay.minShift, runs, p) && !HeaderAddr(lay.minShift, runs, p)
    {
      if HeaderAddr(lay.minShift, runs, p) {
        var k :| 0 <= k < |runs| && runs[k].Chunks? && lay.minShift + runs[k].slot < EXACT_SHIFT
          && HeaderAt(runs[k].start, lay.minShift + runs[k].slot, p);
        TilesAt(runs, 0, lay.n, k);
      }
      if LiveAddr(lay.minShift, runs, p) {
        var b: Block :| b.addr == p && Live(lay.minShift, runs, b);
        LiveAligned(lay, recs[..], bits[..], runs, free, slots, b);
      }
    }

    /** Why a pointer into the run `r` is refused: it is not the start of a chunk, or of a page;
        the chunk, or the page, is free; or the page is not the first of its block. */
    predicate Refused(r: Run, p: nat, status: Status) {
      if r.Chunks? then
        && lay.minShift + r.slot <= PAGE_SHIFT && Size(lay.minShift + r.slot) > 0
        && status == if p % 4096 % Size(lay.minShift + r.slot) != 0 then WrongChunk else ChunkAlreadyFree
      else status == if p % 4096 != 0 then WrongChunk else if r.Free? then PageAlreadyFree else WrongPage
    }

    /** `ngx_slab_free_locked`: blocks are given back, and other pointers are refused, but
        for those at the chunks that hold the bitmap of a page, which is then spoilt. */
    method Free(p: int) returns (status: Status, ghost b: Block, ghost i: nat)
      requires Valid() && Balanced() && Sized()
      modifies this, recs, bits, stats
      ensures status == NoRecord <==> Unrecorded(p)
      ensures !(p >= 0 && HeaderAddr(lay.minShift, old(runs), p)) ==> Valid() && Balanced()
      ensures status == Freed <==>
        p >= 0
        && (LiveAddr(lay.minShift, old(runs), p) || HeaderAddr(lay.minShift, old(runs), p))
      ensures p >= 0 && LiveAddr(lay.minShift, old(runs), p) ==>
        b.addr == p && Allocated(lay.minShift, runs, old(runs), b)
      ensures p >= 0 && HeaderAddr(lay.minShift, old(runs), p) ==>
        !Valid() && runs == old(runs) && HeaderLost(p, i, old(bits[..]))
      ensures status != Freed ==> unchanged(this, recs, bits, stats)
      ensures status == Outside <==> p < 0 || p > end
      ensures 0 <= p <= end && p < lay.n * PAGE_SIZE && status != Freed ==>
        i < |old(runs)| && old(runs)[i].start <= p / PAGE_SIZE < old(runs)[i].End() && Refused(old(runs)[i], p, status)
    {
      b, i := Block(0, 0), 0;
      if p < 0 || p > end {
        if p > end { OutsideNotLive(p); }
        return Outside, b, i;
      }
      var page := p / PAGE_SIZE;
      assert page >= records <==> Unrecorded(p);
      if page >= lay.n {
        // the record of a page there is no room for is never used and still zero
        OutsideNotLive(p);
        status := if page >= records then NoRecord else if p % PAGE_SIZE != 0 then WrongChunk else PageAlreadyFree;
        return;
      }
      SoundAllBounded(lay, recs[..], bits[..], runs, free, slots);
      i := PageRun(page);
      if recs[page].kind == Page {
        WholeNoHeader(lay, runs, i, p);
        status, b := FreeWhole(p, page, i);
      } else {
        var shift := if recs[page].kind == Exact then EXACT_SHIFT else Low(recs[page].slab, 4);
        status, b := FreeChunk(p, page, shift, i);
      }
    }

    /** There is such a pointer exactly if there is room for the page of every record. */
    lemma {:induction false} NoRecordExact()
      requires Sized()
      ensures (exists p :: Unrecorded(p)) <==> lay.n == records
    {
      if lay.n == records { assert Unrecorded(records * PAGE_SIZE); }
    }
  }
}
