/** Changing one page of chunks: what a step of the chunk layer does to the whole pool. */
module SlabSlots {
  import opened Words
  import opened SlabRuns
  import opened SlabLists
  import opened SlabState

  /** Apart from page `x`, only links on the list of slot `s` have changed. */
  ghost predicate Local(lay: Layout, R: Recs, R': Recs, bits: seq<seq<Word>>, bits': seq<seq<Word>>, x: int, s: nat,
      list: seq<int>) {
    && |R'| == |R| && |bits'| == |bits|
    && (forall z :: 0 <= z < |R| && z != x ==> R'[z].slab == R[z].slab)
    && (forall z :: 0 <= z < |R| && z != x && z != lay.SlotHead(s) && z !in list ==> R'[z] == R[z])
    && (forall z :: 0 <= z < |bits| && z != x ==> bits'[z] == bits[z])
  }

  /** A run of one page that is not free; if it is cut into chunks, they are of slot `s`. */
  predicate OnePage(r: Run, x: int, s: nat) {
    !r.Free? && r.start == x && r.Len() == 1 && (r.Chunks? ==> r.slot == s)
  }

  /** The list of slot `s` with page `x` on it exactly if that has chunks to give. */
  ghost predicate PageListed(list: seq<int>, list': seq<int>, x: int, open: bool) {
    && (forall z :: z != x ==> (z in list' <==> z in list))
    && (x in list' <==> open)
  }

  lemma {:induction false} LocalQuiet(lay: Layout, R: Recs, R': Recs, bits: seq<seq<Word>>, bits': seq<seq<Word>>,
      x: int, s: nat, free: seq<int>, list: seq<int>, list': seq<int>, kind: Kind, open: bool)
    requires lay.Ok() && |R| == lay.Records() && |bits| == lay.n && s < lay.Slots()
    requires Local(lay, R, R', bits, bits', x, s, list)
    requires Ring(R, lay.SlotHead(s), list, kind) && Ring(R', lay.SlotHead(s), list', kind)
    requires PageListed(list, list', x, open)
    ensures Quiet(lay, R, R', bits, bits', x, x + 1, free, list)
  {
    forall z | 0 <= z < lay.n && z != x && z in list ensures R'[z].kind == R[z].kind {
      InnerLinks(R, lay.SlotHead(s), list, kind, z);
      InnerLinks(R', lay.SlotHead(s), list', kind, z);
    }
  }

  /** The free list is untouched. */
  lemma {:induction false} FreeKept(lay: Layout, R: Recs, R': Recs, bits: seq<seq<Word>>, bits': seq<seq<Word>>,
      runs: seq<Run>, free: seq<int>, i: nat, x: int, s: nat, list: seq<int>)
    requires lay.Ok() && |R| == lay.Records() && |bits| == lay.n && s < lay.Slots()
    requires Tiles(runs, 0, lay.n) && FreeList(runs, free) && OpenPages(lay.minShift, runs, s, list)
    requires i < |runs| && OnePage(runs[i], x, s)
    requires Local(lay, R, R', bits, bits', x, s, list) && Ring(R, lay.FreeHead(), free, Page)
    requires lay.FreeHead() !in list
    ensures Ring(R', lay.FreeHead(), free, Page)
  {
    TilesAt(runs, 0, lay.n, i);
    forall z | 0 <= z < |R| && z in free ensures SameLinks(R[z], R'[z]) {
      FreeApart(lay, runs, free, i, x, s, list, z);
    }
    RingFrame(R, R', lay.FreeHead(), free, Page);
  }

  lemma {:induction false} FreeApart(lay: Layout, runs: seq<Run>, free: seq<int>, i: nat, x: int, s: nat,
      list: seq<int>, z: int)
    requires Tiles(runs, 0, lay.n) && FreeList(runs, free) && OpenPages(lay.minShift, runs, s, list)
    requires i < |runs| && OnePage(runs[i], x, s) && z in free
    ensures z != x && z !in list && z < lay.n
  {
    assert FreeStart(runs, z);
    var j :| 0 <= j < |runs| && runs[j].Free? && runs[j].start == z;
    TilesAt(runs, 0, lay.n, j);
    if z == x { RunUnique(runs, 0, lay.n, i, j, z); }
    if z in list { OpenListed(lay, runs, s, list, z, j); }
  }

  /** The entries of a slot list are pages. */
  lemma {:induction false} OpenBelow(lay: Layout, runs: seq<Run>, s: nat, list: seq<int>, z: int)
    requires Tiles(runs, 0, lay.n) && OpenPages(lay.minShift, runs, s, list) && z in list
    ensures 0 <= z < lay.n
  {
    assert OpenStart(lay.minShift, runs, s, z);
    var j :| 0 <= j < |runs| && OpenPage(lay.minShift, runs[j], s) && runs[j].start == z;
    TilesAt(runs, 0, lay.n, j);
  }

  /** The other slot lists are untouched. */
  lemma {:induction false} OtherKept(lay: Layout, R: Recs, R': Recs, bits: seq<seq<Word>>, bits': seq<seq<Word>>,
      runs: seq<Run>, free: seq<int>, i: nat, x: int, s: nat, list: seq<int>, t: nat, other: seq<int>, r': Run)
    requires lay.Ok() && |R| == lay.Records() && |bits| == lay.n && s < lay.Slots() && t < lay.Slots() && t != s
    requires Tiles(runs, 0, lay.n) && FreeList(runs, free) && OpenPages(lay.minShift, runs, s, list)
    requires SlotList(lay.minShift, runs, t, other)
    requires i < |runs| && OnePage(runs[i], x, s) && OnePage(r', x, s)
    requires Local(lay, R, R', bits, bits', x, s, list) && Ring(R, lay.SlotHead(t), other, KindOf(lay.minShift + t))
    requires Quiet(lay, R, R', bits, bits', x, x + 1, free, list)
    ensures Ring(R', lay.SlotHead(t), other, KindOf(lay.minShift + t))
    ensures SlotChange(lay.minShift, runs, i, i + 1, [r'], t, other, other)
  {
    SlotUnchanged(lay.minShift, lay.n, runs, t, other, i, i + 1, [r']);
    forall z | z in other ensures z != x {
      OpenListed2(lay, runs, t, other, z, i);
    }
    if lay.SlotHead(t) in list { OpenBelow(lay, runs, s, list, lay.SlotHead(t)); }
    TilesAt(runs, 0, lay.n, i);
    SlotRingFrame(lay, R, R', bits, bits', runs, free, s, list, t, other, KindOf(lay.minShift + t), x, x + 1);
  }

  lemma {:induction false} OpenListed2(lay: Layout, runs: seq<Run>, t: nat, other: seq<int>, z: int, i: nat)
    requires Tiles(runs, 0, lay.n) && OpenPages(lay.minShift, runs, t, other) && z in other
    requires i < |runs| && !OpenPage(lay.minShift, runs[i], t)
    ensures z != runs[i].start
  {
    TilesAt(runs, 0, lay.n, i);
    if z == runs[i].start { OpenListed(lay, runs, t, other, z, i); }
  }

  lemma {:induction false} OwnChange(lay: Layout, runs: seq<Run>, i: nat, x: int, s: nat, r': Run, list: seq<int>,
      list': seq<int>)
    requires Tiles(runs, 0, lay.n) && SlotList(lay.minShift, runs, s, list)
    requires i < |runs| && OnePage(runs[i], x, s) && OnePage(r', x, s)
    requires PageListed(list, list', x, OpenPage(lay.minShift, r', s))
    ensures SlotChange(lay.minShift, runs, i, i + 1, [r'], s, list, list')
  {
    forall z | z in list' ensures (z in list && Elsewhere(runs, i, i + 1, z)) || OpenStart(lay.minShift, [r'], s, z) {
      if z == x { assert [r'][0] == r'; }
    }
  }

  /** One page changes, and with it the list of its slot: everything that holds between
      calls still does. */
  lemma {:induction false} OnePageSound(lay: Layout, R: Recs, R': Recs, bits: seq<seq<Word>>, bits': seq<seq<Word>>,
      runs: seq<Run>, free: seq<int>, slots: seq<seq<int>>, i: nat, s: nat, r': Run, list': seq<int>)
    requires Sound(lay, R, bits, runs, free, slots) && i < |runs| && s < |slots|
    requires OnePage(runs[i], runs[i].start, s) && OnePage(r', runs[i].start, s)
    requires Local(lay, R, R', bits, bits', runs[i].start, s, slots[s])
    requires Ring(R', lay.SlotHead(s), list', KindOf(lay.minShift + s))
    requires PageListed(slots[s], list', runs[i].start, OpenPage(lay.minShift, r', s))
    requires RunOk(lay.n, lay.minShift, R', bits', r')
    ensures Sound(lay, R', bits', runs[i := r'], free, slots[s := list'])
  {
    var x, list, slots' := runs[i].start, slots[s], slots[s := list'];
    OnePageSplice(lay, runs, i, s, r');
    LocalQuiet(lay, R, R', bits, bits', x, s, free, list, list', KindOf(lay.minShift + s),
      OpenPage(lay.minShift, r', s));
    if lay.FreeHead() in list { OpenBelow(lay, runs, s, list, lay.FreeHead()); }
    FreeKept(lay, R, R', bits, bits', runs, free, i, x, s, list);
    OwnChange(lay, runs, i, x, s, r', list, list');
    forall t | 0 <= t < |slots|
      ensures Ring(R', lay.SlotHead(t), slots'[t], KindOf(lay.minShift + t))
      ensures SlotChange(lay.minShift, runs, i, i + 1, [r'], t, slots[t], slots'[t])
    {
      if t != s { OtherKept(lay, R, R', bits, bits', runs, free, i, x, s, list, t, slots[t], r'); }
    }
    assert EncodedAt(lay, R', bits', [r'], 0);
    OnePageFree(runs, lay.n, i, x, s, r', free);
    SoundSplice(lay, R, R', bits, bits', runs, free, slots, s, list, i, i + 1, [r'], free, slots');
  }

  lemma {:induction false} OnePageFree(runs: seq<Run>, n: nat, i: nat, x: int, s: nat, r': Run, free: seq<int>)
    requires Tiles(runs, 0, n) && FreeList(runs, free) && i < |runs| && OnePage(runs[i], x, s) && OnePage(r', x, s)
    ensures FreeChange(runs, i, i + 1, [r'], free, free)
  {
    forall z | z in free ensures Elsewhere(runs, i, i + 1, z) {
      assert FreeStart(runs, z);
      var j :| 0 <= j < |runs| && runs[j].Free? && runs[j].start == z;
      StartUnique(runs, n, j, i, i + 1);
    }
  }

  lemma {:induction false} OnePageSplice(lay: Layout, runs: seq<Run>, i: nat, s: nat, r': Run)
    requires Tiles(runs, 0, lay.n) && Coalesced(runs) && i < |runs|
    requires OnePage(runs[i], runs[i].start, s) && OnePage(r', runs[i].start, s)
    ensures runs[i := r'] == Splice(runs, i, i + 1, [r'])
    ensures Tiles(runs[i := r'], 0, lay.n) && Coalesced(runs[i := r'])
  {
    assert [r'][1..] == [];
    SpliceTiles(runs, lay.n, i, i + 1, [r']);
    SpliceCoalesced(runs, i, i + 1, [r']);
  }
}
