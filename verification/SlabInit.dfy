/** A pool as `ngx_slab_init` leaves it. */
module SlabInit {
  import opened Words
  import opened SlabRuns
  import opened SlabLists
  import opened SlabState
  import opened SlabRelease
  import opened SlabStats
  import opened SlabBlocks

  /** The records: one free run of all pages, and empty slot lists. */
  function InitRec(lay: Layout, z: nat): Rec
    requires lay.Ok()
  {
    if z == 0 then Rec(lay.n, lay.FreeHead(), lay.FreeHead(), Page)
    else if z < lay.n then FREE_REC
    else if z < lay.FreeHead() then Rec(0, z, NULL, Page)
    else Rec(0, 0, NULL, Page)
  }

  ghost predicate Initial(lay: Layout, R: Recs)
    requires lay.Ok()
  {
    |R| == lay.Records() && forall z :: 0 <= z < |R| ==> R[z] == InitRec(lay, z)
  }

  function NoLists(n: nat): (slots: seq<seq<int>>)
    ensures |slots| == n && forall s :: 0 <= s < n ==> slots[s] == []
  {
    seq(n, i => [])
  }

  lemma {:induction false} InitSound(lay: Layout, R: Recs, bits: seq<seq<Word>>)
    requires lay.Ok() && Initial(lay, R) && |bits| == lay.n
    ensures Sound(lay, R, bits, [Free(0, lay.n)], [0], NoLists(lay.Slots()))
  {
    var runs := [Free(0, lay.n)];
    assert runs[1..] == [];
    assert RunOk(lay.n, lay.minShift, R, bits, runs[0]);
    assert EncodedAt(lay, R, bits, runs, 0);
    assert LinkedAt(R, lay.FreeHead(), [0], Page, 0);
    assert FreeList(runs, [0]) by { assert runs[0].Free?; }
  }

  /** Nothing is allocated in a new pool, and the statistics say so. */
  lemma {:induction false} InitEmpty(lay: Layout, stats: seq<Stat>)
    requires forall s :: 0 <= s < |stats| ==> stats[s] == Stat(0, 0, 0, 0)
    ensures Sum([Free(0, lay.n)], FreePages) == lay.n
    ensures Counted(lay.minShift, [Free(0, lay.n)], stats)
    ensures forall b :: !Live(lay.minShift, [Free(0, lay.n)], b)
  {
    var runs := [Free(0, lay.n)];
    assert runs[1..] == [];
    forall s | 0 <= s < |stats| ensures CountedAt(lay.minShift, runs, stats[s], s) {
      NoChunksSum(runs, lay.minShift, s);
    }
  }
}
