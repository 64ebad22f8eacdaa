/** The steps of the chunk layer of ngx_slab.c: cutting a page, handing a chunk out,
    taking a chunk back, and giving an empty page up. */
module SlabSteps {
  import opened Words
  import opened SlabRuns
  import opened SlabLists
  import opened SlabState
  import opened SlabPages
  import opened SlabChunks
  import opened SlabSlots
  import opened SlabStats

  /** Run `i` is a page of slot `s` cut into chunks. */
  ghost predicate ChunkRun(lay: Layout, runs: seq<Run>, i: nat, s: nat) {
    lay.Ok() && s < lay.Slots() && i < |runs| && runs[i].Chunks? && runs[i].slot == s
  }

  /** What is known of such a page and of the list of its slot. */
  lemma {:induction false} ChunkRunFacts(lay: Layout, R: Recs, bits: seq<seq<Word>>, runs: seq<Run>, free: seq<int>,
      slots: seq<seq<int>>, i: nat, s: nat)
    requires Sound(lay, R, bits, runs, free, slots) && ChunkRun(lay, runs, i, s)
    ensures runs[i].start < lay.n && ChunkPageOk(R[runs[i].start], bits[runs[i].start], lay.minShift + s, runs[i].live)
    ensures runs[i].start in slots[s] <==> !Full(lay.minShift + s, runs[i].live)
    ensures Ring(R, lay.SlotHead(s), slots[s], KindOf(lay.minShift + s))
    ensures runs[i].start in slots[s] ==>
      R[runs[i].start].next != NULL && 0 <= R[runs[i].start].next < |R| && 0 <= R[runs[i].start].prev < |R|
    ensures runs[i].start in slots[s] ==>
      R[runs[i].start].next != runs[i].start && R[runs[i].start].prev != runs[i].start
  {
    var x := runs[i].start;
    TilesAt(runs, 0, lay.n, i);
    assert EncodedAt(lay, R, bits, runs, i);
    if x in slots[s] {
      OpenListed(lay, runs, s, slots[s], x, i);
      InnerLinks(R, lay.SlotHead(s), slots[s], KindOf(lay.minShift + s), x);
    }
    assert OpenIn(lay.minShift, runs, i, s, slots[s]);
  }

  /** A page of chunks is encoded if its record and bitmap are right. */
  lemma {:induction false} ChunkRunOk(lay: Layout, R: Recs, bits: seq<seq<Word>>, x: nat, s: nat, live: set<nat>)
    requires lay.Ok() && |R| == lay.Records() && |bits| == lay.n && x < lay.n && s < lay.Slots()
    requires live != {} && R[x].kind == KindOf(lay.minShift + s) && ChunkMarks(R[x], bits[x], lay.minShift + s, live)
    requires Full(lay.minShift + s, live) ==> R[x].next == NULL && R[x].prev == NULL
    ensures RunOk(lay.n, lay.minShift, R, bits, Chunks(x, s, live))
  {
  }

  // ---- A new page ----

  function Opened(R: Recs, x: int, head: int, rec: Rec): Recs
    requires 0 <= x < |R| && 0 <= head < |R| && x != head
  {
    R[x := rec][head := R[head].(next := x)]
  }

  /** A page just allocated becomes the only page on the empty list of slot `s`, with the
      first chunk behind its header handed out. */
  lemma {:induction false} OpenSound(lay: Layout, R: Recs, bits: seq<seq<Word>>, runs: seq<Run>, free: seq<int>,
      slots: seq<seq<int>>, i: nat, s: nat, bitmap: seq<Word>)
    requires Sound(lay, R, bits, runs, free, slots) && i < |runs| && s < lay.Slots() && slots[s] == []
    requires runs[i].Busy? && runs[i].len == 1 && runs[i].start < lay.n && FirstMap(bitmap, lay.minShift + s)
    ensures var x, shift, head := runs[i].start, lay.minShift + s, lay.SlotHead(s);
      Sound(lay, Opened(R, x, head, FirstRec(shift, head)), bits[x := bitmap],
        runs[i := Chunks(x, s, {Header(shift)})], free, slots[s := [x]])
  {
    var x, shift, head := runs[i].start, lay.minShift + s, lay.SlotHead(s);
    var R', bits', r' := Opened(R, x, head, FirstRec(shift, head)), bits[x := bitmap], Chunks(x, s, {Header(shift)});
    FirstMarks(shift, head, bitmap);
    Classes(shift);
    assert !Full(shift, r'.live) by { assert Header(shift) + 1 !in r'.live; }
    assert LinkedAt(R', head, [x], KindOf(shift), 0);
    ChunkRunOk(lay, R', bits', x, s, r'.live);
    OnePageSound(lay, R, R', bits, bits', runs, free, slots, i, s, r', [x]);
  }

  // ---- Handing a chunk out ----

  /** The page `x` leaves its list, keeping its kind. */
  function TakenOff(R: Recs, x: int): Recs
    requires 0 <= x < |R| && 0 <= R[x].prev < |R| && 0 <= R[x].next < |R|
  {
    var R1 := Unlinked(R, x);
    R1[x := R1[x].(next := NULL, prev := NULL)]
  }

  lemma {:induction false} TakenOffRing(R: Recs, head: int, list: seq<int>, kind: Kind, x: int, rec: Rec)
    requires Ring(R, head, list, kind) && x in list
    ensures 0 <= x < |R| && 0 <= R[x].prev < |R| && 0 <= R[x].next < |R|
    ensures Unlinked(R, x)[x] == R[x]
    ensures Ring(Unlinked(R, x)[x := rec], head, Minus(list, x), kind)
    ensures forall z :: 0 <= z < |R| && z != x ==> Unlinked(R, x)[z].slab == R[z].slab
    ensures forall z :: 0 <= z < |R| && z != head && z !in list ==> Unlinked(R, x)[z] == R[z]
    ensures PageListed(list, Minus(list, x), x, false)
  {
    InnerLinks(R, head, list, kind, x);
    UnlinkRing(R, head, list, kind, IndexOf(list, x));
    MinusMembers(|R|, head, list, x);
    RingFrame(Unlinked(R, x), Unlinked(R, x)[x := rec], head, Minus(list, x), kind);
  }

  /** Chunk `j` of an open page is handed out and the page stays open. */
  lemma {:induction false} HandOutSound(lay: Layout, R: Recs, bits: seq<seq<Word>>, runs: seq<Run>, free: seq<int>,
      slots: seq<seq<int>>, i: nat, s: nat, j: nat)
    requires Sound(lay, R, bits, runs, free, slots) && ChunkRun(lay, runs, i, s) && runs[i].start < lay.n
    requires Header(lay.minShift + s) <= j < Cap(lay.minShift + s)
    requires !Full(lay.minShift + s, runs[i].live) && !Full(lay.minShift + s, runs[i].live + {j})
    ensures var x, shift := runs[i].start, lay.minShift + s;
      Sound(lay, R[x := MarkRec(R[x], shift, j)], bits[x := MarkBits(bits[x], shift, j)],
        runs[i := runs[i].(live := runs[i].live + {j})], free, slots)
  {
    var x, shift := runs[i].start, lay.minShift + s;
    var R', bits' := R[x := MarkRec(R[x], shift, j)], bits[x := MarkBits(bits[x], shift, j)];
    var r' := runs[i].(live := runs[i].live + {j});
    ChunkRunFacts(lay, R, bits, runs, free, slots, i, s);
    MarkOk(R[x], bits[x], shift, runs[i].live, j);
    ChunkRunOk(lay, R', bits', x, s, r'.live);
    RingFrame(R, R', lay.SlotHead(s), slots[s], KindOf(shift));
    OnePageSound(lay, R, R', bits, bits', runs, free, slots, i, s, r', slots[s]);
    assert slots[s := slots[s]] == slots;
  }

  /** The last chunk of an open page is handed out and the page leaves its list. */
  lemma {:induction false} FillSound(lay: Layout, R: Recs, bits: seq<seq<Word>>, runs: seq<Run>, free: seq<int>,
      slots: seq<seq<int>>, i: nat, s: nat, j: nat)
    requires Sound(lay, R, bits, runs, free, slots) && ChunkRun(lay, runs, i, s) && runs[i].start < lay.n
    requires Header(lay.minShift + s) <= j < Cap(lay.minShift + s)
    requires !Full(lay.minShift + s, runs[i].live) && Full(lay.minShift + s, runs[i].live + {j})
    requires 0 <= R[runs[i].start].next < |R| && 0 <= R[runs[i].start].prev < |R|
    ensures runs[i].start in slots[s]
    ensures var x, shift := runs[i].start, lay.minShift + s;
      Sound(lay, TakenOff(R[x := MarkRec(R[x], shift, j)], x), bits[x := MarkBits(bits[x], shift, j)],
        runs[i := runs[i].(live := runs[i].live + {j})], free, slots[s := Minus(slots[s], x)])
  {
    var x, shift, head := runs[i].start, lay.minShift + s, lay.SlotHead(s);
    var R1, bits' := R[x := MarkRec(R[x], shift, j)], bits[x := MarkBits(bits[x], shift, j)];
    var r', R' := runs[i].(live := runs[i].live + {j}), TakenOff(R1, x);
    ChunkRunFacts(lay, R, bits, runs, free, slots, i, s);
    MarkOk(R[x], bits[x], shift, runs[i].live, j);
    RingFrame(R, R1, head, slots[s], KindOf(shift));
    TakenOffRing(R1, head, slots[s], KindOf(shift), x, R1[x].(next := NULL, prev := NULL));
    LinksOnly(R1[x], R'[x], bits'[x], shift, r'.live);
    ChunkRunOk(lay, R', bits', x, s, r'.live);
    OnePageSound(lay, R, R', bits, bits', runs, free, slots, i, s, r', Minus(slots[s], x));
  }

  /** The marks do not depend on the links. */
  lemma {:induction false} LinksOnly(rec: Rec, rec': Rec, bitmap: seq<Word>, shift: nat, live: set<nat>)
    requires 3 <= shift < PAGE_SHIFT && ChunkMarks(rec, bitmap, shift, live) && rec'.slab == rec.slab
    ensures ChunkMarks(rec', bitmap, shift, live)
  {
    forall j | 0 <= j < Cap(shift)
      ensures (shift < EXACT_SHIFT ==> j / 64 < |bitmap|)
        && (Marked(rec', bitmap, shift, j) <==> j < Header(shift) || j in live)
    {
      assert Marked(rec, bitmap, shift, j) <==> j < Header(shift) || j in live;
    }
  }

  // ---- Taking a chunk back ----

  /** Chunk `j` of an open page comes back and others are still out. */
  lemma {:induction false} TakeBackSound(lay: Layout, R: Recs, bits: seq<seq<Word>>, runs: seq<Run>, free: seq<int>,
      slots: seq<seq<int>>, i: nat, s: nat, j: nat)
    requires Sound(lay, R, bits, runs, free, slots) && ChunkRun(lay, runs, i, s) && runs[i].start < lay.n
    requires Header(lay.minShift + s) <= j < Cap(lay.minShift + s) && j in runs[i].live
    requires !Full(lay.minShift + s, runs[i].live) && runs[i].live != {j}
    ensures var x, shift := runs[i].start, lay.minShift + s;
      Sound(lay, R[x := UnmarkRec(R[x], shift, j)], bits[x := UnmarkBits(bits[x], shift, j)],
        runs[i := runs[i].(live := runs[i].live - {j})], free, slots)
  {
    var x, shift := runs[i].start, lay.minShift + s;
    var R', bits' := R[x := UnmarkRec(R[x], shift, j)], bits[x := UnmarkBits(bits[x], shift, j)];
    var r' := runs[i].(live := runs[i].live - {j});
    ChunkRunFacts(lay, R, bits, runs, free, slots, i, s);
    UnmarkOk(R[x], bits[x], shift, runs[i].live, j);
    NotFull(shift, r'.live, j);
    ChunkRunOk(lay, R', bits', x, s, r'.live);
    RingFrame(R, R', lay.SlotHead(s), slots[s], KindOf(shift));
    OnePageSound(lay, R, R', bits, bits', runs, free, slots, i, s, r', slots[s]);
    assert slots[s := slots[s]] == slots;
  }

  lemma {:induction false} NotFull(shift: nat, live: set<nat>, j: nat)
    requires 3 <= shift < PAGE_SHIFT && Header(shift) <= j < Cap(shift) && j !in live
    ensures !Full(shift, live)
  {
  }

  /** The full page `x` goes in front of its list, and a chunk of it comes back. */
  function Reopened(R: Recs, x: int, head: int, shift: nat, j: nat): Recs
    requires 0 <= x < |R| && 0 <= head < |R| && 0 <= R[head].next < |R|
    requires 3 <= shift < PAGE_SHIFT && j < Cap(shift)
  {
    var R1 := Pushed(R, head, x, KindOf(shift));
    R1[x := UnmarkRec(R1[x], shift, j)]
  }

  lemma {:induction false} ReopenedRing(R: Recs, head: int, list: seq<int>, x: int, shift: nat, j: nat)
    requires 3 <= shift < PAGE_SHIFT && j < Cap(shift)
    requires Ring(R, head, list, KindOf(shift)) && 0 <= x < |R| && x != head && x !in list
    ensures 0 <= R[head].next < |R|
    ensures Ring(Reopened(R, x, head, shift, j), head, [x] + list, KindOf(shift))
    ensures var R' := Reopened(R, x, head, shift, j);
      && R'[x].slab == UnmarkRec(R[x], shift, j).slab && R'[x].kind == KindOf(shift)
      && (forall z :: 0 <= z < |R| && z != x ==> R'[z].slab == R[z].slab)
      && (forall z :: 0 <= z < |R| && z != x && z != head && z !in list ==> R'[z] == R[z])
  {
    var R1 := Pushed(R, head, x, KindOf(shift));
    PushRing(R, head, list, KindOf(shift), x);
    RingFrame(R1, Reopened(R, x, head, shift, j), head, [x] + list, KindOf(shift));
  }

  lemma {:induction false} ReopenSound(lay: Layout, R: Recs, bits: seq<seq<Word>>, runs: seq<Run>, free: seq<int>,
      slots: seq<seq<int>>, i: nat, s: nat, j: nat)
    requires Sound(lay, R, bits, runs, free, slots) && ChunkRun(lay, runs, i, s) && runs[i].start < lay.n
    requires Header(lay.minShift + s) <= j < Cap(lay.minShift + s) && j in runs[i].live
    requires Full(lay.minShift + s, runs[i].live) && 0 <= R[lay.SlotHead(s)].next < |R|
    ensures var x, shift := runs[i].start, lay.minShift + s;
      Sound(lay, Reopened(R, x, lay.SlotHead(s), shift, j), bits[x := UnmarkBits(bits[x], shift, j)],
        runs[i := runs[i].(live := runs[i].live - {j})], free, slots[s := [x] + slots[s]])
  {
    var x, shift, head := runs[i].start, lay.minShift + s, lay.SlotHead(s);
    var R', bits' := Reopened(R, x, head, shift, j), bits[x := UnmarkBits(bits[x], shift, j)];
    var r' := runs[i].(live := runs[i].live - {j});
    ChunkRunFacts(lay, R, bits, runs, free, slots, i, s);
    UnmarkOk(R[x], bits[x], shift, runs[i].live, j);
    ReopenedRing(R, head, slots[s], x, shift, j);
    LinksOnly(UnmarkRec(R[x], shift, j), R'[x], bits'[x], shift, r'.live);
    NotFull(shift, r'.live, j);
    FullNotLast(shift, runs[i].live, j);
    ChunkRunOk(lay, R', bits', x, s, r'.live);
    OnePageSound(lay, R, R', bits, bits', runs, free, slots, i, s, r', [x] + slots[s]);
  }

  /** A full page has another chunk out. */
  lemma {:induction false} FullNotLast(shift: nat, live: set<nat>, j: nat)
    requires 3 <= shift < PAGE_SHIFT && Full(shift, live)
    ensures live - {j} != {}
  {
    Classes(shift);
    assert (if j == Header(shift) then Header(shift) + 1 else Header(shift)) in live - {j};
  }

  // ---- Giving an empty page up ----

  /** The records as if `page` were an allocation of `k` whole pages on no list. */
  function Plain(R: Recs, page: int, k: nat): Recs
    requires 0 <= page < |R| && 1 <= k < PAGE_START
    requires R[page].next != NULL ==> 0 <= R[page].prev < |R| && 0 <= R[page].next < |R|
  {
    (if R[page].next != NULL then Unlinked(R, page) else R)[page := BusyRec(page, k, page)]
  }

  /** When its last chunk has come back a page can be taken for an allocated page. */
  lemma {:induction false} EmptySound(lay: Layout, R: Recs, R': Recs, bits: seq<seq<Word>>, bits': seq<seq<Word>>,
      runs: seq<Run>, free: seq<int>, slots: seq<seq<int>>, i: nat, s: nat)
    requires Sound(lay, R, bits, runs, free, slots) && ChunkRun(lay, runs, i, s) && runs[i].start < lay.n
    requires !Full(lay.minShift + s, runs[i].live)
    requires |R'| == |R| && |bits'| == |bits| && SameLinks(R[runs[i].start], R'[runs[i].start])
    requires forall z :: 0 <= z < |R| && z != runs[i].start ==> R'[z] == R[z]
    requires forall z :: 0 <= z < |bits| && z != runs[i].start ==> bits'[z] == bits[z]
    ensures runs[i].start in slots[s]
    ensures var x := runs[i].start;
      && R'[x].next != NULL && 0 <= R'[x].prev < |R| && 0 <= R'[x].next < |R| && R'[x].prev != x && R'[x].next != x
      && Sound(lay, Plain(R', x, 1), bits', runs[i := Busy(x, 1)], free, slots[s := Minus(slots[s], x)])
  {
    var x, head, kind := runs[i].start, lay.SlotHead(s), KindOf(lay.minShift + s);
    ChunkRunFacts(lay, R, bits, runs, free, slots, i, s);
    RingFrame(R, R', head, slots[s], kind);
    TakenOffRing(R', head, slots[s], kind, x, BusyRec(x, 1, x));
    var P := Plain(R', x, 1);
    assert RunOk(lay.n, lay.minShift, P, bits', Busy(x, 1));
    OnePageSound(lay, R, P, bits, bits', runs, free, slots, i, s, Busy(x, 1), Minus(slots[s], x));
  }

  // ---- Both cases of handing out and of taking back ----

  function HandedOut(R: Recs, x: int, shift: nat, j: nat, full: bool): Recs
    requires 0 <= x < |R| && 3 <= shift < PAGE_SHIFT && j < Cap(shift)
    requires full ==> 0 <= R[x].prev < |R| && 0 <= R[x].next < |R|
  {
    var R1 := R[x := MarkRec(R[x], shift, j)];
    if full then TakenOff(R1, x) else R1
  }

  lemma {:induction false} HandedOutSound(lay: Layout, R: Recs, bits: seq<seq<Word>>, runs: seq<Run>, free: seq<int>,
      slots: seq<seq<int>>, i: nat, s: nat, j: nat, full: bool) returns (slots': seq<seq<int>>)
    requires Sound(lay, R, bits, runs, free, slots) && ChunkRun(lay, runs, i, s) && runs[i].start < lay.n
    requires Header(lay.minShift + s) <= j < Cap(lay.minShift + s)
    requires !Full(lay.minShift + s, runs[i].live) && full == Full(lay.minShift + s, runs[i].live + {j})
    requires full ==> 0 <= R[runs[i].start].next < |R| && 0 <= R[runs[i].start].prev < |R|
    ensures var x, shift, runs' := runs[i].start, lay.minShift + s, runs[i := runs[i].(live := runs[i].live + {j})];
      && Sound(lay, HandedOut(R, x, shift, j, full), bits[x := MarkBits(bits[x], shift, j)], runs', free, slots')
      && Sum(runs', FreePages) == Sum(runs, FreePages)
  {
    SumUpdate(runs, i, runs[i].(live := runs[i].live + {j}), FreePages);
    if full {
      FillSound(lay, R, bits, runs, free, slots, i, s, j);
      slots' := slots[s := Minus(slots[s], runs[i].start)];
    } else {
      HandOutSound(lay, R, bits, runs, free, slots, i, s, j);
      slots' := slots;
    }
  }

  function TakenBack(R: Recs, x: int, head: int, shift: nat, j: nat, full: bool): Recs
    requires 0 <= x < |R| && 3 <= shift < PAGE_SHIFT && j < Cap(shift)
    requires full ==> 0 <= head < |R| && 0 <= R[head].next < |R|
  {
    if full then Reopened(R, x, head, shift, j) else R[x := UnmarkRec(R[x], shift, j)]
  }

  lemma {:induction false} TakenBackSound(lay: Layout, R: Recs, bits: seq<seq<Word>>, runs: seq<Run>, free: seq<int>,
      slots: seq<seq<int>>, i: nat, s: nat, j: nat, full: bool) returns (slots': seq<seq<int>>)
    requires Sound(lay, R, bits, runs, free, slots) && ChunkRun(lay, runs, i, s) && runs[i].start < lay.n
    requires Header(lay.minShift + s) <= j < Cap(lay.minShift + s) && j in runs[i].live && runs[i].live != {j}
    requires full == Full(lay.minShift + s, runs[i].live) && (full ==> 0 <= R[lay.SlotHead(s)].next < |R|)
    ensures var x, shift, runs' := runs[i].start, lay.minShift + s, runs[i := runs[i].(live := runs[i].live - {j})];
      && Sound(lay, TakenBack(R, x, lay.SlotHead(s), shift, j, full), bits[x := UnmarkBits(bits[x], shift, j)], runs',
        free, slots')
      && Sum(runs', FreePages) == Sum(runs, FreePages)
  {
    SumUpdate(runs, i, runs[i].(live := runs[i].live - {j}), FreePages);
    if full {
      ReopenSound(lay, R, bits, runs, free, slots, i, s, j);
      slots' := slots[s := [runs[i].start] + slots[s]];
    } else {
      TakeBackSound(lay, R, bits, runs, free, slots, i, s, j);
      slots' := slots;
    }
  }
}
