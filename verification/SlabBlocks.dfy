/** The memory a slab pool has handed out, in bytes from the start of its first page. */
module SlabBlocks {
  import opened Arith
  import opened Words
  import opened SlabRuns
  import opened SlabLists
  import opened SlabState
  import opened SlabChunks

  const PAGE_SIZE: nat := 4096

  datatype Block = Block(addr: nat, size: nat)

  function ChunkBlock(page: nat, shift: nat, j: nat): Block
    requires shift <= PAGE_SHIFT
  {
    Block(page * PAGE_SIZE + j * Size(shift), Size(shift))
  }

  function PageBlock(page: nat, len: nat): Block {
    Block(page * PAGE_SIZE, len * PAGE_SIZE)
  }

  ghost predicate BlockOf(minShift: nat, r: Run, b: Block) {
    match r
    case Free(_, _) => false
    case Busy(start, len) => b == PageBlock(start, len)
    case Chunks(start, slot, live) =>
      minShift + slot < PAGE_SHIFT && exists j :: j in live && b == ChunkBlock(start, minShift + slot, j)
  }

  /** `b` is allocated. */
  ghost predicate Live(minShift: nat, runs: seq<Run>, b: Block) {
    exists i :: 0 <= i < |runs| && BlockOf(minShift, runs[i], b)
  }

  predicate Disjoint(b: Block, c: Block) {
    b.addr + b.size <= c.addr || c.addr + c.size <= b.addr
  }

  lemma {:induction false} ChunkInPage(shift: nat, j: nat)
    requires 3 <= shift < PAGE_SHIFT && j < Cap(shift)
    ensures j * Size(shift) + Size(shift) <= PAGE_SIZE && Size(shift) > 0
  {
    Classes(shift);
    MultipleOrder(j, Cap(shift), Size(shift));
  }

  /** The chunks of a page are known. */
  ghost predicate ChunksBounded(minShift: nat, r: Run) {
    r.Chunks? ==> 3 <= minShift + r.slot < PAGE_SHIFT && forall j :: j in r.live ==>
      Header(minShift + r.slot) <= j < Cap(minShift + r.slot)
  }

  lemma {:induction false} SoundBounded(lay: Layout, R: Recs, bits: seq<seq<Word>>, runs: seq<Run>, free: seq<int>,
      slots: seq<seq<int>>, i: nat)
    requires Sound(lay, R, bits, runs, free, slots) && i < |runs|
    ensures ChunksBounded(lay.minShift, runs[i])
  {
    assert EncodedAt(lay, R, bits, runs, i);
  }

  /** A block lies in the pages of its run. */
  lemma {:induction false} BlockInRun(minShift: nat, r: Run, b: Block)
    requires ChunksBounded(minShift, r) && r.Len() >= 1 && BlockOf(minShift, r, b)
    ensures r.start * PAGE_SIZE <= b.addr && b.addr + b.size <= r.End() * PAGE_SIZE && b.size > 0
  {
    if r.Chunks? {
      var j :| j in r.live && b == ChunkBlock(r.start, minShift + r.slot, j);
      ChunkInPage(minShift + r.slot, j);
    }
  }

  /** Allocated blocks do not overlap. */
  lemma {:induction false} LiveDisjoint(lay: Layout, R: Recs, bits: seq<seq<Word>>, runs: seq<Run>, free: seq<int>,
      slots: seq<seq<int>>, b: Block, c: Block)
    requires Sound(lay, R, bits, runs, free, slots)
    requires Live(lay.minShift, runs, b) && Live(lay.minShift, runs, c) && b != c
    ensures Disjoint(b, c)
  {
    var i :| 0 <= i < |runs| && BlockOf(lay.minShift, runs[i], b);
    var k :| 0 <= k < |runs| && BlockOf(lay.minShift, runs[k], c);
    SoundBounded(lay, R, bits, runs, free, slots, i);
    SoundBounded(lay, R, bits, runs, free, slots, k);
    if i == k {
      SameRunDisjoint(lay.minShift, runs[i], b, c);
    } else {
      RunsApart(runs, lay.n, i, k);
      BlockInRun(lay.minShift, runs[i], b);
      BlockInRun(lay.minShift, runs[k], c);
    }
  }

  lemma {:induction false} RunsApart(runs: seq<Run>, n: nat, i: nat, k: nat)
    requires Tiles(runs, 0, n) && i < |runs| && k < |runs| && i != k
    ensures runs[i].Len() >= 1 && runs[k].Len() >= 1
    ensures runs[i].End() <= runs[k].start || runs[k].End() <= runs[i].start
  {
    TilesAt(runs, 0, n, i);
    TilesAt(runs, 0, n, k);
    if i < k { TilesOrder(runs, 0, n, i, k); } else { TilesOrder(runs, 0, n, k, i); }
  }

  lemma {:induction false} SameRunDisjoint(minShift: nat, r: Run, b: Block, c: Block)
    requires ChunksBounded(minShift, r) && BlockOf(minShift, r, b) && BlockOf(minShift, r, c) && b != c
    ensures Disjoint(b, c)
  {
    var j :| j in r.live && b == ChunkBlock(r.start, minShift + r.slot, j);
    var k :| k in r.live && c == ChunkBlock(r.start, minShift + r.slot, k);
    if j < k { MultipleOrder(j, k, b.size); } else { MultipleOrder(k, j, b.size); }
  }

  /** Allocated blocks are inside the pool and aligned to their size, or to a page. */
  lemma {:induction false} LiveAligned(lay: Layout, R: Recs, bits: seq<seq<Word>>, runs: seq<Run>, free: seq<int>,
      slots: seq<seq<int>>, b: Block)
    requires Sound(lay, R, bits, runs, free, slots) && Live(lay.minShift, runs, b)
    ensures b.addr + b.size <= lay.n * PAGE_SIZE
    ensures b.size > 0 && b.addr % (if b.size < PAGE_SIZE then b.size else PAGE_SIZE) == 0
  {
    var i :| 0 <= i < |runs| && BlockOf(lay.minShift, runs[i], b);
    SoundBounded(lay, R, bits, runs, free, slots, i);
    TilesAt(runs, 0, lay.n, i);
    BlockInRun(lay.minShift, runs[i], b);
    BlockAligned(lay.minShift, runs[i], b);
  }

  lemma {:induction false} BlockAligned(minShift: nat, r: Run, b: Block)
    requires ChunksBounded(minShift, r) && r.Len() >= 1 && BlockOf(minShift, r, b)
    ensures b.size > 0 && b.addr % (if b.size < PAGE_SIZE then b.size else PAGE_SIZE) == 0
  {
    if r.Chunks? {
      var j :| j in r.live && b == ChunkBlock(r.start, minShift + r.slot, j);
      ChunkAligned(r.start, minShift + r.slot, j);
    }
  }

  lemma {:induction false} ChunkAligned(page: nat, shift: nat, j: nat)
    requires 3 <= shift < PAGE_SHIFT
    ensures 0 < Size(shift) < PAGE_SIZE && (page * PAGE_SIZE + j * Size(shift)) % Size(shift) == 0
  {
    Classes(shift);
    var size := Size(shift);
    assert page * PAGE_SIZE == page * (Cap(shift) * size) == (page * Cap(shift)) * size;
    assert page * PAGE_SIZE + j * size == (page * Cap(shift) + j) * size;
    MultipleMod(page * Cap(shift) + j, size);
  }

  lemma {:induction false} HeaderApart(minShift: nat, r: Run, b: Block)
    requires ChunksBounded(minShift, r) && r.Chunks? && minShift + r.slot < EXACT_SHIFT && BlockOf(minShift, r, b)
    ensures r.start * PAGE_SIZE + 8 * MapWords(minShift + r.slot) <= b.addr
  {
    var shift := minShift + r.slot;
    var j :| j in r.live && b == ChunkBlock(r.start, shift, j);
    Classes(shift);
    if Header(shift) < j { MultipleOrder(Header(shift), j, Size(shift)); }
  }

  /** No allocated block overlaps the bitmap at the front of a page. */
  lemma {:induction false} ClearOfBitmap(lay: Layout, R: Recs, bits: seq<seq<Word>>, runs: seq<Run>, free: seq<int>,
      slots: seq<seq<int>>, b: Block, i: nat)
    requires Sound(lay, R, bits, runs, free, slots) && Live(lay.minShift, runs, b)
    requires i < |runs| && runs[i].Chunks? && lay.minShift + runs[i].slot < EXACT_SHIFT
    ensures runs[i].start < lay.n && Disjoint(Block(runs[i].start * PAGE_SIZE, 8 * |bits[runs[i].start]|), b)
  {
    var k :| 0 <= k < |runs| && BlockOf(lay.minShift, runs[k], b);
    SoundBounded(lay, R, bits, runs, free, slots, k);
    TilesAt(runs, 0, lay.n, i);
    assert EncodedAt(lay, R, bits, runs, i);
    assert 8 * |bits[runs[i].start]| <= PAGE_SIZE by { Classes(lay.minShift + runs[i].slot); }
    if i == k {
      HeaderApart(lay.minShift, runs[i], b);
    } else {
      RunsApart(runs, lay.n, i, k);
      BlockInRun(lay.minShift, runs[k], b);
    }
  }

  // ---- How the allocated blocks change ----

  /** `runs'` has the blocks of `runs` and `b` besides. */
  ghost predicate Gains(minShift: nat, runs: seq<Run>, runs': seq<Run>, b: Block) {
    forall c {:trigger Live(minShift, runs', c)} {:trigger Live(minShift, runs, c)} ::
      Live(minShift, runs', c) <==> Live(minShift, runs, c) || c == b
  }

  /** The blocks of the splice are those of its parts. */
  lemma {:induction false} LiveSplice(minShift: nat, runs: seq<Run>, lo: nat, hi: nat, mid: seq<Run>, c: Block)
    requires lo <= hi <= |runs|
    ensures Live(minShift, Splice(runs, lo, hi, mid), c) <==>
      Live(minShift, runs[..lo], c) || Live(minShift, mid, c) || Live(minShift, runs[hi..], c)
  {
    LiveConcat(minShift, runs[..lo] + mid, runs[hi..], c);
    LiveConcat(minShift, runs[..lo], mid, c);
  }

  lemma {:induction false} LiveConcat(minShift: nat, a: seq<Run>, b: seq<Run>, c: Block)
    ensures Live(minShift, a + b, c) <==> Live(minShift, a, c) || Live(minShift, b, c)
  {
    if Live(minShift, a, c) {
      var i :| 0 <= i < |a| && BlockOf(minShift, a[i], c);
      assert (a + b)[i] == a[i];
    }
    if Live(minShift, b, c) {
      var i :| 0 <= i < |b| && BlockOf(minShift, b[i], c);
      assert (a + b)[|a| + i] == b[i];
    }
  }

  lemma {:induction false} SpliceGains(minShift: nat, runs: seq<Run>, lo: nat, hi: nat, mid: seq<Run>, b: Block)
    requires lo <= hi <= |runs| && Gains(minShift, runs[lo..hi], mid, b)
    ensures Gains(minShift, runs, Splice(runs, lo, hi, mid), b)
  {
    assert runs == Splice(runs, lo, hi, runs[lo..hi]);
    forall c ensures Live(minShift, Splice(runs, lo, hi, mid), c) <==> Live(minShift, runs, c) || c == b {
      LiveSplice(minShift, runs, lo, hi, mid, c);
      LiveSplice(minShift, runs, lo, hi, runs[lo..hi], c);
    }
  }

  /** Giving back undoes: where `b` was gained, it can be lost again, if it was not there
      before. */
  lemma {:induction false} SpliceLoses(minShift: nat, runs: seq<Run>, lo: nat, hi: nat, mid: seq<Run>, b: Block)
    requires lo <= hi <= |runs| && Gains(minShift, mid, runs[lo..hi], b)
    ensures Gains(minShift, Splice(runs, lo, hi, mid), runs, b)
  {
    assert runs == Splice(runs, lo, hi, runs[lo..hi]);
    forall c ensures Live(minShift, runs, c) <==> Live(minShift, Splice(runs, lo, hi, mid), c) || c == b {
      LiveSplice(minShift, runs, lo, hi, mid, c);
      LiveSplice(minShift, runs, lo, hi, runs[lo..hi], c);
    }
  }

  lemma {:induction false} LiveOne(minShift: nat, r: Run, c: Block)
    ensures Live(minShift, [r], c) <==> BlockOf(minShift, r, c)
  {
    if BlockOf(minShift, r, c) { assert BlockOf(minShift, [r][0], c); }
  }

  /** Whole pages allocated. */
  lemma {:induction false} TakenGains(minShift: nat, runs: seq<Run>, i: nat, k: nat)
    requires i < |runs| && runs[i].Free? && 1 <= k <= runs[i].len
    ensures Gains(minShift, runs, Taken(runs, i, k), PageBlock(runs[i].start, k))
  {
    var mid, b := Cut(runs[i], k), PageBlock(runs[i].start, k);
    forall c ensures Live(minShift, mid, c) <==> Live(minShift, runs[i..i + 1], c) || c == b {
      assert runs[i..i + 1] == [runs[i]];
      LiveOne(minShift, runs[i], c);
      assert BlockOf(minShift, mid[0], c) <==> c == b;
    }
    SpliceGains(minShift, runs, i, i + 1, mid, b);
  }

  /** A run that holds one block given back. */
  lemma {:induction false} ReleasedLoses(minShift: nat, runs: seq<Run>, i: nat, b: Block)
    requires i < |runs| && !runs[i].Free? && forall c :: BlockOf(minShift, runs[i], c) <==> c == b
    ensures Gains(minShift, Released(runs, i), runs, b)
  {
    var lo, hi, f := JoinLow(runs, i), JoinHigh(runs, i), Joined(runs, i);
    var part := runs[lo..hi + 1];
    assert part[i - lo] == runs[i];
    forall c ensures Live(minShift, part, c) <==> Live(minShift, [f], c) || c == b {
      LiveOne(minShift, f, c);
      assert BlockOf(minShift, part[i - lo], c) <==> c == b;
      forall a | 0 <= a < |part| && a != i - lo ensures !BlockOf(minShift, part[a], c) { assert part[a].Free?; }
    }
    SpliceLoses(minShift, runs, lo, hi + 1, [f], b);
  }

  /** A block can only be a block of the run in whose pages it starts. */
  lemma {:induction false} NotLive(minShift: nat, runs: seq<Run>, n: nat, i: nat, b: Block)
    requires Tiles(runs, 0, n) && i < |runs| && forall k :: 0 <= k < |runs| ==> ChunksBounded(minShift, runs[k])
    requires runs[i].start * PAGE_SIZE <= b.addr < runs[i].End() * PAGE_SIZE && !BlockOf(minShift, runs[i], b)
    ensures !Live(minShift, runs, b)
  {
    if Live(minShift, runs, b) {
      var k :| 0 <= k < |runs| && BlockOf(minShift, runs[k], b);
      RunsApart(runs, n, i, k);
      BlockInRun(minShift, runs[k], b);
    }
  }

  lemma {:induction false} ChunkNotOf(minShift: nat, r: Run, j: nat)
    requires r.Chunks? && 3 <= minShift + r.slot < PAGE_SHIFT && j !in r.live
    ensures !BlockOf(minShift, r, ChunkBlock(r.start, minShift + r.slot, j))
  {
    var shift := minShift + r.slot;
    Classes(shift);
    forall k | k in r.live ensures ChunkBlock(r.start, shift, k) != ChunkBlock(r.start, shift, j) {
      if j < k { MultipleOrder(j, k, Size(shift)); } else { MultipleOrder(k, j, Size(shift)); }
    }
  }

  /** Chunk `j` handed out. */
  lemma {:induction false} ChunkGains(minShift: nat, runs: seq<Run>, i: nat, live': set<nat>, j: nat)
    requires i < |runs| && runs[i].Chunks? && minShift + runs[i].slot < PAGE_SHIFT && live' == runs[i].live + {j}
    ensures Gains(minShift, runs, runs[i := runs[i].(live := live')],
      ChunkBlock(runs[i].start, minShift + runs[i].slot, j))
  {
    var r, shift := runs[i], minShift + runs[i].slot;
    var r', b := r.(live := live'), ChunkBlock(r.start, shift, j);
    forall c ensures Live(minShift, [r'], c) <==> Live(minShift, runs[i..i + 1], c) || c == b {
      assert runs[i..i + 1] == [r];
      LiveOne(minShift, r, c);
      LiveOne(minShift, r', c);
    }
    assert runs[i := r'] == Splice(runs, i, i + 1, [r']);
    SpliceGains(minShift, runs, i, i + 1, [r'], b);
  }

  /** A page cut into chunks, with one chunk out, for a page that was allocated whole. */
  lemma {:induction false} CutGains(minShift: nat, runs: seq<Run>, i: nat, k: nat, slot: nat, j: nat)
    requires i < |runs| && runs[i].Free? && 1 == k <= runs[i].len && minShift + slot < PAGE_SHIFT
    ensures i < |Taken(runs, i, k)| && Taken(runs, i, k)[i] == Busy(runs[i].start, 1)
    ensures Gains(minShift, runs, Taken(runs, i, k)[i := Chunks(runs[i].start, slot, {j})],
      ChunkBlock(runs[i].start, minShift + slot, j))
  {
    var r := runs[i];
    var r', b := Chunks(r.start, slot, {j}), ChunkBlock(r.start, minShift + slot, j);
    var mid := Cut(r, k)[0 := r'];
    assert Taken(runs, i, k)[i := r'] == Splice(runs, i, i + 1, mid);
    forall c ensures Live(minShift, mid, c) <==> Live(minShift, runs[i..i + 1], c) || c == b {
      assert runs[i..i + 1] == [r];
      LiveOne(minShift, r, c);
      if c == b { assert j in r'.live; }
      assert BlockOf(minShift, mid[0], c) <==> c == b;
    }
    SpliceGains(minShift, runs, i, i + 1, mid, b);
  }

  ghost predicate AllBounded(minShift: nat, runs: seq<Run>) {
    forall k {:trigger runs[k]} :: 0 <= k < |runs| ==> ChunksBounded(minShift, runs[k])
  }

  lemma {:induction false} SoundAllBounded(lay: Layout, R: Recs, bits: seq<seq<Word>>, runs: seq<Run>, free: seq<int>,
      slots: seq<seq<int>>)
    requires Sound(lay, R, bits, runs, free, slots)
    ensures AllBounded(lay.minShift, runs)
  {
    forall k | 0 <= k < |runs| ensures ChunksBounded(lay.minShift, runs[k]) {
      SoundBounded(lay, R, bits, runs, free, slots, k);
    }
  }

  /** `runs'` is `runs` with the block `b`, which was not there before. */
  ghost predicate Allocated(minShift: nat, runs: seq<Run>, runs': seq<Run>, b: Block) {
    !Live(minShift, runs, b) && Gains(minShift, runs, runs', b)
  }

  lemma {:induction false} TakenAllocated(minShift: nat, runs: seq<Run>, n: nat, i: nat, k: nat)
    requires Tiles(runs, 0, n) && AllBounded(minShift, runs)
    requires i < |runs| && runs[i].Free? && 1 <= k <= runs[i].len
    ensures Allocated(minShift, runs, Taken(runs, i, k), PageBlock(runs[i].start, k))
  {
    TakenGains(minShift, runs, i, k);
    NotLive(minShift, runs, n, i, PageBlock(runs[i].start, k));
  }

  lemma {:induction false} CutAllocated(minShift: nat, runs: seq<Run>, n: nat, i: nat, slot: nat, j: nat)
    requires Tiles(runs, 0, n) && AllBounded(minShift, runs)
    requires i < |runs| && runs[i].Free? && 1 <= runs[i].len && 3 <= minShift + slot < PAGE_SHIFT
      && j < Cap(minShift + slot)
    ensures i < |Taken(runs, i, 1)| && Taken(runs, i, 1)[i] == Busy(runs[i].start, 1)
    ensures Allocated(minShift, runs, Taken(runs, i, 1)[i := Chunks(runs[i].start, slot, {j})],
      ChunkBlock(runs[i].start, minShift + slot, j))
  {
    CutGains(minShift, runs, i, 1, slot, j);
    ChunkInPage(minShift + slot, j);
    NotLive(minShift, runs, n, i, ChunkBlock(runs[i].start, minShift + slot, j));
  }

  lemma {:induction false} ChunkAllocated(minShift: nat, runs: seq<Run>, n: nat, i: nat, j: nat)
    requires Tiles(runs, 0, n) && AllBounded(minShift, runs)
    requires i < |runs| && runs[i].Chunks? && 3 <= minShift + runs[i].slot < PAGE_SHIFT
      && j < Cap(minShift + runs[i].slot)
    requires j !in runs[i].live
    ensures Allocated(minShift, runs, runs[i := runs[i].(live := runs[i].live + {j})],
      ChunkBlock(runs[i].start, minShift + runs[i].slot, j))
  {
    ChunkGains(minShift, runs, i, runs[i].live + {j}, j);
    ChunkInPage(minShift + runs[i].slot, j);
    ChunkNotOf(minShift, runs[i], j);
    NotLive(minShift, runs, n, i, ChunkBlock(runs[i].start, minShift + runs[i].slot, j));
  }

  /** A chunk comes back to a page that has others out. */
  lemma {:induction false} ChunkReleased(minShift: nat, runs: seq<Run>, n: nat, i: nat, j: nat)
    requires Tiles(runs, 0, n) && AllBounded(minShift, runs)
    requires i < |runs| && runs[i].Chunks? && j in runs[i].live
    ensures minShift + runs[i].slot <= PAGE_SHIFT
    ensures Allocated(minShift, runs[i := runs[i].(live := runs[i].live - {j})], runs,
      ChunkBlock(runs[i].start, minShift + runs[i].slot, j))
  {
    var r' := runs[i].(live := runs[i].live - {j});
    var runs' := runs[i := r'];
    assert runs'[i := r'.(live := r'.live + {j})] == runs by { assert r'.live + {j} == runs[i].live; }
    assert runs' == Splice(runs, i, i + 1, [r']);
    TilesAt(runs, 0, n, i);
    assert [r'][1..] == [];
    SpliceTiles(runs, n, i, i + 1, [r']);
    assert AllBounded(minShift, runs') by {
      assert ChunksBounded(minShift, runs[i]);
      forall k | 0 <= k < |runs'| ensures ChunksBounded(minShift, runs'[k]) { assert k != i ==> runs'[k] == runs[k]; }
    }
    ChunkAllocated(minShift, runs', n, i, j);
  }

  /** A run that holds one block is given back as a whole. */
  lemma {:induction false} RunReleased(minShift: nat, runs: seq<Run>, n: nat, i: nat, b: Block)
    requires Tiles(runs, 0, n) && AllBounded(minShift, runs) && Coalesced(runs)
    requires i < |runs| && !runs[i].Free? && forall c :: BlockOf(minShift, runs[i], c) <==> c == b
    ensures Allocated(minShift, Released(runs, i), runs, b)
  {
    ReleasedLoses(minShift, runs, i, b);
    ReleasedTiles(runs, n, i);
    var runs', lo, hi := Released(runs, i), JoinLow(runs, i), JoinHigh(runs, i) + 1;
    assert AllBounded(minShift, runs') by {
      forall k | 0 <= k < |runs'| ensures ChunksBounded(minShift, runs'[k]) {
        SpliceAt(runs, lo, hi, [Joined(runs, i)], k);
      }
    }
    TilesAt(runs, 0, n, i);
    assert ChunksBounded(minShift, runs[i]) && BlockOf(minShift, runs[i], b);
    BlockInRun(minShift, runs[i], b);
    JoinedBounds(runs, n, i);
    SpliceAt(runs, lo, hi, [Joined(runs, i)], lo);
    JoinedCovers(runs, n, i);
    NotLive(minShift, runs', n, lo, b);
  }

  lemma {:induction false} JoinedCovers(runs: seq<Run>, n: nat, i: nat)
    requires Tiles(runs, 0, n) && i < |runs| && !runs[i].Free?
    ensures Joined(runs, i).start <= runs[i].start && runs[i].End() <= Joined(runs, i).End()
  {
    JoinedBounds(runs, n, i);
  }

  lemma {:induction false} PageBlockOnly(minShift: nat, r: Run)
    requires r.Busy?
    ensures forall c :: BlockOf(minShift, r, c) <==> c == PageBlock(r.start, r.len)
  {
  }

  lemma {:induction false} ChunkBlockOnly(minShift: nat, r: Run, j: nat)
    requires r.Chunks? && minShift + r.slot < PAGE_SHIFT && r.live == {j}
    ensures forall c :: BlockOf(minShift, r, c) <==> c == ChunkBlock(r.start, minShift + r.slot, j)
  {
    assert j in r.live;
  }

  // ---- Which pointers are blocks ----

  /** `p` is the address of an allocated block. */
  ghost predicate LiveAddr(minShift: nat, runs: seq<Run>, p: nat) {
    exists b: Block :: b.addr == p && Live(minShift, runs, b)
  }

  /** `p` points at one of the chunks that hold the bitmap of a page. */
  ghost predicate HeaderAddr(minShift: nat, runs: seq<Run>, p: nat) {
    exists i :: 0 <= i < |runs| && runs[i].Chunks? && minShift + runs[i].slot < EXACT_SHIFT
      && HeaderAt(runs[i].start, minShift + runs[i].slot, p)
  }

  predicate HeaderAt(page: nat, shift: nat, p: nat)
    requires shift <= PAGE_SHIFT
  {
    p / PAGE_SIZE == page && Size(shift) > 0 && p % PAGE_SIZE % Size(shift) == 0
      && p % PAGE_SIZE / Size(shift) < Header(shift)
  }

  /** Only the run of its page can have a block at `p`. */
  lemma {:induction false} AddrRun(minShift: nat, runs: seq<Run>, n: nat, i: nat, p: nat)
    requires Tiles(runs, 0, n) && AllBounded(minShift, runs)
    requires i < |runs| && runs[i].start <= p / PAGE_SIZE < runs[i].End()
    ensures LiveAddr(minShift, runs, p) <==> exists b: Block :: b.addr == p && BlockOf(minShift, runs[i], b)
  {
    if LiveAddr(minShift, runs, p) {
      var b: Block :| b.addr == p && Live(minShift, runs, b);
      if !BlockOf(minShift, runs[i], b) { NotLive(minShift, runs, n, i, b); }
    }
    if exists b: Block :: b.addr == p && BlockOf(minShift, runs[i], b) {
      var b: Block :| b.addr == p && BlockOf(minShift, runs[i], b);
      assert Live(minShift, runs, b);
    }
  }

  /** Division of an offset in a page by the chunk size gives the chunk. */
  lemma {:induction false} ChunkOfAddr(page: nat, shift: nat, j: nat)
    requires 3 <= shift < PAGE_SHIFT && j < Cap(shift)
    ensures var p := page * PAGE_SIZE + j * Size(shift);
      && p / PAGE_SIZE == page && p % PAGE_SIZE == j * Size(shift) && Size(shift) > 0
      && p % PAGE_SIZE % Size(shift) == 0 && p % PAGE_SIZE / Size(shift) == j
  {
    ChunkInPage(shift, j);
    MultipleMod(j, Size(shift));
  }

  lemma {:induction false} AddrOfChunk(p: nat, shift: nat)
    requires 3 <= shift < PAGE_SHIFT && Size(shift) > 0 && p % PAGE_SIZE % Size(shift) == 0
    ensures var j := p % PAGE_SIZE / Size(shift);
      j < Cap(shift) && p == p / PAGE_SIZE * PAGE_SIZE + j * Size(shift)
  {
    Classes(shift);
    var off, size := p % PAGE_SIZE, Size(shift);
    var j := off / size;
    assert off == j * size;
    if j > Cap(shift) { MultipleOrder(Cap(shift), j, size); }
  }

  /** A pointer into a page of chunks is a block exactly if it points at a chunk that is out. */
  lemma {:induction false} ChunkAddr(minShift: nat, runs: seq<Run>, n: nat, i: nat, p: nat)
    requires Tiles(runs, 0, n) && AllBounded(minShift, runs)
    requires i < |runs| && runs[i].Chunks? && runs[i].start == p / PAGE_SIZE
    ensures 3 <= minShift + runs[i].slot < PAGE_SHIFT && Size(minShift + runs[i].slot) > 0
    ensures var size := Size(minShift + runs[i].slot);
      LiveAddr(minShift, runs, p) <==> p % PAGE_SIZE % size == 0 && p % PAGE_SIZE / size in runs[i].live
  {
    assert ChunksBounded(minShift, runs[i]);
    Classes(minShift + runs[i].slot);
    AddrRun(minShift, runs, n, i, p);
    ChunkAddrOf(minShift, runs[i], p);
  }

  lemma {:induction false} ChunkAddrOf(minShift: nat, r: Run, p: nat)
    requires r.Chunks? && ChunksBounded(minShift, r) && r.start == p / PAGE_SIZE && Size(minShift + r.slot) > 0
    ensures var size := Size(minShift + r.slot);
      (exists b: Block :: b.addr == p && BlockOf(minShift, r, b)) <==>
        p % PAGE_SIZE % size == 0 && p % PAGE_SIZE / size in r.live
  {
    var shift := minShift + r.slot;
    var size := Size(shift);
    if p % PAGE_SIZE % size == 0 && p % PAGE_SIZE / size in r.live {
      AddrOfChunk(p, shift);
      assert BlockOf(minShift, r, ChunkBlock(r.start, shift, p % PAGE_SIZE / size));
    }
    if b: Block :| b.addr == p && BlockOf(minShift, r, b) {
      var j :| j in r.live && b == ChunkBlock(r.start, shift, j);
      ChunkOfAddr(r.start, shift, j);
    }
  }

  /** A pointer into whole pages is a block exactly if it points at their start. */
  lemma {:induction false} PageAddr(minShift: nat, runs: seq<Run>, n: nat, i: nat, p: nat)
    requires Tiles(runs, 0, n) && AllBounded(minShift, runs)
    requires i < |runs| && !runs[i].Chunks? && runs[i].start <= p / PAGE_SIZE < runs[i].End()
    ensures LiveAddr(minShift, runs, p) <==> runs[i].Busy? && p == runs[i].start * PAGE_SIZE
  {
    AddrRun(minShift, runs, n, i, p);
    if runs[i].Busy? { assert BlockOf(minShift, runs[i], PageBlock(runs[i].start, runs[i].len)); }
  }
}
