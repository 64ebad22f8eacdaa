/** What a slab pool holds, as a tiling of its pages: the abstract state of ngx_slab.c. */
module SlabRuns {

  /** A piece of the page array.
      `Free` is a free run, `Busy` an allocation of whole pages, and `Chunks` one page cut
      into chunks of one size class, `live` being the chunks handed out. */
  datatype Run =
    | Free(start: nat, len: nat)
    | Busy(start: nat, len: nat)
    | Chunks(start: nat, slot: nat, live: set<nat>)
  {
    function Len(): nat { if Chunks? then 1 else len }
    function End(): nat { start + Len() }
  }

  /** The runs cover pages `a .. b` from left to right without gap or overlap. */
  ghost predicate Tiles(runs: seq<Run>, a: nat, b: nat) {
    if runs == [] then a == b
    else runs[0].start == a && runs[0].Len() >= 1 && Tiles(runs[1..], runs[0].End(), b)
  }

  lemma {:induction false} TilesOrdered(runs: seq<Run>, a: nat, b: nat)
    requires Tiles(runs, a, b)
    ensures a + |runs| <= b
  {
    if runs != [] { TilesOrdered(runs[1..], runs[0].End(), b); }
  }

  lemma {:induction false} TilesConcat(x: seq<Run>, y: seq<Run>, a: nat, b: nat, c: nat)
    requires Tiles(x, a, b) && Tiles(y, b, c)
    ensures Tiles(x + y, a, c)
  {
    if x == [] {
      assert x + y == y;
    } else {
      assert (x + y)[1..] == x[1..] + y;
      TilesConcat(x[1..], y, x[0].End(), b, c);
    }
  }

  /** Every run splits the tiling at its start and at its end. */
  lemma {:induction false} TilesAt(runs: seq<Run>, a: nat, b: nat, i: nat)
    requires Tiles(runs, a, b) && i < |runs|
    ensures runs[i].Len() >= 1
    ensures Tiles(runs[..i], a, runs[i].start) && Tiles(runs[i + 1..], runs[i].End(), b)
    ensures a + i <= runs[i].start && runs[i].End() <= b
  {
    if i == 0 {
      TilesOrdered(runs[1..], runs[0].End(), b);
    } else {
      TilesAt(runs[1..], runs[0].End(), b, i - 1);
      assert runs[..i][1..] == runs[1..][..i - 1];
      assert runs[1..][i..] == runs[i + 1..];
    }
  }

  lemma {:induction false} TilesOrder(runs: seq<Run>, a: nat, b: nat, i: nat, j: nat)
    requires Tiles(runs, a, b) && i < j < |runs|
    ensures runs[i].End() <= runs[j].start
    ensures j == i + 1 ==> runs[i].End() == runs[j].start
  {
    TilesAt(runs, a, b, i);
    assert runs[j] == runs[i + 1..][j - i - 1];
    TilesAt(runs[i + 1..], runs[i].End(), b, j - i - 1);
  }

  /** Every page lies in a run. */
  lemma {:induction false} RunAt(runs: seq<Run>, a: nat, b: nat, p: nat) returns (i: nat)
    requires Tiles(runs, a, b) && a <= p < b
    ensures i < |runs| && runs[i].start <= p < runs[i].End()
  {
    if p < runs[0].End() {
      i := 0;
    } else {
      i := RunAt(runs[1..], runs[0].End(), b, p);
      i := i + 1;
    }
  }

  /** ... and in only one. */
  lemma {:induction false} RunUnique(runs: seq<Run>, a: nat, b: nat, i: nat, j: nat, p: nat)
    requires Tiles(runs, a, b) && i < |runs| && j < |runs|
    requires runs[i].start <= p < runs[i].End() && runs[j].start <= p < runs[j].End()
    ensures i == j
  {
    if i < j { TilesOrder(runs, a, b, i, j); }
    if j < i { TilesOrder(runs, a, b, j, i); }
  }

  /** No two free runs are adjacent. */
  ghost predicate Coalesced(runs: seq<Run>) {
    forall i {:trigger runs[i]} :: 0 <= i < |runs| - 1 ==> !(runs[i].Free? && runs[i + 1].Free?)
  }

  lemma {:induction false} CoalescedConcat(x: seq<Run>, y: seq<Run>)
    requires Coalesced(x) && Coalesced(y)
    requires x != [] && y != [] ==> !(x[|x| - 1].Free? && y[0].Free?)
    ensures Coalesced(x + y)
  {
    var s := x + y;
    forall i | 0 <= i < |s| - 1 ensures !(s[i].Free? && s[i + 1].Free?) {
      if i + 1 < |x| {
        assert s[i] == x[i];
      } else if i >= |x| {
        assert s[i] == y[i - |x|];
      }
    }
  }

  lemma {:induction false} CoalescedPart(runs: seq<Run>, lo: nat, hi: nat)
    requires Coalesced(runs) && lo <= hi <= |runs|
    ensures Coalesced(runs[lo..hi])
  {
    var s := runs[lo..hi];
    forall i | 0 <= i < |s| - 1 ensures !(s[i].Free? && s[i + 1].Free?) {
      assert s[i] == runs[lo + i];
    }
  }

  // ---- Sums over runs ----

  function Sum(runs: seq<Run>, f: Run -> nat): nat {
    if runs == [] then 0 else f(runs[0]) + Sum(runs[1..], f)
  }

  lemma {:induction false} SumConcat(a: seq<Run>, b: seq<Run>, f: Run -> nat)
    ensures Sum(a + b, f) == Sum(a, f) + Sum(b, f)
  {
    if a == [] {
      assert a + b == b;
    } else {
      assert (a + b)[1..] == a[1..] + b;
      SumConcat(a[1..], b, f);
    }
  }

  /** pool->pfree */
  function FreePages(r: Run): nat { if r.Free? then r.len else 0 }

  // ---- Replacing a stretch of runs ----

  /** Runs `lo` to `hi` (exclusive) replaced by `mid`. */
  function Splice(runs: seq<Run>, lo: nat, hi: nat, mid: seq<Run>): seq<Run>
    requires lo <= hi <= |runs|
  {
    runs[..lo] + mid + runs[hi..]
  }

  /** Where the run at position `k` of the splice comes from. */
  lemma {:induction false} SpliceAt(runs: seq<Run>, lo: nat, hi: nat, mid: seq<Run>, k: nat)
    requires lo <= hi <= |runs| && k < |Splice(runs, lo, hi, mid)|
    ensures |Splice(runs, lo, hi, mid)| == |runs| - (hi - lo) + |mid|
    ensures Splice(runs, lo, hi, mid)[k] ==
      if k < lo then runs[k] else if k < lo + |mid| then mid[k - lo] else runs[k - |mid| + (hi - lo)]
  {
  }

  /** A run outside the stretch is still there. */
  lemma {:induction false} SpliceKeeps(runs: seq<Run>, lo: nat, hi: nat, mid: seq<Run>, j: nat) returns (k: nat)
    requires lo <= hi <= |runs| && j < |runs| && (j < lo || hi <= j)
    ensures k < |Splice(runs, lo, hi, mid)| && Splice(runs, lo, hi, mid)[k] == runs[j]
  {
    k := if j < lo then j else j - (hi - lo) + |mid|;
    SpliceAt(runs, lo, hi, mid, k);
  }

  /** ... and so is the new stretch. */
  lemma {:induction false} SpliceHas(runs: seq<Run>, lo: nat, hi: nat, mid: seq<Run>, j: nat) returns (k: nat)
    requires lo <= hi <= |runs| && j < |mid|
    ensures k < |Splice(runs, lo, hi, mid)| && Splice(runs, lo, hi, mid)[k] == mid[j]
  {
    k := lo + j;
    SpliceAt(runs, lo, hi, mid, k);
  }

  lemma {:induction false} SpliceTiles(runs: seq<Run>, n: nat, lo: nat, hi: nat, mid: seq<Run>)
    requires Tiles(runs, 0, n) && lo < hi <= |runs|
    requires Tiles(mid, runs[lo].start, runs[hi - 1].End())
    ensures Tiles(Splice(runs, lo, hi, mid), 0, n)
  {
    TilesAt(runs, 0, n, lo);
    TilesAt(runs, 0, n, hi - 1);
    TilesConcat(runs[..lo], mid, 0, runs[lo].start, runs[hi - 1].End());
    TilesConcat(runs[..lo] + mid, runs[hi..], 0, runs[hi - 1].End(), n);
  }

  lemma {:induction false} SpliceSum(runs: seq<Run>, lo: nat, hi: nat, mid: seq<Run>, f: Run -> nat)
    requires lo <= hi <= |runs|
    ensures Sum(Splice(runs, lo, hi, mid), f) == Sum(runs, f) - Sum(runs[lo..hi], f) + Sum(mid, f)
  {
    assert runs == runs[..lo] + runs[lo..hi] + runs[hi..];
    SumConcat(runs[..lo] + runs[lo..hi], runs[hi..], f);
    SumConcat(runs[..lo], runs[lo..hi], f);
    SumConcat(runs[..lo] + mid, runs[hi..], f);
    SumConcat(runs[..lo], mid, f);
  }

  lemma {:induction false} SpliceCoalesced(runs: seq<Run>, lo: nat, hi: nat, mid: seq<Run>)
    requires Coalesced(runs) && lo <= hi <= |runs| && mid != [] && Coalesced(mid)
    requires lo > 0 ==> !(runs[lo - 1].Free? && mid[0].Free?)
    requires hi < |runs| ==> !(mid[|mid| - 1].Free? && runs[hi].Free?)
    ensures Coalesced(Splice(runs, lo, hi, mid))
  {
    CoalescedPart(runs, 0, lo);
    CoalescedPart(runs, hi, |runs|);
    assert runs[0..lo] == runs[..lo] && runs[hi..|runs|] == runs[hi..];
    CoalescedConcat(runs[..lo], mid);
    CoalescedConcat(runs[..lo] + mid, runs[hi..]);
  }

  // ---- Allocation and release of whole pages ----

  /** What is left of a free run when `k` pages are taken from its front. */
  function Cut(r: Run, k: nat): (mid: seq<Run>)
    requires r.Free? && 1 <= k <= r.len
    ensures mid != []
  {
    if k < r.len then [Busy(r.start, k), Free(r.start + k, r.len - k)] else [Busy(r.start, k)]
  }

  /** `k` pages from the front of free run `i`. */
  function Taken(runs: seq<Run>, i: nat, k: nat): seq<Run>
    requires i < |runs| && runs[i].Free? && 1 <= k <= runs[i].len
  {
    Splice(runs, i, i + 1, Cut(runs[i], k))
  }

  lemma {:induction false} TakenTiles(runs: seq<Run>, n: nat, i: nat, k: nat)
    requires Tiles(runs, 0, n) && Coalesced(runs)
    requires i < |runs| && runs[i].Free? && 1 <= k <= runs[i].len
    ensures Tiles(Taken(runs, i, k), 0, n) && Coalesced(Taken(runs, i, k))
    ensures Sum(Taken(runs, i, k), FreePages) == Sum(runs, FreePages) - k
  {
    var r := runs[i];
    var mid := Cut(r, k);
    assert k < r.len ==> mid[1..] == [Free(r.start + k, r.len - k)] && mid[1..][1..] == [];
    assert Tiles(mid, r.start, r.End());
    SpliceTiles(runs, n, i, i + 1, mid);
    SpliceCoalesced(runs, i, i + 1, mid);
    SpliceSum(runs, i, i + 1, mid, FreePages);
    assert runs[i..i + 1] == [r] && [r][1..] == [];
    assert Sum(mid, FreePages) == r.len - k;
  }

  predicate FreeAt(runs: seq<Run>, i: int) { 0 <= i < |runs| && runs[i].Free? }

  /** The first and the last of the runs that join when run `i` becomes free. */
  function JoinLow(runs: seq<Run>, i: nat): nat
    requires i < |runs|
  {
    if FreeAt(runs, i - 1) then i - 1 else i
  }

  function JoinHigh(runs: seq<Run>, i: nat): nat
    requires i < |runs|
  {
    if FreeAt(runs, i + 1) then i + 1 else i
  }

  function Joined(runs: seq<Run>, i: nat): Run
    requires i < |runs|
  {
    var left := if FreeAt(runs, i - 1) then runs[i - 1].len else 0;
    var right := if FreeAt(runs, i + 1) then runs[i + 1].len else 0;
    Free(runs[JoinLow(runs, i)].start, left + runs[i].Len() + right)
  }

  /** Run `i` becomes free and joins the free runs next to it. */
  function Released(runs: seq<Run>, i: nat): seq<Run>
    requires i < |runs|
  {
    Splice(runs, JoinLow(runs, i), JoinHigh(runs, i) + 1, [Joined(runs, i)])
  }

  lemma {:induction false} JoinedBounds(runs: seq<Run>, n: nat, i: nat)
    requires Tiles(runs, 0, n) && i < |runs| && !runs[i].Free?
    ensures Joined(runs, i).start == runs[JoinLow(runs, i)].start
    ensures Joined(runs, i).End() == runs[JoinHigh(runs, i)].End()
    ensures FreeAt(runs, i - 1) ==> runs[i - 1].End() == runs[i].start
    ensures FreeAt(runs, i + 1) ==> runs[i + 1].start == runs[i].End()
    ensures Joined(runs, i).End() <= n
  {
    TilesAt(runs, 0, n, i);
    TilesAt(runs, 0, n, JoinHigh(runs, i));
    if FreeAt(runs, i - 1) { TilesOrder(runs, 0, n, i - 1, i); }
    if FreeAt(runs, i + 1) { TilesOrder(runs, 0, n, i, i + 1); }
  }

  /** Next to the joined runs nothing is free. */
  lemma {:induction false} JoinedNeighbours(runs: seq<Run>, i: nat)
    requires Coalesced(runs) && i < |runs| && !runs[i].Free?
    ensures var lo, hi := JoinLow(runs, i), JoinHigh(runs, i);
      (lo > 0 ==> !runs[lo - 1].Free?) && (hi + 1 < |runs| ==> !runs[hi + 1].Free?)
  {
    var lo, hi := JoinLow(runs, i), JoinHigh(runs, i);
    if lo > 0 && lo < i { assert runs[lo].Free?; }
    if i < hi { assert runs[hi].Free?; }
  }

  lemma {:induction false} ReleasedTiles(runs: seq<Run>, n: nat, i: nat)
    requires Tiles(runs, 0, n) && Coalesced(runs) && i < |runs| && !runs[i].Free?
    ensures Tiles(Released(runs, i), 0, n) && Coalesced(Released(runs, i))
    ensures Sum(Released(runs, i), FreePages) == Sum(runs, FreePages) + runs[i].Len()
  {
    var lo, hi, f := JoinLow(runs, i), JoinHigh(runs, i), Joined(runs, i);
    JoinedBounds(runs, n, i);
    TilesAt(runs, 0, n, i);
    assert [f][1..] == [];
    SpliceTiles(runs, n, lo, hi + 1, [f]);
    JoinedNeighbours(runs, i);
    SpliceCoalesced(runs, lo, hi + 1, [f]);
    SpliceSum(runs, lo, hi + 1, [f], FreePages);
    JoinedSum(runs, i);
  }

  lemma {:induction false} JoinedSum(runs: seq<Run>, i: nat)
    requires i < |runs| && !runs[i].Free?
    ensures Sum(runs[JoinLow(runs, i)..JoinHigh(runs, i) + 1], FreePages) + runs[i].Len() == Joined(runs, i).len
  {
    var lo, hi := JoinLow(runs, i), JoinHigh(runs, i);
    var left := runs[lo..i];
    var right := runs[i + 1..hi + 1];
    assert runs[lo..hi + 1] == left + ([runs[i]] + right);
    SumConcat(left, [runs[i]] + right, FreePages);
    SumConcat([runs[i]], right, FreePages);
    assert left == if lo < i then [runs[lo]] else [];
    assert right == if i < hi then [runs[hi]] else [];
    assert forall r: Run :: [r][1..] == [];
  }

  /** Releasing a run depends only on the pages it has. */
  lemma {:induction false} ReleasedAs(runs: seq<Run>, i: nat, r: Run)
    requires i < |runs| && r.start == runs[i].start && r.Len() == runs[i].Len() && !r.Free? && !runs[i].Free?
    ensures Released(runs[i := r], i) == Released(runs, i)
  {
    assert Joined(runs[i := r], i) == Joined(runs, i);
    assert runs[i := r][..JoinLow(runs, i)] == runs[..JoinLow(runs, i)];
    assert runs[i := r][JoinHigh(runs, i) + 1..] == runs[JoinHigh(runs, i) + 1..];
  }

  /** Giving pages back right after they were taken restores the runs. */
  lemma {:induction false} TakenThenReleased(runs: seq<Run>, n: nat, i: nat, k: nat)
    requires Tiles(runs, 0, n) && Coalesced(runs)
    requires i < |runs| && runs[i].Free? && 1 <= k <= runs[i].len
    ensures i < |Taken(runs, i, k)| && Released(Taken(runs, i, k), i) == runs
  {
    var mid := Taken(runs, i, k);
    var cut := Cut(runs[i], k);
    assert mid == runs[..i] + cut + runs[i + 1..];
    assert mid[i] == cut[0];
    assert !FreeAt(mid, i - 1) by { if i > 0 { assert mid[i - 1] == runs[i - 1]; } }
    if k == runs[i].len {
      assert !FreeAt(mid, i + 1) by { if i + 1 < |mid| { assert mid[i + 1] == runs[i + 1] && runs[i].Free?; } }
      assert mid[i + 1..] == runs[i + 1..];
    } else {
      assert mid[i + 1] == cut[1];
      assert mid[i + 2..] == runs[i + 1..];
    }
    assert mid[..i] == runs[..i];
    assert Joined(mid, i) == runs[i];
    assert runs == runs[..i] + [runs[i]] + runs[i + 1..];
  }

  ghost predicate FreePage(runs: seq<Run>, p: nat) {
    exists i :: 0 <= i < |runs| && runs[i].Free? && runs[i].start <= p < runs[i].End()
  }

  /** Not all of the `k` pages from `a` on are free. */
  ghost predicate Interrupted(runs: seq<Run>, a: nat, k: nat) {
    exists p :: a <= p < a + k && !FreePage(runs, p)
  }

  /** Free pages next to each other are in one run. */
  lemma {:induction false} FreeStretch(runs: seq<Run>, n: nat, a: nat, k: nat) returns (i: nat)
    requires Tiles(runs, 0, n) && Coalesced(runs) && k >= 1
    requires forall p :: a <= p < a + k ==> FreePage(runs, p)
    ensures i < |runs| && runs[i].Free? && runs[i].start <= a && a + k <= runs[i].End()
  {
    if k == 1 {
      assert FreePage(runs, a);
      i :| 0 <= i < |runs| && runs[i].Free? && runs[i].start <= a < runs[i].End();
    } else {
      i := FreeStretch(runs, n, a, k - 1);
      assert FreePage(runs, a + k - 1);
      var j :| 0 <= j < |runs| && runs[j].Free? && runs[j].start <= a + k - 1 < runs[j].End();
      if a + k - 1 == runs[i].End() { NextNotFree(runs, n, i, j); } else { RunUnique(runs, 0, n, i, j, a + k - 1); }
    }
  }

  /** The page after a free run is not free. */
  lemma {:induction false} NextNotFree(runs: seq<Run>, n: nat, i: nat, j: nat)
    requires Tiles(runs, 0, n) && Coalesced(runs) && i < |runs| && runs[i].Free? && j < |runs|
    requires runs[j].start <= runs[i].End() < runs[j].End()
    ensures !runs[j].Free?
  {
    TilesAt(runs, 0, n, i);
    TilesAt(runs, 0, n, j);
    if j < i { TilesOrder(runs, 0, n, j, i); }
    if i < j {
      TilesOrder(runs, 0, n, i, j);
      if i + 1 < j { TilesAt(runs, 0, n, i + 1); TilesOrder(runs, 0, n, i, i + 1); TilesOrder(runs, 0, n, i + 1, j); }
    }
  }

  /** Where no free run has `k` pages, no `k` free pages are next to each other. */
  lemma {:induction false} NoStretch(runs: seq<Run>, n: nat, a: nat, k: nat)
    requires Tiles(runs, 0, n) && Coalesced(runs) && k >= 1
    requires forall i :: 0 <= i < |runs| && runs[i].Free? ==> runs[i].len < k
    ensures Interrupted(runs, a, k)
  {
    if forall p :: a <= p < a + k ==> FreePage(runs, p) {
      var i := FreeStretch(runs, n, a, k);
    }
  }
}
