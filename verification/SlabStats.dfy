/** The statistics a slab pool keeps for every size class. */
module SlabStats {
  import opened SlabRuns
  import opened SlabState

  /** ngx_slab_stat_t */
  datatype Stat = Stat(total: nat, used: nat, reqs: nat, fails: nat)

  /** Chunks handed out ... */
  function UsedOf(s: nat): Run -> nat {
    (r: Run) => if r.Chunks? && r.slot == s then |r.live| else 0
  }

  /** ... and chunks there are, in the pages of slot `s`. */
  function TotalOf(minShift: nat, s: nat): Run -> nat {
    (r: Run) => if r.Chunks? && r.slot == s && minShift + s < PAGE_SHIFT then Usable(minShift + s) else 0
  }

  function Usable(shift: nat): nat
    requires shift <= PAGE_SHIFT
  {
    if Header(shift) <= Cap(shift) then Cap(shift) - Header(shift) else 0
  }

  ghost predicate CountedAt(minShift: nat, runs: seq<Run>, stat: Stat, s: nat) {
    stat.used == Sum(runs, UsedOf(s)) && stat.total == Sum(runs, TotalOf(minShift, s))
  }

  /** The statistics count what is in the pages. */
  ghost predicate Counted(minShift: nat, runs: seq<Run>, stats: seq<Stat>) {
    forall s {:trigger stats[s]} :: 0 <= s < |stats| ==> CountedAt(minShift, runs, stats[s], s)
  }

  lemma {:induction false} NoChunksSum(runs: seq<Run>, minShift: nat, s: nat)
    requires forall i :: 0 <= i < |runs| ==> !runs[i].Chunks?
    ensures Sum(runs, UsedOf(s)) == 0 && Sum(runs, TotalOf(minShift, s)) == 0
  {
    if runs != [] { NoChunksSum(runs[1..], minShift, s); }
  }

  /** Whole pages do not count. */
  lemma {:induction false} PagesCounted(minShift: nat, runs: seq<Run>, lo: nat, hi: nat, mid: seq<Run>,
      stats: seq<Stat>)
    requires Counted(minShift, runs, stats) && lo <= hi <= |runs|
    requires forall i :: lo <= i < hi ==> !runs[i].Chunks?
    requires forall i :: 0 <= i < |mid| ==> !mid[i].Chunks?
    ensures Counted(minShift, Splice(runs, lo, hi, mid), stats)
  {
    forall s | 0 <= s < |stats| ensures CountedAt(minShift, Splice(runs, lo, hi, mid), stats[s], s) {
      NoChunksSum(runs[lo..hi], minShift, s);
      NoChunksSum(mid, minShift, s);
      SpliceSum(runs, lo, hi, mid, UsedOf(s));
      SpliceSum(runs, lo, hi, mid, TotalOf(minShift, s));
    }
  }

  lemma {:induction false} SumUpdate(runs: seq<Run>, i: nat, r: Run, f: Run -> nat)
    requires i < |runs|
    ensures Sum(runs[i := r], f) == Sum(runs, f) - f(runs[i]) + f(r)
  {
    assert runs[i := r] == Splice(runs, i, i + 1, [r]);
    SpliceSum(runs, i, i + 1, [r], f);
    assert runs[i..i + 1] == [runs[i]];
    assert [r][1..] == [] && [runs[i]][1..] == [];
  }

  /** One page of slot `s` changes, and the entry of the slot with it. */
  lemma {:induction false} PageCounted(minShift: nat, runs: seq<Run>, i: nat, r: Run, stats: seq<Stat>, s: nat,
      stat: Stat)
    requires Counted(minShift, runs, stats) && i < |runs| && s < |stats|
    requires runs[i].Chunks? ==> runs[i].slot == s
    requires r.Chunks? ==> r.slot == s
    requires stat.used == stats[s].used - UsedOf(s)(runs[i]) + UsedOf(s)(r)
    requires stat.total == stats[s].total - TotalOf(minShift, s)(runs[i]) + TotalOf(minShift, s)(r)
    ensures Counted(minShift, runs[i := r], stats[s := stat])
  {
    var stats' := stats[s := stat];
    forall t | 0 <= t < |stats'| ensures CountedAt(minShift, runs[i := r], stats'[t], t) {
      SumUpdate(runs, i, r, UsedOf(t));
      SumUpdate(runs, i, r, TotalOf(minShift, t));
      assert CountedAt(minShift, runs, stats[t], t);
    }
  }

  /** What a page contributes can be taken from the statistics. */
  lemma {:induction false} SumHas(runs: seq<Run>, i: nat, f: Run -> nat)
    requires i < |runs|
    ensures f(runs[i]) <= Sum(runs, f)
  {
    if i > 0 { SumHas(runs[1..], i - 1, f); }
  }

  /** used <= total */
  lemma {:induction false} UsedWithinTotal(minShift: nat, runs: seq<Run>, s: nat)
    requires minShift + s < PAGE_SHIFT
    requires forall i :: 0 <= i < |runs| && runs[i].Chunks? && runs[i].slot == s ==>
      forall j :: j in runs[i].live ==> Header(minShift + s) <= j < Cap(minShift + s)
    ensures Sum(runs, UsedOf(s)) <= Sum(runs, TotalOf(minShift, s))
  {
    if runs != [] {
      UsedWithinTotal(minShift, runs[1..], s);
      if runs[0].Chunks? && runs[0].slot == s { BoundedSet(runs[0].live, Header(minShift + s), Cap(minShift + s)); }
    }
  }

  lemma {:induction false} BoundedSet(live: set<nat>, lo: nat, hi: nat)
    requires forall j :: j in live ==> lo <= j < hi
    ensures |live| <= if lo <= hi then hi - lo else 0
  {
    if live != {} {
      var j :| j in live;
      BoundedSet(live - {hi - 1}, lo, hi - 1);
      assert |live| <= |live - {hi - 1}| + 1;
    }
  }

  /** A page allocated from free run `i` and cut into chunks of slot `s`, one of them out. */
  lemma {:induction false} NewCounted(minShift: nat, runs: seq<Run>, i: nat, s: nat, j: nat, stats: seq<Stat>,
      stat: Stat)
    requires Counted(minShift, runs, stats) && i < |runs| && runs[i].Free? && runs[i].len >= 1 && s < |stats|
    requires minShift + s < PAGE_SHIFT && stat.used == stats[s].used + 1
      && stat.total == stats[s].total + Usable(minShift + s)
    ensures i < |Taken(runs, i, 1)|
    ensures Counted(minShift, Taken(runs, i, 1)[i := Chunks(runs[i].start, s, {j})], stats[s := stat])
  {
    var mid, r := Taken(runs, i, 1), Chunks(runs[i].start, s, {j});
    PagesCounted(minShift, runs, i, i + 1, Cut(runs[i], 1), stats);
    assert mid[i].Busy?;
    PageCounted(minShift, mid, i, r, stats, s, stat);
  }

  /** A page of slot `s` loses its last chunk and is given back. */
  lemma {:induction false} GoneCounted(minShift: nat, runs: seq<Run>, i: nat, j: nat, stats: seq<Stat>, s: nat,
      stat: Stat)
    requires Counted(minShift, runs, stats) && i < |runs| && runs[i].Chunks? && runs[i].live == {j}
    requires s == runs[i].slot < |stats| && minShift + s < PAGE_SHIFT
    requires stat.used == stats[s].used - 1 && stat.total == stats[s].total - Usable(minShift + s)
    ensures Counted(minShift, Released(runs, i), stats[s := stat])
  {
    var r := Busy(runs[i].start, 1);
    var mid := runs[i := r];
    PageCounted(minShift, runs, i, r, stats, s, stat);
    ReleasedAs(runs, i, r);
    ReleasedCounted(minShift, mid, i, stats[s := stat]);
  }

  lemma {:induction false} ReleasedCounted(minShift: nat, runs: seq<Run>, i: nat, stats: seq<Stat>)
    requires Counted(minShift, runs, stats) && i < |runs| && runs[i].Busy?
    ensures Counted(minShift, Released(runs, i), stats)
  {
    PagesCounted(minShift, runs, JoinLow(runs, i), JoinHigh(runs, i) + 1, [Joined(runs, i)], stats);
  }

  /** The statistics of a slot include every page of the slot. */
  lemma {:induction false} PageIncluded(minShift: nat, runs: seq<Run>, i: nat, stats: seq<Stat>)
    requires Counted(minShift, runs, stats) && i < |runs| && runs[i].Chunks?
    requires runs[i].slot < |stats| && minShift + runs[i].slot < PAGE_SHIFT && runs[i].live != {}
    ensures stats[runs[i].slot].used >= 1 && stats[runs[i].slot].total >= Usable(minShift + runs[i].slot)
  {
    var s := runs[i].slot;
    assert CountedAt(minShift, runs, stats[s], s);
    SumHas(runs, i, UsedOf(s));
    SumHas(runs, i, TotalOf(minShift, s));
    assert |runs[i].live| >= 1;
  }

  /** A chunk of a page of slot `s` comes back. */
  lemma {:induction false} BackCounted(minShift: nat, runs: seq<Run>, i: nat, j: nat, stats: seq<Stat>, s: nat,
      stat: Stat)
    requires Counted(minShift, runs, stats) && i < |runs| && runs[i].Chunks? && j in runs[i].live
    requires s == runs[i].slot < |stats|
    requires stat.used == stats[s].used - 1 && stat.total == stats[s].total
    ensures Counted(minShift, runs[i := runs[i].(live := runs[i].live - {j})], stats[s := stat])
  {
    var r := runs[i].(live := runs[i].live - {j});
    assert |r.live| == |runs[i].live| - 1;
    PageCounted(minShift, runs, i, r, stats, s, stat);
  }
}
