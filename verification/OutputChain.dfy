/** The output chain of ngx_output_chain.c: it copies and recycles buffers and keeps the
    stream of bytes. */
module OutputChain {
  import opened Buffers
  import opened OutputState

  datatype Code = OK | AGAIN | ERROR | DONE

  /** What the filter does when it is called: what it says, and how many of the bytes it
      has it takes. */
  datatype Answer = Answer(code: Code, sent: nat)

  datatype Option<T> = None | Some(value: T)

  ghost predicate Below(bufs: Bufs, next: nat) {
    forall id :: id in bufs ==> id < next
  }

  lemma {:induction false} BelowSame(bufs: Bufs, bufs': Bufs, next: nat)
    requires Below(bufs, next) && bufs'.Keys == bufs.Keys
    ensures Below(bufs', next)
  {
    forall id | id in bufs' ensures id < next { assert id in bufs.Keys; }
  }

  lemma {:induction false} BelowMore(bufs: Bufs, next: nat, b: Buf)
    requires Below(bufs, next)
    ensures Below(bufs[next := b], next + 1) && next !in bufs
  {
  }

  // ---- Buffers of our own ----

  ghost function OwnIds(bufs: Bufs): set<nat> {
    set id | id in bufs && bufs[id].own
  }

  lemma {:induction false} OwnSame(bufs: Bufs, id: nat, b: Buf)
    requires id in bufs && b.own == bufs[id].own
    ensures OwnIds(bufs[id := b]) == OwnIds(bufs)
  {
  }

  lemma {:induction false} OwnNew(bufs: Bufs, id: nat, b: Buf)
    requires id !in bufs
    ensures |OwnIds(bufs[id := b])| == |OwnIds(bufs)| + if b.own then 1 else 0
  {
    assert OwnIds(bufs[id := b]) == OwnIds(bufs) + if b.own then {id} else {};
  }

  lemma {:induction false} OwnConsumed(bufs: Bufs, bufs': Bufs, chain: Chain)
    requires Consumed(bufs, bufs', chain)
    ensures OwnIds(bufs') == OwnIds(bufs)
  {
    forall id | id in bufs ensures bufs'[id].own == bufs[id].own {
      assert bufs'[id].Like(bufs[id]);
    }
  }

  /** The buffers of a chain that are ours, the last one first. */
  function Reclaimed(bufs: Bufs, chain: Chain): Chain {
    if chain == [] then []
    else
      var last := chain[|chain| - 1];
      (if last in bufs && bufs[last].own then [last] else []) + Reclaimed(bufs, chain[..|chain| - 1])
  }

  /** The first `k` buffers of a chain have no bytes. */
  ghost predicate Emptied(bufs: Bufs, chain: Chain, k: nat) {
    k <= |chain| && forall i :: 0 <= i < k ==> chain[i] in bufs && bufs[chain[i]].bytes == []
  }

  lemma {:induction false} ReclaimNext(bufs: Bufs, all: Chain, k: nat, free: Chain, before: Chain)
    requires k < |all| && free == Reclaimed(bufs, all[..k]) + before && all[k] in bufs
    requires Emptied(bufs, all, k) && bufs[all[k]].bytes == []
    ensures Emptied(bufs, all, k + 1) && all[k..][1..] == all[k + 1..] && all[k..][0] == all[k]
    ensures (if bufs[all[k]].own then [all[k]] + free else free) == Reclaimed(bufs, all[..k + 1]) + before
  {
    assert all[..k + 1][..k] == all[..k] && all[..k + 1][k] == all[k];
  }

  // ---- The copy of a buffer ----

  /** `ngx_output_chain_copy_buf`: what `dst` is after as much of `src` as it can hold was
      copied into it.  Only a buffer that is copied to its end hands its flags on. */
  function CopyOf(src: Buf, dst: Buf, sendfile: bool): (copy: Buf)
    ensures copy.own == dst.own && copy.cap == dst.cap && |copy.bytes| == Min(|src.bytes|, dst.cap)
    ensures copy.at.inFile <==> src.at.inFile && sendfile
    ensures copy.at.temporary == dst.at.temporary && copy.at.memory == dst.at.memory
    ensures copy.bytes <= src.bytes && (dst.Made() && dst.own ==> copy.Made())
    ensures copy.flags == if |copy.bytes| == |src.bytes| then src.flags.(sync := dst.flags.sync) else dst.flags
  {
    var n := Min(|src.bytes|, dst.cap);
    var flags := if n == |src.bytes| then src.flags.(sync := dst.flags.sync) else dst.flags;
    Buf(src.bytes[..n], dst.at.(inFile := src.at.inFile && sendfile), flags, dst.own, dst.cap)
  }

  /** A buffer that is used again keeps the flags of what it held: part of another buffer
      goes out with them, and so with none exactly if the first had none. */
  lemma {:induction false} StaleFlags(first: Buf, second: Buf, dst: Buf, sendfile: bool)
    requires |first.bytes| <= dst.cap < |second.bytes|
    ensures var used := CopyOf(first, dst, sendfile).(bytes := []);
      CopyOf(second, used, sendfile).flags == first.flags.(sync := dst.flags.sync)
  {
  }

  /** What is at hand, and what is copied into it. */
  lemma {:induction false} HandFacts(s: State)
    requires Inv(s) && s.hand != [] && s.pending != []
    ensures s.hand[0] in s.bufs && s.pending[0] in s.bufs && s.hand[0] != s.pending[0]
    ensures s.bufs[s.hand[0]].own && s.bufs[s.hand[0]].Made()
    ensures s.hand[0] in s.place && s.place[s.hand[0]] == Hand && s.pending[0] in s.place && s.place[s.pending[0]] == In
  {
    HeadAt(s, s.hand, Hand);
    HeadAt(s, s.pending, In);
  }

  lemma {:induction false} CopyFacts(s: State, copy: Buf, left: Buf)
    requires Inv(s) && |s.hand| == 1 && s.pending != [] && 1 <= |copy.bytes|
    requires copy.own && copy.Made() && copy.bytes <= s.bufs[s.pending[0]].bytes
    requires left == s.bufs[s.pending[0]].(bytes := s.bufs[s.pending[0]].bytes[|copy.bytes|..])
    ensures var bufs' := s.bufs[s.hand[0] := copy][s.pending[0] := left];
      var pending' := if left.bytes == [] then s.pending[1..] else s.pending;
      && Inv(State(bufs', s.queue, s.busy, s.out + [s.hand[0]], s.free, [], pending', s.place[s.hand[0] := Out],
                   s.due, s.handed, s.taken))
      && OwnIds(bufs') == OwnIds(s.bufs) && bufs'.Keys == s.bufs.Keys
      && Known(bufs', pending') && |Content(bufs', pending')| + |pending'| < |Content(s.bufs, s.pending)| + |s.pending|
  {
    var d, id, n := s.hand[0], s.pending[0], |copy.bytes|;
    HandFacts(s);
    assert s.hand[1..] == [];
    CopiedInv(s, copy, n);
    CopiedPending(s, copy, n);
    OwnSame(s.bufs, d, copy);
    OwnSame(s.bufs[d := copy], id, left);
  }

  /** The buffers that are collected are not those that change. */
  ghost predicate Same(bufs: Bufs, bufs': Bufs, chain: Chain) {
    forall i {:trigger SameAt(bufs, bufs', chain, i)} :: 0 <= i < |chain| ==> SameAt(bufs, bufs', chain, i)
  }

  ghost predicate SameAt(bufs: Bufs, bufs': Bufs, chain: Chain, i: int)
    requires 0 <= i < |chain|
  {
    chain[i] in bufs && chain[i] in bufs' && bufs'[chain[i]] == bufs[chain[i]]
  }

  lemma {:induction false} OutSame(s: State, bufs': Bufs, ids: set<nat>)
    requires Placed(s) && forall i :: i in ids ==> i !in s.bufs || (i in s.place && s.place[i] != Out)
    requires forall i :: i in s.bufs && i !in ids ==> i in bufs' && bufs'[i] == s.bufs[i]
    ensures Same(s.bufs, bufs', s.out)
  {
    AtFacts(s, s.out, Out);
    forall i | 0 <= i < |s.out| ensures SameAt(s.bufs, bufs', s.out, i) { assert s.out[i] !in ids; }
  }

  lemma {:induction false} HeadOutSame(s: State, b: Buf)
    requires Inv(s) && s.pending != []
    ensures Same(s.bufs, s.bufs[s.pending[0] := b], s.out)
  {
    HeadAt(s, s.pending, In);
    OutSame(s, s.bufs[s.pending[0] := b], {s.pending[0]});
  }

  lemma {:induction false} CopyOutSame(s: State, b: Buf, c: Buf)
    requires Inv(s) && s.hand != [] && s.pending != []
    ensures Same(s.bufs, s.bufs[s.hand[0] := b][s.pending[0] := c], s.out)
  {
    HandFacts(s);
    OutSame(s, s.bufs[s.hand[0] := b][s.pending[0] := c], {s.hand[0], s.pending[0]});
  }

  lemma {:induction false} NewOutSame(s: State, id: nat, b: Buf)
    requires Inv(s) && id !in s.bufs
    ensures Same(s.bufs, s.bufs[id := b], s.out) && Same(s.bufs, s.bufs, s.out)
  {
    OutSame(s, s.bufs[id := b], {id});
    OutSame(s, s.bufs, {});
  }

  class Output {
    const sendfile: bool
    const needInMemory: bool
    const needInTemp: bool
    const num: nat    // ctx->bufs
    const size: nat

    var bufs: Bufs
    var pending: Chain   // ctx->in
    var free: Chain
    var busy: Chain
    var hand: Chain      // ctx->buf
    var made: nat        // ctx->allocated
    var nextId: nat
    var queue: Chain     // what the filter has

    ghost var place: map<nat, Place>
    ghost var due: Items
    ghost var handed: Items
    ghost var taken: seq<nat>

    ghost function View(out: Chain): State
      reads this
    {
      State(bufs, queue, busy, out, free, hand, pending, place, due, handed, taken)
    }

    /** All buffers of a chain can be taken by the filter. */
    ghost predicate AllFit(chain: Chain)
      reads this
    {
      forall i {:trigger FitsAt(bufs, chain, i)} :: 0 <= i < |chain| ==> FitsAt(bufs, chain, i)
    }

    ghost predicate FitsAt(bufs: Bufs, chain: Chain, i: int)
      requires 0 <= i < |chain|
    {
      chain[i] in bufs && Fits(bufs[chain[i]])
    }

    /** While `out` is being collected. */
    ghost predicate Working(out: Chain)
      reads this
    {
      && Inv(View(out)) && size >= 1 && |hand| <= 1
      && made == |OwnIds(bufs)| <= num && Below(bufs, nextId)
    }

    ghost predicate Valid()
      reads this
    {
      Working([])
    }

    constructor (sendfile: bool, needInMemory: bool, needInTemp: bool, num: nat, size: nat)
      requires size >= 1
      ensures Valid() && due == [] && handed == []
    {
      this.sendfile, this.needInMemory, this.needInTemp := sendfile, needInMemory, needInTemp;
      this.num, this.size := num, size;
      bufs, pending, free, busy, hand, made, nextId, queue := map[], [], [], [], [], 0, 0, [];
      place, due, handed, taken := map[], [], [], [];
    }

    /** The filter can take the buffer: it is special, or its bytes are where the filter wants
        them, and in memory if they are not to be sent from a file. */
    predicate Fits(b: Buf) {
      || b.Special()
      || (&& (sendfile || ((b.at.temporary || b.at.memory) && !b.at.inFile))
          && (needInMemory ==> b.at.temporary || b.at.memory) && (needInTemp ==> !b.at.memory))
    }

    /** `ngx_output_chain_as_is`: can the buffer be passed on?  It may lose its file. */
    function AsIs(b: Buf): (r: (bool, Buf))
      ensures r.0 <==> Fits(b) || (b.InMemory() && Fits(b.(at := b.at.(inFile := false))))
      ensures r.0 ==> Fits(r.1) && (Fits(b) ==> r.1 == b)
      ensures r.1.Refiles(b) && r.1.Special() == b.Special() && (b.Special() ==> r.0) && (b.Made() ==> r.1.Made())
    {
      if b.Special() then (true, b)
      else if !sendfile && !b.InMemory() then (false, b)
      else
        var c := if sendfile then b else b.(at := b.at.(inFile := false));
        (!(needInMemory && !c.InMemory()) && !(needInTemp && c.at.memory), c)
    }

    /** What is still to be done. */
    ghost function Measure(): nat
      reads this
    {
      if Known(bufs, pending) then |Content(bufs, pending)| + |pending| else 0
    }

    /** `ngx_output_chain_get_buf`: the size of a new buffer. */
    function NewSize(b: Buf): (n: nat)
      requires size >= 1 && b.bytes != []
      ensures 1 <= n <= size + size / 4 && (n != size ==> n == |b.bytes| && b.flags.lastInChain)
      ensures b.flags.lastInChain && (|b.bytes| < size || (num == 1 && |b.bytes| < size + size / 4)) ==> n == |b.bytes|
    {
      if b.flags.lastInChain && |b.bytes| < size then |b.bytes|
      else if b.flags.lastInChain && num == 1 && |b.bytes| < size + size / 4 then |b.bytes|
      else size
    }

    /** A buffer to copy into: the one at hand, a free one, or a new one if there may be
        more. */
    method GetBuffer(out: Chain) returns (found: bool)
      requires Working(out) && pending != [] && bufs[pending[0]].bytes != []
      modifies this
      ensures Working(out) && pending == old(pending) && handed == old(handed) && due == old(due)
      ensures found <==> hand != []
      ensures !found ==> unchanged(this) && free == [] && (out != [] || made == num)
      ensures old(free) == [] && old(hand) == [] ==> free == [] && (found ==> out == [])
      ensures pending[0] in bufs && bufs[pending[0]] == old(bufs)[pending[0]] && Measure() == old(Measure())
      ensures Same(old(bufs), bufs, out)
    {
      OutSame(View(out), bufs, {});
      if hand != [] { return true; }
      if free != [] {
        TakingInv(View(out));
        free, hand, place := free[1..], [free[0]], place[free[0] := Hand];
        return true;
      }
      if out != [] || made == num { return false; }
      NewBuffer(out);
      found := true;
    }

    /** `ngx_output_chain_get_buf` */
    method NewBuffer(out: Chain)
      requires Working(out) && pending != [] && bufs[pending[0]].bytes != [] && made < num && hand == []
      modifies this`bufs, this`place, this`nextId, this`made, this`hand
      ensures Working(out) && hand == [old(nextId)]
      ensures pending[0] in bufs && bufs[pending[0]] == old(bufs)[pending[0]] && Measure() == old(Measure())
      ensures Same(old(bufs), bufs, out) && bufs[hand[0]].cap == NewSize(bufs[pending[0]])
    {
      var id := nextId;
      var b := Buf([], Store(true, false, false), Flags(false, false, false, false), true, NewSize(bufs[pending[0]]));
      BelowMore(bufs, id, b);
      OwnNew(bufs, id, b);
      NewInv(View(out), id, b);
      NewOutSame(View(out), id, b);
      bufs, hand, place := bufs[id := b], [id], place[id := Hand];
      nextId := nextId + 1;
      made := made + 1;
    }

    /** `ngx_output_chain_copy_buf`, and the copy goes out. */
    method CopyBuffer(out: Chain) returns (out': Chain)
      requires Working(out) && hand != [] && pending != [] && bufs[pending[0]].bytes != []
      modifies this`bufs, this`pending, this`place, this`hand
      ensures Working(out') && out' == out + old(hand) && hand == [] && Measure() < old(Measure())
      ensures var src, dst := old(bufs)[old(pending)[0]], old(bufs)[old(hand)[0]];
        out'[|out|] in bufs && bufs[out'[|out|]] == CopyOf(src, dst, sendfile)
      ensures Same(old(bufs), bufs, out) && Fits(bufs[out'[|out|]])
    {
      ghost var s := View(out);
      var d, id := hand[0], pending[0];
      HandFacts(s);
      var src, copy := bufs[id], CopyOf(bufs[id], bufs[d], sendfile);
      var left := src.(bytes := src.bytes[|copy.bytes|..]);
      CopyFacts(s, copy, left);
      BelowSame(bufs, bufs[d := copy][id := left], nextId);
      CopyOutSame(s, copy, left);
      CopyFits(src, bufs[d]);
      Paste(copy, left);
      out' := out + [d];
    }

    lemma {:induction false} CopyFits(src: Buf, dst: Buf)
      requires dst.own && dst.Made()
      ensures Fits(CopyOf(src, dst, sendfile))
    {
    }

    /** The buffer at hand has become `copy`, and the head of what is pending `left`. */
    method Paste(copy: Buf, left: Buf)
      requires hand != [] && pending != []
      modifies this`bufs, this`pending, this`place, this`hand
      ensures bufs == old(bufs)[old(hand)[0] := copy][old(pending)[0] := left] && hand == []
      ensures place == old(place)[old(hand)[0] := Out]
      ensures pending == if left.bytes == [] then old(pending)[1..] else old(pending)
    {
      bufs, place, hand := bufs[hand[0] := copy][pending[0] := left], place[hand[0] := Out], [];
      if left.bytes == [] { pending := pending[1..]; }
    }

    /** A buffer goes out as it is. */
    method Forward(out: Chain, b: Buf) returns (out': Chain)
      requires Working(out) && pending != [] && Refiled(View(out), b)
      modifies this`bufs, this`pending, this`place
      ensures Working(out') && out' == out + [old(pending)[0]] && Measure() < old(Measure())
      ensures pending == old(pending)[1..] && bufs == old(bufs)[old(pending)[0] := b] && Same(old(bufs), bufs, out)
    {
      ghost var s := View(out);
      ForwardedInv(s, b);
      HeadOutSame(s, b);
      OwnSame(bufs, pending[0], b);
      HeadContent(s.bufs, s.pending);
      var id := pending[0];
      bufs := bufs[id := b];
      ContentFrame(s.bufs, bufs, s.pending[1..]);
      place := place[id := Out];
      pending := pending[1..];
      out' := out + [id];
      assert View(out') == Forwarded(s, b);
    }

    /** A buffer that is not passed on may still have lost its file. */
    method Rewrite(out: Chain, b: Buf)
      requires Working(out) && pending != [] && Refiled(View(out), b)
      modifies this`bufs
      ensures Working(out) && Measure() == old(Measure()) && bufs == old(bufs)[pending[0] := b]
      ensures Same(old(bufs), bufs, out)
    {
      HeadOutSame(View(out), b);
      RewrittenInv(View(out), b);
      OwnSame(bufs, pending[0], b);
      bufs := bufs[pending[0] := b];
    }

    /** A buffer without bytes that is not special is dropped. */
    method Drop(out: Chain)
      requires Working(out) && pending != [] && bufs[pending[0]].bytes == [] && !bufs[pending[0]].Special()
      modifies this`pending
      ensures Working(out) && Measure() < old(Measure())
    {
      DroppedInv(View(out));
      HeadContent(bufs, pending);
      pending := pending[1..];
    }

    /** The inner loop: as long as there are buffers pending, and buffers to copy into, what
        is pending goes out.  `read` says whether the next read of a file succeeds; where it
        does not, what was collected is lost. */
    method Collect(read: nat -> bool) returns (out: Chain, ok: bool, ghost lost: Items)
      requires Valid()
      modifies this
      ensures Working(out) && handed == old(handed)
      ensures ok ==> lost == [] && due == old(due)
      ensures ok ==> Measure() <= old(Measure()) && (out != [] ==> Measure() < old(Measure()))
      ensures ok && pending != [] ==> free == [] && (out != [] || made == num)
      ensures !ok ==> out == [] && old(due) == handed + (lost + Stream(bufs, pending)) && exists k :: !read(k)
      ensures old(free) == [] && old(hand) == [] ==> lost == []
      ensures AllFit(out) && (ok && pending != [] && out == [] ==> hand == [])
    {
      out, ok, lost := [], true, [];
      var k := 0;
      while pending != []
        invariant Working(out) && handed == old(handed) && due == old(due)
        invariant Measure() <= old(Measure()) && (out != [] ==> Measure() < old(Measure()))
        invariant old(free) == [] && old(hand) == [] ==> free == [] && hand == []
        invariant AllFit(out)
        decreases Measure()
      {
        k := k + 1;
        var found;
        out, found, ok := TakeNext(out, read(k));
        if !found { break; }
        if !ok {
          lost := Lose(out);
          return [], false, lost;
        }
      }
    }

    /** The head of what is pending is dropped, goes out as it is, or is copied. */
    method TakeNext(out: Chain, read: bool) returns (out': Chain, found: bool, ok: bool)
      requires Working(out) && pending != []
      modifies this
      ensures Working(out') && handed == old(handed) && due == old(due) && (ok || !read)
      ensures !found ==> ok && free == [] && hand == [] && (out != [] || made == num)
      ensures !found || !ok ==> out' == out && Measure() == old(Measure())
      ensures found && ok ==> Measure() < old(Measure())
      ensures old(free) == [] && old(hand) == [] ==> free == [] && (ok ==> hand == []) && (!ok ==> out == [])
      ensures old(AllFit(out)) ==> AllFit(out')
    {
      ghost var before, fit := bufs, AllFit(out);
      out', found, ok := out, true, true;
      var b := bufs[pending[0]];
      HeadOk(out);
      if b.bytes == [] && !b.Special() {
        Drop(out);
        return;
      }
      var r := AsIs(b);
      if r.0 {
        out' := Forward(out, r.1);
        if fit { StillFit(before, out, out'); }
        return;
      }
      out', found, ok := CopyNext(out, r.1, read);
    }

    /** Bytes of the head, which is `b` now, are copied if there is a buffer to copy into and
        they can be read. */
    method CopyNext(out: Chain, b: Buf, read: bool) returns (out': Chain, found: bool, ok: bool)
      requires Working(out) && pending != [] && Refiled(View(out), b) && b.bytes != []
      modifies this
      ensures Working(out') && handed == old(handed) && due == old(due) && (ok || !read)
      ensures !found ==> ok && free == [] && (out != [] || made == num)
      ensures !found || !ok ==> out' == out && Measure() == old(Measure())
      ensures found && ok ==> out' != [] && Measure() < old(Measure())
      ensures old(free) == [] && old(hand) == [] ==> free == [] && (ok ==> hand == []) && (found ==> out == [])
      ensures old(AllFit(out)) ==> AllFit(out')
      ensures !found ==> hand == []
    {
      out', ok := out, true;
      found := Prepare(out, b);
      if !found { return; }
      ok := bufs[pending[0]].InMemory() || read;
      if ok { out' := CopyOut(out); }
    }

    /** The copy fits the filter, as all that was collected before. */
    method CopyOut(out: Chain) returns (out': Chain)
      requires Working(out) && hand != [] && pending != [] && bufs[pending[0]].bytes != []
      modifies this`bufs, this`pending, this`place, this`hand
      ensures Working(out') && out' != [] && hand == [] && Measure() < old(Measure())
      ensures old(AllFit(out)) ==> AllFit(out')
    {
      ghost var before, fit := bufs, AllFit(out);
      out' := CopyBuffer(out);
      if fit { StillFit(before, out, out'); }
    }

    /** The head becomes `b`, and a buffer to copy into is taken. */
    method Prepare(out: Chain, b: Buf) returns (found: bool)
      requires Working(out) && pending != [] && Refiled(View(out), b) && b.bytes != []
      modifies this
      ensures Working(out) && pending == old(pending) && handed == old(handed) && due == old(due)
      ensures pending[0] in bufs && bufs[pending[0]] == b && Measure() == old(Measure())
      ensures found <==> hand != []
      ensures !found ==> free == [] && (out != [] || made == num)
      ensures old(free) == [] && old(hand) == [] ==> free == [] && (found ==> out == [])
      ensures old(AllFit(out)) ==> AllFit(out)
    {
      ghost var before, fit := bufs, AllFit(out);
      Rewrite(out, b);
      if fit { StillFit(before, out, out); }
      before := bufs;
      found := GetBuffer(out);
      if fit { StillFit(before, out, out); }
    }

    lemma {:induction false} StillFit(before: Bufs, out: Chain, out': Chain)
      requires Same(before, bufs, out)
      requires forall i {:trigger FitsAt(before, out, i)} :: 0 <= i < |out| ==> FitsAt(before, out, i)
      requires out' == out || (|out'| == |out| + 1 && out'[..|out|] == out && FitsAt(bufs, out', |out|))
      ensures AllFit(out')
    {
      forall i | 0 <= i < |out'| ensures FitsAt(bufs, out', i) {
        if i < |out| { assert out'[i] == out[i] && FitsAt(before, out, i) && SameAt(before, bufs, out, i); }
      }
    }

    /** What was collected is in no chain any more. */
    ghost method Lose(out: Chain) returns (lost: Items)
      requires Working(out)
      modifies this`place, this`due
      ensures Valid() && old(due) == handed + (lost + Stream(bufs, pending)) && (out == [] ==> lost == [])
    {
      lost := Stream(bufs, out);
      LostInv(View(out), handed + Stream(bufs, pending));
      place := Relabel(place, out, Gone);
      due := handed + Stream(bufs, pending);
    }

    lemma {:induction false} HeadOk(out: Chain)
      requires Working(out) && pending != []
      ensures pending[0] in bufs && bufs[pending[0]].Made()
    {
    }

    // ---- The filter ----

    /** The filter is called: it is handed `out`, and takes bytes from the front of all it
        has, as `ngx_chain_update_sent` does. */
    method CallFilter(out: Chain, answer: Answer) returns (code: Code)
      requires Working(out)
      modifies this`bufs, this`queue, this`handed, this`taken, this`place
      ensures code == answer.code && Valid() && At(View([]), busy + out, Filter) && Measure() == old(Measure())
      ensures old(handed) <= handed && Known(bufs, pending) && Content(bufs, pending) == old(Content(bufs, pending))
    {
      ghost var s := View(out);
      AtFilter(s);
      ghost var all, more := Content(bufs, queue + out), Stream(bufs, out);
      ghost var n := Take(out, answer.sent);
      handed := handed + more;
      taken := taken + all[..n];
      queue := queue + out;
      place := Relabel(place, out, Filter);
      ghost var t := Served(s, bufs, more, all[..n]);
      assert t == View([]);
      ServedInv(s, t, n, more, all);
      PendingKept(s, bufs);
      BelowSame(s.bufs, bufs, nextId);
      OwnConsumed(s.bufs, bufs, s.queue + out);
      code := answer.code;
    }

    /** Bytes go from the front of all that the filter has. */
    method Take(out: Chain, sent: nat) returns (ghost n: nat)
      requires Inv(View(out))
      modifies this`bufs
      ensures ServedOk(old(View(out)), bufs, n) && n <= sent
    {
      AtFilter(View(out));
      NoSpecialBytes(View(out));
      n := Min(sent, |Content(bufs, queue + out)|);
      var rest;
      bufs, rest := UpdateSent(bufs, queue + out, sent);
    }

    /** `ngx_chain_update_chains`: what is out becomes busy, and of the busy buffers those
        at the front that the filter has emptied, `k` of them, are free again, or forgotten
        if they are not ours. */
    method UpdateChains(out: Chain) returns (ghost k: nat)
      requires Valid() && At(View([]), busy + out, Filter)
      modifies this`busy, this`free, this`place, this`queue
      ensures Valid() && (busy != [] ==> bufs[busy[0]].bytes != [])
      ensures Emptied(bufs, old(busy) + out, k) && busy == (old(busy) + out)[k..]
      ensures free == Reclaimed(bufs, (old(busy) + out)[..k]) + old(free)
    {
      busy := busy + out;
      k := FreeFront();
    }

    /** The buffers at the front of the busy ones that are empty are freed. */
    method FreeFront() returns (ghost k: nat)
      requires Valid()
      modifies this`busy, this`free, this`place, this`queue
      ensures Valid() && (busy != [] ==> bufs[busy[0]].bytes != [])
      ensures Emptied(bufs, old(busy), k) && busy == old(busy)[k..]
      ensures free == Reclaimed(bufs, old(busy)[..k]) + old(free)
    {
      k := 0;
      while busy != []
        invariant Valid() && Emptied(bufs, old(busy), k) && busy == old(busy)[k..]
        invariant free == Reclaimed(bufs, old(busy)[..k]) + old(free)
        decreases |busy|
      {
        if bufs[busy[0]].bytes != [] { break; }
        ReclaimNext(bufs, old(busy), k, free, old(free));
        Recycle();
        k := k + 1;
      }
    }

    /** The first busy buffer is free again if it is ours. */
    method Recycle()
      requires Valid() && busy != [] && bufs[busy[0]].bytes == []
      modifies this`busy, this`free, this`place, this`queue
      ensures Valid() && busy == old(busy)[1..]
      ensures free == if bufs[old(busy)[0]].own then old([busy[0]] + free) else old(free)
    {
      RecycledInv(View([]));
      var id := busy[0];
      busy := busy[1..];
      if bufs[id].own {
        free := [id] + free;
        queue := Remove(queue, id);
        place := place[id := Free];
      }
    }

    // ---- Sending ----

    /** A buffer comes in (`ngx_output_chain_add_copy`). */
    method Accept(b: Buf)
      requires Valid() && !b.own && b.Ok()
      modifies this`bufs, this`place, this`pending, this`due, this`nextId
      ensures Valid() && due == old(due) + ItemsOf(b)
      ensures pending == old(pending) + [old(nextId)] && old(nextId) in bufs && bufs[old(nextId)] == b
    {
      BelowMore(bufs, nextId, b);
      OwnNew(bufs, nextId, b);
      AcceptedInv(View([]), nextId, b);
      bufs := bufs[nextId := b];
      place := place[nextId := In];
      pending := pending + [nextId];
      due := due + ItemsOf(b);
      nextId := nextId + 1;
    }

    /** The items of some buffers. */
    static function ItemsOfAll(chain: seq<Buf>): Items {
      if chain == [] then [] else ItemsOfAll(chain[..|chain| - 1]) + ItemsOf(chain[|chain| - 1])
    }

    static lemma {:induction false} ItemsOfOne(chain: seq<Buf>)
      requires |chain| == 1
      ensures ItemsOfAll(chain) == ItemsOf(chain[0])
    {
      assert chain[..0] == [];
    }

    static lemma {:induction false} ItemsOfNext(chain: seq<Buf>, i: nat)
      requires i < |chain|
      ensures ItemsOfAll(chain[..i + 1]) == ItemsOfAll(chain[..i]) + ItemsOf(chain[i])
    {
      assert chain[..i + 1][..i] == chain[..i] && chain[..i + 1][i] == chain[i];
    }

    method AcceptAll(chain: seq<Buf>)
      requires Valid() && forall i :: 0 <= i < |chain| ==> !chain[i].own && chain[i].Ok()
      modifies this`bufs, this`place, this`pending, this`due, this`nextId
      ensures Valid() && due == old(due) + ItemsOfAll(chain)
    {
      var i := 0;
      while i < |chain|
        invariant i <= |chain| && Valid() && due == old(due) + ItemsOfAll(chain[..i])
      {
        ItemsOfNext(chain, i);
        Regroup(old(due), ItemsOfAll(chain[..i]), ItemsOf(chain[i]));
        Accept(chain[i]);
        i := i + 1;
      }
      assert chain[..|chain|] == chain;
    }

    /** The short path: a single buffer that needs no copy goes straight to the filter. */
    method SendShort(b: Buf, answer: Answer) returns (code: Code)
      requires Valid() && pending == [] && busy == [] && !b.own && b.Ok()
      modifies this
      ensures code == answer.code && Valid() && pending == []
      ensures due == old(due) + ItemsOf(b) && old(handed) <= handed
    {
      Accept(b);
      var out := Forward([], b);
      code := CallFilter(out, answer);
    }

    /** What was handed over and what is pending make up what is due. */
    lemma {:induction false} NothingLost()
      requires Valid()
      ensures due == handed + Stream(bufs, pending)
    {
      var c := Stream(bufs, pending);
      assert Stream(bufs, []) == [] && [] + c == c;
    }

    /** What of `all` is not handed on or pending. */
    ghost predicate Split(all: Items, lost: Items)
      reads this
    {
      all == handed + (lost + Stream(bufs, pending))
    }

    lemma {:induction false} SplitExact(all: Items, lost: Items)
      requires Split(all, lost)
      ensures all == handed + Stream(bufs, pending) <==> lost == []
    {
      var c := Stream(bufs, pending);
      assert lost == [] ==> lost + c == c;
      assert |all| == |handed| + |lost| + |c|;
    }

    /** The bytes alone. */
    lemma {:induction false} SplitBytes(all: Items, lost: Items)
      requires Valid() && Split(all, lost)
      ensures Known(bufs, pending) && Plain(all) == Plain(handed) + (Plain(lost) + Content(bufs, pending))
    {
      NoSpecialBytes(View([]));
      PlainConcat(handed, lost + Stream(bufs, pending));
      PlainConcat(lost, Stream(bufs, pending));
      PlainStream(bufs, pending);
    }

    /** `ngx_output_chain`.  `filter` and `read` say what the filter and the file system do
        from call to call. */
    method Send(chain: seq<Buf>, filter: nat -> Answer, read: nat -> nat -> bool)
      returns (code: Code, ghost lost: Items)
      requires Valid() && forall i :: 0 <= i < |chain| ==> !chain[i].own && chain[i].Ok()
      modifies this
      ensures Valid() && made <= num && old(handed) <= handed
      ensures Split(old(due) + ItemsOfAll(chain), lost) && due == handed + Stream(bufs, pending)
      ensures Plain(old(due) + ItemsOfAll(chain)) == Plain(handed) + (Plain(lost) + Content(bufs, pending))
      ensures old(due) + ItemsOfAll(chain) == handed + Stream(bufs, pending) <==> lost == []
      ensures lost != [] ==> code == ERROR && exists k, j :: !read(k)(j)
      ensures code == OK ==> pending == []
      ensures FromFilter(code, filter) || (code == AGAIN && Stuck()) || (code == ERROR && exists k, j :: !read(k)(j))
    {
      lost := [];
      ghost var all := old(due) + ItemsOfAll(chain);
      if pending == [] && busy == [] && chain == [] {
        code := CallFilter([], filter(0));
        assert all == old(due);
      } else if pending == [] && busy == [] && |chain| == 1 && AsIs(chain[0]).0 {
        ItemsOfOne(chain);
        code := SendShort(AsIs(chain[0]).1, filter(0));
      } else {
        AcceptAll(chain);
        code, lost := SendPending(filter, read);
      }
      NothingLost();
      if lost == [] { assert lost + Stream(bufs, pending) == Stream(bufs, pending); }
      SplitExact(all, lost);
      SplitBytes(all, lost);
    }

    /** Nothing can be done before the filter has taken something. */
    ghost predicate Stuck()
      reads this
    {
      pending != [] && free == [] && hand == [] && made == num
    }

    /** A code is the last one of the filter, with nothing pending unless it is an error or the
        end, or says that the filter is waited for. */
    ghost predicate CodeMeans(code: Code, last: Option<Code>, answer: Answer)
      reads this
    {
      || (code == AGAIN && Stuck())
      || (pending == [] && last == Some(code))
      || ((code == ERROR || code == DONE) && code == answer.code)
    }

    /** One round of the outer loop: what is collected is handed to the filter; it is the
        last round if nothing could be collected, or something went wrong. */
    method Round(last: Option<Code>, answer: Answer, read: nat -> bool)
      returns (stop: bool, code: Code, ghost lost: Items)
      requires Valid() && last != Some(ERROR) && last != Some(DONE)
      modifies this
      ensures Valid() && old(handed) <= handed && (lost == [] ==> due == old(due))
      ensures lost != [] ==> stop && code == ERROR && Split(old(due), lost) && exists k :: !read(k)
      ensures !stop ==> code == answer.code != ERROR && code != DONE
      ensures stop ==> CodeMeans(code, last, answer) || (code == ERROR && exists k :: !read(k))
      ensures !stop ==> Measure() < old(Measure()) || (last.None? && Measure() == old(Measure()))
      ensures stop && code == OK ==> pending == []
    {
      var out, ok;
      out, ok, lost := Collect(read);
      if !ok {
        if lost == [] { SameDue(old(due)); }
        return true, ERROR, lost;
      }
      if out == [] && last.Some? {
        if pending != [] { return true, AGAIN, []; }
        return true, last.value, [];
      }
      stop, code := Flush(out, answer);
    }

    lemma {:induction false} SameDue(all: Items)
      requires Valid() && Split(all, [])
      ensures due == all
    {
      NothingLost();
      var c := Stream(bufs, pending);
      assert [] + c == c;
    }

    /** The filter is called, and what it has taken is freed. */
    method Flush(out: Chain, answer: Answer) returns (stop: bool, code: Code)
      requires Working(out)
      modifies this`bufs, this`queue, this`busy, this`free, this`handed, this`taken, this`place
      ensures code == answer.code && (stop <==> code == ERROR || code == DONE)
      ensures Valid() && old(handed) <= handed && Measure() == old(Measure())
    {
      code := CallFilter(out, answer);
      stop := code == ERROR || code == DONE;
      if !stop { var _ := UpdateChains(out); }
    }

    /** The filter said so. */
    static ghost predicate FromFilter(code: Code, filter: nat -> Answer) {
      exists k :: filter(k).code == code
    }

    /** The outer loop.  Every round but the first has less to do. */
    method SendPending(filter: nat -> Answer, read: nat -> nat -> bool) returns (code: Code, ghost lost: Items)
      requires Valid()
      modifies this
      ensures Valid() && old(handed) <= handed && (lost == [] ==> due == old(due))
      ensures lost != [] ==> code == ERROR && Split(old(due), lost) && exists k, j :: !read(k)(j)
      ensures code == OK ==> pending == []
      ensures FromFilter(code, filter) || (code == AGAIN && Stuck()) || (code == ERROR && exists k, j :: !read(k)(j))
    {
      var last: Option<Code> := None;
      var n := 0;
      while true
        invariant Valid() && due == old(due) && old(handed) <= handed
        invariant last != Some(ERROR) && last != Some(DONE) && (last.Some? ==> FromFilter(last.value, filter))
        decreases Measure(), if last.None? then 1 else 0
      {
        var stop;
        stop, code, lost := Round(last, filter(n), read(n));
        if stop { return; }
        last := Some(code);
        n := n + 1;
      }
    }
  }
}
