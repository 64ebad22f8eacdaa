/** What holds of an output chain, and what each of its moves keeps. */
module OutputState {
  import opened Buffers

  /** Where a buffer is: with the filter, collected for it, free, at hand, pending, or lost. */
  datatype Place = Filter | Out | Free | Hand | In | Gone

  /** All that the filter has (`queue`, in order), those of them that are waited for
      (`busy`), what is collected for the filter (`out`), the buffer at hand to copy into,
      what is due and what was handed to the filter, bytes and special buffers, and the bytes
      that it has taken. */
  datatype State = State(bufs: Bufs, queue: Chain, busy: Chain, out: Chain, free: Chain, hand: Chain, pending: Chain,
      place: map<nat, Place>, due: Items, handed: Items, taken: seq<nat>)

  ghost predicate Sits(place: map<nat, Place>, chain: Chain, p: Place, i: int)
    requires 0 <= i < |chain|
  {
    chain[i] in place && place[chain[i]] == p
  }

  /** The buffers of a chain are all in one place. */
  ghost predicate Seated(place: map<nat, Place>, chain: Chain, p: Place) {
    Distinct(chain) && forall i {:trigger Sits(place, chain, p, i)} :: 0 <= i < |chain| ==> Sits(place, chain, p, i)
  }

  ghost predicate At(s: State, chain: Chain, p: Place) {
    Known(s.bufs, chain) && Seated(s.place, chain, p)
  }

  lemma {:induction false} AtFacts(s: State, chain: Chain, p: Place)
    requires At(s, chain, p)
    ensures forall i :: 0 <= i < |chain| ==> chain[i] in s.bufs && chain[i] in s.place && s.place[chain[i]] == p
    ensures forall i, j :: 0 <= i < j < |chain| ==> chain[i] != chain[j]
  {
    forall i | 0 <= i < |chain| ensures chain[i] in s.place && s.place[chain[i]] == p {
      assert Sits(s.place, chain, p, i);
    }
    forall i, j | 0 <= i < j < |chain| ensures chain[i] != chain[j] { assert Differ(chain, i, j); }
  }

  /** A buffer in another place is not in the chain. */
  lemma {:induction false} NotIn(s: State, chain: Chain, p: Place, id: nat)
    requires At(s, chain, p) && id in s.place && s.place[id] != p
    ensures id !in chain && forall i :: 0 <= i < |chain| ==> chain[i] != id
  {
    AtFacts(s, chain, p);
  }

  /** The head of a chain is where the chain is. */
  lemma {:induction false} HeadAt(s: State, chain: Chain, p: Place)
    requires At(s, chain, p) && chain != []
    ensures chain[0] in s.bufs && chain[0] in s.place && s.place[chain[0]] == p
    ensures At(s, chain[1..], p) && chain[0] !in chain[1..] && forall i :: 1 <= i < |chain| ==> chain[i] != chain[0]
  {
    AtFacts(s, chain, p);
    var c := chain[1..];
    forall i | 0 <= i < |c| ensures Sits(s.place, c, p, i) { }
    forall i, j | 0 <= i < j < |c| ensures Differ(c, i, j) { }
  }

  /** Every buffer is in one place, and in each chain once. */
  ghost predicate Placed(s: State) {
    && At(s, s.queue, Filter) && At(s, s.busy, Filter) && At(s, s.out, Out)
    && At(s, s.free, Free) && At(s, s.hand, Hand) && At(s, s.pending, In)
  }

  ghost predicate Blank(bufs: Bufs, chain: Chain) {
    forall i :: 0 <= i < |chain| ==> chain[i] in bufs && bufs[chain[i]].own && bufs[chain[i]].bytes == []
  }

  ghost predicate WellMade(bufs: Bufs) {
    forall id :: id in bufs ==> bufs[id].Made()
  }

  /** Buffers that are free or at hand are empty, and ours. */
  ghost predicate Kinds(s: State) {
    Blank(s.bufs, s.free) && Blank(s.bufs, s.hand) && WellMade(s.bufs)
  }

  /** What the filter has, and what it has not got yet, make up all that is due. */
  ghost predicate Flow(s: State)
    requires Placed(s)
  {
    && Plain(s.handed) == s.taken + Content(s.bufs, s.queue)
    && s.due == s.handed + (Stream(s.bufs, s.out) + Stream(s.bufs, s.pending))
  }

  ghost predicate Inv(s: State) { Placed(s) && Kinds(s) && Flow(s) }

  // ---- Frames ----

  /** One buffer goes to another place. */
  ghost predicate OnePlace(s: State, s': State, id: nat) {
    && (forall i :: i in s.bufs ==> i in s'.bufs)
    && (forall i :: i in s.place && i != id ==> i in s'.place && s'.place[i] == s.place[i])
  }

  /** The place of a buffer that is not in the chain does not matter. */
  lemma {:induction false} AtShrink(s: State, s': State, chain: Chain, p: Place, id: nat)
    requires At(s, chain, p) && id !in chain && OnePlace(s, s', id)
    ensures At(s', chain, p)
  {
    AtFacts(s, chain, p);
    forall i | 0 <= i < |chain| ensures Sits(s'.place, chain, p, i) { assert chain[i] in chain; }
  }

  lemma {:induction false} AtFrame(s: State, s': State, chain: Chain, p: Place, id: nat)
    requires At(s, chain, p) && id in s.place && s.place[id] != p && OnePlace(s, s', id)
    ensures At(s', chain, p)
  {
    NotIn(s, chain, p, id);
    AtShrink(s, s', chain, p, id);
  }

  lemma {:induction false} AtAppend(s: State, chain: Chain, p: Place, id: nat)
    requires At(s, chain, p) && id in s.bufs && id in s.place && s.place[id] == p && id !in chain
    ensures At(s, chain + [id], p)
  {
    AtFacts(s, chain, p);
    var c := chain + [id];
    forall i | 0 <= i < |c| ensures Sits(s.place, c, p, i) { }
    forall i, j | 0 <= i < j < |c| ensures Differ(c, i, j) { }
  }

  lemma {:induction false} AtPrepend(s: State, chain: Chain, p: Place, id: nat)
    requires At(s, chain, p) && id in s.bufs && id in s.place && s.place[id] == p && id !in chain
    ensures At(s, [id] + chain, p)
  {
    AtFacts(s, chain, p);
    var c := [id] + chain;
    forall i | 0 <= i < |c| ensures Sits(s.place, c, p, i) { }
    forall i, j | 0 <= i < j < |c| ensures Differ(c, i, j) {
      assert c[j] == chain[j - 1];
      if i > 0 { assert c[i] == chain[i - 1]; }
    }
  }

  lemma {:induction false} AtOne(s: State, p: Place, id: nat)
    requires id in s.bufs && id in s.place && s.place[id] == p
    ensures At(s, [id], p)
  {
    forall i | 0 <= i < 1 ensures Sits(s.place, [id], p, i) { }
  }

  /** A chain that has none of the buffers that change. */
  lemma {:induction false} SameContent(s: State, bufs': Bufs, chain: Chain, p: Place, ids: set<nat>)
    requires At(s, chain, p) && forall i :: i in ids ==> i in s.place && s.place[i] != p
    requires forall i :: i in s.bufs && i !in ids ==> i in bufs' && bufs'[i] == s.bufs[i]
    ensures Known(bufs', chain) && Content(bufs', chain) == Content(s.bufs, chain)
    ensures Stream(bufs', chain) == Stream(s.bufs, chain)
  {
    AtFacts(s, chain, p);
    forall i | 0 <= i < |chain| ensures chain[i] in bufs' && bufs'[chain[i]] == s.bufs[chain[i]] {
      assert chain[i] !in ids;
    }
    ContentFrame(s.bufs, bufs', chain);
    StreamFrame(s.bufs, bufs', chain);
  }

  /** What the filter has, and what is collected, is not touched by what happens to other
      buffers. */
  lemma {:induction false} OthersKept(s: State, bufs': Bufs, ids: set<nat>)
    requires Placed(s) && forall i :: i in ids ==> i in s.place && s.place[i] !in {Filter, Out}
    requires forall i :: i in s.bufs && i !in ids ==> i in bufs' && bufs'[i] == s.bufs[i]
    ensures Known(bufs', s.queue) && Content(bufs', s.queue) == Content(s.bufs, s.queue)
    ensures Known(bufs', s.out) && Stream(bufs', s.out) == Stream(s.bufs, s.out)
  {
    SameContent(s, bufs', s.queue, Filter, ids);
    SameContent(s, bufs', s.out, Out, ids);
  }

  lemma {:induction false} BlankKept(bufs: Bufs, chain: Chain, id: nat, b: Buf)
    requires Blank(bufs, chain) && id !in chain
    ensures Blank(bufs[id := b], chain)
  {
    forall i | 0 <= i < |chain| ensures chain[i] != id { assert chain[i] in chain; }
  }

  lemma {:induction false} WellMadeKept(bufs: Bufs, id: nat, b: Buf)
    requires WellMade(bufs) && b.Made()
    ensures WellMade(bufs[id := b])
  {
  }

  lemma {:induction false} Regroup<T>(a: seq<T>, b: seq<T>, c: seq<T>)
    ensures a + (b + c) == (a + b) + c
  {
  }

  /** One buffer more at the end of a chain. */
  lemma {:induction false} AppendContent(bufs: Bufs, chain: Chain, id: nat)
    requires Known(bufs, chain) && id in bufs
    ensures Known(bufs, chain + [id]) && Stream(bufs, chain + [id]) == Stream(bufs, chain) + ItemsOf(bufs[id])
  {
    StreamConcat(bufs, chain, [id]);
    StreamOne(bufs, id);
  }

  /** The bytes of the head are at the front. */
  lemma {:induction false} HeadContent(bufs: Bufs, chain: Chain)
    requires Known(bufs, chain) && chain != []
    ensures Known(bufs, chain[1..]) && Content(bufs, chain) == bufs[chain[0]].bytes + Content(bufs, chain[1..])
    ensures Stream(bufs, chain) == ItemsOf(bufs[chain[0]]) + Stream(bufs, chain[1..])
  {
  }

  // ---- The head of the pending buffers goes ----

  /** A buffer without bytes that is not special is dropped. */
  function Dropped(s: State): State
    requires s.pending != []
  {
    s.(pending := s.pending[1..])
  }

  lemma {:induction false} DroppedInv(s: State)
    requires Inv(s) && s.pending != [] && s.bufs[s.pending[0]].bytes == [] && !s.bufs[s.pending[0]].Special()
    ensures Inv(Dropped(s))
  {
    HeadContent(s.bufs, s.pending);
    HeadAt(s, s.pending, In);
    var c := Stream(s.bufs, s.pending[1..]);
    assert AsItems([]) == [] && [] + c == c;
  }

  /** The head is passed on as it is, but for where its bytes are taken from. */
  function Forwarded(s: State, b: Buf): State
    requires s.pending != []
  {
    var id := s.pending[0];
    s.(bufs := s.bufs[id := b], pending := s.pending[1..], out := s.out + [id], place := s.place[id := Out])
  }

  lemma {:induction false} ForwardedPlaced(s: State, b: Buf)
    requires Placed(s) && s.pending != []
    ensures Placed(Forwarded(s, b))
  {
    var s', id := Forwarded(s, b), s.pending[0];
    HeadAt(s, s.pending, In);
    AtFrame(s, s', s.queue, Filter, id);
    AtFrame(s, s', s.busy, Filter, id);
    AtFrame(s, s', s.free, Free, id);
    AtFrame(s, s', s.hand, Hand, id);
    AtFrame(s, s', s.out, Out, id);
    NotIn(s, s.out, Out, id);
    AtAppend(s', s.out, Out, id);
    AtShrink(s, s', s.pending[1..], In, id);
  }

  lemma {:induction false} InKinds(s: State, b: Buf)
    requires Placed(s) && Kinds(s) && s.pending != [] && b.Made()
    ensures var bufs' := s.bufs[s.pending[0] := b];
      Blank(bufs', s.free) && Blank(bufs', s.hand) && WellMade(bufs')
  {
    var id := s.pending[0];
    HeadAt(s, s.pending, In);
    NotIn(s, s.free, Free, id);
    NotIn(s, s.hand, Hand, id);
    BlankKept(s.bufs, s.free, id, b);
    BlankKept(s.bufs, s.hand, id, b);
    WellMadeKept(s.bufs, id, b);
  }

  /** Only where the bytes of the head come from has changed. */
  predicate Refiled(s: State, b: Buf)
    requires s.pending != [] && s.pending[0] in s.bufs
  {
    b.Refiles(s.bufs[s.pending[0]]) && b.Made() && b.Special() == s.bufs[s.pending[0]].Special()
  }

  lemma {:induction false} ForwardedInv(s: State, b: Buf)
    requires Inv(s) && s.pending != [] && Refiled(s, b)
    ensures Inv(Forwarded(s, b))
  {
    var s', id := Forwarded(s, b), s.pending[0];
    HeadAt(s, s.pending, In);
    ForwardedPlaced(s, b);
    InKinds(s, b);
    OthersKept(s, s'.bufs, {id});
    HeadContent(s.bufs, s.pending);
    StreamFrame(s.bufs, s'.bufs, s.pending[1..]);
    AppendContent(s'.bufs, s.out, id);
    Regroup(Stream(s.bufs, s.out), ItemsOf(b), Stream(s.bufs, s.pending[1..]));
  }

  /** The head stays, but its bytes are not taken from its file. */
  lemma {:induction false} RewrittenInv(s: State, b: Buf)
    requires Inv(s) && s.pending != [] && Refiled(s, b)
    ensures var s' := s.(bufs := s.bufs[s.pending[0] := b]);
      Inv(s') && Content(s'.bufs, s'.pending) == Content(s.bufs, s.pending)
  {
    var s', id := s.(bufs := s.bufs[s.pending[0] := b]), s.pending[0];
    HeadAt(s, s.pending, In);
    InKinds(s, b);
    OthersKept(s, s'.bufs, {id});
    ContentFrame(s.bufs, s'.bufs, s.pending);
    StreamFrame(s.bufs, s'.bufs, s.pending);
  }

  // ---- A buffer at hand ----

  /** The first free buffer is taken. */
  function Taking(s: State): State
    requires s.free != []
  {
    s.(free := s.free[1..], hand := [s.free[0]], place := s.place[s.free[0] := Hand])
  }

  lemma {:induction false} TakingInv(s: State)
    requires Inv(s) && s.free != [] && s.hand == []
    ensures Inv(Taking(s))
  {
    var s', id := Taking(s), s.free[0];
    HeadAt(s, s.free, Free);
    AtFrame(s, s', s.queue, Filter, id);
    AtFrame(s, s', s.busy, Filter, id);
    AtFrame(s, s', s.out, Out, id);
    AtFrame(s, s', s.pending, In, id);
    AtShrink(s, s', s.free[1..], Free, id);
    AtOne(s', Hand, id);
  }

  /** A new buffer. */
  function WithNew(s: State, d: nat, b: Buf): State {
    s.(bufs := s.bufs[d := b], hand := [d], place := s.place[d := Hand])
  }

  lemma {:induction false} NewContent(s: State, d: nat, b: Buf, chain: Chain, p: Place)
    requires At(s, chain, p) && d !in s.bufs
    ensures At(WithNew(s, d, b), chain, p) && d !in chain
    ensures Content(WithNew(s, d, b).bufs, chain) == Content(s.bufs, chain)
    ensures Stream(WithNew(s, d, b).bufs, chain) == Stream(s.bufs, chain)
  {
    AtFacts(s, chain, p);
    AtShrink(s, WithNew(s, d, b), chain, p, d);
    ContentFrame(s.bufs, WithNew(s, d, b).bufs, chain);
    StreamFrame(s.bufs, WithNew(s, d, b).bufs, chain);
  }

  lemma {:induction false} NewInv(s: State, d: nat, b: Buf)
    requires Inv(s) && d !in s.bufs && s.hand == [] && b.own && b.bytes == [] && b.Made()
    ensures Inv(WithNew(s, d, b)) && Content(WithNew(s, d, b).bufs, s.pending) == Content(s.bufs, s.pending)
  {
    NewContent(s, d, b, s.queue, Filter);
    NewContent(s, d, b, s.busy, Filter);
    NewContent(s, d, b, s.out, Out);
    NewContent(s, d, b, s.free, Free);
    NewContent(s, d, b, s.pending, In);
    AtOne(WithNew(s, d, b), Hand, d);
    BlankKept(s.bufs, s.free, d, b);
    WellMadeKept(s.bufs, d, b);
  }

  // ---- Bytes are copied ----

  /** `n` bytes of the head of the pending buffers go to the buffer at hand, which becomes
      `b` and goes out. */
  function Copied(s: State, b: Buf, n: nat): State
    requires s.hand != [] && s.pending != [] && s.pending[0] in s.bufs && n <= |s.bufs[s.pending[0]].bytes|
  {
    var d, id := s.hand[0], s.pending[0];
    var src := s.bufs[id].(bytes := s.bufs[id].bytes[n..]);
    s.(bufs := s.bufs[d := b][id := src], place := s.place[d := Out], out := s.out + [d], hand := s.hand[1..],
       pending := if src.bytes == [] then s.pending[1..] else s.pending)
  }

  lemma {:induction false} CopiedPlaced(s: State, b: Buf, n: nat)
    requires Placed(s) && s.hand != [] && s.pending != [] && n <= |s.bufs[s.pending[0]].bytes|
    ensures Placed(Copied(s, b, n))
  {
    var s', d := Copied(s, b, n), s.hand[0];
    HeadAt(s, s.hand, Hand);
    AtFrame(s, s', s.queue, Filter, d);
    AtFrame(s, s', s.busy, Filter, d);
    AtFrame(s, s', s.pending, In, d);
    AtFrame(s, s', s.out, Out, d);
    AtFrame(s, s', s.free, Free, d);
    AtShrink(s, s', s.hand[1..], Hand, d);
    HeadAt(s', s.pending, In);
    NotIn(s, s.out, Out, d);
    AtAppend(s', s.out, Out, d);
  }

  lemma {:induction false} CopiedKinds(s: State, b: Buf, n: nat)
    requires Placed(s) && Kinds(s) && s.hand != [] && s.pending != [] && n <= |s.bufs[s.pending[0]].bytes|
    requires b.own && b.Made()
    ensures Kinds(Copied(s, b, n))
  {
    var d, id := s.hand[0], s.pending[0];
    HeadAt(s, s.hand, Hand);
    HeadAt(s, s.pending, In);
    NotIn(s, s.free, Free, d);
    NotIn(s, s.free, Free, id);
    NotIn(s, s.hand, Hand, id);
    var src := s.bufs[id].(bytes := s.bufs[id].bytes[n..]);
    BlankKept(s.bufs, s.free, d, b);
    BlankKept(s.bufs[d := b], s.free, id, src);
    BlankKept(s.bufs, s.hand[1..], d, b);
    BlankKept(s.bufs[d := b], s.hand[1..], id, src);
    WellMadeKept(s.bufs, d, b);
    WellMadeKept(s.bufs[d := b], id, src);
  }

  /** What is pending, after the first `n` bytes have gone. */
  lemma {:induction false} CopiedPending(s: State, b: Buf, n: nat)
    requires Placed(s) && s.hand != [] && s.pending != [] && n <= |s.bufs[s.pending[0]].bytes|
    requires Placed(Copied(s, b, n))
    ensures var s' := Copied(s, b, n);
      && Content(s.bufs, s.pending) == s.bufs[s.pending[0]].bytes[..n] + Content(s'.bufs, s'.pending)
      && (!s.bufs[s.pending[0]].Special() ==>
            Stream(s.bufs, s.pending) == AsItems(s.bufs[s.pending[0]].bytes[..n]) + Stream(s'.bufs, s'.pending))
  {
    var s', d, id := Copied(s, b, n), s.hand[0], s.pending[0];
    var rest, bytes := s.pending[1..], s.bufs[id].bytes;
    HeadAt(s, s.hand, Hand);
    HeadAt(s, s.pending, In);
    NotIn(s, s.pending, In, d);
    HeadContent(s.bufs, s.pending);
    forall i | 0 <= i < |rest| ensures rest[i] in s'.bufs && s'.bufs[rest[i]] == s.bufs[rest[i]] {
      assert rest[i] == s.pending[i + 1] && rest[i] != id && rest[i] != d;
    }
    ContentFrame(s.bufs, s'.bufs, rest);
    StreamFrame(s.bufs, s'.bufs, rest);
    CutBytes(bytes, n, Content(s.bufs, rest), Stream(s.bufs, rest));
    if bytes[n..] != [] { HeadContent(s'.bufs, s.pending); }
  }

  lemma {:induction false} CutBytes(bytes: seq<nat>, n: nat, rest: seq<nat>, items: Items)
    requires n <= |bytes|
    ensures bytes + rest == bytes[..n] + (bytes[n..] + rest)
    ensures AsItems(bytes) + items == AsItems(bytes[..n]) + (AsItems(bytes[n..]) + items)
    ensures bytes[n..] == [] ==> bytes[n..] + rest == rest && AsItems(bytes[n..]) + items == items
  {
    assert bytes == bytes[..n] + bytes[n..];
    assert AsItems(bytes) == AsItems(bytes[..n]) + AsItems(bytes[n..]);
  }

  lemma {:induction false} CopiedInv(s: State, b: Buf, n: nat)
    requires Inv(s) && s.hand != [] && s.pending != [] && n <= |s.bufs[s.pending[0]].bytes|
    requires b.own && b.Made() && b.bytes == s.bufs[s.pending[0]].bytes[..n] && s.bufs[s.pending[0]].bytes != []
    ensures Inv(Copied(s, b, n))
  {
    HeadAt(s, s.pending, In);
    CopiedPlaced(s, b, n);
    CopiedKinds(s, b, n);
    CopiedStream(s, b, n);
  }

  lemma {:induction false} CopiedStream(s: State, b: Buf, n: nat)
    requires Placed(s) && Flow(s) && s.hand != [] && s.pending != [] && n <= |s.bufs[s.pending[0]].bytes|
    requires b.bytes == s.bufs[s.pending[0]].bytes[..n] && Placed(Copied(s, b, n))
    requires !b.Special() && !s.bufs[s.pending[0]].Special()
    ensures Flow(Copied(s, b, n))
  {
    var s', d, id := Copied(s, b, n), s.hand[0], s.pending[0];
    HeadAt(s, s.hand, Hand);
    HeadAt(s, s.pending, In);
    OthersKept(s, s'.bufs, {id, d});
    CopiedPending(s, b, n);
    AppendContent(s'.bufs, s.out, d);
    Regroup(Stream(s.bufs, s.out), AsItems(b.bytes), Stream(s'.bufs, s'.pending));
  }

  // ---- The filter ----

  ghost predicate Apart(a: Chain, b: Chain) {
    forall i, j :: 0 <= i < |a| && 0 <= j < |b| ==> a[i] != b[j]
  }

  lemma {:induction false} DistinctConcat(a: Chain, b: Chain)
    requires Distinct(a) && Distinct(b) && Apart(a, b)
    ensures Distinct(a + b)
  {
    var c := a + b;
    forall i, j | 0 <= i < j < |c| ensures Differ(c, i, j) {
      if j < |a| {
        assert Differ(a, i, j);
      } else if i >= |a| {
        assert Differ(b, i - |a|, j - |a|);
      }
    }
  }

  lemma {:induction false} PlacesApart(s: State, a: Chain, p: Place, b: Chain, q: Place)
    requires At(s, a, p) && At(s, b, q) && p != q
    ensures Apart(a, b)
  {
    AtFacts(s, a, p);
    AtFacts(s, b, q);
  }

  lemma {:induction false} AtConcat(s: State, a: Chain, b: Chain, p: Place)
    requires At(s, a, p) && At(s, b, p) && Apart(a, b)
    ensures At(s, a + b, p)
  {
    DistinctConcat(a, b);
    AtFacts(s, a, p);
    AtFacts(s, b, p);
    forall i | 0 <= i < |a + b| ensures Sits(s.place, a + b, p, i) { }
  }

  /** All that the filter has once it is handed `out`. */
  lemma {:induction false} AtFilter(s: State)
    requires Placed(s)
    ensures Distinct(s.queue + s.out) && Known(s.bufs, s.queue + s.out)
    ensures Content(s.bufs, s.queue + s.out) == Content(s.bufs, s.queue) + Content(s.bufs, s.out)
  {
    PlacesApart(s, s.queue, Filter, s.out, Out);
    DistinctConcat(s.queue, s.out);
    ContentConcat(s.bufs, s.queue, s.out);
  }

  function Relabel(place: map<nat, Place>, ids: Chain, p: Place): map<nat, Place>
    decreases |ids|
  {
    if ids == [] then place else Relabel(place[ids[0] := p], ids[1..], p)
  }

  lemma {:induction false} Relabelled(place: map<nat, Place>, ids: Chain, p: Place, id: nat)
    ensures id in Relabel(place, ids, p) <==> id in place || id in ids
    ensures id in ids ==> Relabel(place, ids, p)[id] == p
    ensures id !in ids && id in place ==> Relabel(place, ids, p)[id] == place[id]
    decreases |ids|
  {
    if ids != [] { Relabelled(place[ids[0] := p], ids[1..], p, id); }
  }

  /** What is out goes elsewhere, and the others stay. */
  lemma {:induction false} RelabelledAt(s: State, s': State, chain: Chain, p: Place, q: Place)
    requires At(s, chain, p) && p != Out && At(s, s.out, Out)
    requires s'.bufs.Keys == s.bufs.Keys && s'.place == Relabel(s.place, s.out, q)
    ensures At(s', chain, p)
  {
    AtFacts(s, chain, p);
    forall i | 0 <= i < |chain| ensures Sits(s'.place, chain, p, i) {
      NotIn(s, s.out, Out, chain[i]);
      Relabelled(s.place, s.out, q, chain[i]);
    }
  }

  lemma {:induction false} RelabelledOut(s: State, s': State, q: Place)
    requires At(s, s.out, Out) && s'.bufs.Keys == s.bufs.Keys && s'.place == Relabel(s.place, s.out, q)
    ensures At(s', s.out, q)
  {
    forall i | 0 <= i < |s.out| ensures Sits(s'.place, s.out, q, i) {
      Relabelled(s.place, s.out, q, s.out[i]);
    }
  }

  /** The filter is handed `out` and takes bytes from the front of all it has: `bufs'` is
      what is left. */
  function Served(s: State, bufs': Bufs, more: Items, got: seq<nat>): State {
    s.(bufs := bufs', handed := s.handed + more, taken := s.taken + got, out := [], queue := s.queue + s.out,
       place := Relabel(s.place, s.out, Filter))
  }

  ghost predicate ServedOk(s: State, bufs': Bufs, sent: nat)
    requires Placed(s)
  {
    var all := s.queue + s.out;
    && Known(s.bufs, all) && Known(bufs', all) && Consumed(s.bufs, bufs', all)
    && sent <= |Content(s.bufs, all)| && Content(bufs', all) == Content(s.bufs, all)[sent..]
  }

  lemma {:induction false} ServedPlaced(s: State, bufs': Bufs, more: Items, got: seq<nat>)
    requires Placed(s) && bufs'.Keys == s.bufs.Keys
    ensures Placed(Served(s, bufs', more, got)) && At(Served(s, bufs', more, got), s.busy + s.out, Filter)
  {
    var s' := Served(s, bufs', more, got);
    RelabelledAt(s, s', s.queue, Filter, Filter);
    RelabelledAt(s, s', s.busy, Filter, Filter);
    RelabelledAt(s, s', s.free, Free, Filter);
    RelabelledAt(s, s', s.hand, Hand, Filter);
    RelabelledAt(s, s', s.pending, In, Filter);
    RelabelledOut(s, s', Filter);
    PlacesApart(s, s.queue, Filter, s.out, Out);
    AtConcat(s', s.queue, s.out, Filter);
    PlacesApart(s, s.busy, Filter, s.out, Out);
    AtConcat(s', s.busy, s.out, Filter);
  }

  /** A buffer that the filter does not have is as before. */
  lemma {:induction false} NotAtFilter(s: State, bufs': Bufs, chain: Chain, p: Place)
    requires Placed(s) && Consumed(s.bufs, bufs', s.queue + s.out) && At(s, chain, p) && p !in {Filter, Out}
    ensures forall i :: 0 <= i < |chain| ==> chain[i] in bufs' && bufs'[chain[i]] == s.bufs[chain[i]]
  {
    AtFacts(s, chain, p);
    forall i | 0 <= i < |chain| ensures chain[i] in bufs' && bufs'[chain[i]] == s.bufs[chain[i]] {
      NotIn(s, s.queue, Filter, chain[i]);
      NotIn(s, s.out, Out, chain[i]);
    }
  }

  lemma {:induction false} ServedKinds(s: State, bufs': Bufs)
    requires Placed(s) && Kinds(s) && Consumed(s.bufs, bufs', s.queue + s.out)
    ensures Blank(bufs', s.free) && Blank(bufs', s.hand) && WellMade(bufs')
  {
    NotAtFilter(s, bufs', s.free, Free);
    NotAtFilter(s, bufs', s.hand, Hand);
    forall id | id in bufs' ensures bufs'[id].Made() {
      assert bufs'[id].Like(s.bufs[id]);
    }
  }

  lemma {:induction false} PendingKept(s: State, bufs': Bufs)
    requires Placed(s) && Consumed(s.bufs, bufs', s.queue + s.out)
    ensures Known(bufs', s.pending) && Content(bufs', s.pending) == Content(s.bufs, s.pending)
    ensures Stream(bufs', s.pending) == Stream(s.bufs, s.pending)
  {
    NotAtFilter(s, bufs', s.pending, In);
    ContentFrame(s.bufs, bufs', s.pending);
    StreamFrame(s.bufs, bufs', s.pending);
  }

  /** Joining the two parts of a stream that was cut at `sent`. */
  lemma {:induction false} CutStream(handed: seq<nat>, taken: seq<nat>, had: seq<nat>, more: seq<nat>, all: seq<nat>,
      sent: nat)
    requires handed == taken + had && all == had + more && sent <= |all|
    ensures handed + more == (taken + all[..sent]) + all[sent..]
  {
    assert all == all[..sent] + all[sent..];
    assert (taken + had) + more == taken + all;
  }

  lemma {:induction false} HandOver(due: Items, handed: Items, more: Items, rest: Items)
    requires due == handed + (more + rest)
    ensures due == (handed + more) + ([] + rest)
  {
    Regroup(handed, more, rest);
  }

  lemma {:induction false} ServedStream(s: State, s': State, sent: nat, more: Items, all: seq<nat>)
    requires Inv(s) && ServedOk(s, s'.bufs, sent) && Placed(s')
    requires more == Stream(s.bufs, s.out) && all == Content(s.bufs, s.queue + s.out)
    requires s'.handed == s.handed + more && s'.taken == s.taken + all[..sent] && s'.due == s.due
    requires s'.queue == s.queue + s.out && s'.out == [] && s'.pending == s.pending
    ensures Flow(s')
  {
    AtFilter(s);
    NoSpecialBytes(s);
    PlainConcat(s.handed, more);
    PlainStream(s.bufs, s.out);
    CutStream(Plain(s.handed), s.taken, Content(s.bufs, s.queue), Content(s.bufs, s.out), all, sent);
    PendingKept(s, s'.bufs);
    assert Stream(s'.bufs, s'.out) == [];
    HandOver(s.due, s.handed, more, Stream(s.bufs, s.pending));
  }

  /** The filter takes bytes, and nothing is lost. */
  lemma {:induction false} ServedInv(s: State, s': State, sent: nat, more: Items, all: seq<nat>)
    requires Inv(s) && ServedOk(s, s'.bufs, sent)
    requires more == Stream(s.bufs, s.out) && all == Content(s.bufs, s.queue + s.out)
    requires s' == Served(s, s'.bufs, more, all[..sent])
    ensures Inv(s') && At(s', s.busy + s.out, Filter) && s'.bufs.Keys == s.bufs.Keys
  {
    ServedPlaced(s, s'.bufs, more, all[..sent]);
    ServedKinds(s, s'.bufs);
    ServedStream(s, s', sent, more, all);
  }

  lemma {:induction false} NoSpecialBytes(s: State)
    requires Kinds(s)
    ensures SpecialsEmpty(s.bufs)
  {
  }

  // ---- What the filter has taken is freed ----

  function Remove(chain: Chain, id: nat): Chain {
    if chain == [] then []
    else if chain[0] == id then chain[1..]
    else [chain[0]] + Remove(chain[1..], id)
  }

  lemma {:induction false} RemoveAt(s: State, chain: Chain, p: Place, id: nat)
    requires At(s, chain, p)
    ensures At(s, Remove(chain, id), p) && id !in Remove(chain, id)
    ensures forall x :: x in Remove(chain, id) ==> x in chain
  {
    if chain != [] {
      HeadAt(s, chain, p);
      if chain[0] != id {
        RemoveAt(s, chain[1..], p, id);
        AtPrepend(s, Remove(chain[1..], id), p, chain[0]);
      }
    }
  }

  lemma {:induction false} RemoveContent(bufs: Bufs, chain: Chain, id: nat)
    requires Known(bufs, chain) && Known(bufs, Remove(chain, id)) && (id in bufs ==> bufs[id].bytes == [])
    ensures Content(bufs, Remove(chain, id)) == Content(bufs, chain)
  {
    if chain != [] {
      HeadContent(bufs, chain);
      if chain[0] != id {
        var rest := Remove(chain[1..], id);
        assert Remove(chain, id)[1..] == rest;
        HeadContent(bufs, Remove(chain, id));
        RemoveContent(bufs, chain[1..], id);
      }
    }
  }

  /** The first busy buffer, which is empty, is free again if it is ours, and forgotten if
      it is not. */
  function Recycled(s: State): State
    requires s.busy != [] && s.busy[0] in s.bufs
  {
    var id := s.busy[0];
    if s.bufs[id].own then
      s.(busy := s.busy[1..], queue := Remove(s.queue, id), free := [id] + s.free, place := s.place[id := Free])
    else s.(busy := s.busy[1..])
  }

  lemma {:induction false} RecycledPlaced(s: State)
    requires Placed(s) && s.busy != []
    ensures Placed(Recycled(s))
  {
    var s', id := Recycled(s), s.busy[0];
    HeadAt(s, s.busy, Filter);
    if s.bufs[id].own {
      RemoveAt(s, s.queue, Filter, id);
      AtShrink(s, s', Remove(s.queue, id), Filter, id);
      AtShrink(s, s', s.busy[1..], Filter, id);
      AtFrame(s, s', s.out, Out, id);
      AtFrame(s, s', s.pending, In, id);
      AtFrame(s, s', s.hand, Hand, id);
      AtFrame(s, s', s.free, Free, id);
      NotIn(s, s.free, Free, id);
      AtPrepend(s', s.free, Free, id);
    }
  }

  lemma {:induction false} RecycledInv(s: State)
    requires Inv(s) && s.busy != [] && s.bufs[s.busy[0]].bytes == []
    ensures Inv(Recycled(s))
  {
    RecycledPlaced(s);
    if s.bufs[s.busy[0]].own { RemoveContent(s.bufs, s.queue, s.busy[0]); }
  }

  // ---- A buffer comes in ----

  function Accepted(s: State, id: nat, b: Buf): State {
    s.(bufs := s.bufs[id := b], place := s.place[id := In], pending := s.pending + [id], due := s.due + ItemsOf(b))
  }

  lemma {:induction false} InContent(s: State, id: nat, b: Buf, chain: Chain, p: Place)
    requires At(s, chain, p) && id !in s.bufs
    ensures At(Accepted(s, id, b), chain, p) && id !in chain
    ensures Content(Accepted(s, id, b).bufs, chain) == Content(s.bufs, chain)
    ensures Stream(Accepted(s, id, b).bufs, chain) == Stream(s.bufs, chain)
  {
    AtFacts(s, chain, p);
    AtShrink(s, Accepted(s, id, b), chain, p, id);
    ContentFrame(s.bufs, Accepted(s, id, b).bufs, chain);
    StreamFrame(s.bufs, Accepted(s, id, b).bufs, chain);
  }

  lemma {:induction false} AcceptedInv(s: State, id: nat, b: Buf)
    requires Inv(s) && id !in s.bufs && !b.own && b.Ok()
    ensures Inv(Accepted(s, id, b))
  {
    var s' := Accepted(s, id, b);
    InContent(s, id, b, s.queue, Filter);
    InContent(s, id, b, s.busy, Filter);
    InContent(s, id, b, s.out, Out);
    InContent(s, id, b, s.free, Free);
    InContent(s, id, b, s.hand, Hand);
    InContent(s, id, b, s.pending, In);
    AtAppend(s', s.pending, In, id);
    BlankKept(s.bufs, s.free, id, b);
    BlankKept(s.bufs, s.hand, id, b);
    WellMadeKept(s.bufs, id, b);
    AppendContent(s'.bufs, s.pending, id);
    Regroup(Stream(s.bufs, s.out), Stream(s.bufs, s.pending), ItemsOf(b));
    Regroup(s.handed, Stream(s.bufs, s.out) + Stream(s.bufs, s.pending), ItemsOf(b));
  }

  // ---- What is collected is lost ----

  /** After a read that failed nothing has what was collected: it is no longer due. */
  function Lost(s: State, due: Items): State {
    s.(out := [], place := Relabel(s.place, s.out, Gone), due := due)
  }

  lemma {:induction false} LostInv(s: State, due: Items)
    requires Inv(s) && due == s.handed + Stream(s.bufs, s.pending)
    ensures Inv(Lost(s, due))
  {
    var s' := Lost(s, due);
    RelabelledAt(s, s', s.queue, Filter, Gone);
    RelabelledAt(s, s', s.busy, Filter, Gone);
    RelabelledAt(s, s', s.free, Free, Gone);
    RelabelledAt(s, s', s.hand, Hand, Gone);
    RelabelledAt(s, s', s.pending, In, Gone);
    var c := Stream(s.bufs, s.pending);
    assert Stream(s.bufs, []) == [] && [] + c == c;
  }

  /** What is passed on as it is, before a buffer that cannot be read, is lost. */
  lemma {:induction false} LostFirst(s: State, b: Buf)
    requires Inv(s) && s.out == [] && s.hand == [] && s.free != [] && s.pending != [] && Refiled(s, b)
    ensures Inv(Forwarded(s, b)) && Forwarded(s, b).free != [] && Inv(Taking(Forwarded(s, b)))
    ensures var due := s.handed + Stream(s.bufs, s.pending[1..]);
      Inv(Lost(Taking(Forwarded(s, b)), due)) && s.due == s.handed + (ItemsOf(b) + Stream(s.bufs, s.pending[1..]))
  {
    var s1, rest := Forwarded(s, b), Stream(s.bufs, s.pending[1..]);
    ForwardedInv(s, b);
    TakingInv(s1);
    HeadContent(s.bufs, s.pending);
    HeadAt(s, s.pending, In);
    StreamFrame(s.bufs, s1.bufs, s.pending[1..]);
    LostInv(Taking(s1), s.handed + rest);
    assert Stream(s.bufs, s.out) == [] && [] + (ItemsOf(b) + rest) == ItemsOf(b) + rest;
  }

  /** It happens: with a free buffer, one byte pending in memory, and one in a file. */
  lemma {:induction false} LossStart(free: Buf, first: Buf, second: Buf, s: State)
    requires free.own && free.bytes == [] && free.Made()
    requires !first.own && first.bytes == [7] && first.at.temporary && !second.own && second.bytes == [8]
      && second.at.inFile
    requires s == State(map[0 := free, 1 := first, 2 := second], [], [], [], [0], [], [1, 2],
                        map[0 := Free, 1 := In, 2 := In], [Byte(7), Byte(8)], [], [])
    ensures Inv(s) && Refiled(s, first) && first.bytes != []
  {
    LossPlaced(s);
    assert [1, 2][1..] == [2];
    StreamOne(s.bufs, 2);
    HeadContent(s.bufs, [1, 2]);
    assert AsItems([7]) == [Byte(7)] && AsItems([8]) == [Byte(8)];
  }

  lemma {:induction false} LossPlaced(s: State)
    requires s.bufs.Keys == {0, 1, 2} && s.place == map[0 := Free, 1 := In, 2 := In]
    requires s.queue == [] && s.busy == [] && s.out == [] && s.free == [0] && s.hand == [] && s.pending == [1, 2]
    ensures Placed(s)
  {
    AtOne(s, Free, 0);
    AtOne(s, In, 2);
    AtPrepend(s, [2], In, 1);
    assert [1] + [2] == [1, 2];
  }
}
