/** Buffers and chains of buffers (ngx_buf.h, ngx_buf.c). */
module Buffers {

  /** Where the bytes of a buffer are; `memory` is memory that must not be changed. */
  datatype Store = Store(temporary: bool, memory: bool, inFile: bool)

  datatype Flags = Flags(flush: bool, lastBuf: bool, sync: bool, lastInChain: bool)

  /** ngx_buf_t, with the bytes from `pos` to `last`, or from `file_pos` to `file_last`.
      `own` stands for the tag of the output chain. */
  datatype Buf = Buf(bytes: seq<nat>, at: Store, flags: Flags, own: bool, cap: nat) {
    predicate InMemory() { at.temporary || at.memory }
    predicate Special() { (flags.flush || flags.lastBuf || flags.sync) && !InMemory() && !at.inFile }
    predicate Ok() { bytes != [] ==> InMemory() || at.inFile }
    predicate Made() { Ok() && (own ==> at.temporary && !at.memory && cap >= 1) }

    /** But for its bytes it is the buffer `b`. */
    predicate Like(b: Buf) { at == b.at && flags == b.flags && own == b.own && cap == b.cap }

    /** But for its file it is the buffer `b`. */
    predicate Refiles(b: Buf) {
      && bytes == b.bytes && flags == b.flags && own == b.own && cap == b.cap
      && at.temporary == b.at.temporary && at.memory == b.at.memory
    }
  }

  type Bufs = map<nat, Buf>

  /** A chain is the list of its buffers. */
  type Chain = seq<nat>

  ghost predicate Known(bufs: Bufs, chain: Chain) {
    forall i :: 0 <= i < |chain| ==> chain[i] in bufs
  }

  /** The bytes of a chain. */
  function Content(bufs: Bufs, chain: Chain): seq<nat>
    requires Known(bufs, chain)
  {
    if chain == [] then [] else bufs[chain[0]].bytes + Content(bufs, chain[1..])
  }

  lemma {:induction false} ContentConcat(bufs: Bufs, a: Chain, b: Chain)
    requires Known(bufs, a) && Known(bufs, b)
    ensures Known(bufs, a + b) && Content(bufs, a + b) == Content(bufs, a) + Content(bufs, b)
  {
    if a == [] {
      assert a + b == b;
    } else {
      assert (a + b)[1..] == a[1..] + b;
      ContentConcat(bufs, a[1..], b);
    }
  }

  lemma {:induction false} ContentOne(bufs: Bufs, id: nat)
    requires id in bufs
    ensures Known(bufs, [id]) && Content(bufs, [id]) == bufs[id].bytes
  {
    assert [id][1..] == [];
    assert Content(bufs, []) == [];
  }

  lemma {:induction false} ContentFrame(bufs: Bufs, bufs': Bufs, chain: Chain)
    requires Known(bufs, chain) && forall i :: 0 <= i < |chain| ==>
      chain[i] in bufs' && bufs'[chain[i]].bytes == bufs[chain[i]].bytes
    ensures Known(bufs', chain) && Content(bufs', chain) == Content(bufs, chain)
  {
    if chain != [] { ContentFrame(bufs, bufs', chain[1..]); }
  }

  // ---- Bytes and special buffers ----

  /** What a chain stands for: bytes, and special buffers between them. */
  datatype Item = Byte(value: nat) | Mark(flags: Flags)

  type Items = seq<Item>

  function AsItems(bytes: seq<nat>): Items { seq(|bytes|, i requires 0 <= i < |bytes| => Byte(bytes[i])) }

  /** A buffer that is in no store, but asks for something, is an item of its own. */
  function ItemsOf(b: Buf): (items: Items)
    ensures (b.flags.flush || b.flags.lastBuf || b.flags.sync) && b.at == Store(false, false, false) ==>
      items == [Mark(b.flags)]
    ensures b.at != Store(false, false, false) ==> items == AsItems(b.bytes)
  {
    if b.Special() then [Mark(b.flags)] else AsItems(b.bytes)
  }

  /** All items of a chain. */
  function Stream(bufs: Bufs, chain: Chain): Items {
    if chain == [] then []
    else (if chain[0] in bufs then ItemsOf(bufs[chain[0]]) else []) + Stream(bufs, chain[1..])
  }

  /** The bytes among some items. */
  function Plain(items: Items): seq<nat> {
    if items == [] then [] else (if items[0].Byte? then [items[0].value] else []) + Plain(items[1..])
  }

  lemma {:induction false} PlainConcat(a: Items, b: Items)
    ensures Plain(a + b) == Plain(a) + Plain(b)
  {
    if a == [] {
      assert a + b == b;
    } else {
      assert (a + b)[1..] == a[1..] + b && (a + b)[0] == a[0];
      PlainConcat(a[1..], b);
      Associate(if a[0].Byte? then [a[0].value] else [], Plain(a[1..]), Plain(b));
    }
  }

  lemma {:induction false} Associate(a: seq<nat>, b: seq<nat>, c: seq<nat>)
    ensures a + (b + c) == (a + b) + c
  {
  }

  lemma {:induction false} PlainBytes(bytes: seq<nat>)
    ensures Plain(AsItems(bytes)) == bytes
  {
    if bytes != [] {
      assert AsItems(bytes)[1..] == AsItems(bytes[1..]);
      PlainBytes(bytes[1..]);
    }
  }

  lemma {:induction false} StreamConcat(bufs: Bufs, a: Chain, b: Chain)
    ensures Stream(bufs, a + b) == Stream(bufs, a) + Stream(bufs, b)
  {
    if a == [] {
      assert a + b == b;
    } else {
      assert (a + b)[1..] == a[1..] + b;
      StreamConcat(bufs, a[1..], b);
    }
  }

  lemma {:induction false} StreamOne(bufs: Bufs, id: nat)
    requires id in bufs
    ensures Stream(bufs, [id]) == ItemsOf(bufs[id])
  {
    assert [id][1..] == [];
    assert Stream(bufs, []) == [];
  }

  lemma {:induction false} StreamFrame(bufs: Bufs, bufs': Bufs, chain: Chain)
    requires forall i :: 0 <= i < |chain| ==>
      chain[i] in bufs && chain[i] in bufs' && ItemsOf(bufs'[chain[i]]) == ItemsOf(bufs[chain[i]])
    ensures Stream(bufs', chain) == Stream(bufs, chain)
  {
    if chain != [] { StreamFrame(bufs, bufs', chain[1..]); }
  }

  /** The bytes of the items are the content. */
  lemma {:induction false} PlainStream(bufs: Bufs, chain: Chain)
    requires Known(bufs, chain) && SpecialsEmpty(bufs)
    ensures Plain(Stream(bufs, chain)) == Content(bufs, chain)
  {
    if chain != [] {
      PlainConcat(ItemsOf(bufs[chain[0]]), Stream(bufs, chain[1..]));
      PlainBytes(bufs[chain[0]].bytes);
      PlainStream(bufs, chain[1..]);
      PlainMark(bufs[chain[0]]);
    }
  }

  lemma {:induction false} PlainMark(b: Buf)
    requires b.Special() ==> b.bytes == []
    ensures Plain(ItemsOf(b)) == b.bytes
  {
    PlainBytes(b.bytes);
    if b.Special() { assert [Mark(b.flags)][1..] == []; }
  }

  ghost predicate Differ(chain: Chain, i: int, j: int)
    requires 0 <= i < |chain| && 0 <= j < |chain|
  {
    chain[i] != chain[j]
  }

  /** No buffer is in a chain twice. */
  ghost predicate Distinct(chain: Chain) {
    forall i, j {:trigger Differ(chain, i, j)} :: 0 <= i < j < |chain| ==> Differ(chain, i, j)
  }

  lemma {:induction false} Others(chain: Chain, k: nat)
    requires Distinct(chain) && k < |chain|
    ensures forall i :: 0 <= i < |chain| && i != k ==> chain[i] != chain[k]
  {
    forall i | 0 <= i < |chain| && i != k ensures chain[i] != chain[k] {
      if i < k { assert Differ(chain, i, k); } else { assert Differ(chain, k, i); }
    }
  }

  // ---- ngx_chain_update_sent ----

  /** Only bytes at the front of buffers of the chain are gone. */
  ghost predicate Consumed(bufs: Bufs, bufs': Bufs, chain: Chain) {
    && bufs'.Keys == bufs.Keys
    && (forall id :: id in bufs ==>
      bufs'[id].Like(bufs[id]) && (bufs'[id].bytes != [] ==> bufs[id].bytes != []))
    && (forall id :: id in bufs && id !in chain ==> bufs'[id] == bufs[id])
  }

  /** The first `k` buffers of the chain are empty, the others as before, and `done` bytes
      are gone. */
  ghost predicate Taken(bufs: Bufs, bufs': Bufs, chain: Chain, k: nat, done: nat)
    requires Known(bufs, chain)
  {
    && k <= |chain| && Consumed(bufs, bufs', chain) && Known(bufs', chain) && done <= |Content(bufs, chain)|
    && (forall i :: 0 <= i < k ==> bufs'[chain[i]].bytes == [])
    && (forall i :: k <= i < |chain| ==> bufs'[chain[i]] == bufs[chain[i]])
    && Content(bufs, chain[k..]) == Content(bufs, chain)[done..]
  }

  lemma {:induction false} TakenNext(bufs: Bufs, bufs': Bufs, chain: Chain, k: nat, done: nat)
    requires Known(bufs, chain) && Distinct(chain) && Taken(bufs, bufs', chain, k, done) && k < |chain|
    ensures var id := chain[k];
      Taken(bufs, bufs'[id := bufs'[id].(bytes := [])], chain, k + 1, done + |bufs[id].bytes|)
  {
    Others(chain, k);
    assert chain[k..][1..] == chain[k + 1..] && chain[k..][0] == chain[k];
  }

  lemma {:induction false} EmptyContent(bufs: Bufs, chain: Chain)
    requires Known(bufs, chain) && forall i :: 0 <= i < |chain| ==> bufs[chain[i]].bytes == []
    ensures Content(bufs, chain) == []
  {
    if chain != [] { EmptyContent(bufs, chain[1..]); }
  }

  lemma {:induction false} TakenContent(bufs: Bufs, bufs': Bufs, chain: Chain, k: nat, done: nat)
    requires Known(bufs, chain) && Taken(bufs, bufs', chain, k, done)
    ensures Content(bufs', chain) == Content(bufs, chain)[done..]
  {
    assert chain == chain[..k] + chain[k..];
    ContentConcat(bufs', chain[..k], chain[k..]);
    EmptyContent(bufs', chain[..k]);
    ContentFrame(bufs, bufs', chain[k..]);
  }

  /** Part of the buffer that is next is taken. */
  function PartTaken(bufs': Bufs, id: nat, sent: nat): Bufs
    requires id in bufs' && sent <= |bufs'[id].bytes|
  {
    bufs'[id := bufs'[id].(bytes := bufs'[id].bytes[sent..])]
  }

  lemma {:induction false} PartConsumed(bufs: Bufs, bufs': Bufs, chain: Chain, k: nat, done: nat, sent: nat)
    requires Known(bufs, chain) && Taken(bufs, bufs', chain, k, done) && k < |chain| && sent < |bufs[chain[k]].bytes|
    ensures Consumed(bufs, PartTaken(bufs', chain[k], sent), chain) && Known(PartTaken(bufs', chain[k], sent), chain)
  {
  }

  lemma {:induction false} TakenPart(bufs: Bufs, bufs': Bufs, chain: Chain, k: nat, done: nat, sent: nat)
    requires Known(bufs, chain) && Distinct(chain) && Taken(bufs, bufs', chain, k, done) && k < |chain|
      && sent < |bufs[chain[k]].bytes|
    requires Known(PartTaken(bufs', chain[k], sent), chain)
    ensures done + sent <= |Content(bufs, chain)|
    ensures Content(PartTaken(bufs', chain[k], sent), chain) == Content(bufs, chain)[done + sent..]
  {
    var id, now := chain[k], PartTaken(bufs', chain[k], sent);
    Others(chain, k);
    assert chain[k..][1..] == chain[k + 1..] && chain[k..][0] == id;
    assert chain == chain[..k] + chain[k..];
    ContentConcat(now, chain[..k], chain[k..]);
    EmptyContent(now, chain[..k]);
    ContentFrame(bufs, now, chain[k + 1..]);
    DropFront(Content(bufs, chain), done, bufs[id].bytes, Content(bufs, chain[k + 1..]), sent);
  }

  lemma {:induction false} DropFront(c: seq<nat>, done: nat, b: seq<nat>, r: seq<nat>, sent: nat)
    requires done <= |c| && c[done..] == b + r && sent <= |b|
    ensures done + sent <= |c| && b[sent..] + r == c[done + sent..]
  {
    assert c[done..][sent..] == c[done + sent..];
  }

  /** Special buffers have no bytes. */
  ghost predicate SpecialsEmpty(bufs: Bufs) {
    forall id :: id in bufs && bufs[id].Special() ==> bufs[id].bytes == []
  }

  /** A special buffer is passed over. */
  lemma {:induction false} TakenSkip(bufs: Bufs, bufs': Bufs, chain: Chain, k: nat, done: nat)
    requires Known(bufs, chain) && Distinct(chain) && SpecialsEmpty(bufs)
    requires Taken(bufs, bufs', chain, k, done) && k < |chain| && bufs'[chain[k]].Special()
    ensures Taken(bufs, bufs', chain, k + 1, done)
  {
    TakenNext(bufs, bufs', chain, k, done);
    assert bufs'[chain[k] := bufs'[chain[k]].(bytes := [])] == bufs';
  }

  /** At the end of the chain all bytes are gone. */
  lemma {:induction false} TakenAll(bufs: Bufs, bufs': Bufs, chain: Chain, done: nat)
    requires Known(bufs, chain) && Taken(bufs, bufs', chain, |chain|, done)
    ensures done == |Content(bufs, chain)|
  {
    assert chain[|chain|..] == [];
    assert Content(bufs, []) == [];
  }

  function Min(a: nat, b: nat): nat { if a < b then a else b }

  lemma {:induction false} AllSent(bufs: Bufs, bufs': Bufs, chain: Chain, k: nat, sent: nat, sent0: nat)
    requires Known(bufs, chain) && sent <= sent0
    requires Taken(bufs, bufs', chain, k, sent0 - sent) && (k == |chain| || sent == 0)
    requires k < |chain| ==> !bufs'[chain[k]].Special()
    ensures Content(bufs', chain) == Content(bufs, chain)[Min(sent0, |Content(bufs, chain)|)..]
    ensures RestOf(bufs', chain, chain[k..])
  {
    if k == |chain| { TakenAll(bufs, bufs', chain, sent0 - sent); }
    TakenContent(bufs, bufs', chain, k, sent0 - sent);
  }

  /** `rest` is the end of the chain, and what is before it has no bytes. */
  ghost predicate RestOf(bufs: Bufs, chain: Chain, rest: Chain)
    requires Known(bufs, chain)
  {
    && |rest| <= |chain| && rest == chain[|chain| - |rest|..]
    && (forall i :: 0 <= i < |chain| - |rest| ==> bufs[chain[i]].bytes == [])
    && (rest != [] ==> !bufs[rest[0]].Special())
  }

  /** `ngx_chain_update_sent`: bytes are taken from the front of a chain, as far as it has
      any, and the first buffer that is not done with is returned. */
  method UpdateSent(bufs: Bufs, chain: Chain, sent0: nat) returns (bufs': Bufs, rest: Chain)
    requires Known(bufs, chain) && Distinct(chain) && SpecialsEmpty(bufs)
    ensures Consumed(bufs, bufs', chain) && Known(bufs', chain)
    ensures Content(bufs', chain) == Content(bufs, chain)[Min(sent0, |Content(bufs, chain)|)..]
    ensures RestOf(bufs', chain, rest)
  {
    bufs' := bufs;
    var k, sent: nat := 0, sent0;
    assert chain[0..] == chain;
    while k < |chain|
      invariant sent <= sent0 && Taken(bufs, bufs', chain, k, sent0 - sent)
    {
      var b := bufs'[chain[k]];
      if b.Special() {
        TakenSkip(bufs, bufs', chain, k, sent0 - sent);
        k := k + 1;
        continue;
      }
      if sent == 0 { break; }
      if sent < |b.bytes| {
        PartSent(bufs, bufs', chain, k, sent, sent0);
        bufs', rest := PartTaken(bufs', chain[k], sent), chain[k..];
        return;
      }
      TakenNext(bufs, bufs', chain, k, sent0 - sent);
      sent := sent - |b.bytes|;
      bufs' := bufs'[chain[k] := b.(bytes := [])];
      k := k + 1;
    }
    rest := chain[k..];
    AllSent(bufs, bufs', chain, k, sent, sent0);
  }

  lemma {:induction false} PartSent(bufs: Bufs, bufs': Bufs, chain: Chain, k: nat, sent: nat, sent0: nat)
    requires Known(bufs, chain) && Distinct(chain) && k < |chain| && sent <= sent0
    requires Taken(bufs, bufs', chain, k, sent0 - sent)
    requires sent < |bufs'[chain[k]].bytes| && !bufs'[chain[k]].Special()
    ensures var now := PartTaken(bufs', chain[k], sent);
      && Consumed(bufs, now, chain) && Known(now, chain) && RestOf(now, chain, chain[k..])
      && Content(now, chain) == Content(bufs, chain)[Min(sent0, |Content(bufs, chain)|)..]
  {
    PartConsumed(bufs, bufs', chain, k, sent0 - sent, sent);
    TakenPart(bufs, bufs', chain, k, sent0 - sent, sent);
    Others(chain, k);
  }
}
