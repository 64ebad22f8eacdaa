/** Page records and the circular doubly linked lists that run through them. */
module SlabLists {
  import opened Words

  /** The null pointer; every other pointer to a record is its index. */
  const NULL := -1

  /** The two low bits of `prev`. */
  datatype Kind = Page | Big | Exact | Small

  /** ngx_slab_page_t.  The word `prev` is kept as its pointer and its kind bits. */
  datatype Rec = Rec(slab: Word, next: int, prev: int, kind: Kind)

  type Recs = seq<Rec>

  function Succ(head: int, list: seq<int>, i: int): int
    requires -1 <= i < |list|
  {
    if i + 1 < |list| then list[i + 1] else head
  }

  function Pred(head: int, list: seq<int>, i: int): int
    requires 0 <= i <= |list|
  {
    if i == 0 then head else list[i - 1]
  }

  ghost predicate Differ(list: seq<int>, i: int, j: int)
    requires 0 <= i < |list| && 0 <= j < |list|
  {
    list[i] != list[j]
  }

  /** The entries are records other than the head, each listed once. */
  ghost predicate Proper(n: nat, head: int, list: seq<int>) {
    && 0 <= head < n && (forall i :: 0 <= i < |list| ==> 0 <= list[i] < n && list[i] != head)
    && (forall i, j {:trigger Differ(list, i, j)} :: 0 <= i < j < |list| ==> Differ(list, i, j))
  }

  lemma {:induction false} EachOnce(n: nat, head: int, list: seq<int>)
    requires Proper(n, head, list)
    ensures forall i, j :: 0 <= i < j < |list| ==> list[i] != list[j]
  {
    forall i, j | 0 <= i < j < |list| ensures list[i] != list[j] { assert Differ(list, i, j); }
  }

  ghost predicate LinkedAt(R: Recs, head: int, list: seq<int>, kind: Kind, i: int)
    requires 0 <= i < |list| && 0 <= list[i] < |R|
  {
    var x := R[list[i]];
    x.next == Succ(head, list, i) && x.prev == Pred(head, list, i) && x.kind == kind
  }

  /** The records of `list` are linked in this order from `head` around to `head`; the
      backward link and the kind of the head itself are not used. */
  ghost predicate Ring(R: Recs, head: int, list: seq<int>, kind: Kind) {
    && Proper(|R|, head, list)
    && R[head].next == Succ(head, list, -1)
    && (forall i {:trigger LinkedAt(R, head, list, kind, i)} :: 0 <= i < |list| ==> LinkedAt(R, head, list, kind, i))
  }

  /** Only links change, and only in the head and in records on the list. */
  ghost predicate Relinked(R: Recs, R': Recs, head: int, list: seq<int>) {
    && |R'| == |R|
    && (forall z :: 0 <= z < |R| ==> R'[z].slab == R[z].slab)
    && (forall z :: 0 <= z < |R| && z != head && z !in list ==> R'[z] == R[z])
  }

  ghost predicate SameLinks(x: Rec, y: Rec) {
    x.next == y.next && x.prev == y.prev && x.kind == y.kind
  }

  lemma {:induction false} RingFrame(R: Recs, R': Recs, head: int, list: seq<int>, kind: Kind)
    requires Ring(R, head, list, kind) && |R'| == |R| && R'[head].next == R[head].next
    requires forall z :: 0 <= z < |R| && z in list ==> SameLinks(R[z], R'[z])
    ensures Ring(R', head, list, kind)
  {
    forall i | 0 <= i < |list| ensures LinkedAt(R', head, list, kind, i) {
      assert LinkedAt(R, head, list, kind, i) && list[i] in list;
    }
  }

  // ---- Taking a record out ----

  function Unlinked(R: Recs, x: int): Recs
    requires 0 <= x < |R| && 0 <= R[x].prev < |R| && 0 <= R[x].next < |R|
  {
    var R1 := R[R[x].prev := R[R[x].prev].(next := R[x].next)];
    R1[R[x].next := R1[R[x].next].(prev := R[x].prev, kind := R[x].kind)]
  }

  function Without(list: seq<int>, k: nat): seq<int>
    requires k < |list|
  {
    list[..k] + list[k + 1..]
  }

  lemma {:induction false} WithoutAt(list: seq<int>, k: nat, i: nat)
    requires k < |list| && i < |list| - 1
    ensures Without(list, k)[i] == list[if i < k then i else i + 1]
  {
  }

  lemma {:induction false} ProperWithout(n: nat, head: int, list: seq<int>, k: nat)
    requires Proper(n, head, list) && k < |list|
    ensures Proper(n, head, Without(list, k)) && list[k] !in Without(list, k)
  {
    var list' := Without(list, k);
    EachOnce(n, head, list);
    forall i | 0 <= i < |list'| ensures 0 <= list'[i] < n && list'[i] != head && list'[i] != list[k] {
      WithoutAt(list, k, i);
    }
    forall i, j | 0 <= i < j < |list'| ensures Differ(list', i, j) {
      WithoutAt(list, k, i);
      WithoutAt(list, k, j);
    }
  }

  lemma {:induction false} UnlinkRing(R: Recs, head: int, list: seq<int>, kind: Kind, k: nat)
    requires Ring(R, head, list, kind) && k < |list|
    ensures 0 <= list[k] < |R| && 0 <= R[list[k]].prev < |R| && 0 <= R[list[k]].next < |R|
    ensures Ring(Unlinked(R, list[k]), head, Without(list, k), kind)
    ensures Relinked(R, Unlinked(R, list[k]), head, Without(list, k))
  {
    var list' := Without(list, k);
    assert LinkedAt(R, head, list, kind, k);
    var R' := Unlinked(R, list[k]);
    ProperWithout(|R|, head, list, k);
    forall i | 0 <= i < |list'| ensures LinkedAt(R', head, list', kind, i) {
      UnlinkRingAt(R, head, list, kind, k, i);
    }
    if |list| > 1 { WithoutAt(list, k, 0); }
    assert Pred(head, list, k) == head || Pred(head, list, k) in list' by { if k > 0 { WithoutAt(list, k, k - 1); } }
    assert Succ(head, list, k) == head
      || Succ(head, list, k) in list' by { if k + 1 < |list| { WithoutAt(list, k, k); } }
  }

  lemma {:induction false} UnlinkRingAt(R: Recs, head: int, list: seq<int>, kind: Kind, k: nat, i: nat)
    requires Ring(R, head, list, kind) && k < |list| && i < |list| - 1
    ensures 0 <= list[k] < |R| && 0 <= R[list[k]].prev < |R| && 0 <= R[list[k]].next < |R|
    ensures var list' := Without(list, k);
      0 <= list'[i] < |R| && LinkedAt(Unlinked(R, list[k]), head, list', kind, i)
  {
    var list' := Without(list, k);
    var j := if i < k then i else i + 1;
    EachOnce(|R|, head, list);
    WithoutAt(list, k, i);
    if i + 1 < |list'| { WithoutAt(list, k, i + 1); }
    if i > 0 { WithoutAt(list, k, i - 1); }
    assert LinkedAt(R, head, list, kind, j) && LinkedAt(R, head, list, kind, k);
  }

  // ---- Another record in the place of one ----

  function Moved(R: Recs, x: int, y: int): Recs
    requires 0 <= x < |R| && 0 <= y < |R| && 0 <= R[x].prev < |R| && 0 <= R[x].next < |R|
  {
    var R1 := R[y := R[y].(next := R[x].next, prev := R[x].prev, kind := R[x].kind)];
    var R2 := R1[R[x].prev := R1[R[x].prev].(next := y)];
    R2[R[x].next := R2[R[x].next].(prev := y, kind := Page)]
  }

  lemma {:induction false} MoveRing(R: Recs, head: int, list: seq<int>, k: nat, y: int)
    requires Ring(R, head, list, Page) && k < |list| && 0 <= y < |R| && y != head && y !in list
    ensures 0 <= list[k] < |R| && 0 <= R[list[k]].prev < |R| && 0 <= R[list[k]].next < |R|
    ensures Ring(Moved(R, list[k], y), head, list[k := y], Page)
    ensures Relinked(R, Moved(R, list[k], y), head, list[k := y])
  {
    var list' := list[k := y];
    EachOnce(|R|, head, list);
    assert LinkedAt(R, head, list, Page, k);
    var R' := Moved(R, list[k], y);
    assert Proper(|R|, head, list') by {
      forall i | 0 <= i < |list| ensures list[i] != y { assert list[i] in list; }
      forall i, j | 0 <= i < j < |list'| ensures Differ(list', i, j) { }
    }
    forall i | 0 <= i < |list'| ensures LinkedAt(R', head, list', Page, i) {
      assert LinkedAt(R, head, list, Page, i) && list[i] in list;
    }
    assert y in list' by { assert list'[k] == y; }
    assert Pred(head, list, k) == head
      || Pred(head, list, k) in list' by { if k > 0 { assert list'[k - 1] == list[k - 1]; } }
    assert Succ(head, list, k) == head
      || Succ(head, list, k) in list' by { if k + 1 < |list| { assert list'[k + 1] == list[k + 1]; } }
  }

  // ---- Putting a record in front ----

  function Pushed(R: Recs, head: int, y: int, kind: Kind): Recs
    requires 0 <= head < |R| && 0 <= y < |R| && 0 <= R[head].next < |R|
  {
    var R1 := R[y := R[y].(next := R[head].next, prev := head, kind := kind)];
    var R2 := R1[R[head].next := R1[R[head].next].(prev := y, kind := kind)];
    R2[head := R2[head].(next := y)]
  }

  lemma {:induction false} ProperPush(n: nat, head: int, list: seq<int>, y: int)
    requires Proper(n, head, list) && 0 <= y < n && y != head && y !in list
    ensures Proper(n, head, [y] + list)
  {
    var list' := [y] + list;
    EachOnce(n, head, list);
    forall i | 0 <= i < |list'| ensures 0 <= list'[i] < n && list'[i] != head {
      if i > 0 { assert list'[i] == list[i - 1]; }
    }
    forall i, j | 0 <= i < j < |list'| ensures Differ(list', i, j) {
      assert list'[j] == list[j - 1] && list[j - 1] in list;
      if i > 0 { assert list'[i] == list[i - 1]; }
    }
  }

  lemma {:induction false} PushRingAt(R: Recs, head: int, list: seq<int>, kind: Kind, y: int, i: nat)
    requires Ring(R, head, list, kind) && 0 <= y < |R| && y != head && y !in list && i <= |list|
    requires 0 <= R[head].next < |R|
    ensures 0 <= ([y] + list)[i] < |R| && LinkedAt(Pushed(R, head, y, kind), head, [y] + list, kind, i)
  {
    var list' := [y] + list;
    EachOnce(|R|, head, list);
    if i > 0 {
      assert list'[i] == list[i - 1] && LinkedAt(R, head, list, kind, i - 1) && list[i - 1] in list;
      if i < |list| { assert list'[i + 1] == list[i]; }
    }
  }

  lemma {:induction false} PushRing(R: Recs, head: int, list: seq<int>, kind: Kind, y: int)
    requires Ring(R, head, list, kind) && 0 <= y < |R| && y != head && y !in list
    ensures 0 <= R[head].next < |R|
    ensures Ring(Pushed(R, head, y, kind), head, [y] + list, kind)
    ensures Relinked(R, Pushed(R, head, y, kind), head, [y] + list)
  {
    var list' := [y] + list;
    var R' := Pushed(R, head, y, kind);
    ProperPush(|R|, head, list, y);
    forall i | 0 <= i < |list'| ensures LinkedAt(R', head, list', kind, i) {
      PushRingAt(R, head, list, kind, y, i);
    }
    assert R[head].next == head || R[head].next in list' by { if list != [] { assert list'[1] == list[0]; } }
    assert y in list' by { assert list'[0] == y; }
  }

  // ---- Finding an entry ----

  function IndexOf(list: seq<int>, x: int): (k: nat)
    requires x in list
    ensures k < |list| && list[k] == x
  {
    if list[0] == x then 0 else 1 + IndexOf(list[1..], x)
  }

  /** The list without `x`. */
  function Minus(list: seq<int>, x: int): seq<int>
    requires x in list
  {
    Without(list, IndexOf(list, x))
  }

  lemma {:induction false} MinusMembers(n: nat, head: int, list: seq<int>, x: int)
    requires Proper(n, head, list) && x in list
    ensures forall z :: z in Minus(list, x) <==> z in list && z != x
  {
    var k := IndexOf(list, x);
    ProperWithout(n, head, list, k);
    forall z | z in list && z != x ensures z in Minus(list, x) {
      var a :| 0 <= a < |list| && list[a] == z;
      WithoutAt(list, k, if a < k then a else a - 1);
    }
    forall z | z in Minus(list, x) ensures z in list {
      var a :| 0 <= a < |Minus(list, x)| && Minus(list, x)[a] == z;
      WithoutAt(list, k, a);
    }
  }

  /** An entry of a ring is linked to other records. */
  lemma {:induction false} InnerLinks(R: Recs, head: int, list: seq<int>, kind: Kind, x: int)
    requires Ring(R, head, list, kind) && x in list
    ensures 0 <= x < |R| && 0 <= R[x].next < |R| && 0 <= R[x].prev < |R| && R[x].next != x && R[x].prev != x
    ensures R[x].next != NULL && R[x].kind == kind
  {
    var k := IndexOf(list, x);
    assert LinkedAt(R, head, list, kind, k);
    if k + 1 < |list| { assert Differ(list, k, k + 1); }
    if k > 0 { assert Differ(list, k - 1, k); }
  }
}
