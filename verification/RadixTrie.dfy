/** A binary trie over bit strings as the nodes of a radix tree hold it. */
module RadixTrie {
  import opened Words

  const NULL := -1

  /** NGX_RADIX_NO_VALUE */
  const NO_VALUE: Word := W64 - 1

  /** ngx_radix_node_t; pointers are node numbers. */
  datatype Cell = Cell(right: int, left: int, parent: int, value: Word) {
    function Child(b: bool): int { if b then right else left }
    function SetChild(b: bool, i: int): Cell { if b then this.(right := i) else this.(left := i) }
  }

  /** A prefix, first bit first. */
  type Path = seq<bool>

  /** Which node stands for which prefix. */
  type Places = map<Path, int>

  const MAX_LENGTH := 32

  /** The place of a prefix, or none. */
  ghost function Place(at: Places, p: Path): int { if p in at then at[p] else NULL }

  ghost predicate NodeOk(nodes: seq<Cell>, at: Places, p: Path)
    requires p in at
  {
    && 0 <= at[p] < |nodes| && |p| <= MAX_LENGTH
    && nodes[at[p]].right == Place(at, p + [true])
    && nodes[at[p]].left == Place(at, p + [false])
    && (if p == [] then nodes[at[p]].parent == NULL
        else p[..|p| - 1] in at && nodes[at[p]].parent == at[p[..|p| - 1]])
  }

  ghost predicate Apart(at: Places, p: Path, q: Path)
    requires p in at && q in at
  {
    p == q || at[p] != at[q]
  }

  /** The nodes form a trie with the root in place 0. */
  ghost predicate Trie(nodes: seq<Cell>, at: Places) {
    && [] in at && at[[]] == 0
    && (forall p {:trigger NodeOk(nodes, at, p)} :: p in at ==> NodeOk(nodes, at, p))
    && (forall p, q {:trigger Apart(at, p, q)} :: p in at && q in at ==> Apart(at, p, q))
  }

  /** What is stored for a prefix. */
  datatype Option = None | Some(value: Word)

  ghost function Stored(nodes: seq<Cell>, at: Places, p: Path): Option {
    if p in at && 0 <= at[p] < |nodes| && nodes[at[p]].value != NO_VALUE then Some(nodes[at[p]].value) else None
  }

  /** The same is stored ... */
  ghost predicate SameStored(nodes: seq<Cell>, at: Places, nodes': seq<Cell>, at': Places) {
    forall q :: Stored(nodes', at', q) == Stored(nodes, at, q)
  }

  /** ... except for `p`. */
  ghost predicate StoredBut(nodes: seq<Cell>, at: Places, nodes': seq<Cell>, at': Places, p: Path, o: Option) {
    forall q :: Stored(nodes', at', q) == if q == p then o else Stored(nodes, at, q)
  }

  function AsOption(v: Word): Option { if v == NO_VALUE then None else Some(v) }

  lemma {:induction false} LastOf(p: Path, b: bool)
    ensures (p + [b])[..|p + [b]| - 1] == p && p + [b] != []
  {
  }

  /** Extending by a bit is injective. */
  lemma {:induction false} BitOf(p: Path, q: Path, b: bool, c: bool)
    requires p + [b] == q + [c]
    ensures p == q && b == c
  {
    assert (p + [b])[|p|] == b && (q + [c])[|q|] == c;
    LastOf(p, b);
    LastOf(q, c);
  }

  lemma {:induction false} PathSplit(p: Path)
    requires p != []
    ensures p == p[..|p| - 1] + [p[|p| - 1]]
  {
  }

  /** The places are closed under taking a bit off. */
  lemma {:induction false} ParentPlace(nodes: seq<Cell>, at: Places, p: Path, b: bool)
    requires Trie(nodes, at) && p + [b] in at
    ensures p in at
  {
    assert NodeOk(nodes, at, p + [b]);
    LastOf(p, b);
  }

  // ---- Hanging a node below another ----

  ghost function Hung(nodes: seq<Cell>, x: int, b: bool, i: int): seq<Cell>
    requires 0 <= x < |nodes| && 0 <= i < |nodes| && i != x
  {
    nodes[i := Cell(NULL, NULL, x, NO_VALUE)][x := nodes[x].SetChild(b, i)]
  }

  /** Node `i` is in no place. */
  ghost predicate Spare(at: Places, i: int) {
    forall p {:trigger at[p]} :: p in at ==> at[p] != i
  }

  lemma {:induction false} HungNodeOk(nodes: seq<Cell>, at: Places, p: Path, b: bool, i: int, q: Path)
    requires Trie(nodes, at) && p in at && p + [b] !in at && |p| < MAX_LENGTH
    requires 0 <= i < |nodes| && Spare(at, i) && q in at
    ensures 0 <= at[p] < |nodes| && at[p] != i
    ensures NodeOk(Hung(nodes, at[p], b, i), at[p + [b] := i], q)
  {
    assert NodeOk(nodes, at, p) && NodeOk(nodes, at, q) && Apart(at, p, q);
    var at' := at[p + [b] := i];
    forall c | q + [c] == p + [b] ensures q == p && b == c { BitOf(q, p, c, b); }
    if q != [] { assert q[..|q| - 1] in at' && at'[q[..|q| - 1]] == at[q[..|q| - 1]]; }
  }

  lemma {:induction false} HungNew(nodes: seq<Cell>, at: Places, p: Path, b: bool, i: int)
    requires Trie(nodes, at) && p in at && p + [b] !in at && |p| < MAX_LENGTH
    requires 0 <= i < |nodes| && Spare(at, i)
    ensures 0 <= at[p] < |nodes| && at[p] != i
    ensures NodeOk(Hung(nodes, at[p], b, i), at[p + [b] := i], p + [b])
  {
    assert NodeOk(nodes, at, p);
    var at', q := at[p + [b] := i], p + [b];
    LastOf(p, b);
    forall c ensures q + [c] !in at' {
      LastOf(q, c);
      if q + [c] in at { ParentPlace(nodes, at, q, c); }
      assert q + [c] != q by { assert |q + [c]| == |q| + 1; }
    }
  }

  /** A new node without value below the node of prefix `p`. */
  lemma {:induction false} HangTrie(nodes: seq<Cell>, at: Places, p: Path, b: bool, i: int)
    requires Trie(nodes, at) && p in at && p + [b] !in at && |p| < MAX_LENGTH
    requires 0 <= i < |nodes| && Spare(at, i)
    ensures 0 <= at[p] < |nodes| && at[p] != i
    ensures Trie(Hung(nodes, at[p], b, i), at[p + [b] := i])
    ensures SameStored(nodes, at, Hung(nodes, at[p], b, i), at[p + [b] := i])
  {
    assert NodeOk(nodes, at, p);
    var nodes', at' := Hung(nodes, at[p], b, i), at[p + [b] := i];
    forall q | q in at' ensures NodeOk(nodes', at', q) {
      if q == p + [b] { HungNew(nodes, at, p, b, i); } else { HungNodeOk(nodes, at, p, b, i, q); }
    }
    forall q, r | q in at' && r in at' ensures Apart(at', q, r) {
      if q != p + [b] && r != p + [b] { assert Apart(at, q, r); }
    }
    forall q ensures Stored(nodes', at', q) == Stored(nodes, at, q) {
      if q in at { assert Apart(at, p, q); }
    }
  }

  // ---- Cutting a leaf off ----

  ghost predicate Leaf(nodes: seq<Cell>, x: int)
    requires 0 <= x < |nodes|
  {
    nodes[x].right == NULL && nodes[x].left == NULL
  }

  /** Below a leaf there is nothing. */
  lemma {:induction false} LeafBelow(nodes: seq<Cell>, at: Places, p: Path, b: bool)
    requires Trie(nodes, at) && p in at && 0 <= at[p] < |nodes| && Leaf(nodes, at[p])
    ensures p + [b] !in at
  {
    assert NodeOk(nodes, at, p);
    PlaceNull(nodes, at, p + [b]);
  }

  lemma {:induction false} PlaceNull(nodes: seq<Cell>, at: Places, p: Path)
    requires Trie(nodes, at)
    ensures Place(at, p) == NULL <==> p !in at
  {
    if p in at { assert NodeOk(nodes, at, p); }
  }

  /** The parent forgets its child, which becomes the first spare node. */
  ghost function CutOff(nodes: seq<Cell>, x: int, b: bool, i: int, free: int): seq<Cell>
    requires 0 <= x < |nodes| && 0 <= i < |nodes| && i != x
  {
    nodes[x := nodes[x].SetChild(b, NULL)][i := nodes[i].(right := free)]
  }

  lemma {:induction false} CutNodeOk(nodes: seq<Cell>, at: Places, p: Path, b: bool, free: int, q: Path)
    requires Trie(nodes, at) && p in at && p + [b] in at && q in at && q != p + [b]
    requires 0 <= at[p + [b]] < |nodes| && Leaf(nodes, at[p + [b]])
    ensures 0 <= at[p] < |nodes| && at[p] != at[p + [b]]
    ensures NodeOk(CutOff(nodes, at[p], b, at[p + [b]], free), at - {p + [b]}, q)
  {
    var c := p + [b];
    assert NodeOk(nodes, at, p) && NodeOk(nodes, at, q) && NodeOk(nodes, at, c);
    LastOf(p, b);
    assert p != c by { assert |c| == |p| + 1; }
    assert Apart(at, p, c) && Apart(at, p, q) && Apart(at, q, c);
    forall d | q + [d] == c ensures q == p && d == b { BitOf(q, p, d, b); }
    if q != [] {
      PathSplit(q);
      LeafBelow(nodes, at, c, q[|q| - 1]);
    }
  }

  lemma {:induction false} CutStored(nodes: seq<Cell>, at: Places, p: Path, b: bool, free: int)
    requires Trie(nodes, at) && p in at && p + [b] in at
    requires 0 <= at[p + [b]] < |nodes| && 0 <= at[p] < |nodes| && at[p] != at[p + [b]]
    ensures StoredBut(nodes, at, CutOff(nodes, at[p], b, at[p + [b]], free), at - {p + [b]}, p + [b], None)
  {
    var c := p + [b];
    var nodes', at' := CutOff(nodes, at[p], b, at[c], free), at - {c};
    forall q ensures Stored(nodes', at', q) == if q == c then None else Stored(nodes, at, q) {
      if q in at' { assert Apart(at, p, q) && Apart(at, q, c); }
    }
  }

  lemma {:induction false} CutTrie(nodes: seq<Cell>, at: Places, p: Path, b: bool, free: int)
    requires Trie(nodes, at) && p in at && p + [b] in at
    requires 0 <= at[p + [b]] < |nodes| && Leaf(nodes, at[p + [b]])
    ensures 0 <= at[p] < |nodes| && at[p] != at[p + [b]]
    ensures Trie(CutOff(nodes, at[p], b, at[p + [b]], free), at - {p + [b]})
    ensures Spare(at - {p + [b]}, at[p + [b]])
    ensures StoredBut(nodes, at, CutOff(nodes, at[p], b, at[p + [b]], free), at - {p + [b]}, p + [b], None)
  {
    var c := p + [b];
    assert NodeOk(nodes, at, p);
    CutNodeOk(nodes, at, p, b, free, p);
    var nodes', at' := CutOff(nodes, at[p], b, at[c], free), at - {c};
    forall q | q in at' ensures NodeOk(nodes', at', q) { CutNodeOk(nodes, at, p, b, free, q); }
    forall q, r | q in at' && r in at' ensures Apart(at', q, r) { assert Apart(at, q, r); }
    forall q | q in at' ensures at'[q] != at[c] { assert Apart(at, q, c); }
    CutStored(nodes, at, p, b, free);
  }

  // ---- Values ----

  lemma {:induction false} ValueTrie(nodes: seq<Cell>, at: Places, p: Path, v: Word)
    requires Trie(nodes, at) && p in at
    ensures 0 <= at[p] < |nodes|
    ensures Trie(nodes[at[p] := nodes[at[p]].(value := v)], at)
    ensures StoredBut(nodes, at, nodes[at[p] := nodes[at[p]].(value := v)], at, p, AsOption(v))
  {
    assert NodeOk(nodes, at, p);
    var nodes' := nodes[at[p] := nodes[at[p]].(value := v)];
    forall q | q in at ensures NodeOk(nodes', at, q) { assert NodeOk(nodes, at, q); }
    forall q ensures Stored(nodes', at, q) == if q == p then AsOption(v) else Stored(nodes, at, q) {
      if q in at { assert Apart(at, p, q) && NodeOk(nodes, at, q); }
    }
  }

  /** Nodes that are in no place do not matter. */
  lemma {:induction false} TrieFrame(nodes: seq<Cell>, nodes': seq<Cell>, at: Places)
    requires Trie(nodes, at) && |nodes| <= |nodes'|
    requires forall p {:trigger at[p]} :: p in at && 0 <= at[p] < |nodes| ==> nodes'[at[p]] == nodes[at[p]]
    ensures Trie(nodes', at)
    ensures SameStored(nodes, at, nodes', at)
  {
    forall q | q in at ensures NodeOk(nodes', at, q) { assert NodeOk(nodes, at, q); }
    forall q ensures Stored(nodes', at, q) == Stored(nodes, at, q) { if q in at { assert NodeOk(nodes, at, q); } }
  }

  // ---- Leaves without a value ----

  /** Every leaf but the root and that of `p` has a value. */
  ghost predicate LeanBut(nodes: seq<Cell>, at: Places, p: Path) {
    forall q {:trigger at[q]} :: q in at && q != [] && q != p && 0 <= at[q] < |nodes| && Leaf(nodes, at[q]) ==>
      nodes[at[q]].value != NO_VALUE
  }

  lemma {:induction false} HangLean(nodes: seq<Cell>, at: Places, p: Path, b: bool, i: int)
    requires Trie(nodes, at) && LeanBut(nodes, at, p) && p in at && p + [b] !in at && |p| < MAX_LENGTH
    requires 0 <= i < |nodes| && Spare(at, i) && 0 <= at[p] < |nodes|
    ensures LeanBut(Hung(nodes, at[p], b, i), at[p + [b] := i], p + [b])
  {
    var nodes', at' := Hung(nodes, at[p], b, i), at[p + [b] := i];
    forall q | q in at' && q != [] && q != p + [b] && 0 <= at'[q] < |nodes'| && Leaf(nodes', at'[q])
      ensures nodes'[at'[q]].value != NO_VALUE
    {
      assert Apart(at, p, q) && at[q] == at'[q];
    }
  }

  lemma {:induction false} CutLean(nodes: seq<Cell>, at: Places, p: Path, b: bool, free: int)
    requires Trie(nodes, at) && LeanBut(nodes, at, p + [b]) && p in at && p + [b] in at
    requires 0 <= at[p] < |nodes| && 0 <= at[p + [b]] < |nodes| && at[p] != at[p + [b]]
    ensures LeanBut(CutOff(nodes, at[p], b, at[p + [b]], free), at - {p + [b]}, p)
  {
    var c := p + [b];
    var nodes', at' := CutOff(nodes, at[p], b, at[c], free), at - {c};
    forall q | q in at' && q != [] && q != p && 0 <= at'[q] < |nodes'| && Leaf(nodes', at'[q])
      ensures nodes'[at'[q]].value != NO_VALUE
    {
      assert Apart(at, p, q) && Apart(at, q, c) && at[q] == at'[q];
    }
  }

  // ---- Spare nodes ----

  /** The spare nodes are linked through `right`. */
  ghost predicate Chain(spare: seq<int>, first: int, nodes: seq<Cell>) {
    if spare == [] then first == NULL
    else
      && first == spare[0] && 0 <= first < |nodes| && first !in spare[1..]
      && Chain(spare[1..], nodes[first].right, nodes)
  }

  lemma {:induction false} ChainFrame(spare: seq<int>, first: int, nodes: seq<Cell>, nodes': seq<Cell>)
    requires Chain(spare, first, nodes) && |nodes| <= |nodes'|
    requires forall i :: i in spare && 0 <= i < |nodes| ==> nodes'[i] == nodes[i]
    ensures Chain(spare, first, nodes')
  {
    if spare != [] {
      assert spare[0] in spare;
      ChainFrame(spare[1..], nodes[first].right, nodes, nodes');
    }
  }

  /** No place has a spare node. */
  ghost predicate Unused(at: Places, spare: seq<int>) {
    forall i :: i in spare ==> Spare(at, i)
  }

  /** A node in place is not spare. */
  lemma {:induction false} PlacedNotSpare(at: Places, spare: seq<int>, p: Path)
    requires Unused(at, spare) && p in at
    ensures at[p] !in spare
  {
    assert !Spare(at, at[p]);
  }

  /** Hanging a node leaves the spare nodes alone. */
  lemma {:induction false} HangSpare(nodes: seq<Cell>, at: Places, spare: seq<int>, first: int, p: Path, b: bool,
      i: int)
    requires Unused(at, spare) && Chain(spare, first, nodes) && p in at && i !in spare
    requires 0 <= at[p] < |nodes| && 0 <= i < |nodes| && at[p] != i
    ensures Unused(at[p + [b] := i], spare) && Chain(spare, first, Hung(nodes, at[p], b, i))
  {
    PlacedNotSpare(at, spare, p);
    ChainFrame(spare, first, nodes, Hung(nodes, at[p], b, i));
    var at' := at[p + [b] := i];
    forall j | j in spare ensures Spare(at', j) {
      assert Spare(at, j);
      forall q | q in at' ensures at'[q] != j { if q != p + [b] { assert at'[q] == at[q]; } }
    }
  }

  lemma {:induction false} LeanFrame(nodes: seq<Cell>, nodes': seq<Cell>, at: Places, p: Path)
    requires Trie(nodes, at) && LeanBut(nodes, at, p) && |nodes| <= |nodes'| && nodes'[..|nodes|] == nodes
    ensures LeanBut(nodes', at, p)
  {
    forall q | q in at && q != [] && q != p && 0 <= at[q] < |nodes'| && Leaf(nodes', at[q])
      ensures nodes'[at[q]].value != NO_VALUE
    {
      assert NodeOk(nodes, at, q) && nodes'[..|nodes|][at[q]] == nodes'[at[q]];
    }
  }

  lemma {:induction false} SameThenBut(n0: seq<Cell>, a0: Places, n1: seq<Cell>, a1: Places, n2: seq<Cell>,
      a2: Places, p: Path, o: Option)
    requires SameStored(n0, a0, n1, a1) && StoredBut(n1, a1, n2, a2, p, o)
    ensures StoredBut(n0, a0, n2, a2, p, o)
  {
  }

  lemma {:induction false} SameThenSame(n0: seq<Cell>, a0: Places, n1: seq<Cell>, a1: Places, n2: seq<Cell>, a2: Places)
    requires SameStored(n0, a0, n1, a1) && SameStored(n1, a1, n2, a2)
    ensures SameStored(n0, a0, n2, a2)
  {
  }

  /** Taking out a prefix for which nothing is stored changes nothing. */
  lemma {:induction false} ButNothing(n0: seq<Cell>, a0: Places, n1: seq<Cell>, a1: Places, n2: seq<Cell>, a2: Places,
      p: Path, q: Path)
    requires StoredBut(n0, a0, n1, a1, p, None) && StoredBut(n1, a1, n2, a2, q, None) && Stored(n1, a1, q) == None
    ensures StoredBut(n0, a0, n2, a2, p, None)
  {
  }

  /** Setting a value leaves the spare nodes alone, and what leaves there are. */
  lemma {:induction false} ValueRest(nodes: seq<Cell>, at: Places, spare: seq<int>, first: int, p: Path, v: Word)
    requires Trie(nodes, at) && Unused(at, spare) && Chain(spare, first, nodes) && p in at && 0 <= at[p] < |nodes|
    ensures Chain(spare, first, nodes[at[p] := nodes[at[p]].(value := v)])
    ensures LeanBut(nodes, at, p) && v != NO_VALUE ==> LeanBut(nodes[at[p] := nodes[at[p]].(value := v)], at, [])
    ensures LeanBut(nodes, at, []) && !Leaf(nodes, at[p]) ==> LeanBut(nodes[at[p] := nodes[at[p]].(value := v)], at, [])
  {
    PlacedNotSpare(at, spare, p);
    var nodes' := nodes[at[p] := nodes[at[p]].(value := v)];
    ChainFrame(spare, first, nodes, nodes');
    forall q | q in at ensures q == p || (0 <= at[q] < |nodes| ==> nodes'[at[q]] == nodes[at[q]]) {
      assert Apart(at, p, q);
    }
  }

  /** A node cut off joins the spare nodes. */
  lemma {:induction false} CutSpare(nodes: seq<Cell>, at: Places, spare: seq<int>, first: int, p: Path, b: bool)
    requires Unused(at, spare) && Chain(spare, first, nodes) && p in at && p + [b] in at
    requires 0 <= at[p] < |nodes| && 0 <= at[p + [b]] < |nodes| && at[p] != at[p + [b]]
      && Spare(at - {p + [b]}, at[p + [b]])
    ensures Unused(at - {p + [b]}, [at[p + [b]]] + spare)
    ensures Chain([at[p + [b]]] + spare, at[p + [b]], CutOff(nodes, at[p], b, at[p + [b]], first))
  {
    var c, i := p + [b], at[p + [b]];
    var at', nodes', list := at - {c}, CutOff(nodes, at[p], b, i, first), [i] + spare;
    PlacedNotSpare(at, spare, p);
    PlacedNotSpare(at, spare, c);
    ChainFrame(spare, first, nodes, nodes');
    assert list[1..] == spare;
    forall j | j in list ensures Spare(at', j) {
      if j != i {
        assert j in spare && Spare(at, j);
        forall q | q in at' ensures at'[q] != j { assert at'[q] == at[q]; }
      }
    }
  }

  /** A trie can have a leaf for which nothing is stored: what an insertion leaves behind
      that stores no value, or that runs out of memory. */
  lemma {:induction false} BareLeaf()
    ensures var nodes := [Cell(1, NULL, NULL, NO_VALUE), Cell(NULL, NULL, 0, NO_VALUE)];
      var at: Places := map[[] := 0, [true] := 1];
      Trie(nodes, at) && Leaf(nodes, 1) && Stored(nodes, at, [true]) == None && !LeanBut(nodes, at, [])
  {
    var nodes := [Cell(1, NULL, NULL, NO_VALUE), Cell(NULL, NULL, 0, NO_VALUE)];
    var at: Places := map[[] := 0, [true] := 1];
    assert [true][..0] == [];
    assert |[true, true]| == 2 && |[true, false]| == 2;
    assert NodeOk(nodes, at, []) by { assert [] + [true] == [true] && [] + [false] != [true]; }
    assert NodeOk(nodes, at, [true]);
    assert at[[true]] == 1;
  }
}
