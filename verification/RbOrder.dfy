/** The order of the nodes of a red-black tree by rank: the key itself, or for timers
    the real deadline of which the key is the low 64 bits. */
module RbOrder {
  import opened Words
  import opened RbMem
  import opened RbShape

  type Ranks = map<Node, int>

  /** tree->insert */
  datatype InsertKind = InsertValue | InsertTimerValue

  ghost predicate Keyed(kind: InsertKind, key: Key, r: int) {
    if kind.InsertValue? then key == r else key == r % W64
  }

  /** `ngx_rbtree_insert_value` and `ngx_rbtree_insert_timer_value`: does the node go left? */
  predicate GoesLeft(kind: InsertKind, node: Key, temp: Key) {
    if kind.InsertValue? then node < temp else Signed(Wrap(node - temp)) < 0
  }

  /** The difference of two words that stand for numbers less than half the range apart. */
  lemma {:induction false} TimerGap(a: int, b: int)
    requires -HALF64 < a - b < HALF64
    ensures Signed(Wrap(a % W64 - b % W64)) == a - b
  {
    var q := a / W64 - b / W64;
    assert a - b == W64 * q + (a % W64 - b % W64);
    assert -2 < q < 2;
  }

  /** Deadlines less than half the key range apart compare as their wrapped keys do. */
  lemma {:induction false} TimerLess(a: int, b: int)
    requires -HALF64 <= a - b < HALF64
    ensures (Signed(Wrap(a % W64 - b % W64)) < 0) == (a < b)
  {
    var q := a / W64 - b / W64;
    assert a - b == W64 * q + (a % W64 - b % W64);
    assert -1 <= q <= 1;
  }

  /** Are the live ranks close enough for the comparison to be meaningful? */
  ghost predicate Window(kind: InsertKind, rank: Ranks) {
    kind.InsertTimerValue? ==> forall x, y :: x in rank && y in rank ==> rank[x] - rank[y] < HALF64
  }

  lemma {:induction false} GoesLeftIsLess(kind: InsertKind, node: Key, temp: Key, r: int, s: int)
    requires Keyed(kind, node, r) && Keyed(kind, temp, s)
    requires kind.InsertTimerValue? ==> -HALF64 <= r - s < HALF64
    ensures GoesLeft(kind, node, temp) <==> r < s
  {
    if kind.InsertTimerValue? { TimerLess(r, s); }
  }

  ghost predicate Sorted(s: seq<Node>, rank: Ranks) {
    forall i, j :: 0 <= i <= j < |s| ==> s[i] in rank && s[j] in rank && rank[s[i]] <= rank[s[j]]
  }

  ghost predicate AllLe(s: seq<Node>, rank: Ranks, r: int) {
    forall i :: 0 <= i < |s| ==> s[i] in rank && rank[s[i]] <= r
  }

  ghost predicate AllGt(s: seq<Node>, rank: Ranks, r: int) {
    forall i :: 0 <= i < |s| ==> s[i] in rank && rank[s[i]] > r
  }

  lemma {:induction false} SortedSplit(a: seq<Node>, b: seq<Node>, rank: Ranks)
    requires Sorted(a + b, rank)
    ensures Sorted(a, rank) && Sorted(b, rank)
  {
    assert forall i :: 0 <= i < |a| ==> (a + b)[i] == a[i];
    assert forall i :: 0 <= i < |b| ==> (a + b)[|a| + i] == b[i];
  }

  lemma {:induction false} SortedAround(a: seq<Node>, x: Node, b: seq<Node>, rank: Ranks)
    requires Sorted(a + [x] + b, rank)
    ensures x in rank && AllLe(a, rank, rank[x])
    ensures forall i :: 0 <= i < |b| ==> b[i] in rank && rank[x] <= rank[b[i]]
  {
    var s := a + [x] + b;
    assert s[|a|] == x;
    assert forall i :: 0 <= i < |a| ==> s[i] == a[i];
    assert forall i :: 0 <= i < |b| ==> s[|a| + 1 + i] == b[i];
  }

  lemma {:induction false} SortedJoin(a: seq<Node>, x: Node, b: seq<Node>, rank: Ranks)
    requires Sorted(a + b, rank) && x in rank && AllLe(a, rank, rank[x]) && AllGt(b, rank, rank[x])
    ensures Sorted(a + [x] + b, rank)
  {
    SortedSplit(a, b, rank);
  }

  /** A sorted subtree: left of its root nothing is greater, right of it nothing less. */
  lemma {:induction false} SortedFork(c: Ctx, t: Shape, rank: Ranks)
    requires t.Fork? && Sorted(InOrder(Plug(c, t)), rank)
    ensures t.node in rank && AllLe(InOrder(t.left), rank, rank[t.node])
    ensures forall i :: 0 <= i < |InOrder(t.right)| ==>
      InOrder(t.right)[i] in rank && rank[t.node] <= rank[InOrder(t.right)[i]]
  {
    PlugInOrder(c, t);
    SortedSplit(Before(c) + InOrder(t), After(c), rank);
    SortedSplit(Before(c), InOrder(t), rank);
    SortedAround(InOrder(t.left), t.node, InOrder(t.right), rank);
  }

  lemma {:induction false} AllLeConcat(a: seq<Node>, b: seq<Node>, rank: Ranks, r: int)
    requires AllLe(a, rank, r) && AllLe(b, rank, r)
    ensures AllLe(a + b, rank, r)
  {
  }

  lemma {:induction false} AllGtConcat(a: seq<Node>, b: seq<Node>, rank: Ranks, r: int)
    requires AllGt(a, rank, r) && AllGt(b, rank, r)
    ensures AllGt(a + b, rank, r)
  {
  }

  /** Descending to the side the comparison chooses keeps the place between what is
      not greater and what is greater. */
  lemma {:induction false} DescendOrder(c: Ctx, t: Shape, d: bool, rank: Ranks, r: int)
    requires t.Fork? && Sorted(InOrder(Plug(c, t)), rank)
    requires AllLe(Before(c), rank, r) && AllGt(After(c), rank, r)
    requires t.node in rank && (d <==> r < rank[t.node])
    ensures Plug(Enter(c, t, d), t.Child(d)) == Plug(c, t)
    ensures AllLe(Before(Enter(c, t, d)), rank, r) && AllGt(After(Enter(c, t, d)), rank, r)
  {
    SortedFork(c, t, rank);
    if d {
      AllGtConcat([t.node], InOrder(t.right), rank, r);
      AllGtConcat([t.node] + InOrder(t.right), After(c), rank, r);
    } else {
      AllLeConcat(InOrder(t.left), [t.node], rank, r);
      AllLeConcat(Before(c) + InOrder(t.left), [t.node], rank, r);
      AllLeConcat(Before(c), InOrder(t.left), rank, r);
    }
  }

  /** The nodes are in the order of their ranks, and their keys are those of their ranks. */
  ghost predicate Ordered(kind: InsertKind, m: Mem, t: Shape, rank: Ranks) {
    && rank.Keys == Nodes(t)
    && Sorted(InOrder(t), rank)
    && Window(kind, rank)
    && forall x :: x in rank ==> x in m && Keyed(kind, m[x].key, rank[x])
  }

  ghost predicate SameKeys(m: Mem, m': Mem) {
    forall x :: x in m ==> x in m' && m'[x].key == m[x].key
  }

  lemma {:induction false} SameKeysTrans(m: Mem, m': Mem, m'': Mem)
    requires SameKeys(m, m') && SameKeys(m', m'')
    ensures SameKeys(m, m'')
  {
  }

  lemma {:induction false} KeptThenSame(m: Mem, m': Mem, m'': Mem, nil: Node)
    requires Kept(m, m', nil) && SameKeys(m', m'')
    ensures SameKeys(m, m'')
  {
  }

  lemma {:induction false} InsertedWindow(kind: InsertKind, rank: Ranks, r: int, x: Node)
    requires Window(kind, rank)
    requires kind.InsertTimerValue? ==> forall y :: y in rank ==> -HALF64 < r - rank[y] < HALF64
    ensures Window(kind, rank[x := r])
  {
  }

  lemma {:induction false} InsertedSequence(c: Ctx, key: Key, rank: Ranks, r: int, x: Node)
    requires Sorted(InOrder(Plug(c, Nil)), rank) && x !in rank
    requires AllLe(Before(c), rank, r) && AllGt(After(c), rank, r)
    ensures var s := InOrder(Plug(c, Fork(x, key, true, Nil, Nil)));
      s == Before(c) + [x] + After(c) && Sorted(s, rank[x := r])
    ensures InOrder(Plug(c, Nil)) == Before(c) + After(c)
  {
    var leaf := Fork(x, key, true, Nil, Nil);
    PlugInOrder(c, Nil);
    PlugInOrder(c, leaf);
    assert InOrder(leaf) == [x];
    assert Before(c) + [] + After(c) == Before(c) + After(c);
    assert Sorted(Before(c) + After(c), rank[x := r]);
    SortedJoin(Before(c), x, After(c), rank[x := r]);
  }

  /** Putting a node where the descent ended keeps the order if the new rank is near
      the others. */
  lemma {:induction false} InsertedOrder(kind: InsertKind, m: Mem, m': Mem, c: Ctx, t: Shape, key: Key, rank: Ranks,
      r: int, x: Node)
    requires Ordered(kind, m, Plug(c, Nil), rank) && x !in rank
    requires SameKeys(m, m') && x in m' && m'[x].key == key && Keyed(kind, key, r)
    requires InOrder(t) == InOrder(Plug(c, Fork(x, key, true, Nil, Nil)))
    requires Nodes(t) == Nodes(Plug(c, Nil)) + {x}
    requires AllLe(Before(c), rank, r) && AllGt(After(c), rank, r)
    requires kind.InsertTimerValue? ==> forall y :: y in rank ==> -HALF64 < r - rank[y] < HALF64
    ensures Ordered(kind, m', t, rank[x := r])
  {
    InsertedSequence(c, key, rank, r, x);
    InsertedWindow(kind, rank, r, x);
  }

  /** The leftmost node has the least rank: for timers, the earliest deadline. */
  lemma {:induction false} FirstIsLeast(kind: InsertKind, m: Mem, t: Shape, rank: Ranks)
    requires Ordered(kind, m, t, rank) && t.Fork?
    ensures InOrder(t) != [] && InOrder(t)[0] in rank
    ensures forall x :: x in rank ==> rank[InOrder(t)[0]] <= rank[x]
  {
    InOrderNodes(t);
    assert t.node in InOrder(t);
    forall x | x in rank ensures rank[InOrder(t)[0]] <= rank[x] {
      assert x in Nodes(t) && x in InOrder(t);
    }
  }

  // ---- Removal ----

  /** `t` is the order of `s` without the node at `i`. */
  ghost predicate Removed(s: seq<Node>, t: seq<Node>, x: Node, i: nat) {
    i < |s| && s[i] == x && t == s[..i] + s[i + 1..]
  }

  /** Without one node the rest is ordered as before. */
  lemma {:induction false} RemovedOrder(kind: InsertKind, m: Mem, m': Mem, t: Shape, t': Shape, rank: Ranks, x: Node,
      i: nat)
    requires Ordered(kind, m, t, rank) && Removed(InOrder(t), InOrder(t'), x, i)
    requires Nodes(t') == Nodes(t) - {x}
    requires SameKeys(m - {x}, m')
    ensures Ordered(kind, m', t', rank - {x})
  {
    InOrderNodes(t');
    RemovedSorted(InOrder(t), InOrder(t'), rank, x, i);
  }

  lemma {:induction false} RemovedSorted(s: seq<Node>, s': seq<Node>, rank: Ranks, x: Node, i: nat)
    requires Sorted(s, rank) && Removed(s, s', x, i) && x !in s'
    ensures Sorted(s', rank - {x})
  {
    var rank' := rank - {x};
    assert forall a :: 0 <= a < |s'| ==> s'[a] == (if a < i then s[a] else s[a + 1]);
  }

  lemma {:induction false} OnlyChildInOrder(t: Shape, rest: Shape)
    requires t.Fork? && ((t.left.Nil? && rest == t.right) || (t.right.Nil? && rest == t.left))
    ensures InOrder(rest) == InOrder(t.left) + InOrder(t.right)
  {
    var l, r := InOrder(t.left), InOrder(t.right);
    if t.left.Nil? { assert [] + r == r; } else { assert l + [] == l; }
  }

  /** Taking the node in focus out of the order, when one of its children is empty. */
  lemma {:induction false} SplicedOrder(c: Ctx, t: Shape, rest: Shape)
    requires t.Fork? && ((t.left.Nil? && rest == t.right) || (t.right.Nil? && rest == t.left))
    ensures Removed(InOrder(Plug(c, t)), InOrder(Plug(c, rest)), t.node, |Before(c)| + |InOrder(t.left)|)
  {
    var l, r := InOrder(t.left), InOrder(t.right);
    OnlyChildInOrder(t, rest);
    assert InOrder(Plug(c, t)) == Before(c) + (l + [t.node] + r) + After(c) by { PlugInOrder(c, t); }
    assert InOrder(Plug(c, rest)) == Before(c) + (l + r) + After(c) by { PlugInOrder(c, rest); }
    CutOut(Before(c), l, t.node, r, After(c), InOrder(Plug(c, t)), InOrder(Plug(c, rest)));
  }

  lemma {:induction false} CutOut(a: seq<Node>, l: seq<Node>, x: Node, r: seq<Node>, b: seq<Node>, s: seq<Node>,
      s': seq<Node>)
    requires s == a + (l + [x] + r) + b && s' == a + (l + r) + b
    ensures Removed(s, s', x, |a| + |l|)
  {
    var i := |a| + |l|;
    assert s[..i] == a + l;
    assert s[i + 1..] == r + b;
  }

  lemma {:induction false} ShiftOut<T>(l: seq<T>, x: T, r: seq<T>, b: seq<T>)
    ensures l + [x] + ([] + r + b) == l + ([] + ([] + [x] + r) + b)
  {
  }

  /** A subtree whose root is replaced by the leftmost node right of it loses the root. */
  lemma {:induction false} ReplacedLocally(t: Shape, inner: Ctx, s: Shape, u: Shape)
    requires t.Fork? && t.right == Plug(inner, s) && s.Fork? && s.left.Nil? && Before(inner) == []
    requires u.Fork? && u.node == s.node && u.left == t.left && u.right == Plug(inner, s.right)
    ensures InOrder(u) == InOrder(t.left) + InOrder(t.right)
  {
    PlugInOrder(inner, s);
    PlugInOrder(inner, s.right);
    ShiftOut(InOrder(t.left), s.node, InOrder(s.right), After(inner));
  }

  /** The whole order, once the root of the subtree in focus has been replaced. */
  lemma {:induction false} ReplacedWhole(c: Ctx, t: Shape, inner: Ctx, s: Shape, outer: Ctx)
    requires t.Fork? && t.right == Plug(inner, s) && s.Fork? && s.left.Nil? && Before(inner) == []
    requires outer.Down? && outer.node == s.node && !outer.goLeft && outer.sibling == t.left && outer.up == c
    ensures InOrder(Plug(Append(inner, outer), s.right)) == Before(c) + (InOrder(t.left) + InOrder(t.right)) + After(c)
  {
    var u := Fill(outer, Plug(inner, s.right));
    PlugAppend(inner, outer, s.right);
    PlugInOrder(c, u);
    ReplacedLocally(t, inner, s, u);
  }

  /** Replacing a node by the leftmost node right of it takes out exactly that node. */
  lemma {:induction false} ReplacedOrder(c: Ctx, t: Shape, inner: Ctx, s: Shape, outer: Ctx)
    requires t.Fork? && t.right == Plug(inner, s) && s.Fork? && s.left.Nil? && Before(inner) == []
    requires outer.Down? && outer.node == s.node && !outer.goLeft && outer.sibling == t.left && outer.up == c
    ensures Removed(InOrder(Plug(c, t)), InOrder(Plug(Append(inner, outer), s.right)), t.node,
                    |Before(c)| + |InOrder(t.left)|)
  {
    var u := Plug(Append(inner, outer), s.right);
    ReplacedWhole(c, t, inner, s, outer);
    WithoutRoot(c, t, u);
  }

  lemma {:induction false} WithoutRoot(c: Ctx, t: Shape, u: Shape)
    requires t.Fork? && InOrder(u) == Before(c) + (InOrder(t.left) + InOrder(t.right)) + After(c)
    ensures Removed(InOrder(Plug(c, t)), InOrder(u), t.node, |Before(c)| + |InOrder(t.left)|)
  {
    PlugInOrder(c, t);
    CutOut(Before(c), InOrder(t.left), t.node, InOrder(t.right), After(c), InOrder(Plug(c, t)), InOrder(u));
  }
}
