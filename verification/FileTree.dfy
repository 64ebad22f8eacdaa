/** The red-black tree of ngx_open_file_cache.c: files in the order of the hashes of their
    names, and of the names where the hashes are the same. */
module FileTree {
  import opened RbMem
  import opened RbShape
  import opened RbOrder
  import opened RbTree

  datatype Entry = Entry(hash: Key, name: string)

  type Names = map<Node, string>

  /** strcmp(a, b) < 0 */
  predicate NameLess(a: string, b: string) {
    b != [] && (a == [] || a[0] < b[0] || (a[0] == b[0] && NameLess(a[1..], b[1..])))
  }

  lemma {:induction false} NameTotal(a: string, b: string)
    ensures NameLess(a, b) || a == b || NameLess(b, a)
    ensures !(NameLess(a, b) && NameLess(b, a)) && (a == b ==> !NameLess(a, b))
  {
    if a != [] && b != [] && a[0] == b[0] {
      NameTotal(a[1..], b[1..]);
      assert a == [a[0]] + a[1..] && b == [b[0]] + b[1..];
    }
  }

  lemma {:induction false} NameTrans(a: string, b: string, c: string)
    requires NameLess(a, b) && NameLess(b, c)
    ensures NameLess(a, c)
  {
    if a != [] && a[0] == b[0] && b[0] == c[0] { NameTrans(a[1..], b[1..], c[1..]); }
  }

  predicate Precedes(a: Entry, b: Entry) {
    a.hash < b.hash || (a.hash == b.hash && NameLess(a.name, b.name))
  }

  lemma {:induction false} EntryTotal(a: Entry, b: Entry)
    ensures Precedes(a, b) || a == b || Precedes(b, a)
    ensures !(Precedes(a, b) && Precedes(b, a)) && (a == b ==> !Precedes(a, b))
  {
    NameTotal(a.name, b.name);
  }

  lemma {:induction false} EntryTrans(a: Entry, b: Entry, c: Entry)
    requires Precedes(a, b) && Precedes(b, c)
    ensures Precedes(a, c)
  {
    if a.hash == b.hash && b.hash == c.hash { NameTrans(a.name, b.name, c.name); }
  }

  // ---- Order ----

  ghost predicate Has(m: Mem, names: Names, x: Node) { x in m && x in names }

  ghost function EntryOf(m: Mem, names: Names, x: Node): Entry
    requires Has(m, names, x)
  {
    Entry(m[x].key, names[x])
  }

  ghost predicate AllBefore(m: Mem, names: Names, s: seq<Node>, e: Entry) {
    forall i :: 0 <= i < |s| ==> Has(m, names, s[i]) && Precedes(EntryOf(m, names, s[i]), e)
  }

  ghost predicate AllAfter(m: Mem, names: Names, s: seq<Node>, e: Entry) {
    forall i :: 0 <= i < |s| ==> Has(m, names, s[i]) && Precedes(e, EntryOf(m, names, s[i]))
  }

  ghost predicate InPlace(m: Mem, names: Names, s: seq<Node>, i: int, j: int)
    requires 0 <= i < |s| && 0 <= j < |s|
  {
    && Has(m, names, s[i]) && Has(m, names, s[j])
    && (i < j ==> Precedes(EntryOf(m, names, s[i]), EntryOf(m, names, s[j])))
  }

  ghost predicate Filed(m: Mem, names: Names, s: seq<Node>) {
    forall i, j {:trigger InPlace(m, names, s, i, j)} :: 0 <= i <= j < |s| ==> InPlace(m, names, s, i, j)
  }

  /** What is in order left and right of a node. */
  lemma {:induction false} Around(m: Mem, names: Names, a: seq<Node>, x: Node, b: seq<Node>)
    requires Filed(m, names, a + [x] + b)
    ensures Has(m, names, x) && AllBefore(m, names, a, EntryOf(m, names, x))
      && AllAfter(m, names, b, EntryOf(m, names, x))
  {
    var s, k := a + [x] + b, |a|;
    assert s[k] == x && InPlace(m, names, s, k, k);
    forall i | 0 <= i < k ensures Has(m, names, a[i]) && Precedes(EntryOf(m, names, a[i]), EntryOf(m, names, x)) {
      assert s[i] == a[i] && InPlace(m, names, s, i, k);
    }
    forall i | 0 <= i < |b| ensures Has(m, names, b[i]) && Precedes(EntryOf(m, names, x), EntryOf(m, names, b[i])) {
      assert s[k + 1 + i] == b[i] && InPlace(m, names, s, k, k + 1 + i);
    }
  }

  lemma {:induction false} BeforeTrans(m: Mem, names: Names, s: seq<Node>, e: Entry, e': Entry)
    requires AllBefore(m, names, s, e) && Precedes(e, e')
    ensures AllBefore(m, names, s, e')
  {
    forall i | 0 <= i < |s| ensures Precedes(EntryOf(m, names, s[i]), e') {
      EntryTrans(EntryOf(m, names, s[i]), e, e');
    }
  }

  lemma {:induction false} AfterTrans(m: Mem, names: Names, s: seq<Node>, e: Entry, e': Entry)
    requires AllAfter(m, names, s, e) && Precedes(e', e)
    ensures AllAfter(m, names, s, e')
  {
    forall i | 0 <= i < |s| ensures Precedes(e', EntryOf(m, names, s[i])) {
      EntryTrans(e', e, EntryOf(m, names, s[i]));
    }
  }

  /** The place of `e` is below the context. */
  ghost predicate Bounds(m: Mem, names: Names, c: Ctx, e: Entry) {
    AllBefore(m, names, Before(c), e) && AllAfter(m, names, After(c), e)
  }

  /** What is left and right of the node in focus. */
  lemma {:induction false} FocusOrder(m: Mem, names: Names, c: Ctx, t: Shape)
    requires t.Fork? && Filed(m, names, InOrder(Plug(c, t)))
    ensures Has(m, names, t.node)
    ensures AllBefore(m, names, Before(c) + InOrder(t.left), EntryOf(m, names, t.node))
    ensures AllAfter(m, names, InOrder(t.right) + After(c), EntryOf(m, names, t.node))
  {
    PlugInOrder(c, t);
    var a, b := Before(c) + InOrder(t.left), InOrder(t.right) + After(c);
    assert InOrder(Plug(c, t)) == a + [t.node] + b;
    Around(m, names, a, t.node, b);
  }

  /** One step of a descent. */
  lemma {:induction false} StepDown(m: Mem, names: Names, c: Ctx, t: Shape, e: Entry, d: bool)
    requires t.Fork? && Filed(m, names, InOrder(Plug(c, t))) && Bounds(m, names, c, e) && Has(m, names, t.node)
    requires if d then Precedes(e, EntryOf(m, names, t.node)) else Precedes(EntryOf(m, names, t.node), e)
    ensures Bounds(m, names, Enter(c, t, d), e)
  {
    FocusOrder(m, names, c, t);
    var x := EntryOf(m, names, t.node);
    if d {
      var right := InOrder(t.right) + After(c);
      AfterTrans(m, names, right, x, e);
      assert After(Enter(c, t, d)) == [t.node] + right;
    } else {
      var left := Before(c) + InOrder(t.left);
      BeforeTrans(m, names, left, x, e);
      assert Before(Enter(c, t, d)) == left + [t.node];
    }
  }

  /** At the end of a descent there is no node for `e`. */
  lemma {:induction false} NotThere(m: Mem, names: Names, c: Ctx, e: Entry)
    requires Bounds(m, names, c, e)
    ensures forall x :: x in InOrder(Plug(c, Nil)) ==> Has(m, names, x) && EntryOf(m, names, x) != e
  {
    PlugInOrder(c, Nil);
    assert InOrder(Plug(c, Nil)) == Before(c) + After(c);
    forall x | x in InOrder(Plug(c, Nil)) ensures Has(m, names, x) && EntryOf(m, names, x) != e {
      assert x in Before(c) || x in After(c);
      EntryTotal(e, e);
    }
  }

  /** ... and a new node for it keeps the order. */
  lemma {:induction false} FiledBelow(m: Mem, names: Names, a: seq<Node>, x: Node, b: seq<Node>)
    requires Filed(m, names, a + b) && Has(m, names, x)
    requires AllBefore(m, names, a, EntryOf(m, names, x)) && AllAfter(m, names, b, EntryOf(m, names, x))
    ensures Filed(m, names, a + [x] + b)
  {
    var s, t, k := a + b, a + [x] + b, |a|;
    forall i, j | 0 <= i <= j < |t| ensures InPlace(m, names, t, i, j) {
      if i != k && j != k {
        var i', j' := if i < k then i else i - 1, if j < k then j else j - 1;
        assert t[i] == s[i'] && t[j] == s[j'] && InPlace(m, names, s, i', j');
      } else if i < k {
        assert t[i] == a[i];
      } else if j > k {
        assert t[j] == b[j - k - 1];
      }
    }
  }

  lemma {:induction false} FiledFrame(m: Mem, names: Names, m': Mem, names': Names, s: seq<Node>)
    requires Filed(m, names, s) && SameKeys(m, m') && forall x :: x in s && x in names ==>
      x in names' && names'[x] == names[x]
    ensures Filed(m', names', s)
  {
    forall i, j | 0 <= i <= j < |s| ensures InPlace(m', names', s, i, j) { assert InPlace(m, names, s, i, j); }
  }

  // ---- The tree ----

  ghost predicate Valid(tree: Tree, names: Names)
    reads tree, tree.cells
  {
    tree.ValidShape() && Filed(Snap(tree.cells), names, InOrder(tree.shape))
  }

  /** `ngx_open_file_lookup`: the file of a name, if it is in the tree. */
  method Lookup(tree: Tree, names: Names, hash: Key, name: string) returns (node: Node?)
    requires Valid(tree, names)
    ensures node != null ==> node in Nodes(tree.shape) && node in names && node.key == hash && names[node] == name
    ensures node == null ==> forall x :: x in Nodes(tree.shape) ==> x in names && !(x.key == hash && names[x] == name)
  {
    var e := Entry(hash, name);
    var p := tree.root;
    ghost var c, t := Top, tree.shape;
    ghost var m := Snap(tree.cells);
    Start(tree);
    while p != tree.sentinel
      invariant tree.At(c, t) && p == Root(t, tree.sentinel) && Plug(c, t) == tree.shape && Bounds(m, names, c, e)
      invariant t.Nil? <==> p == tree.sentinel
      decreases t
    {
      FocusOrder(m, names, c, t);
      Look(tree, c, t);
      EntryTotal(e, EntryOf(m, names, p));
      if hash == p.key && name == names[p] { return p; }
      var d := hash < p.key || (hash == p.key && NameLess(name, names[p]));
      StepDown(m, names, c, t, e, d);
      Down(tree, c, t, d);
      c, t := Enter(c, t, d), t.Child(d);
      p := if d then p.left else p.right;
    }
    NotThere(m, names, c, e);
    Absent(tree, names, e);
    node := null;
  }

  lemma {:induction false} Start(tree: Tree)
    requires tree.ValidShape()
    ensures tree.At(Top, tree.shape) && tree.root == Root(tree.shape, tree.sentinel)
    ensures tree.shape.Nil? <==> tree.root == tree.sentinel
  {
  }

  /** The node in focus, as memory has it. */
  lemma {:induction false} Look(tree: Tree, c: Ctx, t: Shape)
    requires tree.ValidShape() && tree.At(c, t) && Plug(c, t) == tree.shape && t.Fork?
    ensures t.node in tree.cells && t.node in Nodes(tree.shape) && Snap(tree.cells)[t.node].key == t.node.key
  {
    PlugNodes(c, t);
  }

  lemma {:induction false} Down(tree: Tree, c: Ctx, t: Shape, d: bool)
    requires tree.ValidShape() && tree.At(c, t) && Plug(c, t) == tree.shape && t.Fork?
    ensures var c', t' := Enter(c, t, d), t.Child(d);
      && tree.At(c', t') && Plug(c', t') == tree.shape && t.node in tree.cells
      && (if d then t.node.left else t.node.right) == Root(t', tree.sentinel)
      && (t'.Nil? <==> Root(t', tree.sentinel) == tree.sentinel)
  {
    tree.LookAt(c, t);
    FocusDown(Snap(tree.cells), tree.root, c, t, d, tree.sentinel);
    PlugNodes(c, t);
    if t.Child(d).Fork? { assert t.Child(d).node in Nodes(t.Child(d)); }
  }

  lemma {:induction false} Absent(tree: Tree, names: Names, e: Entry)
    requires tree.ValidShape()
    requires forall x :: x in InOrder(tree.shape) ==>
      Has(Snap(tree.cells), names, x) && EntryOf(Snap(tree.cells), names, x) != e
    ensures forall x :: x in Nodes(tree.shape) ==> x in names && !(x.key == e.hash && names[x] == e.name)
  {
    InOrderNodes(tree.shape);
    forall x | x in Nodes(tree.shape) ensures x in names && !(x.key == e.hash && names[x] == e.name) {
      assert x in InOrder(tree.shape) && x in tree.cells;
      assert EntryOf(Snap(tree.cells), names, x) != e;
    }
  }

  /** The descent of `ngx_open_file_cache_rbtree_insert_value`, for a name that is not there. */
  method FindPlace(tree: Tree, names: Names, e: Entry) returns (temp: Node, goLeft: bool, ghost c: Ctx)
    requires Valid(tree, names) && tree.shape.Fork?
    requires forall x :: x in Nodes(tree.shape) ==> x in names && Entry(x.key, names[x]) != e
    ensures tree.At(c, Nil) && Plug(c, Nil) == tree.shape && c.Down? && c.node == temp && c.goLeft == goLeft
    ensures Bounds(Snap(tree.cells), names, c, e) && Above(c) == Nodes(tree.shape)
  {
    temp := tree.root;
    ghost var t, m := tree.shape, Snap(tree.cells);
    c := Top;
    while true
      invariant tree.At(c, t) && t.Fork? && t.node == temp && Plug(c, t) == tree.shape && Bounds(m, names, c, e)
      decreases t
    {
      FocusOrder(m, names, c, t);
      Look(tree, c, t);
      EntryTotal(e, EntryOf(m, names, temp));
      goLeft := e.hash < temp.key || (e.hash == temp.key && NameLess(e.name, names[temp]));
      StepDown(m, names, c, t, e, goLeft);
      Down(tree, c, t, goLeft);
      c, t := Enter(c, t, goLeft), t.Child(goLeft);
      var p := if goLeft then temp.left else temp.right;
      if p == tree.sentinel { break; }
      temp := p;
    }
    PlugNodes(c, Nil);
  }

  /** A file whose name is not in the tree is inserted: it is found from then on, as all
      others are, which the order says. */
  method Insert(tree: Tree, names: Names, node: Node, name: string)
    requires Valid(tree, names) && node !in tree.cells
    requires forall x :: x in Nodes(tree.shape) ==> x in names && Entry(x.key, names[x]) != Entry(node.key, name)
    modifies tree`root, tree`shape, tree`cells, tree.cells, node
    ensures Valid(tree, names[node := name]) && Nodes(tree.shape) == old(Nodes(tree.shape)) + {node}
    ensures node.key == old(node.key) && SameKeys(old(Snap(tree.cells)), Snap(tree.cells))
  {
    ghost var m, key := Snap(tree.cells), node.key;
    if tree.root == tree.sentinel {
      tree.LinkFirst(node);
      return;
    }
    Start(tree);
    var temp, goLeft, c := FindPlace(tree, names, Entry(node.key, name));
    ghost var old_shape := tree.shape;
    tree.AttachAndBalance(temp, node, goLeft, c);
    Inserted(m, names, Snap(tree.cells), c, old_shape, node, key, name);
  }

  lemma {:induction false} Inserted(m: Mem, names: Names, m': Mem, c: Ctx, shape: Shape, x: Node, key: Key,
      name: string)
    requires shape == Plug(c, Nil) && Filed(m, names, InOrder(shape)) && Bounds(m, names, c, Entry(key, name))
    requires SameKeys(m, m') && x in m' && m'[x].key == key && x !in m
    ensures Filed(m', names[x := name], InOrder(Plug(c, Fork(x, key, true, Nil, Nil))))
  {
    var names', a, b := names[x := name], Before(c), After(c);
    PlugInOrder(c, Nil);
    PlugInOrder(c, Fork(x, key, true, Nil, Nil));
    assert InOrder(shape) == a + b && InOrder(Plug(c, Fork(x, key, true, Nil, Nil))) == a + [x] + b;
    forall y | y in a + b && y in names ensures y in names' && names'[y] == names[y] {
      var i :| 0 <= i < |a + b| && (a + b)[i] == y;
      assert InPlace(m, names, a + b, i, i);
    }
    FiledFrame(m, names, m', names', a + b);
    forall i | 0 <= i < |a| ensures Has(m', names', a[i]) && EntryOf(m', names', a[i]) == EntryOf(m, names, a[i]) {
      assert (a + b)[i] == a[i] && InPlace(m, names, a + b, i, i);
    }
    forall i | 0 <= i < |b| ensures Has(m', names', b[i]) && EntryOf(m', names', b[i]) == EntryOf(m, names, b[i]) {
      assert (a + b)[|a| + i] == b[i] && InPlace(m, names, a + b, |a| + i, |a| + i);
    }
    FiledBelow(m', names', a, x, b);
  }
}
