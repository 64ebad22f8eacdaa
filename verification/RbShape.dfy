/** The tree that the links of red-black nodes spell out, seen from any place in it. */
module RbShape {
  import opened RbMem

  /** A subtree; `Nil` is the shared sentinel. */
  datatype Shape = Nil | Fork(node: Node, key: Key, red: bool, left: Shape, right: Shape) {
    function Child(goLeft: bool): Shape requires Fork? { if goLeft then left else right }
  }

  /** What lies around a subtree: the path from it up to the root. */
  datatype Ctx = Top | Down(node: Node, key: Key, red: bool, goLeft: bool, sibling: Shape, up: Ctx)

  /** A node with its child on side `d` and the other one. */
  function Mk(d: bool, node: Node, key: Key, red: bool, near: Shape, far: Shape): Shape {
    if d then Fork(node, key, red, near, far) else Fork(node, key, red, far, near)
  }

  ghost function Nodes(t: Shape): set<Node> {
    if t.Nil? then {} else {t.node} + Nodes(t.left) + Nodes(t.right)
  }

  ghost function Above(c: Ctx): set<Node> {
    if c.Top? then {} else {c.node} + Nodes(c.sibling) + Above(c.up)
  }

  ghost predicate Distinct(t: Shape) {
    t.Fork? ==>
      && t.node !in Nodes(t.left) && t.node !in Nodes(t.right) && Nodes(t.left) !! Nodes(t.right)
      && Distinct(t.left) && Distinct(t.right)
  }

  ghost predicate DistinctAbove(c: Ctx) {
    c.Down? ==>
      && c.node !in Nodes(c.sibling) && c.node !in Above(c.up) && Nodes(c.sibling) !! Above(c.up)
      && Distinct(c.sibling) && DistinctAbove(c.up)
  }

  ghost predicate Separate(c: Ctx, t: Shape, nil: Node) {
    && Distinct(t) && DistinctAbove(c) && Nodes(t) !! Above(c)
    && nil !in Nodes(t) && nil !in Above(c)
  }

  ghost function Root(t: Shape, nil: Node): Node { if t.Nil? then nil else t.node }

  /** The fields of the nodes of `t` are what the shape says, all of them. */
  ghost predicate Linked(m: Mem, t: Shape, parent: Node?, nil: Node) {
    t.Fork? ==>
      && t.node in m
      && m[t.node] == Cell(t.key, Root(t.left, nil), Root(t.right, nil), parent, t.red)
      && Linked(m, t.left, t.node, nil)
      && Linked(m, t.right, t.node, nil)
  }

  /** The same around a hole.  The parent field of the topmost node may be stale. */
  ghost predicate LinkedAbove(m: Mem, c: Ctx, hole: Node, nil: Node) {
    c.Down? ==>
      && c.node in m
      && m[c.node].key == c.key && m[c.node].red == c.red
      && m[c.node].Child(c.goLeft) == hole
      && m[c.node].Child(!c.goLeft) == Root(c.sibling, nil)
      && (c.up.Down? ==> m[c.node].parent == c.up.node)
      && Linked(m, c.sibling, c.node, nil)
      && LinkedAbove(m, c.up, c.node, nil)
  }

  ghost function TopNode(c: Ctx, hole: Node): Node {
    if c.Top? then hole else TopNode(c.up, c.node)
  }

  /** Memory holds the tree made of `t` in the hole of `c`. */
  ghost predicate Focus(m: Mem, root: Node, c: Ctx, t: Shape, nil: Node) {
    && Separate(c, t, nil)
    && (t.Fork? ==>
          && t.node in m
          && (c.Down? ==> m[t.node].parent == c.node)
          && Linked(m, t, m[t.node].parent, nil))
    && LinkedAbove(m, c, Root(t, nil), nil)
    && root == TopNode(c, Root(t, nil))
  }

  // ---- Frames ----

  ghost predicate SameOn(m: Mem, m': Mem, nodes: set<Node>) {
    forall x :: x in nodes && x in m ==> x in m' && m'[x] == m[x]
  }

  lemma {:induction false} LinkedFrame(m: Mem, m': Mem, t: Shape, parent: Node?, nil: Node)
    requires Linked(m, t, parent, nil) && SameOn(m, m', Nodes(t))
    ensures Linked(m', t, parent, nil)
  {
    if t.Fork? {
      LinkedFrame(m, m', t.left, t.node, nil);
      LinkedFrame(m, m', t.right, t.node, nil);
    }
  }

  lemma {:induction false} Reparent(m: Mem, m': Mem, t: Shape, parent: Node?, parent': Node?, nil: Node)
    requires Linked(m, t, parent, nil) && Distinct(t)
    requires t.Fork? ==> t.node in m' && m'[t.node] == m[t.node].(parent := parent')
    requires SameOn(m, m', Nodes(t) - {Root(t, nil)})
    ensures Linked(m', t, parent', nil)
  {
    if t.Fork? {
      LinkedFrame(m, m', t.left, t.node, nil);
      LinkedFrame(m, m', t.right, t.node, nil);
    }
  }

  lemma {:induction false} AboveFrame(m: Mem, m': Mem, c: Ctx, hole: Node, nil: Node)
    requires LinkedAbove(m, c, hole, nil) && SameOn(m, m', Above(c))
    ensures LinkedAbove(m', c, hole, nil)
  {
    if c.Down? {
      LinkedFrame(m, m', c.sibling, c.node, nil);
      AboveFrame(m, m', c.up, c.node, nil);
    }
  }

  lemma {:induction false} Rehole(m: Mem, m': Mem, c: Ctx, hole: Node, hole': Node, nil: Node)
    requires LinkedAbove(m, c, hole, nil) && DistinctAbove(c)
    requires c.Down? ==> c.node in m' && m'[c.node] == m[c.node].SetChild(c.goLeft, hole')
    requires SameOn(m, m', Above(c) - (if c.Down? then {c.node} else {}))
    ensures LinkedAbove(m', c, hole', nil)
    ensures c.Down? ==> TopNode(c, hole) == TopNode(c, hole')
  {
    if c.Down? {
      LinkedFrame(m, m', c.sibling, c.node, nil);
      AboveFrame(m, m', c.up, c.node, nil);
    }
  }

  lemma {:induction false} TopNodeAbove(c: Ctx, hole: Node)
    requires c.Down?
    ensures TopNode(c, hole) in Above(c)
  {
    if c.up.Down? { TopNodeAbove(c.up, c.node); }
  }

  // ---- Rotations ----

  function Rot(t: Shape, d: bool): Shape
    requires t.Fork? && t.Child(!d).Fork?
  {
    var y := t.Child(!d);
    Mk(d, y.node, y.key, y.red, Mk(d, t.node, t.key, t.red, t.Child(d), y.Child(d)), y.Child(!d))
  }

  lemma {:induction false} RotSeparate(c: Ctx, t: Shape, d: bool, nil: Node)
    requires t.Fork? && t.Child(!d).Fork? && Separate(c, t, nil)
    ensures Separate(c, Rot(t, d), nil) && Nodes(Rot(t, d)) == Nodes(t)
  {
    var y := t.Child(!d);
    var x' := Mk(d, t.node, t.key, t.red, t.Child(d), y.Child(d));
    assert Distinct(y);
    assert Nodes(x') == {t.node} + Nodes(t.Child(d)) + Nodes(y.Child(d));
    assert Nodes(Rot(t, d)) == {y.node} + Nodes(x') + Nodes(y.Child(!d));
  }

  /** The scalar facts a rotation needs, from the shape around it. */
  lemma {:induction false} FocusCanRotate(m: Mem, root: Node, c: Ctx, t: Shape, d: bool, nil: Node)
    requires t.Fork? && t.Child(!d).Fork? && Focus(m, root, c, t, nil)
    ensures CanRotate(m, root, t.node, t.Child(!d).node, d, nil)
    ensures root == t.node <==> c.Top?
  {
    var y := t.Child(!d);
    var b := y.Child(d);
    assert Linked(m, y, t.node, nil) && Linked(m, b, y.node, nil);
    assert Nodes(y) <= Nodes(t) && Nodes(b) <= Nodes(y) && Distinct(y);
    assert b.Fork? ==> b.node in Nodes(b);
    if c.Down? {
      TopNodeAbove(c, t.node);
      assert c.sibling.Fork? ==> c.sibling.node in Nodes(c.sibling);
    }
  }

  lemma {:induction false} RotFocus(m: Mem, m': Mem, root: Node, root': Node, c: Ctx, t: Shape, d: bool, nil: Node)
    requires t.Fork? && t.Child(!d).Fork? && Focus(m, root, c, t, nil)
    requires CanRotate(m, root, t.node, t.Child(!d).node, d, nil)
    requires Rotated(m, m', root, t.node, t.Child(!d).node, d, nil)
    requires root' == if t.node == root then t.Child(!d).node else root
    ensures Focus(m', root', c, Rot(t, d), nil)
  {
    FocusCanRotate(m, root, c, t, d, nil);
    RotSeparate(c, t, d, nil);
    RotLinked(m, m', root, c, t, d, nil);
    RotAbove(m, m', root, c, t, d, nil);
  }

  /** The three subtrees around a rotation are linked as before, one to a new parent. */
  lemma {:induction false} RotParts(m: Mem, m': Mem, root: Node, c: Ctx, t: Shape, d: bool, nil: Node)
    requires t.Fork? && t.Child(!d).Fork? && Focus(m, root, c, t, nil)
    requires CanRotate(m, root, t.node, t.Child(!d).node, d, nil)
    requires Rotated(m, m', root, t.node, t.Child(!d).node, d, nil)
    requires root == t.node <==> c.Top?
    ensures var x, y := t.node, t.Child(!d);
      Linked(m', t.Child(d), x, nil) && Linked(m', y.Child(d), x, nil) && Linked(m', y.Child(!d), y.node, nil)
  {
    var x, y := t.node, t.Child(!d);
    var a, b, e := t.Child(d), y.Child(d), y.Child(!d);
    assert Linked(m, y, x, nil) && Distinct(y);
    assert Nodes(y) <= Nodes(t) && Nodes(b) <= Nodes(y) && Nodes(e) <= Nodes(y) && Nodes(a) <= Nodes(t);
    assert b.Fork? ==> b.node in Nodes(b);
    assert Linked(m', a, x, nil) by { LinkedFrame(m, m', a, x, nil); }
    assert Linked(m', e, y.node, nil) by { LinkedFrame(m, m', e, y.node, nil); }
    assert Linked(m', b, x, nil) by { Reparent(m, m', b, y.node, x, nil); }
  }

  lemma {:induction false} RotLinked(m: Mem, m': Mem, root: Node, c: Ctx, t: Shape, d: bool, nil: Node)
    requires t.Fork? && t.Child(!d).Fork? && Focus(m, root, c, t, nil)
    requires CanRotate(m, root, t.node, t.Child(!d).node, d, nil)
    requires Rotated(m, m', root, t.node, t.Child(!d).node, d, nil)
    requires root == t.node <==> c.Top?
    ensures Linked(m', Rot(t, d), m[t.node].parent, nil)
  {
    var x, y := t.node, t.Child(!d);
    RotParts(m, m', root, c, t, d, nil);
    assert Linked(m, y, x, nil) && Distinct(y) && Nodes(y) <= Nodes(t);
    assert y.Child(d).Fork? ==> y.Child(d).node in Nodes(y.Child(d));
    assert Linked(m', Mk(d, x, t.key, t.red, t.Child(d), y.Child(d)), y.node, nil);
  }

  lemma {:induction false} RotAbove(m: Mem, m': Mem, root: Node, c: Ctx, t: Shape, d: bool, nil: Node)
    requires t.Fork? && t.Child(!d).Fork? && Focus(m, root, c, t, nil)
    requires CanRotate(m, root, t.node, t.Child(!d).node, d, nil)
    requires Rotated(m, m', root, t.node, t.Child(!d).node, d, nil)
    requires root == t.node <==> c.Top?
    ensures LinkedAbove(m', c, t.Child(!d).node, nil)
    ensures c.Down? ==> TopNode(c, t.node) == TopNode(c, t.Child(!d).node)
  {
    var x, y := t.node, t.Child(!d);
    var b := y.Child(d);
    assert Linked(m, y, x, nil);
    assert Nodes(y) <= Nodes(t) && Nodes(b) <= Nodes(y);
    assert b.Fork? ==> b.node in Nodes(b);
    if c.Down? {
      assert c.sibling.Fork? ==> c.sibling.node in Nodes(c.sibling);
      assert SameOn(m, m', Above(c) - {c.node});
    }
    Rehole(m, m', c, x, y.node, nil);
  }

  // ---- Moving the focus ----

  /** The subtree one level up. */
  function Fill(c: Ctx, t: Shape): Shape
    requires c.Down?
  {
    Mk(c.goLeft, c.node, c.key, c.red, t, c.sibling)
  }

  /** The context of the child of `t` on side `d`. */
  function Enter(c: Ctx, t: Shape, d: bool): Ctx
    requires t.Fork?
  {
    Down(t.node, t.key, t.red, d, t.Child(!d), c)
  }

  function Plug(c: Ctx, t: Shape): Shape {
    if c.Top? then t else Plug(c.up, Fill(c, t))
  }

  lemma {:induction false} FocusUp(m: Mem, root: Node, c: Ctx, t: Shape, nil: Node)
    requires Focus(m, root, c, t, nil) && c.Down?
    ensures Focus(m, root, c.up, Fill(c, t), nil)
  {
    var f := Fill(c, t);
    assert Nodes(f) == {c.node} + Nodes(t) + Nodes(c.sibling);
    assert t.Fork? ==> m[t.node].parent == c.node;
    assert Linked(m, t, c.node, nil);
  }

  lemma {:induction false} FocusDown(m: Mem, root: Node, c: Ctx, t: Shape, d: bool, nil: Node)
    requires Focus(m, root, c, t, nil) && t.Fork?
    ensures Focus(m, root, Enter(c, t, d), t.Child(d), nil)
  {
    var c' := Enter(c, t, d);
    assert Nodes(t) == {t.node} + Nodes(t.Child(d)) + Nodes(t.Child(!d));
    assert Linked(m, t.Child(d), t.node, nil);
  }

  lemma {:induction false} FocusTop(m: Mem, root: Node, c: Ctx, t: Shape, nil: Node)
    requires Focus(m, root, c, t, nil)
    ensures Focus(m, root, Top, Plug(c, t), nil)
  {
    if c.Down? {
      FocusUp(m, root, c, t, nil);
      FocusTop(m, root, c.up, Fill(c, t), nil);
    }
  }

  /** `inner` with `outer` in place of its top. */
  function Append(inner: Ctx, outer: Ctx): Ctx {
    if inner.Top? then outer else inner.(up := Append(inner.up, outer))
  }

  lemma {:induction false} FocusInto(m: Mem, root: Node, inner: Ctx, outer: Ctx, t: Shape, nil: Node)
    requires Focus(m, root, outer, Plug(inner, t), nil)
    ensures Focus(m, root, Append(inner, outer), t, nil)
  {
    if inner.Down? {
      FocusInto(m, root, inner.up, outer, Fill(inner, t), nil);
      FocusDown(m, root, Append(inner.up, outer), Fill(inner, t), inner.goLeft, nil);
    }
  }

  lemma {:induction false} AppendTop(c: Ctx)
    ensures Append(c, Top) == c
  {
    if c.Down? { AppendTop(c.up); }
  }

  lemma {:induction false} PlugAppend(inner: Ctx, outer: Ctx, t: Shape)
    ensures Plug(Append(inner, outer), t) == Plug(outer, Plug(inner, t))
  {
    if inner.Down? { PlugAppend(inner.up, outer, Fill(inner, t)); }
  }

  lemma {:induction false} PlugNodes(c: Ctx, t: Shape)
    ensures Nodes(Plug(c, t)) == Nodes(t) + Above(c)
  {
    if c.Down? { PlugNodes(c.up, Fill(c, t)); }
  }

  // ---- Painting ----

  /** Colouring the node in focus. */
  lemma {:induction false} Paint(m: Mem, m': Mem, root: Node, c: Ctx, t: Shape, red: bool, nil: Node)
    requires Focus(m, root, c, t, nil) && t.Fork?
    requires t.node in m && m' == m[t.node := m[t.node].(red := red)]
    ensures Focus(m', root, c, t.(red := red), nil)
  {
    LinkedFrame(m, m', t.left, t.node, nil);
    LinkedFrame(m, m', t.right, t.node, nil);
    AboveFrame(m, m', c, t.node, nil);
    assert Nodes(t.(red := red)) == Nodes(t);
  }

  // ---- The order of the nodes ----

  ghost function InOrder(t: Shape): seq<Node> {
    if t.Nil? then [] else InOrder(t.left) + [t.node] + InOrder(t.right)
  }

  ghost function Before(c: Ctx): seq<Node> {
    if c.Top? then [] else if c.goLeft then Before(c.up)
    else Before(c.up) + InOrder(c.sibling) + [c.node]
  }

  ghost function After(c: Ctx): seq<Node> {
    if c.Top? then [] else if c.goLeft then [c.node] + InOrder(c.sibling) + After(c.up)
    else After(c.up)
  }

  lemma {:induction false} PlugInOrder(c: Ctx, t: Shape)
    ensures InOrder(Plug(c, t)) == Before(c) + InOrder(t) + After(c)
  {
    if c.Down? {
      PlugInOrder(c.up, Fill(c, t));
      var x, s, r := [c.node], InOrder(c.sibling), InOrder(t);
      if c.goLeft {
        Regroup(Before(c.up), r, x, s, After(c.up));
      } else {
        Regroup(Before(c.up), s, x, r, After(c.up));
      }
    }
  }

  lemma {:induction false} Regroup<T>(a: seq<T>, b: seq<T>, x: seq<T>, c: seq<T>, e: seq<T>)
    ensures a + (b + x + c) + e == a + b + (x + c + e)
    ensures a + (b + x + c) + e == (a + b + x) + c + e
  {
  }

  lemma {:induction false} RotInOrder(t: Shape, d: bool)
    requires t.Fork? && t.Child(!d).Fork?
    ensures InOrder(Rot(t, d)) == InOrder(t)
  {
    var y := t.Child(!d);
    if d {
      assert InOrder(t.left) + [t.node] + (InOrder(y.left) + [y.node] + InOrder(y.right))
          == (InOrder(t.left) + [t.node] + InOrder(y.left)) + [y.node] + InOrder(y.right);
    } else {
      assert (InOrder(y.left) + [y.node] + InOrder(y.right)) + [t.node] + InOrder(t.right)
          == InOrder(y.left) + [y.node] + (InOrder(y.right) + [t.node] + InOrder(t.right));
    }
  }

  ghost predicate Members(nodes: set<Node>, s: seq<Node>) {
    (forall x :: x in nodes ==> x in s) && (forall x :: x in s ==> x in nodes)
  }

  lemma {:induction false} InOrderNodes(t: Shape)
    ensures Members(Nodes(t), InOrder(t))
  {
    if t.Fork? {
      InOrderNodes(t.left);
      InOrderNodes(t.right);
    }
  }

  lemma {:induction false} SameNodes(s: Shape, t: Shape)
    requires InOrder(s) == InOrder(t)
    ensures Nodes(s) == Nodes(t)
  {
    InOrderNodes(s);
    InOrderNodes(t);
    assert Members(Nodes(s), InOrder(t));
  }
}
