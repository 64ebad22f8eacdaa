/** The memory each case of the fix-up loops leaves behind, and the tree it spells. */
module RbFixup {
  import opened RbMem
  import opened RbShape
  import opened RbBalance
  import opened RbOrder

  function Depth(c: Ctx): nat { if c.Top? then 0 else 1 + Depth(c.up) }

  /** Where the parent, grandparent and uncle of the node in focus are. */
  lemma {:induction false} Family(m: Mem, root: Node, c: Ctx, t: Shape, nil: Node)
    requires Focus(m, root, c, t, nil) && t.Fork? && c.Down?
    ensures t.node in m && m[t.node].parent == c.node && c.node in m
    ensures m[c.node].red == c.red
    ensures (m[c.node].left == t.node) == c.goLeft && (m[c.node].right == t.node) == !c.goLeft
    ensures t.node != c.node && root != t.node
    ensures c.up.Down? ==>
      && m[c.node].parent == c.up.node && c.up.node in m
      && (m[c.up.node].left == c.node) == c.up.goLeft
      && m[c.up.node].Child(!c.up.goLeft) == Root(c.up.sibling, nil)
      && c.up.node != c.node && c.up.node != t.node
      && (c.up.sibling.Fork? ==>
            var u := c.up.sibling.node;
            u in m && m[u].red == c.up.sibling.red && u != c.node && u != c.up.node && u != t.node)
  {
    TopNodeAbove(c, t.node);
    assert c.sibling.Fork? ==> c.sibling.node in Nodes(c.sibling);
    if c.up.Down? {
      assert LinkedAbove(m, c.up, c.node, nil) && DistinctAbove(c.up);
      assert c.up.node in Above(c.up);
      assert c.up.sibling.Fork? ==> c.up.sibling.node in Nodes(c.up.sibling);
      assert Nodes(c.up.sibling) <= Above(c.up);
    }
  }

  // ---- Insertion ----

  ghost function RecolouredMem(m: Mem, c: Ctx): Mem
    requires c.Down? && c.up.Down? && c.up.sibling.Fork?
    requires c.node in m && c.up.node in m && c.up.sibling.node in m
  {
    PaintM(PaintM(PaintM(m, c.node, false), c.up.sibling.node, false), c.up.node, true)
  }

  lemma {:induction false} RecolourFocus(m: Mem, root: Node, c: Ctx, t: Shape, nil: Node)
    requires Focus(m, root, c, t, nil) && t.Fork? && c.Down? && c.up.Down? && c.up.sibling.Fork?
    ensures c.node in m && c.up.node in m && c.up.sibling.node in m
    ensures Focus(RecolouredMem(m, c), root, c.up.up, Recoloured(c, t), nil)
  {
    Family(m, root, c, t, nil);
    var g, d := c.up, c.up.goLeft;
    FocusUp(m, root, c, t, nil);
    var m1 := PaintM(m, c.node, false);
    var p := Fill(c, t).(red := false);
    Paint(m, m1, root, g, Fill(c, t), false, nil);
    FocusUp(m1, root, g, p, nil);
    FocusDown(m1, root, g.up, Fill(g, p), !d, nil);
    var m2 := PaintM(m1, g.sibling.node, false);
    var c2 := Enter(g.up, Fill(g, p), !d);
    Paint(m1, m2, root, c2, g.sibling, false, nil);
    FocusUp(m2, root, c2, g.sibling.(red := false), nil);
    Paint(m2, PaintM(m2, g.node, true), root, g.up, Fill(c2, g.sibling.(red := false)), true, nil);
  }

  lemma {:induction false} RecolourInOrder(c: Ctx, t: Shape)
    requires c.Down? && c.up.Down?
    ensures InOrder(Recoloured(c, t)) == InOrder(Fill(c.up, Fill(c, t)))
  {
    var p := Fill(c, t);
    assert InOrder(Painted(p, false)) == InOrder(p);
    assert InOrder(Painted(c.up.sibling, false)) == InOrder(c.up.sibling);
  }

  /** The two colour changes before the outer rotation. */
  lemma {:induction false} RepaintFocus(m: Mem, root: Node, c: Ctx, t: Shape, nil: Node)
    requires Focus(m, root, c, t, nil) && t.Fork? && c.Down? && c.up.Down?
    ensures c.node in m && c.up.node in m
    ensures var p := Painted(Fill(c, t), false); var g := c.up;
      Focus(PaintM(PaintM(m, c.node, false), g.node, true), root, g.up,
            Mk(g.goLeft, g.node, g.key, true, p, g.sibling), nil)
  {
    Family(m, root, c, t, nil);
    var g := c.up;
    FocusUp(m, root, c, t, nil);
    var m1 := PaintM(m, c.node, false);
    var p := Fill(c, t).(red := false);
    Paint(m, m1, root, g, Fill(c, t), false, nil);
    FocusUp(m1, root, g, p, nil);
    Paint(m1, PaintM(m1, g.node, true), root, g.up, Fill(g, p), true, nil);
  }

  lemma {:induction false} PlugSame(c: Ctx, t: Shape, t': Shape)
    requires InOrder(t) == InOrder(t')
    ensures InOrder(Plug(c, t)) == InOrder(Plug(c, t'))
  {
    PlugInOrder(c, t);
    PlugInOrder(c, t');
  }

  lemma {:induction false} RecolourStep(c: Ctx, t: Shape)
    requires Inserting(c, t) && c.Down? && c.red && c.up.Down? && Red(c.up.sibling)
    ensures Inserting(c.up.up, Recoloured(c, t)) && Depth(c.up.up) < Depth(c)
    ensures InOrder(Plug(c.up.up, Recoloured(c, t))) == InOrder(Plug(c, t))
  {
    RecolourInserting(c, t);
    RecolourInOrder(c, t);
    PlugSame(c.up.up, Recoloured(c, t), Fill(c.up, Fill(c, t)));
  }

  /** The parent, now below the node that was inside it, is the new focus. */
  lemma {:induction false} StraightenStep(c: Ctx, t: Shape)
    requires Inserting(c, t) && c.Down? && c.red && c.up.Down? && c.goLeft != c.up.goLeft
    ensures var d := c.up.goLeft; var q := Rot(Fill(c, t), d); var c' := Enter(c.up, q, d);
      && Inserting(c', q.Child(d)) && c'.red && c'.goLeft == d && c'.up == c.up
      && q.Child(d).node == c.node && Depth(c') == Depth(c)
      && InOrder(Plug(c', q.Child(d))) == InOrder(Plug(c, t))
  {
    var d := c.up.goLeft;
    var q := Rot(Fill(c, t), d);
    StraightenInserting(c, t);
    RotInOrder(Fill(c, t), d);
    PlugSame(c.up, q, Fill(c, t));
    assert Fill(Enter(c.up, q, d), q.Child(d)) == q;
  }

  lemma {:induction false} RotateStep(c: Ctx, t: Shape)
    requires Inserting(c, t) && c.Down? && c.red && c.up.Down?
    requires !Red(c.up.sibling) && c.goLeft == c.up.goLeft
    ensures var d := c.up.goLeft; var r := Rebalanced(c, t); var c' := Enter(c.up.up, r, d);
      && r.Fork? && r.Child(d) == t && Inserting(c', t) && Depth(c') < Depth(c)
      && InOrder(Plug(c', t)) == InOrder(Plug(c, t))
  {
    var d := c.up.goLeft;
    var p := Painted(Fill(c, t), false);
    var g := Mk(d, c.up.node, c.up.key, true, p, c.up.sibling);
    var r := Rebalanced(c, t);
    RotateInserting(c, t);
    RotInOrder(g, !d);
    assert InOrder(p) == InOrder(Fill(c, t));
    PlugSame(c.up.up, r, Fill(c.up, Fill(c, t)));
    assert Fill(Enter(c.up.up, r, d), t) == r;
  }

  lemma {:induction false} RotatedKept(m: Mem, m': Mem, root: Node, x: Node, y: Node, d: bool, nil: Node)
    requires CanRotate(m, root, x, y, d, nil) && Rotated(m, m', root, x, y, d, nil)
    ensures Kept(m, m', nil)
  {
  }

  lemma {:induction false} CanStraighten(m: Mem, root: Node, c: Ctx, t: Shape, nil: Node)
    requires Focus(m, root, c, t, nil) && t.Fork? && c.Down?
    ensures c.node in m && m[c.node].Child(c.goLeft) == t.node
    ensures CanRotate(m, root, c.node, t.node, !c.goLeft, nil)
  {
    FocusUp(m, root, c, t, nil);
    FocusCanRotate(m, root, c.up, Fill(c, t), !c.goLeft, nil);
  }

  /** Memory after the parent has been rotated below the node in focus. */
  lemma {:induction false} StraightenedFocus(m: Mem, m': Mem, root: Node, root': Node, c: Ctx, t: Shape, nil: Node)
    requires Focus(m, root, c, t, nil) && t.Fork? && c.Down?
    requires CanRotate(m, root, c.node, t.node, !c.goLeft, nil)
    requires Rotated(m, m', root, c.node, t.node, !c.goLeft, nil)
    requires root' == if c.node == root then t.node else root
    ensures var d := !c.goLeft; var q := Rot(Fill(c, t), d);
      Focus(m', root', Enter(c.up, q, d), q.Child(d), nil)
    ensures Kept(m, m', nil)
  {
    var d := !c.goLeft;
    FocusUp(m, root, c, t, nil);
    RotFocus(m, m', root, root', c.up, Fill(c, t), d, nil);
    FocusDown(m', root', c.up, Rot(Fill(c, t), d), d, nil);
    RotatedKept(m, m', root, c.node, t.node, d, nil);
  }

  ghost function RepaintedMem(m: Mem, c: Ctx): Mem
    requires c.Down? && c.up.Down? && c.node in m && c.up.node in m
  {
    PaintM(PaintM(m, c.node, false), c.up.node, true)
  }

  lemma {:induction false} CanRotateGrand(m: Mem, root: Node, c: Ctx, t: Shape, nil: Node)
    requires Focus(m, root, c, t, nil) && t.Fork? && c.Down? && c.up.Down? && c.goLeft == c.up.goLeft
    ensures c.node in m && c.up.node in m && nil !in {c.node, c.up.node}
    ensures CanRotate(RepaintedMem(m, c), root, c.up.node, c.node, !c.goLeft, nil)
  {
    RepaintFocus(m, root, c, t, nil);
    var g := c.up;
    var s := Mk(g.goLeft, g.node, g.key, true, Painted(Fill(c, t), false), g.sibling);
    FocusCanRotate(RepaintedMem(m, c), root, g.up, s, !g.goLeft, nil);
  }

  /** Memory after the outer rotation of the insertion loop. */
  lemma {:induction false} RebalancedFocus(m: Mem, m': Mem, root: Node, root': Node, c: Ctx, t: Shape, nil: Node)
    requires Focus(m, root, c, t, nil) && t.Fork? && c.Down? && c.up.Down? && c.goLeft == c.up.goLeft
    requires c.node in m && c.up.node in m && nil !in {c.node, c.up.node}
    requires CanRotate(RepaintedMem(m, c), root, c.up.node, c.node, !c.goLeft, nil)
    requires Rotated(RepaintedMem(m, c), m', root, c.up.node, c.node, !c.goLeft, nil)
    requires root' == if c.up.node == root then c.node else root
    ensures Focus(m', root', Enter(c.up.up, Rebalanced(c, t), c.goLeft), Rebalanced(c, t).Child(c.goLeft), nil)
    ensures Kept(m, m', nil)
  {
    RepaintFocus(m, root, c, t, nil);
    var g, d := c.up, c.goLeft;
    var s := Mk(d, g.node, g.key, true, Painted(Fill(c, t), false), g.sibling);
    RotFocus(RepaintedMem(m, c), m', root, root', g.up, s, !d, nil);
    FocusDown(m', root', g.up, Rebalanced(c, t), d, nil);
    RotatedKept(RepaintedMem(m, c), m', root, g.node, c.node, !d, nil);
  }

  /** A new red leaf in an empty place. */
  lemma {:induction false} AttachFocus(m: Mem, m': Mem, root: Node, c: Ctx, x: Node, key: Key, nil: Node)
    requires Focus(m, root, c, Nil, nil) && c.Down? && x !in m && x != nil && x !in Above(c)
    requires c.node in m && x in m' && m'[x] == Cell(key, nil, nil, c.node, true)
    requires c.node in m' && m'[c.node] == m[c.node].SetChild(c.goLeft, x)
    requires forall z :: z in m && z != c.node ==> z in m' && m'[z] == m[z]
    ensures Focus(m', root, c, Fork(x, key, true, Nil, Nil), nil)
  {
    Rehole(m, m', c, nil, x, nil);
  }

  lemma {:induction false} PaintedInOrder(t: Shape, red: bool)
    ensures InOrder(Painted(t, red)) == InOrder(t)
  {
  }

  lemma {:induction false} RootGoneNodes(t: Shape, rest: Shape)
    requires t.Fork? && ((t.left.Nil? && rest == t.right) || (t.right.Nil? && rest == t.left))
    ensures InOrder(Painted(rest, false)) == InOrder(rest) && Nodes(t) == Nodes(Painted(rest, false)) + {t.node}
    ensures Nodes(Painted(rest, false)) == Nodes(rest)
  {
    PaintedInOrder(rest, false);
    SameNodes(Painted(rest, false), rest);
  }

  /** What the whole tree is once the loop has stopped and the root is black. */
  lemma {:induction false} InsertedShape(c: Ctx, leaf: Shape, c': Ctx, t': Shape)
    requires Inserting(c', t') && (c'.Top? || !c'.red)
    requires InOrder(Plug(c', t')) == InOrder(Plug(c, leaf))
    requires leaf.Fork? && leaf.left.Nil? && leaf.right.Nil?
    ensures var s := Painted(Plug(c', t'), false);
      && Rb(s) && !Red(s) && InOrder(s) == InOrder(Plug(c, leaf))
      && Nodes(s) == Nodes(Plug(c, Nil)) + {leaf.node}
  {
    InsertingDone(c', t');
    var s := Painted(Plug(c', t'), false);
    PaintedInOrder(Plug(c', t'), false);
    SameNodes(s, Plug(c, leaf));
    PlugNodes(c, leaf);
    PlugNodes(c, Nil);
    assert Nodes(leaf) == {leaf.node};
  }

  // ---- Deletion ----

  /** Focus on a short subtree.  When it is the sentinel, the sentinel's parent field
      says where it hangs. */
  ghost predicate Short(m: Mem, root: Node, c: Ctx, t: Shape, nil: Node) {
    && Focus(m, root, c, t, nil)
    && nil in m && !m[nil].red
    && (c.Down? ==> m[Root(t, nil)].parent == c.node)
  }

  /** Where the parent and the sibling of the short subtree are. */
  lemma {:induction false} ShortFamily(m: Mem, root: Node, c: Ctx, t: Shape, nil: Node)
    requires Short(m, root, c, t, nil) && c.Down? && c.sibling.Fork?
    ensures c.node in m && c.sibling.node in m && Root(t, nil) in m
    ensures m[c.node].red == c.red && m[c.node].Child(!c.goLeft) == c.sibling.node
    ensures (m[c.node].left == Root(t, nil)) == c.goLeft
    ensures (m[c.node].right == Root(t, nil)) == !c.goLeft
    ensures var w := c.sibling;
      && m[w.node].red == w.red
      && m[w.node].left == Root(w.left, nil) && m[w.node].right == Root(w.right, nil)
      && (w.left.Fork? ==> w.left.node in m && m[w.left.node].red == w.left.red)
      && (w.right.Fork? ==> w.right.node in m && m[w.right.node].red == w.right.red)
    ensures c.node != c.sibling.node && nil !in {c.node, c.sibling.node}
    ensures root != Root(t, nil)
  {
    var w := c.sibling;
    TopNodeAbove(c, Root(t, nil));
    assert w.node in Nodes(w) && w.node in Above(c);
    assert Linked(m, w.left, w.node, nil) && Linked(m, w.right, w.node, nil);
    assert t.Fork? ==> t.node in Nodes(t);
  }

  lemma {:induction false} PaintParentFocus(m: Mem, root: Node, c: Ctx, t: Shape, red: bool, nil: Node)
    requires Focus(m, root, c, t, nil) && c.Down?
    ensures c.node in m && Focus(PaintM(m, c.node, red), root, c.(red := red), t, nil)
  {
    FocusUp(m, root, c, t, nil);
    Paint(m, PaintM(m, c.node, red), root, c.up, Fill(c, t), red, nil);
    FocusDown(PaintM(m, c.node, red), root, c.up, Fill(c, t).(red := red), c.goLeft, nil);
  }

  /** Going across to the sibling, and back with another subtree in its place. */
  function Across(c: Ctx, t: Shape): Ctx
    requires c.Down?
  {
    Enter(c.up, Fill(c, t), !c.goLeft)
  }

  lemma {:induction false} FocusAcross(m: Mem, root: Node, c: Ctx, t: Shape, nil: Node)
    requires Focus(m, root, c, t, nil) && c.Down?
    ensures Focus(m, root, Across(c, t), c.sibling, nil)
  {
    FocusUp(m, root, c, t, nil);
    FocusDown(m, root, c.up, Fill(c, t), !c.goLeft, nil);
  }

  lemma {:induction false} FocusBack(m: Mem, root: Node, c: Ctx, t: Shape, w: Shape, nil: Node)
    requires c.Down? && Focus(m, root, Across(c, t), w, nil)
    ensures Focus(m, root, c.(sibling := w), t, nil)
  {
    FocusUp(m, root, Across(c, t), w, nil);
    FocusDown(m, root, c.up, Fill(Across(c, t), w), c.goLeft, nil);
  }

  lemma {:induction false} PaintSiblingFocus(m: Mem, root: Node, c: Ctx, t: Shape, red: bool, nil: Node)
    requires Focus(m, root, c, t, nil) && c.Down? && c.sibling.Fork?
    ensures c.sibling.node in m
    ensures Focus(PaintM(m, c.sibling.node, red), root, c.(sibling := c.sibling.(red := red)), t, nil)
  {
    FocusAcross(m, root, c, t, nil);
    Paint(m, PaintM(m, c.sibling.node, red), root, Across(c, t), c.sibling, red, nil);
    FocusBack(PaintM(m, c.sibling.node, red), root, c, t, c.sibling.(red := red), nil);
  }

  /** `w` with its child on side `d` coloured. */
  function ChildPainted(w: Shape, d: bool, red: bool): Shape
    requires w.Fork?
  {
    Mk(d, w.node, w.key, w.red, Painted(w.Child(d), red), w.Child(!d))
  }

  lemma {:induction false} PaintNephewFocus(m: Mem, root: Node, c: Ctx, t: Shape, d: bool, red: bool, nil: Node)
    requires Focus(m, root, c, t, nil) && c.Down? && c.sibling.Fork? && c.sibling.Child(d).Fork?
    ensures c.sibling.Child(d).node in m
    ensures Focus(PaintM(m, c.sibling.Child(d).node, red), root,
                  c.(sibling := ChildPainted(c.sibling, d, red)), t, nil)
  {
    var w := c.sibling;
    var n := w.Child(d);
    var a := Across(c, t);
    FocusAcross(m, root, c, t, nil);
    FocusDown(m, root, a, w, d, nil);
    var m' := PaintM(m, n.node, red);
    Paint(m, m', root, Enter(a, w, d), n, red, nil);
    FocusUp(m', root, Enter(a, w, d), n.(red := red), nil);
    FocusBack(m', root, c, t, ChildPainted(w, d, red), nil);
  }

  /** What the deletion loop uses up: nothing is left once the subtree is red. */
  function Debt(c: Ctx, t: Shape): nat { if Red(t) then 0 else Depth(c) }

  /** Going up one level pays, even after a rotation has put one level more on top. */
  lemma {:induction false} DebtAfterRotation(c0: Ctx, c: Ctx, t: Shape)
    requires !Red(t) && c0.Down? && c.Down? && c.sibling.Fork?
    requires c == c0 || (c0.sibling.Fork? && c == RedSibling(c0))
    ensures Debt(c.up, Fill(c.(sibling := c.sibling.(red := true)), t)) < Debt(c0, t)
  {
  }

  // -- the sibling is red --

  ghost function RedSiblingMem(m: Mem, c: Ctx): Mem
    requires c.Down? && c.sibling.Fork? && c.node in m && c.sibling.node in m
  {
    PaintM(PaintM(m, c.sibling.node, false), c.node, true)
  }

  lemma {:induction false} RedSiblingPainted(m: Mem, root: Node, c: Ctx, t: Shape, nil: Node)
    requires Short(m, root, c, t, nil) && c.Down? && c.sibling.Fork?
    ensures c.node in m && c.sibling.node in m && nil !in {c.node, c.sibling.node}
    ensures var c1 := c.(sibling := c.sibling.(red := false), red := true);
      Focus(RedSiblingMem(m, c), root, c.up, Fill(c1, t), nil)
    ensures CanRotate(RedSiblingMem(m, c), root, c.node, c.sibling.node, c.goLeft, nil)
  {
    ShortFamily(m, root, c, t, nil);
    PaintSiblingFocus(m, root, c, t, false, nil);
    var m1 := PaintM(m, c.sibling.node, false);
    var c1 := c.(sibling := c.sibling.(red := false));
    PaintParentFocus(m1, root, c1, t, true, nil);
    FocusUp(RedSiblingMem(m, c), root, c1.(red := true), t, nil);
    FocusCanRotate(RedSiblingMem(m, c), root, c.up, Fill(c1.(red := true), t), c.goLeft, nil);
  }

  lemma {:induction false} RedSiblingFocus(m: Mem, m': Mem, root: Node, root': Node, c: Ctx, t: Shape, nil: Node)
    requires Short(m, root, c, t, nil) && c.Down? && c.sibling.Fork?
    requires c.node in m && c.sibling.node in m && nil !in {c.node, c.sibling.node}
    requires CanRotate(RedSiblingMem(m, c), root, c.node, c.sibling.node, c.goLeft, nil)
    requires Rotated(RedSiblingMem(m, c), m', root, c.node, c.sibling.node, c.goLeft, nil)
    requires root' == if c.node == root then c.sibling.node else root
    ensures Short(m', root', RedSibling(c), t, nil) && Kept(m, m', nil)
  {
    var d := c.goLeft;
    RedSiblingPainted(m, root, c, t, nil);
    var p := Fill(c.(sibling := c.sibling.(red := false), red := true), t);
    RotFocus(RedSiblingMem(m, c), m', root, root', c.up, p, d, nil);
    RotatedKept(RedSiblingMem(m, c), m', root, c.node, c.sibling.node, d, nil);
    var r := Rot(p, d);
    FocusDown(m', root', c.up, r, d, nil);
    FocusDown(m', root', Enter(c.up, r, d), r.Child(d), d, nil);
    assert Enter(Enter(c.up, r, d), r.Child(d), d) == RedSibling(c);
  }

  lemma {:induction false} RedSiblingStep(c: Ctx, t: Shape)
    requires Deleting(c, t) && c.Down? && Red(c.sibling)
    ensures Deleting(RedSibling(c), t) && RedSibling(c).sibling.Fork? && !RedSibling(c).sibling.red
    ensures InOrder(Plug(RedSibling(c), t)) == InOrder(Plug(c, t))
  {
    RedSiblingDeleting(c, t);
    DeletingSibling(RedSibling(c), t);
    var p := Fill(c, t);
    RotInOrder(p, c.goLeft);
    var r := Fill(RedSibling(c).up, Fill(RedSibling(c), t));
    assert InOrder(r) == InOrder(Rot(p, c.goLeft));
    PlugSame(c.up, r, p);
  }

  // -- the sibling and its children are black --

  lemma {:induction false} PaintSiblingStep(m: Mem, root: Node, c: Ctx, t: Shape, nil: Node)
    requires Short(m, root, c, t, nil) && Deleting(c, t) && !Red(t) && c.Down?
    requires c.sibling.Fork? && !c.sibling.red && !Red(c.sibling.left) && !Red(c.sibling.right)
    ensures c.sibling.node in m
    ensures var t' := Fill(c.(sibling := c.sibling.(red := true)), t);
      && Short(PaintM(m, c.sibling.node, true), root, c.up, t', nil) && Deleting(c.up, t')
      && InOrder(Plug(c.up, t')) == InOrder(Plug(c, t))
  {
    ShortFamily(m, root, c, t, nil);
    PaintSiblingFocus(m, root, c, t, true, nil);
    PaintSiblingDeleting(c, t);
    var c1 := c.(sibling := c.sibling.(red := true));
    FocusUp(PaintM(m, c.sibling.node, true), root, c1, t, nil);
    PlugSame(c.up, Fill(c1, t), Fill(c, t));
  }

  // -- only the near child of the sibling is red --

  ghost function NearRedMem(m: Mem, c: Ctx): Mem
    requires c.Down? && c.sibling.Fork? && c.sibling.Child(c.goLeft).Fork?
    requires c.sibling.node in m && c.sibling.Child(c.goLeft).node in m
  {
    PaintM(PaintM(m, c.sibling.Child(c.goLeft).node, false), c.sibling.node, true)
  }

  lemma {:induction false} NearRedPainted(m: Mem, root: Node, c: Ctx, t: Shape, nil: Node)
    requires Short(m, root, c, t, nil) && c.Down? && c.sibling.Fork?
    requires c.sibling.Child(c.goLeft).Fork?
    ensures c.sibling.node in m && c.sibling.Child(c.goLeft).node in m
    ensures nil !in {c.sibling.node, c.sibling.Child(c.goLeft).node}
    ensures var d, w := c.goLeft, c.sibling;
      Focus(NearRedMem(m, c), root, Across(c, t),
            Mk(d, w.node, w.key, true, Painted(w.Child(d), false), w.Child(!d)), nil)
    ensures CanRotate(NearRedMem(m, c), root, c.sibling.node, c.sibling.Child(c.goLeft).node, !c.goLeft, nil)
  {
    var d, w := c.goLeft, c.sibling;
    ShortFamily(m, root, c, t, nil);
    PaintNephewFocus(m, root, c, t, d, false, nil);
    var m1 := PaintM(m, w.Child(d).node, false);
    var c1 := c.(sibling := ChildPainted(w, d, false));
    PaintSiblingFocus(m1, root, c1, t, true, nil);
    var c2 := c.(sibling := c1.sibling.(red := true));
    FocusAcross(NearRedMem(m, c), root, c2, t, nil);
    assert Across(c2, t) == Across(c, t);
    FocusCanRotate(NearRedMem(m, c), root, Across(c, t), c2.sibling, !d, nil);
  }

  lemma {:induction false} NearRedFocus(m: Mem, m': Mem, root: Node, root': Node, c: Ctx, t: Shape, nil: Node)
    requires Short(m, root, c, t, nil) && c.Down? && c.sibling.Fork?
    requires c.sibling.Child(c.goLeft).Fork?
    requires c.sibling.node in m && c.sibling.Child(c.goLeft).node in m
    requires nil !in {c.sibling.node, c.sibling.Child(c.goLeft).node}
    requires CanRotate(NearRedMem(m, c), root, c.sibling.node, c.sibling.Child(c.goLeft).node, !c.goLeft, nil)
    requires Rotated(NearRedMem(m, c), m', root, c.sibling.node, c.sibling.Child(c.goLeft).node, !c.goLeft, nil)
    requires root' == if c.sibling.node == root then c.sibling.Child(c.goLeft).node else root
    ensures Short(m', root', c.(sibling := NearRed(c)), t, nil) && Kept(m, m', nil)
  {
    var d, w := c.goLeft, c.sibling;
    NearRedPainted(m, root, c, t, nil);
    var w1 := Mk(d, w.node, w.key, true, Painted(w.Child(d), false), w.Child(!d));
    RotFocus(NearRedMem(m, c), m', root, root', Across(c, t), w1, !d, nil);
    RotatedKept(NearRedMem(m, c), m', root, w.node, w.Child(d).node, !d, nil);
    FocusBack(m', root', c, t, NearRed(c), nil);
  }

  lemma {:induction false} NearRedStep(c: Ctx, t: Shape)
    requires Deleting(c, t) && c.Down? && c.sibling.Fork? && !c.sibling.red
    requires Red(c.sibling.Child(c.goLeft)) && !Red(c.sibling.Child(!c.goLeft))
    ensures var c' := c.(sibling := NearRed(c));
      && Deleting(c', t) && !c'.sibling.red && Red(c'.sibling.Child(!c.goLeft))
      && InOrder(Plug(c', t)) == InOrder(Plug(c, t))
  {
    NearRedDeleting(c, t);
    var d, w := c.goLeft, c.sibling;
    var w1 := Mk(d, w.node, w.key, true, Painted(w.Child(d), false), w.Child(!d));
    RotInOrder(w1, !d);
    assert InOrder(w1) == InOrder(w);
    PlugSame(c.up, Fill(c.(sibling := NearRed(c)), t), Fill(c, t));
  }

  // -- the far child of the sibling is red --

  ghost function FarRedMem(m: Mem, c: Ctx): Mem
    requires c.Down? && c.sibling.Fork? && c.sibling.Child(!c.goLeft).Fork?
    requires c.node in m && c.sibling.node in m && c.sibling.Child(!c.goLeft).node in m
  {
    var m1 := PaintM(m, c.sibling.node, c.red);
    PaintM(PaintM(m1, c.node, false), c.sibling.Child(!c.goLeft).node, false)
  }

  function FarRedPaintedShape(c: Ctx, t: Shape): Shape
    requires c.Down? && c.sibling.Fork?
  {
    var d, w := c.goLeft, c.sibling;
    Mk(d, c.node, c.key, false, t, Mk(d, w.node, w.key, c.red, w.Child(d), Painted(w.Child(!d), false)))
  }

  lemma {:induction false} FarRedPainted(m: Mem, root: Node, c: Ctx, t: Shape, nil: Node)
    requires Short(m, root, c, t, nil) && c.Down? && c.sibling.Fork?
    requires c.sibling.Child(!c.goLeft).Fork?
    ensures c.node in m && c.sibling.node in m && c.sibling.Child(!c.goLeft).node in m
    ensures nil !in {c.node, c.sibling.node, c.sibling.Child(!c.goLeft).node}
    ensures c.sibling.Child(!c.goLeft).node !in {c.node, c.sibling.node}
    ensures Focus(FarRedMem(m, c), root, c.up, FarRedPaintedShape(c, t), nil)
    ensures CanRotate(FarRedMem(m, c), root, c.node, c.sibling.node, c.goLeft, nil)
  {
    var d, w := c.goLeft, c.sibling;
    var f := w.Child(!d);
    ShortFamily(m, root, c, t, nil);
    assert f.node in Nodes(f) && f.node in Nodes(w);
    PaintSiblingFocus(m, root, c, t, c.red, nil);
    var m1 := PaintM(m, w.node, c.red);
    var c1 := c.(sibling := w.(red := c.red));
    PaintParentFocus(m1, root, c1, t, false, nil);
    var m2 := PaintM(m1, c.node, false);
    PaintNephewFocus(m2, root, c1.(red := false), t, !d, false, nil);
    var c2 := c1.(red := false, sibling := ChildPainted(c1.sibling, !d, false));
    FocusUp(FarRedMem(m, c), root, c2, t, nil);
    assert Fill(c2, t) == FarRedPaintedShape(c, t);
    FocusCanRotate(FarRedMem(m, c), root, c.up, Fill(c2, t), d, nil);
  }

  lemma {:induction false} FarRedFocus(m: Mem, m': Mem, root: Node, root': Node, c: Ctx, t: Shape, nil: Node)
    requires Short(m, root, c, t, nil) && c.Down? && c.sibling.Fork?
    requires c.sibling.Child(!c.goLeft).Fork?
    requires c.node in m && c.sibling.node in m && c.sibling.Child(!c.goLeft).node in m
    requires nil !in {c.node, c.sibling.node, c.sibling.Child(!c.goLeft).node}
    requires CanRotate(FarRedMem(m, c), root, c.node, c.sibling.node, c.goLeft, nil)
    requires Rotated(FarRedMem(m, c), m', root, c.node, c.sibling.node, c.goLeft, nil)
    requires root' == if c.node == root then c.sibling.node else root
    ensures Short(m', root', Top, Plug(c.up, FarRed(c, t)), nil) && Kept(m, m', nil)
  {
    assert Focus(m', root', Top, Plug(c.up, FarRed(c, t)), nil) by {
      FarRedPainted(m, root, c, t, nil);
      RotFocus(FarRedMem(m, c), m', root, root', c.up, FarRedPaintedShape(c, t), c.goLeft, nil);
      FocusTop(m', root', c.up, FarRed(c, t), nil);
    }
    assert Kept(FarRedMem(m, c), m', nil) by {
      RotatedKept(FarRedMem(m, c), m', root, c.node, c.sibling.node, c.goLeft, nil);
    }
  }

  lemma {:induction false} FarRedStep(c: Ctx, t: Shape)
    requires Deleting(c, t) && !Red(t) && c.Down? && c.sibling.Fork? && !c.sibling.red
    requires Red(c.sibling.Child(!c.goLeft))
    ensures var s := Plug(c.up, FarRed(c, t));
      Deleting(Top, s) && !Red(s) && InOrder(s) == InOrder(Plug(c, t))
  {
    FarRedDeleting(c, t);
    var s := Plug(c.up, FarRed(c, t));
    assert Painted(s, false) == s;
    var d, w := c.goLeft, c.sibling;
    RotInOrder(FarRedPaintedShape(c, t), d);
    assert InOrder(Painted(w.Child(!d), false)) == InOrder(w.Child(!d));
    assert InOrder(FarRedPaintedShape(c, t)) == InOrder(Fill(c, t));
    PlugSame(c.up, FarRed(c, t), Fill(c, t));
  }

  // ---- Taking a node out ----

  /** A node with at most one child is replaced by that child under its parent. */
  lemma {:induction false} SpliceFocus(m: Mem, m': Mem, root: Node, c: Ctx, t: Shape, rest: Shape, nil: Node)
    requires Focus(m, root, c, t, nil) && t.Fork? && c.Down?
    requires (t.left.Nil? && rest == t.right) || (t.right.Nil? && rest == t.left)
    requires c.node in m && c.node in m' && m'[c.node] == m[c.node].SetChild(c.goLeft, Root(rest, nil))
    requires rest.Fork? ==> rest.node in m && rest.node in m' && m'[rest.node] == m[rest.node].(parent := c.node)
    requires SameOn(m, m', (Nodes(t) + Above(c)) - {c.node, Root(rest, nil), t.node})
    ensures Focus(m', root, c, rest, nil) && t.node !in Nodes(rest) + Above(c)
    ensures Nodes(t) == Nodes(rest) + {t.node}
  {
    assert Linked(m, rest, t.node, nil);
    assert Nodes(t) == Nodes(rest) + {t.node};
    assert rest.Fork? ==> rest.node in Nodes(rest);
    Reparent(m, m', rest, t.node, c.node, nil);
    Rehole(m, m', c, t.node, Root(rest, nil), nil);
  }

  /** A new node `s` takes over the place, the links and the colour of `t.node`. */
  lemma {:induction false} ReplaceFocus(m: Mem, m': Mem, root: Node, root': Node, c: Ctx, t: Shape, s: Node, key: Key,
      nil: Node)
    requires Focus(m, root, c, t, nil) && t.Fork? && s !in Nodes(t) + Above(c) && s != nil
    requires t.node in m && s in m'
    requires m'[s] == Cell(key, Root(t.left, nil), Root(t.right, nil), m[t.node].parent, t.red)
    requires t.left.Fork? ==> t.left.node in m && t.left.node in m' && m'[t.left.node] == m[t.left.node].(parent := s)
    requires t.right.Fork? ==>
      t.right.node in m && t.right.node in m'
      && m'[t.right.node] == m[t.right.node].(parent := s)
    requires c.Down? ==> c.node in m && c.node in m' && m'[c.node] == m[c.node].SetChild(c.goLeft, s)
    requires SameOn(m, m', Nodes(t) - {t.node, Root(t.left, nil), Root(t.right, nil)})
    requires SameOn(m, m', Above(c) - (if c.Down? then {c.node} else {}))
    requires root' == if c.Top? then s else root
    ensures Focus(m', root', c, Fork(s, key, t.red, t.left, t.right), nil)
  {
    assert t.left.Fork? ==> t.left.node in Nodes(t.left);
    assert t.right.Fork? ==> t.right.node in Nodes(t.right);
    Reparent(m, m', t.left, t.node, s, nil);
    Reparent(m, m', t.right, t.node, s, nil);
    Rehole(m, m', c, t.node, s, nil);
  }

  lemma {:induction false} FocusOutOf(m: Mem, root: Node, inner: Ctx, outer: Ctx, t: Shape, nil: Node)
    requires Focus(m, root, Append(inner, outer), t, nil)
    ensures Focus(m, root, outer, Plug(inner, t), nil)
  {
    if inner.Down? {
      FocusUp(m, root, Append(inner, outer), t, nil);
      FocusOutOf(m, root, inner.up, outer, Fill(inner, t), nil);
    }
  }

  /** Unlinking a node with at most one child, with the parent field of that child
      already set to where it will hang: seen from above, the node is gone. */
  lemma {:induction false} UnlinkFocus(m: Mem, root: Node, c: Ctx, t: Shape, rest: Shape, nil: Node)
    requires Focus(m, root, c, t, nil) && t.Fork? && c.Down? && nil in m
    requires (t.left.Nil? && rest == t.right) || (t.right.Nil? && rest == t.left)
    ensures t.node in m && c.node in m && m[t.node].parent == c.node && Root(rest, nil) in m
    ensures Root(rest, nil) !in {t.node, c.node}
    ensures Focus(Unlinked(m, t.node, Root(rest, nil), c.node), root, c, rest, nil)
    ensures t.node !in Nodes(rest) + Above(c)
    ensures m[t.node].red == t.red && root != t.node
  {
    var y := Root(rest, nil);
    assert Linked(m, rest, t.node, nil);
    assert rest.Fork? ==> rest.node in Nodes(rest) && rest.node in Nodes(t);
    assert c.sibling.Fork? ==> c.sibling.node in Nodes(c.sibling);
    TopNodeAbove(c, t.node);
    SpliceFocus(m, Unlinked(m, t.node, y, c.node), root, c, t, rest, nil);
  }

  lemma {:induction false} AppendAbove(inner: Ctx, outer: Ctx)
    ensures Above(Append(inner, outer)) == Above(inner) + Above(outer)
  {
    if inner.Down? { AppendAbove(inner.up, outer); }
  }

  /** A node with two children, and inside its right subtree the leftmost node `s`. */
  predicate TwoChildren(t: Shape, inner: Ctx, s: Shape) {
    && t.Fork? && t.left.Fork? && t.right == Plug(inner, s)
    && s.Fork? && s.left.Nil?
  }

  /** The parent field the code gives to what was right of `s`. */
  function HangsFrom(t: Shape, inner: Ctx, s: Shape): Node
    requires t.Fork? && s.Fork?
  {
    if inner.Top? then s.node else inner.node
  }

  /** `t` without `s`. */
  function Shrunk(t: Shape, inner: Ctx, s: Shape): Shape
    requires t.Fork? && s.Fork?
  {
    t.(right := Plug(inner, s.right))
  }

  lemma {:induction false} UnlinkMin(m: Mem, root: Node, c: Ctx, t: Shape, inner: Ctx, s: Shape, nil: Node)
    requires Focus(m, root, c, t, nil) && TwoChildren(t, inner, s) && nil in m
    ensures s.node in m && Root(s.right, nil) in m && m[s.node].key == s.key && m[s.node].red == s.red
    ensures var p := m[s.node].parent;
      && p != null && p in m && p == (if inner.Top? then t.node else inner.node)
      && (p == t.node <==> inner.Top?) && p != Root(s.right, nil)
      && Focus(Unlinked(m, s.node, Root(s.right, nil), p), root, c, Shrunk(t, inner, s), nil)
    ensures s.node !in Nodes(Shrunk(t, inner, s)) + Above(c) && s.node != root
  {
    var outer := Enter(c, t, false);
    var full := Append(inner, outer);
    FocusDown(m, root, c, t, false, nil);
    FocusInto(m, root, inner, outer, s, nil);
    UnlinkFocus(m, root, full, s, s.right, nil);
    var m1 := Unlinked(m, s.node, Root(s.right, nil), full.node);
    FocusOutOf(m1, root, inner, outer, s.right, nil);
    FocusUp(m1, root, outer, Plug(inner, s.right), nil);
    AppendAbove(inner, outer);
    PlugNodes(inner, s.right);
    PlugNodes(inner, s);
    assert inner.Down? ==> inner.node in Nodes(Plug(inner, s));
  }

  /** Memory in which only the parent field of what hung under `s` may be ahead. */
  ghost predicate Ahead(m1: Mem, m: Mem, t: Shape, inner: Ctx, s: Shape, nil: Node)
    requires t.Fork? && s.Fork?
  {
    var y := Root(s.right, nil);
    && m.Keys == m1.Keys && y in m
    && m[y] == m1[y].(parent := HangsFrom(t, inner, s))
    && forall z :: z in m && z != y ==> m[z] == m1[z]
  }

  /** Deep inside the right subtree the parent field was right already. */
  lemma {:induction false} AheadInside(m1: Mem, m: Mem, root: Node, c: Ctx, t: Shape, inner: Ctx, s: Shape, nil: Node)
    requires TwoChildren(t, inner, s) && Focus(m1, root, c, Shrunk(t, inner, s), nil)
    requires Ahead(m1, m, t, inner, s, nil) && inner.Down?
    ensures SameOn(m1, m, m1.Keys - {nil})
  {
    var u := Shrunk(t, inner, s);
    FocusDown(m1, root, c, u, false, nil);
    FocusInto(m1, root, inner, Enter(c, u, false), s.right, nil);
  }

  lemma {:induction false} CanTakeOverMin(m1: Mem, m: Mem, root: Node, c: Ctx, t: Shape, inner: Ctx, s: Shape,
      nil: Node)
    requires TwoChildren(t, inner, s) && Focus(m1, root, c, Shrunk(t, inner, s), nil)
    requires s.node in m1 && nil in m1 && s.node != nil && s.node !in Nodes(Shrunk(t, inner, s)) + Above(c)
    requires Ahead(m1, m, t, inner, s, nil)
    ensures CanTakeOver(m, root, t.node, s.node, nil)
    ensures root == t.node <==> c.Top?
  {
    var u := Shrunk(t, inner, s);
    assert u.left.node in Nodes(u.left);
    assert Linked(m1, u.left, u.node, nil) && Linked(m1, u.right, u.node, nil);
    assert u.right.Fork? ==> u.right.node in Nodes(u.right);
    PlugNodes(inner, s.right);
    assert s.right.Fork? ==> s.right.node in Nodes(s.right) && s.right.node in Nodes(u.right);
    if c.Down? {
      TopNodeAbove(c, t.node);
      assert c.sibling.Fork? ==> c.sibling.node in Nodes(c.sibling);
    }
  }

  /** `s` has taken the place of `t.node`; the focus is on what was right of `s`. */
  lemma {:induction false} TakeOverFocus(m1: Mem, m: Mem, m': Mem, root: Node, root': Node, c: Ctx, t: Shape,
      inner: Ctx, s: Shape, nil: Node)
    requires TwoChildren(t, inner, s) && Focus(m1, root, c, Shrunk(t, inner, s), nil)
    requires s.node in m1 && nil in m1 && s.node != nil && s.node !in Nodes(Shrunk(t, inner, s)) + Above(c)
    requires m1[s.node].key == s.key && Ahead(m1, m, t, inner, s, nil)
    requires CanTakeOver(m, root, t.node, s.node, nil) && TakenOver(m, m', root, t.node, s.node, nil)
    requires root' == if t.node == root then s.node else root
    ensures var outer := Down(s.node, s.key, t.red, false, t.left, c);
      Focus(m', root', Append(inner, outer), s.right, nil)
  {
    CanTakeOverMin(m1, m, root, c, t, inner, s, nil);
    var u := Shrunk(t, inner, s);
    TakeOverReplace(m1, m, m', root, root', c, t, inner, s, nil);
    var v := Fork(s.node, s.key, t.red, u.left, u.right);
    FocusDown(m', root', c, v, false, nil);
    FocusInto(m', root', inner, Enter(c, v, false), s.right, nil);
  }

  lemma {:induction false} TakeOverReplace(m1: Mem, m: Mem, m': Mem, root: Node, root': Node, c: Ctx, t: Shape,
      inner: Ctx, s: Shape, nil: Node)
    requires TwoChildren(t, inner, s) && Focus(m1, root, c, Shrunk(t, inner, s), nil)
    requires s.node in m1 && nil in m1 && s.node != nil && s.node !in Nodes(Shrunk(t, inner, s)) + Above(c)
    requires m1[s.node].key == s.key && Ahead(m1, m, t, inner, s, nil)
    requires CanTakeOver(m, root, t.node, s.node, nil) && TakenOver(m, m', root, t.node, s.node, nil)
    requires (root == t.node <==> c.Top?) && root' == if t.node == root then s.node else root
    ensures var u := Shrunk(t, inner, s);
      Focus(m', root', c, Fork(s.node, s.key, t.red, u.left, u.right), nil)
  {
    var u := Shrunk(t, inner, s);
    assert u.left.node in Nodes(u.left);
    assert Linked(m1, u.left, u.node, nil) && Linked(m1, u.right, u.node, nil);
    assert u.right.Fork? ==> u.right.node in Nodes(u.right);
    assert SameOn(m1, m, m1.Keys - {nil, Root(u.right, nil)}) by {
      if inner.Down? { AheadInside(m1, m, root, c, t, inner, s, nil); }
    }
    assert SameOn(m1, m', Nodes(u) - {u.node, Root(u.left, nil), Root(u.right, nil)});
    if c.Down? { TakeOverAbove(m1, m, m', root, c, t, inner, s, nil); }
    ReplaceFocus(m1, m', root, root', c, u, s.node, s.key, nil);
  }

  lemma {:induction false} TakeOverAbove(m1: Mem, m: Mem, m': Mem, root: Node, c: Ctx, t: Shape, inner: Ctx, s: Shape,
      nil: Node)
    requires TwoChildren(t, inner, s) && Focus(m1, root, c, Shrunk(t, inner, s), nil) && c.Down?
    requires s.node in m1 && nil in m1 && s.node !in Nodes(Shrunk(t, inner, s)) + Above(c)
    requires SameOn(m1, m, m1.Keys - {nil, Root(Shrunk(t, inner, s).right, nil)})
    requires CanTakeOver(m, root, t.node, s.node, nil) && TakenOver(m, m', root, t.node, s.node, nil)
    requires root != t.node && m.Keys == m1.Keys
    ensures m'[c.node] == m1[c.node].SetChild(c.goLeft, s.node)
    ensures SameOn(m1, m', Above(c) - {c.node})
  {
    var u := Shrunk(t, inner, s);
    assert u.left.node in Nodes(u.left);
    assert u.right.Fork? ==> u.right.node in Nodes(u.right);
    assert c.sibling.Fork? ==> c.sibling.node in Nodes(c.sibling);
  }

  lemma {:induction false} FocusFrame(m: Mem, m': Mem, root: Node, c: Ctx, t: Shape, nil: Node)
    requires Focus(m, root, c, t, nil) && SameOn(m, m', Nodes(t) + Above(c))
    ensures Focus(m', root, c, t, nil)
  {
    if t.Fork? { LinkedFrame(m, m', t, m[t.node].parent, nil); }
    AboveFrame(m, m', c, Root(t, nil), nil);
  }

  /** The path to a given node. */
  lemma {:induction false} Locate(t: Shape, x: Node) returns (c: Ctx, s: Shape)
    requires x in Nodes(t)
    ensures Plug(c, s) == t && s.Fork? && s.node == x
  {
    if t.node == x {
      c, s := Top, t;
    } else {
      var d := x in Nodes(t.left);
      var c1, s1 := Locate(t.Child(d), x);
      c, s := Append(c1, Enter(Top, t, d)), s1;
      PlugAppend(c1, Enter(Top, t, d), s1);
    }
  }

  /** The colours around the place `s` leaves, once `s` has taken the place of `t.node`. */
  lemma {:induction false} TwoChildrenColours(c: Ctx, t: Shape, inner: Ctx, s: Shape)
    requires TwoChildren(t, inner, s) && Rb(Plug(c, t)) && !Red(Plug(c, t))
    ensures var full := Append(inner, Down(s.node, s.key, t.red, false, t.left, c));
      && (s.red ==> Rb(s.right) && RbAbove(full, BlackHeight(s.right), Red(s.right)))
      && (!s.red ==> Deleting(full, s.right))
  {
    var o := Enter(c, t, false);
    var o' := Down(s.node, s.key, t.red, false, t.left, c);
    PlugAppend(inner, o, s);
    RbUnplug(Append(inner, o), s);
    RbRelabel(inner, o, o', BlackHeight(s), Red(s));
    Spliced(Append(inner, o'), s, s.right);
  }

  lemma {:induction false} TwoChildrenNodes(c: Ctx, t: Shape, inner: Ctx, s: Shape, nil: Node)
    requires TwoChildren(t, inner, s) && Separate(c, t, nil)
    ensures var full := Append(inner, Down(s.node, s.key, t.red, false, t.left, c));
      && Nodes(Plug(c, t)) == Nodes(s.right) + Above(full) + {t.node}
      && t.node !in Nodes(s.right) + Above(full)
  {
    PlugNodes(c, t);
    PlugNodes(inner, s);
    PlugNodes(inner, s.right);
    AppendAbove(inner, Down(s.node, s.key, t.red, false, t.left, c));
    assert Nodes(s) == {s.node} + Nodes(s.right);
  }

  /** The memory the code leaves after its first half: the parent field of what hung
      under `s` is already that of the final tree. */
  lemma {:induction false} UnlinkedAhead(m: Mem, root: Node, c: Ctx, t: Shape, inner: Ctx, s: Shape, nil: Node)
    requires Focus(m, root, c, t, nil) && TwoChildren(t, inner, s) && nil in m
    ensures s.node in m && Root(s.right, nil) in m && s.node != nil
    ensures var p := m[s.node].parent;
      && p != null && p in m && p != Root(s.right, nil) && (p == t.node <==> inner.Top?)
      && var q := if p == t.node then s.node else p;
         var m1, m2 := Unlinked(m, s.node, Root(s.right, nil), p), Unlinked(m, s.node, Root(s.right, nil), q);
         && Focus(m1, root, c, Shrunk(t, inner, s), nil) && Ahead(m1, m2, t, inner, s, nil)
         && m1[s.node].key == s.key && m2[nil].red == m[nil].red
         && CanTakeOver(m2, root, t.node, s.node, nil)
    ensures s.node !in Nodes(Shrunk(t, inner, s)) + Above(c)
  {
    UnlinkMin(m, root, c, t, inner, s, nil);
    var y := Root(s.right, nil);
    var p := m[s.node].parent;
    var q := if p == t.node then s.node else p;
    var m1, m2 := Unlinked(m, s.node, y, p), Unlinked(m, s.node, y, q);
    assert s.node in Nodes(s) && s.node in Nodes(Plug(inner, s)) by { PlugNodes(inner, s); }
    assert Nodes(t.right) <= Nodes(t);
    assert Ahead(m1, m2, t, inner, s, nil);
    CanTakeOverMin(m1, m2, root, c, t, inner, s, nil);
  }

  /** What else the second half of the code leaves: keys, and the sentinel's fields. */
  lemma {:induction false} TakenRest(m: Mem, m2: Mem, m': Mem, root: Node, root': Node, x: Node, s: Node, y: Node,
      q: Node, full: Ctx, rest: Shape, nil: Node)
    requires s in m && y in m && m[s].parent != null && m[s].parent in m && nil in m && y == Root(rest, nil)
    requires m2 == Unlinked(m, s, y, q) && m2[nil].red == m[nil].red
    requires CanTakeOver(m2, root, x, s, nil) && TakenOver(m2, m', root, x, s, nil)
    requires Focus(m', root', full, rest, nil) && full.Down? && q == full.node
    ensures SameKeys(m, m') && m'[nil].red == m[nil].red && y in m' && m'[y].parent == full.node
  {
    assert SameKeys(m, m2);
    assert m'[nil] == m2[nil];
  }

  /** The path to the `i`-th node in order. */
  lemma {:induction false} LocateAt(t: Shape, i: nat) returns (c: Ctx, s: Shape)
    requires i < |InOrder(t)|
    ensures Plug(c, s) == t && s.Fork? && s.node == InOrder(t)[i] && i == |Before(c)| + |InOrder(s.left)|
  {
    var n := |InOrder(t.left)|;
    if i == n {
      c, s := Top, t;
    } else {
      var d := i < n;
      var c1, s1 := LocateAt(t.Child(d), if d then i else i - n - 1);
      var o := Enter(Top, t, d);
      c, s := Append(c1, o), s1;
      PlugAppend(c1, o, s1);
      AppendBefore(c1, o);
    }
  }

  lemma {:induction false} AppendBefore(inner: Ctx, outer: Ctx)
    ensures Before(Append(inner, outer)) == Before(outer) + Before(inner)
  {
    if inner.Down? { AppendBefore(inner.up, outer); }
  }
}
