/** The red-black rules and why each case of the two fix-up loops restores them. */
module RbBalance {
  import opened RbMem
  import opened RbShape

  predicate Red(t: Shape) { t.Fork? && t.red }

  function BlackHeight(t: Shape): nat {
    if t.Nil? then 0 else BlackHeight(t.left) + (if t.red then 0 else 1)
  }

  /** No red node has a red child, and all paths down have equally many black nodes. */
  predicate Rb(t: Shape) {
    t.Fork? ==>
      && BlackHeight(t.left) == BlackHeight(t.right)
      && (t.red ==> !Red(t.left) && !Red(t.right))
      && Rb(t.left) && Rb(t.right)
  }

  /** What `c` needs of the subtree in its hole: black height `h`, and a red root only
      if `holeRed` is allowed for. */
  predicate RbAbove(c: Ctx, h: int, holeRed: bool) {
    if c.Top? then !holeRed
    else
      && (c.red ==> !holeRed && !Red(c.sibling))
      && Rb(c.sibling) && BlackHeight(c.sibling) == h
      && RbAbove(c.up, if c.red then h else h + 1, c.red)
  }

  lemma {:induction false} RbPlug(c: Ctx, t: Shape)
    requires Rb(t) && RbAbove(c, BlackHeight(t), Red(t))
    ensures Rb(Plug(c, t)) && !Red(Plug(c, t))
  {
    if c.Down? { RbPlug(c.up, Fill(c, t)); }
  }

  lemma {:induction false} RbUnplug(c: Ctx, t: Shape)
    requires Rb(Plug(c, t)) && !Red(Plug(c, t))
    ensures Rb(t) && RbAbove(c, BlackHeight(t), Red(t))
  {
    if c.Down? { RbUnplug(c.up, Fill(c, t)); }
  }

  function Painted(t: Shape, red: bool): Shape {
    if t.Nil? then t else t.(red := red)
  }

  // ---- Insertion: a red subtree whose parent may be red too ----

  predicate Inserting(c: Ctx, t: Shape) {
    t.Fork? && t.red && Rb(t) && RbAbove(c, BlackHeight(t), false)
  }

  /** A red parent is not the root and hangs from a black node. */
  lemma {:induction false} InsertingGrand(c: Ctx, t: Shape)
    requires Inserting(c, t) && c.Down? && c.red
    ensures c.up.Down? && !c.up.red
    ensures RbAbove(c.up, BlackHeight(t), true)
    ensures Rb(c.up.sibling) && BlackHeight(c.up.sibling) == BlackHeight(t)
    ensures RbAbove(c.up.up, BlackHeight(t) + 1, false)
  {
    assert RbAbove(c.up, BlackHeight(t), true);
  }

  /** The tree in focus after parent, uncle and grandparent change colours. */
  function Recoloured(c: Ctx, t: Shape): Shape
    requires c.Down? && c.up.Down?
  {
    var p := Painted(Fill(c, t), false);
    var g := c.up;
    Mk(g.goLeft, g.node, g.key, true, p, Painted(g.sibling, false))
  }

  lemma {:induction false} RecolourInserting(c: Ctx, t: Shape)
    requires Inserting(c, t) && c.Down? && c.red && c.up.Down? && Red(c.up.sibling)
    ensures Inserting(c.up.up, Recoloured(c, t))
  {
    InsertingGrand(c, t);
    var p := Painted(Fill(c, t), false);
    assert Rb(p) && Rb(Painted(c.up.sibling, false));
  }

  /** An inner node is first rotated outwards; its parent takes its place. */
  lemma {:induction false} StraightenInserting(c: Ctx, t: Shape)
    requires Inserting(c, t) && c.Down? && c.red && c.up.Down? && c.goLeft != c.up.goLeft
    ensures var p := Fill(c, t); var d := c.up.goLeft;
      var q := Rot(p, d);
      Inserting(Enter(c.up, q, d), q.Child(d)) && q.red
  {
    InsertingGrand(c, t);
    var q := Rot(Fill(c, t), c.up.goLeft);
    assert Rb(q.Child(c.up.goLeft));
  }

  /** Parent black, grandparent red, rotate: the violation is gone. */
  function Rebalanced(c: Ctx, t: Shape): Shape
    requires c.Down? && c.up.Down? && c.goLeft == c.up.goLeft
  {
    var p := Painted(Fill(c, t), false);
    Rot(Mk(c.up.goLeft, c.up.node, c.up.key, true, p, c.up.sibling), !c.up.goLeft)
  }

  lemma {:induction false} RotateInserting(c: Ctx, t: Shape)
    requires Inserting(c, t) && c.Down? && c.red && c.up.Down?
    requires !Red(c.up.sibling) && c.goLeft == c.up.goLeft
    ensures var r := Rebalanced(c, t); var d := c.up.goLeft;
      r.Fork? && !r.red && r.Child(d) == t && Inserting(Enter(c.up.up, r, d), t)
  {
    InsertingGrand(c, t);
    var r := Rebalanced(c, t);
    assert Rb(r.Child(!c.up.goLeft));
  }

  /** When the loop stops, blackening the root finishes the work. */
  lemma {:induction false} InsertingDone(c: Ctx, t: Shape)
    requires Inserting(c, t) && (c.Top? || !c.red)
    ensures Rb(Painted(Plug(c, t), false))
    ensures c.Down? ==> !Red(Plug(c, t))
  {
    if c.Down? { RbPlug(c, t); }
  }

  // ---- Deletion: a subtree that is one black node short ----

  predicate Deleting(c: Ctx, t: Shape) {
    Rb(Painted(t, false)) && RbAbove(c, BlackHeight(t) + 1, false)
  }

  /** The short side's sibling is a real node. */
  lemma {:induction false} DeletingSibling(c: Ctx, t: Shape)
    requires Deleting(c, t) && c.Down?
    ensures c.sibling.Fork?
    ensures !c.sibling.red ==> BlackHeight(c.sibling.left) == BlackHeight(c.sibling.right) == BlackHeight(t)
    ensures c.sibling.red ==> c.sibling.left.Fork? && c.sibling.right.Fork?
  {
  }

  /** A red sibling: swap colours with the parent and rotate towards the short side. */
  function RedSibling(c: Ctx): Ctx
    requires c.Down? && c.sibling.Fork?
  {
    var d, w := c.goLeft, c.sibling;
    Down(c.node, c.key, true, d, w.Child(d),
         Down(w.node, w.key, false, d, w.Child(!d), c.up))
  }

  lemma {:induction false} RedSiblingDeleting(c: Ctx, t: Shape)
    requires Deleting(c, t) && c.Down? && Red(c.sibling)
    ensures Deleting(RedSibling(c), t) && !Red(RedSibling(c).sibling)
  {
  }

  /** A black sibling with black children turns red; the parent's side is now short. */
  lemma {:induction false} PaintSiblingDeleting(c: Ctx, t: Shape)
    requires Deleting(c, t) && !Red(t) && c.Down?
    requires c.sibling.Fork? && !c.sibling.red && !Red(c.sibling.left) && !Red(c.sibling.right)
    ensures Deleting(c.up, Fill(c.(sibling := Painted(c.sibling, true)), t))
  {
    var h := BlackHeight(t);
    var w := Painted(c.sibling, true);
    var t' := Fill(c.(sibling := w), t);
    assert Rb(w) && BlackHeight(w) == h;
    assert BlackHeight(t') == if c.red then h else h + 1;
    assert RbAbove(c.up, BlackHeight(t') + 1, c.red);
    assert RbAbove(c.up, BlackHeight(t') + 1, false);
  }

  /** Only the near child of the sibling is red: rotate it to be the sibling. */
  function NearRed(c: Ctx): Shape
    requires c.Down? && c.sibling.Fork? && c.sibling.Child(c.goLeft).Fork?
  {
    var d, w := c.goLeft, c.sibling;
    Rot(Mk(d, w.node, w.key, true, Painted(w.Child(d), false), w.Child(!d)), !d)
  }

  lemma {:induction false} NearRedDeleting(c: Ctx, t: Shape)
    requires Deleting(c, t) && c.Down? && c.sibling.Fork? && !c.sibling.red
    requires Red(c.sibling.Child(c.goLeft)) && !Red(c.sibling.Child(!c.goLeft))
    ensures var c' := c.(sibling := NearRed(c));
      Deleting(c', t) && !c'.sibling.red && Red(c'.sibling.Child(!c.goLeft))
  {
    var h, d, w := BlackHeight(t), c.goLeft, c.sibling;
    var n := w.Child(d);
    assert Rb(n) && Rb(w.Child(!d)) && BlackHeight(n) == BlackHeight(w.Child(!d)) == h;
    assert Rb(n.left) && Rb(n.right) && BlackHeight(n.left) == BlackHeight(n.right) == h;
    var s := NearRed(c);
    assert s.Child(d) == n.Child(d);
    assert s.Child(!d) == Mk(d, w.node, w.key, true, n.Child(!d), w.Child(!d));
    assert Rb(s.Child(!d)) && BlackHeight(s.Child(!d)) == h;
    assert Rb(s) && BlackHeight(s) == h + 1;
  }

  /** The far child of the sibling is red: one rotation pays the debt. */
  function FarRed(c: Ctx, t: Shape): Shape
    requires c.Down? && c.sibling.Fork?
  {
    var d, w := c.goLeft, c.sibling;
    Rot(Mk(d, c.node, c.key, false, t,
           Mk(d, w.node, w.key, c.red, w.Child(d), Painted(w.Child(!d), false))), d)
  }

  lemma {:induction false} FarRedDeleting(c: Ctx, t: Shape)
    requires Deleting(c, t) && !Red(t) && c.Down? && c.sibling.Fork? && !c.sibling.red
    requires Red(c.sibling.Child(!c.goLeft))
    ensures var r := FarRed(c, t);
      Rb(r) && RbAbove(c.up, BlackHeight(r), Red(r)) && Rb(Plug(c.up, r)) && !Red(Plug(c.up, r))
  {
    var h, d, w := BlackHeight(t), c.goLeft, c.sibling;
    assert Rb(w.left) && Rb(w.right) && BlackHeight(w.left) == BlackHeight(w.right) == h;
    var r := FarRed(c, t);
    assert r.Child(!d) == Painted(w.Child(!d), false);
    assert r.Child(d) == Mk(d, c.node, c.key, false, t, w.Child(d));
    assert Rb(r.Child(d)) && BlackHeight(r.Child(d)) == h + 1;
    assert Rb(r.Child(!d)) && BlackHeight(r.Child(!d)) == h + 1;
    RbPlug(c.up, r);
  }

  lemma {:induction false} DeletingDone(c: Ctx, t: Shape)
    requires Deleting(c, t) && (c.Top? || Red(t))
    ensures Rb(Plug(c, Painted(t, false))) && !Red(Plug(c, Painted(t, false)))
  {
    if c.Down? { RbPlug(c, Painted(t, false)); }
  }

  /** Taking out a node with at most one child: a red one leaves a red-black tree, a
      black one leaves its child one black node short. */
  lemma {:induction false} Spliced(c: Ctx, t: Shape, rest: Shape)
    requires t.Fork? && Rb(t) && RbAbove(c, BlackHeight(t), Red(t))
    requires (t.left.Nil? && rest == t.right) || (t.right.Nil? && rest == t.left)
    ensures t.red ==> Rb(rest) && RbAbove(c, BlackHeight(rest), Red(rest))
    ensures !t.red ==> Deleting(c, rest)
  {
    assert Rb(rest) && BlackHeight(rest) == 0;
    assert rest.Fork? ==> Rb(rest.left) && Rb(rest.right);
    if t.red {
      assert rest.Nil?;
      assert RbAbove(c, 0, false);
    }
  }

  lemma {:induction false} SplicedPlug(c: Ctx, t: Shape, rest: Shape)
    requires t.Fork? && Rb(Plug(c, t)) && !Red(Plug(c, t))
    requires (t.left.Nil? && rest == t.right) || (t.right.Nil? && rest == t.left)
    ensures Nodes(Plug(c, t)) == Nodes(rest) + Above(c) + {t.node}
    ensures t.red ==> Rb(rest) && RbAbove(c, BlackHeight(rest), Red(rest))
    ensures !t.red ==> Deleting(c, rest)
  {
    PlugNodes(c, t);
    RbUnplug(c, t);
    Spliced(c, t, rest);
  }

  /** The only child of the root, painted black, is a tree. */
  lemma {:induction false} RootGone(t: Shape, rest: Shape)
    requires t.Fork? && Rb(t) && (rest == t.left || rest == t.right)
    ensures Rb(Painted(rest, false)) && !Red(Painted(rest, false))
  {
  }

  /** The rules above a hole do not depend on which node sits where. */
  lemma {:induction false} RbRelabel(inner: Ctx, o: Ctx, o': Ctx, h: int, holeRed: bool)
    requires o.Down? && o'.Down? && o'.red == o.red && o'.sibling == o.sibling && o'.up == o.up
    requires RbAbove(Append(inner, o), h, holeRed)
    ensures RbAbove(Append(inner, o'), h, holeRed)
  {
    if inner.Down? {
      RbRelabel(inner.up, o, o', if inner.red then h else h + 1, inner.red);
    }
  }
}
