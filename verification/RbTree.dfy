/** The red-black tree of ngx_rbtree.c: nodes with parent links around one shared sentinel. */
module RbTree {
  import opened RbMem
  import opened RbShape
  import opened RbBalance
  import opened RbFixup
  import opened RbOrder
  import opened RbHeight
  import opened Bits
  import opened Words

  /** NGX_TIMER_INFINITE */
  const INFINITE: Word := W64 - 1

  class Tree {
    var root: Node
    const sentinel: Node
    const kind: InsertKind

    /** The tree, its nodes with the sentinel, and the rank of every node. */
    ghost var shape: Shape
    ghost var cells: set<Node>
    ghost var rank: Ranks

    /** Everything the operations rely on except the order of the nodes. */
    ghost predicate ValidShape()
      reads this, cells
    {
      && cells == Nodes(shape) + {sentinel}
      && Focus(Snap(cells), root, Top, shape, sentinel)
      && Rb(shape) && !Red(shape) && !sentinel.red
    }

    ghost predicate Valid()
      reads this, cells
    {
      && ValidShape()
      && Ordered(kind, Snap(cells), shape, rank)
    }

    /** ngx_rbtree_init */
    constructor (sentinel: Node, kind: InsertKind)
      modifies sentinel
      ensures Valid() && shape == Nil && this.sentinel == sentinel && this.kind == kind
    {
      root := sentinel;
      this.sentinel := sentinel;
      this.kind := kind;
      shape, cells, rank := Nil, {sentinel}, map[];
      new;
      sentinel.red := false;
    }

    method LeftRotate(node: Node)
      requires node.right != null && CanRotate(Snap(cells), root, node, node.right, true, sentinel)
      modifies this`root, cells
      ensures Rotated(old(Snap(cells)), Snap(cells), old(root), node, old(node.right), true, sentinel)
      ensures root == if node == old(root) then old(node.right) else old(root)
    {
      var temp := node.right;
      node.right := temp.left;
      if temp.left != sentinel {
        temp.left.parent := node;
      }
      temp.parent := node.parent;
      if node == root {
        root := temp;
      } else if node == node.parent.left {
        node.parent.left := temp;
      } else {
        node.parent.right := temp;
      }
      temp.left := node;
      node.parent := temp;
    }

    method RightRotate(node: Node)
      requires node.left != null && CanRotate(Snap(cells), root, node, node.left, false, sentinel)
      modifies this`root, cells
      ensures Rotated(old(Snap(cells)), Snap(cells), old(root), node, old(node.left), false, sentinel)
      ensures root == if node == old(root) then old(node.left) else old(root)
    {
      var temp := node.left;
      node.left := temp.right;
      if temp.right != sentinel {
        temp.right.parent := node;
      }
      temp.parent := node.parent;
      if node == root {
        root := temp;
      } else if node == node.parent.right {
        node.parent.right := temp;
      } else {
        node.parent.left := temp;
      }
      temp.right := node;
      node.parent := temp;
    }

    /** Memory holds `t` in the context `c`. */
    ghost predicate At(c: Ctx, t: Shape)
      reads this, cells
    {
      Focus(Snap(cells), root, c, t, sentinel)
    }

    /** Recolouring of the insertion loop: parent and uncle black, grandparent red. */
    method Recolour(node: Node, temp: Node)
      requires var p := node.parent; p != null && p.parent != null
      requires {node, node.parent, node.parent.parent, temp} <= cells
      requires node.parent.parent !in {node, node.parent, temp} && node.parent !in {node, temp}
      modifies cells
      ensures var p := old(node.parent);
        Snap(cells) == PaintM(PaintM(PaintM(old(Snap(cells)), p, false), temp, false), old(p.parent), true)
    {
      node.parent.red := false;
      temp.red := false;
      node.parent.parent.red := true;
    }

    /** The colours before the outer rotation: parent black, grandparent red. */
    method Repaint(node: Node)
      requires var p := node.parent; p != null && p.parent != null
      requires {node, node.parent, node.parent.parent} <= cells
      requires node.parent.parent !in {node, node.parent} && node.parent != node
      modifies cells
      ensures var p := old(node.parent);
        Snap(cells) == PaintM(PaintM(old(Snap(cells)), p, false), old(p.parent), true)
    {
      node.parent.red := false;
      node.parent.parent.red := true;
    }

    /** One pass of the insertion loop when the parent is a left child. */
    method InsertFixLeft(node: Node, ghost c: Ctx, ghost t: Shape)
      returns (next: Node, ghost c': Ctx, ghost t': Shape)
      requires At(c, t) && Inserting(c, t) && t.node == node && !sentinel.red && sentinel in cells
      requires c.Down? && c.red && c.up.Down? && c.up.goLeft
      modifies this`root, cells
      ensures At(c', t') && Inserting(c', t') && t'.node == next && Depth(c') < Depth(c)
      ensures InOrder(Plug(c', t')) == InOrder(Plug(c, t))
      ensures Kept(old(Snap(cells)), Snap(cells), sentinel)
    {
      Family(Snap(cells), root, c, t, sentinel);
      var temp := node.parent.parent.right;
      if temp.red {
        RecolourFocus(Snap(cells), root, c, t, sentinel);
        RecolourStep(c, t);
        next := node.parent.parent;
        Recolour(node, temp);
        c', t' := c.up.up, Recoloured(c, t);
      } else {
        next, c', t' := node, c, t;
        if node == node.parent.right {
          next := node.parent;
          c', t' := StraightenLeft(next, c, t);
        }
        c', t' := RotateGrandRight(next, c', t');
      }
    }

    /** The inner rotation: the parent goes below the node that was inside it. */
    method StraightenLeft(node: Node, ghost c: Ctx, ghost t: Shape)
      returns (ghost c': Ctx, ghost t': Shape)
      requires At(c, t) && Inserting(c, t) && sentinel in cells
      requires c.Down? && c.red && c.up.Down? && c.up.goLeft && !c.goLeft && c.node == node
      modifies this`root, cells
      ensures At(c', t') && Inserting(c', t') && t'.node == node && Depth(c') == Depth(c)
      ensures c'.Down? && c'.red && c'.up == c.up && c'.goLeft
      ensures InOrder(Plug(c', t')) == InOrder(Plug(c, t))
      ensures Kept(old(Snap(cells)), Snap(cells), sentinel)
    {
      CanStraighten(Snap(cells), root, c, t, sentinel);
      StraightenStep(c, t);
      LeftRotate(node);
      StraightenedFocus(old(Snap(cells)), Snap(cells), old(root), root, c, t, sentinel);
      t' := Rot(Fill(c, t), true);
      c', t' := Enter(c.up, t', true), t'.left;
    }

    /** Parent black, grandparent red, right rotation at the grandparent. */
    method RotateGrandRight(node: Node, ghost c: Ctx, ghost t: Shape)
      returns (ghost c': Ctx, ghost t': Shape)
      requires At(c, t) && Inserting(c, t) && t.node == node && sentinel in cells
      requires c.Down? && c.red && c.up.Down? && c.up.goLeft && c.goLeft && !Red(c.up.sibling)
      modifies this`root, cells
      ensures At(c', t') && Inserting(c', t') && t'.node == node && Depth(c') < Depth(c)
      ensures InOrder(Plug(c', t')) == InOrder(Plug(c, t))
      ensures Kept(old(Snap(cells)), Snap(cells), sentinel)
    {
      Family(Snap(cells), root, c, t, sentinel);
      CanRotateGrand(Snap(cells), root, c, t, sentinel);
      RotateStep(c, t);
      Repaint(node);
      RightRotate(node.parent.parent);
      RebalancedFocus(old(Snap(cells)), Snap(cells), old(root), root, c, t, sentinel);
      c', t' := Enter(c.up.up, Rebalanced(c, t), true), t;
    }

    /** One pass of the insertion loop when the parent is a right child. */
    method InsertFixRight(node: Node, ghost c: Ctx, ghost t: Shape)
      returns (next: Node, ghost c': Ctx, ghost t': Shape)
      requires At(c, t) && Inserting(c, t) && t.node == node && !sentinel.red && sentinel in cells
      requires c.Down? && c.red && c.up.Down? && !c.up.goLeft
      modifies this`root, cells
      ensures At(c', t') && Inserting(c', t') && t'.node == next && Depth(c') < Depth(c)
      ensures InOrder(Plug(c', t')) == InOrder(Plug(c, t))
      ensures Kept(old(Snap(cells)), Snap(cells), sentinel)
    {
      Family(Snap(cells), root, c, t, sentinel);
      var temp := node.parent.parent.left;
      if temp.red {
        RecolourFocus(Snap(cells), root, c, t, sentinel);
        RecolourStep(c, t);
        next := node.parent.parent;
        Recolour(node, temp);
        c', t' := c.up.up, Recoloured(c, t);
      } else {
        next, c', t' := node, c, t;
        if node == node.parent.left {
          next := node.parent;
          c', t' := StraightenRight(next, c, t);
        }
        c', t' := RotateGrandLeft(next, c', t');
      }
    }

    /** The inner rotation: the parent goes below the node that was inside it. */
    method StraightenRight(node: Node, ghost c: Ctx, ghost t: Shape)
      returns (ghost c': Ctx, ghost t': Shape)
      requires At(c, t) && Inserting(c, t) && sentinel in cells
      requires c.Down? && c.red && c.up.Down? && !c.up.goLeft && c.goLeft && c.node == node
      modifies this`root, cells
      ensures At(c', t') && Inserting(c', t') && t'.node == node && Depth(c') == Depth(c)
      ensures c'.Down? && c'.red && c'.up == c.up && !c'.goLeft
      ensures InOrder(Plug(c', t')) == InOrder(Plug(c, t))
      ensures Kept(old(Snap(cells)), Snap(cells), sentinel)
    {
      CanStraighten(Snap(cells), root, c, t, sentinel);
      StraightenStep(c, t);
      RightRotate(node);
      StraightenedFocus(old(Snap(cells)), Snap(cells), old(root), root, c, t, sentinel);
      t' := Rot(Fill(c, t), false);
      c', t' := Enter(c.up, t', false), t'.right;
    }

    /** Parent black, grandparent red, left rotation at the grandparent. */
    method RotateGrandLeft(node: Node, ghost c: Ctx, ghost t: Shape)
      returns (ghost c': Ctx, ghost t': Shape)
      requires At(c, t) && Inserting(c, t) && t.node == node && sentinel in cells
      requires c.Down? && c.red && c.up.Down? && !c.up.goLeft && !c.goLeft && !Red(c.up.sibling)
      modifies this`root, cells
      ensures At(c', t') && Inserting(c', t') && t'.node == node && Depth(c') < Depth(c)
      ensures InOrder(Plug(c', t')) == InOrder(Plug(c, t))
      ensures Kept(old(Snap(cells)), Snap(cells), sentinel)
    {
      Family(Snap(cells), root, c, t, sentinel);
      CanRotateGrand(Snap(cells), root, c, t, sentinel);
      RotateStep(c, t);
      Repaint(node);
      LeftRotate(node.parent.parent);
      RebalancedFocus(old(Snap(cells)), Snap(cells), old(root), root, c, t, sentinel);
      c', t' := Enter(c.up.up, Rebalanced(c, t), false), t;
    }

    /** The re-balancing loop of `ngx_rbtree_insert`. */
    method InsertFix(start: Node, ghost c0: Ctx, ghost t0: Shape)
      returns (ghost c: Ctx, ghost t: Shape)
      requires At(c0, t0) && Inserting(c0, t0) && t0.node == start && !sentinel.red && sentinel in cells
      modifies this`root, cells
      ensures At(c, t) && Inserting(c, t) && (c.Top? || !c.red)
      ensures InOrder(Plug(c, t)) == InOrder(Plug(c0, t0))
      ensures Kept(old(Snap(cells)), Snap(cells), sentinel)
    {
      var node := start;
      c, t := c0, t0;
      if c.Down? { Family(Snap(cells), root, c, t, sentinel); }
      while node != root && node.parent.red
        invariant At(c, t) && Inserting(c, t) && t.node == node
        invariant InOrder(Plug(c, t)) == InOrder(Plug(c0, t0))
        invariant Kept(old(Snap(cells)), Snap(cells), sentinel)
        invariant c.Top? ==> node == root
        invariant c.Down? ==> node != root && node.parent == c.node && c.node.red == c.red
        decreases Depth(c)
      {
        InsertingGrand(c, t);
        Family(Snap(cells), root, c, t, sentinel);
        if node.parent == node.parent.parent.left {
          node, c, t := InsertFixLeft(node, c, t);
        } else {
          node, c, t := InsertFixRight(node, c, t);
        }
        if c.Down? { Family(Snap(cells), root, c, t, sentinel); }
      }
    }

    /** Where the ranks put a new node: below `c`, between what is not greater and
        what is greater. */
    ghost predicate Place(c: Ctx, r: int)
      reads this
    {
      && c.Down? && Plug(c, Nil) == shape
      && AllLe(Before(c), rank, r) && AllGt(After(c), rank, r)
    }

    /** One step of a descent: the comparison decides as the ranks do. */
    lemma {:induction false} Descend(c: Ctx, t: Shape, key: Key, r: int)
      requires Valid() && Keyed(kind, key, r) && t.Fork? && At(c, t) && Plug(c, t) == shape
      requires kind.InsertTimerValue? ==> forall x :: x in rank ==> -HALF64 <= r - rank[x] < HALF64
      requires AllLe(Before(c), rank, r) && AllGt(After(c), rank, r)
      ensures var d := GoesLeft(kind, key, t.node.key); var c' := Enter(c, t, d);
        && At(c', t.Child(d)) && Plug(c', t.Child(d)) == shape
        && AllLe(Before(c'), rank, r) && AllGt(After(c'), rank, r)
        && t.node in cells
        && t.node.left == Root(t.left, sentinel) && t.node.right == Root(t.right, sentinel)
        && (t.Child(d).Fork? ==> t.Child(d).node != sentinel)
    {
      PlugInOrder(c, t);
      InOrderNodes(shape);
      assert t.node in InOrder(t);
      assert t.node in Nodes(shape);
      GoesLeftIsLess(kind, key, t.node.key, r, rank[t.node]);
      var d := GoesLeft(kind, key, t.node.key);
      DescendOrder(c, t, d, rank, r);
      FocusDown(Snap(cells), root, c, t, d, sentinel);
    }

    /** The descent of `ngx_rbtree_insert_value`: unsigned comparison. */
    method DescendByValue(start: Node, key: Key, ghost r: int) returns (temp: Node, goLeft: bool, ghost c: Ctx)
      requires Valid() && kind.InsertValue? && shape.Fork? && start == root && Keyed(kind, key, r)
      ensures Place(c, r) && At(c, Nil) && c.node == temp && c.goLeft == goLeft
    {
      temp := start;
      ghost var t := shape;
      c := Top;
      while true
        invariant At(c, t) && t.Fork? && t.node == temp && Plug(c, t) == shape
        invariant AllLe(Before(c), rank, r) && AllGt(After(c), rank, r)
        decreases t
      {
        Descend(c, t, key, r);
        goLeft := key < temp.key;
        c, t := Enter(c, t, goLeft), t.Child(goLeft);
        var p := if goLeft then temp.left else temp.right;
        if p == sentinel { break; }
        temp := p;
      }
    }

    /** The descent of `ngx_rbtree_insert_timer_value`: the sign of the wrapped difference. */
    method DescendByTimer(start: Node, key: Key, ghost r: int) returns (temp: Node, goLeft: bool, ghost c: Ctx)
      requires Valid() && kind.InsertTimerValue? && shape.Fork? && start == root && Keyed(kind, key, r)
      requires forall x :: x in rank ==> -HALF64 <= r - rank[x] < HALF64
      ensures Place(c, r) && At(c, Nil) && c.node == temp && c.goLeft == goLeft
    {
      temp := start;
      ghost var t := shape;
      c := Top;
      while true
        invariant At(c, t) && t.Fork? && t.node == temp && Plug(c, t) == shape
        invariant AllLe(Before(c), rank, r) && AllGt(After(c), rank, r)
        decreases t
      {
        Descend(c, t, key, r);
        goLeft := Signed(Wrap(key - temp.key)) < 0;
        c, t := Enter(c, t, goLeft), t.Child(goLeft);
        var p := if goLeft then temp.left else temp.right;
        if p == sentinel { break; }
        temp := p;
      }
    }

    /** The links both insertion functions set at the end. */
    method Attach(temp: Node, node: Node, goLeft: bool, ghost c: Ctx)
      requires At(c, Nil) && c.Down? && c.node == temp && c.goLeft == goLeft
      requires node !in cells && sentinel in cells && Above(c) <= cells
      modifies temp, node
      ensures Focus(Snap(cells + {node}), root, c, Fork(node, node.key, true, Nil, Nil), sentinel)
      ensures node.key == old(node.key) && temp.red == old(temp.red)
      ensures SameKeys(old(Snap(cells)), Snap(cells + {node}))
    {
      if goLeft { temp.left := node; } else { temp.right := node; }
      node.parent := temp;
      node.left := sentinel;
      node.right := sentinel;
      node.red := true;
      AttachFocus(old(Snap(cells)), Snap(cells + {node}), root, c, node, node.key, sentinel);
    }

    /** Is `r` a rank the tree can take beside the live ones? */
    ghost predicate Admits(key: Key, r: int)
      reads this
    {
      && Keyed(kind, key, r)
      && (kind.InsertTimerValue? ==> forall x :: x in rank ==> -HALF64 < r - rank[x] < HALF64)
    }

    /** Insertion into the empty tree. */
    method InsertFirst(node: Node, ghost r: int)
      requires Valid() && shape.Nil? && node !in cells && Admits(node.key, r)
      modifies this, node
      ensures Valid() && cells == old(cells) + {node} && rank == old(rank)[node := r]
      ensures InOrder(shape) == [node]
    {
      rank := rank[node := r];
      LinkFirst(node);
    }

    /** The first node becomes a black root. */
    method LinkFirst(node: Node)
      requires ValidShape() && shape.Nil? && node !in cells
      modifies this`root, this`shape, this`cells, node
      ensures ValidShape() && cells == old(cells) + {node} && InOrder(shape) == [node] && Nodes(shape) == {node}
      ensures node.key == old(node.key)
    {
      node.parent := null;
      node.left := sentinel;
      node.right := sentinel;
      node.red := false;
      root := node;
      shape, cells := Fork(node, node.key, false, Nil, Nil), cells + {node};
      assert Linked(Snap(cells), shape, null, sentinel);
    }

    /** ngx_rbt_black(*root) */
    method BlackenRoot(ghost t: Shape)
      requires At(Top, t) && t.Fork? && root in cells
      modifies root`red
      ensures At(Top, Painted(t, false))
    {
      root.red := false;
      Paint(old(Snap(cells)), Snap(cells), root, Top, t, false, sentinel);
    }

    /** The end of the loop: the whole tree with a black root. */
    method Finish(ghost c: Ctx, ghost t: Shape)
      requires At(c, t) && Inserting(c, t) && Nodes(Painted(Plug(c, t), false)) <= cells
      modifies cells
      ensures At(Top, Painted(Plug(c, t), false))
      ensures SameKeys(old(Snap(cells)), Snap(cells))
      ensures sentinel in cells ==> sentinel.red == old(sentinel.red)
    {
      FocusTop(Snap(cells), root, c, t, sentinel);
      PlugNodes(c, t);
      BlackenRoot(Plug(c, t));
    }

    /** Re-balancing after a red leaf has been attached below `c`. */
    method Rebalance(node: Node, ghost c: Ctx)
      requires sentinel in cells && !sentinel.red && cells == Nodes(Plug(c, Nil)) + {sentinel, node}
      requires Rb(Plug(c, Nil)) && !Red(Plug(c, Nil))
      requires At(c, Fork(node, node.key, true, Nil, Nil))
      modifies this`root, this`shape, cells
      ensures ValidShape()
      ensures Nodes(shape) == Nodes(Plug(c, Nil)) + {node}
      ensures InOrder(shape) == InOrder(Plug(c, Fork(node, old(node.key), true, Nil, Nil)))
      ensures SameKeys(old(Snap(cells)), Snap(cells))
    {
      ghost var leaf := Fork(node, node.key, true, Nil, Nil);
      assert Inserting(c, leaf) by { RbUnplug(c, Nil); }
      shape := FixAndFinish(node, c, leaf);
    }

    method FixAndFinish(node: Node, ghost c: Ctx, ghost leaf: Shape) returns (ghost s: Shape)
      requires sentinel in cells && !sentinel.red && cells == Nodes(Plug(c, Nil)) + {sentinel, node}
      requires leaf.Fork? && leaf.left.Nil? && leaf.right.Nil? && leaf.node == node
      requires At(c, leaf) && Inserting(c, leaf)
      modifies this`root, cells
      ensures At(Top, s) && Rb(s) && !Red(s) && InOrder(s) == InOrder(Plug(c, leaf))
      ensures Nodes(s) == Nodes(Plug(c, Nil)) + {node} && !sentinel.red
      ensures SameKeys(old(Snap(cells)), Snap(cells))
    {
      ghost var c', t' := InsertFix(node, c, leaf);
      s := Painted(Plug(c', t'), false);
      InsertedShape(c, leaf, c', t');
      ghost var m := Snap(cells);
      Finish(c', t');
      KeptThenSame(old(Snap(cells)), m, Snap(cells), sentinel);
    }

    /** `ngx_rbtree_insert`.  The node goes after everything that is not greater, and
        the tree stays a red-black tree; `i` is its place in the order. */
    method Insert(node: Node, ghost r: int) returns (ghost i: nat)
      requires Valid() && node !in cells && Admits(node.key, r)
      modifies this, cells, node
      ensures Valid() && cells == old(cells) + {node} && rank == old(rank)[node := r]
      ensures i <= |old(InOrder(shape))|
      ensures InOrder(shape) == old(InOrder(shape)[..i]) + [node] + old(InOrder(shape)[i..])
      ensures AllLe(old(InOrder(shape)[..i]), old(rank), r) && AllGt(old(InOrder(shape)[i..]), old(rank), r)
    {
      if root == sentinel {
        InsertFirst(node, r);
        i := 0;
      } else {
        var temp, goLeft, c := FindPlace(node.key, r);
        i := |Before(c)|;
        InsertedSequence(c, node.key, rank, r, node);
        assert InOrder(shape)[..i] == Before(c) && InOrder(shape)[i..] == After(c);
        InsertBelow(temp, node, goLeft, c, r);
      }
    }

    /** The descent of `tree->insert`. */
    method FindPlace(key: Key, ghost r: int) returns (temp: Node, goLeft: bool, ghost c: Ctx)
      requires Valid() && shape.Fork? && Admits(key, r)
      ensures Place(c, r) && At(c, Nil) && c.node == temp && c.goLeft == goLeft
      ensures Nodes(shape) == Above(c)
    {
      if kind.InsertValue? {
        temp, goLeft, c := DescendByValue(root, key, r);
      } else {
        temp, goLeft, c := DescendByTimer(root, key, r);
      }
      PlugNodes(c, Nil);
    }

    /** Attaching the new red leaf below `c` and re-balancing: everything but the order. */
    method AttachAndBalance(temp: Node, node: Node, goLeft: bool, ghost c: Ctx)
      requires ValidShape() && Plug(c, Nil) == shape && Above(c) == Nodes(shape) && node !in cells
      requires At(c, Nil) && c.Down? && c.node == temp && c.goLeft == goLeft
      modifies this`root, this`shape, this`cells, cells, node
      ensures ValidShape() && cells == old(cells) + {node} && Nodes(shape) == old(Nodes(shape)) + {node}
      ensures InOrder(shape) == InOrder(Plug(c, Fork(node, old(node.key), true, Nil, Nil)))
      ensures SameKeys(old(Snap(cells)), Snap(cells)) && node.key == old(node.key)
    {
      Attach(temp, node, goLeft, c);
      cells := cells + {node};
      ghost var m := Snap(cells);
      Rebalance(node, c);
      SameKeysTrans(old(Snap(cells)), m, Snap(cells));
      assert m[node].key == Snap(cells)[node].key;
    }

    method InsertBelow(temp: Node, node: Node, goLeft: bool, ghost c: Ctx, ghost r: int)
      requires Valid() && node !in cells && Admits(node.key, r)
      requires Place(c, r) && Above(c) == Nodes(shape) && At(c, Nil) && c.node == temp && c.goLeft == goLeft
      modifies this, cells, node
      ensures Valid() && cells == old(cells) + {node} && rank == old(rank)[node := r]
      ensures InOrder(shape) == InOrder(Plug(c, Fork(node, old(node.key), true, Nil, Nil)))
    {
      ghost var m, key, live := Snap(cells), node.key, rank;
      rank := rank[node := r];
      AttachAndBalance(temp, node, goLeft, c);
      InsertedOrder(kind, m, Snap(cells), c, shape, key, live, r, node);
    }

    // ---- Deletion ----

    /** The first half of a deletion: `temp` takes the place of `subst` under its parent
        and gets the parent field `q`. */
    method Unlink(subst: Node, temp: Node, q: Node)
      requires {subst, temp} <= cells && subst.parent != null && subst.parent in cells && subst.parent != temp
      modifies cells
      ensures Snap(cells) == Unlinked(old(Snap(cells)), subst, temp, q)
    {
      if subst == subst.parent.left {
        subst.parent.left := temp;
      } else {
        subst.parent.right := temp;
      }
      temp.parent := q;
    }

    /** `subst` gets the links and the colour of `node`. */
    method CopyLinks(node: Node, subst: Node)
      requires {node, subst} <= cells
      modifies subst
      ensures var m := old(Snap(cells)); Snap(cells) == m[subst := m[node].(key := m[subst].key)]
    {
      subst.left := node.left;
      subst.right := node.right;
      subst.parent := node.parent;
      subst.red := node.red;
    }

    /** The children of `subst` get it as their parent. */
    method AdoptChildren(subst: Node)
      requires subst in cells && subst.left != null && subst.right != null
      requires {subst.left, subst.right} <= cells && subst !in {subst.left, subst.right}
      modifies cells
      ensures var m := old(Snap(cells)); Snap(cells).Keys == m.Keys && forall z :: z in m ==>
        Snap(cells)[z] == if z != sentinel && (z == m[subst].left || z == m[subst].right)
                          then m[z].(parent := subst) else m[z]
    {
      if subst.left != sentinel {
        subst.left.parent := subst;
      }
      if subst.right != sentinel {
        subst.right.parent := subst;
      }
    }

    /** The parent of `node` points to `subst` instead. */
    method Redirect(node: Node, subst: Node)
      requires node in cells && node.parent != null && node.parent in cells
      modifies node.parent
      ensures var m := old(Snap(cells)); var p := old(node.parent);
        Snap(cells) == m[p := m[p].SetChild(m[p].left == node, subst)]
    {
      if node == node.parent.left {
        node.parent.left := subst;
      } else {
        node.parent.right := subst;
      }
    }

    /** The second half: `subst` takes the place, the links and the colour of `node`. */
    method TakeOver(node: Node, subst: Node)
      requires CanTakeOver(Snap(cells), root, node, subst, sentinel)
      modifies this`root, cells
      ensures TakenOver(old(Snap(cells)), Snap(cells), old(root), node, subst, sentinel)
      ensures root == if node == old(root) then subst else old(root)
    {
      CopyLinks(node, subst);
      if node == root {
        root := subst;
      } else {
        Redirect(node, subst);
      }
      AdoptChildren(subst);
    }

    /** Memory holds the short subtree `t` in the context `c`. */
    ghost predicate ShortAt(c: Ctx, t: Shape)
      reads this, cells
    {
      Short(Snap(cells), root, c, t, sentinel)
    }

    method PaintNode(x: Node, red: bool)
      requires x in cells
      modifies x`red
      ensures Snap(cells) == PaintM(old(Snap(cells)), x, red)
    {
      x.red := red;
    }

    /** The colours before the last rotation: the sibling takes the parent's colour, the
        parent and the far child become black. */
    method PassColour(p: Node, w: Node, far: Node)
      requires {p, w, far} <= cells && far !in {p, w} && p != w
      modifies cells
      ensures var m := old(Snap(cells));
        Snap(cells) == PaintM(PaintM(PaintM(m, w, m[p].red), p, false), far, false)
    {
      PaintNode(w, p.red);
      PaintNode(p, false);
      PaintNode(far, false);
    }

    /** A red sibling on the right: swap its colour with the parent's and rotate left. */
    method RedSiblingLeft(temp: Node, w: Node, ghost c: Ctx, ghost t: Shape)
      requires ShortAt(c, t) && temp == Root(t, sentinel) && c.Down? && c.goLeft
      requires c.sibling.Fork? && c.sibling.node == w
      modifies this`root, cells
      ensures ShortAt(RedSibling(c), t) && Kept(old(Snap(cells)), Snap(cells), sentinel)
    {
      ShortFamily(Snap(cells), root, c, t, sentinel);
      RedSiblingPainted(Snap(cells), root, c, t, sentinel);
      w.red := false;
      temp.parent.red := true;
      assert Snap(cells) == RedSiblingMem(old(Snap(cells)), c);
      LeftRotate(temp.parent);
      RedSiblingFocus(old(Snap(cells)), Snap(cells), old(root), root, c, t, sentinel);
    }

    /** Only the near child of the sibling is red: rotate the sibling right. */
    method NearRedLeft(w: Node, ghost c: Ctx, ghost t: Shape)
      requires ShortAt(c, t) && c.Down? && c.goLeft
      requires c.sibling.Fork? && c.sibling.node == w && c.sibling.left.Fork?
      modifies this`root, cells
      ensures ShortAt(c.(sibling := NearRed(c)), t) && Kept(old(Snap(cells)), Snap(cells), sentinel)
    {
      ShortFamily(Snap(cells), root, c, t, sentinel);
      NearRedPainted(Snap(cells), root, c, t, sentinel);
      w.left.red := false;
      w.red := true;
      assert Snap(cells) == NearRedMem(old(Snap(cells)), c);
      RightRotate(w);
      NearRedFocus(old(Snap(cells)), Snap(cells), old(root), root, c, t, sentinel);
    }

    /** The far child of the sibling is red: recolour and rotate the parent left. */
    method FarRedLeft(temp: Node, w: Node, ghost c: Ctx, ghost t: Shape)
      requires ShortAt(c, t) && temp == Root(t, sentinel) && c.Down? && c.goLeft
      requires c.sibling.Fork? && c.sibling.node == w && c.sibling.right.Fork?
      modifies this`root, cells
      ensures ShortAt(Top, Plug(c.up, FarRed(c, t))) && Kept(old(Snap(cells)), Snap(cells), sentinel)
    {
      ShortFamily(Snap(cells), root, c, t, sentinel);
      FarRedPainted(Snap(cells), root, c, t, sentinel);
      PassColour(temp.parent, w, w.right);
      LeftRotate(temp.parent);
      FarRedFocus(old(Snap(cells)), Snap(cells), old(root), root, c, t, sentinel);
    }

    /** The sibling of a short left child, made black if it was red. */
    method BlackSiblingLeft(temp: Node, ghost c0: Ctx, ghost t: Shape) returns (w: Node, ghost c: Ctx)
      requires ShortAt(c0, t) && Deleting(c0, t) && !Red(t) && c0.Down? && c0.goLeft
      requires temp == Root(t, sentinel)
      modifies this`root, cells
      ensures ShortAt(c, t) && Deleting(c, t) && c.Down? && c.goLeft
      ensures c.sibling.Fork? && !c.sibling.red && c.sibling.node == w
      ensures c == c0 || (c0.sibling.Fork? && c == RedSibling(c0))
      ensures InOrder(Plug(c, t)) == InOrder(Plug(c0, t))
      ensures Kept(old(Snap(cells)), Snap(cells), sentinel)
    {
      c := c0;
      DeletingSibling(c, t);
      ShortFamily(Snap(cells), root, c, t, sentinel);
      w := temp.parent.right;
      if w.red {
        RedSiblingStep(c, t);
        RedSiblingLeft(temp, w, c, t);
        c := RedSibling(c);
        ShortFamily(Snap(cells), root, c, t, sentinel);
        w := temp.parent.right;
      }
    }

    /** One pass of the deletion loop when the short subtree is a left child. */
    method DeleteFixLeft(temp: Node, ghost c0: Ctx, ghost t: Shape)
      returns (next: Node, ghost c: Ctx, ghost t': Shape)
      requires ShortAt(c0, t) && Deleting(c0, t) && !Red(t) && c0.Down? && c0.goLeft
      requires temp == Root(t, sentinel)
      modifies this`root, cells
      ensures ShortAt(c, t') && Deleting(c, t') && next == Root(t', sentinel)
      ensures Debt(c, t') < Debt(c0, t) && InOrder(Plug(c, t')) == InOrder(Plug(c0, t))
      ensures Kept(old(Snap(cells)), Snap(cells), sentinel)
    {
      var w;
      w, c := BlackSiblingLeft(temp, c0, t);
      ShortFamily(Snap(cells), root, c, t, sentinel);
      if !w.left.red && !w.right.red {
        DebtAfterRotation(c0, c, t);
        next := temp.parent;
        t' := PaintSibling(w, c, t);
        c := c.up;
      } else {
        next, t' := LastRotationsLeft(temp, w, c, t);
        c := Top;
      }
    }

    /** The two rotations that end the deletion loop, on the left. */
    method LastRotationsLeft(temp: Node, w0: Node, ghost c0: Ctx, ghost t: Shape)
      returns (next: Node, ghost t': Shape)
      requires ShortAt(c0, t) && Deleting(c0, t) && !Red(t) && c0.Down? && c0.goLeft
      requires temp == Root(t, sentinel) && c0.sibling.Fork? && !c0.sibling.red && c0.sibling.node == w0
      requires Red(c0.sibling.left) || Red(c0.sibling.right)
      modifies this`root, cells
      ensures ShortAt(Top, t') && Deleting(Top, t') && next == Root(t', sentinel)
      ensures InOrder(t') == InOrder(Plug(c0, t))
      ensures Kept(old(Snap(cells)), Snap(cells), sentinel)
    {
      ghost var c := c0;
      var w := w0;
      ShortFamily(Snap(cells), root, c, t, sentinel);
      if !w.right.red {
        NearRedStep(c, t);
        NearRedLeft(w, c, t);
        c := c.(sibling := NearRed(c));
        ShortFamily(Snap(cells), root, c, t, sentinel);
        w := temp.parent.right;
      }
      FarRedStep(c, t);
      FarRedLeft(temp, w, c, t);
      t' := Plug(c.up, FarRed(c, t));
      next := root;
    }

    /** A red sibling on the left: swap its colour with the parent's and rotate right. */
    method RedSiblingRight(temp: Node, w: Node, ghost c: Ctx, ghost t: Shape)
      requires ShortAt(c, t) && temp == Root(t, sentinel) && c.Down? && !c.goLeft
      requires c.sibling.Fork? && c.sibling.node == w
      modifies this`root, cells
      ensures ShortAt(RedSibling(c), t) && Kept(old(Snap(cells)), Snap(cells), sentinel)
    {
      ShortFamily(Snap(cells), root, c, t, sentinel);
      RedSiblingPainted(Snap(cells), root, c, t, sentinel);
      w.red := false;
      temp.parent.red := true;
      assert Snap(cells) == RedSiblingMem(old(Snap(cells)), c);
      RightRotate(temp.parent);
      RedSiblingFocus(old(Snap(cells)), Snap(cells), old(root), root, c, t, sentinel);
    }

    /** Only the near child of the sibling is red: rotate the sibling left. */
    method NearRedRight(w: Node, ghost c: Ctx, ghost t: Shape)
      requires ShortAt(c, t) && c.Down? && !c.goLeft
      requires c.sibling.Fork? && c.sibling.node == w && c.sibling.right.Fork?
      modifies this`root, cells
      ensures ShortAt(c.(sibling := NearRed(c)), t) && Kept(old(Snap(cells)), Snap(cells), sentinel)
    {
      ShortFamily(Snap(cells), root, c, t, sentinel);
      NearRedPainted(Snap(cells), root, c, t, sentinel);
      w.right.red := false;
      w.red := true;
      assert Snap(cells) == NearRedMem(old(Snap(cells)), c);
      LeftRotate(w);
      NearRedFocus(old(Snap(cells)), Snap(cells), old(root), root, c, t, sentinel);
    }

    /** The far child of the sibling is red: recolour and rotate the parent right. */
    method FarRedRight(temp: Node, w: Node, ghost c: Ctx, ghost t: Shape)
      requires ShortAt(c, t) && temp == Root(t, sentinel) && c.Down? && !c.goLeft
      requires c.sibling.Fork? && c.sibling.node == w && c.sibling.left.Fork?
      modifies this`root, cells
      ensures ShortAt(Top, Plug(c.up, FarRed(c, t))) && Kept(old(Snap(cells)), Snap(cells), sentinel)
    {
      ShortFamily(Snap(cells), root, c, t, sentinel);
      FarRedPainted(Snap(cells), root, c, t, sentinel);
      PassColour(temp.parent, w, w.left);
      RightRotate(temp.parent);
      FarRedFocus(old(Snap(cells)), Snap(cells), old(root), root, c, t, sentinel);
    }

    /** The sibling of a short right child, made black if it was red. */
    method BlackSiblingRight(temp: Node, ghost c0: Ctx, ghost t: Shape) returns (w: Node, ghost c: Ctx)
      requires ShortAt(c0, t) && Deleting(c0, t) && !Red(t) && c0.Down? && !c0.goLeft
      requires temp == Root(t, sentinel)
      modifies this`root, cells
      ensures ShortAt(c, t) && Deleting(c, t) && c.Down? && !c.goLeft
      ensures c.sibling.Fork? && !c.sibling.red && c.sibling.node == w
      ensures c == c0 || (c0.sibling.Fork? && c == RedSibling(c0))
      ensures InOrder(Plug(c, t)) == InOrder(Plug(c0, t))
      ensures Kept(old(Snap(cells)), Snap(cells), sentinel)
    {
      c := c0;
      DeletingSibling(c, t);
      ShortFamily(Snap(cells), root, c, t, sentinel);
      w := temp.parent.left;
      if w.red {
        RedSiblingStep(c, t);
        RedSiblingRight(temp, w, c, t);
        c := RedSibling(c);
        ShortFamily(Snap(cells), root, c, t, sentinel);
        w := temp.parent.left;
      }
    }

    /** One pass of the deletion loop when the short subtree is a right child. */
    method DeleteFixRight(temp: Node, ghost c0: Ctx, ghost t: Shape)
      returns (next: Node, ghost c: Ctx, ghost t': Shape)
      requires ShortAt(c0, t) && Deleting(c0, t) && !Red(t) && c0.Down? && !c0.goLeft
      requires temp == Root(t, sentinel)
      modifies this`root, cells
      ensures ShortAt(c, t') && Deleting(c, t') && next == Root(t', sentinel)
      ensures Debt(c, t') < Debt(c0, t) && InOrder(Plug(c, t')) == InOrder(Plug(c0, t))
      ensures Kept(old(Snap(cells)), Snap(cells), sentinel)
    {
      var w;
      w, c := BlackSiblingRight(temp, c0, t);
      ShortFamily(Snap(cells), root, c, t, sentinel);
      if !w.left.red && !w.right.red {
        DebtAfterRotation(c0, c, t);
        next := temp.parent;
        t' := PaintSibling(w, c, t);
        c := c.up;
      } else {
        next, t' := LastRotationsRight(temp, w, c, t);
        c := Top;
      }
    }

    /** The two rotations that end the deletion loop, on the right. */
    method LastRotationsRight(temp: Node, w0: Node, ghost c0: Ctx, ghost t: Shape)
      returns (next: Node, ghost t': Shape)
      requires ShortAt(c0, t) && Deleting(c0, t) && !Red(t) && c0.Down? && !c0.goLeft
      requires temp == Root(t, sentinel) && c0.sibling.Fork? && !c0.sibling.red && c0.sibling.node == w0
      requires Red(c0.sibling.right) || Red(c0.sibling.left)
      modifies this`root, cells
      ensures ShortAt(Top, t') && Deleting(Top, t') && next == Root(t', sentinel)
      ensures InOrder(t') == InOrder(Plug(c0, t))
      ensures Kept(old(Snap(cells)), Snap(cells), sentinel)
    {
      ghost var c := c0;
      var w := w0;
      ShortFamily(Snap(cells), root, c, t, sentinel);
      if !w.left.red {
        NearRedStep(c, t);
        NearRedRight(w, c, t);
        c := c.(sibling := NearRed(c));
        ShortFamily(Snap(cells), root, c, t, sentinel);
        w := temp.parent.left;
      }
      FarRedStep(c, t);
      FarRedRight(temp, w, c, t);
      t' := Plug(c.up, FarRed(c, t));
      next := root;
    }

    /** A black sibling with black children becomes red. */
    method PaintSibling(w: Node, ghost c: Ctx, ghost t: Shape) returns (ghost t': Shape)
      requires ShortAt(c, t) && Deleting(c, t) && !Red(t) && c.Down? && c.sibling.Fork? && c.sibling.node == w
      requires !c.sibling.red && !Red(c.sibling.left) && !Red(c.sibling.right)
      modifies cells
      ensures t' == Fill(c.(sibling := c.sibling.(red := true)), t)
      ensures ShortAt(c.up, t') && Deleting(c.up, t')
      ensures InOrder(Plug(c.up, t')) == InOrder(Plug(c, t))
      ensures Kept(old(Snap(cells)), Snap(cells), sentinel)
    {
      ShortFamily(Snap(cells), root, c, t, sentinel);
      PaintSiblingStep(Snap(cells), root, c, t, sentinel);
      w.red := true;
      t' := Fill(c.(sibling := c.sibling.(red := true)), t);
      assert Snap(cells) == PaintM(old(Snap(cells)), w, true);
    }

    /** ngx_rbt_black(temp), where `temp` may be the sentinel. */
    method BlackenShort(temp: Node, ghost c: Ctx, ghost t: Shape)
      requires ShortAt(c, t) && temp == Root(t, sentinel) && temp in cells
      modifies temp`red
      ensures At(c, Painted(t, false)) && SameKeys(old(Snap(cells)), Snap(cells)) && !sentinel.red
    {
      temp.red := false;
      if t.Fork? {
        Paint(old(Snap(cells)), Snap(cells), root, c, t, false, sentinel);
      } else {
        assert Snap(cells) == old(Snap(cells));
      }
    }

    /** The fix-up loop of `ngx_rbtree_delete`. */
    method DeleteFix(start: Node, ghost c0: Ctx, ghost t0: Shape) returns (ghost s: Shape)
      requires ShortAt(c0, t0) && Deleting(c0, t0) && start == Root(t0, sentinel)
      modifies this`root, cells
      ensures At(Top, s) && Rb(s) && !Red(s) && InOrder(s) == InOrder(Plug(c0, t0))
      ensures SameKeys(old(Snap(cells)), Snap(cells)) && !sentinel.red
    {
      var temp := start;
      ghost var c, t := c0, t0;
      WhereShort(c, t);
      while temp != root && !temp.red
        invariant ShortAt(c, t) && Deleting(c, t) && temp == Root(t, sentinel)
        invariant InOrder(Plug(c, t)) == InOrder(Plug(c0, t0))
        invariant Kept(old(Snap(cells)), Snap(cells), sentinel)
        invariant temp in cells && temp.red == Red(t) && (temp == root <==> c.Top?)
        invariant c.Down? ==> temp.parent == c.node && (c.node.left == temp) == c.goLeft
        decreases Debt(c, t)
      {
        if temp == temp.parent.left {
          temp, c, t := DeleteFixLeft(temp, c, t);
        } else {
          temp, c, t := DeleteFixRight(temp, c, t);
        }
        WhereShort(c, t);
      }
      DeletingDone(c, t);
      PaintedInOrder(t, false);
      PlugSame(c, Painted(t, false), t);
      assert SameKeys(old(Snap(cells)), Snap(cells));
      BlackenShort(temp, c, t);
      FocusTop(Snap(cells), root, c, Painted(t, false), sentinel);
      s := Plug(c, Painted(t, false));
    }

    lemma {:induction false} WhereShort(c: Ctx, t: Shape)
      requires ShortAt(c, t) && Deleting(c, t)
      ensures var temp := Root(t, sentinel);
        && temp in cells && temp.red == Red(t) && (temp == root <==> c.Top?)
        && (c.Down? ==> temp.parent == c.node && (c.node.left == temp) == c.goLeft)
    {
      if c.Down? {
        DeletingSibling(c, t);
        ShortFamily(Snap(cells), root, c, t, sentinel);
      }
    }

    /** `ngx_rbtree_min` below the node in focus: the leftmost node `s` of `t0`. */
    method Min(start: Node, ghost c0: Ctx, ghost t0: Shape)
      returns (node: Node, ghost inner: Ctx, ghost s: Shape)
      requires At(c0, t0) && t0.Fork? && start == t0.node
      ensures Plug(inner, s) == t0 && s.Fork? && s.left.Nil? && s.node == node
      ensures At(Append(inner, c0), s) && Before(inner) == []
    {
      node := start;
      inner, s := Top, t0;
      while node.left != sentinel
        invariant Plug(inner, s) == t0 && s.Fork? && s.node == node && Before(inner) == []
        invariant At(Append(inner, c0), s)
        invariant node in cells && node.left == Root(s.left, sentinel)
        invariant sentinel !in Nodes(s)
        decreases s
      {
        FocusDown(Snap(cells), root, Append(inner, c0), s, true, sentinel);
        node := node.left;
        inner, s := Enter(inner, s, true), s.left;
      }
    }

    /** The "DEBUG stuff": the deleted node is cleared and no longer part of the tree. */
    method Discard(node: Node, ghost c: Ctx, ghost rest: Shape)
      requires At(c, rest) && node in cells && node != sentinel && node !in Nodes(rest) + Above(c)
      modifies this`cells, node
      ensures At(c, rest) && cells == old(cells) - {node} && Snap(cells) == old(Snap(cells)) - {node}
      ensures node.left == null && node.right == null && node.parent == null && node.key == 0
    {
      node.left := null;
      node.right := null;
      node.parent := null;
      node.key := 0;
      cells := cells - {node};
      FocusFrame(old(Snap(cells)), Snap(cells), root, c, rest, sentinel);
    }

    /** The end of a deletion: unless the node that left its place was red, the black
        heights are repaired. */
    method Repair(temp: Node, red: bool, ghost c: Ctx, ghost rest: Shape)
      requires At(c, rest) && cells == Nodes(rest) + Above(c) + {sentinel} && !sentinel.red
      requires temp == Root(rest, sentinel) && (c.Down? ==> temp.parent == c.node)
      requires red ==> Rb(rest) && RbAbove(c, BlackHeight(rest), Red(rest))
      requires !red ==> Deleting(c, rest)
      modifies this`root, this`shape, cells
      ensures ValidShape() && InOrder(shape) == InOrder(Plug(c, rest)) && Nodes(shape) == Nodes(rest) + Above(c)
      ensures SameKeys(old(Snap(cells)), Snap(cells))
    {
      PlugNodes(c, rest);
      if red {
        RbPlug(c, rest);
        FocusTop(Snap(cells), root, c, rest, sentinel);
        shape := Plug(c, rest);
      } else {
        ghost var s := DeleteFix(temp, c, rest);
        SameNodes(s, Plug(c, rest));
        shape := s;
      }
    }

    /** A node that has at most one child and a parent leaves the tree to that child. */
    method SpliceOut(node: Node, temp: Node, ghost c: Ctx, ghost t: Shape, ghost rest: Shape)
      requires At(c, t) && t.Fork? && t.node == node && c.Down? && sentinel in cells
      requires (t.left.Nil? && rest == t.right) || (t.right.Nil? && rest == t.left)
      requires temp == Root(rest, sentinel) && temp in cells && node in cells && node != sentinel
      modifies this`cells, cells
      ensures At(c, rest) && cells == old(cells) - {node} && temp.parent == c.node
      ensures SameKeys(old(Snap(cells)) - {node}, Snap(cells)) && sentinel.red == old(sentinel.red)
      ensures node.left == null && node.right == null && node.parent == null && node.key == 0
    {
      UnlinkFocus(Snap(cells), root, c, t, rest, sentinel);
      Unlink(node, temp, node.parent);
      Discard(node, c, rest);
    }

    /** Deletion of a node that has at most one child and a parent. */
    method DeleteSpliced(node: Node, temp: Node, ghost c: Ctx, ghost t: Shape, ghost rest: Shape)
      requires ValidShape() && At(c, t) && Plug(c, t) == shape && t.Fork? && t.node == node && c.Down?
      requires (t.left.Nil? && rest == t.right) || (t.right.Nil? && rest == t.left)
      requires temp == Root(rest, sentinel)
      modifies this`root, this`shape, this`cells, cells
      ensures ValidShape() && cells == old(cells) - {node} && InOrder(shape) == InOrder(Plug(c, rest))
      ensures SameKeys(old(Snap(cells)) - {node}, Snap(cells))
      ensures node.left == null && node.right == null && node.parent == null && node.key == 0
    {
      UnlinkFocus(Snap(cells), root, c, t, rest, sentinel);
      SplicedPlug(c, t, rest);
      var red := node.red;
      SpliceOut(node, temp, c, t, rest);
      ghost var m := Snap(cells);
      Repair(temp, red, c, rest);
      SameKeysTrans(old(Snap(cells)) - {node}, m, Snap(cells));
    }

    /** The two halves of the deletion of a node with two children, before the repair. */
    method Substitute(node: Node, subst: Node, temp: Node, ghost c: Ctx, ghost t: Shape, ghost inner: Ctx,
        ghost s: Shape)
      requires At(c, t) && TwoChildren(t, inner, s) && t.node == node && s.node == subst
      requires temp == Root(s.right, sentinel) && sentinel in cells
      modifies this`root, cells
      ensures var full := Append(inner, Down(subst, s.key, t.red, false, t.left, c));
        At(full, s.right) && temp.parent == full.node
      ensures SameKeys(old(Snap(cells)), Snap(cells)) && sentinel.red == old(sentinel.red)
    {
      ghost var m, r := Snap(cells), root;
      UnlinkedAhead(m, r, c, t, inner, s, sentinel);
      Unlink(subst, temp, if subst.parent == node then subst else subst.parent);
      ghost var m1, m2 := Unlinked(m, subst, temp, m[subst].parent), Snap(cells);
      TakeOver(node, subst);
      TakeOverFocus(m1, m2, Snap(cells), r, root, c, t, inner, s, sentinel);
      ghost var full := Append(inner, Down(subst, s.key, t.red, false, t.left, c));
      TakenRest(m, m2, Snap(cells), r, root, node, subst, temp, full.node, full, s.right, sentinel);
    }

    /** Deletion of a node with two children, once the node to take its place is known. */
    method DeleteTakenOver(node: Node, subst: Node, temp: Node, ghost c: Ctx, ghost t: Shape, ghost inner: Ctx,
        ghost s: Shape)
      requires ValidShape() && At(c, t) && Plug(c, t) == shape && TwoChildren(t, inner, s)
      requires t.node == node && s.node == subst && subst in cells && subst.red == s.red
        && temp == Root(s.right, sentinel)
      modifies this`root, this`shape, this`cells, cells
      ensures ValidShape() && cells == old(cells) - {node}
      ensures InOrder(shape) == InOrder(Plug(Append(inner, Down(subst, s.key, t.red, false, t.left, c)), s.right))
      ensures SameKeys(old(Snap(cells)) - {node}, Snap(cells))
      ensures node.left == null && node.right == null && node.parent == null && node.key == 0
    {
      ghost var full := Append(inner, Down(subst, s.key, t.red, false, t.left, c));
      TwoChildrenColours(c, t, inner, s);
      TwoChildrenNodes(c, t, inner, s, sentinel);
      var red := subst.red;
      SubstituteAndDiscard(node, subst, temp, c, t, inner, s);
      ghost var m := Snap(cells);
      Repair(temp, red, full, s.right);
      SameKeysTrans(old(Snap(cells)) - {node}, m, Snap(cells));
    }

    method SubstituteAndDiscard(node: Node, subst: Node, temp: Node, ghost c: Ctx, ghost t: Shape, ghost inner: Ctx,
        ghost s: Shape)
      requires At(c, t) && TwoChildren(t, inner, s) && t.node == node && s.node == subst && node in cells
        && node != sentinel
      requires temp == Root(s.right, sentinel) && sentinel in cells && temp in cells
      requires node !in Nodes(s.right) + Above(Append(inner, Down(subst, s.key, t.red, false, t.left, c)))
      requires temp != node
      modifies this`root, this`cells, cells
      ensures var full := Append(inner, Down(subst, s.key, t.red, false, t.left, c));
        At(full, s.right) && temp.parent == full.node
      ensures cells == old(cells) - {node} && SameKeys(old(Snap(cells)) - {node}, Snap(cells))
        && sentinel.red == old(sentinel.red)
      ensures node.left == null && node.right == null && node.parent == null && node.key == 0
    {
      Substitute(node, subst, temp, c, t, inner, s);
      Discard(node, Append(inner, Down(subst, s.key, t.red, false, t.left, c)), s.right);
    }

    /** Deletion of a node with two children: the next node in order takes its place. */
    method DeleteSubstituted(node: Node, ghost c: Ctx, ghost t: Shape) returns (ghost i: nat)
      requires ValidShape() && At(c, t) && Plug(c, t) == shape && t.Fork? && t.node == node
      requires t.left.Fork? && t.right.Fork?
      modifies this`root, this`shape, this`cells, cells
      ensures ValidShape() && cells == old(cells) - {node}
      ensures Removed(old(InOrder(shape)), InOrder(shape), node, i)
      ensures SameKeys(old(Snap(cells)) - {node}, Snap(cells))
      ensures node.left == null && node.right == null && node.parent == null && node.key == 0
    {
      FocusDown(Snap(cells), root, c, t, false, sentinel);
      var subst, inner, s := Min(node.right, Enter(c, t, false), t.right);
      i := |Before(c)| + |InOrder(t.left)|;
      ghost var order := InOrder(Plug(Append(inner, Down(subst, s.key, t.red, false, t.left, c)), s.right));
      assert Removed(InOrder(shape), order, node, i) by {
        ReplacedOrder(c, t, inner, s, Down(subst, s.key, t.red, false, t.left, c));
      }
      var l, r := subst.left, subst.right;
      var temp := if l != sentinel then l else r;
      DeleteTakenOver(node, subst, temp, c, t, inner, s);
    }

    /** Deletion of the root when it has at most one child. */
    method DeleteRoot(node: Node, temp: Node, ghost t: Shape, ghost rest: Shape)
      requires ValidShape() && At(Top, t) && t == shape && t.Fork? && t.node == node
      requires (t.left.Nil? && rest == t.right) || (t.right.Nil? && rest == t.left)
      requires temp == Root(rest, sentinel)
      modifies this`root, this`shape, this`cells, cells
      ensures ValidShape() && cells == old(cells) - {node} && InOrder(shape) == InOrder(rest)
      ensures SameKeys(old(Snap(cells)) - {node}, Snap(cells))
      ensures node.left == null && node.right == null && node.parent == null && node.key == 0
    {
      RootGone(t, rest);
      RootGoneNodes(t, rest);
      Promote(node, temp, t, rest);
      shape := Painted(rest, false);
      Discard(node, Top, shape);
    }

    /** The only child of the root becomes the root, and black. */
    method Promote(node: Node, temp: Node, ghost t: Shape, ghost rest: Shape)
      requires At(Top, t) && t.Fork? && t.node == node && sentinel in cells
      requires (t.left.Nil? && rest == t.right) || (t.right.Nil? && rest == t.left)
      requires temp == Root(rest, sentinel) && temp in cells && !sentinel.red
      modifies this`root, temp`red
      ensures At(Top, Painted(rest, false)) && SameKeys(old(Snap(cells)), Snap(cells)) && !sentinel.red
    {
      FocusDown(Snap(cells), root, Top, t, rest == t.left, sentinel);
      root := temp;
      BlackenShort(temp, Top, rest);
    }

    /** Everything about a deletion but the order. */
    method Remove(node: Node) returns (ghost i: nat)
      requires ValidShape() && node in Nodes(shape)
      modifies this`root, this`shape, this`cells, cells
      ensures ValidShape() && cells == old(cells) - {node}
      ensures Removed(old(InOrder(shape)), InOrder(shape), node, i)
      ensures SameKeys(old(Snap(cells)) - {node}, Snap(cells))
      ensures node.left == null && node.right == null && node.parent == null && node.key == 0
    {
      ghost var c, t := Locate(shape, node);
      LookAt(c, t);
      if node.left == sentinel || node.right == sentinel {
        var temp := if node.left == sentinel then node.right else node.left;
        ghost var rest := if node.left == sentinel then t.right else t.left;
        SplicedOrder(c, t, rest);
        i := |Before(c)| + |InOrder(t.left)|;
        if node == root {
          DeleteRoot(node, temp, t, rest);
        } else {
          DeleteSpliced(node, temp, c, t, rest);
        }
      } else {
        i := DeleteSubstituted(node, c, t);
      }
    }

    lemma {:induction false} LookAt(c: Ctx, t: Shape)
      requires ValidShape() && Plug(c, t) == shape && t.Fork?
      ensures At(c, t) && t.node in cells && (t.node == root <==> c.Top?)
      ensures t.node.left == Root(t.left, sentinel) && t.node.right == Root(t.right, sentinel)
      ensures (t.left.Nil? <==> t.node.left == sentinel) && (t.right.Nil? <==> t.node.right == sentinel)
    {
      FocusInto(Snap(cells), root, c, Top, t, sentinel);
      AppendTop(c);
      WhereRoot(c, t);
    }

    lemma {:induction false} WhereRoot(c: Ctx, t: Shape)
      requires At(c, t) && t.Fork?
      ensures t.node in cells && (t.node == root <==> c.Top?)
      ensures t.node.left == Root(t.left, sentinel) && t.node.right == Root(t.right, sentinel)
      ensures (t.left.Nil? <==> t.node.left == sentinel) && (t.right.Nil? <==> t.node.right == sentinel)
    {
      if c.Down? { TopNodeAbove(c, t.node); }
      assert t.left.Fork? ==> t.left.node in Nodes(t);
      assert t.right.Fork? ==> t.right.node in Nodes(t);
    }

    /** `ngx_rbtree_delete`.  Exactly the given node leaves the order, and the rest stays
        a red-black tree; `i` was its place. */
    method Delete(node: Node) returns (ghost i: nat)
      requires Valid() && node in Nodes(shape)
      modifies this, cells
      ensures Valid() && cells == old(cells) - {node} && rank == old(rank) - {node}
      ensures Removed(old(InOrder(shape)), InOrder(shape), node, i)
      ensures node.left == null && node.right == null && node.parent == null && node.key == 0
    {
      ghost var m, s, live := Snap(cells), shape, rank;
      rank := rank - {node};
      i := Remove(node);
      RemovedOrder(kind, m, Snap(cells), s, shape, live, node, i);
    }

    // ---- Walking ----

    /** `ngx_rbtree_next`: the node after the `i`-th one, or none after the last. */
    method Next(start: Node, ghost i: nat) returns (r: Node?)
      requires ValidShape() && i < |InOrder(shape)| && InOrder(shape)[i] == start
      ensures i + 1 < |InOrder(shape)| ==> r == InOrder(shape)[i + 1]
      ensures i + 1 == |InOrder(shape)| ==> r == null
    {
      ghost var c, t := LocateAt(shape, i);
      LookAt(c, t);
      PlugInOrder(c, t);
      if start.right != sentinel {
        FocusDown(Snap(cells), root, c, t, false, sentinel);
        ghost var inner, s;
        r, inner, s := Min(start.right, Enter(c, t, false), t.right);
        PlugInOrder(inner, s);
        assert InOrder(t.right)[0] == r;
        return;
      }
      r := NextAbove(start, i, c, t);
    }

    /** The climb of `ngx_rbtree_next` from a node without a right child. */
    method NextAbove(start: Node, ghost i: nat, ghost c0: Ctx, ghost t0: Shape) returns (r: Node?)
      requires At(c0, t0) && t0.Fork? && t0.node == start && Plug(c0, t0) == shape
      requires i + 1 == |Before(c0)| + |InOrder(t0)|
      ensures i + 1 < |InOrder(shape)| ==> r == InOrder(shape)[i + 1]
      ensures i + 1 == |InOrder(shape)| ==> r == null
    {
      var node := start;
      ghost var c, t := c0, t0;
      while true
        invariant At(c, t) && t.Fork? && t.node == node && Plug(c, t) == shape
        invariant i + 1 == |Before(c)| + |InOrder(t)|
        decreases c
      {
        WhereRoot(c, t);
        PlugInOrder(c, t);
        if node == root { return null; }
        Family(Snap(cells), root, c, t, sentinel);
        var parent := node.parent;
        if node == parent.left { return parent; }
        FocusUp(Snap(cells), root, c, t, sentinel);
        t, c := Fill(c, t), c.up;
        node := parent;
      }
    }

    /** From the leftmost node on, stepping to the next node until there is none lists
        every node once, in order. */
    method Walk() returns (nodes: seq<Node>)
      requires ValidShape()
      ensures nodes == InOrder(shape)
    {
      var x := First();
      ghost var all := InOrder(shape);
      nodes := [];
      while x != null
        invariant nodes <= all && x == if |nodes| < |all| then all[|nodes|] else null
        decreases |all| - |nodes|
      {
        ghost var k := |nodes|;
        nodes := nodes + [x];
        assert all[..k] + [x] == all[..k + 1];
        x := Next(x, k);
      }
    }

    /** The leftmost node, or none. */
    method First() returns (node: Node?)
      requires ValidShape()
      ensures node == if InOrder(shape) == [] then null else InOrder(shape)[0]
    {
      if root == sentinel { return null; }
      LookAt(Top, shape);
      ghost var inner, s;
      node, inner, s := Min(root, Top, shape);
      PlugInOrder(inner, s);
    }

    /** The node with the least rank, or none. */
    method Earliest() returns (node: Node?)
      requires Valid()
      ensures node == null <==> rank == map[]
      ensures node != null ==> InOrder(shape) != [] && node == InOrder(shape)[0] && node in rank && node in cells
      ensures node != null ==> node.key == Snap(cells)[node].key && Keyed(kind, node.key, rank[node])
      ensures forall x :: x in rank ==> node != null && node in rank && rank[node] <= rank[x]
    {
      node := First();
      if shape.Fork? { FirstIsLeast(kind, Snap(cells), shape, rank); }
    }

    /** `ngx_event_find_timer`: how long to wait for the earliest deadline, at time `t`. */
    method FindTimer(now: Word, ghost t: int) returns (wait: Word)
      requires Valid() && kind.InsertTimerValue? && now == t % W64
      requires forall x :: x in rank ==> -HALF64 < rank[x] - t < HALF64
      ensures rank == map[] ==> wait == INFINITE
      ensures rank != map[] ==> exists x :: x in rank && wait == Due(rank[x], t)
      ensures rank != map[] ==> forall x :: x in rank ==> wait <= Due(rank[x], t)
    {
      var node := Earliest();
      if node == null { return INFINITE; }
      TimerGap(rank[node], t);
      var timer := Signed(Wrap(node.key - now));
      wait := if timer > 0 then timer else 0;
    }

    static ghost function Due(deadline: int, t: int): int { if deadline > t then deadline - t else 0 }

    /** Every path from the root is at most twice as long as the logarithm of the number of
        nodes with the sentinel. */
    lemma {:induction false} Shallow()
      requires ValidShape()
      ensures Pow2(Height(shape)) <= |cells| * |cells|
    {
      HeightBound(shape);
      SizeNodes(shape);
      SizeInOrder(shape);
      assert cells - {sentinel} == Nodes(shape);
    }
  }
}
