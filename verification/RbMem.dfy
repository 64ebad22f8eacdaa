/** Red-black tree nodes as they lie in memory, and the rotations of ngx_rbtree.c. */
module RbMem {
  import opened Words

  /** ngx_rbtree_key_t */
  type Key = Word

  /** ngx_rbtree_node_t */
  class Node {
    var key: Key
    var left: Node?
    var right: Node?
    var parent: Node?
    var red: bool

    constructor (key: Key)
      ensures this.key == key
    {
      this.key := key;
      left, right, parent, red := null, null, null, false;
    }
  }

  /** The fields of one node. */
  datatype Cell = Cell(key: Key, left: Node?, right: Node?, parent: Node?, red: bool) {
    function Child(goLeft: bool): Node? { if goLeft then left else right }
    function SetChild(goLeft: bool, x: Node?): Cell {
      if goLeft then this.(left := x) else this.(right := x)
    }
  }

  /** A snapshot of the fields of a set of nodes. */
  type Mem = map<Node, Cell>

  ghost function Snap(nodes: set<Node>): Mem
    reads nodes
  {
    map x | x in nodes :: if x in nodes then Cell(x.key, x.left, x.right, x.parent, x.red) else NONE
  }

  /** Stands for the fields of a node that is not in a snapshot. */
  const NONE := Cell(0, null, null, null, false)

  /** The fields a rotation at `x` towards side `d` reads are where it expects them:
      `y` is the child on the other side, and unless `x` is the root its parent
      holds it on exactly one side. */
  ghost predicate CanRotate(m: Mem, root: Node, x: Node, y: Node, d: bool, nil: Node) {
    && x in m && y in m && x != y && nil !in {x, y}
    && m[x].Child(!d) == y
    && (var b := m[y].Child(d); b != null && (b == nil || (b in m && b != x && b != y)))
    && (x != root ==>
          var p := m[x].parent;
          && p != null && p in m && p != x && p != y && p != nil && p != m[y].Child(d)
          && (m[p].left == x) != (m[p].right == x))
  }

  /** The fields of `z` after the rotation. */
  ghost function RotatedCell(m: Mem, root: Node, x: Node, y: Node, d: bool, nil: Node, z: Node): Cell
    requires CanRotate(m, root, x, y, d, nil) && z in m
  {
    if z == x then m[x].SetChild(!d, m[y].Child(d)).(parent := y)
    else if z == y then m[y].SetChild(d, x).(parent := m[x].parent)
    else if z == m[y].Child(d) && z != nil then m[z].(parent := x)
    else if x != root && z == m[x].parent then m[z].SetChild(m[z].left == x, y)
    else m[z]
  }

  ghost predicate Rotated(m: Mem, m': Mem, root: Node, x: Node, y: Node, d: bool, nil: Node)
    requires CanRotate(m, root, x, y, d, nil)
  {
    m'.Keys == m.Keys && forall z :: z in m ==> m'[z] == RotatedCell(m, root, x, y, d, nil, z)
  }

  /** Colouring one node. */
  ghost function PaintM(m: Mem, x: Node, red: bool): Mem
    requires x in m
  {
    m[x := m[x].(red := red)]
  }

  /** Keys stay, and the sentinel is not touched. */
  ghost predicate Kept(m: Mem, m': Mem, nil: Node) {
    && m'.Keys == m.Keys
    && (nil in m ==> m'[nil] == m[nil])
    && forall z :: z in m ==> m'[z].key == m[z].key
  }

  // ---- Memory after the two halves of a deletion ----

  /** `x` loses its place to `y` under its parent, and `y` gets the parent field `q`. */
  ghost function Unlinked(m: Mem, x: Node, y: Node, q: Node): Mem
    requires x in m && y in m && m[x].parent != null && m[x].parent in m
  {
    var p := m[x].parent;
    var m1 := m[p := m[p].SetChild(m[p].left == x, y)];
    m1[y := m1[y].(parent := q)]
  }

  /** The links the second half of a deletion follows: `x` has two children, and its
      parent holds it on exactly one side. */
  ghost predicate CanTakeOver(m: Mem, root: Node, x: Node, s: Node, nil: Node) {
    && x in m && s in m && nil in m && x != s && nil !in {x, s}
    && (var l, r := m[x].left, m[x].right;
        && l != null && r != null && l in m && r in m && l != r
        && l != x && l != s && r != x && r != s)
    && (x != root ==>
          var p := m[x].parent;
          && p != null && p in m && p !in {x, s, nil} && p != m[x].left && p != m[x].right
          && (m[p].left == x) != (m[p].right == x))
  }

  /** The fields of `z` after `s` has taken the place, the links and the colour of `x`. */
  ghost function TakenCell(m: Mem, root: Node, x: Node, s: Node, nil: Node, z: Node): Cell
    requires CanTakeOver(m, root, x, s, nil) && z in m
  {
    if z == s then m[x].(key := m[s].key)
    else if z != nil && (z == m[x].left || z == m[x].right) then m[z].(parent := s)
    else if x != root && z == m[x].parent then m[z].SetChild(m[z].left == x, s)
    else m[z]
  }

  ghost predicate TakenOver(m: Mem, m': Mem, root: Node, x: Node, s: Node, nil: Node)
    requires CanTakeOver(m, root, x, s, nil)
  {
    m'.Keys == m.Keys && forall z :: z in m ==> m'[z] == TakenCell(m, root, x, s, nil, z)
  }
}
