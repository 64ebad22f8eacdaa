/** The height of a red-black tree. */
module RbHeight {
  import opened Bits
  import opened RbShape
  import opened RbBalance

  function Height(t: Shape): nat {
    if t.Nil? then 0
    else 1 + if Height(t.left) > Height(t.right) then Height(t.left) else Height(t.right)
  }

  function Size(t: Shape): nat {
    if t.Nil? then 0 else Size(t.left) + 1 + Size(t.right)
  }

  lemma {:induction false} RbBounds(t: Shape)
    requires Rb(t)
    ensures Height(t) <= 2 * BlackHeight(t) + (if Red(t) then 1 else 0)
    ensures Pow2(BlackHeight(t)) <= Size(t) + 1
  {
    if t.Fork? {
      RbBounds(t.left);
      RbBounds(t.right);
    }
  }

  lemma {:induction false} SquareMono(k: nat, n: nat)
    requires k <= n
    ensures k * k <= n * n
  {
  }

  /** 2^height <= (n + 1)^2, that is height <= 2 * log2(n + 1). */
  lemma {:induction false} HeightBound(t: Shape)
    requires Rb(t) && !Red(t)
    ensures var n := |InOrder(t)| + 1; Pow2(Height(t)) <= n * n
  {
    RbBounds(t);
    SizeInOrder(t);
    var b, n := BlackHeight(t), Size(t) + 1;
    Pow2Mono(Height(t), b + b);
    Pow2Add(b, b);
    SquareMono(Pow2(b), n);
  }

  lemma {:induction false} SizeInOrder(t: Shape)
    ensures Size(t) == |InOrder(t)|
  {
    if t.Fork? {
      SizeInOrder(t.left);
      SizeInOrder(t.right);
    }
  }

  lemma {:induction false} SizeNodes(t: Shape)
    requires Distinct(t)
    ensures Size(t) == |Nodes(t)|
  {
    if t.Fork? {
      SizeNodes(t.left);
      SizeNodes(t.right);
      assert |Nodes(t.left) + {t.node}| == Size(t.left) + 1;
      assert Nodes(t) == (Nodes(t.left) + {t.node}) + Nodes(t.right);
    }
  }
}
