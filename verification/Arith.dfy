/** Multiples. */
module Arith {

  lemma {:induction false} MultipleOrder(j: nat, k: nat, size: nat)
    requires j < k
    ensures j * size + size <= k * size
  {
    assert k * size == j * size + size + (k - j - 1) * size;
    assert (k - j - 1) * size >= 0;
  }

  lemma {:induction false} MultipleMod(k: nat, size: nat)
    requires size > 0
    ensures k * size / size == k && k * size % size == 0
  {
    var q, r := k * size / size, k * size % size;
    assert k * size == q * size + r;
    if q < k { MultipleOrder(q, k, size); }
    if k < q { MultipleOrder(k, q, size); }
  }
}
