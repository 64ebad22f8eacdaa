/** The radix tree of ngx_radix_tree.c for 32-bit keys: a map from prefixes to values. */
module RadixTree {
  import opened Words
  import opened Bits
  import opened RadixTrie

  // ---- Keys and masks ----

  type Word32 = w: nat | w < 0x1_0000_0000

  /** The bit under test after `d` steps: 0x80000000 >> d. */
  function Top(d: nat): Word32 {
    if d == 0 then 0x80000000 else Top(d - 1) / 2
  }

  /** key & bit, for a word `bit` with at most one bit set */
  predicate Test(key: Word32, bit: Word32) { bit != 0 && key / bit % 2 == 1 }

  predicate KeyBit(key: Word32, d: nat) { Test(key, Top(d)) }

  /** The first `k` bits of a key. */
  function Prefix(key: Word32, k: nat): (p: Path)
    ensures |p| == k
  {
    if k == 0 then [] else Prefix(key, k - 1) + [KeyBit(key, k - 1)]
  }

  lemma {:induction false} TopEnds()
    ensures Top(32) == 0
  {
    assert Top(8) == 0x800000;
    assert Top(16) == 0x8000;
    assert Top(24) == 0x80;
  }

  /** The number of ones a mask starts with. */
  function Lead(mask: Word32): nat { LeadFrom(mask, 0) }

  function LeadFrom(mask: Word32, d: nat): (k: nat)
    requires d <= MAX_LENGTH
    ensures d <= k <= MAX_LENGTH
    decreases MAX_LENGTH - d
  {
    if d < MAX_LENGTH && KeyBit(mask, d) then LeadFrom(mask, d + 1) else d
  }

  lemma {:induction false} LeadFromOnes(mask: Word32, d: nat)
    requires d <= MAX_LENGTH
    ensures forall i :: d <= i < LeadFrom(mask, d) ==> KeyBit(mask, i)
    ensures !KeyBit(mask, LeadFrom(mask, d))
    decreases MAX_LENGTH - d
  {
    TopEnds();
    if d < MAX_LENGTH && KeyBit(mask, d) { LeadFromOnes(mask, d + 1); }
  }

  /** The bits of a mask before the first zero, and only those, are ones. */
  lemma {:induction false} LeadOnes(mask: Word32, d: nat)
    requires d <= Lead(mask)
    ensures KeyBit(mask, d) <==> d < Lead(mask)
  {
    LeadFromOnes(mask, 0);
  }

  /** Where a prefix has no node no longer one has. */
  lemma {:induction false} NoLonger(nodes: seq<Cell>, at: Places, key: Word32, k: nat, j: nat)
    requires Trie(nodes, at) && k <= j && Prefix(key, k) !in at
    ensures Prefix(key, j) !in at
  {
    if k < j {
      NoLonger(nodes, at, key, k, j - 1);
      if Prefix(key, j) in at { ParentPlace(nodes, at, Prefix(key, j - 1), KeyBit(key, j - 1)); }
    }
  }

  /** `v` is what is stored for the longest of the first `k` + 1 prefixes of `key` that
      has a value. */
  ghost predicate Longest(nodes: seq<Cell>, at: Places, key: Word32, k: nat, v: Word) {
    if Stored(nodes, at, Prefix(key, k)).Some? then v == Stored(nodes, at, Prefix(key, k)).value
    else if k == 0 then v == NO_VALUE
    else Longest(nodes, at, key, k - 1, v)
  }

  /** The longest match before prefix `d` is looked at. */
  ghost predicate LongestBefore(nodes: seq<Cell>, at: Places, key: Word32, d: nat, v: Word) {
    if d == 0 then v == NO_VALUE else Longest(nodes, at, key, d - 1, v)
  }

  lemma {:induction false} LongestStep(nodes: seq<Cell>, at: Places, key: Word32, d: nat, v: Word, x: int)
    requires LongestBefore(nodes, at, key, d, v) && Prefix(key, d) in at && at[Prefix(key, d)] == x && 0 <= x < |nodes|
    ensures Longest(nodes, at, key, d, if nodes[x].value != NO_VALUE then nodes[x].value else v)
  {
  }

  /** Prefix `j` of the key has the value `v`, and of the ones up to `k` none longer has a value. */
  ghost predicate Best(nodes: seq<Cell>, at: Places, key: Word32, k: nat, j: nat, v: Word) {
    j <= k && Stored(nodes, at, Prefix(key, j)) == Some(v) && forall i :: j < i <= k ==>
      Stored(nodes, at, Prefix(key, i)) == None
  }

  /** Longest match, stated outright. */
  lemma {:induction false} LongestMeans(nodes: seq<Cell>, at: Places, key: Word32, k: nat, v: Word)
    requires Longest(nodes, at, key, k, v)
    ensures v == NO_VALUE ==> forall j :: 0 <= j <= k ==> Stored(nodes, at, Prefix(key, j)) == None
    ensures v != NO_VALUE ==> exists j :: Best(nodes, at, key, k, j, v)
  {
    if Stored(nodes, at, Prefix(key, k)).Some? {
      assert Best(nodes, at, key, k, k, v);
    } else if k > 0 {
      LongestMeans(nodes, at, key, k - 1, v);
      if v != NO_VALUE {
        var j :| Best(nodes, at, key, k - 1, j, v);
        assert Best(nodes, at, key, k, j, v);
      }
    }
  }

  /** Prefixes without a node add nothing. */
  lemma {:induction false} LongestStops(nodes: seq<Cell>, at: Places, key: Word32, k: nat, j: nat, v: Word)
    requires Trie(nodes, at) && k < j && Prefix(key, k + 1) !in at && Longest(nodes, at, key, k, v)
    ensures Longest(nodes, at, key, j, v)
  {
    NoLonger(nodes, at, key, k + 1, j);
    if k + 1 < j { LongestStops(nodes, at, key, k, j - 1, v); }
  }

  // ---- Networks: what the bits mean of the numbers ----

  /** The addresses `a` and `b` agree in the first `k` of their 32 bits. */
  predicate SameNet(a: Word32, b: Word32, k: nat)
    requires k <= 32
  {
    a / Pow2(32 - k) == b / Pow2(32 - k)
  }

  lemma {:induction false} DivTwice(a: nat, m: nat)
    requires m > 0
    ensures a / m / 2 == a / (2 * m)
  {
    var q := a / m;
    assert a == q * m + a % m && q == q / 2 * 2 + q % 2;
    var rest := q % 2 * m + a % m;
    assert a == q / 2 * (2 * m) + rest && 0 <= rest < 2 * m;
    QuotientIs(a, 2 * m, q / 2, rest);
  }

  lemma {:induction false} QuotientIs(a: nat, m: nat, q: nat, rest: nat)
    requires m > 0 && a == q * m + rest && rest < m
    ensures a / m == q
  {
    var d := a / m - q;
    assert a == (q + d) * m + a % m;
    assert d * m == rest - a % m;
    Multiple(d, m);
  }

  lemma {:induction false} Multiple(d: int, m: nat)
    ensures (d >= 1 ==> d * m >= m) && (d <= -1 ==> d * m + m <= 0)
  {
  }

  lemma {:induction false} TopIs(d: nat)
    requires d <= 31
    ensures Top(d) == Pow2(31 - d)
  {
    if d == 0 {
      assert Pow2(31) == 2 * Pow2(30) && Pow2(32) == 2 * Pow2(31);
      Pow2Values();
    } else {
      TopIs(d - 1);
    }
  }

  /** Bit `k` of a key, counted from the left, is the last of its first `k + 1`. */
  lemma {:induction false} BitIs(key: Word32, k: nat)
    requires k <= 31
    ensures KeyBit(key, k) <==> key / Pow2(31 - k) % 2 == 1
    ensures key / Pow2(32 - k) == key / Pow2(31 - k) / 2
  {
    TopIs(k);
    DivTwice(key, Pow2(31 - k));
  }

  lemma {:induction false} NoBits(key: Word32)
    ensures key / Pow2(32) == 0
  {
    Pow2Values();
  }

  /** Keys have the same prefix exactly if they are in the same network. */
  lemma {:induction false} PrefixIsNet(a: Word32, b: Word32, k: nat)
    requires k <= 32
    ensures Prefix(a, k) == Prefix(b, k) <==> SameNet(a, b, k)
  {
    if k == 0 {
      NoBits(a);
      NoBits(b);
    } else {
      PrefixIsNet(a, b, k - 1);
      BitIs(a, k - 1);
      BitIs(b, k - 1);
      BitOrNot(Prefix(a, k - 1), KeyBit(a, k - 1), Prefix(b, k - 1), KeyBit(b, k - 1));
    }
  }

  lemma {:induction false} BitOrNot(p: Path, b: bool, q: Path, c: bool)
    ensures p + [b] == q + [c] <==> p == q && b == c
  {
    if p + [b] == q + [c] { BitOf(p, q, b, c); }
  }

  /** The mask of the first `k` bits. */
  function MaskOf(k: nat): int
    requires k <= 32
  {
    0x1_0000_0000 - Pow2(32 - k)
  }

  /** A word starts with `k` ones exactly if its first `k` bits are all that can be. */
  lemma {:induction false} OnesAre(mask: Word32, k: nat)
    requires k <= 32
    ensures (forall i :: 0 <= i < k ==> KeyBit(mask, i)) <==> mask / Pow2(32 - k) == Pow2(k) - 1
    ensures mask / Pow2(32 - k) <= Pow2(k) - 1
  {
    if k == 0 {
      NoBits(mask);
    } else {
      OnesAre(mask, k - 1);
      BitIs(mask, k - 1);
    }
  }

  lemma {:induction false} AtLeast(mask: Word32, k: nat)
    requires k <= 32
    ensures mask / Pow2(32 - k) == Pow2(k) - 1 <==> mask >= 0x1_0000_0000 - Pow2(32 - k)
  {
    Pow2Add(k, 32 - k);
    Pow32();
    LastQuotient(mask, Pow2(32 - k), Pow2(k), 0x1_0000_0000);
  }

  lemma {:induction false} Pow32()
    ensures Pow2(32) == 0x1_0000_0000
  {
    Pow2Values();
  }

  lemma {:induction false} LastQuotient(a: nat, m: nat, n: nat, all: nat)
    requires m > 0 && n > 0 && n * m == all && a < all
    ensures a / m == n - 1 <==> a >= all - m
  {
    assert a == a / m * m + a % m && (n - 1) * m == all - m;
    if a >= all - m { QuotientIs(a, m, n - 1, a - (all - m)); }
  }

  /** A mask covers `k` bits exactly if it is at least that of `k` bits. */
  lemma {:induction false} LeadIs(mask: Word32, k: nat)
    requires k <= 32
    ensures k <= Lead(mask) <==> mask >= MaskOf(k)
  {
    LeadFromOnes(mask, 0);
    OnesAre(mask, k);
    AtLeast(mask, k);
    if k <= Lead(mask) {
      forall i | 0 <= i < k ensures KeyBit(mask, i) { }
    } else {
      assert !KeyBit(mask, Lead(mask));
    }
  }

  /** The mask of `k` bits covers `k` bits. */
  lemma {:induction false} MaskLead(k: nat)
    requires k <= 32
    ensures 0 <= MaskOf(k) < 0x1_0000_0000 && Lead(MaskOf(k)) == k
  {
    Pow32();
    Pow2Mono(32 - k, 32);
    LeadIs(MaskOf(k), k);
    if k < 32 {
      assert Pow2(32 - k) == 2 * Pow2(31 - k);
      LeadIs(MaskOf(k), k + 1);
    }
  }

  /** What is stored for the network of the first `len` bits of `a`. */
  ghost function NetStored(nodes: seq<Cell>, at: Places, a: Word32,
      len: nat): Option { Stored(nodes, at, Prefix(a, len)) }

  /** Of all networks only that of the first `k` bits of `key` has changed, to `o`. */
  ghost predicate NetBut(n0: seq<Cell>, a0: Places, n1: seq<Cell>, a1: Places, key: Word32, k: nat, o: Option)
    requires k <= 32
  {
    forall a: Word32, len: nat {:trigger NetStored(n1, a1, a, len)} :: len <= 32 ==>
      NetStored(n1, a1, a, len) == if len == k && SameNet(a, key, k) then o else NetStored(n0, a0, a, len)
  }

  lemma {:induction false} NetButFrom(n0: seq<Cell>, a0: Places, n1: seq<Cell>, a1: Places, key: Word32, k: nat,
      o: Option)
    requires k <= 32 && StoredBut(n0, a0, n1, a1, Prefix(key, k), o)
    ensures NetBut(n0, a0, n1, a1, key, k, o)
  {
    forall a: Word32, len: nat | len <= 32
      ensures NetStored(n1, a1, a, len) == if len == k && SameNet(a, key, k) then o else NetStored(n0, a0, a, len)
    {
      if len == k { PrefixIsNet(a, key, k); } else { assert |Prefix(a, len)| != |Prefix(key, k)|; }
    }
  }

  /** No network longer than `len` bits that the key is in has a value. */
  ghost predicate NoneLonger(nodes: seq<Cell>, at: Places, key: Word32, len: int) {
    forall a: Word32, l: nat {:trigger NetStored(nodes, at, a, l)} :: len < l <= 32 && SameNet(a, key, l) ==>
      NetStored(nodes, at, a, l) == None
  }

  /** `v` is the value of the longest network with a value that the key is in. */
  ghost predicate LongestNet(nodes: seq<Cell>, at: Places, key: Word32, v: Word) {
    if v == NO_VALUE then NoneLonger(nodes, at, key, -1)
    else exists len: nat :: len <= 32 && NetStored(nodes, at, key, len) == Some(v) && NoneLonger(nodes, at, key, len)
  }

  lemma {:induction false} LongestIsNet(nodes: seq<Cell>, at: Places, key: Word32, v: Word)
    requires Longest(nodes, at, key, MAX_LENGTH, v)
    ensures LongestNet(nodes, at, key, v)
  {
    LongestMeans(nodes, at, key, MAX_LENGTH, v);
    forall a: Word32, l: nat | l <= 32 && SameNet(a, key, l)
      ensures NetStored(nodes, at, a, l) == NetStored(nodes, at, key, l) {
      PrefixIsNet(a, key, l);
    }
    if v != NO_VALUE {
      var j: nat :| Best(nodes, at, key, MAX_LENGTH, j, v);
      assert NetStored(nodes, at, key, j) == Some(v) && NoneLonger(nodes, at, key, j);
    }
  }

  // ---- The tree ----

  /** `NOPARENT`: the program follows a null pointer. */
  datatype Code = OK | BUSY | ERROR | NOPARENT

  class Tree {
    var nodes: seq<Cell>   // all nodes ever carved out of the pool
    var free: int
    var room: nat          // nodes the pool can still provide
    ghost var at: Places
    ghost var spare: seq<int>

    ghost predicate Valid()
      reads this
    {
      Trie(nodes, at) && Chain(spare, free, nodes) && Unused(at, spare)
    }

    /** Every leaf but the root has a value. */
    ghost predicate Lean()
      reads this
    {
      LeanBut(nodes, at, [])
    }

    ghost function Lookup(p: Path): Option
      reads this
    {
      Stored(nodes, at, p)
    }

    /** `ngx_radix_tree_create` without preallocation. */
    constructor (pool: nat)
      ensures Valid() && Lean() && room == pool && forall p :: Lookup(p) == None
    {
      nodes, free, room := [Cell(NULL, NULL, NULL, NO_VALUE)], NULL, pool;
      at, spare := map[[] := 0], [];
      new;
      assert NodeOk(nodes, at, []);
    }

    /** One step down from the node of a prefix of `key`. */
    lemma {:induction false} Below(key: Word32, d: nat)
      requires Valid() && Prefix(key, d) in at
      ensures d <= MAX_LENGTH && 0 <= at[Prefix(key, d)] < |nodes|
      ensures nodes[at[Prefix(key, d)]].Child(KeyBit(key, d)) == Place(at, Prefix(key, d + 1))
      ensures Prefix(key, d + 1) in at ==> d < MAX_LENGTH && 0 <= at[Prefix(key, d + 1)] < |nodes|
    {
      assert NodeOk(nodes, at, Prefix(key, d));
      if Prefix(key, d + 1) in at { assert NodeOk(nodes, at, Prefix(key, d + 1)); }
    }

    /** `ngx_radix32tree_find`: the value of the longest stored prefix of the key. */
    method Find(key: Word32) returns (value: Word)
      requires Valid()
      ensures Longest(nodes, at, key, MAX_LENGTH, value) && LongestNet(nodes, at, key, value)
    {
      var bit: Word32 := 0x80000000;
      value := NO_VALUE;
      var node := 0;
      ghost var d := 0;
      while node != NULL
        invariant d <= MAX_LENGTH + 1 && bit == Top(d)
        invariant node == Place(at, Prefix(key, d)) && (node != NULL ==> Prefix(key, d) in at)
        invariant LongestBefore(nodes, at, key, d, value) && (d == 0 ==> node == 0)
        decreases MAX_LENGTH + 1 - d
      {
        Below(key, d);
        LongestStep(nodes, at, key, d, value, node);
        if nodes[node].value != NO_VALUE { value := nodes[node].value; }
        if Test(key, bit) { node := nodes[node].right; } else { node := nodes[node].left; }
        bit := bit / 2;
        d := d + 1;
      }
      PlaceNull(nodes, at, Prefix(key, d));
      if d <= MAX_LENGTH { LongestStops(nodes, at, key, d - 1, MAX_LENGTH, value); }
      LongestIsNet(nodes, at, key, value);
    }

    /** `ngx_radix_alloc`: a spare node, or a new one from the pool. */
    method Allocate() returns (x: int)
      requires Valid()
      modifies this
      ensures Valid() && at == old(at) && SameStored(old(nodes), old(at), nodes, at)
      ensures x == NULL <==> old(free == NULL && room == 0)
      ensures x == NULL ==> unchanged(this)
      ensures x != NULL ==> 0 <= x < |nodes| && Spare(at, x) && x !in spare
      ensures |old(nodes)| <= |nodes| && nodes[..|old(nodes)|] == old(nodes)
    {
      if free != NULL {
        x := free;
        free := nodes[free].right;
        spare := spare[1..];
        return;
      }
      if room == 0 { return NULL; }
      x := |nodes|;
      room := room - 1;
      var more := nodes + [Cell(NULL, NULL, NULL, NO_VALUE)];
      ChainFrame(spare, free, nodes, more);
      TrieFrame(nodes, more, at);
      forall p | p in at ensures at[p] != x { assert NodeOk(nodes, at, p); }
      nodes := more;
    }

    /** The fields of a new node and the link to it. */
    method Link(key: Word32, bit: Word32, node: int, next: int)
      requires 0 <= node < |nodes| && 0 <= next < |nodes| && node != next
      modifies this`nodes
      ensures nodes == Hung(old(nodes), node, Test(key, bit), next)
    {
      nodes := nodes[next := Cell(NULL, NULL, node, NO_VALUE)];
      if Test(key, bit) {
        nodes := nodes[node := nodes[node].(right := next)];
      } else {
        nodes := nodes[node := nodes[node].(left := next)];
      }
    }

    /** A new node below the node of a prefix of `key`. */
    method Hang(key: Word32, bit: Word32, ghost d: nat, node: int) returns (next: int)
      requires Valid() && d < MAX_LENGTH && bit == Top(d) && Prefix(key, d) in at && at[Prefix(key, d)] == node
      requires Prefix(key, d + 1) !in at
      modifies this
      ensures Valid() && SameStored(old(nodes), old(at), nodes, at)
      ensures next == NULL ==> unchanged(this) && free == NULL && room == 0
      ensures next != NULL ==> at == old(at)[Prefix(key, d + 1) := next] && 0 <= next < |nodes|
      ensures next != NULL && old(LeanBut(nodes, at, Prefix(key, d))) ==> LeanBut(nodes, at, Prefix(key, d + 1))
    {
      next := Allocate();
      if next == NULL { return; }
      ghost var b, p, was := KeyBit(key, d), Prefix(key, d), nodes;
      HangTrie(nodes, at, p, b, next);
      HangSpare(nodes, at, spare, free, p, b, next);
      if old(LeanBut(nodes, at, Prefix(key, d))) {
        LeanFrame(old(nodes), nodes, at, p);
        HangLean(nodes, at, p, b, next);
      }
      Link(key, bit, node, next);
      at := at[p + [b] := next];
    }

    /** Down along the bits of the key that the mask covers, as far as there are nodes. */
    method WalkDown(key: Word32, mask: Word32) returns (bit: Word32, node: int, next: int, ghost d: nat)
      requires Valid()
      ensures d <= Lead(mask) && bit == Top(d) && Prefix(key, d) in at && at[Prefix(key, d)] == node
        && 0 <= node < |nodes|
      ensures next != NULL ==> d == Lead(mask)
      ensures next == NULL ==> d < Lead(mask) && Prefix(key, d + 1) !in at
    {
      bit, node, next, d := 0x80000000, 0, 0, 0;
      Below(key, 0);
      LeadOnes(mask, 0);
      while Test(mask, bit)
        invariant d <= Lead(mask) && bit == Top(d) && Prefix(key, d) in at && at[Prefix(key, d)] == node
          && 0 <= node < |nodes|
        invariant next != NULL && (Test(mask, bit) <==> d < Lead(mask))
        decreases MAX_LENGTH - d
      {
        Below(key, d);
        PlaceNull(nodes, at, Prefix(key, d + 1));
        if Test(key, bit) { next := nodes[node].right; } else { next := nodes[node].left; }
        if next == NULL { break; }
        bit := bit / 2;
        node := next;
        d := d + 1;
        LeadOnes(mask, d);
      }
    }

    /** A new node for one more bit. */
    method GrowOne(key: Word32, mask: Word32, bit: Word32, node: int, ghost d: nat) returns (next: int)
      requires Valid() && d < Lead(mask) && bit == Top(d) && Prefix(key, d) in at && at[Prefix(key, d)] == node
      requires Prefix(key, d + 1) !in at
      modifies this
      ensures Valid() && SameStored(old(nodes), old(at), nodes, at)
      ensures next == NULL ==> free == NULL && room == 0
      ensures next != NULL ==>
        && bit / 2 == Top(d + 1) && Prefix(key, d + 1) in at && at[Prefix(key, d + 1)] == next && 0 <= next < |nodes|
        && Prefix(key, d + 2) !in at && (Test(mask, bit / 2) <==> d + 1 < Lead(mask))
      ensures next != NULL && old(LeanBut(nodes, at, Prefix(key, d))) ==> LeanBut(nodes, at, Prefix(key, d + 1))
    {
      NoLonger(nodes, at, key, d + 1, d + 2);
      LeadOnes(mask, d + 1);
      next := Hang(key, bit, d, node);
    }

    /** New nodes for the rest of the bits that the mask covers. */
    method Grow(key: Word32, mask: Word32, bit0: Word32, node0: int, ghost d0: nat) returns (node: int)
      requires Valid() && d0 < Lead(mask) && bit0 == Top(d0) && Prefix(key, d0) in at && at[Prefix(key, d0)] == node0
      requires Prefix(key, d0 + 1) !in at
      modifies this
      ensures Valid() && SameStored(old(nodes), old(at), nodes, at)
      ensures node == NULL ==> free == NULL && room == 0
      ensures node != NULL ==>
        Prefix(key, Lead(mask)) in at && at[Prefix(key, Lead(mask))] == node
        && 0 <= node < |nodes|
      ensures node != NULL && old(LeanBut(nodes, at, Prefix(key, d0))) ==> LeanBut(nodes, at, Prefix(key, Lead(mask)))
    {
      var bit := bit0;
      node := node0;
      ghost var d := d0;
      LeadOnes(mask, d);
      while Test(mask, bit)
        invariant Valid() && SameStored(old(nodes), old(at), nodes, at)
        invariant d <= Lead(mask) && bit == Top(d) && Prefix(key, d) in at && at[Prefix(key, d)] == node
        invariant Prefix(key, d + 1) !in at && (Test(mask, bit) <==> d < Lead(mask))
        invariant old(LeanBut(nodes, at, Prefix(key, d0))) ==> LeanBut(nodes, at, Prefix(key, d))
        decreases MAX_LENGTH - d
      {
        ghost var n1, a1 := nodes, at;
        var next := GrowOne(key, mask, bit, node, d);
        SameThenSame(old(nodes), old(at), n1, a1, nodes, at);
        if next == NULL { return NULL; }
        bit := bit / 2;
        node := next;
        d := d + 1;
      }
      Below(key, d);
      PlaceNull(nodes, at, Prefix(key, d));
    }

    method SetValue(ghost p: Path, node: int, value: Word)
      requires Valid() && p in at && at[p] == node && 0 <= node < |nodes|
      modifies this`nodes
      ensures Valid() && StoredBut(old(nodes), at, nodes, at, p, AsOption(value))
      ensures old(LeanBut(nodes, at, p)) && value != NO_VALUE ==> Lean()
      ensures old(LeanBut(nodes, at, [])) && !old(Leaf(nodes, node)) ==> Lean()
    {
      ValueTrie(nodes, at, p, value);
      ValueRest(nodes, at, spare, free, p, value);
      nodes := nodes[node := nodes[node].(value := value)];
    }

    /** `ngx_radix32tree_insert`: the value is stored for the bits of the key that the mask
        covers, unless one is stored for them already. */
    method Insert(key: Word32, mask: Word32, value: Word) returns (code: Code)
      requires Valid()
      modifies this
      ensures Valid()
      ensures code == BUSY <==> old(Lookup(Prefix(key, Lead(mask)))).Some?
      ensures code == OK ==> NetBut(old(nodes), old(at), nodes, at, key, Lead(mask), AsOption(value))
      ensures code == BUSY ==> unchanged(this)
      ensures code == OK ==> StoredBut(old(nodes), old(at), nodes, at, Prefix(key, Lead(mask)), AsOption(value))
      ensures code == ERROR ==> SameStored(old(nodes), old(at), nodes, at) && free == NULL && room == 0
      ensures code == OK && value != NO_VALUE && old(Lean()) ==> Lean()
    {
      ghost var p := Prefix(key, Lead(mask));
      var bit, node, next;
      ghost var d;
      bit, node, next, d := WalkDown(key, mask);
      if next != NULL {
        if nodes[node].value != NO_VALUE { return BUSY; }
      } else {
        NoLonger(nodes, at, key, d + 1, Lead(mask));
        node := Grow(key, mask, bit, node, d);
        if node == NULL { return ERROR; }
      }
      ghost var n1, a1 := nodes, at;
      SetValue(p, node, value);
      SameThenBut(old(nodes), old(at), n1, a1, nodes, at, p, AsOption(value));
      NetButFrom(old(nodes), old(at), nodes, at, key, Lead(mask), AsOption(value));
      code := OK;
    }

    /** The node for the bits of the key that the mask covers, if there is one. */
    method Locate(key: Word32, mask: Word32) returns (node: int)
      requires Valid()
      ensures node == Place(at, Prefix(key, Lead(mask)))
    {
      var bit: Word32 := 0x80000000;
      node := 0;
      ghost var d := 0;
      LeadOnes(mask, 0);
      while node != NULL && Test(mask, bit)
        invariant d <= Lead(mask) && bit == Top(d) && node == Place(at, Prefix(key, d))
        invariant node == NULL || (Test(mask, bit) <==> d < Lead(mask))
        decreases MAX_LENGTH - d
      {
        Below(key, d);
        if Test(key, bit) { node := nodes[node].right; } else { node := nodes[node].left; }
        bit := bit / 2;
        d := d + 1;
        LeadOnes(mask, d);
      }
      if node == NULL {
        PlaceNull(nodes, at, Prefix(key, d));
        NoLonger(nodes, at, key, d, Lead(mask));
      }
    }

    /** The leaf of prefix `p` leaves the tree and becomes spare. */
    method Prune(node: int, ghost p: Path) returns (parent: int)
      requires Valid() && p in at && p != [] && at[p] == node && 0 <= node < |nodes| && Leaf(nodes, node)
      modifies this
      ensures Valid() && at == old(at) - {p} && StoredBut(old(nodes), old(at), nodes, at, p, None)
      ensures p[..|p| - 1] in at && parent == at[p[..|p| - 1]] && 0 <= parent < |nodes|
      ensures old(LeanBut(nodes, at, p)) ==> LeanBut(nodes, at, p[..|p| - 1])
      ensures room == old(room)
    {
      ghost var up, b := p[..|p| - 1], p[|p| - 1];
      PathSplit(p);
      Climb(p);
      CutTrie(nodes, at, up, b, free);
      CutSpare(nodes, at, spare, free, up, b);
      if old(LeanBut(nodes, at, p)) { CutLean(nodes, at, up, b, free); }
      parent := nodes[node].parent;
      ghost var cut := CutOff(nodes, parent, b, node, free);
      if nodes[parent].right == node {
        nodes := nodes[parent := nodes[parent].(right := NULL)];
      } else {
        nodes := nodes[parent := nodes[parent].(left := NULL)];
      }
      nodes := nodes[node := nodes[node].(right := free)];
      assert nodes == cut;
      free := node;
      spare := [node] + spare;
      at := at - {p};
      assert NodeOk(nodes, at, up);
    }

    /** The parent of a node holds it on the side of the last bit of its prefix. */
    lemma {:induction false} Climb(p: Path)
      requires Valid() && p in at && p != []
      ensures 0 <= at[p] < |nodes| && p[..|p| - 1] in at && 0 <= at[p[..|p| - 1]] < |nodes|
      ensures nodes[at[p]].parent == at[p[..|p| - 1]]
      ensures nodes[at[p[..|p| - 1]]].Child(p[|p| - 1]) == at[p]
      ensures nodes[at[p[..|p| - 1]]].right == at[p] <==> p[|p| - 1]
    {
      var up := p[..|p| - 1];
      PathSplit(p);
      assert NodeOk(nodes, at, p) && NodeOk(nodes, at, up);
      if !p[|p| - 1] && up + [true] in at { assert Apart(at, p, up + [true]); }
    }

    /** `ngx_radix32tree_delete`: what is stored for the bits that the mask covers goes, and
        with it the nodes that are of no use any more.  With an empty mask and a root without
        children it follows the null parent of the root. */
    method Delete(key: Word32, mask: Word32) returns (code: Code)
      requires Valid()
      modifies this
      ensures Valid() && code != BUSY
      ensures code == NOPARENT <==> Lead(mask) == 0 && old(LeafAt([]))
      ensures code == ERROR <==> !(old(Lookup(Prefix(key, Lead(mask)))).Some? || old(LeafAt(Prefix(key, Lead(mask)))))
      ensures code == OK ==> StoredBut(old(nodes), old(at), nodes, at, Prefix(key, Lead(mask)), None)
      ensures code == OK ==> NetBut(old(nodes), old(at), nodes, at, key, Lead(mask), None)
      ensures code != OK ==> unchanged(this)
      ensures old(Lean()) ==> Lean()
      ensures old(Lean()) && code != NOPARENT ==> (code == OK <==> old(Lookup(Prefix(key, Lead(mask)))).Some?)
    {
      ghost var p := Prefix(key, Lead(mask));
      var node := Locate(key, mask);
      PlaceNull(nodes, at, p);
      if node == NULL { return ERROR; }
      Below(key, Lead(mask));
      if nodes[node].right != NULL || nodes[node].left != NULL {
        if nodes[node].value != NO_VALUE {
          SetValue(p, node, NO_VALUE);
          NetButFrom(old(nodes), old(at), nodes, at, key, Lead(mask), None);
          return OK;
        }
        return ERROR;
      }
      OnlyRoot(p);
      if nodes[node].parent == NULL { return NOPARENT; }
      PruneUp(node, p);
      NetButFrom(old(nodes), old(at), nodes, at, key, Lead(mask), None);
      code := OK;
    }

    /** Only the root has no parent. */
    lemma {:induction false} OnlyRoot(p: Path)
      requires Valid() && p in at
      ensures 0 <= at[p] < |nodes| && (nodes[at[p]].parent == NULL <==> p == [])
    {
      assert NodeOk(nodes, at, p);
      if p != [] { assert NodeOk(nodes, at, p[..|p| - 1]); }
    }

    ghost predicate LeafAt(p: Path)
      reads this
    {
      p in at && 0 <= at[p] < |nodes| && Leaf(nodes, at[p])
    }

    /** The pruning loop. */
    method PruneUp(start: int, ghost p: Path)
      requires Valid() && p in at && p != [] && at[p] == start && 0 <= start < |nodes| && Leaf(nodes, start)
      modifies this
      ensures Valid() && StoredBut(old(nodes), old(at), nodes, at, p, None)
      ensures old(Lean()) ==> Lean()
    {
      ghost var n0, a0 := nodes, at;
      var node := Prune(start, p);
      ghost var q := p[..|p| - 1];
      while nodes[node].right == NULL && nodes[node].left == NULL && nodes[node].value == NO_VALUE
        && nodes[node].parent != NULL
        invariant Valid() && StoredBut(n0, a0, nodes, at, p, None)
        invariant q in at && at[q] == node && 0 <= node < |nodes|
        invariant old(Lean()) ==> LeanBut(nodes, at, q)
        decreases |q|
      {
        ghost var n1, a1 := nodes, at;
        assert NodeOk(nodes, at, q);
        node := Prune(node, q);
        ButNothing(n0, a0, n1, a1, nodes, at, p, q);
        q := q[..|q| - 1];
      }
      if q != [] { Climb(q); }
      assert LeanBut(nodes, at, q) ==> LeanBut(nodes, at, []) by {
        assert q == [] || !Leaf(nodes, at[q]) || nodes[at[q]].value != NO_VALUE;
      }
    }
  }
}
