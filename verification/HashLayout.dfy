/** How ngx_hash.c lays the elements of a static hash out in memory. */
module HashLayout {
  import opened Arith

  type Name = string

  /** ngx_hash_key_t; a key whose data is NULL is not `present`. */
  datatype Key = Key(present: bool, name: Name, hash: nat, value: int)

  /** sizeof(void *) */
  const PTR := 8

  /** ngx_align for powers of two. */
  function Align(n: nat, a: nat): (r: nat)
    requires a > 0
    ensures n <= r < n + a && r % a == 0
  {
    AlignBounds(n, a);
    (n + a - 1) / a * a
  }

  lemma {:induction false} AlignBounds(n: nat, a: nat)
    requires a > 0
    ensures var r := (n + a - 1) / a * a; n <= r < n + a && r % a == 0
  {
    var x := n + a - 1;
    assert x == x / a * a + x % a;
    MultipleMod(x / a, a);
  }

  /** NGX_HASH_ELT_SIZE */
  function EltSize(name: Name): nat { PTR + Align(|name| + 2, PTR) }

  function Lower(c: char): char { if 'A' <= c <= 'Z' then c + 32 as char else c }

  function LowerAll(s: Name): (r: Name)
    ensures |r| == |s| && forall i :: 0 <= i < |s| ==> r[i] == Lower(s[i])
  {
    seq(|s|, i requires 0 <= i < |s| => Lower(s[i]))
  }

  /** `ngx_hash`, in a 64-bit word. */
  function HashStep(key: nat, c: char): nat { (key * 31 + c as int) % 0x1_0000_0000_0000_0000 }

  /** `ngx_hash_key` */
  function HashKey(s: Name): nat {
    if s == [] then 0 else HashStep(HashKey(s[..|s| - 1]), s[|s| - 1])
  }

  function Power(base: nat, n: nat): nat { if n == 0 then 1 else base * Power(base, n - 1) }

  /** The characters as digits of a number to the base 31. */
  function Digits31(s: Name): nat {
    if s == [] then 0 else s[0] as int * Power(31, |s| - 1) + Digits31(s[1..])
  }

  lemma {:induction false} DigitsNext(s: Name, c: char)
    ensures Digits31(s + [c]) == Digits31(s) * 31 + c as int
  {
    if s == [] {
      assert s + [c] == [c] && [c][1..] == [];
    } else {
      assert (s + [c])[1..] == s[1..] + [c];
      DigitsNext(s[1..], c);
      var p, d := Power(31, |s| - 1), s[0] as int;
      assert Power(31, |s|) == 31 * p;
      assert d * (31 * p) == d * p * 31;
    }
  }

  /** The hash is the value of the characters as digits to the base 31, modulo 2^64. */
  lemma {:induction false} HashIs(s: Name)
    ensures HashKey(s) == Digits31(s) % 0x1_0000_0000_0000_0000
  {
    if s != [] {
      var t, c := s[..|s| - 1], s[|s| - 1];
      assert s == t + [c];
      HashIs(t);
      DigitsNext(t, c);
      StepModulo(Digits31(t), c as int);
    }
  }

  lemma {:induction false} StepModulo(n: nat, c: nat)
    ensures (n % 0x1_0000_0000_0000_0000 * 31 + c) % 0x1_0000_0000_0000_0000 == (n * 31 + c) % 0x1_0000_0000_0000_0000
  {
    var w := 0x1_0000_0000_0000_0000;
    var q := n / w;
    assert n * 31 + c == n % w * 31 + c + 31 * q * w;
  }

  /** Capital letters become small ones, and nothing else changes. */
  lemma {:induction false} LowerIs(i: nat, c: char)
    requires i < 26
    ensures Lower(('A' as int + i) as char) == ('a' as int + i) as char
    ensures !('A' <= c <= 'Z') ==> Lower(c) == c
  {
  }

  // ---- Sizes ----

  predicate InBucket(k: Key, size: nat, b: nat)
    requires size > 0
  {
    k.present && k.hash % size == b
  }

  /** The bytes that the first `n` keys take in bucket `b`. */
  function Total(keys: seq<Key>, n: nat, size: nat, b: nat): nat
    requires n <= |keys| && size > 0
  {
    if n == 0 then 0
    else Total(keys, n - 1, size, b) + if InBucket(keys[n - 1], size, b) then EltSize(keys[n - 1].name) else 0
  }

  /** The room for bucket `b`: its elements and a null pointer, in whole cache lines. */
  function Room(keys: seq<Key>, size: nat, b: nat, line: nat): nat
    requires size > 0 && line > 0
  {
    if Total(keys, |keys|, size, b) == 0 then 0 else Align(PTR + Total(keys, |keys|, size, b), line)
  }

  /** Where bucket `b` starts. */
  function Start(keys: seq<Key>, size: nat, b: nat, line: nat): nat
    requires size > 0 && line > 0
  {
    if b == 0 then 0 else Start(keys, size, b - 1, line) + Room(keys, size, b - 1, line)
  }

  /** Where key `i` goes. */
  function Address(keys: seq<Key>, i: nat, size: nat, line: nat): nat
    requires i < |keys| && size > 0 && line > 0
  {
    var b := keys[i].hash % size;
    Start(keys, size, b, line) + Total(keys, i, size, b)
  }

  lemma {:induction false} TotalMono(keys: seq<Key>, m: nat, n: nat, size: nat, b: nat)
    requires m <= n <= |keys| && size > 0
    ensures Total(keys, m, size, b) <= Total(keys, n, size, b)
  {
    if m < n { TotalMono(keys, m, n - 1, size, b); }
  }

  /** A key in the bucket takes its bytes. */
  lemma {:induction false} TotalStep(keys: seq<Key>, i: nat, n: nat, size: nat, b: nat)
    requires i < n <= |keys| && size > 0 && InBucket(keys[i], size, b)
    ensures Total(keys, i, size, b) + EltSize(keys[i].name) <= Total(keys, n, size, b)
  {
    TotalMono(keys, i + 1, n, size, b);
  }

  lemma {:induction false} StartMono(keys: seq<Key>, a: nat, b: nat, size: nat, line: nat)
    requires a < b && size > 0 && line > 0
    ensures Start(keys, size, a, line) + Room(keys, size, a, line) <= Start(keys, size, b, line)
  {
    if a + 1 < b { StartMono(keys, a, b - 1, size, line); }
  }

  /** A key lies in the room of its bucket, before the null pointer. */
  lemma {:induction false} InRoom(keys: seq<Key>, i: nat, size: nat, line: nat)
    requires i < |keys| && keys[i].present && size > 0 && line > 0
    ensures var b := keys[i].hash % size;
      && Address(keys, i, size, line) + EltSize(keys[i].name) <= Start(keys, size, b, line)
        + Total(keys, |keys|, size, b)
      && Total(keys, |keys|, size, b) > 0
      && Total(keys, |keys|, size, b) + PTR <= Room(keys, size, b, line)
  {
    TotalStep(keys, i, |keys|, size, keys[i].hash % size);
  }

  /** No two keys overlap. */
  lemma {:induction false} Disjoint(keys: seq<Key>, i: nat, j: nat, size: nat, line: nat)
    requires i < j < |keys| && keys[i].present && keys[j].present && size > 0 && line > 0
    ensures var a, b := Address(keys, i, size, line), Address(keys, j, size, line);
      a + EltSize(keys[i].name) <= b || b + EltSize(keys[j].name) <= a
  {
    var a, b := keys[i].hash % size, keys[j].hash % size;
    InRoom(keys, i, size, line);
    InRoom(keys, j, size, line);
    if a == b {
      TotalStep(keys, i, j, size, a);
    } else if a < b {
      StartMono(keys, a, b, size, line);
    } else {
      StartMono(keys, b, a, size, line);
    }
  }

  // ---- Memory ----

  /** Memory by bytes.  A pointer is kept in the first of its eight bytes, a length in the
      first of its two. */
  type Memory = seq<int>

  /** The element of a key at `o`: its value, its length and its name in lower case. */
  ghost predicate EltAt(m: Memory, o: nat, k: Key) {
    && o + EltSize(k.name) <= |m| && m[o] == k.value && m[o + 8] == |k.name|
    && forall i :: 0 <= i < |k.name| ==> m[o + 10 + i] == Lower(k.name[i]) as int
  }

  /** Nothing has changed outside `a .. b`. */
  ghost predicate Only(m: Memory, m': Memory, a: nat, b: nat) {
    |m'| == |m| && forall i :: 0 <= i < |m| && !(a <= i < b) ==> m'[i] == m[i]
  }

  lemma {:induction false} EltFrame(m: Memory, m': Memory, o: nat, k: Key, a: nat, b: nat)
    requires EltAt(m, o, k) && Only(m, m', a, b) && (o + EltSize(k.name) <= a || b <= o)
    ensures EltAt(m', o, k)
  {
    assert |k.name| + 10 <= EltSize(k.name);
  }

  ghost predicate WrittenAt(m: Memory, keys: seq<Key>, i: int, size: nat, line: nat)
    requires 0 <= i < |keys| && size > 0 && line > 0
  {
    keys[i].present ==> EltAt(m, Address(keys, i, size, line), keys[i])
  }

  /** The first `n` keys are in their places. */
  ghost predicate Written(m: Memory, keys: seq<Key>, n: nat, size: nat, line: nat)
    requires n <= |keys| && size > 0 && line > 0
  {
    forall i {:trigger WrittenAt(m, keys, i, size, line)} :: 0 <= i < n ==> WrittenAt(m, keys, i, size, line)
  }

  ghost predicate EndedAt(m: Memory, keys: seq<Key>, b: nat, size: nat, line: nat)
    requires size > 0 && line > 0
  {
    Total(keys, |keys|, size, b) > 0 ==>
      var o := Start(keys, size, b, line) + Total(keys, |keys|, size, b); o < |m| && m[o] == 0
  }

  /** The buckets before `b` that have elements end with a null pointer. */
  ghost predicate Ended(m: Memory, keys: seq<Key>, b: nat, size: nat, line: nat)
    requires size > 0 && line > 0
  {
    forall c {:trigger EndedAt(m, keys, c, size, line)} :: 0 <= c < b ==> EndedAt(m, keys, c, size, line)
  }

  // ---- Finding ----

  /** The value for a name, from key `i` on, among the keys in bucket `b`: the first match,
      or null. */
  function Lookup(keys: seq<Key>, i: nat, size: nat, b: nat, name: Name): int
    requires i <= |keys| && size > 0
    decreases |keys| - i
  {
    if i == |keys| then 0
    else if InBucket(keys[i], size, b) && LowerAll(keys[i].name) == name then keys[i].value
    else Lookup(keys, i + 1, size, b, name)
  }

  /** ... and among all keys. */
  function Search(keys: seq<Key>, i: nat, name: Name): int
    requires i <= |keys|
    decreases |keys| - i
  {
    if i == |keys| then 0
    else if keys[i].present && LowerAll(keys[i].name) == name then keys[i].value
    else Search(keys, i + 1, name)
  }

  /** With the right hashes the bucket does not matter. */
  lemma {:induction false} BucketIsEnough(keys: seq<Key>, i: nat, size: nat, hash: Name -> nat, name: Name)
    requires i <= |keys| && size > 0
    requires forall k :: 0 <= k < |keys| && keys[k].present ==> keys[k].hash == hash(LowerAll(keys[k].name))
    ensures Lookup(keys, i, size, hash(name) % size, name) == Search(keys, i, name)
    decreases |keys| - i
  {
    if i < |keys| { BucketIsEnough(keys, i + 1, size, hash, name); }
  }

  /** With distinct keys and values that are not null the search is a map. */
  lemma {:induction false} SearchFinds(keys: seq<Key>, i: nat, k: nat)
    requires i <= k < |keys| && keys[k].present
    requires forall j :: i <= j < k && keys[j].present ==> LowerAll(keys[j].name) != LowerAll(keys[k].name)
    ensures Search(keys, i, LowerAll(keys[k].name)) == keys[k].value
    decreases k - i
  {
    if i < k { SearchFinds(keys, i + 1, k); }
  }

  lemma {:induction false} SearchMisses(keys: seq<Key>, i: nat, name: Name)
    requires i <= |keys| && forall j :: i <= j < |keys| && keys[j].present ==> LowerAll(keys[j].name) != name
    ensures Search(keys, i, name) == 0
    decreases |keys| - i
  {
    if i < |keys| { SearchMisses(keys, i + 1, name); }
  }

  // ---- Walking along a bucket ----

  lemma {:induction false} TotalAligned(keys: seq<Key>, n: nat, size: nat, b: nat)
    requires n <= |keys| && size > 0
    ensures Total(keys, n, size, b) % PTR == 0
  {
    if n > 0 { TotalAligned(keys, n - 1, size, b); }
  }

  lemma {:induction false} LineAligned(n: nat, line: nat)
    requires line > 0 && line % PTR == 0 && n % line == 0
    ensures n % PTR == 0
  {
    var k, q := n / line, line / PTR;
    assert n == k * (q * PTR) == (k * q) * PTR;
    MultipleMod(k * q, PTR);
  }

  lemma {:induction false} RoomAligned(keys: seq<Key>, size: nat, b: nat, line: nat)
    requires size > 0 && line > 0 && line % PTR == 0
    ensures Room(keys, size, b, line) % PTR == 0
  {
    if Total(keys, |keys|, size, b) != 0 { LineAligned(Align(PTR + Total(keys, |keys|, size, b), line), line); }
  }

  lemma {:induction false} SumAligned(m: nat, n: nat)
    requires m % PTR == 0 && n % PTR == 0
    ensures (m + n) % PTR == 0
  {
  }

  lemma {:induction false} StartAligned(keys: seq<Key>, size: nat, b: nat, line: nat)
    requires size > 0 && line > 0 && line % PTR == 0
    ensures Start(keys, size, b, line) % PTR == 0
  {
    if b > 0 {
      StartAligned(keys, size, b - 1, line);
      RoomAligned(keys, size, b - 1, line);
      SumAligned(Start(keys, size, b - 1, line), Room(keys, size, b - 1, line));
    }
  }

  /** From a name the next element is found by rounding up. */
  lemma {:induction false} NextElement(o: nat, name: Name)
    requires o % PTR == 0
    ensures Align(o + 10 + |name|, PTR) == o + EltSize(name)
  {
  }

  /** Keys of other buckets do not move the place in bucket `b`. */
  lemma {:induction false} SkipTo(keys: seq<Key>, i: nat, size: nat, b: nat, name: Name) returns (k: nat)
    requires i <= |keys| && size > 0
    ensures i <= k <= |keys| && Total(keys, k, size, b) == Total(keys, i, size, b)
    ensures k < |keys| ==> InBucket(keys[k], size, b)
    ensures Lookup(keys, k, size, b, name) == Lookup(keys, i, size, b, name)
    decreases |keys| - i
  {
    if i == |keys| || InBucket(keys[i], size, b) {
      k := i;
    } else {
      k := SkipTo(keys, i + 1, size, b, name);
    }
  }
}
