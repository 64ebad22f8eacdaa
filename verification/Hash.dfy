/** The static hash of ngx_hash.c. */
module Hash {
  import opened Words
  import opened HashLayout

  const NULL := -1

  /** A byte count is kept in an unsigned short. */
  function Short(n: nat): nat { n % 65536 }

  /** No bucket of a hash of this size outgrows an unsigned short. */
  ghost predicate Counts(keys: seq<Key>, size: nat, line: nat)
    requires line > 0 && size > 0
  {
    forall b {:trigger CountsAt(keys, size, line, b)} :: 0 <= b < size ==> CountsAt(keys, size, line, b)
  }

  ghost predicate CountsAt(keys: seq<Key>, size: nat, line: nat, b: nat)
    requires line > 0 && size > 0
  {
    Total(keys, |keys|, size, b) > 0 ==> Align(PTR + Total(keys, |keys|, size, b), line) < 65536
  }

  /** A bucket up to the limit, in whole cache lines, and an element more than the limit do
      not outgrow an unsigned short either. */
  ghost predicate Countable(keys: seq<Key>, limit: nat, line: nat)
    requires line > 0
  {
    forall i :: 0 <= i < |keys| && keys[i].present ==>
      limit + EltSize(keys[i].name) < 65536 && Align(limit + PTR, line) < 65536
  }

  ghost predicate Named(keys: seq<Key>) {
    forall i :: 0 <= i < |keys| && keys[i].present ==> EltSize(keys[i].name) < 65536
  }

  /** All buckets of a hash of this size are within the limit. */
  ghost predicate Good(keys: seq<Key>, size: nat, limit: nat)
    requires size > 0
  {
    forall b {:trigger Total(keys, |keys|, size, b)} :: 0 <= b < size ==> Total(keys, |keys|, size, b) <= limit
  }

  /** No size from `start` on is good. */
  ghost predicate NoneGood(keys: seq<Key>, start: nat, maxSize: nat, limit: nat) {
    start > 0 && forall s :: start <= s <= maxSize ==> !Good(keys, s, limit)
  }

  /** Counting one more key does not overflow. */
  lemma {:induction false} NoOverflow(keys: seq<Key>, n: nat, size: nat, line: nat, more: nat)
    requires line > 0 && size > 0 && Counts(keys, size, line) && n < |keys| && keys[n].present && more <= PTR
    ensures var b := keys[n].hash % size;
      Short(more + Total(keys, n, size, b) + EltSize(keys[n].name)) == more + Total(keys, n + 1, size, b)
  {
    var b := keys[n].hash % size;
    TotalMono(keys, n + 1, |keys|, size, b);
    TotalStep(keys, n, |keys|, size, b);
    assert CountsAt(keys, size, line, b);
  }

  lemma {:induction false} AlignMono(m: nat, n: nat, a: nat)
    requires a > 0 && m <= n
    ensures Align(m, a) <= Align(n, a)
  {
    DivMono(m + a - 1, n + a - 1, a);
    MulMono((m + a - 1) / a, (n + a - 1) / a, a);
  }

  lemma {:induction false} DivMono(m: nat, n: nat, a: nat)
    requires a > 0 && m <= n
    ensures m / a <= n / a
  {
    if n / a < m / a { MulMono(n / a + 1, m / a, a); }
  }

  lemma {:induction false} MulMono(p: nat, q: nat, a: nat)
    requires p <= q
    ensures p * a <= q * a
  {
  }

  /** A bucket that is not empty has a key. */
  lemma {:induction false} SomeKey(keys: seq<Key>, n: nat, size: nat, b: nat) returns (i: nat)
    requires n <= |keys| && size > 0 && Total(keys, n, size, b) > 0
    ensures i < n && InBucket(keys[i], size, b)
  {
    if InBucket(keys[n - 1], size, b) {
      i := n - 1;
    } else {
      i := SomeKey(keys, n - 1, size, b);
    }
  }

  lemma {:induction false} Between(n: nat, m: nat)
    requires m > 0
    ensures n / m * m <= n < (n / m + 1) * m
  {
    assert n == n / m * m + n % m;
    assert (n / m + 1) * m == n / m * m + m;
  }

  lemma {:induction false} HundredTimes(q: nat, m: nat, n: nat)
    requires q * m <= n < (q + 1) * m
    ensures q < 100 <==> n < 100 * m
  {
    if q < 100 { MulMono(q + 1, 100, m); } else { MulMono(100, q, m); }
  }

  /** The buckets of a good size are no larger than a bucket may be. */
  lemma {:induction false} GoodCounts(keys: seq<Key>, size: nat, limit: nat, line: nat)
    requires line > 0 && size > 0 && Countable(keys, limit, line) && Good(keys, size, limit)
    ensures Counts(keys, size, line)
  {
    forall b | 0 <= b < size ensures CountsAt(keys, size, line, b) {
      if Total(keys, |keys|, size, b) > 0 {
        var i := SomeKey(keys, |keys|, size, b);
        AlignMono(PTR + Total(keys, |keys|, size, b), limit + PTR, line);
      }
    }
  }

  /** The room a bucket gets, when the bytes of its elements are counted in an unsigned
      short, is enough for them exactly when it can be counted. */
  lemma {:induction false} RoomGiven(bytes: nat, line: nat)
    requires 0 < line <= 65536
    ensures Short(Align(Short(bytes), line)) >= bytes <==> Align(bytes, line) < 65536
  {
  }

  /** `DIVZERO`: the program divides by zero. */
  datatype Code = OK | ERROR | DIVZERO

  /** bucket_size - sizeof(void *), which is unsigned. */
  function Bytes(bucketSize: Word): Word { Wrap(bucketSize - PTR) }

  class Table {
    var size: nat
    var buckets: seq<int>
    var mem: Memory
    const line: nat           // ngx_cacheline_size
    ghost var keys: seq<Key>

    constructor (line: nat)
      requires line > 0
      ensures this.line == line
    {
      this.line := line;
      size, buckets, mem, keys := 0, [], [], [];
    }

    /** The elements of every bucket lie one after the other from its start and end with a
        null pointer. */
    ghost predicate Valid()
      reads this
    {
      && size > 0 && line > 0 && |buckets| == size
      && (forall b :: 0 <= b < size ==> buckets[b] == if Total(keys, |keys|, size, b) == 0 then NULL
        else Start(keys, size, b, line))
      && Written(mem, keys, |keys|, size, line) && Ended(mem, keys, size, size, line)
      && forall i :: 0 <= i < |keys| && keys[i].present ==> keys[i].value != 0
    }

    /** Does every bucket of a hash of `size` buckets stay within the limit? */
    method TestSize(keys: seq<Key>, size: nat, limit: nat) returns (ok: bool)
      requires line > 0 && size > 0 && Countable(keys, limit, line)
      ensures ok <==> Good(keys, size, limit)
    {
      var test := new nat[size](_ => 0);
      var n := 0;
      while n < |keys|
        invariant n <= |keys| && Within(keys, n, size, limit, test)
      {
        if keys[n].present {
          var ok' := TestNext(keys, n, size, limit, test);
          if !ok' { return false; }
        }
        n := n + 1;
      }
      ok := true;
    }

    /** `test` counts what the first `n` keys take, and no bucket is over the limit. */
    ghost predicate Within(keys: seq<Key>, n: nat, size: nat, limit: nat, test: array<nat>)
      requires n <= |keys| && size > 0
      reads test
    {
      test.Length == size && forall b :: 0 <= b < size ==> test[b] == Total(keys, n, size, b) && test[b] <= limit
    }

    method TestNext(keys: seq<Key>, n: nat, size: nat, limit: nat, test: array<nat>) returns (ok: bool)
      requires line > 0 && size > 0 && Countable(keys, limit, line) && n < |keys| && keys[n].present
      requires Within(keys, n, size, limit, test)
      modifies test
      ensures ok ==> Within(keys, n + 1, size, limit, test)
      ensures !ok ==> !Good(keys, size, limit)
    {
      var key := keys[n].hash % size;
      TotalMono(keys, n + 1, |keys|, size, key);
      test[key] := Short(test[key] + EltSize(keys[n].name));
      ok := test[key] <= limit;
    }

    /** The smallest good size from `start` on, or else the largest size allowed. */
    method ChooseSize(keys: seq<Key>, start: nat, maxSize: nat, limit: nat) returns (size: nat)
      requires line > 0 && 1 <= start && 1 <= maxSize && Countable(keys, limit, line)
      ensures 1 <= size <= maxSize
      ensures forall s :: start <= s < size ==> !Good(keys, s, limit)
      ensures (start <= size && Good(keys, size, limit)) || (size == maxSize && NoneGood(keys, start, maxSize, limit))
    {
      size := start;
      while size <= maxSize
        invariant start <= size && (start <= maxSize ==> size <= maxSize + 1)
        invariant forall s :: start <= s < size ==> !Good(keys, s, limit)
      {
        var ok := TestSize(keys, size, limit);
        if ok { return; }
        size := size + 1;
      }
      size := maxSize;
    }

    /** The bytes of every bucket, with those of a null pointer. */
    method CountBytes(keys: seq<Key>, size: nat) returns (test: array<nat>)
      requires line > 0 && size > 0 && Counts(keys, size, line)
      ensures fresh(test) && test.Length == size
      ensures forall b :: 0 <= b < size ==> test[b] == PTR + Total(keys, |keys|, size, b)
    {
      test := new nat[size](_ => PTR);
      var n := 0;
      while n < |keys|
        invariant n <= |keys| && forall b :: 0 <= b < size ==> test[b] == PTR + Total(keys, n, size, b)
      {
        if keys[n].present {
          var key := keys[n].hash % size;
          NoOverflow(keys, n, size, line, PTR);
          test[key] := Short(test[key] + EltSize(keys[n].name));
        }
        n := n + 1;
      }
    }

    /** ... in whole cache lines; buckets without elements keep the size of a pointer. */
    method RoundUp(keys: seq<Key>, size: nat, test: array<nat>)
      requires line > 0 && size > 0 && Counts(keys, size, line) && test.Length == size
      requires forall b :: 0 <= b < size ==> test[b] == PTR + Total(keys, |keys|, size, b)
      modifies test
      ensures forall b :: 0 <= b < size ==> test[b] == if Total(keys, |keys|, size, b) == 0 then PTR
        else Room(keys, size, b, line)
    {
      var i := 0;
      while i < size
        invariant i <= size
        invariant forall b :: 0 <= b < i ==> test[b] == if Total(keys, |keys|, size, b) == 0 then PTR
          else Room(keys, size, b, line)
        invariant forall b :: i <= b < size ==> test[b] == PTR + Total(keys, |keys|, size, b)
      {
        if test[i] != PTR {
          var rounded := RoundOne(keys, size, i, test[i]);
          test[i] := rounded;
        }
        i := i + 1;
      }
    }

    method RoundOne(keys: seq<Key>, size: nat, b: nat, bytes: nat) returns (r: nat)
      requires line > 0 && b < size && Counts(keys, size, line)
      requires bytes == PTR + Total(keys, |keys|, size, b) && bytes != PTR
      ensures r == Room(keys, size, b, line)
    {
      assert CountsAt(keys, size, line, b);
      r := Short(Align(bytes, line));
    }

    /** The starts of the buckets, and the bytes of all. */
    method PlaceBuckets(keys: seq<Key>, size: nat, test: array<nat>) returns (starts: seq<int>, len: nat)
      requires line > 0 && size > 0 && test.Length == size
      requires forall b :: 0 <= b < size ==> test[b] == if Total(keys, |keys|, size, b) == 0 then PTR
        else Room(keys, size, b, line)
      ensures |starts| == size && len == Start(keys, size, size, line)
      ensures forall b :: 0 <= b < size ==> starts[b] == if Total(keys, |keys|, size, b) == 0 then NULL
        else Start(keys, size, b, line)
    {
      starts, len := [], 0;
      var i := 0;
      while i < size
        invariant i <= size && |starts| == i && len == Start(keys, size, i, line)
        invariant forall b :: 0 <= b < i ==> starts[b] == if Total(keys, |keys|, size, b) == 0 then NULL
          else Start(keys, size, b, line)
      {
        RoomAtLeast(keys, size, i);
        if test[i] == PTR {
          starts := starts + [NULL];
        } else {
          starts := starts + [len];
          len := len + test[i];
        }
        i := i + 1;
      }
    }

    /** A bucket with elements has more room than a pointer. */
    lemma {:induction false} RoomAtLeast(keys: seq<Key>, size: nat, b: nat)
      requires line > 0 && size > 0
      ensures Total(keys, |keys|, size, b) > 0 ==> Room(keys, size, b, line) > PTR
    {
    }

    /** One element: its value, its length and its name in lower case. */
    method WriteElement(o: nat, k: Key)
      requires o + EltSize(k.name) <= |mem| && |k.name| < 65536
      modifies this`mem
      ensures EltAt(mem, o, k) && Only(old(mem), mem, o, o + EltSize(k.name))
    {
      assert |k.name| + 10 <= EltSize(k.name);
      mem := mem[o := k.value];
      mem := mem[o + 8 := Short(|k.name|)];
      var i := 0;
      while i < |k.name|
        invariant i <= |k.name| && |mem| == |old(mem)| && mem[o] == k.value && mem[o + 8] == |k.name|
        invariant forall j :: 0 <= j < i ==> mem[o + 10 + j] == Lower(k.name[j]) as int
        invariant Only(old(mem), mem, o, o + EltSize(k.name))
      {
        mem := mem[o + 10 + i := Lower(k.name[i]) as int];
        i := i + 1;
      }
    }

    /** The starts of the buckets are known. */
    ghost predicate Placed(keys: seq<Key>)
      reads this
    {
      && line > 0 && size > 0 && |buckets| == size && |mem| == Start(keys, size, size, line)
      && forall b :: 0 <= b < size ==> buckets[b] == if Total(keys, |keys|, size, b) == 0 then NULL
        else Start(keys, size, b, line)
    }

    /** `test` counts what the first `n` keys take. */
    ghost predicate Counted(keys: seq<Key>, n: nat, test: array<nat>)
      reads this, test
    {
      size > 0 && n <= |keys| && test.Length == size && forall b :: 0 <= b < size ==> test[b] == Total(keys, n, size, b)
    }

    /** Element `n` behind those of its bucket that are there already. */
    method WriteNext(keys: seq<Key>, n: nat, test: array<nat>)
      requires Placed(keys) && Counts(keys, size, line) && Named(keys) && Counted(keys, n, test) && n < |keys|
        && keys[n].present
      requires Written(mem, keys, n, size, line)
      modifies this`mem, test
      ensures |mem| == |old(mem)| && Counted(keys, n + 1, test) && Written(mem, keys, n + 1, size, line)
    {
      var key := keys[n].hash % size;
      InRoom(keys, n, size, line);
      StartMono(keys, key, size, size, line);
      assert buckets[key] + test[key] == Address(keys, n, size, line);
      ghost var before := mem;
      WriteElement(buckets[key] + test[key], keys[n]);
      StillWritten(before, mem, keys, n, size, line);
      CountNext(keys, n, test, key);
    }

    method CountNext(keys: seq<Key>, n: nat, test: array<nat>, key: nat)
      requires line > 0 && size > 0 && Counts(keys, size, line) && Counted(keys, n, test) && n < |keys|
        && keys[n].present && key == keys[n].hash % size
      modifies test
      ensures Counted(keys, n + 1, test)
    {
      NoOverflow(keys, n, size, line, 0);
      test[key] := Short(test[key] + EltSize(keys[n].name));
    }

    /** All elements. */
    method WriteElements(keys: seq<Key>, test: array<nat>)
      requires Placed(keys) && Counts(keys, size, line) && Named(keys) && Counted(keys, 0, test)
      modifies this`mem, test
      ensures Placed(keys) && Counted(keys, |keys|, test) && Written(mem, keys, |keys|, size, line)
    {
      var n := 0;
      while n < |keys|
        invariant n <= |keys| && |mem| == |old(mem)| && Counted(keys, n, test) && Written(mem, keys, n, size, line)
      {
        if keys[n].present { WriteNext(keys, n, test); } else { assert WrittenAt(mem, keys, n, size, line); }
        n := n + 1;
      }
    }

    /** The null pointer behind the elements of bucket `b`. */
    method EndBucket(keys: seq<Key>, b: nat, test: array<nat>)
      requires Placed(keys) && Counted(keys, |keys|, test) && b < size && Total(keys, |keys|, size, b) > 0
      requires Written(mem, keys, |keys|, size, line) && Ended(mem, keys, b, size, line)
      modifies this`mem
      ensures |mem| == |old(mem)| && Written(mem, keys, |keys|, size, line) && Ended(mem, keys, b + 1, size, line)
    {
      StartMono(keys, b, size, size, line);
      RoomAtLeast(keys, size, b);
      assert Start(keys, size, b, line) + Total(keys, |keys|, size, b) < |mem|;
      EndWritten(mem, keys, b, size, line);
      EndEnded(mem, keys, b, size, line);
      mem := mem[buckets[b] + test[b] := 0];
    }

    /** The null pointers. */
    method EndBuckets(keys: seq<Key>, test: array<nat>)
      requires Placed(keys) && Counted(keys, |keys|, test) && Written(mem, keys, |keys|, size, line)
      modifies this`mem
      ensures Placed(keys) && Written(mem, keys, |keys|, size, line) && Ended(mem, keys, size, size, line)
    {
      var i := 0;
      while i < size
        invariant i <= size && |mem| == |old(mem)| && Written(mem, keys, |keys|, size, line)
          && Ended(mem, keys, i, size, line)
      {
        if buckets[i] != NULL {
          EndBucket(keys, i, test);
        } else {
          assert EndedAt(mem, keys, i, size, line);
        }
        i := i + 1;
      }
    }

    /** What is kept in an unsigned short fits it: a bucket up to the limit, an element more,
        and, only when no size is good, the buckets of the largest size. */
    ghost predicate Narrow(keys: seq<Key>, maxSize: nat, bytes: nat)
      requires line > 0 && bytes >= 16
    {
      && Countable(keys, Short(bytes), line)
      && (maxSize > 0 && NoneGood(keys, FirstSize(|keys|, maxSize, bytes), maxSize, Short(bytes)) ==>
            Counts(keys, maxSize, line))
    }

    /** Every name fits a bucket. */
    ghost predicate Fits(keys: seq<Key>, maxSize: nat, bucketSize: nat) {
      maxSize > 0 && forall i :: 0 <= i < |keys| ==> bucketSize >= EltSize(keys[i].name) + PTR
    }

    /** `ngx_hash_init` */
    method Init(keys: seq<Key>, maxSize: nat, bucketSize: Word) returns (code: Code)
      requires line > 0 && line % PTR == 0
      requires Fits(keys, maxSize, bucketSize) && Bytes(bucketSize) >= 16 ==> Narrow(keys, maxSize, Bytes(bucketSize))
      requires forall i :: 0 <= i < |keys| && keys[i].present ==> keys[i].value != 0
      modifies this
      ensures code == ERROR <==> !Fits(keys, maxSize, bucketSize)
      ensures code == DIVZERO <==> maxSize > 0 && keys == [] && 8 <= bucketSize < 24
      ensures code != OK ==> unchanged(this)
      ensures code == OK ==> Valid() && this.keys == keys && Bytes(bucketSize) >= 16
      ensures code == OK ==>
        Chosen(keys, FirstSize(|keys|, maxSize, Bytes(bucketSize)), maxSize, Short(Bytes(bucketSize)), size)
    {
      if maxSize == 0 { return ERROR; }
      var fit := AllFit(keys, bucketSize);
      if !fit { return ERROR; }
      Divisor(keys, bucketSize);
      if Bytes(bucketSize) / 16 == 0 { return DIVZERO; }
      var start := FirstSize(|keys|, maxSize, Bytes(bucketSize));
      Build(keys, start, maxSize, Short(Bytes(bucketSize)));
      code := OK;
    }

    /** With a name that fits the divisor is not zero. */
    lemma {:induction false} Divisor(keys: seq<Key>, bucketSize: Word)
      requires forall i :: 0 <= i < |keys| ==> bucketSize >= EltSize(keys[i].name) + PTR
      ensures Bytes(bucketSize) / 16 == 0 <==> keys == [] && 8 <= bucketSize < 24
    {
      if keys != [] { assert bucketSize >= EltSize(keys[0].name) + PTR >= 24; }
    }

    /** Does every element fit in a bucket? */
    method AllFit(keys: seq<Key>, bucketSize: nat) returns (fit: bool)
      ensures fit <==> forall i :: 0 <= i < |keys| ==> bucketSize >= EltSize(keys[i].name) + PTR
    {
      var n := 0;
      while n < |keys|
        invariant n <= |keys| && forall i :: 0 <= i < n ==> bucketSize >= EltSize(keys[i].name) + PTR
      {
        if bucketSize < EltSize(keys[n].name) + PTR { return false; }
        n := n + 1;
      }
      fit := true;
    }

    /** The size to start with. */
    function FirstSize(count: nat, maxSize: nat, bytes: nat): (start: nat)
      requires bytes >= 16
      ensures start >= 1
    {
      if maxSize > 10000 && count > 0 && maxSize / count < 100 then maxSize - 1000
      else if count / (bytes / 16) != 0 then count / (bytes / 16)
      else 1
    }

    /** It is the number of buckets that elements of 16 bytes fill, and at least one; or, if
        there are fewer than 100 sizes for a key, not far from the largest size. */
    lemma {:induction false} FirstSizeIs(count: nat, maxSize: nat, bytes: nat)
      requires bytes >= 16
      ensures var start := FirstSize(count, maxSize, bytes);
        if maxSize > 10000 && count > 0 && maxSize < 100 * count then start == maxSize - 1000
        else (start == 1 && count < bytes / 16) || start * (bytes / 16) <= count < (start + 1) * (bytes / 16)
    {
      Between(count, bytes / 16);
      if count > 0 { Between(maxSize, count); HundredTimes(maxSize / count, count, maxSize); }
    }

    /** The smallest good size from `start` on, or the largest size if none is good. */
    ghost predicate Chosen(keys: seq<Key>, start: nat, maxSize: nat, limit: nat, size: nat)
    {
      && 1 <= size <= maxSize && 1 <= start && (forall s :: start <= s < size ==> !Good(keys, s, limit))
      && ((start <= size && Good(keys, size, limit)) || (size == maxSize && NoneGood(keys, start, maxSize, limit)))
    }

    method Build(keys: seq<Key>, start: nat, maxSize: nat, limit: nat)
      requires line > 0 && line % PTR == 0 && 1 <= start && 1 <= maxSize && Countable(keys, limit, line)
      requires NoneGood(keys, start, maxSize, limit) ==> Counts(keys, maxSize, line)
      requires forall i :: 0 <= i < |keys| && keys[i].present ==> keys[i].value != 0
      modifies this
      ensures Valid() && this.keys == keys && Chosen(keys, start, maxSize, limit, size)
    {
      size := ChooseSize(keys, start, maxSize, limit);
      if Good(keys, size, limit) { GoodCounts(keys, size, limit, line); }
      Fill(keys);
    }

    /** The buckets are laid out and filled. */
    method Fill(keys: seq<Key>)
      requires line > 0 && line % PTR == 0 && size > 0 && Counts(keys, size, line) && Named(keys)
      requires forall i :: 0 <= i < |keys| && keys[i].present ==> keys[i].value != 0
      modifies this
      ensures Valid() && this.keys == keys && size == old(size)
    {
      var test := CountBytes(keys, size);
      RoundUp(keys, size, test);
      var len;
      buckets, len := PlaceBuckets(keys, size, test);
      mem := seq(len, i => -1);
      this.keys := keys;
      var written := new nat[size](_ => 0);
      WriteElements(keys, written);
      EndBuckets(keys, written);
    }

    /** Is this the name of the element at `o`? */
    method SameName(o: nat, name: Name, ghost k: Key) returns (same: bool)
      requires EltAt(mem, o, k)
      ensures same <==> LowerAll(k.name) == name
    {
      assert |k.name| + 10 <= EltSize(k.name);
      if |name| != mem[o + 8] { return false; }
      var i := 0;
      while i < |name|
        invariant i <= |name| && forall j :: 0 <= j < i ==> name[j] == LowerAll(k.name)[j]
      {
        if name[i] as int != mem[o + 10 + i] { return false; }
        i := i + 1;
      }
      same := true;
    }

    /** The cursor is at the place of key `i` of bucket `b`, or behind the last key. */
    ghost predicate Cursor(elt: int, i: nat, b: nat)
      reads this
    {
      && size > 0 && line > 0 && i <= |keys| && (i < |keys| ==> InBucket(keys[i], size, b))
      && elt == Start(keys, size, b, line) + Total(keys, i, size, b)
      && 0 <= elt < |mem| && (mem[elt] != 0 <==> i < |keys|) && elt % PTR == 0
    }

    /** From the start of a bucket to the place of its first key, or from behind a key to
        that of the next. */
    lemma {:induction false} CursorFrom(i: nat, b: nat, name: Name) returns (k: nat)
      requires Valid() && line % PTR == 0 && b < size && buckets[b] != NULL && i <= |keys|
      ensures i <= k && Cursor(Start(keys, size, b, line) + Total(keys, i, size, b), k, b)
      ensures Lookup(keys, k, size, b, name) == Lookup(keys, i, size, b, name)
    {
      k := SkipTo(keys, i, size, b, name);
      NotNull(k, b);
      StartAligned(keys, size, b, line);
      TotalAligned(keys, k, size, b);
      SumAligned(Start(keys, size, b, line), Total(keys, k, size, b));
    }

    /** The step from an element to the next one. */
    method Next(elt: nat, name: Name, ghost i: nat, ghost b: nat) returns (next: int, ghost k: nat)
      requires Valid() && line % PTR == 0 && b < size && buckets[b] != NULL && Cursor(elt, i, b) && i < |keys|
      ensures i < k && Cursor(next, k, b)
      ensures Lookup(keys, k, size, b, name) == Lookup(keys, i + 1, size, b, name)
    {
      assert WrittenAt(mem, keys, i, size, line);
      NextElement(elt, keys[i].name);
      k := CursorFrom(i + 1, b, name);
      next := Align(elt + 10 + mem[elt + 8], PTR);
    }

    /** `ngx_hash_find`: the value of the first key of the bucket with this name. */
    method Find(hash: nat, name: Name) returns (value: int)
      requires Valid() && line % PTR == 0
      ensures value == Lookup(keys, 0, size, hash % size, name)
    {
      var b := hash % size;
      var elt := buckets[b];
      if elt == NULL {
        ghost var k := SkipTo(keys, 0, size, b, name);
        TotalNone(k, b);
        return 0;
      }
      ghost var i := CursorFrom(0, b, name);
      while mem[elt] != 0
        invariant Cursor(elt, i, b) && Lookup(keys, i, size, b, name) == Lookup(keys, 0, size, b, name)
        decreases |keys| - i
      {
        assert WrittenAt(mem, keys, i, size, line);
        var same := SameName(elt, name, keys[i]);
        if same { return mem[elt]; }
        elt, i := Next(elt, name, i, b);
      }
      value := 0;
    }

    /** The keys are distinct but for case, and hashed by their names in lower case. */
    ghost predicate Proper()
      reads this
    {
      && (forall i :: 0 <= i < |keys| && keys[i].present ==> keys[i].hash == HashKey(LowerAll(keys[i].name)))
      && forall i, j :: 0 <= i < j < |keys| && keys[i].present && keys[j].present ==>
        LowerAll(keys[i].name) != LowerAll(keys[j].name)
    }

    /** `ngx_hash_strlow` and `ngx_hash_find`: a name is found, in whatever case, exactly if
        it is the name of a key. */
    method FindAnyCase(name: Name) returns (value: int)
      requires Valid() && line % PTR == 0 && Proper()
      ensures forall k :: 0 <= k < |keys| && keys[k].present && LowerAll(keys[k].name) == LowerAll(name) ==>
        value == keys[k].value
      ensures value == 0 <==> forall k :: 0 <= k < |keys| && keys[k].present ==>
        LowerAll(keys[k].name) != LowerAll(name)
    {
      var low, hash := StrLow(name);
      value := Find(hash, low);
      Found(low);
    }

    /** Looking in the bucket of the hash of a name finds the value of the name. */
    lemma {:induction false} Found(name: Name)
      requires Valid() && Proper()
      ensures var value := Lookup(keys, 0, size, HashKey(name) % size, name);
        && (forall k :: 0 <= k < |keys| && keys[k].present && LowerAll(keys[k].name) == name ==> value == keys[k].value)
        && (value == 0 <==> forall k :: 0 <= k < |keys| && keys[k].present ==> LowerAll(keys[k].name) != name)
    {
      BucketIsEnough(keys, 0, size, HashKey, name);
      forall k | 0 <= k < |keys| && keys[k].present && LowerAll(keys[k].name) == name
        ensures Search(keys, 0, name) == keys[k].value
      {
        SearchFinds(keys, 0, k);
      }
      if forall k :: 0 <= k < |keys| && keys[k].present ==> LowerAll(keys[k].name) != name {
        SearchMisses(keys, 0, name);
      }
    }

    /** An empty bucket has no keys. */
    lemma {:induction false} TotalNone(i: nat, b: nat)
      requires Valid() && b < size && buckets[b] == NULL && i <= |keys| && (i < |keys| ==> InBucket(keys[i], size, b))
      ensures i == |keys|
    {
      if i < |keys| { TotalStep(keys, i, |keys|, size, b); }
    }

    /** At the place of key `i` there is a value, and behind the last key there is none. */
    lemma {:induction false} NotNull(i: nat, b: nat)
      requires Valid() && b < size && buckets[b] != NULL && i <= |keys| && (i < |keys| ==> InBucket(keys[i], size, b))
      ensures var o := Start(keys, size, b, line) + Total(keys, i, size, b); o < |mem| && (mem[o] != 0 <==> i < |keys|)
    {
      if i < |keys| {
        assert WrittenAt(mem, keys, i, size, line);
      } else {
        assert EndedAt(mem, keys, b, size, line);
      }
    }
  }

  /** `ngx_hash_strlow`: the name in lower case, and its hash. */
  method StrLow(name: Name) returns (low: Name, key: nat)
    ensures low == LowerAll(name) && key == HashKey(low)
  {
    low, key := [], 0;
    var i := 0;
    while i < |name|
      invariant i <= |name| && low == LowerAll(name)[..i] && key == HashKey(low)
    {
      assert (low + [Lower(name[i])])[..i] == low;
      low := low + [Lower(name[i])];
      key := HashStep(key, low[i]);
      i := i + 1;
    }
  }

  /** The null pointer behind the elements of bucket `b` touches none of them. */
  lemma {:induction false} EndWritten(m: Memory, keys: seq<Key>, b: nat, size: nat, line: nat)
    requires size > 0 && line > 0 && Written(m, keys, |keys|, size, line) && Total(keys, |keys|, size, b) > 0
    requires Start(keys, size, b, line) + Total(keys, |keys|, size, b) < |m|
    ensures Written(m[Start(keys, size, b, line) + Total(keys, |keys|, size, b) := 0], keys, |keys|, size, line)
  {
    var o := Start(keys, size, b, line) + Total(keys, |keys|, size, b);
    var m' := m[o := 0];
    forall i | 0 <= i < |keys| ensures WrittenAt(m', keys, i, size, line) {
      if keys[i].present {
        assert WrittenAt(m, keys, i, size, line);
        var c := keys[i].hash % size;
        InRoom(keys, i, size, line);
        if c < b { StartMono(keys, c, b, size, line); }
        if b < c { StartMono(keys, b, c, size, line); }
        EltFrame(m, m', Address(keys, i, size, line), keys[i], o, o + 1);
      }
    }
  }

  /** ... nor the null pointers of other buckets. */
  lemma {:induction false} EndEnded(m: Memory, keys: seq<Key>, b: nat, size: nat, line: nat)
    requires size > 0 && line > 0 && Ended(m, keys, b, size, line) && Total(keys, |keys|, size, b) > 0
    requires Start(keys, size, b, line) + Total(keys, |keys|, size, b) < |m|
    ensures Ended(m[Start(keys, size, b, line) + Total(keys, |keys|, size, b) := 0], keys, b + 1, size, line)
  {
    var m' := m[Start(keys, size, b, line) + Total(keys, |keys|, size, b) := 0];
    forall c | 0 <= c < b + 1 ensures EndedAt(m', keys, c, size, line) {
      if c < b { assert EndedAt(m, keys, c, size, line); }
    }
  }

  /** Writing key `n` does not touch the keys before it. */
  lemma {:induction false} StillWritten(m: Memory, m': Memory, keys: seq<Key>, n: nat, size: nat, line: nat)
    requires n < |keys| && size > 0 && line > 0 && keys[n].present && Written(m, keys, n, size, line)
    requires var o := Address(keys, n, size, line); Only(m, m', o, o + EltSize(keys[n].name)) && EltAt(m', o, keys[n])
    ensures Written(m', keys, n + 1, size, line)
  {
    forall i | 0 <= i < n + 1 ensures WrittenAt(m', keys, i, size, line) {
      if i < n && keys[i].present {
        assert WrittenAt(m, keys, i, size, line);
        Disjoint(keys, i, n, size, line);
        var o := Address(keys, n, size, line);
        EltFrame(m, m', Address(keys, i, size, line), keys[i], o, o + EltSize(keys[n].name));
      }
    }
  }
}
