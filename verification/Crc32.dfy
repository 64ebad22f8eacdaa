/** CRC-32 as ngx_crc32.h computes it. */
module Crc32 {
  import opened CrcSteps

  type Bytes = seq<bv8>

  /** The remainder after one more byte, bit by bit (section 8 of RFC 1952). */
  function FeedByte(crc: bv32, b: bv8): bv32 { FeedBits(crc, b as bv32, 8) }

  /** ... and after a string of bytes. */
  function Feed(crc: bv32, s: Bytes): bv32 {
    if s == [] then crc else FeedByte(Feed(crc, s[..|s| - 1]), s[|s| - 1])
  }

  const ONES: bv32 := 0xFFFFFFFF

  /** The CRC-32 of a string. */
  function Crc(s: Bytes): bv32 { Feed(ONES, s) ^ ONES }

  /** What is fed in pieces is fed as a whole. */
  lemma {:induction false} FeedConcat(crc: bv32, s: Bytes, t: Bytes)
    ensures Feed(crc, s + t) == Feed(Feed(crc, s), t)
  {
    if t == [] {
      assert s + t == s;
    } else {
      var last := |t| - 1;
      assert (s + t)[..|s + t| - 1] == s + t[..last] && (s + t)[|s + t| - 1] == t[last];
      FeedConcat(crc, s, t[..last]);
    }
  }

  lemma {:induction false} ByteEnds(c: bv32)
    requires c <= 0xFF
    ensures Iter(Half, c, 8) == 0
  {
    assert c >> 8 == 0;
    assert Iter(Half, c >> 8, 0) == 0;
    assert Iter(Half, c >> 7, 1) == 0;
    assert Iter(Half, c >> 6, 2) == 0;
    assert Iter(Half, c >> 5, 3) == 0;
    assert Iter(Half, c >> 4, 4) == 0;
    assert Iter(Half, c >> 3, 5) == 0;
    assert Iter(Half, c >> 2, 6) == 0;
    assert Iter(Half, c >> 1, 7) == 0;
  }

  lemma {:induction false} FedByte(crc: bv32, b: bv8, c: bv32, x: bv32)
    requires c == b as bv32 && x == crc ^ c && c <= 0xFF
    ensures FeedByte(crc, b) == Shift8(x)
  {
    ByteEnds(c);
    BitsAreSteps(crc, c, 8);
    XorZero(FeedBits(crc, c, 8));
  }

  lemma {:induction false} XorZero(x: bv32)
    ensures Xor(x, 0) == x
  {
  }

  /** One round of the loop with the large table. */
  method LookUpByte(crc: bv32, b: bv8) returns (r: bv32)
    ensures r == FeedByte(crc, b)
  {
    var c := b as bv32;
    var x := crc ^ c;
    var j := x & 0xFF;
    ByteStep(crc, c, x, j);
    FedByte(crc, b, c, x);
    r := Table256(j) ^ (crc >> 8);
  }

  /** Half a round of the loop with the small table. */
  method LookUpNibble(crc: bv32, m: bv32) returns (r: bv32)
    requires m <= 0xF
    ensures r == Shift4(crc ^ m)
  {
    var x := crc ^ m;
    var j := x & 0xF;
    NibbleStep(crc, m, x, j);
    r := Table16(j) ^ (crc >> 4);
  }

  /** One round of it. */
  method LookUpNibbles(crc: bv32, b: bv8) returns (r: bv32)
    ensures r == FeedByte(crc, b)
  {
    var c := b as bv32;
    var low, high := c & 0xF, c >> 4;
    assert low <= 0xF && high <= 0xF;
    NibblesMeet(crc, c, crc ^ low, high);
    FedByte(crc, b, c, crc ^ c);
    r := LookUpNibble(crc, low);
    r := LookUpNibble(r, high);
  }

  lemma {:induction false} NibblesMeet(crc: bv32, c: bv32, x: bv32, m: bv32)
    requires c <= 0xFF && x == crc ^ (c & 0xF) && m == c >> 4
    ensures Shift4(Shift4(x) ^ m) == Shift8(crc ^ c)
  {
    var high := c & 0xF0;
    NibbleParts(crc, c, x, high, crc ^ c);
    NibbleTop(c, high, m);
    TwoNibbles(x, high, crc ^ c, m);
  }

  lemma {:induction false} NibbleParts(crc: bv32, c: bv32, x: bv32, high: bv32, b: bv32)
    requires c <= 0xFF && x == crc ^ (c & 0xF) && high == c & 0xF0 && b == crc ^ c
    ensures x ^ high == b
  {
  }

  lemma {:induction false} NibbleTop(c: bv32, high: bv32, m: bv32)
    requires c <= 0xFF && high == c & 0xF0 && m == c >> 4
    ensures high & 0xF == 0 && high >> 4 == m
  {
  }

  /** `ngx_crc32_update` */
  method Update(crc: bv32, p: Bytes) returns (c: bv32)
    ensures c == Feed(crc, p)
  {
    c := crc;
    var i := 0;
    while i < |p|
      invariant i <= |p| && c == Feed(crc, p[..i])
    {
      c := LookUpByte(c, p[i]);
      assert p[..i + 1][..i] == p[..i];
      i := i + 1;
    }
    assert p[..|p|] == p;
  }

  /** `ngx_crc32_long` */
  method Long(p: Bytes) returns (crc: bv32)
    ensures crc == Crc(p)
  {
    crc := ONES;
    var i := 0;
    while i < |p|
      invariant i <= |p| && crc == Feed(ONES, p[..i])
    {
      crc := LookUpByte(crc, p[i]);
      assert p[..i + 1][..i] == p[..i];
      i := i + 1;
    }
    assert p[..|p|] == p;
    crc := crc ^ ONES;
  }

  /** `ngx_crc32_short` */
  method Short(p: Bytes) returns (crc: bv32)
    ensures crc == Crc(p)
  {
    crc := ONES;
    var i := 0;
    while i < |p|
      invariant i <= |p| && crc == Feed(ONES, p[..i])
    {
      crc := LookUpNibbles(crc, p[i]);
      assert p[..i + 1][..i] == p[..i];
      i := i + 1;
    }
    assert p[..|p|] == p;
    crc := crc ^ ONES;
  }

  /** All pieces, one after the other. */
  function Joined(pieces: seq<Bytes>): Bytes {
    if pieces == [] then [] else Joined(pieces[..|pieces| - 1]) + pieces[|pieces| - 1]
  }

  /** `ngx_crc32_init`, any number of updates and `ngx_crc32_final`. */
  method InPieces(pieces: seq<Bytes>) returns (crc: bv32)
    ensures crc == Crc(Joined(pieces))
  {
    crc := ONES;
    var i := 0;
    while i < |pieces|
      invariant i <= |pieces| && crc == Feed(ONES, Joined(pieces[..i]))
    {
      crc := Update(crc, pieces[i]);
      assert pieces[..i + 1][..i] == pieces[..i];
      FeedConcat(ONES, Joined(pieces[..i]), pieces[i]);
      i := i + 1;
    }
    assert pieces[..|pieces|] == pieces;
    crc := crc ^ ONES;
  }
}
