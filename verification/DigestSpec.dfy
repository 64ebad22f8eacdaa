/** SHA-1 and MD5 of a whole message, apart from the compression function. */
module DigestSpec {
  import opened Words

  datatype Kind = Sha1 | Md5

  type Byte = b: nat | b < 256
  type Bytes = seq<Byte>
  type Word32 = w: nat | w < 0x1_0000_0000

  /** The chaining value: five words, or four. */
  type Chain = seq<Word32>

  const BLOCK := 64

  /** The compression function, which is left open. */
  type Compress = (Chain, Bytes) -> Chain

  function Initial(kind: Kind): Chain {
    match kind
    case Sha1 => [0x67452301, 0xefcdab89, 0x98badcfe, 0x10325476, 0xc3d2e1f0]
    case Md5 => [0x67452301, 0xefcdab89, 0x98badcfe, 0x10325476]
  }

  /** The compression function folded over the blocks of a string. */
  function Absorb(f: Compress, h: Chain, s: Bytes): Chain
    requires |s| % BLOCK == 0
    decreases |s|
  {
    if s == [] then h else Absorb(f, f(h, s[..BLOCK]), s[BLOCK..])
  }

  function Zeros(n: nat): (s: Bytes)
    ensures |s| == n && forall i :: 0 <= i < n ==> s[i] == 0
  {
    seq(n, i => 0)
  }

  /** Byte `k` of a 64-bit word, the lowest being 0. */
  function ByteOf(w: Word, k: nat): Byte
    requires k < 8
  {
    w / [1, 0x100, 0x1_0000, 0x100_0000, 0x1_0000_0000, 0x100_0000_0000, 0x1_0000_0000_0000,
      0x100_0000_0000_0000][k] % 256
  }

  /** A length in bits: highest byte first for SHA-1, lowest first for MD5. */
  function LengthBytes(kind: Kind, bits: Word): (s: Bytes)
    ensures |s| == 8
  {
    match kind
    case Sha1 => [ByteOf(bits, 7), ByteOf(bits, 6), ByteOf(bits, 5), ByteOf(bits, 4), ByteOf(bits, 3),
      ByteOf(bits, 2), ByteOf(bits, 1), ByteOf(bits, 0)]
    case Md5 => [ByteOf(bits, 0), ByteOf(bits, 1), ByteOf(bits, 2), ByteOf(bits, 3), ByteOf(bits, 4), ByteOf(bits, 5),
      ByteOf(bits, 6), ByteOf(bits, 7)]
  }

  /** The length of a message in bits, as far as 64 bits hold it. */
  function BitLength(n: nat): Word { n * 8 % W64 }

  /** The zeros between the mark and the length: as few as fill the last block. */
  function PadZeros(n: nat): (z: nat)
    ensures (n + 1 + z + 8) % BLOCK == 0 && z < BLOCK
  {
    (119 - n % 64) % 64
  }

  /** The padded message (section 5.1.1 of FIPS 180-4; sections 3.1 and 3.2 of RFC 1321). */
  function Padded(kind: Kind, m: Bytes): (s: Bytes)
    ensures |s| % BLOCK == 0
  {
    m + [0x80] + Zeros(PadZeros(|m|)) + LengthBytes(kind, BitLength(|m|))
  }

  /** The bytes of a chaining value in the order of the digest. */
  function WordBytes(kind: Kind, w: Word32): Bytes {
    match kind
    case Sha1 => [w / 0x100_0000 % 256, w / 0x1_0000 % 256, w / 0x100 % 256, w % 256]
    case Md5 => [w % 256, w / 0x100 % 256, w / 0x1_0000 % 256, w / 0x100_0000 % 256]
  }

  function Output(kind: Kind, h: Chain): Bytes {
    if h == [] then [] else WordBytes(kind, h[0]) + Output(kind, h[1..])
  }

  /** The digest of a message. */
  function Digest(kind: Kind, f: Compress, m: Bytes): Bytes {
    Output(kind, Absorb(f, Initial(kind), Padded(kind, m)))
  }

  // ---- What the encodings mean ----

  function BigEndian(s: Bytes): nat { if s == [] then 0 else BigEndian(s[..|s| - 1]) * 256 + s[|s| - 1] }

  function LittleEndian(s: Bytes): nat { if s == [] then 0 else s[0] + 256 * LittleEndian(s[1..]) }

  lemma {:induction false} AbsorbConcat(f: Compress, h: Chain, s: Bytes, t: Bytes)
    requires |s| % BLOCK == 0 && |t| % BLOCK == 0
    ensures |s + t| % BLOCK == 0 && Absorb(f, h, s + t) == Absorb(f, Absorb(f, h, s), t)
    decreases |s|
  {
    if s == [] {
      assert s + t == t;
    } else {
      assert (s + t)[..BLOCK] == s[..BLOCK] && (s + t)[BLOCK..] == s[BLOCK..] + t;
      AbsorbConcat(f, f(h, s[..BLOCK]), s[BLOCK..], t);
    }
  }

  /** One more block. */
  lemma {:induction false} NextBlock(f: Compress, h: Chain, data: Bytes, p: nat)
    requires p < |data| && (|data| - p) % BLOCK == 0
    ensures p + BLOCK <= |data| && (|data| - (p + BLOCK)) % BLOCK == 0
    ensures Absorb(f, h, data[p..]) == Absorb(f, f(h, data[p..p + BLOCK]), data[p + BLOCK..])
  {
    var s := data[p..];
    assert s[..BLOCK] == data[p..p + BLOCK] && s[BLOCK..] == data[p + BLOCK..];
  }

  lemma {:induction false} AbsorbBlock(f: Compress, h: Chain, b: Bytes)
    requires |b| == BLOCK
    ensures Absorb(f, h, b) == f(h, b)
  {
    assert b[..BLOCK] == b && b[BLOCK..] == [];
    assert Absorb(f, f(h, b), []) == f(h, b);
  }

  /** The chaining value after a message of whole blocks. */
  function Chained(kind: Kind, f: Compress, m: Bytes): Chain
    requires |m| % BLOCK == 0
  {
    Absorb(f, Initial(kind), m)
  }

  /** The whole blocks of a message ... */
  function Whole(m: Bytes): (s: Bytes)
    ensures |s| % BLOCK == 0 && |s| == |m| - |m| % BLOCK
  {
    m[..|m| - |m| % BLOCK]
  }

  /** ... and the part of a block after them. */
  function Rest(m: Bytes): (s: Bytes)
    ensures |s| == |m| % BLOCK && Whole(m) + s == m
  {
    m[|m| - |m| % BLOCK..]
  }

  /** A message is split in one way. */
  lemma {:induction false} SplitUnique(m: Bytes, rest: Bytes)
    requires |m| % BLOCK == 0 && |rest| < BLOCK
    ensures Whole(m + rest) == m && Rest(m + rest) == rest
  {
    assert |m + rest| % BLOCK == |rest|;
  }

  /** More than a block from the rest on: the block is absorbed. */
  lemma {:induction false} ChainedBuffer(kind: Kind, f: Compress, m: Bytes, data: Bytes)
    requires |Rest(m)| + |data| == BLOCK
    ensures |m + data| % BLOCK == 0
    ensures Chained(kind, f, m + data) == Absorb(f, Chained(kind, f, Whole(m)), Rest(m) + data)
  {
    assert m + data == Whole(m) + (Rest(m) + data);
    AbsorbConcat(f, Initial(kind), Whole(m), Rest(m) + data);
  }

  lemma {:induction false} ChainedBlocks(kind: Kind, f: Compress, m: Bytes, data: Bytes)
    requires |m| % BLOCK == 0 && |data| % BLOCK == 0
    ensures |m + data| % BLOCK == 0
    ensures Chained(kind, f, m + data) == Absorb(f, Chained(kind, f, m), data)
  {
    AbsorbConcat(f, Initial(kind), m, data);
  }

  // ---- The last one or two blocks ----

  /** The block with the length, after `start`. */
  function LengthBlock(kind: Kind, start: Bytes, n: nat): (s: Bytes)
    requires |start| <= 56
    ensures |s| == BLOCK
  {
    start + Zeros(56 - |start|) + LengthBytes(kind, BitLength(n))
  }

  /** The block before it, if the length has no room in the block with the mark. */
  function MarkBlock(m: Bytes): (s: Bytes)
    ensures |s| == BLOCK
  {
    Rest(m) + [0x80] + Zeros(63 - |Rest(m)|)
  }

  lemma {:induction false} PaddedOne(kind: Kind, m: Bytes)
    requires |Rest(m)| < 56
    ensures Padded(kind, m) == Whole(m) + LengthBlock(kind, Rest(m) + [0x80], |m|)
  {
    assert PadZeros(|m|) == 55 - |Rest(m)|;
  }

  lemma {:induction false} PaddedTwo(kind: Kind, m: Bytes)
    requires |Rest(m)| >= 56
    ensures Padded(kind, m) == Whole(m) + MarkBlock(m) + LengthBlock(kind, [], |m|)
  {
    var u := |Rest(m)|;
    assert PadZeros(|m|) == 119 - u;
    assert Zeros(119 - u) == Zeros(63 - u) + Zeros(56);
  }

  lemma {:induction false} AbsorbOneMore(f: Compress, h: Chain, s: Bytes, b: Bytes)
    requires |s| % BLOCK == 0 && |b| == BLOCK
    ensures |s + b| % BLOCK == 0 && Absorb(f, h, s + b) == f(Absorb(f, h, s), b)
  {
    AbsorbConcat(f, h, s, b);
    AbsorbBlock(f, Absorb(f, h, s), b);
  }

  lemma {:induction false} FinishOne(kind: Kind, f: Compress, m: Bytes)
    requires |Rest(m)| < 56
    ensures Chained(kind, f, Padded(kind, m)) == f(Chained(kind, f, Whole(m)), LengthBlock(kind, Rest(m) + [0x80], |m|))
  {
    PaddedOne(kind, m);
    AbsorbOneMore(f, Initial(kind), Whole(m), LengthBlock(kind, Rest(m) + [0x80], |m|));
  }

  lemma {:induction false} FinishTwo(kind: Kind, f: Compress, m: Bytes)
    requires |Rest(m)| >= 56
    ensures Chained(kind, f, Padded(kind, m))
      == f(f(Chained(kind, f, Whole(m)), MarkBlock(m)), LengthBlock(kind, [], |m|))
  {
    PaddedTwo(kind, m);
    AbsorbOneMore(f, Initial(kind), Whole(m), MarkBlock(m));
    AbsorbOneMore(f, Initial(kind), Whole(m) + MarkBlock(m), LengthBlock(kind, [], |m|));
  }

  lemma {:induction false} ByteSteps(w: Word, q: seq<nat>)
    requires |q| == 9 && q[0] == w && forall k :: 0 <= k < 8 ==> q[k + 1] == q[k] / 256
    ensures forall k :: 0 <= k < 8 ==> ByteOf(w, k) == q[k] % 256
    ensures q[8] == 0
  {
    assert q[1] == q[0] / 256 && q[2] == q[1] / 256 && q[3] == q[2] / 256 && q[4] == q[3] / 256;
    assert q[5] == q[4] / 256 && q[6] == q[5] / 256 && q[7] == q[6] / 256 && q[8] == q[7] / 256;
    assert q[2] == w / 0x1_0000;
    assert q[3] == w / 0x100_0000;
    assert q[4] == w / 0x1_0000_0000;
    assert q[5] == w / 0x100_0000_0000;
    assert q[6] == w / 0x1_0000_0000_0000;
    assert q[7] == w / 0x100_0000_0000_0000;
  }

  function Quotients(w: nat, n: nat): (q: seq<nat>)
    ensures |q| == n + 1 && q[0] == w && forall k :: 0 <= k < n ==> q[k + 1] == q[k] / 256
  {
    if n == 0 then [w] else [w] + Quotients(w / 256, n - 1)
  }

  lemma {:induction false} LittleFrom(q: seq<nat>, s: Bytes, k: nat)
    requires |q| == |s| + 1 && k <= |s| && q[|s|] == 0
    requires forall i :: 0 <= i < |s| ==> q[i + 1] == q[i] / 256 && s[i] == q[i] % 256
    ensures LittleEndian(s[k..]) == q[k]
    decreases |s| - k
  {
    if k < |s| {
      assert s[k..][1..] == s[k + 1..] && s[k..][0] == s[k];
      LittleFrom(q, s, k + 1);
      assert q[k] == 256 * q[k + 1] + s[k];
    }
  }

  function Reversed(s: Bytes): Bytes { if s == [] then [] else Reversed(s[1..]) + [s[0]] }

  lemma {:induction false} BigIsLittle(s: Bytes)
    ensures BigEndian(Reversed(s)) == LittleEndian(s)
  {
    if s != [] {
      var r := Reversed(s[1..]);
      assert (r + [s[0]])[..|r + [s[0]]| - 1] == r;
      BigIsLittle(s[1..]);
    }
  }

  /** The length is written so that it can be read back: the lowest byte first by MD5, and
      in reverse by SHA-1. */
  lemma {:induction false} LengthRead(bits: Word)
    ensures LittleEndian(LengthBytes(Md5, bits)) == bits
    ensures LengthBytes(Sha1, bits) == Reversed(LengthBytes(Md5, bits)) && BigEndian(LengthBytes(Sha1, bits)) == bits
  {
    var q, s := Quotients(bits, 8), LengthBytes(Md5, bits);
    ByteSteps(bits, q);
    LittleFrom(q, s, 0);
    assert s[0..] == s;
    ReversedEight(s);
    BigIsLittle(s);
  }

  lemma {:induction false} ReversedEight(s: Bytes)
    requires |s| == 8
    ensures Reversed(s) == [s[7], s[6], s[5], s[4], s[3], s[2], s[1], s[0]]
  {
    assert Reversed(s[8..]) == [];
    assert Reversed(s[7..]) == [s[7]];
    assert s[6..][1..] == s[7..] && s[5..][1..] == s[6..] && s[4..][1..] == s[5..] && s[3..][1..] == s[4..];
    assert s[2..][1..] == s[3..] && s[1..][1..] == s[2..];
    assert Reversed(s[6..]) == [s[7], s[6]];
    assert Reversed(s[5..]) == [s[7], s[6], s[5]];
    assert Reversed(s[4..]) == [s[7], s[6], s[5], s[4]];
    assert Reversed(s[3..]) == [s[7], s[6], s[5], s[4], s[3]];
    assert Reversed(s[2..]) == [s[7], s[6], s[5], s[4], s[3], s[2]];
    assert Reversed(s[1..]) == [s[7], s[6], s[5], s[4], s[3], s[2], s[1]];
  }

  // ---- The bytes of a digest ----

  /** A word is written so that it can be read back, the highest byte first by SHA-1 and the
      lowest first by MD5. */
  lemma {:induction false} WordRead(w: Word32)
    ensures |WordBytes(Sha1, w)| == 4 && BigEndian(WordBytes(Sha1, w)) == w
    ensures |WordBytes(Md5, w)| == 4 && LittleEndian(WordBytes(Md5, w)) == w
  {
    var a, b, c, d := w % 256, w / 0x100 % 256, w / 0x1_0000 % 256, w / 0x100_0000 % 256;
    FourBytes(w);
    BigFour(d, c, b, a);
    LittleFour(a, b, c, d);
  }

  lemma {:induction false} FourBytes(w: Word32)
    ensures w % 256 + 0x100 * (w / 0x100 % 256) + 0x1_0000 * (w / 0x1_0000 % 256)
      + 0x100_0000 * (w / 0x100_0000 % 256) == w
  {
    var a, b, c := w / 0x100, w / 0x1_0000, w / 0x100_0000;
    assert a / 256 == b && b / 256 == c && c < 256;
    assert w == 256 * a + w % 256 && a == 256 * b + a % 256 && b == 256 * c + b % 256;
  }

  lemma {:induction false} BigFour(a: Byte, b: Byte, c: Byte, d: Byte)
    ensures BigEndian([a, b, c, d]) == 0x100_0000 * a + 0x1_0000 * b + 0x100 * c + d
  {
    assert [a, b, c, d][..3] == [a, b, c] && [a, b, c][..2] == [a, b] && [a, b][..1] == [a] && [a][..0] == [];
    assert BigEndian([a]) == a;
    assert BigEndian([a, b]) == 256 * a + b;
    assert BigEndian([a, b, c]) == 256 * (256 * a + b) + c;
  }

  lemma {:induction false} LittleFour(a: Byte, b: Byte, c: Byte, d: Byte)
    ensures LittleEndian([a, b, c, d]) == a + 0x100 * b + 0x1_0000 * c + 0x100_0000 * d
  {
    assert [a, b, c, d][1..] == [b, c, d] && [b, c, d][1..] == [c, d] && [c, d][1..] == [d] && [d][1..] == [];
    assert LittleEndian([d]) == d;
    assert LittleEndian([c, d]) == c + 256 * d;
    assert LittleEndian([b, c, d]) == b + 256 * (c + 256 * d);
  }

  /** Bytes 4 * i to 4 * i + 3 of a digest are those of word `i`. */
  lemma {:induction false} DigestWord(kind: Kind, h: Chain, i: nat)
    requires i < |h|
    ensures |Output(kind, h)| == 4 * |h| && Output(kind, h)[4 * i..4 * i + 4] == WordBytes(kind, h[i])
    decreases |h|
  {
    var first, rest := WordBytes(kind, h[0]), Output(kind, h[1..]);
    if |h| > 1 {
      DigestWord(kind, h[1..], if i == 0 then 0 else i - 1);
    } else {
      assert h[1..] == [];
    }
    if i > 0 { assert (first + rest)[4 * i..4 * i + 4] == rest[4 * (i - 1)..4 * (i - 1) + 4]; }
  }

  /** The chaining value starts with the bytes 01 23 ... ef fe dc ... 10 (section 3.3 of RFC
      1321), in words of the lowest byte first, and with one word more for SHA-1. */
  lemma {:induction false} InitialBytes()
    ensures Output(Md5, Initial(Md5)) == [0x01, 0x23, 0x45, 0x67, 0x89, 0xab, 0xcd, 0xef,
                                          0xfe, 0xdc, 0xba, 0x98, 0x76, 0x54, 0x32, 0x10]
    ensures Initial(Sha1)[..4] == Initial(Md5) && WordBytes(Sha1, Initial(Sha1)[4]) == [0xc3, 0xd2, 0xe1, 0xf0]
  {
    OutputFour(Md5, 0x67452301, 0xefcdab89, 0x98badcfe, 0x10325476);
    LowFirst(0x67452301, 0x01, 0x23, 0x45, 0x67);
    LowFirst(0xefcdab89, 0x89, 0xab, 0xcd, 0xef);
    LowFirst(0x98badcfe, 0xfe, 0xdc, 0xba, 0x98);
    LowFirst(0x10325476, 0x76, 0x54, 0x32, 0x10);
    HighFirst(0xc3d2e1f0, 0xc3, 0xd2, 0xe1, 0xf0);
  }

  lemma {:induction false} HighFirst(w: Word32, a: Byte, b: Byte, c: Byte, d: Byte)
    requires w == d + 0x100 * c + 0x1_0000 * b + 0x100_0000 * a
    ensures WordBytes(Sha1, w) == [a, b, c, d]
  {
    LowFirst(w, d, c, b, a);
  }

  lemma {:induction false} LowFirst(w: Word32, a: Byte, b: Byte, c: Byte, d: Byte)
    requires w == a + 0x100 * b + 0x1_0000 * c + 0x100_0000 * d
    ensures WordBytes(Md5, w) == [a, b, c, d]
  {
    assert w / 0x100 == b + 0x100 * c + 0x1_0000 * d;
    assert w / 0x1_0000 == c + 0x100 * d;
  }

  lemma {:induction false} OutputFour(kind: Kind, a: Word32, b: Word32, c: Word32, d: Word32)
    ensures Output(kind, [a, b, c, d]) == WordBytes(kind, a) + WordBytes(kind, b) + WordBytes(kind, c)
      + WordBytes(kind, d)
  {
    assert [a, b, c, d][1..] == [b, c, d] && [b, c, d][1..] == [c, d] && [c, d][1..] == [d] && [d][1..] == [];
    assert Output(kind, [d]) == WordBytes(kind, d) + Output(kind, []);
    assert Output(kind, [c, d]) == WordBytes(kind, c) + Output(kind, [d]);
    assert Output(kind, [b, c, d]) == WordBytes(kind, b) + Output(kind, [c, d]);
  }
}
