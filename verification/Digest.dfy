/** The streaming digests of ngx_sha1.c and ngx_md5.c. */
module Digests {
  import opened Words
  import opened DigestSpec

  lemma {:induction false} FinalBits(m: Bytes, bytes: Word)
    requires bytes == |m| % W64
    ensures bytes * 8 % W64 == BitLength(|m|)
  {
    var q := |m| / W64;
    assert |m| * 8 == bytes * 8 + (q * 8) * W64;
  }

  lemma {:induction false} LengthSum(m: Bytes, data: Bytes, bytes: Word)
    requires bytes == |m| % W64
    ensures (bytes + |data|) % W64 == |m + data| % W64
  {
  }

  lemma {:induction false} UsedOf(m: Bytes, bytes: Word)
    requires bytes == |m| % W64
    ensures bytes % 64 == |Rest(m)|
  {
  }

  /** ngx_sha1_t and ngx_md5_t. */
  class Context {
    const kind: Kind
    const compress: Compress
    var bytes: Word
    var chain: Chain
    const buffer: array<Byte>

    /** The message so far. */
    ghost var message: Bytes

    /** The state is a function of the message alone: its length, its whole blocks and the
        rest of it. */
    ghost predicate Valid()
      reads this, buffer
    {
      && buffer.Length == BLOCK && bytes == |message| % W64
      && buffer[..|Rest(message)|] == Rest(message)
      && chain == Chained(kind, compress, Whole(message))
    }

    /** `ngx_sha1_init`, `ngx_md5_init` */
    constructor (kind: Kind, compress: Compress)
      ensures Valid() && message == [] && this.kind == kind && this.compress == compress && fresh(buffer)
    {
      this.kind, this.compress := kind, compress;
      bytes, chain, message := 0, Initial(kind), [];
      buffer := new Byte[BLOCK](_ => 0);
    }

    /** The block loop of `ngx_sha1_body` and `ngx_md5_body`. */
    method Body(data: Bytes)
      requires |data| >= BLOCK && |data| % BLOCK == 0
      modifies this`chain
      ensures chain == Absorb(compress, old(chain), data)
    {
      var p := 0;
      while p < |data|
        invariant p <= |data| && (|data| - p) % BLOCK == 0
        invariant Absorb(compress, chain, data[p..]) == Absorb(compress, old(chain), data)
      {
        NextBlock(compress, chain, data, p);
        chain := compress(chain, data[p..p + BLOCK]);
        p := p + BLOCK;
      }
    }

    /** ngx_memcpy(&ctx->buffer[used], data, |data|) */
    method Copy(used: nat, data: Bytes)
      requires used + |data| <= buffer.Length
      modifies buffer
      ensures buffer[..] == old(buffer[..used]) + data + old(buffer[used + |data|..])
    {
      var i := 0;
      while i < |data|
        invariant i <= |data|
        invariant forall k :: 0 <= k < buffer.Length ==>
          buffer[k] == if used <= k < used + i then data[k - used] else old(buffer[k])
      {
        buffer[used + i] := data[i];
        i := i + 1;
      }
    }

    /** ngx_memzero(&ctx->buffer[used], n) */
    method Zero(used: nat, n: nat)
      requires used + n <= buffer.Length
      modifies buffer
      ensures buffer[..] == old(buffer[..used]) + Zeros(n) + old(buffer[used + n..])
    {
      var i := 0;
      while i < n
        invariant i <= n
        invariant buffer[..used] == old(buffer[..used]) && (forall k :: used <= k < used + i ==> buffer[k] == 0)
        invariant buffer[used + i..] == old(buffer[used + i..])
      {
        buffer[used + i] := 0;
        i := i + 1;
      }
      assert buffer[used..used + n] == Zeros(n);
    }

    /** The buffer filled up and absorbed. */
    method FillBuffer(used: nat, data: Bytes, ghost m: Bytes)
      requires buffer.Length == BLOCK && used == |Rest(m)| && used + |data| == BLOCK
      requires buffer[..used] == Rest(m) && chain == Chained(kind, compress, Whole(m))
      modifies this`chain, buffer
      ensures |m + data| % BLOCK == 0 && chain == Chained(kind, compress, m + data)
    {
      ChainedBuffer(kind, compress, m, data);
      Copy(used, data);
      assert buffer[..] == Rest(m) + data;
      Body(buffer[..]);
    }

    /** A part of a block is only copied. */
    lemma {:induction false} KeepRest(m: Bytes, data: Bytes)
      requires buffer.Length == BLOCK && message == m + data && |Rest(m)| + |data| < BLOCK
      requires buffer[..|Rest(m)| + |data|] == Rest(m) + data
      requires chain == Chained(kind, compress, Whole(m)) && bytes == |message| % W64
      ensures Valid()
    {
      assert message == Whole(m) + (Rest(m) + data);
      SplitUnique(Whole(m), Rest(m) + data);
    }

    /** The whole blocks absorbed, and the rest kept. */
    method AbsorbRest(data0: Bytes, ghost m0: Bytes)
      requires buffer.Length == BLOCK && |m0| % BLOCK == 0 && chain == Chained(kind, compress, m0)
        && message == m0 + data0
      requires bytes == |message| % W64
      modifies this`chain, buffer
      ensures Valid()
    {
      var data := data0;
      ghost var m := m0;
      if |data| >= 64 {
        var whole := |data| / 64 * 64;
        ChainedBlocks(kind, compress, m, data[..whole]);
        Body(data[..whole]);
        m := m + data[..whole];
        data := data[whole..];
        assert message == m + data;
      }
      SplitUnique(m, data);
      Copy(0, data);
    }

    /** Less than a block: the buffer is not full yet. */
    method Keep(used: nat, data: Bytes, ghost m: Bytes)
      requires buffer.Length == BLOCK && message == m + data && used == |Rest(m)| && used + |data| < BLOCK
      requires buffer[..used] == Rest(m) && chain == Chained(kind, compress, Whole(m)) && bytes == |message| % W64
      modifies buffer
      ensures Valid()
    {
      Copy(used, data);
      assert buffer[..used + |data|] == Rest(m) + data;
      KeepRest(m, data);
    }

    /** `ngx_sha1_update`, `ngx_md5_update` */
    method Update(data0: Bytes)
      requires Valid()
      modifies this`bytes, this`chain, this`message, buffer
      ensures Valid() && message == old(message) + data0
    {
      var data := data0;
      UsedOf(message, bytes);
      LengthSum(message, data, bytes);
      var used := bytes % 64;
      bytes := (bytes + |data|) % W64;
      ghost var m := message;
      message := message + data;
      if used != 0 {
        var free := 64 - used;
        if |data| < free {
          Keep(used, data, m);
          return;
        }
        FillBuffer(used, data[..free], m);
        m := m + data[..free];
        data := data[free..];
        assert message == m + data;
      } else {
        NothingLeft(m);
      }
      AbsorbRest(data, m);
    }

    static lemma {:induction false} NothingLeft(m: Bytes)
      requires |Rest(m)| == 0
      ensures Whole(m) == m && |m| % BLOCK == 0
    {
    }

    /** The last block: what is in the buffer up to `used`, zeros and the length. */
    method LastBlock(used: nat, bits: Word, ghost start: Bytes, ghost n: nat)
      requires buffer.Length == BLOCK && used == |start| <= 56 && buffer[..used] == start && bits == BitLength(n)
      modifies this`chain, buffer
      ensures chain == compress(old(chain), LengthBlock(kind, start, n))
    {
      Zero(used, 56 - used);
      Copy(56, LengthBytes(kind, bits));
      assert buffer[..] == LengthBlock(kind, start, n);
      AbsorbBlock(compress, chain, LengthBlock(kind, start, n));
      Body(buffer[..]);
    }

    /** The mark fills its block up with zeros when the length has no room in it. */
    method FirstOfTwo(used: nat, ghost m: Bytes)
      requires buffer.Length == BLOCK && used == |Rest(m)| + 1 && buffer[..used] == Rest(m) + [0x80]
      modifies this`chain, buffer
      ensures chain == compress(old(chain), MarkBlock(m))
    {
      Zero(used, 64 - used);
      assert buffer[..] == MarkBlock(m);
      AbsorbBlock(compress, chain, MarkBlock(m));
      Body(buffer[..]);
    }

    /** `ngx_sha1_final`, `ngx_md5_final`: the digest of all that was passed to Update,
        however it was split. */
    method Final() returns (result: Bytes)
      requires Valid()
      modifies this`bytes, this`chain, buffer
      ensures result == Digest(kind, compress, message)
    {
      UsedOf(message, bytes);
      FinalBits(message, bytes);
      var used := bytes % 64;
      buffer[used] := 0x80;
      used := used + 1;
      assert buffer[..used] == Rest(message) + [0x80];
      var free := 64 - used;
      bytes := bytes * 8 % W64;
      if free < 8 {
        FinishTwo(kind, compress, message);
        FirstOfTwo(used, message);
        LastBlock(0, bytes, [], |message|);
      } else {
        FinishOne(kind, compress, message);
        LastBlock(used, bytes, Rest(message) + [0x80], |message|);
      }
      result := Output(kind, chain);
    }
  }
}
