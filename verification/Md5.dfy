/**
 MD5 in pieces (ngx_md5.c): however the data is cut into updates, the block function is fed the
 padded message of sections 3.1 to 3.4 of RFC 1321, block by block.

 The block function itself, four rounds of sixteen steps, is a parameter; its optimised basic
 functions are compared with the definitions of the RFC.
 */
module Md5 {
  import opened Words
  import opened Arithmetic

  const BLOCK: nat := 64

  /** The words a, b, c and d. */
  datatype Chain = Chain(a: nat, b: nat, c: nat, d: nat)

  type Block = (Chain, seq<Byte>) -> Chain

  const INITIAL: Chain := Chain(0x67452301, 0xefcdab89, 0x98badcfe, 0x10325476)

  // ------------------------------------------------------------------------- RFC 1321

  /** All whole blocks of `m`, from the first on. */
  function Blocks(body: Block, s: Chain, m: seq<Byte>): Chain
    decreases |m|
  {
    if |m| < BLOCK then s else Blocks(body, body(s, m[..BLOCK]), m[BLOCK..])
  }

  function Zeros(n: nat): (z: seq<Byte>)
    ensures |z| == n
  {
    seq(n, i => 0)
  }

  /** Low-order byte first. */
  function Little(x: nat, n: nat): (s: seq<Byte>)
    ensures |s| == n
  {
    if n == 0 then [] else [x % 256] + Little(x / 256, n - 1)
  }

  /** Zeros needed after `n` bytes and the one bit. */
  function PadCount(n: nat): nat { (119 - n % BLOCK) % BLOCK }

  /** The low-order 64 bits of the length in bits. */
  function BitCount(n: nat): Word { 8 * n % WORD }

  /** Sections 3.1 and 3.2: a one bit, zeros up to 56 modulo 64, and the length in bits. */
  function Padded(m: seq<Byte>): seq<Byte> {
    m + [0x80] + Zeros(PadCount(|m|)) + Little(BitCount(|m|), 8)
  }

  /** Section 3.5: the output is a, b, c, d, low-order bytes first. */
  function Digest(s: Chain): seq<Byte> { Little(s.a, 4) + Little(s.b, 4) + Little(s.c, 4) + Little(s.d, 4) }

  function Hash(body: Block, m: seq<Byte>): seq<Byte> { Digest(Blocks(body, INITIAL, Padded(m))) }

  /** The padded message is whole blocks. */
  lemma PaddedLength(m: seq<Byte>)
    ensures |Padded(m)| % BLOCK == 0
  {
    var n := |m|;
    Pads(n, n % BLOCK);
    assert |Padded(m)| == n + 9 + PadCount(n) by { hide PadCount; }
    var k := n / BLOCK + if n % BLOCK < 56 then 1 else 2;
    QuotientUnique(|Padded(m)|, BLOCK, k, 0);
  }

  lemma {:induction false} BlocksSplit(body: Block, s: Chain, m: seq<Byte>, n: seq<Byte>)
    requires |m| % BLOCK == 0
    ensures Blocks(body, s, m + n) == Blocks(body, Blocks(body, s, m), n)
    decreases |m|
  {
    if m == [] {
      assert m + n == n;
    } else {
      assert (m + n)[..BLOCK] == m[..BLOCK] && (m + n)[BLOCK..] == m[BLOCK..] + n;
      BlocksSplit(body, body(s, m[..BLOCK]), m[BLOCK..], n);
    }
  }

  // ----------------------------------------------------------------------- the program

  class Context {
    const body: Block
    var chain: Chain
    var bytes: Word
    const buffer: array<Byte>
    /** the data so far */
    ghost var fed: seq<Byte>

    ghost predicate Valid()
      reads this, buffer
    {
      var used := |fed| % BLOCK;
      && buffer.Length == BLOCK && bytes == |fed| % WORD
      && buffer[..used] == fed[|fed| - used..]
      && chain == Blocks(body, INITIAL, fed[..|fed| - used])
    }

    /** ngx_md5_init */
    constructor (body: Block)
      ensures Valid() && fed == [] && this.body == body && fresh(buffer)
    {
      this.body := body;
      chain, bytes, fed := INITIAL, 0, [];
      buffer := new Byte[64](i => 0);
    }

    /** The loop of ngx_md5_body over one or more blocks. */
    method Body(data: seq<Byte>)
      requires |data| > 0 && |data| % BLOCK == 0
      modifies this`chain
      ensures chain == Blocks(body, old(chain), data)
    {
      var p := 0;
      while p < |data|
        invariant 0 <= p <= |data| && p % BLOCK == 0
        invariant Blocks(body, chain, data[p..]) == Blocks(body, old(chain), data)
      {
        var rest := data[p..];
        assert rest[..BLOCK] == data[p..p + BLOCK] && rest[BLOCK..] == data[p + BLOCK..];
        chain := body(chain, data[p..p + BLOCK]);
        p := p + BLOCK;
      }
    }

    /** ngx_memcpy into the buffer. */
    method Copy(at: nat, data: seq<Byte>)
      requires buffer.Length == BLOCK && at + |data| <= BLOCK
      modifies buffer
      ensures buffer[..at + |data|] == old(buffer[..at]) + data
      ensures buffer[at + |data|..] == old(buffer[at + |data|..])
    {
      forall k | 0 <= k < |data| {
        buffer[at + k] := data[k];
      }
    }

    /** ngx_md5_update */
    method Update(data: seq<Byte>)
      requires Valid()
      modifies this`chain, this`bytes, this`fed, buffer
      ensures Valid() && fed == old(fed) + data
    {
      hide Blocks;
      var used := bytes % BLOCK;
      bytes := (bytes + |data|) % WORD;
      ghost var m := fed;
      Counted(|m|, |data|);
      fed := fed + data;
      ghost var done, tail := m[..|m| - used], m[|m| - used..];
      assert m == done + tail;
      Floor(|m|, used);
      var rest := data;
      if used != 0 {
        var free := BLOCK - used;
        if |data| < free {
          Copy(used, data);
          Settles(fed, done, tail + data);
          return;
        }
        Copy(used, data[..free]);
        rest := data[free..];
        assert buffer[..] == tail + data[..free];
        Body(buffer[..]);
        BlocksSplit(body, INITIAL, done, tail + data[..free]);
        WholeBlocks(|done|, BLOCK);
        done := done + (tail + data[..free]);
      } else {
        assert tail == [] && m == done;
      }
      Store(done, rest);
    }

    /** The end of ngx_md5_update, with the buffer empty: whole blocks are used up, the rest is kept. */
    method Store(ghost done: seq<Byte>, data: seq<Byte>)
      requires buffer.Length == BLOCK && bytes == |fed| % WORD
      requires fed == done + data && |done| % BLOCK == 0 && chain == Blocks(body, INITIAL, done)
      modifies this`chain, buffer
      ensures Valid()
    {
      hide Blocks;
      var rest := data;
      ghost var all := done;
      if |rest| >= BLOCK {
        var whole := |rest| - |rest| % BLOCK;
        Body(rest[..whole]);
        BlocksSplit(body, INITIAL, done, rest[..whole]);
        WholeBlocks(|done|, whole);
        all := done + rest[..whole];
        rest := rest[whole..];
        assert fed == all + rest;
      }
      Copy(0, rest);
      Settles(fed, all, rest);
    }

    /** ngx_md5_final */
    method Final() returns (result: seq<Byte>)
      requires Valid()
      modifies this`chain, this`bytes, buffer
      ensures result == Hash(body, fed)
    {
      hide Blocks, Zeros, Little, Padded, BitCount;
      var used := bytes % BLOCK;
      Counted(|fed|, 0);
      ghost var done, tail := fed[..|fed| - used], fed[|fed| - used..];
      PaddedBlocks(fed, done, tail, used);
      Floor(|fed|, used);
      Copy(used, [0x80]);
      used := used + 1;
      var free := BLOCK - used;
      ghost var first := tail + [0x80];
      if free < 8 {
        Copy(used, Zeros(free));
        ghost var block := first + Zeros(free);
        assert buffer[..] == block;
        Body(buffer[..]);
        BlocksSplit(body, INITIAL, done, block);
        WholeBlocks(|done|, BLOCK);
        done := done + block;
        used := 0;
        free := BLOCK;
        first := [];
      }
      Copy(used, Zeros(free - 8));
      bytes := bytes * 8 % WORD;
      Copy(BLOCK - 8, Little(bytes, 8));
      ghost var last := first + Zeros(free - 8) + Little(bytes, 8);
      assert buffer[..] == last;
      Body(buffer[..]);
      BlocksSplit(body, INITIAL, done, last);
      assert Padded(fed) == done + last;
      result := Digest(chain);
    }
  }

  /** The padding, seen from the last whole block on. */
  lemma PaddedBlocks(m: seq<Byte>, done: seq<Byte>, tail: seq<Byte>, u: nat)
    requires m == done + tail && |m| % BLOCK == u
    ensures var size := Little(BitCount(|m|), 8);
      if u < 56 then Padded(m) == done + (tail + [0x80] + Zeros(55 - u) + size)
      else Padded(m) == done + (tail + [0x80] + Zeros(63 - u)) + ([] + Zeros(56) + size)
  {
    Pads(|m|, u);
    var size, z := Little(BitCount(|m|), 8), PadCount(|m|);
    hide Zeros, Little, PadCount, BitCount;
    if u < 56 {
      Regroup(done, tail, [0x80], Zeros(55 - u), [], size);
    } else {
      ZerosSplit(63 - u, 56);
      Regroup(done, tail, [0x80], Zeros(63 - u), Zeros(56), size);
    }
  }

  lemma Pads(n: nat, u: nat)
    requires n % BLOCK == u
    ensures PadCount(n) == if u < 56 then 55 - u else 119 - u
  {
    PadValue(u);
  }

  lemma PadValue(u: nat)
    requires u < 64
    ensures (119 - u) % 64 == if u < 56 then 55 - u else 119 - u
  {
    var v := 119 - u;
    assert v == (if u < 56 then 64 + (55 - u) else v);
  }

  lemma ZerosSplit(a: nat, b: nat)
    ensures Zeros(a + b) == Zeros(a) + Zeros(b)
  {
  }

  lemma Regroup(d: seq<Byte>, t: seq<Byte>, b: seq<Byte>, y: seq<Byte>, z: seq<Byte>, e: seq<Byte>)
    ensures (d + t) + b + (y + z) + e == d + (t + b + y) + ([] + z + e)
    ensures z == [] ==> (d + t) + b + y + e == d + (t + b + y + e)
  {
  }

  lemma WholeBlocks(a: nat, b: nat)
    requires a % BLOCK == 0 && b % BLOCK == 0
    ensures (a + b) % BLOCK == 0
  {
  }

  lemma Floor(n: nat, u: nat)
    requires u == n % 64
    ensures (n - u) % 64 == 0
  {
    assert n - u == n / 64 * 64;
  }

  lemma Counted(m: nat, n: nat)
    ensures m % WORD % BLOCK == m % BLOCK && (m % WORD + n) % WORD == (m + n) % WORD && m % WORD * 8 % WORD == BitCount(m)
  {
    var q, r := m / WORD, m % WORD;
    assert m == q * WORD + r;
    SameRemainder(r, q * 0x400_0000_0000_0000, 64);
    SameRemainder(r + n, q, WORD);
    SameRemainder(r * 8, q * 8, WORD);
  }

  /** Data that ends in less than a block leaves just that in the buffer. */
  lemma Settles(fed: seq<Byte>, done: seq<Byte>, rest: seq<Byte>)
    requires fed == done + rest && |done| % BLOCK == 0 && |rest| < BLOCK
    ensures |fed| % BLOCK == |rest| && fed[|fed| - |rest|..] == rest && fed[..|fed| - |rest|] == done
  {
  }

  /** The basic functions as the program has them are those of section 3.4. */
  lemma BasicFunctions(x: bv32, y: bv32, z: bv32)
    ensures z ^ (x & (y ^ z)) == (x & y) | (!x & z)
    ensures y ^ (z & (x ^ y)) == (x & z) | (y & !z)
  {
  }

  ghost function Join(pieces: seq<seq<Byte>>): seq<Byte> {
    if pieces == [] then [] else Join(pieces[..|pieces| - 1]) + pieces[|pieces| - 1]
  }

  /** ngx_md5_init, any updates, ngx_md5_final: the digest does not depend on how the data was cut. */
  method InPieces(body: Block, pieces: seq<seq<Byte>>) returns (result: seq<Byte>)
    ensures result == Hash(body, Join(pieces))
  {
    var ctx := new Context(body);
    for i := 0 to |pieces|
      invariant ctx.Valid() && ctx.fed == Join(pieces[..i]) && ctx.body == body && fresh(ctx) && fresh(ctx.buffer)
    {
      assert pieces[..i + 1][..i] == pieces[..i];
      ctx.Update(pieces[i]);
    }
    assert pieces[..|pieces|] == pieces;
    result := ctx.Final();
  }
}
