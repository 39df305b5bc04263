/** sha256.c: hashing in pieces. The compression of one block is a parameter. */
module Sha256 {
  import opened Words

  type Word = x: int | 0 <= x < 0x1_0000_0000
  type Hash = s: seq<Word> | |s| == 8 witness seq(8, _ => 0)
  type Chunk = s: seq<byte> | |s| == 64 witness seq(64, _ => 0)
  type Compression = (Hash, Chunk) -> Hash

  const H0: Hash := [0x6a09e667, 0xbb67ae85, 0x3c6ef372, 0xa54ff53a, 0x510e527f, 0x9b05688c, 0x1f83d9ab, 0x5be0cd19]

  /** w is the first 32 bits behind the point of the square root of n, which begins with whole. */
  ghost predicate RootBits(n: nat, whole: nat, w: Word) {
    var root := 0x1_0000_0000 * whole + w;
    root * root <= n * 0x1_0000_0000_0000_0000 < (root + 1) * (root + 1)
  }

  /** The initial values are the square roots of the first eight primes (section 5.3.3 of FIPS 180-4). */
  lemma {:induction false} InitialWords()
    ensures RootBits(2, 1, H0[0]) && RootBits(3, 1, H0[1]) && RootBits(5, 2, H0[2]) && RootBits(7, 2, H0[3])
    ensures RootBits(11, 3, H0[4]) && RootBits(13, 3, H0[5]) && RootBits(17, 4, H0[6]) && RootBits(19, 4, H0[7])
  {
  }

  // ---- section 5.1.1 and 6.2.2 of FIPS 180-4 ----

  /** The number of zero bytes between the bit 1 and the length */
  function ZeroBytes(n: nat): (k: nat)
    ensures (n + 1 + k) % 64 == 56 && k < 64
  {
    (119 - n % 64) % 64
  }

  function Pad(m: seq<byte>): (p: seq<byte>)
    ensures |p| % 64 == 0
  {
    WholeBlocks(|m|, ZeroBytes(|m|));
    m + [0x80] + Zeros(ZeroBytes(|m|)) + Be64(8 * |m|)
  }

  lemma WholeBlocks(n: nat, k: nat)
    requires (n + 1 + k) % 64 == 56
    ensures (n + 1 + k + 8) % 64 == 0
  {
  }

  function Fold(f: Compression, h: Hash, m: seq<byte>): Hash
    decreases |m|
  {
    if |m| < 64 then h else Fold(f, f(h, m[..64]), m[64..])
  }

  /** The words of a hash value, big-endian */
  function Output(h: Hash): (m: seq<byte>)
    ensures |m| == 32
  {
    Be32(h[0]) + Be32(h[1]) + Be32(h[2]) + Be32(h[3]) + Be32(h[4]) + Be32(h[5]) + Be32(h[6]) + Be32(h[7])
  }

  function Digest(f: Compression, m: seq<byte>): (d: seq<byte>)
    ensures |d| == 32
  {
    Output(Fold(f, H0, Pad(m)))
  }

  /** There is no shorter padding. */
  lemma {:induction false} ZeroBytesLeast(n: nat, k: nat)
    requires (n + 1 + k) % 64 == 56
    ensures ZeroBytes(n) <= k
  {
    var z := ZeroBytes(n);
    hide ZeroBytes;
    ModParts(n + 1 + k, 64);
    ModParts(n + 1 + z, 64);
  }

  lemma {:induction false} FoldConcat(f: Compression, h: Hash, a: seq<byte>, b: seq<byte>)
    requires |a| % 64 == 0
    ensures Fold(f, h, a + b) == Fold(f, Fold(f, h, a), b)
    decreases |a|
  {
    if a == [] {
      assert a + b == b;
    } else {
      assert (a + b)[..64] == a[..64] && (a + b)[64..] == a[64..] + b;
      FoldConcat(f, f(h, a[..64]), a[64..], b);
    }
  }

  lemma {:induction false} FoldOne(f: Compression, h: Hash, m: seq<byte>, block: Chunk)
    requires |m| % 64 == 0
    ensures Fold(f, h, m + block) == f(Fold(f, h, m), block)
  {
    FoldConcat(f, h, m, block);
    var g := Fold(f, h, m);
    assert block[..64] == block && Fold(f, g, block) == Fold(f, f(g, block), block[64..]);
  }

  // ---- the code ----

  /** h is the hash of all whole blocks of fed, and part is what they leave over. */
  ghost predicate Holds(f: Compression, h: Hash, part: seq<byte>, fed: seq<byte>) {
    && |part| < 64 && |part| <= |fed| && (|fed| - |part|) % 64 == 0
    && h == Fold(f, H0, fed[..|fed| - |part|])
    && part == fed[|fed| - |part|..]
  }

  lemma {:induction false} More(f: Compression, h: Hash, part: seq<byte>, fed: seq<byte>, m: seq<byte>)
    requires Holds(f, h, part, fed) && |part| + |m| < 64
    ensures Holds(f, h, part + m, fed + m)
  {
    assert (fed + m)[..|fed| - |part|] == fed[..|fed| - |part|];
  }

  lemma {:induction false} Full(f: Compression, h: Hash, part: seq<byte>, fed: seq<byte>, m: seq<byte>)
    requires Holds(f, h, part, fed) && |part| + |m| == 64
    ensures Holds(f, f(h, part + m), [], fed + m)
  {
    var whole := fed[..|fed| - |part|];
    assert fed + m == whole + (part + m) && (fed + m)[..|fed + m|] == fed + m;
    FoldOne(f, H0, whole, part + m);
  }

  /** The bytes that padding appends, when a block leaves room for the length
      behind the n bytes it holds, and when it does not */
  lemma {:induction false} PadPieces(m: seq<byte>, n: nat)
    requires n == |m| % 64
    ensures n <= 55 ==> Pad(m) == m + ([0x80] + Zeros(55 - n) + Be64(8 * |m|))
    ensures n > 55 ==> Pad(m) == m + ([0x80] + Zeros(63 - n)) + (Zeros(56) + Be64(8 * |m|))
  {
    hide Be64;
    if n <= 55 {
      assert ZeroBytes(|m|) == 55 - n;
    } else {
      assert ZeroBytes(|m|) == 119 - n;
    }
  }

  /** struct sha256_ctx, with what was fed to it */
  class Context {
    const f: Compression
    const buf: array<byte>
    var h: Hash
    var len: nat
    var buflen: nat
    ghost var fed: seq<byte>

    ghost predicate Valid()
      reads this, buf
    {
      && Buffered() && len == |fed| % 0x1_0000_0000_0000_0000
    }

    ghost predicate Buffered()
      reads `h, `buflen, `fed, buf
    {
      buf.Length == 64 && buflen < 64 && Holds(f, h, buf[..buflen], fed)
    }

    /** sha256_init */
    constructor (f: Compression)
      ensures Valid() && this.f == f && fed == [] && fresh(buf)
    {
      this.f, h, len, buflen, fed := f, H0, 0, 0, [];
      buf := new byte[64];
    }

    /** memcpy of less than fills the buffer */
    method Keep(data: seq<byte>)
      requires Buffered() && buflen + |data| < 64
      modifies this`buflen, this`fed, buf
      ensures Buffered() && fed == old(fed) + data
    {
      More(f, h, buf[..buflen], fed, data);
      hide Holds;
      ghost var was := buf[..buflen];
      Put(buf, buflen, data);
      assert buf[..buflen + |data|] == was + data;
      buflen := buflen + |data|;
      fed := fed + data;
    }

    /** memcpy of what fills the buffer, and sha256_compress */
    method Complete(data: seq<byte>)
      requires Buffered() && buflen + |data| == 64
      modifies this`h, this`buflen, this`fed, buf
      ensures Buffered() && buflen == 0 && fed == old(fed) + data
    {
      Full(f, h, buf[..buflen], fed, data);
      hide Holds;
      ghost var was := buf[..buflen];
      Put(buf, buflen, data);
      assert buf[..] == was + data;
      h := f(h, buf[..]);
      buflen := 0;
      assert buf[..0] == [];
      fed := fed + data;
    }

    /** sha256_update */
    method Update(data: seq<byte>)
      requires Valid() && |data| < 0x1_0000_0000
      modifies this, buf
      ensures Valid() && fed == old(fed) + data
    {
      hide Buffered;
      ModSum(|fed|, |data|, 0x1_0000_0000_0000_0000);
      len := (len + |data|) % 0x1_0000_0000_0000_0000;
      var rest := data;
      while |rest| > 0
        invariant Buffered() && fed + rest == old(fed) + data
        invariant len == (|old(fed)| + |data|) % 0x1_0000_0000_0000_0000
        decreases |rest|
      {
        var left := Left();
        ghost var was, now := fed, rest;
        if |rest| < left {
          Keep(rest);
          return;
        }
        Complete(rest[..left]);
        rest := rest[left..];
        assert was + now == was + now[..left] + now[left..];
      }
      assert fed + [] == fed;
    }

    function Left(): (n: nat)
      requires Buffered()
      reads `h, `buflen, `fed, buf
      ensures 0 < n <= 64 && n == 64 - buflen
    {
      64 - buflen
    }

    /** The zeroes up to byte 56, store_be64 and sha256_compress; the buffer
        holds part, which is left over from m, and tail. */
    method LastBlock(bitlen: nat, ghost part: seq<byte>, ghost tail: seq<byte>, ghost m: seq<byte>)
      requires buf.Length == 64 && buflen <= 56 && Holds(f, h, part, m) && buf[..buflen] == part + tail
      modifies this`h, buf
      ensures Holds(f, h, [], m + (tail + Zeros(56 - buflen) + Be64(bitlen)))
    {
      ghost var added := tail + Zeros(56 - buflen) + Be64(bitlen);
      Full(f, h, part, m, added);
      hide Holds, Be64;
      ghost var held := buf[..buflen];
      Put(buf, buflen, Zeros(56 - buflen));
      Put(buf, 56, Be64(bitlen));
      assert buf[..] == held + Zeros(56 - buflen) + Be64(bitlen) == part + added;
      h := f(h, buf[..]);
    }

    /** The block that has no room for the length */
    method FillBlock(ghost part: seq<byte>, ghost m: seq<byte>)
      requires buf.Length == 64 && 1 <= buflen <= 64 && Holds(f, h, part, m) && buf[..buflen] == part + [0x80]
      modifies this`h, this`buflen, buf
      ensures buflen == 0 && Holds(f, h, [], m + ([0x80] + Zeros(64 - old(buflen))))
    {
      ghost var added := [0x80] + Zeros(64 - buflen);
      Full(f, h, part, m, added);
      hide Holds;
      ghost var held := buf[..buflen];
      Put(buf, buflen, Zeros(64 - buflen));
      assert buf[..] == held + Zeros(64 - buflen) == part + added;
      h := f(h, buf[..]);
      buflen := 0;
    }

    /** The byte 0x80, which always fits, and the blocks it ends up in */
    method Finish(bitlen: nat, ghost part: seq<byte>, ghost m: seq<byte>)
      requires buf.Length == 64 && buflen < 64 && Holds(f, h, part, m) && part == buf[..buflen]
      modifies this, buf
      ensures old(buflen) <= 55 ==> Holds(f, h, [], m + ([0x80] + Zeros(55 - old(buflen)) + Be64(bitlen)))
      ensures old(buflen) > 55 ==>
        Holds(f, h, [], m + ([0x80] + Zeros(63 - old(buflen))) + (Zeros(56) + Be64(bitlen)))
    {
      hide Holds, Be64;
      buf[buflen] := 0x80;
      buflen := buflen + 1;
      assert buf[..buflen] == part + [0x80];
      if buflen > 56 {
        FillBlock(part, m);
        LastBlock(bitlen, [], [], m + ([0x80] + Zeros(63 - |part|)));
        assert [] + Zeros(56) == Zeros(56);
      } else {
        LastBlock(bitlen, part, [0x80], m);
      }
    }

    /** sha256_final */
    method Final() returns (out: seq<byte>)
      requires Valid()
      modifies this, buf
      ensures out == Digest(f, old(fed))
    {
      hide Holds, Be64, Pad, Output, Fold;
      var bitlen := len * 8 % 0x1_0000_0000_0000_0000;
      Bits(|fed|);
      ghost var part, m := buf[..buflen], fed;
      PartSize(f, h, part, m);
      PadPieces(m, buflen);
      Finish(bitlen, part, m);
      AllFolded(f, h, Pad(m));
      out := Stored(h);
    }
  }

  /** store_be32 of every word */
  method Stored(h: Hash) returns (out: seq<byte>)
    ensures out == Output(h)
  {
    hide Be32;
    out := [];
    for i := 0 to 8
      invariant |out| == 4 * i && out == Output(h)[..4 * i]
    {
      out := out + [h[i] / 0x100_0000, h[i] / 0x1_0000 % 256, h[i] / 0x100 % 256, h[i] % 256];
      WordBytes(h[i]);
    }
  }

  lemma {:induction false} PartSize(f: Compression, h: Hash, part: seq<byte>, m: seq<byte>)
    requires Holds(f, h, part, m)
    ensures |part| == |m| % 64
  {
    ModParts(|m| - |part|, 64);
    DivUnique(|m|, 64, (|m| - |part|) / 64, |part|);
  }

  lemma {:induction false} AllFolded(f: Compression, h: Hash, m: seq<byte>)
    requires Holds(f, h, [], m)
    ensures h == Fold(f, H0, m)
  {
    assert m[..|m|] == m;
  }

  /** The length in bits is cut to 64 bits before it is stored. */
  lemma {:induction false} Bits(n: nat)
    ensures Be64(n % 0x1_0000_0000_0000_0000 * 8 % 0x1_0000_0000_0000_0000) == Be64(8 * n)
  {
    hide Be64;
    var r := n % 0x1_0000_0000_0000_0000;
    var q := n / 0x1_0000_0000_0000_0000;
    ModParts(n, 0x1_0000_0000_0000_0000);
    ModParts(8 * r, 0x1_0000_0000_0000_0000);
    Be64Mod(8 * n, 8 * r % 0x1_0000_0000_0000_0000, 8 * q + 8 * r / 0x1_0000_0000_0000_0000);
  }

  /** sha256 */
  method Hashed(f: Compression, data: seq<byte>) returns (out: seq<byte>)
    requires |data| < 0x1_0000_0000
    ensures out == Digest(f, data)
  {
    var ctx := new Context(f);
    ctx.Update(data);
    assert [] + data == data;
    out := ctx.Final();
  }

  /** However a message is cut into pieces, updating with one after the other
      ends in its digest. */
  method HashedInPieces(f: Compression, pieces: seq<seq<byte>>) returns (out: seq<byte>)
    requires forall p :: p in pieces ==> |p| < 0x1_0000_0000
    ensures out == Digest(f, Concat(pieces))
  {
    var ctx := new Context(f);
    for i := 0 to |pieces|
      invariant ctx.Valid() && fresh(ctx) && fresh(ctx.buf) && ctx.f == f && ctx.fed == Concat(pieces[..i])
    {
      hide Context.Valid;
      ctx.Update(pieces[i]);
      assert pieces[..i + 1][..i] == pieces[..i];
    }
    assert pieces[..|pieces|] == pieces;
    out := ctx.Final();
  }
}
