/** blake2s.c: hashing in pieces, with and without a key, and the HMAC built on
    it. The compression of one block, given the byte counter and whether the
    block is the last, is a parameter. */
module Blake2s {
  import opened Words
  import opened Hmac
  import Sha256

  type Word = x: int | 0 <= x < 0x1_0000_0000
  type Hash = s: seq<Word> | |s| == 8 witness seq(8, _ => 0)
  type Chunk = s: seq<byte> | |s| == 64 witness seq(64, _ => 0)
  type Compression = (Hash, Chunk, nat, bool) -> Hash

  const MAX_COUNTER: nat := 0x1_0000_0000_0000_0000

  const IV: Hash := [0x6A09E667, 0xBB67AE85, 0x3C6EF372, 0xA54FF53A, 0x510E527F, 0x9B05688C, 0x1F83D9AB, 0x5BE0CD19]

  /** The initial values are those of SHA-256, the square roots of the first primes (section 2.6 of RFC 7693). */
  lemma {:induction false} InitialWords()
    ensures IV == Sha256.H0
  {
  }

  // ---- section 3.3 of RFC 7693 ----

  /** The first word of the parameter block, whose other words are zero: the length of the digest, that of the key,
      fanout and depth (section 2.5 of RFC 7693) */
  function Parameters(outlen: byte, keylen: byte): (p: Word) {
    LoadLe4([outlen, keylen, 1, 1]);
    LoadLe([outlen, keylen, 1, 1])
  }

  function XorWord(x: Word, y: Word): Word {
    assert Pow2(32) == 0x1_0000_0000 by { Powers(); }
    XorBound(x, y, 32);
    Xor(x, y)
  }

  lemma XorWordIs(x: Word, y: Word)
    ensures XorWord(x, y) == Xor(x, y)
  {
  }

  function Initial(outlen: nat, keylen: nat): Hash
    requires outlen <= 32 && keylen <= 32
  {
    [XorWord(IV[0], Parameters(outlen, keylen))] + IV[1..]
  }

  /** How many blocks are certainly not the last one of n bytes */
  function Before(n: nat): nat {
    if n == 0 then 0 else (n - 1) / 64
  }

  /** The hash after the first k blocks of m, none of them the last */
  function Fold(f: Compression, h: Hash, m: seq<byte>, k: nat): Hash
    requires 64 * k <= |m|
  {
    if k == 0 then h
    else f(Fold(f, h, m, k - 1), m[64 * (k - 1)..64 * k], 64 * k % MAX_COUNTER, false)
  }

  /** The words of a hash value, little-endian */
  function Output(h: Hash): (m: seq<byte>)
    ensures |m| == 32
  {
    StoreLe(h[0], 4) + StoreLe(h[1], 4) + StoreLe(h[2], 4) + StoreLe(h[3], 4)
    + StoreLe(h[4], 4) + StoreLe(h[5], 4) + StoreLe(h[6], 4) + StoreLe(h[7], 4)
  }

  function Last(f: Compression, h: Hash, m: seq<byte>): Hash {
    var k := Before(|m|);
    f(Fold(f, h, m, k), m[64 * k..] + Zeros(64 - (|m| - 64 * k)), |m| % MAX_COUNTER, true)
  }

  /** A key is a block of its own before the message. */
  function Keyed(key: seq<byte>): seq<byte>
    requires |key| <= 32
  {
    if key == [] then [] else key + Zeros(64 - |key|)
  }

  function Digest(f: Compression, outlen: nat, key: seq<byte>, m: seq<byte>): (d: seq<byte>)
    requires outlen <= 32 && |key| <= 32
    ensures |d| == outlen
  {
    Output(Last(f, Initial(outlen, |key|), Keyed(key) + m))[..outlen]
  }

  // ---- the code ----

  /** blake2s_init_param with the parameter of blake2s_init_key; without a key it is that of blake2s_init */
  method Start(outlen: nat, keylen: nat) returns (m: Hash)
    requires outlen <= 32 && keylen <= 32
    ensures m == Initial(outlen, keylen)
  {
    var param := 0x01010000 + keylen * 256 + outlen;
    LoadLe4([outlen, keylen, 1, 1]);
    hide LoadLe, XorWord, Xor;
    var h := new Word[8];
    for i := 0 to 8
      invariant forall j :: 0 <= j < i ==> h[j] == IV[j]
    {
      h[i] := IV[i];
    }
    XorWordIs(IV[0], param);
    h[0] := Xor(h[0], param);
    m := h[..];
  }

  /** cpu_to_le32_array and memcpy */
  method Stored(h: Hash) returns (out: seq<byte>)
    ensures out == Output(h)
  {
    hide StoreLe;
    out := [];
    for i := 0 to 8
      invariant |out| == 4 * i && out == Output(h)[..4 * i]
    {
      out := out + [h[i] % 256, h[i] / 0x100 % 256, h[i] / 0x1_0000 % 256, h[i] / 0x100_0000];
      WordBytes(h[i]);
    }
  }

  lemma {:induction false} FoldPrefix(f: Compression, h: Hash, m: seq<byte>, more: seq<byte>, k: nat)
    requires 64 * k <= |m|
    ensures Fold(f, h, m + more, k) == Fold(f, h, m, k)
  {
    if k > 0 {
      FoldPrefix(f, h, m, more, k - 1);
      assert (m + more)[64 * (k - 1)..64 * k] == m[64 * (k - 1)..64 * k];
    }
  }

  /** The counter words, of which t0 is the low one */
  ghost predicate Counts(t0: Word, t1: Word, n: nat) {
    0x1_0000_0000 * t1 + t0 == n % MAX_COUNTER
  }

  /** blake2s_increment_counter: adding with the carry in two words counts
      modulo 2^64. */
  method Increment(t0: Word, t1: Word, inc: Word, ghost n: nat) returns (u0: Word, u1: Word)
    requires Counts(t0, t1, n)
    ensures Counts(u0, u1, n + inc)
  {
    u0 := (t0 + inc) % 0x1_0000_0000;
    u1 := (t1 + if u0 < inc then 1 else 0) % 0x1_0000_0000;
    ModSum(n, inc, MAX_COUNTER);
    Carry(t0, t1, inc, u0, u1);
  }

  lemma {:induction false} Carry(t0: Word, t1: Word, inc: Word, u0: Word, u1: Word)
    requires u0 == (t0 + inc) % 0x1_0000_0000 && u1 == (t1 + if u0 < inc then 1 else 0) % 0x1_0000_0000
    ensures 0x1_0000_0000 * u1 + u0 == (0x1_0000_0000 * t1 + t0 + inc) % MAX_COUNTER
  {
    var c := if t0 + inc >= 0x1_0000_0000 then 1 else 0;
    DivUnique(t0 + inc, 0x1_0000_0000, c, t0 + inc - 0x1_0000_0000 * c);
    var d := if t1 + c >= 0x1_0000_0000 then 1 else 0;
    DivUnique(t1 + c, 0x1_0000_0000, d, t1 + c - 0x1_0000_0000 * d);
    DivUnique(0x1_0000_0000 * t1 + t0 + inc, MAX_COUNTER, d, 0x1_0000_0000 * u1 + u0);
  }

  /** After k blocks of fed, of which part is left over */
  ghost predicate Holds(f: Compression, h0: Hash, h: Hash, t0: Word, t1: Word, k: nat, part: seq<byte>,
                        fed: seq<byte>)
  {
    && |part| <= 64 && |fed| == 64 * k + |part|
    && Counts(t0, t1, 64 * k) && h == Fold(f, h0, fed, k) && part == fed[64 * k..]
  }

  lemma {:induction false} More(f: Compression, h0: Hash, h: Hash, t0: Word, t1: Word, k: nat, part: seq<byte>,
                                fed: seq<byte>, m: seq<byte>)
    requires Holds(f, h0, h, t0, t1, k, part, fed) && |part| + |m| <= 64
    ensures Holds(f, h0, h, t0, t1, k, part + m, fed + m)
  {
    hide Fold;
    FoldPrefix(f, h0, fed, m, k);
  }

  lemma {:induction false} Full(f: Compression, h0: Hash, h: Hash, t0: Word, t1: Word, k: nat, part: seq<byte>,
                                fed: seq<byte>, u0: Word, u1: Word)
    requires Holds(f, h0, h, t0, t1, k, part, fed) && |part| == 64 && Counts(u0, u1, 64 * k + 64)
    ensures Holds(f, h0, f(h, part, 0x1_0000_0000 * u1 + u0, false), u0, u1, k + 1, [], fed)
  {
    assert fed[64 * k..] == fed[64 * k..64 * (k + 1)] && fed[64 * (k + 1)..] == [];
  }

  /** struct blake2s_state, with what was fed to it: blocks times 64 bytes that
      went through the compression and the rest in buf */
  class State {
    const f: Compression
    const buf: array<byte>
    const outlen: nat
    var h: Hash
    var t0: Word
    var t1: Word
    var f0: Word
    var buflen: nat
    ghost const h0: Hash
    ghost var fed: seq<byte>
    ghost var blocks: nat

    ghost predicate Buffered()
      reads this, buf
    {
      && buf.Length == 64 && buflen <= 64 && f0 == 0
      && Holds(f, h0, h, t0, t1, blocks, buf[..buflen], fed)
    }

    /** A full buffer waits for more, since it may be the last block. */
    ghost predicate Valid()
      reads this, buf
    {
      Buffered() && blocks == Before(|fed|)
    }

    /** blake2s_init and the first part of blake2s_init_key */
    constructor (f: Compression, outlen: nat, keylen: nat)
      requires outlen <= 32 && keylen <= 32
      ensures Valid() && this.f == f && this.outlen == outlen && h0 == Initial(outlen, keylen) && fed == []
      ensures fresh(buf)
    {
      var start := Start(outlen, keylen);
      this.f, this.outlen, h, t0, t1, f0, buflen := f, outlen, start, 0, 0, 0, 0;
      h0, fed, blocks := Initial(outlen, keylen), [], 0;
      buf := new byte[64];
    }

    /** One round of the loop of blake2s_compress */
    method Compress(block: Chunk, inc: Word, ghost n: nat)
      requires Counts(t0, t1, n)
      modifies this`h, this`t0, this`t1
      ensures Counts(t0, t1, n + inc)
      ensures h == f(old(h), block, 0x1_0000_0000 * t1 + t0, f0 == 0xffff_ffff)
    {
      t0, t1 := Increment(t0, t1, inc, n);
      h := f(h, block, 0x1_0000_0000 * t1 + t0, f0 == 0xffff_ffff);
    }

    /** memcpy behind what the buffer holds */
    method Keep(data: seq<byte>)
      requires Buffered() && buflen + |data| <= 64
      modifies this`buflen, this`fed, buf
      ensures Buffered() && buflen == old(buflen) + |data| && fed == old(fed) + data
    {
      More(f, h0, h, t0, t1, blocks, buf[..buflen], fed, data);
      hide Holds;
      ghost var was := buf[..buflen];
      Put(buf, buflen, data);
      assert buf[..buflen + |data|] == was + data;
      buflen := buflen + |data|;
      fed := fed + data;
    }

    /** A full buffer, compressed */
    method Flush()
      requires Buffered() && buflen == 64
      modifies this`h, this`t0, this`t1, this`buflen, this`blocks
      ensures Buffered() && buflen == 0 && blocks == old(blocks) + 1
    {
      ghost var was, w0, w1 := h, t0, t1;
      assert buf[..64] == buf[..];
      Compress(buf[..], 64, 64 * blocks);
      Full(f, h0, was, w0, w1, blocks, buf[..], fed, t0, t1);
      hide Holds;
      blocks, buflen := blocks + 1, 0;
      assert buf[..0] == [];
    }

    /** The loop of blake2s_compress with one block of the input */
    method CompressBlock(block: Chunk)
      requires Buffered() && buflen == 0
      modifies this`h, this`t0, this`t1, this`fed, this`blocks
      ensures Buffered() && fed == old(fed) + block && blocks == old(blocks) + 1
    {
      ghost var was, w0, w1 := h, t0, t1;
      More(f, h0, h, t0, t1, blocks, [], fed, block);
      assert buf[..0] == [] && [] + block == block;
      Compress(block, 64, 64 * blocks);
      Full(f, h0, was, w0, w1, blocks, block, fed + block, t0, t1);
      hide Holds;
      fed, blocks := fed + block, blocks + 1;
    }

    method CompressBlocks(data: seq<byte>, n: nat)
      requires Buffered() && buflen == 0 && |data| == 64 * n
      modifies this`h, this`t0, this`t1, this`fed, this`blocks
      ensures Buffered() && fed == old(fed) + data && blocks == old(blocks) + n
    {
      hide Holds;
      var i := 0;
      assert fed == old(fed) + data[..0];
      while i < n
        invariant i <= n && Buffered() && fed == old(fed) + data[..64 * i] && blocks == old(blocks) + i
      {
        CompressBlock(data[64 * i..64 * (i + 1)]);
        assert data[..64 * i] + data[64 * i..64 * (i + 1)] == data[..64 * (i + 1)];
        i := i + 1;
      }
      assert data[..64 * n] == data;
    }

    /** blake2s_update */
    method Update(data: seq<byte>)
      requires Valid()
      modifies this, buf
      ensures Valid() && fed == old(fed) + data
    {
      if |data| == 0 {
        assert fed + data == fed;
        return;
      }
      hide Holds;
      var fill := 64 - buflen;
      var rest := data;
      if |rest| > fill {
        Keep(rest[..fill]);
        Flush();
        rest := rest[fill..];
      }
      assert fed + rest == old(fed) + data;
      if |rest| > 64 {
        rest := Middle(rest);
      }
      Keep(rest);
      BeforeIs(f, h0, h, t0, t1, blocks, buf[..buflen], fed);
    }

    /** One block fewer than would fit goes through the compression. */
    method Middle(data: seq<byte>) returns (rest: seq<byte>)
      requires Buffered() && buflen == 0 && |data| > 64
      modifies this`h, this`t0, this`t1, this`fed, this`blocks
      ensures Buffered() && 1 <= |rest| <= 64 && fed + rest == old(fed) + data
    {
      var n := (|data| + 63) / 64 - 1;
      hide Buffered;
      CompressBlocks(data[..64 * n], n);
      rest := data[64 * n..];
      assert data[..64 * n] + rest == data;
    }

    /** blake2s_final */
    method Final() returns (out: seq<byte>)
      requires Valid() && outlen <= 32
      modifies this, buf
      ensures out == Output(Last(f, h0, old(fed)))[..outlen]
    {
      ghost var part := buf[..buflen];
      f0 := 0xffff_ffff;
      Put(buf, buflen, Zeros(64 - buflen));
      assert buf[..] == part + Zeros(64 - buflen);
      Compress(buf[..], buflen, 64 * blocks);
      var words := Stored(h);
      out := words[..outlen];
    }
  }

  lemma {:induction false} BeforeIs(f: Compression, h0: Hash, h: Hash, t0: Word, t1: Word, k: nat, part: seq<byte>,
                                    fed: seq<byte>)
    requires Holds(f, h0, h, t0, t1, k, part, fed) && part != []
    ensures k == Before(|fed|)
  {
    hide Counts, Fold;
    DivUnique(|fed| - 1, 64, k, |part| - 1);
  }

  /** blake2s_init_key */
  method InitKey(f: Compression, outlen: nat, key: seq<byte>) returns (s: State)
    requires outlen <= 32 && 1 <= |key| <= 32
    ensures s.Valid() && fresh(s) && fresh(s.buf) && s.f == f && s.outlen == outlen
    ensures s.h0 == Initial(outlen, |key|) && s.fed == Keyed(key)
  {
    s := new State(f, outlen, |key|);
    s.Update(key + Zeros(64 - |key|));
    assert [] + Keyed(key) == Keyed(key);
  }

  method Init(f: Compression, outlen: nat, key: seq<byte>) returns (s: State)
    requires outlen <= 32 && |key| <= 32
    ensures s.Valid() && fresh(s) && fresh(s.buf) && s.f == f && s.outlen == outlen
    ensures s.h0 == Initial(outlen, |key|) && s.fed == Keyed(key)
  {
    if |key| > 0 {
      s := InitKey(f, outlen, key);
    } else {
      s := new State(f, outlen, 0);
    }
  }

  /** blake2s */
  method Hashed(f: Compression, data: seq<byte>, key: seq<byte>, outlen: nat) returns (out: seq<byte>)
    requires outlen <= 32 && |key| <= 32
    ensures out == Digest(f, outlen, key, data)
  {
    var s := Init(f, outlen, key);
    s.Update(data);
    out := s.Final();
  }

  /** However a message is cut into pieces, updating with one after the other
      ends in its digest. */
  method HashedInPieces(f: Compression, pieces: seq<seq<byte>>, key: seq<byte>, outlen: nat)
    returns (out: seq<byte>)
    requires outlen <= 32 && |key| <= 32
    ensures out == Digest(f, outlen, key, Concat(pieces))
  {
    hide State.Valid, Initial, Last, Output, Keyed;
    var s := Init(f, outlen, key);
    assert s.fed == Keyed(key) + Concat(pieces[..0]);
    for i := 0 to |pieces|
      invariant s.Valid() && fresh(s) && fresh(s.buf) && s.fed == Keyed(key) + Concat(pieces[..i])
    {
      s.Update(pieces[i]);
      assert pieces[..i + 1][..i] == pieces[..i];
      assert Keyed(key) + Concat(pieces[..i]) + pieces[i] == Keyed(key) + Concat(pieces[..i + 1]);
    }
    assert pieces[..|pieces|] == pieces;
    out := s.Final();
  }

  // ---- HMAC (RFC 2104) ----

  /** The hash that the HMAC is built on */
  function Unkeyed(f: Compression): HashFunction {
    m => Digest(f, 32, [], m)
  }

  /** The code turns the inner pad into the outer one in place. */
  lemma {:induction false} OtherPad(x: byte)
    ensures XorByte(XorByte(x, 0x36), 0x6a) == XorByte(x, 0x5c)
  {
    hide Xor;
    XorAssociative(x, 0x36, 0x6a);
    assert Xor(0x36, 0x6a) == 0x5c by { Pads(); }
  }

  lemma {:induction false} Pads()
    ensures Xor(0x36, 0x6a) == 0x5c
  {
    XorZero(1);
    assert Xor(0, 1) == 1;
    assert Xor(1, 3) == 2;
    assert Xor(3, 6) == 5;
    assert Xor(6, 13) == 11;
    assert Xor(13, 26) == 23;
    assert Xor(27, 53) == 46;
  }

  method XorEach(k: array<byte>, pad: byte)
    requires k.Length == 64
    modifies k
    ensures forall i :: 0 <= i < 64 ==> k[i] == XorByte(old(k[i]), pad)
  {
    hide XorByte;
    for i := 0 to 64
      invariant forall j :: 0 <= j < i ==> k[j] == XorByte(old(k[j]), pad)
      invariant forall j :: i <= j < 64 ==> k[j] == old(k[j])
    {
      k[i] := XorByte(k[i], pad);
    }
  }

  /** blake2s_hmac */
  method Authenticate(f: Compression, data: seq<byte>, key: seq<byte>, outlen: nat) returns (out: seq<byte>)
    requires outlen <= 32
    ensures out == Mac(Unkeyed(f), key, data)[..outlen]
  {
    hide Digest, XorByte;
    var xKey := new byte[64](_ => 0);
    if |key| > 64 {
      var hashed := Hashed(f, key, [], 32);
      assert hashed == Unkeyed(f)(key);
      Put(xKey, 0, hashed);
    } else {
      Put(xKey, 0, key);
    }
    ghost var k := KeyBlock(Unkeyed(f), key);
    assert xKey[..] == k;
    XorEach(xKey, 0x36);
    assert xKey[..] == Under(k, 0x36);
    var inner := Twice(f, xKey[..], data);
    XorEach(xKey, 0x6a);
    forall i | 0 <= i < 64
      ensures xKey[i] == XorByte(k[i], 0x5c)
    {
      OtherPad(k[i]);
    }
    assert xKey[..] == Under(k, 0x5c);
    inner := Twice(f, xKey[..], inner);
    out := inner[..outlen];
  }

  /** Init, two updates and final, as the code does twice */
  method Twice(f: Compression, a: seq<byte>, b: seq<byte>) returns (out: seq<byte>)
    ensures out == Unkeyed(f)(a + b)
  {
    hide State.Valid, Initial, Last, Output;
    var s := new State(f, 32, 0);
    s.Update(a);
    s.Update(b);
    assert [] + a + b == Keyed([]) + (a + b);
    out := s.Final();
  }
}
