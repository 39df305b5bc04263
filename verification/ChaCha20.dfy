/** chacha20.c: the cipher as a keystream that calls of any length consume
    block by block. The block function is a parameter. */
module ChaCha20 {
  import opened Words

  const CHACHA20_BLOCK_SIZE: nat := 64

  type Bytes64 = s: seq<byte> | |s| == 64 witness seq(64, _ => 0)

  /** A block function, from key, nonce and the 32-bit counter word, with a
      key and a nonce. */
  datatype Stream = Stream(f: (seq<byte>, u64, u32) -> Bytes64, key: seq<byte>, nonce: u64) {
    /** Block number c; the counter goes around after 2^32 of them. */
    function KeyBlock(c: nat): Bytes64 {
      f(key, nonce, (c % 0x1_0000_0000) as u32)
    }

    function At(i: nat): byte {
      KeyBlock(i / 64)[i % 64]
    }
  }

  /** data with the keystream from byte pos on */
  function XorStream(s: Stream, pos: nat, data: seq<byte>): (m: seq<byte>)
    ensures |m| == |data|
  {
    seq(|data|, i requires 0 <= i < |data| => XorByte(data[i], s.At(pos + i)))
  }

  lemma {:induction false} XorStreamConcat(s: Stream, pos: nat, a: seq<byte>, b: seq<byte>)
    ensures XorStream(s, pos, a + b) == XorStream(s, pos, a) + XorStream(s, pos + |a|, b)
  {
    hide XorByte, Stream.At;
  }

  lemma {:induction false} XorStreamPrefix(s: Stream, pos: nat, data: seq<byte>, n: nat)
    requires n <= |data|
    ensures XorStream(s, pos, data[..n]) == XorStream(s, pos, data)[..n]
  {
    hide XorByte, Stream.At;
  }

  /** Applying the keystream twice is the identity. */
  lemma {:induction false} XorStreamTwice(s: Stream, pos: nat, data: seq<byte>)
    ensures XorStream(s, pos, XorStream(s, pos, data)) == data
  {
    hide Stream.At, Xor;
    var once := XorStream(s, pos, data);
    forall i | 0 <= i < |data|
      ensures XorByte(once[i], s.At(pos + i)) == data[i]
    {
      XorCancels(data[i], s.At(pos + i));
    }
  }

  /** Inside one block the keystream is a piece of that block. */
  lemma {:induction false} XorStreamInBlock(s: Stream, c: nat, at: nat, data: seq<byte>)
    requires at + |data| <= 64
    ensures XorStream(s, 64 * c + at, data) == XorBytes(data, s.KeyBlock(c)[at..])
  {
    hide XorByte, Stream.KeyBlock;
    forall i | 0 <= i < |data|
      ensures s.At(64 * c + at + i) == s.KeyBlock(c)[at..][i]
    {
      assert (64 * c + at + i) / 64 == c && (64 * c + at + i) % 64 == at + i;
    }
  }

  function Ceil64(n: nat): nat {
    (n + 63) / 64
  }

  /** struct chacha20_ctx */
  class Cipher {
    const s: Stream
    var counter: u32
    /** the number of blocks used, of which counter is the low word */
    ghost var blocks: nat

    ghost predicate Valid()
      reads this
    {
      counter as nat == blocks % 0x1_0000_0000
    }

    /** chacha20_init */
    constructor (s: Stream)
      ensures Valid() && blocks == 0 && this.s == s
    {
      this.s, counter, blocks := s, 0, 0;
    }

    /** chacha20_block_generic */
    method NextBlock() returns (b: Bytes64)
      requires Valid()
      modifies this
      ensures Valid() && b == s.KeyBlock(old(blocks)) && blocks == old(blocks) + 1
    {
      b := s.f(s.key, s.nonce, counter);
      counter := if counter == 0xffff_ffff then 0 else counter + 1;
      blocks := blocks + 1;
    }

    /** One keystream block, or the front of one, over at most 64 bytes */
    method CryptBlock(dst: array<byte>, at: nat, src: seq<byte>)
      requires Valid() && at + |src| <= dst.Length && |src| <= 64
      modifies this, dst
      ensures Valid() && blocks == old(blocks) + 1
      ensures dst[..] == Written(old(dst[..]), at, XorStream(s, 64 * old(blocks), src))
    {
      hide XorByte, XorStream, XorBytes, Stream.KeyBlock, Written;
      XorStreamInBlock(s, blocks, 0, src);
      var buf := NextBlock();
      assert buf[0..] == buf;
      Put(dst, at, XorBytes(src, buf));
    }

    /** chacha20_generic on src, which is what the input holds where the output is to go; the
        output overwrites dst from at on, and len is a 32-bit number. */
    method Crypt(dst: array<byte>, at: nat, src: seq<byte>)
      requires Valid() && at + |src| <= dst.Length
      modifies this, dst
      ensures Valid() && blocks == old(blocks) + Ceil64(Low32(|src|))
      ensures dst[..] == Written(old(dst[..]), at, XorStream(s, 64 * old(blocks), src[..Low32(|src|)]))
    {
      CryptLow(dst, at, src[..|src| % 0x1_0000_0000]);
    }

    method CryptLow(dst: array<byte>, at: nat, src: seq<byte>)
      requires Valid() && at + |src| <= dst.Length
      modifies this, dst
      ensures Valid() && blocks == old(blocks) + Ceil64(|src|)
      ensures dst[..] == Written(old(dst[..]), at, XorStream(s, 64 * old(blocks), src))
    {
      hide XorStream, Written, Valid;
      var done, n := 0, 0;
      ghost var was, c := dst[..], blocks;
      WrittenNone(s, was, at, src, c);
      while |src| - done >= CHACHA20_BLOCK_SIZE
        invariant Valid() && done == 64 * n <= |src| && blocks == c + n
        invariant dst[..] == Written(was, at, XorStream(s, 64 * c, src[..done]))
      {
        Extend(s, was, at, src, done, done + 64, c);
        CryptBlock(dst, at + done, src[done..done + 64]);
        done, n := done + 64, n + 1;
      }
      if done < |src| {
        Extend(s, was, at, src, done, |src|, c);
        CryptBlock(dst, at + done, src[done..]);
      }
      assert src[..|src|] == src;
    }
  }

  /** A size_t passed as u32 */
  function Low32(n: nat): (r: nat)
    ensures r <= n && (n <= 0xffff_ffff ==> r == n)
  {
    n % 0x1_0000_0000
  }

  lemma WrittenNone(s: Stream, was: seq<byte>, at: nat, src: seq<byte>, c: nat)
    requires at <= |was|
    ensures Written(was, at, XorStream(s, 64 * c, src[..0])) == was
  {
  }

  /** One more stretch of a message enciphered */
  lemma {:induction false} Extend(s: Stream, was: seq<byte>, at: nat, src: seq<byte>, i: nat, j: nat, c: nat)
    requires i <= j <= |src| && at + |src| <= |was|
    ensures Written(Written(was, at, XorStream(s, 64 * c, src[..i])), at + i, XorStream(s, 64 * c + i, src[i..j]))
      == Written(was, at, XorStream(s, 64 * c, src[..j]))
  {
    hide XorStream, Written;
    assert src[..j] == src[..i] + src[i..j];
    XorStreamConcat(s, 64 * c, src[..i], src[i..j]);
    WrittenOn(was, at, XorStream(s, 64 * c, src[..i]), XorStream(s, 64 * c + i, src[i..j]));
  }
}
