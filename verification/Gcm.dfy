/** The AES-GCM of qinit.c (sections 6 and 7 of NIST SP 800-38D), sealing in
    place. The AES block function is a parameter. */
module Gcm {
  import opened Wrappers
  import opened Words
  import opened GaloisField

  type Nonce = s: seq<byte> | |s| == 12 witness seq(12, _ => 0)

  datatype Ciphers = Ciphers(aes: (Block, Block) -> Block)

  // ---- what the construction is ----

  /** The counter block number n after J0 */
  function CounterBlock(nonce: Nonce, n: nat): Block {
    nonce + Be32(n + 1)
  }

  function KeyByte(c: Ciphers, key: Block, nonce: Nonce, i: nat): byte {
    c.aes(key, CounterBlock(nonce, 1 + i / 16))[i % 16]
  }

  function Ctr(c: Ciphers, key: Block, nonce: Nonce, m: seq<byte>): (r: seq<byte>)
    ensures |r| == |m|
  {
    seq(|m|, i requires 0 <= i < |m| => XorByte(m[i], KeyByte(c, key, nonce, i)))
  }

  function Absorb(h: Block, state: Block, block: Block): Block {
    Times(XorBytes(state, block), h)
  }

  function Ghash(h: Block, state: Block, m: seq<byte>): Block
    decreases |m|
  {
    if m == [] then state
    else if |m| < 16 then Absorb(h, state, m + Zeros(16 - |m|))
    else Ghash(h, Absorb(h, state, m[..16]), m[16..])
  }

  function HashKey(c: Ciphers, key: Block): Block {
    c.aes(key, Zeros(16))
  }

  function Tag(c: Ciphers, key: Block, nonce: Nonce, ad: seq<byte>, ct: seq<byte>): Block {
    var h := HashKey(c, key);
    var state := Ghash(h, Ghash(h, Zeros(16), ad), ct);
    XorBytes(Absorb(h, state, Be64(8 * |ad|) + Be64(8 * |ct|)), c.aes(key, CounterBlock(nonce, 0)))
  }

  function Seal(c: Ciphers, key: Block, nonce: Nonce, ad: seq<byte>, pt: seq<byte>): (m: seq<byte>)
    ensures |m| == |pt| + 16
  {
    var ct := Ctr(c, key, nonce, pt);
    ct + Tag(c, key, nonce, ad, ct)
  }

  function Open(c: Ciphers, key: Block, nonce: Nonce, ad: seq<byte>, m: seq<byte>): Option<seq<byte>> {
    if |m| < 16 then None
    else
      var ct := m[..|m| - 16];
      if m[|m| - 16..] == Tag(c, key, nonce, ad, ct) then Some(Ctr(c, key, nonce, ct)) else None
  }

  lemma {:induction false} CtrTwice(c: Ciphers, key: Block, nonce: Nonce, m: seq<byte>)
    ensures Ctr(c, key, nonce, Ctr(c, key, nonce, m)) == m
  {
    hide KeyByte, Xor;
    var once := Ctr(c, key, nonce, m);
    forall i | 0 <= i < |m|
      ensures XorByte(once[i], KeyByte(c, key, nonce, i)) == m[i]
    {
      XorCancels(m[i], KeyByte(c, key, nonce, i));
    }
  }

  lemma {:induction false} OpenSeal(c: Ciphers, key: Block, nonce: Nonce, ad: seq<byte>, pt: seq<byte>)
    ensures Open(c, key, nonce, ad, Seal(c, key, nonce, ad, pt)) == Some(pt)
  {
    hide Ctr, Tag;
    var ct := Ctr(c, key, nonce, pt);
    assert Seal(c, key, nonce, ad, pt)[..|pt|] == ct;
    CtrTwice(c, key, nonce, pt);
  }

  /** Zeroes up to a multiple of the block */
  function ToBlocks(m: seq<byte>): seq<byte> {
    m + Zeros((16 - |m| % 16) % 16)
  }

  lemma {:induction false} GhashPadded(h: Block, state: Block, m: seq<byte>)
    ensures Ghash(h, state, m) == Ghash(h, state, ToBlocks(m))
    decreases |m|
  {
    hide Absorb, ToBlocks;
    BlocksOf(m);
    if |m| >= 16 {
      GhashPadded(h, Absorb(h, state, m[..16]), m[16..]);
    } else if m != [] {
      hide Ghash;
      LastBlock(h, state, ToBlocks(m));
      Short(h, state, m);
    }
  }

  lemma Short(h: Block, state: Block, m: seq<byte>)
    requires 0 < |m| < 16
    ensures Ghash(h, state, m) == Absorb(h, state, m + Zeros(16 - |m|))
  {
  }

  lemma {:induction false} BlocksOf(m: seq<byte>)
    ensures |ToBlocks(m)| % 16 == 0
    ensures if |m| >= 16 then |ToBlocks(m)| >= 16 && ToBlocks(m)[..16] == m[..16] && ToBlocks(m)[16..] == ToBlocks(m[16..])
            else ToBlocks(m) == if m == [] then [] else m + Zeros(16 - |m|)
  {
    hide Zeros;
    if |m| >= 16 {
      assert (|m| - 16) % 16 == |m| % 16;
    }
  }

  lemma {:induction false} GhashOn(h: Block, state: Block, a: seq<byte>, b: seq<byte>)
    requires |a| % 16 == 0
    ensures Ghash(h, state, a + b) == Ghash(h, Ghash(h, state, a), b)
    decreases |a|
  {
    hide Absorb;
    if a == [] {
      assert a + b == b;
    } else {
      assert (a + b)[..16] == a[..16] && (a + b)[16..] == a[16..] + b;
      GhashOn(h, Absorb(h, state, a[..16]), a[16..], b);
    }
  }

  /** The tag is that of section 7.1 of NIST SP 800-38D: one hash over both texts, each filled up to whole blocks, and
      their lengths in bits, under the first counter block. */
  lemma {:induction false} TagIs(c: Ciphers, key: Block, nonce: Nonce, ad: seq<byte>, ct: seq<byte>)
    ensures var text := ToBlocks(ad) + ToBlocks(ct) + (Be64(8 * |ad|) + Be64(8 * |ct|));
      && |text| % 16 == 0
      && Tag(c, key, nonce, ad, ct)
         == XorBytes(Ghash(c.aes(key, Zeros(16)), Zeros(16), text), c.aes(key, nonce + [0, 0, 0, 1]))
  {
    CounterStarts(nonce);
    BlocksOf(ad);
    BlocksOf(ct);
    hide Absorb, CounterBlock, Be64, XorBytes, Ghash, ToBlocks;
    var h, a, b, n := HashKey(c, key), ToBlocks(ad), ToBlocks(ct), Be64(8 * |ad|) + Be64(8 * |ct|);
    GhashPadded(h, Zeros(16), ad);
    GhashPadded(h, Ghash(h, Zeros(16), ad), ct);
    GhashOn(h, Zeros(16), a, b);
    GhashOn(h, Zeros(16), a + b, n);
    LastBlock(h, Ghash(h, Zeros(16), a + b), n);
  }

  lemma LastBlock(h: Block, state: Block, block: Block)
    ensures Ghash(h, state, block) == Absorb(h, state, block)
  {
    assert block[..16] == block && block[16..] == [];
  }

  // ---- what the code does ----

  /** The big-endian word of four bytes, one added to it, and its bytes again */
  method Next(was: seq<byte>, ghost n: nat) returns (digits: seq<byte>)
    requires was == Be32(n)
    ensures digits == Be32(n + 1)
  {
    ghost var q := Word(n);
    hide Be32;
    var w := 0x100_0000 * (was[0] as int) + 0x1_0000 * (was[1] as int) + 0x100 * (was[2] as int) + was[3];
    var c := (w + 1) % 0x1_0000_0000;
    WordBytes(c);
    digits := [c / 0x100_0000, c / 0x1_0000 % 256, c / 0x100 % 256, c % 256];
    q := CarryOver(n, q, w);
    Be32Mod(n + 1, c, q);
  }

  lemma {:induction false} CarryOver(n: nat, q: nat, w: nat) returns (r: nat)
    requires n == 0x1_0000_0000 * q + w && w < 0x1_0000_0000
    ensures n + 1 == (w + 1) % 0x1_0000_0000 + 0x1_0000_0000 * r
  {
    r := if w + 1 == 0x1_0000_0000 then q + 1 else q;
  }

  lemma CounterStarts(nonce: Nonce)
    ensures CounterBlock(nonce, 0) == nonce + [0, 0, 0, 1]
  {
  }

  /** gcm_inc32 */
  method Increment(ctr: array<byte>, ghost nonce: Nonce, ghost n: nat)
    requires ctr.Length == 16 && ctr[..] == CounterBlock(nonce, n)
    modifies ctr
    ensures ctr[..] == CounterBlock(nonce, n + 1)
  {
    var was := ctr[12..];
    assert ctr[..] == nonce + was && ctr[..12] == nonce;
    var digits := Next(was, n + 1);
    hide Be32;
    ctr[12], ctr[13], ctr[14], ctr[15] := digits[0], digits[1], digits[2], digits[3];
    assert ctr[..] == nonce + digits;
  }

  /** The nonce and a one behind it, and one more */
  method FirstCounter(nonce: Nonce) returns (ctr: array<byte>)
    ensures fresh(ctr) && ctr.Length == 16 && ctr[..] == CounterBlock(nonce, 1)
  {
    hide CounterBlock;
    CounterStarts(nonce);
    ctr := new byte[16](_ => 0);
    Put(ctr, 0, nonce);
    ctr[15] := 1;
    assert ctr[..] == nonce + [0, 0, 0, 1];
    Increment(ctr, nonce, 0);
  }

  /** ghash_update */
  method GhashUpdate(state: array<byte>, block: Block, h: Block)
    requires state.Length == 16
    modifies state
    ensures state[..] == Absorb(h, old(state[..]), block)
  {
    hide XorByte, Times;
    for i := 0 to 16
      invariant forall k :: 0 <= k < i ==> state[k] == XorByte(old(state[k]), block[k])
      invariant forall k :: i <= k < 16 ==> state[k] == old(state[k])
    {
      state[i] := XorByte(state[i], block[i]);
    }
    assert state[..] == XorBytes(old(state[..]), block);
    Multiply(state, h);
  }

  /** ghash_data */
  method GhashData(state: array<byte>, h: Block, data: array<byte>, at: nat, n: nat)
    requires state.Length == 16 && at + n <= data.Length && state != data
    modifies state
    ensures state[..] == Ghash(h, old(state[..]), data[at..at + n])
  {
    hide Absorb;
    var p, len := at, n;
    while len >= 16
      invariant p + len == at + n && at <= p
      invariant Ghash(h, state[..], data[p..p + len]) == Ghash(h, old(state[..]), data[at..at + n])
    {
      ghost var rest := data[p..p + len];
      assert rest[..16] == data[p..p + 16] && rest[16..] == data[p + 16..p + len];
      GhashUpdate(state, data[p..p + 16], h);
      p, len := p + 16, len - 16;
    }
    if len > 0 {
      GhashUpdate(state, data[p..p + len] + Zeros(16 - len), h);
    }
  }

  /** The loop of qinit_aes128_gcm_seal: n bytes of buf from at on with the
      keystream, in place */
  method CtrInPlace(c: Ciphers, key: Block, nonce: Nonce, buf: array<byte>, at: nat, n: nat)
    requires at + n <= buf.Length
    modifies buf
    ensures buf[..] == Written(old(buf[..]), at, Ctr(c, key, nonce, old(buf[at..at + n])))
  {
    hide Be32, Xor, XorByte, CounterBlock;
    ghost var pt := buf[at..at + n];
    var ctr := FirstCounter(nonce);
    var ks: Block := Zeros(16);
    for i := 0 to n
      invariant ctr[..] == CounterBlock(nonce, 1 + (i + 15) / 16)
      invariant i % 16 != 0 ==> ks == c.aes(key, CounterBlock(nonce, 1 + i / 16))
      invariant forall k :: 0 <= k < i ==> buf[at + k] == XorByte(pt[k], KeyByte(c, key, nonce, k))
      invariant forall k :: 0 <= k < buf.Length && !(at <= k < at + i) ==> buf[k] == old(buf[k])
    {
      if i % 16 == 0 {
        ks := c.aes(key, ctr[..]);
        Increment(ctr, nonce, 1 + i / 16);
      }
      assert KeyByte(c, key, nonce, i) == ks[i % 16];
      assert old(buf[at + i]) == pt[i];
      buf[at + i] := XorByte(buf[at + i], ks[i % 16]);
    }
  }

  /** GHASH over the additional data and the ciphertext, and the tag */
  method ComputeTag(c: Ciphers, key: Block, nonce: Nonce, buf: array<byte>, adLen: nat, at: nat, n: nat)
    returns (tag: Block)
    requires adLen <= buf.Length && at + n <= buf.Length
    ensures tag == Tag(c, key, nonce, buf[..adLen], buf[at..at + n])
  {
    hide Ghash, Absorb, CounterBlock, XorBytes, Be64;
    var h := c.aes(key, Zeros(16));
    assert buf[0..adLen] == buf[..adLen];
    var ghash := new byte[16](_ => 0);
    assert ghash[..] == Zeros(16);
    GhashData(ghash, h, buf, 0, adLen);
    GhashData(ghash, h, buf, at, n);
    GhashUpdate(ghash, Be64(8 * adLen) + Be64(8 * n), h);
    CounterStarts(nonce);
    tag := XorBytes(ghash[..], c.aes(key, nonce + [0, 0, 0, 1]));
  }

  /** qinit_aes128_gcm_seal on one buffer: the additional data is its first
      adLen bytes, the text is overwritten and the tag goes behind it. */
  method SealInPlace(c: Ciphers, key: Block, nonce: Nonce, buf: array<byte>, adLen: nat, at: nat, n: nat)
    requires adLen <= at && at + n + 16 <= buf.Length
    modifies buf
    ensures buf[..] == Written(old(buf[..]), at, Seal(c, key, nonce, old(buf[..adLen]), old(buf[at..at + n])))
  {
    hide Ctr, Tag;
    ghost var ad, pt := buf[..adLen], buf[at..at + n];
    CtrInPlace(c, key, nonce, buf, at, n);
    ghost var ct := Ctr(c, key, nonce, pt);
    assert buf[..adLen] == ad && buf[at..at + n] == ct;
    var tag := ComputeTag(c, key, nonce, buf, adLen, at, n);
    WrittenOn(old(buf[..]), at, ct, tag);
    hide Written;
    Put(buf, at + n, tag);
  }
}
