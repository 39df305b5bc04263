/** chacha20poly1305.c: the AEAD of section 2.8 of RFC 8439 on contiguous
    messages. */
module Aead {
  import opened Wrappers
  import opened Words
  import opened Poly1305Spec
  import opened ChaCha20
  import Poly1305

  const POLY1305_MAC_SIZE: nat := 16
  const INT_MAX: nat := 0x7fff_ffff
  const MAX_U32: nat := 0xffff_ffff

  // ---- what the construction is ----

  function PadLength(n: nat): nat {
    (16 - n % 16) % 16
  }

  function Padded(m: seq<byte>): seq<byte> {
    m + Zeros(PadLength(|m|))
  }

  function MacData(ad: seq<byte>, ct: seq<byte>): seq<byte> {
    Padded(ad) + Padded(ct) + StoreLe(|ad|, 8) + StoreLe(|ct|, 8)
  }

  function OneTimeKey(s: Stream): (k: seq<byte>)
    ensures |k| == 32
  {
    s.KeyBlock(0)[..32]
  }

  function Mac(s: Stream, ad: seq<byte>, ct: seq<byte>): (t: seq<byte>)
    ensures |t| == 16
  {
    Tag(OneTimeKey(s), MacData(ad, ct))
  }

  function Encipher(s: Stream, pt: seq<byte>): (ct: seq<byte>)
    ensures |ct| == |pt|
  {
    XorStream(s, 64, pt)
  }

  function Seal(s: Stream, ad: seq<byte>, pt: seq<byte>): seq<byte> {
    var ct := Encipher(s, pt);
    ct + Mac(s, ad, ct)
  }

  function Open(s: Stream, ad: seq<byte>, src: seq<byte>): Option<seq<byte>> {
    if |src| < 16 then None
    else
      var ct, tag := src[..|src| - 16], src[|src| - 16..];
      if tag == Mac(s, ad, ct) then Some(Encipher(s, ct)) else None
  }

  /** Padding ends at a multiple of 16, the next one. */
  lemma {:induction false} PadLengthLeast(n: nat, k: nat)
    ensures (n + PadLength(n)) % 16 == 0
    ensures (n + k) % 16 == 0 ==> PadLength(n) <= k
  {
  }

  /** What is authenticated (section 2.8 of RFC 8439): the additional data begins at 0, the ciphertext at the next
      multiple of 16 behind it, both lengths at the next one behind that, with zeroes in between. */
  lemma {:induction false} MacLayout(ad: seq<byte>, ct: seq<byte>) returns (a: nat, b: nat)
    ensures a % 16 == 0 && |ad| <= a < |ad| + 16 && b % 16 == 0 && a + |ct| <= b < a + |ct| + 16
    ensures var m := MacData(ad, ct);
      && |m| == b + 16 && m[..|ad|] == ad && m[a..a + |ct|] == ct
      && (forall i :: |ad| <= i < a || a + |ct| <= i < b ==> m[i] == 0)
      && LoadLe(m[b..b + 8]) == |ad| % 0x1_0000_0000_0000_0000 && LoadLe(m[b + 8..]) == |ct| % 0x1_0000_0000_0000_0000
  {
    hide PadLength, StoreLe, Pow2, LoadLe, Zeros, MacData;
    var x, y := PadLength(|ad|), PadLength(|ct|);
    a, b := |ad| + x, |ad| + x + |ct| + y;
    PadNext(|ad|);
    PadNext(|ct|);
    SumOf16(a, |ct| + y);
    Powers();
    LeReads(|ad|, 8);
    LeReads(|ct|, 8);
    MacParts(ad, ct);
    Placed(ad, x, ct, y, StoreLe(|ad|, 8), StoreLe(|ct|, 8));
  }

  lemma PadNext(n: nat)
    ensures PadLength(n) < 16 && (n + PadLength(n)) % 16 == 0
  {
    PadLengthLeast(n, 0);
  }

  lemma SumOf16(x: nat, y: nat)
    requires x % 16 == 0 && y % 16 == 0
    ensures (x + y) % 16 == 0
  {
  }

  lemma MacParts(ad: seq<byte>, ct: seq<byte>)
    ensures MacData(ad, ct)
      == (ad + Zeros(PadLength(|ad|))) + (ct + Zeros(PadLength(|ct|))) + StoreLe(|ad|, 8) + StoreLe(|ct|, 8)
  {
    hide PadLength, StoreLe, Zeros;
  }

  lemma {:induction false} Placed(ad: seq<byte>, x: nat, ct: seq<byte>, y: nat, l: seq<byte>, k: seq<byte>)
    requires |l| == 8 && |k| == 8
    ensures var m := (ad + Zeros(x)) + (ct + Zeros(y)) + l + k; var a := |ad| + x; var b := a + |ct| + y;
      && |m| == b + 16 && m[..|ad|] == ad && m[a..a + |ct|] == ct && m[b..b + 8] == l && m[b + 8..] == k
      && forall i :: |ad| <= i < a || a + |ct| <= i < b ==> m[i] == 0
  {
  }

  /** What was sealed opens to the plaintext. */
  lemma {:induction false} OpenSeal(s: Stream, ad: seq<byte>, pt: seq<byte>)
    ensures Open(s, ad, Seal(s, ad, pt)) == Some(pt)
  {
    hide Mac, XorStream;
    var ct, sealed := Encipher(s, pt), Seal(s, ad, pt);
    assert sealed[..|sealed| - 16] == ct && sealed[|sealed| - 16..] == Mac(s, ad, ct);
    XorStreamTwice(s, 64, pt);
  }

  // ---- the parts all four functions share ----

  /** The first n bytes of the next keystream block, by encrypting zeroes */
  method StreamBytes(cipher: ChaCha20.Cipher, n: nat) returns (key: seq<byte>)
    requires cipher.Valid() && 0 < n <= 64
    modifies cipher
    ensures cipher.Valid() && cipher.blocks == old(cipher.blocks) + 1
    ensures key == cipher.s.KeyBlock(old(cipher.blocks))[..n]
  {
    var block := new byte[n](_ => 0);
    var zeros := block[..];
    assert zeros == Zeros(n) && zeros[..n] == zeros && Ceil64(n) == 1;
    hide XorStream, Zeros, Stream.KeyBlock, Ceil64;
    StreamOnZeros(cipher.s, cipher.blocks, zeros);
    cipher.Crypt(block, 0, zeros);
    key := block[..];
  }

  /** (0x10 - len) & 0xf, in 64 bits */
  method PadCount(len: nat) returns (n: nat)
    ensures n == PadLength(len)
  {
    var w := (0x1_0000_0000_0000_0010 - len % 0x1_0000_0000_0000_0000) % 0x1_0000_0000_0000_0000;
    n := And(w, 0xf);
    SmallPowers();
    AndOnes(w, 4);
    LowFour(len, w);
  }

  lemma {:induction false} LowFour(len: nat, w: nat)
    requires w == (0x1_0000_0000_0000_0010 - len % 0x1_0000_0000_0000_0000) % 0x1_0000_0000_0000_0000
    ensures w % 16 == PadLength(len)
  {
    var m := 0x1_0000_0000_0000_0000;
    var r, k := len % m, len / m;
    ModParts(len, m);
    ModParts(r, 16);
    DivUnique(len, 16, 0x1000_0000_0000_0000 * k + r / 16, r % 16);
    var top := if r <= 16 && r != 0 then 16 else m + 16;
    assert w == (if r == 0 then 16 else top - r) by { DivUnique(m + 16 - r, m, if r <= 16 then 1 else 0, if r <= 16 then 16 - r else m + 16 - r); }
    if r % 16 == 0 {
      DivUnique(w, 16, if r == 0 then 1 else top / 16 - r / 16, 0);
    } else {
      DivUnique(w, 16, top / 16 - r / 16 - 1, 16 - r % 16);
    }
  }

  /** Key the authenticator with the first keystream block and feed it ad. */
  method Start(s: Stream, ad: seq<byte>, narrow: bool) returns (cipher: ChaCha20.Cipher, poly: Poly1305.Context)
    ensures cipher.Valid() && cipher.s == s && cipher.blocks == 1 && fresh(cipher)
    ensures poly.Valid() && poly.key == OneTimeKey(s) && poly.fed == Padded(ad)
    ensures fresh(poly) && fresh(poly.data) && fresh(poly.state.Objects())
  {
    hide Stream.KeyBlock, Zeros, PadLength, Poly1305.Context.Valid;
    cipher := new ChaCha20.Cipher(s);
    var key := StreamBytes(cipher, 32);
    poly := new Poly1305.Context(key, narrow);
    poly.Update(ad);
    var n := PadCount(|ad|);
    poly.Update(Zeros(n));
  }

  lemma {:induction false} StreamOnZeros(s: Stream, c: nat, zeros: seq<byte>)
    requires |zeros| <= 64 && zeros == Zeros(|zeros|)
    ensures XorStream(s, 64 * c, zeros) == s.KeyBlock(c)[..|zeros|]
  {
    hide Stream.KeyBlock;
    XorStreamInBlock(s, c, 0, zeros);
    forall i | 0 <= i < |zeros|
      ensures XorByte(0, s.KeyBlock(c)[i]) == s.KeyBlock(c)[i]
    {
      XorCommutes(0, s.KeyBlock(c)[i]);
      XorZero(s.KeyBlock(c)[i]);
    }
  }

  lemma {:induction false} XorCommutes(x: nat, y: nat)
    ensures Xor(x, y) == Xor(y, x)
  {
    if x != 0 || y != 0 {
      XorStep(x, y);
      XorStep(y, x);
      XorCommutes(x / 2, y / 2);
    }
  }

  /** Pad the ciphertext, add the two lengths and take the tag. */
  method Finish(s: Stream, poly: Poly1305.Context, ad: seq<byte>, ghost ct: seq<byte>, len: nat) returns (mac: seq<byte>)
    requires poly.Valid() && poly.key == OneTimeKey(s) && poly.fed == Padded(ad) + ct && len == |ct|
    modifies poly`num, poly`fed, poly.data, poly.state.Objects()
    ensures mac == Mac(s, ad, ct)
  {
    hide OneTimeKey, Zeros, PadLength, Poly1305.Context.Valid, StoreLe, MacData, Padded, Tag, Mac;
    var n := PadCount(len);
    poly.Update(Zeros(n));
    poly.Update(StoreLe(|ad|, 8) + StoreLe(len, 8));
    FedIsMacData(ad, ct);
    mac := poly.Final();
    MacIs(s, ad, ct);
  }

  lemma FedIsMacData(ad: seq<byte>, ct: seq<byte>)
    ensures MacData(ad, ct) == Padded(ad) + ct + Zeros(PadLength(|ct|)) + (StoreLe(|ad|, 8) + StoreLe(|ct|, 8))
  {
    hide StoreLe, Zeros, PadLength;
  }

  lemma MacIs(s: Stream, ad: seq<byte>, ct: seq<byte>)
    ensures Mac(s, ad, ct) == Tag(OneTimeKey(s), MacData(ad, ct))
  {
  }

  /** A message longer than 32 bits can count is sealed if and only if the destination holds the rest of the
      ciphertext already. */
  lemma {:induction false} LongMessage(s: Stream, ad: seq<byte>, src: seq<byte>, dst: seq<byte>)
    requires |src| <= |dst|
    ensures var n := Low32(|src|); var ct := Encipher(s, src[..n]) + dst[n..|src|];
      ct + Mac(s, ad, ct) == Seal(s, ad, src) <==> |src| <= MAX_U32 || dst[n..|src|] == Encipher(s, src)[n..]
  {
    hide Mac, XorStream;
    var n := Low32(|src|);
    var ct, all := Encipher(s, src[..n]) + dst[n..|src|], Encipher(s, src);
    XorStreamPrefix(s, 64, src, n);
    assert all == all[..n] + all[n..];
    assert (ct + Mac(s, ad, ct))[..|src|] == ct && Seal(s, ad, src)[..|src|] == all;
    assert ct[n..] == dst[n..|src|];
    if |src| <= MAX_U32 {
      assert n == |src| && ct == all;
    }
  }

  /** Such a message: nothing of 2^32 bytes is encrypted, whatever the destination holds, and if its first byte is
      not that of the ciphertext then the message is not sealed. */
  lemma {:induction false} LeftInTheClear(s: Stream, ad: seq<byte>, src: seq<byte>, dst: seq<byte>)
    requires |src| == MAX_U32 + 1 <= |dst| && dst[0] != Encipher(s, src)[0]
    ensures var n := Low32(|src|); var ct := Encipher(s, src[..n]) + dst[n..|src|];
      n == 0 && ct == dst[..|src|] && ct + Mac(s, ad, ct) != Seal(s, ad, src)
  {
    hide Mac, XorStream;
    LongMessage(s, ad, src, dst);
    assert dst[..|src|][0] != Encipher(s, src)[0..][0];
  }

  // ---- contiguous buffers ----

  /** __chacha20poly1305_encrypt. The cipher takes the length as a 32-bit number, so that of a longer
      message only the first |src| % 2^32 bytes are encrypted and dst keeps what it held behind them. */
  method Encrypt(dst: array<byte>, src: seq<byte>, ad: seq<byte>, s: Stream, narrow: bool)
    requires |src| + POLY1305_MAC_SIZE <= dst.Length
    modifies dst
    ensures var n := Low32(|src|); var ct := Encipher(s, src[..n]) + old(dst[n..|src|]);
      dst[..] == ct + Mac(s, ad, ct) + old(dst[|src| + 16..])
    ensures |src| <= MAX_U32 ==> dst[..] == Seal(s, ad, src) + old(dst[|src| + 16..])
  {
    hide Mac, XorStream, Padded, Poly1305.Context.Valid, OneTimeKey, Written, Low32;
    ghost var was, n := dst[..], Low32(|src|);
    ghost var front := Encipher(s, src[..n]);
    ghost var ct := front + was[n..|src|];
    var cipher, poly := Start(s, ad, narrow);
    cipher.Crypt(dst, 0, src);
    FrontWritten(was, front, |src|);
    assert dst[..][..|src|] == dst[..|src|];
    poly.Update(dst[..|src|]);
    var mac := Finish(s, poly, ad, ct, |src|);
    TagWritten(was, front, |src|, mac);
    Put(dst, |src|, mac);
    if |src| <= MAX_U32 {
      assert src[..n] == src && ct == Encipher(s, src);
    }
  }

  lemma FrontWritten(was: seq<byte>, front: seq<byte>, len: nat)
    requires |front| <= len <= |was|
    ensures Written(was, 0, front)[..len] == front + was[|front|..len]
  {
  }

  lemma TagWritten(was: seq<byte>, front: seq<byte>, len: nat, mac: seq<byte>)
    requires |front| <= len && len + |mac| <= |was|
    ensures Written(Written(was, 0, front), len, mac) == front + was[|front|..len] + mac + was[len + |mac|..]
  {
  }

  /** chacha20() at the front of a buffer */
  method CryptFront(cipher: ChaCha20.Cipher, dst: array<byte>, src: seq<byte>)
    requires cipher.Valid() && |src| <= dst.Length
    modifies cipher, dst
    ensures dst[..] == XorStream(cipher.s, 64 * old(cipher.blocks), src)[..Low32(|src|)] + old(dst[Low32(|src|)..])
  {
    hide XorStream, Ceil64;
    XorStreamPrefix(cipher.s, 64 * cipher.blocks, src, Low32(|src|));
    cipher.Crypt(dst, 0, src);
  }

  /** __chacha20poly1305_decrypt; dst is only written when the tag is right. */
  method Decrypt(dst: array<byte>, src: seq<byte>, ad: seq<byte>, s: Stream, narrow: bool) returns (ok: bool)
    requires |src| <= dst.Length + POLY1305_MAC_SIZE
    modifies dst
    ensures ok <==> Open(s, ad, src).Some?
    ensures !ok ==> dst[..] == old(dst[..])
    ensures ok ==> var n := Low32(|src| - 16);
      dst[..] == Open(s, ad, src).value[..n] + old(dst[n..])
  {
    if |src| < POLY1305_MAC_SIZE {
      return false;
    }
    var len := |src| - POLY1305_MAC_SIZE;
    ghost var pt := Encipher(s, src[..len]);
    assert Open(s, ad, src) == if src[len..] == Mac(s, ad, src[..len]) then Some(pt) else None;
    assert pt == XorStream(s, 64, src[..len]);
    hide Mac, Open, Encipher, Low32, XorStream;
    var mac, cipher := Authenticate(src[..len], ad, s, narrow);
    ok := mac == src[len..];
    if ok {
      CryptFront(cipher, dst, src[..len]);
    }
  }

  /** The tag that belongs to a ciphertext, and the cipher to go on with */
  method Authenticate(ct: seq<byte>, ad: seq<byte>, s: Stream, narrow: bool) returns (mac: seq<byte>, cipher: ChaCha20.Cipher)
    ensures mac == Mac(s, ad, ct) && fresh(cipher) && cipher.Valid() && cipher.s == s && cipher.blocks == 1
  {
    hide Mac, Padded, Poly1305.Context.Valid, OneTimeKey;
    var poly;
    cipher, poly := Start(s, ad, narrow);
    poly.Update(ct);
    mac := Finish(s, poly, ad, ct, |ct|);
  }
}
