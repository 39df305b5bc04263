/** Addresses as allowedips.c keeps them: network-order bytes byte-swapped into
    one 32-bit or two 64-bit native (little-endian) words. */
module Address {
  import opened Words

  const V4 := 32
  const V6 := 128

  predicate Width(bits: nat) { bits == V4 || bits == V6 }

  predicate IsKey(key: seq<byte>, bits: nat) { Width(bits) && |key| == bits / 8 }

  /** swap_endian */
  function SwapEndian(src: seq<byte>, bits: nat): (dst: seq<byte>)
    requires IsKey(src, bits)
    ensures IsKey(dst, bits)
  {
    if bits == 32 then StoreLe(LoadBe(src), 4)
    else StoreLe(LoadBe(src[..8]), 8) + StoreLe(LoadBe(src[8..]), 8)
  }

  /** node->bit_at_a on a little-endian machine */
  function BitAtA(cidr: nat, bits: nat): nat {
    Xor(cidr / 8, (bits / 8 - 1) % 8)
  }

  /** node->bit_at_b */
  function BitAtB(cidr: nat): nat { 7 - cidr % 8 }

  /** The bits of an address given in network byte order, most significant first. */
  function BeBits(be: seq<byte>): (s: seq<bool>)
    ensures |s| == 8 * |be|
  {
    seq(8 * |be|, i requires 0 <= i < 8 * |be| => Bit(be[i / 8], 7 - i % 8))
  }

  /** The address bits denoted by a byte-swapped key. */
  function KeyBits(key: seq<byte>, bits: nat): (s: seq<bool>)
    requires IsKey(key, bits)
    ensures |s| == bits
  {
    BeBits(SwapEndian(key, bits))
  }

  /** choose() */
  function Choose(bitAtA: nat, bitAtB: nat, key: seq<byte>): (b: nat)
    requires bitAtA < |key|
    ensures b < 2
  {
    key[bitAtA] / Pow2(bitAtB) % 2
  }

  function Fls128(a: nat, b: nat): nat {
    if a != 0 then Fls(a) + 64 else Fls(b)
  }

  /** common_bits() */
  function CommonBits(node: seq<byte>, key: seq<byte>, bits: nat): int
    requires IsKey(node, bits) && IsKey(key, bits)
  {
    if bits == 32 then 32 - Fls(Xor(LoadLe(node), LoadLe(key)))
    else 128 - Fls128(Xor(LoadLe(node[..8]), LoadLe(key[..8])), Xor(LoadLe(node[8..]), LoadLe(key[8..])))
  }

  lemma {:induction false} SwapEndianBytes(src: seq<byte>, bits: nat)
    requires IsKey(src, bits)
    ensures bits == 32 ==> SwapEndian(src, bits) == Reverse(src)
    ensures bits == 128 ==> SwapEndian(src, bits) == Reverse(src[..8]) + Reverse(src[8..])
  {
    if bits == 32 {
      StoreLeOfLoadBe(src);
    } else {
      StoreLeOfLoadBe(src[..8]);
      StoreLeOfLoadBe(src[8..]);
    }
  }

  lemma {:induction false} SwappedByte(src: seq<byte>, bits: nat, j: nat)
    requires IsKey(src, bits) && j < bits / 8
    ensures SwapEndian(src, bits)[j] == if bits == 32 then src[3 - j] else if j < 8 then src[7 - j] else src[23 - j]
  {
    SwapEndianBytes(src, bits);
    if bits == 128 {
      if j < 8 {
        assert Reverse(src[..8])[j] == src[7 - j];
      } else {
        assert Reverse(src[8..])[j - 8] == src[8..][15 - j];
      }
    }
  }

  lemma {:induction false} SwapEndianInvolution(src: seq<byte>, bits: nat)
    requires IsKey(src, bits)
    ensures SwapEndian(SwapEndian(src, bits), bits) == src
  {
    SwapEndianBytes(src, bits);
    SwapEndianBytes(SwapEndian(src, bits), bits);
    if bits == 128 {
      var s := SwapEndian(src, bits);
      assert s[..8] == Reverse(src[..8]) && s[8..] == Reverse(src[8..]);
      assert Reverse(s[..8]) == src[..8] && Reverse(s[8..]) == src[8..];
    }
  }

  /** A key made from network-order bytes denotes those bytes' bits. */
  lemma {:induction false} KeyBitsOfSwapped(be: seq<byte>, bits: nat)
    requires IsKey(be, bits)
    ensures KeyBits(SwapEndian(be, bits), bits) == BeBits(be)
  {
    SwapEndianInvolution(be, bits);
  }

  lemma {:induction false} XorThree(c: nat)
    requires c < 4
    ensures Xor(c, 3) == 3 - c
  {
    var c1 := c / 2;
    XorStep(c, 3);
    XorStep(c1, 1);
    XorZero(c1 / 2);
  }

  lemma {:induction false} XorSeven(c: nat)
    requires c < 16
    ensures Xor(c, 7) == if c < 8 then 7 - c else 23 - c
  {
    var c1 := c / 2;
    var c2 := c1 / 2;
    XorStep(c, 7);
    XorStep(c1, 3);
    XorStep(c2, 1);
    XorZero(c2 / 2);
  }

  lemma {:induction false} BitAtAValue(cidr: nat, bits: nat)
    requires Width(bits) && cidr < bits
    ensures bits == 32 ==> BitAtA(cidr, bits) == 3 - cidr / 8
    ensures bits == 128 ==> BitAtA(cidr, bits) == if cidr / 8 < 8 then 7 - cidr / 8 else 23 - cidr / 8
  {
    hide Xor;
    var c := cidr / 8;
    if bits == 32 {
      XorThree(c);
    } else {
      XorSeven(c);
    }
  }

  /** Despite the byte swap, choose() reads address bit number cidr. */
  lemma {:induction false} ChooseReadsBit(cidr: nat, key: seq<byte>, bits: nat)
    requires IsKey(key, bits) && cidr < bits
    ensures BitAtA(cidr, bits) < |key|
    ensures Choose(BitAtA(cidr, bits), BitAtB(cidr), key) == if KeyBits(key, bits)[cidr] then 1 else 0
  {
    BitAtAValue(cidr, bits);
    var a := BitAtA(cidr, bits);
    SwappedByte(key, bits, cidr / 8);
    ShiftIsBit(key[a], BitAtB(cidr));
  }

  /** n is the length of the longest common prefix of s and t. */
  ghost predicate IsCommonPrefix(s: seq<bool>, t: seq<bool>, n: int) {
    && 0 <= n <= |s| && n <= |t|
    && s[..n] == t[..n]
    && (n < |s| && n < |t| ==> s[n] != t[n])
  }

  /** Bit i of the address lies at bit 31 - i of the v4 word, or at bit
      63 - i % 64 of the v6 word i / 64. */
  lemma {:induction false} KeyBitInWord(key: seq<byte>, bits: nat, i: nat)
    requires IsKey(key, bits) && i < bits
    ensures bits == 32 ==> KeyBits(key, bits)[i] == Bit(LoadLe(key), 31 - i)
    ensures bits == 128 && i < 64 ==> KeyBits(key, bits)[i] == Bit(LoadLe(key[..8]), 63 - i)
    ensures bits == 128 && 64 <= i ==> KeyBits(key, bits)[i] == Bit(LoadLe(key[8..]), 127 - i)
  {
    SwappedByte(key, bits, i / 8);
    if bits == 32 {
      BitOfLoadLe(key, 31 - i);
      assert (31 - i) / 8 == 3 - i / 8 && (31 - i) % 8 == 7 - i % 8;
    } else if i < 64 {
      BitOfLoadLe(key[..8], 63 - i);
      assert (63 - i) / 8 == 7 - i / 8 && (63 - i) % 8 == 7 - i % 8;
    } else {
      BitOfLoadLe(key[8..], 127 - i);
      assert (127 - i) / 8 == 15 - i / 8 && (127 - i) % 8 == 7 - i % 8;
    }
  }

  /** common_bits() is the length of the longest common prefix of the two addresses. */
  lemma {:induction false} CommonBitsIsCommonPrefix(a: seq<byte>, b: seq<byte>, bits: nat)
    requires IsKey(a, bits) && IsKey(b, bits)
    ensures IsCommonPrefix(KeyBits(a, bits), KeyBits(b, bits), CommonBits(a, b, bits))
  {
    if bits == 32 {
      CommonBits32(a, b);
    } else {
      CommonBits128(a, b);
    }
  }

  lemma {:induction false} XorFlsBound(a: seq<byte>, b: seq<byte>)
    requires |a| == |b|
    ensures Fls(Xor(LoadLe(a), LoadLe(b))) <= 8 * |a|
  {
    LoadLeBound(a);
    LoadLeBound(b);
    XorBound(LoadLe(a), LoadLe(b), 8 * |a|);
    FlsBound(Xor(LoadLe(a), LoadLe(b)), 8 * |a|);
  }

  lemma {:induction false} CommonBits32(a: seq<byte>, b: seq<byte>)
    requires IsKey(a, 32) && IsKey(b, 32)
    ensures IsCommonPrefix(KeyBits(a, 32), KeyBits(b, 32), CommonBits(a, b, 32))
  {
    hide LoadLe, Xor, Fls, BitAtA;
    var n := CommonBits(a, b, 32);
    XorFlsBound(a, b);
    FlsOfXor(LoadLe(a), LoadLe(b));
    forall i | 0 <= i < n
      ensures KeyBits(a, 32)[i] == KeyBits(b, 32)[i]
    {
      KeyBitInWord(a, 32, i);
      KeyBitInWord(b, 32, i);
    }
    if n < 32 {
      KeyBitInWord(a, 32, n);
      KeyBitInWord(b, 32, n);
    }
  }

  lemma {:induction false} CommonBits128(a: seq<byte>, b: seq<byte>)
    requires IsKey(a, 128) && IsKey(b, 128)
    ensures IsCommonPrefix(KeyBits(a, 128), KeyBits(b, 128), CommonBits(a, b, 128))
  {
    hide LoadLe, Xor, Fls, BitAtA, Bit;
    var n := CommonBits(a, b, 128);
    XorFlsBound(a[..8], b[..8]);
    XorFlsBound(a[8..], b[8..]);
    FlsOfXor(LoadLe(a[..8]), LoadLe(b[..8]));
    FlsOfXor(LoadLe(a[8..]), LoadLe(b[8..]));
    FlsPositive(Xor(LoadLe(a[..8]), LoadLe(b[..8])));
    forall i | 0 <= i < n
      ensures KeyBits(a, 128)[i] == KeyBits(b, 128)[i]
    {
      KeyBitInWord(a, 128, i);
      KeyBitInWord(b, 128, i);
    }
    if n < 128 {
      KeyBitInWord(a, 128, n);
      KeyBitInWord(b, 128, n);
    }
  }

  /** b & (~0U << k), k < 8 */
  function ClearLow(b: byte, k: nat): byte
    requires k < 8
  {
    MaskShrinks(b, k);
    b - b % Pow2(k)
  }

  lemma {:induction false} MaskShrinks(b: byte, k: nat)
    ensures 0 <= b - b % Pow2(k) <= b
  {
    hide Pow2;
    ModParts(b, Pow2(k));
  }

  lemma {:induction false} HighPartBits(r: nat, q: nat, k: nat, i: nat)
    requires r < Pow2(k)
    ensures Bit(Pow2(k) * q, i) <==> i >= k && Bit(r + Pow2(k) * q, i)
  {
    BitLowHigh(r, q, k, i);
    BitLowHigh(0, q, k, i);
    ZeroBits(i);
  }

  lemma {:induction false} ClearLowBits(b: byte, k: nat, i: nat)
    requires k < 8
    ensures Bit(ClearLow(b, k), i) <==> i >= k && Bit(b, i)
  {
    hide Pow2, Bit;
    ModParts(b, Pow2(k));
    HighPartBits(b % Pow2(k), b / Pow2(k), k, i);
  }

  lemma {:induction false} ZeroBits(i: nat)
    ensures !Bit(0, i)
  {
    if i > 0 {
      ZeroBits(i - 1);
    }
  }

  /** wg_allowedips_read_node: the address in network byte order, cleared behind the prefix */
  method ReadNode(bits: seq<byte>, bitlen: nat, cidr: nat) returns (ip: seq<byte>)
    requires IsKey(bits, bitlen) && cidr <= bitlen
    ensures |ip| == bitlen / 8
    ensures forall i :: 0 <= i < bitlen ==> (BeBits(ip)[i] <==> i < cidr && KeyBits(bits, bitlen)[i])
    ensures BeBits(ip)[..cidr] == KeyBits(bits, bitlen)[..cidr]
  {
    hide Bit, ClearLow;
    var cidrBytes := (cidr + 7) / 8;
    ip := SwapEndian(bits, bitlen);
    ghost var full := ip;
    ip := ip[..cidrBytes] + seq(bitlen / 8 - cidrBytes, _ => 0);
    if cidr != 0 {
      ip := ip[cidrBytes - 1 := ClearLow(ip[cidrBytes - 1], (8 - cidr % 8) % 8)];
    }
    forall i | 0 <= i < bitlen
      ensures BeBits(ip)[i] <==> i < cidr && BeBits(full)[i]
    {
      ZeroBits(7 - i % 8);
      if i / 8 == cidrBytes - 1 {
        ClearLowBits(full[i / 8], (8 - cidr % 8) % 8, 7 - i % 8);
      }
    }
  }
}
