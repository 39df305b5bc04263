/** HMAC (RFC 2104) and HKDF (RFC 5869) over any hash function with blocks of
    64 bytes and values of 32, and HKDF-Expand-Label (section 7.1 of RFC 8446). */
module Hmac {
  import opened Words

  type Bytes32 = s: seq<byte> | |s| == 32 witness seq(32, _ => 0)
  type Bytes64 = s: seq<byte> | |s| == 64 witness seq(64, _ => 0)
  type HashFunction = seq<byte> -> Bytes32

  function KeyBlock(h: HashFunction, key: seq<byte>): Bytes64 {
    if |key| > 64 then h(key) + Zeros(32) else key + Zeros(64 - |key|)
  }

  function Under(k: Bytes64, pad: byte): Bytes64 {
    seq(64, i requires 0 <= i < 64 => XorByte(k[i], pad))
  }

  function Mac(h: HashFunction, key: seq<byte>, m: seq<byte>): Bytes32 {
    var k := KeyBlock(h, key);
    h(Under(k, 0x5c) + h(Under(k, 0x36) + m))
  }

  // ---- HKDF ----

  function Extract(h: HashFunction, salt: seq<byte>, ikm: seq<byte>): Bytes32 {
    Mac(h, salt, ikm)
  }

  /** The blocks T(1) to T(n), one after the other */
  function Blocks(h: HashFunction, prk: seq<byte>, info: seq<byte>, n: nat): (m: seq<byte>)
    ensures |m| == 32 * n
  {
    if n == 0 then []
    else
      var before := Blocks(h, prk, info, n - 1);
      before + Mac(h, prk, (if n == 1 then [] else before[32 * (n - 2)..]) + info + [n % 256])
  }

  function Expand(h: HashFunction, prk: seq<byte>, info: seq<byte>, length: nat): (m: seq<byte>)
    ensures |m| == length
  {
    Blocks(h, prk, info, (length + 31) / 32)[..length]
  }

  /** As much as one block gives needs one block. */
  lemma {:induction false} OneBlock(h: HashFunction, prk: seq<byte>, info: seq<byte>, length: nat)
    requires length <= 32
    ensures Expand(h, prk, info, length) == Mac(h, prk, info + [1])[..length]
  {
    if length > 0 {
      assert Blocks(h, prk, info, 0) == [];
      assert [] + info + [1] == info + [1];
      assert Blocks(h, prk, info, 1) == [] + Mac(h, prk, info + [1]);
    }
  }

  function Ascii(s: string): (m: seq<byte>)
    ensures |m| == |s|
  {
    seq(|s|, i requires 0 <= i < |s| => s[i] as int % 256)
  }

  /** struct HkdfLabel with an empty context */
  function LabelInfo(tag: seq<byte>, length: nat): seq<byte> {
    Be16(length) + [(6 + |tag|) % 256] + Ascii("tls13 ") + tag + [0]
  }

  function ExpandLabel(h: HashFunction, secret: seq<byte>, tag: seq<byte>, length: nat): (m: seq<byte>)
    ensures |m| == length
  {
    Expand(h, secret, LabelInfo(tag, length), length)
  }
}
