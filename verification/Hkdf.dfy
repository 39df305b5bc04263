/** The key derivation of qinit.c (section 5.2 of RFC 9001) on top of sha256.c. */
module Hkdf {
  import opened Wrappers
  import opened Words
  import opened Hmac
  import opened Gcm
  import Sha256

  /** quic_v1_initial_salt */
  const SALT: seq<byte> :=
    [0x38, 0x76, 0x2c, 0xf7, 0xf5, 0x59, 0x34, 0xb3, 0x4d, 0x17,
     0x9a, 0xe6, 0xa4, 0xc8, 0x0c, 0xad, 0xcc, 0xbb, 0x7f, 0x0a]

  function Sha(f: Sha256.Compression): HashFunction {
    m => Sha256.Digest(f, m)
  }

  datatype Keys = Keys(key: Block, iv: Nonce, hp: Block)

  /** The keys of the client's Initial packets to dcid */
  function InitialKeys(f: Sha256.Compression, dcid: seq<byte>): Keys {
    var h := Sha(f);
    var client := ExpandLabel(h, Extract(h, SALT, dcid), Ascii("client in"), 32);
    Keys(ExpandLabel(h, client, Ascii("quic key"), 16), ExpandLabel(h, client, Ascii("quic iv"), 12),
         ExpandLabel(h, client, Ascii("quic hp"), 16))
  }

  /** The keys, with the labels in the octets that appendix A.1 of RFC 9001 lists */
  lemma {:induction false} KeysAre(f: Sha256.Compression, dcid: seq<byte>)
    ensures var h, k := Sha(f), InitialKeys(f, dcid);
      var client := Expand(h, Mac(h, SALT, dcid), [0x00, 0x20, 0x0f] + TLS13 + CLIENT_IN + [0x00], 32);
      && k.key == Expand(h, client, [0x00, 0x10, 0x0e] + TLS13 + QUIC_KEY + [0x00], 16)
      && k.iv == Expand(h, client, [0x00, 0x0c, 0x0d] + TLS13 + QUIC_IV + [0x00], 12)
      && k.hp == Expand(h, client, [0x00, 0x10, 0x0d] + TLS13 + QUIC_HP + [0x00], 16)
  {
    LabelOctets("client in", CLIENT_IN, 32);
    LabelOctets("quic key", QUIC_KEY, 16);
    LabelOctets("quic iv", QUIC_IV, 12);
    LabelOctets("quic hp", QUIC_HP, 16);
    hide Expand, Mac, LabelInfo, Ascii;
  }

  const TLS13: seq<byte> := [0x74, 0x6c, 0x73, 0x31, 0x33, 0x20]
  const CLIENT_IN: seq<byte> := [0x63, 0x6c, 0x69, 0x65, 0x6e, 0x74, 0x20, 0x69, 0x6e]
  const QUIC_KEY: seq<byte> := [0x71, 0x75, 0x69, 0x63, 0x20, 0x6b, 0x65, 0x79]
  const QUIC_IV: seq<byte> := [0x71, 0x75, 0x69, 0x63, 0x20, 0x69, 0x76]
  const QUIC_HP: seq<byte> := [0x71, 0x75, 0x69, 0x63, 0x20, 0x68, 0x70]

  /** What is hashed for a label: the length wanted, that of the label, the label behind its prefix, and no context */
  lemma {:induction false} LabelOctets(tag: string, octets: seq<byte>, length: byte)
    requires |tag| == |octets| <= 32 && forall i :: 0 <= i < |tag| ==> tag[i] as int == octets[i]
    ensures LabelInfo(Ascii(tag), length) == [0x00, length, 6 + |tag|] + TLS13 + octets + [0x00]
  {
    assert Ascii("tls13 ") == TLS13;
    assert Ascii(tag) == octets;
    assert Be16(length) == [0x00, length];
  }

  // ---- the code ----

  /** The loop over one of the pads */
  method Pad(k: array<byte>, pad: byte) returns (m: seq<byte>)
    requires k.Length == 64
    ensures m == Under(k[..], pad)
  {
    hide XorByte;
    var a := new byte[64];
    for i := 0 to 64
      invariant forall j :: 0 <= j < i ==> a[j] == XorByte(k[j], pad)
    {
      a[i] := XorByte(k[i], pad);
    }
    m := a[..];
  }

  /** init, two updates and final */
  method Twice(f: Sha256.Compression, a: seq<byte>, b: seq<byte>) returns (out: seq<byte>)
    requires |a| < 0x1_0000_0000 && |b| < 0x1_0000_0000
    ensures out == Sha(f)(a + b)
  {
    hide Sha256.Context.Valid, Sha256.Digest;
    var c := new Sha256.Context(f);
    c.Update(a);
    c.Update(b);
    assert [] + a + b == a + b;
    out := c.Final();
  }

  /** qinit_hmac_sha256 */
  method Authenticate(f: Sha256.Compression, key: seq<byte>, msg: seq<byte>) returns (out: seq<byte>)
    requires |key| < 0x1_0000_0000 && |msg| < 0x1_0000_0000
    ensures out == Mac(Sha(f), key, msg)
  {
    hide Sha256.Digest, Under;
    var k := new byte[64](_ => 0);
    if |key| > 64 {
      var hashed := Sha256.Hashed(f, key);
      assert hashed == Sha(f)(key);
      Put(k, 0, hashed);
    } else {
      Put(k, 0, key);
    }
    assert k[..] == KeyBlock(Sha(f), key);
    var ipad := Pad(k, 0x36);
    var opad := Pad(k, 0x5c);
    var inner := Twice(f, ipad, msg);
    out := Twice(f, opad, inner);
  }

  /** qinit_hkdf_expand_label; a label of more than 32 characters is cut */
  method LabelExpanded(f: Sha256.Compression, secret: seq<byte>, tag: seq<byte>, length: nat) returns (out: seq<byte>)
    requires |secret| == 32 && length <= 32
    ensures out == ExpandLabel(Sha(f), secret, tag[..Min(|tag|, 32)], length)
  {
    hide Mac, Ascii;
    var full := Prefixed(tag);
    var info := [length / 256 % 256, length % 256, |full|] + full + [0];
    ghost var name := tag[..Min(|tag|, 32)];
    assert info == LabelInfo(name, length);
    hide LabelInfo;
    var t := Authenticate(f, secret, info + [1]);
    OneBlock(Sha(f), secret, info, length);
    out := t[..length];
  }

  /** The label behind its prefix, as much of it as the buffer takes */
  method Prefixed(tag: seq<byte>) returns (m: seq<byte>)
    ensures m == Ascii("tls13 ") + tag[..Min(|tag|, 32)]
  {
    hide Ascii;
    var full := new byte[6 + 32];
    Put(full, 0, Ascii("tls13 "));
    var fl, i := 6, 0;
    while i < |tag| && fl < 38
      invariant i <= |tag| && fl == 6 + i <= 38 && full[..fl] == Ascii("tls13 ") + tag[..i]
    {
      full[fl] := tag[i];
      fl, i := fl + 1, i + 1;
      assert full[..fl] == full[..fl - 1] + [tag[i - 1]];
    }
    m := full[..fl];
  }

  /** qinit_derive_initial_keys */
  method DeriveInitialKeys(f: Sha256.Compression, dcid: seq<byte>) returns (k: Keys)
    requires |dcid| < 0x1_0000_0000
    ensures k == InitialKeys(f, dcid)
  {
    hide ExpandLabel, Ascii, Mac;
    var salt := [0x38, 0x76, 0x2c, 0xf7, 0xf5, 0x59, 0x34, 0xb3, 0x4d, 0x17,
                 0x9a, 0xe6, 0xa4, 0xc8, 0x0c, 0xad, 0xcc, 0xbb, 0x7f, 0x0a];
    var initial := Authenticate(f, salt, dcid);
    var client := Expanded(f, initial, "client in", 32);
    var key := Expanded(f, client, "quic key", 16);
    var iv := Expanded(f, client, "quic iv", 12);
    var hp := Expanded(f, client, "quic hp", 16);
    k := Keys(key, iv, hp);
  }

  method Expanded(f: Sha256.Compression, secret: seq<byte>, tag: string, length: nat) returns (out: seq<byte>)
    requires |secret| == 32 && length <= 32 && |tag| <= 32
    ensures out == ExpandLabel(Sha(f), secret, Ascii(tag), length)
  {
    hide ExpandLabel, Ascii;
    out := LabelExpanded(f, secret, Ascii(tag), length);
    assert Ascii(tag)[..|tag|] == Ascii(tag);
  }
}
