/** qinit.c: a QUIC Initial datagram of 1200 bytes with a ClientHello in it, and
    an observer who takes it apart as RFC 9000 and RFC 9001 say, knowing
    nothing but the datagram. */
module Qinit {
  import opened Wrappers
  import opened Words
  import opened ClientHello
  import opened Gcm
  import opened Hkdf
  import Sha256

  /** What AES-GCM and SHA-256 are built on */
  datatype Suite = Suite(ciphers: Ciphers, compression: Sha256.Compression) {
    function Derive(dcid: seq<byte>): Keys {
      InitialKeys(compression, dcid)
    }
  }

  // ---- what an observer reads ----

  /** The bits that header protection covers (section 5.4.1 of RFC 9001) with
      the mask over them; the packet number is n bytes at at. */
  function Masked(d: seq<byte>, mask: Block, at: nat, n: nat): (m: seq<byte>)
    requires 1 <= at && n <= 4 && at + n <= |d|
    ensures |m| == |d|
  {
    [XorByte(d[0], mask[0] % 16)] + d[1..at] + XorBytes(d[at..at + n], mask[1..]) + d[at + n..]
  }

  /** The packet number with zeroes in front of it, up to 12 bytes */
  function LeftPadded(pn: seq<byte>): Nonce
    requires |pn| <= 12
  {
    Zeros(12 - |pn|) + pn
  }

  /** The nonce as the observer forms it (section 5.3 of RFC 9001) */
  function PacketNonce(iv: Nonce, pn: seq<byte>): Nonce
    requires |pn| <= 12
  {
    seq(12, i requires 0 <= i < 12 => XorByte(iv[i], LeftPadded(pn)[i]))
  }

  /** The destination id, the Length field and what follows it in an Initial
      packet (section 17.2.2 of RFC 9000) */
  function ReadHeader(d: seq<byte>): Option<(seq<byte>, nat, seq<byte>)> {
    if |d| < 5 || d[0] / 16 != 0xc || d[1..5] != Be32(1) then None
    else
      match ReadU8Vec(d[5..])
      case None => None
      case Some((dcid, afterDcid)) =>
        match ReadU8Vec(afterDcid)
        case None => None
        case Some((_, afterScid)) =>
          match ReadVarint(afterScid)
          case None => None
          case Some((tokenLen, token)) =>
            if tokenLen > |token| then None
            else
              match ReadVarint(token[tokenLen..])
              case None => None
              case Some((length, rest)) => Some((dcid, length, rest))
  }

  /** The data of a CRYPTO frame at offset 0 that only padding follows
      (sections 19.1 and 19.6 of RFC 9000) */
  function ReadCrypto(m: seq<byte>): Option<seq<byte>> {
    match ReadVarint(m)
    case None => None
    case Some((kind, afterKind)) =>
      match ReadVarint(afterKind)
      case None => None
      case Some((offset, afterOffset)) =>
        match ReadVarint(afterOffset)
        case None => None
        case Some((length, rest)) =>
          if kind != 6 || offset != 0 || length > |rest| || rest[length..] != Zeros(|rest| - length) then None
          else Some(rest[..length])
  }

  /** The payload of an Initial packet whose packet number field begins at at */
  function Unprotect(c: Ciphers, keys: Keys, d: seq<byte>, at: nat, length: nat): Option<seq<byte>>
    requires 1 <= at
  {
    if at + 20 > |d| || at + length > |d| then None
    else
      var mask := c.aes(keys.hp, d[at + 4..at + 20]);
      var n := XorByte(d[0], mask[0] % 16) % 4 + 1;
      if length < n then None
      else
        var u := Masked(d, mask, at, n);
        Open(c, keys.key, PacketNonce(keys.iv, u[at..at + n]), u[..at + n], u[at + n..at + length])
  }

  function Observe(s: Suite, d: seq<byte>): Option<seq<byte>> {
    match ReadHeader(d)
    case None => None
    case Some((dcid, length, rest)) =>
      if |rest| >= |d| then None
      else
        match Unprotect(s.ciphers, s.Derive(dcid), d, |d| - |rest|, length)
        case None => None
        case Some(payload) => match ReadCrypto(payload) case None => None case Some(hello) => ServerName(hello)
  }

  // ---- what the code writes ----

  /** The iv with the packet number over its last bytes */
  function NonceFor(iv: Nonce, pn: seq<byte>): Nonce
    requires |pn| <= 12
  {
    iv[..12 - |pn|] + XorBytes(iv[12 - |pn|..], pn)
  }

  /** Every byte of the nonce is that of the iv with that of the padded packet number over it. */
  lemma {:induction false} NonceBytes(iv: Nonce, pn: seq<byte>)
    requires |pn| <= 12
    ensures forall i :: 0 <= i < 12 ==>
      NonceFor(iv, pn)[i] == XorByte(iv[i], if i < 12 - |pn| then 0 else pn[i - (12 - |pn|)])
    ensures NonceFor(iv, pn) == PacketNonce(iv, pn)
  {
    hide Xor, XorByte;
    forall i | 0 <= i < 12
      ensures NonceFor(iv, pn)[i] == XorByte(iv[i], if i < 12 - |pn| then 0 else pn[i - (12 - |pn|)])
      ensures NonceFor(iv, pn)[i] == PacketNonce(iv, pn)[i]
    {
      XorByteZero(iv[i]);
    }
  }

  lemma {:induction false} XorByteZero(x: byte)
    ensures XorByte(x, 0) == x
  {
    hide Xor;
    XorZero(x);
  }

  /** Packets with numbers of one length have different nonces. */
  lemma {:induction false} NoncesDiffer(iv: Nonce, a: seq<byte>, b: seq<byte>)
    requires |a| == |b| <= 12 && NonceFor(iv, a) == NonceFor(iv, b)
    ensures a == b
  {
    hide Xor, XorByte;
    NonceBytes(iv, a);
    NonceBytes(iv, b);
    forall i | 0 <= i < |a|
      ensures a[i] == b[i]
    {
      var k := 12 - |a| + i;
      assert NonceFor(iv, a)[k] == XorByte(iv[k], a[i]) && NonceFor(iv, b)[k] == XorByte(iv[k], b[i]);
      XorByteBack(iv[k], a[i]);
      XorByteBack(iv[k], b[i]);
    }
  }

  lemma {:induction false} XorByteBack(x: byte, y: byte)
    ensures XorByte(XorByte(x, y), x) == y
  {
    hide Xor;
    XorCommutes(x, y);
    XorCancels(y, x);
  }

  /** What header protection leaves alone */
  function Fixed(dcid: seq<byte>, scid: seq<byte>): seq<byte> {
    Be32(1) + U8Vec(dcid) + U8Vec(scid) + Varint(0) + Varint(1174)
  }

  function Header(dcid: seq<byte>, scid: seq<byte>, pn: seq<byte>): seq<byte> {
    [0xc3] + Fixed(dcid, scid) + pn
  }

  function Frame(hello: seq<byte>): seq<byte> {
    Varint(6) + Varint(0) + Varint(|hello|) + hello
  }

  function Padded(frame: seq<byte>): seq<byte>
    requires |frame| <= 1154
  {
    frame + Zeros(1154 - |frame|)
  }

  lemma PaddedSize(frame: seq<byte>)
    requires |frame| <= 1154
    ensures |Padded(frame)| == 1154
  {
  }

  function Sealed(c: Ciphers, keys: Keys, dcid: seq<byte>, scid: seq<byte>, pn: seq<byte>, payload: seq<byte>): seq<byte>
    requires |pn| == 4
  {
    var header := Header(dcid, scid, pn);
    header + Seal(c, keys.key, NonceFor(keys.iv, pn), header, payload)
  }

  function Protected(c: Ciphers, keys: Keys, d: seq<byte>): (m: seq<byte>)
    requires |d| == 1200
    ensures |m| == 1200
  {
    Masked(d, c.aes(keys.hp, d[30..46]), 26, 4)
  }

  lemma {:induction false} FixedSize(dcid: seq<byte>, scid: seq<byte>)
    requires |dcid| == 8 && |scid| == 8
    ensures |Fixed(dcid, scid)| == 25
  {
    hide U8Vec, Varint;
  }

  lemma {:induction false} HeaderReads(first: byte, dcid: seq<byte>, scid: seq<byte>, rest: seq<byte>)
    requires |dcid| == 8 && |scid| == 8 && first / 16 == 0xc
    ensures ReadHeader([first] + Fixed(dcid, scid) + rest) == Some((dcid, 1174, rest))
  {
    hide U8Vec, Varint, VarintSize, ReadU8Vec, ReadVarint, Be32;
    var token := Varint(1174) + rest;
    var afterScid := Varint(0) + token;
    var afterDcid := U8Vec(scid) + afterScid;
    var d := [first] + Fixed(dcid, scid) + rest;
    assert d[1..5] == Be32(1);
    assert d[5..] == U8Vec(dcid) + afterDcid;
    U8VecReads(dcid, afterDcid);
    U8VecReads(scid, afterScid);
    VarintReads(0, token);
    VarintReads(1174, rest);
    assert token[0..] == token;
  }

  lemma {:induction false} FrameParts(hello: seq<byte>)
    requires |Frame(hello)| <= 1154
    ensures var rest := hello + Zeros(1154 - |Frame(hello)|);
      && Padded(Frame(hello)) == Varint(6) + (Varint(0) + (Varint(|hello|) + rest))
      && rest[..|hello|] == hello && rest[|hello|..] == Zeros(|rest| - |hello|) && |hello| <= 1154
  {
    hide Varint, Zeros;
  }

  lemma {:induction false} FrameReads(hello: seq<byte>)
    requires |Frame(hello)| <= 1154
    ensures ReadCrypto(Padded(Frame(hello))) == Some(hello)
  {
    hide Varint, ReadVarint, Frame, Padded, Zeros;
    FrameParts(hello);
    var rest := hello + Zeros(1154 - |Frame(hello)|);
    VarintReads(6, Varint(0) + (Varint(|hello|) + rest));
    VarintReads(0, Varint(|hello|) + rest);
    VarintReads(|hello|, rest);
  }

  lemma {:induction false} XorBytesTwice(a: seq<byte>, b: seq<byte>)
    requires |a| <= |b|
    ensures XorBytes(XorBytes(a, b), b) == a
  {
    hide Xor;
    var once := XorBytes(a, b);
    forall i | 0 <= i < |a|
      ensures XorByte(once[i], b[i]) == a[i]
    {
      XorCancels(a[i], b[i]);
    }
  }

  lemma {:induction false} MaskedParts(d: seq<byte>, mask: Block, at: nat, n: nat)
    requires 1 <= at && n <= 4 && at + n <= |d|
    ensures var m := Masked(d, mask, at, n);
      && m[0] == XorByte(d[0], mask[0] % 16) && m[1..at] == d[1..at] && m[at + n..] == d[at + n..]
      && m[at..at + n] == XorBytes(d[at..at + n], mask[1..])
  {
    hide XorByte, XorBytes;
  }

  lemma {:induction false} MaskedTwice(d: seq<byte>, mask: Block, at: nat, n: nat)
    requires 1 <= at && n <= 4 && at + n <= |d|
    ensures Masked(Masked(d, mask, at, n), mask, at, n) == d
  {
    MaskedParts(d, mask, at, n);
    assert XorByte(XorByte(d[0], mask[0] % 16), mask[0] % 16) == d[0] by {
      hide Xor;
      XorCancels(d[0], mask[0] % 16);
    }
    hide XorByte, XorBytes;
    XorBytesTwice(d[at..at + n], mask[1..]);
    assert [d[0]] + d[1..at] + d[at..at + n] + d[at + n..] == d;
  }

  /** Header protection leaves the upper half of the first byte alone. */
  lemma {:induction false} HighHalf(x: nat, y: nat)
    requires y < 16
    ensures Xor(x, y) / 16 == x / 16
  {
    hide Xor;
    var x1, y1 := x / 2, y / 2;
    var x2, y2 := x1 / 2, y1 / 2;
    var x3, y3 := x2 / 2, y2 / 2;
    XorParts(x, y);
    XorParts(x1, y1);
    XorParts(x2, y2);
    XorParts(x3, y3);
    XorZero(x3 / 2);
    Sixteenth(x);
    Sixteenth(Xor(x, y));
  }

  lemma Sixteenth(x: nat)
    ensures x / 2 / 2 / 2 / 2 == x / 16
  {
  }

  lemma {:induction false} SealedParts(c: Ciphers, keys: Keys, dcid: seq<byte>, scid: seq<byte>, pn: seq<byte>, payload: seq<byte>)
    requires |dcid| == 8 && |scid| == 8 && |pn| == 4 && |payload| == 1154
    ensures var d := Sealed(c, keys, dcid, scid, pn, payload);
      && |d| == 1200 && d[0] == 0xc3 && d[1..26] == Fixed(dcid, scid) && d[26..30] == pn
      && d[30..1200] == Seal(c, keys.key, NonceFor(keys.iv, pn), d[..30], payload)
  {
    hide Seal, Fixed, NonceFor;
    FixedSize(dcid, scid);
    assert Sealed(c, keys, dcid, scid, pn, payload)[..30] == Header(dcid, scid, pn);
  }

  /** Removing the protection and opening the packet gives the payload back. */
  lemma {:induction false} UnprotectReads(c: Ciphers, keys: Keys, dcid: seq<byte>, scid: seq<byte>, pn: seq<byte>, payload: seq<byte>)
    requires |dcid| == 8 && |scid| == 8 && |pn| == 4 && |payload| == 1154
    requires |Sealed(c, keys, dcid, scid, pn, payload)| == 1200
    ensures Unprotect(c, keys, Protected(c, keys, Sealed(c, keys, dcid, scid, pn, payload)), 26, 1174) == Some(payload)
  {
    var u := Sealed(c, keys, dcid, scid, pn, payload);
    var mask := c.aes(keys.hp, u[30..46]);
    var d := Masked(u, mask, 26, 4);
    SealedParts(c, keys, dcid, scid, pn, payload);
    MaskedParts(u, mask, 26, 4);
    MaskedTwice(u, mask, 26, 4);
    assert d[30..46] == d[30..][..16] && u[30..46] == u[30..][..16];
    assert XorByte(d[0], mask[0] % 16) == 0xc3 by {
      hide Xor;
      XorCancels(0xc3, mask[0] % 16);
    }
    OpenSeal(c, keys.key, NonceFor(keys.iv, pn), u[..30], payload);
    NonceBytes(keys.iv, pn);
    hide Masked, Sealed, Seal, Open, NonceFor, PacketNonce, XorByte;
    assert Unprotect(c, keys, d, 26, 1174) == Open(c, keys.key, PacketNonce(keys.iv, u[26..30]), u[..30], u[30..1200]);
  }

  /** The datagram that goes out for a name and the random bytes drawn */
  function Datagram(s: Suite, name: seq<byte>, dcid: seq<byte>, scid: seq<byte>, pn: seq<byte>, pub: seq<byte>,
                    random: seq<byte>): (d: seq<byte>)
    requires 1 <= |name| <= 255 && |dcid| == 8 && |scid| == 8 && |pn| == 4 && |pub| == 32 && |random| == 32
    ensures |d| == 1200
  {
    HelloSize(name, pub, random, scid);
    FrameSize(Hello(name, pub, random, scid));
    var payload := Padded(Frame(Hello(name, pub, random, scid)));
    var keys := s.Derive(dcid);
    SealedParts(s.ciphers, keys, dcid, scid, pn, payload);
    Protected(s.ciphers, keys, Sealed(s.ciphers, keys, dcid, scid, pn, payload))
  }

  /** Whoever derives the keys from the connection id in the datagram reads the
      name out of it. */
  lemma {:induction false} ObserverReads(s: Suite, name: seq<byte>, dcid: seq<byte>, scid: seq<byte>, pn: seq<byte>,
                                         pub: seq<byte>, random: seq<byte>)
    requires 1 <= |name| <= 255 && |dcid| == 8 && |scid| == 8 && |pn| == 4 && |pub| == 32 && |random| == 32
    ensures Observe(s, Datagram(s, name, dcid, scid, pn, pub, random)) == Some(name)
  {
    hide Masked, Seal, Hello, Frame, Padded, ReadHeader, ReadCrypto, Unprotect, ServerName, Fixed, XorByte, NonceFor;
    hide Suite.Derive;
    var hello := Hello(name, pub, random, scid);
    HelloSize(name, pub, random, scid);
    FrameSize(hello);
    var payload := Padded(Frame(hello));
    assert |payload| == 1154 by { PaddedSize(Frame(hello)); }
    var keys := s.Derive(dcid);
    var u := Sealed(s.ciphers, keys, dcid, scid, pn, payload);
    SealedParts(s.ciphers, keys, dcid, scid, pn, payload);
    var mask := s.ciphers.aes(keys.hp, u[30..46]);
    var d := Masked(u, mask, 26, 4);
    MaskedParts(u, mask, 26, 4);
    FrameReads(hello);
    HelloReads(name, pub, random, scid);
    UnprotectReads(s.ciphers, keys, dcid, scid, pn, payload);
    FirstByte(mask[0] % 16);
    HeaderReads(d[0], dcid, scid, d[26..]);
    assert d == [d[0]] + d[1..26] + d[26..];
  }

  lemma {:induction false} FirstByte(x: byte)
    requires x < 16
    ensures XorByte(0xc3, x) / 16 == 0xc
  {
    hide Xor;
    HighHalf(0xc3, x);
  }

  lemma {:induction false} FrameSize(hello: seq<byte>)
    requires 63 < |hello| <= 1150
    ensures |Frame(hello)| == 4 + |hello|
  {
    hide Varint;
  }

  // ---- the code ----

  method WriteHeader(buf: array<byte>, dcid: seq<byte>, scid: seq<byte>, pn: seq<byte>, ghost was: seq<byte>)
    returns (pnOffset: nat)
    requires buf.Length == 1200 && |dcid| == 8 && |scid| == 8 && |pn| == 4 && At(buf, was, [], 0)
    modifies buf
    ensures pnOffset == 26 && At(buf, was, Header(dcid, scid, pn), 30)
  {
    hide At, Varint, U8Vec, Be32;
    ghost var done := [0xc3] + [0, 0, 0, 1];
    assert Be32(1) == [0, 0, 0, 1] by { One(); }
    var p := Append(buf, 0, [0xc3], was, []);
    assert [] + [0xc3] == [0xc3];
    p := Append(buf, p, [0, 0, 0, 1], was, [0xc3]);
    p := PutU8Vec(buf, p, dcid, was, done);
    done := done + U8Vec(dcid);
    p := PutU8Vec(buf, p, scid, was, done);
    done := done + U8Vec(scid);
    p := PutVarint(buf, p, 0, was, done);
    done := done + Varint(0);
    pnOffset := PutVarint(buf, p, 1174, was, done);
    done := done + Varint(1174);
    p := Append(buf, pnOffset, pn, was, done);
    assert done + pn == Header(dcid, scid, pn);
  }

  lemma One()
    ensures Be32(1) == [0, 0, 0, 1]
  {
  }

  /** The CRYPTO frame and the padding behind it */
  method WritePayload(buf: array<byte>, hello: seq<byte>, ghost was: seq<byte>, ghost header: seq<byte>)
    requires buf.Length == 1200 && 63 < |hello| <= 1150 && At(buf, was, header, 30)
    modifies buf
    ensures |Frame(hello)| <= 1154 && At(buf, was, header + Padded(Frame(hello)), 1184)
  {
    hide At, Varint;
    FrameSize(hello);
    ghost var done := header;
    var p := PutVarint(buf, 30, 6, was, done);
    done := done + Varint(6);
    p := PutVarint(buf, p, 0, was, done);
    done := done + Varint(0);
    p := PutVarint(buf, p, |hello|, was, done);
    done := done + Varint(|hello|);
    p := Append(buf, p, hello, was, done);
    done := done + hello;
    var cflen := p - 30;
    assert done == header + Frame(hello);
    p := Append(buf, p, Zeros(1154 - cflen), was, done);
    assert header + Frame(hello) + Zeros(1154 - cflen) == header + Padded(Frame(hello));
  }

  /** The mask over the header, in place */
  method Protect(buf: array<byte>, mask: Block, pnOffset: nat)
    requires buf.Length == 1200 && pnOffset == 26
    modifies buf
    ensures buf[..] == Masked(old(buf[..]), mask, 26, 4)
  {
    hide XorByte;
    ghost var was := buf[..];
    buf[0] := XorByte(buf[0], mask[0] % 16);
    buf[pnOffset] := XorByte(buf[pnOffset], mask[1]);
    buf[pnOffset + 1] := XorByte(buf[pnOffset + 1], mask[2]);
    buf[pnOffset + 2] := XorByte(buf[pnOffset + 2], mask[3]);
    buf[pnOffset + 3] := XorByte(buf[pnOffset + 3], mask[4]);
    assert buf[..] == [buf[0]] + buf[1..26] + buf[26..30] + buf[30..];
    assert buf[1..26] == was[1..26] && buf[30..] == was[30..];
    assert buf[26..30] == XorBytes(was[26..30], mask[1..]);
  }

  lemma KeysFor(s: Suite, dcid: seq<byte>)
    ensures s.Derive(dcid) == InitialKeys(s.compression, dcid)
  {
  }

  /** qinit_build */
  method Build(s: Suite, buf: array<byte>, str: seq<byte>, rand: Random) returns (r: int)
    requires 0 in str && buf.Length == 1200
    modifies buf, rand
    ensures 1 <= |Name(str)| <= 255 ==>
      && r == 0 && rand.drawn == old(rand.drawn) + 84 && Observe(s, buf[..]) == Some(Name(str))
      && buf[..] == Drawn(s, Name(str), rand.tape, old(rand.drawn))
    ensures !(1 <= |Name(str)| <= 255) ==> r == -22 && rand.drawn == old(rand.drawn) + 20 && unchanged(buf)
  {
    hide Hello, Datagram, Observe, Slice, Name, InitialKeys, Suite.Derive;
    var dcid := rand.Draw(8);
    var scid := rand.Draw(8);
    var pn := rand.Draw(4);
    var keys := DeriveInitialKeys(s.compression, dcid);
    KeysFor(s, dcid);
    var ch := new byte[512];
    ghost var start := rand.drawn;
    var chlen := BuildHello(ch, str, scid, rand);
    if chlen < 0 {
      return -22;
    }
    ghost var name, pub, random := Name(str), Slice(rand.tape, start, 32), Slice(rand.tape, start + 32, 32);
    ghost var hello := Hello(name, pub, random, scid);
    HelloSize(name, pub, random, scid);
    assert ch[..chlen] == ch[..][..chlen] == hello;
    Assemble(s, buf, keys, dcid, scid, pn, ch[..chlen], name, pub, random);
    ObserverReads(s, name, dcid, scid, pn, pub, random);
    r := 0;
  }

  /** The datagram for the bytes of a tape from at on, in the order drawn */
  ghost function Drawn(s: Suite, name: seq<byte>, tape: nat -> byte, at: nat): seq<byte>
    requires 1 <= |name| <= 255
  {
    Datagram(s, name, Slice(tape, at, 8), Slice(tape, at + 8, 8), Slice(tape, at + 16, 4), Slice(tape, at + 20, 32),
             Slice(tape, at + 52, 32))
  }

  /** The iv copied, and the packet number over bytes 8 to 11 of the copy */
  method CopiedNonce(iv: Nonce, pn: seq<byte>) returns (m: Nonce)
    requires |pn| == 4
    ensures m == NonceFor(iv, pn)
  {
    hide Xor, XorByte;
    var nonce := new byte[12];
    Put(nonce, 0, iv);
    nonce[8] := XorByte(nonce[8], pn[0]);
    nonce[9] := XorByte(nonce[9], pn[1]);
    nonce[10] := XorByte(nonce[10], pn[2]);
    nonce[11] := XorByte(nonce[11], pn[3]);
    m := nonce[..];
  }

  /** The header stays, and the payload behind it is sealed in place. */
  method SealPayload(c: Ciphers, buf: array<byte>, keys: Keys, ghost dcid: seq<byte>, ghost scid: seq<byte>,
    pn: seq<byte>, ghost payload: seq<byte>)
    requires buf.Length == 1200 && |pn| == 4 && |payload| == 1154
    requires buf[..30] == Header(dcid, scid, pn) && buf[30..1184] == payload
    modifies buf
    ensures buf[..] == Sealed(c, keys, dcid, scid, pn, payload)
  {
    hide Header, Seal, NonceFor;
    var nonce := CopiedNonce(keys.iv, pn);
    ghost var was := buf[..];
    assert was[..30] == buf[..30];
    SealInPlace(c, keys.key, nonce, buf, 30, 30, 1154);
    assert was[1200..] == [];
  }

  /** The header and the payload as they are before they are sealed */
  method WriteText(buf: array<byte>, dcid: seq<byte>, scid: seq<byte>, pn: seq<byte>, hello: seq<byte>)
    returns (pnOffset: nat)
    requires buf.Length == 1200 && |dcid| == 8 && |scid| == 8 && |pn| == 4 && 63 < |hello| <= 1150
    modifies buf
    ensures pnOffset == 26 && |Frame(hello)| <= 1154
    ensures buf[..30] == Header(dcid, scid, pn) && buf[30..1184] == Padded(Frame(hello))
  {
    FixedSize(dcid, scid);
    FrameSize(hello);
    PaddedSize(Frame(hello));
    hide At, Frame, Padded, Fixed;
    ghost var header, payload := Header(dcid, scid, pn), Padded(Frame(hello));
    ghost var was := buf[..];
    Start(buf);
    pnOffset := WriteHeader(buf, dcid, scid, pn, was);
    WritePayload(buf, hello, was, header);
    AtSlice(buf, was, header + payload, 1184);
    assert buf[..30] == buf[..1184][..30] == header;
    assert buf[30..1184] == buf[..1184][30..] == payload;
  }

  method Assemble(s: Suite, buf: array<byte>, keys: Keys, dcid: seq<byte>, scid: seq<byte>, pn: seq<byte>,
    hello: seq<byte>, ghost name: seq<byte>, ghost pub: seq<byte>, ghost random: seq<byte>)
    requires buf.Length == 1200 && keys == s.Derive(dcid)
    requires 1 <= |name| <= 255 && |dcid| == 8 && |scid| == 8 && |pn| == 4 && |pub| == 32 && |random| == 32
    requires hello == Hello(name, pub, random, scid)
    modifies buf
    ensures buf[..] == Datagram(s, name, dcid, scid, pn, pub, random)
  {
    HelloSize(name, pub, random, scid);
    FrameSize(hello);
    PaddedSize(Frame(hello));
    hide Hello, Frame, Padded, Sealed, Masked, Header, Suite.Derive;
    ghost var payload := Padded(Frame(hello));
    var pnOffset := WriteText(buf, dcid, scid, pn, hello);
    SealPayload(s.ciphers, buf, keys, dcid, scid, pn, payload);
    var mask := s.ciphers.aes(keys.hp, buf[30..46]);
    assert buf[30..46] == buf[..][30..46];
    Protect(buf, mask, pnOffset);
  }
}
