/** The generator of imitate.c */
module Prng {
  /** lcg_step */
  function Lcg(s: nat): (r: nat)
    ensures r < 0x1_0000_0000
  {
    (s * 1103515245 + 12345) % 0x1_0000_0000
  }

  /** The state after k steps */
  function Draw(seed: nat, k: nat): nat {
    if k == 0 then seed else Lcg(Draw(seed, k - 1))
  }

  /** lcg_step from the state after k steps */
  method Step(state: nat, ghost seed: nat, ghost k: nat) returns (next: nat)
    requires state == Draw(seed, k)
    ensures next == Draw(seed, k + 1)
  {
    next := (state * 1103515245 + 12345) % 0x1_0000_0000;
  }
}

/** imitate.c: padding that looks like another protocol, in front of a payload
    that stays as it is. */
module Imitate {
  import opened Wrappers
  import opened Prng
  import opened Words
  import Sip

  // ---- random-looking numbers ----

  /** state ^= b; state *= 0x01000193 */
  function FnvStep(state: nat, b: byte): nat {
    Xor(state, b) * 0x0100_0193 % 0x1_0000_0000
  }

  function Fnv(state: nat, payload: seq<byte>): nat {
    if payload == [] then state else FnvStep(Fnv(state, payload[..|payload| - 1]), payload[|payload| - 1])
  }

  /** The seed that belongs to a payload: it depends on the first 64 bytes alone. */
  function Seed(payload: seq<byte>): nat {
    Fnv(0x811c_9dc5, payload[..Min(64, |payload|)])
  }

  /** imitate_fnv1a_seed on the part of the buffer behind the padding */
  method FnvSeed(buf: array<byte>, at: nat) returns (state: nat)
    requires at <= buf.Length
    ensures state == Seed(buf[at..])
  {
    hide Xor;
    state := 0x811c_9dc5;
    var n := Min(64, buf.Length - at);
    ghost var payload := buf[at..];
    for i := 0 to n
      invariant state == Fnv(0x811c_9dc5, payload[..i])
    {
      assert payload[..i + 1][..i] == payload[..i];
      state := Xor(state, buf[at + i]);
      state := state * 0x0100_0193 % 0x1_0000_0000;
    }
  }

  // ---- a QUIC short header ----

  function Bits(state: nat): nat {
    state / 256 % 2
  }

  /** The first byte: the fixed bit, the spin bit, the key phase and the length of the packet number, whose draws
      come in this order */
  function QuicFirst(seed: nat): byte {
    0x40 + 32 * Bits(seed) + 4 * Bits(Draw(seed, 1)) + Draw(seed, 2) % 4
  }

  function QuicByte(seed: nat, i: nat): byte {
    if i == 0 then QuicFirst(seed) else Draw(seed, i + 2) / 0x1_0000 % 256
  }

  function QuicShort(padding: nat, seed: nat): (m: seq<byte>)
    ensures |m| == padding
  {
    seq(padding, i requires 0 <= i < padding => QuicByte(seed, i))
  }

  /** Short header form, fixed bit set, reserved bits clear (section 17.3.1 of RFC 9000) */
  lemma QuicHeader(padding: nat, seed: nat)
    requires padding > 0
    ensures var b := QuicShort(padding, seed)[0]; b / 0x40 == 1 && b / 8 % 4 == 0
  {
    hide Draw;
    var x, y, z := Bits(seed), Bits(Draw(seed, 1)), Draw(seed, 2) % 4;
    assert QuicShort(padding, seed)[0] == 0x40 + 32 * x + 4 * y + z;
  }

  /** buf has text at its front and is otherwise as it was. */
  ghost predicate Front(buf: array<byte>, was: seq<byte>, text: seq<byte>)
    reads buf
  {
    |text| <= |was| && buf[..] == text + was[|text|..]
  }

  /** write_quic_short */
  method WriteQuicShort(buf: array<byte>, padding: nat, seed: nat)
    requires padding <= buf.Length
    modifies buf
    ensures Front(buf, old(buf[..]), QuicShort(padding, seed))
  {
    if padding == 0 {
      return;
    }
    hide Draw, Lcg, QuicFirst;
    var state := seed;
    assert state == Draw(seed, 0) by { Undrawn(seed); }
    var spin := state / 256 % 2;
    state := Step(state, seed, 0);
    var phase := state / 256 % 2;
    state := Step(state, seed, 1);
    var pn := state % 4;
    state := Step(state, seed, 2);
    buf[0] := First(seed, spin, phase, pn);
    var i := 1;
    while i < padding
      invariant 1 <= i <= padding && state == Draw(seed, i + 2)
      invariant forall j :: 0 <= j < i ==> buf[j] == QuicByte(seed, j)
      invariant forall j :: i <= j < buf.Length ==> buf[j] == old(buf[j])
    {
      buf[i] := state / 0x1_0000 % 256;
      state := Step(state, seed, i + 2);
      i := i + 1;
    }
  }

  lemma Undrawn(seed: nat)
    ensures Draw(seed, 0) == seed
  {
  }

  method First(ghost seed: nat, spin: nat, phase: nat, pn: nat) returns (b: byte)
    requires spin == Bits(seed) && phase == Bits(Draw(seed, 1)) && pn == Draw(seed, 2) % 4
    ensures b == QuicFirst(seed)
  {
    b := 0x40 + 32 * spin + 4 * phase + pn;
  }

  // ---- STUN ----

  const COOKIE := 0x2112_A442

  /** The transaction id takes three draws, port and address two, and the text one for each character */
  function Txn(seed: nat): (m: seq<byte>)
    ensures |m| == 12
  {
    Be32(seed) + Be32(Draw(seed, 1)) + Be32(Draw(seed, 2))
  }

  function Body(padding: nat): nat {
    if padding > 20 then (padding - 20) - (padding - 20) % 4 else 0
  }

  function Mapped(seed: nat): (m: seq<byte>)
    ensures |m| == 8
  {
    [0, 1] + Be16(Xor(Draw(seed, 3) / 0x1_0000, COOKIE / 0x1_0000)) + Be32(Xor(Draw(seed, 4), COOKIE))
  }

  function Attribute(t: nat, value: seq<byte>): (m: seq<byte>)
    ensures |m| == 4 + |value|
  {
    Be16(t) + Be16(|value|) + value
  }

  /** XOR-MAPPED-ADDRESS, if the body has room for it */
  function Address(padding: nat, seed: nat): (m: seq<byte>)
    ensures |m| == if Body(padding) >= 12 then 12 else 0
  {
    if Body(padding) >= 12 then Attribute(0x0020, Mapped(seed)) else []
  }

  function TextLength(padding: nat): nat {
    var remaining := Body(padding) - (if Body(padding) >= 12 then 12 else 0);
    if remaining >= 4 then Min(124, remaining - 4) else 0
  }

  function HasText(padding: nat): bool {
    Body(padding) - (if Body(padding) >= 12 then 12 else 0) >= 4
  }

  function TextByte(seed: nat, first: nat, j: nat): byte {
    0x20 + Draw(seed, first + j) % 0x5F
  }

  function Text(seed: nat, first: nat, n: nat): (m: seq<byte>)
    ensures |m| == n
  {
    seq(n, j requires 0 <= j < n => TextByte(seed, first, j))
  }

  /** SOFTWARE, with as many printable characters as fit, up to 124 */
  function Software(padding: nat, seed: nat): (m: seq<byte>)
    ensures |m| == if HasText(padding) then 4 + TextLength(padding) else 0
  {
    var first := if Body(padding) >= 12 then 5 else 3;
    if HasText(padding) then Attribute(0x8022, Text(seed, first, TextLength(padding))) else []
  }

  function Attributes(padding: nat, seed: nat): seq<byte> {
    Address(padding, seed) + Software(padding, seed)
  }

  function StunHeader(length: nat, seed: nat): (m: seq<byte>)
    ensures |m| == 20
  {
    Be16(0x0101) + Be16(length) + Be32(COOKIE) + Txn(seed)
  }

  function Stun(padding: nat, seed: nat): (m: seq<byte>)
    ensures |m| == padding
  {
    var attributes := Attributes(padding, seed);
    var header := StunHeader(|attributes|, seed);
    if padding <= 20 then header[..padding] else header + attributes + Zeros(padding - 20 - |attributes|)
  }

  /** A reader of attributes (section 15 of RFC 5389): type, length, value, each padded to a multiple of four. */
  function ReadAttributes(m: seq<byte>): (r: seq<(nat, seq<byte>)>)
    decreases |m|
  {
    if |m| < 4 then []
    else
      var n := Get16(m, 2);
      var size := 4 + n + (4 - n % 4) % 4;
      if size > |m| then [] else [(Get16(m, 0), m[4..4 + n])] + ReadAttributes(m[size..])
  }

  /** The bytes that attributes of these lengths take. */
  function Sizes(r: seq<(nat, seq<byte>)>): nat {
    if r == [] then 0 else 4 + |r[0].1| + (4 - |r[0].1| % 4) % 4 + Sizes(r[1..])
  }

  /** Family, port and address of XOR-MAPPED-ADDRESS in a message with this cookie (section 15.2 of RFC 5389) */
  function ReadMapped(cookie: nat, value: seq<byte>): (nat, nat, nat)
    requires |value| == 8
  {
    (value[1], Xor(LoadBe(value[2..4]), cookie / 0x1_0000), Xor(LoadBe(value[4..8]), cookie))
  }

  lemma {:induction false} ReadOne(t: nat, value: seq<byte>, rest: seq<byte>)
    requires t < 0x1_0000 && |value| < 0x1_0000 && |value| % 4 == 0
    ensures ReadAttributes(Attribute(t, value) + rest) == [(t, value)] + ReadAttributes(rest)
  {
    hide Be16, Get16;
    var m := Attribute(t, value) + rest;
    assert m[0..2] == Be16(t) && m[2..4] == Be16(|value|);
    Get16At(m, 0, t);
    Get16At(m, 2, |value|);
    assert m[4..4 + |value|] == value && m[4 + |value|..] == rest;
  }

  lemma SizesOne(x: (nat, seq<byte>), r: seq<(nat, seq<byte>)>)
    ensures Sizes([x] + r) == 4 + |x.1| + (4 - |x.1| % 4) % 4 + Sizes(r)
  {
    assert ([x] + r)[1..] == r;
  }

  /** The room: XOR-MAPPED-ADDRESS goes in from 32 bytes on, SOFTWARE at 24 and from 36 on. */
  lemma {:induction false} BodySizes(padding: nat)
    ensures TextLength(padding) % 4 == 0 && TextLength(padding) <= 124
    ensures padding > 20 ==> 20 + Body(padding) <= padding && Body(padding) % 4 == 0
    ensures Body(padding) >= 12 ==> 12 + (if HasText(padding) then 4 + TextLength(padding) else 0) <= Body(padding)
    ensures HasText(padding) ==> 4 + TextLength(padding) <= Body(padding)
    ensures Body(padding) >= 12 <==> padding >= 32
    ensures HasText(padding) <==> 24 <= padding < 32 || padding >= 36
  {
  }

  lemma {:induction false} SoftwareReads(padding: nat, seed: nat)
    requires HasText(padding)
    ensures var v := Text(seed, if padding >= 32 then 5 else 3, TextLength(padding));
      ReadAttributes(Software(padding, seed)) == [(0x8022, v)] && Sizes([(0x8022, v)]) == |Software(padding, seed)|
  {
    hide Text, ReadAttributes, Attribute;
    BodySizes(padding);
    var v := Text(seed, if padding >= 32 then 5 else 3, TextLength(padding));
    assert Attribute(0x8022, v) + [] == Attribute(0x8022, v);
    ReadOne(0x8022, v, []);
    ReadNone();
    SizesOne((0x8022, v), []);
    assert [(0x8022, v)] + [] == [(0x8022, v)];
  }

  lemma ReadNone()
    ensures ReadAttributes([]) == []
  {
  }

  /** What a reader finds: the address from 32 bytes on, and the text */
  function Expected(padding: nat, seed: nat): seq<(nat, seq<byte>)> {
    (if padding >= 32 then [(0x0020, Mapped(seed))] else [])
    + if 24 <= padding < 32 || padding >= 36 then [(0x8022, Text(seed, if padding >= 32 then 5 else 3, TextLength(padding)))] else []
  }

  lemma {:induction false} AttributesRead(padding: nat, seed: nat)
    ensures var a := Attributes(padding, seed);
      && |a| % 4 == 0 && ReadAttributes(a) == Expected(padding, seed) && Sizes(ReadAttributes(a)) == |a|
      && (padding > 20 ==> 20 + |a| <= padding)
  {
    BodySizes(padding);
    hide ReadAttributes, Attribute, Text, Mapped, Sizes, HasText, Body, TextLength;
    if HasText(padding) {
      SoftwareReads(padding, seed);
    }
    ReadNone();
    NoSizes();
    var a, soft := Attributes(padding, seed), Software(padding, seed);
    if padding >= 32 {
      ReadOne(0x0020, Mapped(seed), soft);
      SizesOne((0x0020, Mapped(seed)), ReadAttributes(soft));
    } else {
      assert a == soft;
    }
  }

  lemma NoSizes()
    ensures Sizes([]) == 0
  {
  }

  lemma {:induction false} DrawBound(seed: nat, k: nat)
    requires k > 0
    ensures Draw(seed, k) < 0x1_0000_0000
  {
    hide Lcg;
  }

  /** Numbers masked before they are written, and again after they are read */
  lemma {:induction false} Unmasked(x: nat, y: nat, mask: nat)
    requires x < 0x1_0000 && y < 0x1_0000_0000 && mask < 0x1_0000_0000
    ensures Xor(LoadBe(Be16(Xor(x, mask / 0x1_0000))), mask / 0x1_0000) == x
    ensures Xor(LoadBe(Be32(Xor(y, mask))), mask) == y
  {
    hide Xor, LoadBe, Be16, Be32, Pow2;
    var top := mask / 0x1_0000;
    SmallPowers();
    Powers();
    XorBound(x, top, 16);
    XorBound(y, mask, 32);
    Be16Reads(Xor(x, top));
    Be32Reads(Xor(y, mask));
    XorCancels(x, top);
    XorCancels(y, mask);
  }

  /** Port and address come out of the attribute as they were drawn. */
  lemma {:induction false} MappedReads(seed: nat)
    ensures ReadMapped(0x2112_A442, Mapped(seed)) == (1, Draw(seed, 3) / 0x1_0000, Draw(seed, 4))
  {
    hide Draw, Xor, LoadBe, Be16, Be32;
    DrawBound(seed, 3);
    DrawBound(seed, 4);
    var port, address, v := Draw(seed, 3) / 0x1_0000, Draw(seed, 4), Mapped(seed);
    Unmasked(port, address, COOKIE);
    assert v[2..4] == Be16(Xor(port, COOKIE / 0x1_0000)) && v[4..8] == Be32(Xor(address, COOKIE));
  }

  /** Whoever reads the message finds a success response with the cookie and three drawn words as its transaction, and
      attributes that fill the length its header gives, a multiple of four: the address drawn, and printable text. */
  lemma {:induction false} StunReads(padding: nat, seed: nat)
    requires padding > 20
    ensures var m := Stun(padding, seed); var n := Get16(m, 2);
      && 20 + n <= padding && n % 4 == 0 && m[20 + n..] == Zeros(padding - 20 - n)
      && Get16(m, 0) == 0x0101 && LoadBe(m[4..8]) == 0x2112_A442
      && LoadBe(m[8..12]) == seed % 0x1_0000_0000 && LoadBe(m[12..16]) == Draw(seed, 1) && LoadBe(m[16..20]) == Draw(seed, 2)
      && Sizes(ReadAttributes(m[20..20 + n])) == n && ReadAttributes(m[20..20 + n]) == Expected(padding, seed)
    ensures padding >= 32 ==> var m := Stun(padding, seed);
      var (kind, value) := ReadAttributes(m[20..20 + Get16(m, 2)])[0];
      && kind == 0x0020 && |value| == 8
      && ReadMapped(LoadBe(m[4..8]), value) == (1, Draw(seed, 3) / 0x1_0000, Draw(seed, 4))
  {
    hide Draw, Txn, ReadAttributes, Attributes, LoadBe, Be32;
    AttributesRead(padding, seed);
    AttributesBound(padding, seed);
    MappedReads(seed);
    HeaderReads(|Attributes(padding, seed)|, seed);
    hide Sizes, StunHeader, ReadMapped;
    var a, m := Attributes(padding, seed), Stun(padding, seed);
    var header := StunHeader(|a|, seed);
    assert m[20..20 + |a|] == a;
    assert m[..20] == header;
    assert m[4..8] == header[4..8] && m[8..12] == header[8..12] && m[12..16] == header[12..16] && m[16..20] == header[16..20];
    assert Get16(m, 0) == Get16(header, 0) && Get16(m, 2) == Get16(header, 2);
  }

  lemma {:induction false} HeaderReads(n: nat, seed: nat)
    requires n < 0x1_0000
    ensures var m := StunHeader(n, seed);
      && Get16(m, 0) == 0x0101 && Get16(m, 2) == n && LoadBe(m[4..8]) == 0x2112_A442
      && LoadBe(m[8..12]) == seed % 0x1_0000_0000 && LoadBe(m[12..16]) == Draw(seed, 1) && LoadBe(m[16..20]) == Draw(seed, 2)
  {
    hide Draw, LoadBe, Be16, Be32, Get16;
    DrawBound(seed, 1);
    DrawBound(seed, 2);
    var m := StunHeader(n, seed);
    assert m[0..2] == Be16(0x0101) && m[2..4] == Be16(n) && m[4..8] == Be32(COOKIE) && m[8..12] == Be32(seed);
    assert m[12..16] == Be32(Draw(seed, 1)) && m[16..20] == Be32(Draw(seed, 2));
    Get16At(m, 0, 0x0101);
    Get16At(m, 2, n);
    Be32Reads(COOKIE);
    Be32Reads(seed);
    Be32Reads(Draw(seed, 1));
    Be32Reads(Draw(seed, 2));
  }

  lemma AttributesBound(padding: nat, seed: nat)
    ensures |Attributes(padding, seed)| <= 140
  {
    BodySizes(padding);
  }

  /** The text is printable (section 15.10 of RFC 5389). */
  lemma {:induction false} TextPrints(seed: nat, first: nat, n: nat)
    ensures forall b :: b in Text(seed, first, n) ==> 0x20 <= b <= 0x7E
  {
    hide Draw;
  }

  /** put_be16 and put_be32, and memcpy, in one */
  method PutBytes(buf: array<byte>, at: nat, m: seq<byte>)
    requires at + |m| <= buf.Length
    modifies buf
    ensures buf[..] == Written(old(buf[..]), at, m)
  {
    Put(buf, at, m);
  }

  /** The characters of SOFTWARE, drawn one by one */
  method PutText(buf: array<byte>, at: nat, n: nat, state: nat, ghost seed: nat, ghost first: nat)
    requires at + n <= buf.Length && state == Draw(seed, first)
    modifies buf
    ensures buf[..] == Written(old(buf[..]), at, Text(seed, first, n))
  {
    hide Draw;
    var s := state;
    var j := 0;
    while j < n
      invariant 0 <= j <= n && s == Draw(seed, first + j)
      invariant forall k :: 0 <= k < buf.Length ==> buf[k] == if at <= k < at + j then TextByte(seed, first, k - at) else old(buf[k])
    {
      buf[at + j] := 0x20 + s % 0x5F;
      s := Step(s, seed, first + j);
      j := j + 1;
    }
  }

  /** The transaction id, from three draws */
  method DrawTxn(seed: nat) returns (txn: seq<byte>, state: nat)
    ensures txn == Txn(seed) && state == Draw(seed, 3)
  {
    Undrawn(seed);
    hide Draw, Be32;
    txn := Be32(seed);
    state := Step(seed, seed, 0);
    txn := txn + Be32(state);
    state := Step(state, seed, 1);
    txn := txn + Be32(state);
    state := Step(state, seed, 2);
  }

  /** The attributes of write_stun, and how many bytes they are */
  method PutAttributes(buf: array<byte>, padding: nat, state: nat, ghost seed: nat) returns (written: nat)
    requires 20 <= buf.Length && padding <= buf.Length && state == Draw(seed, 3)
    modifies buf
    ensures written == |Attributes(padding, seed)| && 20 + written <= (if padding > 20 then padding else 20)
    ensures buf[..] == Written(old(buf[..]), 20, Attributes(padding, seed))
  {
    hide Address, Software, Written, Draw;
    ghost var was := buf[..];
    var body := if padding > 20 then (padding - 20) / 4 * 4 else 0;
    BodyIs(padding);
    hide Body;
    AttributesFit(padding, seed);
    var next;
    written, next := PutAddress(buf, body, padding, state, seed);
    WrittenOn(was, 20, Address(padding, seed), Software(padding, seed));
    var more := PutSoftware(buf, 20 + written, body - written, next, padding, seed);
    written := written + more;
  }

  lemma {:induction false} BodyIs(padding: nat)
    ensures Body(padding) == if padding > 20 then (padding - 20) / 4 * 4 else 0
  {
    if padding > 20 {
      ModParts(padding - 20, 4);
    }
  }

  lemma {:induction false} AttributesFit(padding: nat, seed: nat)
    ensures 20 + |Attributes(padding, seed)| <= (if padding > 20 then padding else 20)
    ensures |Address(padding, seed)| == if Body(padding) >= 12 then 12 else 0
  {
    hide Mapped, Text, Attribute;
    BodySizes(padding);
  }

  /** XOR-MAPPED-ADDRESS, if there is room for it */
  method PutAddress(buf: array<byte>, body: nat, ghost padding: nat, state: nat, ghost seed: nat) returns (written: nat, next: nat)
    requires body == Body(padding) && state == Draw(seed, 3) && 20 + |Address(padding, seed)| <= buf.Length
    modifies buf
    ensures written == |Address(padding, seed)| == (if body >= 12 then 12 else 0)
    ensures next == Draw(seed, if body >= 12 then 5 else 3)
    ensures buf[..] == Written(old(buf[..]), 20, Address(padding, seed))
  {
    hide Written, Draw, Xor, Be16, Be32, Body;
    WrittenNone(buf[..], 20);
    written, next := 0, state;
    if body >= 12 {
      var port := state / 0x1_0000;
      var addr := Step(state, seed, 3);
      next := Step(addr, seed, 4);
      var xport := Xor(port, 0x2112_A442 / 0x1_0000);
      var xaddr := Xor(addr, 0x2112_A442);
      PutBytes(buf, 20, Be16(0x0020) + Be16(8) + ([0, 1] + Be16(xport) + Be32(xaddr)));
      written := 12;
    }
  }

  /** SOFTWARE, if there is room for it */
  method PutSoftware(buf: array<byte>, at: nat, remaining: nat, state: nat, ghost padding: nat, ghost seed: nat)
    returns (written: nat)
    requires at + |Software(padding, seed)| <= buf.Length
    requires remaining == Body(padding) - (if Body(padding) >= 12 then 12 else 0)
    requires state == Draw(seed, if Body(padding) >= 12 then 5 else 3)
    modifies buf
    ensures written == |Software(padding, seed)|
    ensures buf[..] == Written(old(buf[..]), at, Software(padding, seed))
  {
    hide Draw, Text, Written, Body;
    ghost var was, first := buf[..], if Body(padding) >= 12 then 5 else 3;
    written := 0;
    if remaining >= 4 {
      var vlen := remaining - 4;
      if vlen > 124 {
        vlen := 124;
      }
      PutBytes(buf, at, Be16(0x8022) + Be16(vlen));
      PutText(buf, at + 4, vlen, state, seed, first);
      WrittenOn(was, at, Be16(0x8022) + Be16(vlen), Text(seed, first, vlen));
      written := 4 + vlen;
    } else {
      WrittenNone(was, at);
    }
  }

  lemma WrittenNone(was: seq<byte>, at: nat)
    requires at <= |was|
    ensures Written(was, at, []) == was
  {
  }

  lemma StunWritten(was: seq<byte>, header: seq<byte>, a: seq<byte>, z: seq<byte>)
    requires |header| == 20 && 20 + |a| + |z| <= |was|
    ensures Written(Written(Written(was, 20, a), 0, header), 20 + |a|, z) == header + a + z + was[20 + |a| + |z|..]
  {
  }

  /** The 20 bytes in front of the attributes */
  method MakeHeader(written: nat, txn: seq<byte>, ghost seed: nat) returns (header: seq<byte>)
    requires txn == Txn(seed)
    ensures header == StunHeader(written, seed)
  {
    hide Txn, Be16, Be32;
    header := Be16(0x0101) + Be16(written) + Be32(0x2112_A442) + txn;
  }

  /** write_stun */
  method WriteStun(buf: array<byte>, padding: nat, seed: nat)
    requires padding <= buf.Length
    modifies buf
    ensures Front(buf, old(buf[..]), Stun(padding, seed))
  {
    hide Draw, Attributes, Written, StunHeader;
    ghost var was := buf[..];
    var txn, state := DrawTxn(seed);
    if padding <= 20 {
      AttributesNone(padding, seed);
      var header := MakeHeader(0, txn, seed);
      PutBytes(buf, 0, header[..padding]);
      HeaderWritten(was, header[..padding]);
      return;
    }
    var written := PutAttributes(buf, padding, state, seed);
    var header := MakeHeader(written, txn, seed);
    PutBytes(buf, 0, header);
    PutBytes(buf, 20 + written, Zeros(padding - 20 - written));
    StunWritten(was, header, Attributes(padding, seed), Zeros(padding - 20 - written));
  }

  lemma AttributesNone(padding: nat, seed: nat)
    requires padding <= 20
    ensures Attributes(padding, seed) == []
  {
  }

  lemma HeaderWritten(was: seq<byte>, h: seq<byte>)
    requires |h| <= |was|
    ensures Written(was, 0, h) == h + was[|h|..]
  {
  }

  // ---- DNS ----

  function Clamp16(v: int): (r: nat)
    ensures r < 0x1_0000
  {
    if v < 0 then 0 else if v > 0xFFFF then 0xFFFF else v
  }

  /** An answer with an OPT record that holds everything behind it as one option */
  function DnsOpt(total: nat, padding: nat, txid: seq<byte>): (m: seq<byte>)
    requires |txid| == 2 && padding >= 32
    ensures |m| == padding
  {
    OptHead(txid) + Be16(Clamp16(total - 28)) + Be16(0xFDE9) + Be16(Clamp16(total - 32)) + Zeros(padding - 32)
  }

  /** The 28 bytes of an answer of type NULL, with the counts of what the padding has room for */
  function DnsFixed(total: nat, padding: nat, txid: seq<byte>): (m: seq<byte>)
    requires |txid| == 2
    ensures |m| == 28
  {
    txid + [0x81, 0x80, 0, if padding >= 17 then 1 else 0, 0, if padding >= 28 then 1 else 0, 0, 0, 0, 0]
    + [0, 0, 1, 0, 1] + [0, 0, 0x0a, 0, 1, 0, 0, 0, 0x3c] + Be16(Clamp16(total - 28))
  }

  function Advertised(padding: nat): nat {
    if padding >= 28 then 28 else if padding >= 17 then 17 else 12
  }

  function DnsNull(total: nat, padding: nat, txid: seq<byte>): (m: seq<byte>)
    requires |txid| == 2
    ensures |m| == padding
  {
    var n := Min(padding, Advertised(padding));
    DnsFixed(total, padding, txid)[..n] + Zeros(padding - n)
  }

  function Dns(total: nat, padding: nat, txid: seq<byte>): (m: seq<byte>)
    requires |txid| == 2
    ensures |m| == padding
  {
    if padding < 32 then DnsNull(total, padding, txid) else DnsOpt(total, padding, txid)
  }

  /** What a reader finds in a datagram (section 4.1 of RFC 1035): the header, the question for a root name, and the
      record behind it. */
  datatype DnsHeader = DnsHeader(id: seq<byte>, flags: nat, questions: nat, answers: nat, authority: nat, additional: nat)
  datatype DnsQuestion = DnsQuestion(rootName: bool, qtype: nat, qclass: nat)
  datatype DnsRecord = DnsRecord(rootName: bool, rtype: nat, rclass: nat, ttl: nat, end: nat)

  function ReadDnsHeader(m: seq<byte>): DnsHeader
    requires |m| >= 12
  {
    DnsHeader(m[..2], Get16(m, 2), Get16(m, 4), Get16(m, 6), Get16(m, 8), Get16(m, 10))
  }

  function ReadDnsQuestion(m: seq<byte>): DnsQuestion
    requires |m| >= 17
  {
    DnsQuestion(m[12] == 0, Get16(m, 13), Get16(m, 15))
  }

  function ReadDnsRecord(m: seq<byte>): DnsRecord
    requires |m| >= 28
  {
    DnsRecord(m[17] == 0, Get16(m, 18), Get16(m, 20), 0x1_0000 * Get16(m, 22) + Get16(m, 24), 28 + Get16(m, 26))
  }

  /** Whoever reads the message finds a response without error to the two bytes of the payload, one question, and one
      record, an OPT for 1232 bytes where there is room for it, which ends where the datagram does if and only if that
      is not longer than a record can be. */
  lemma {:induction false} DnsReads(total: nat, padding: nat, txid: seq<byte>, payload: seq<byte>)
    requires |txid| == 2 && 28 <= padding <= total && |payload| == total - padding
    ensures var m := Dns(total, padding, txid) + payload;
      && |m| == total && (ReadDnsRecord(m).end == total <==> total <= 65563)
      && ReadDnsQuestion(m) == DnsQuestion(true, 1, 1)
      && (padding < 32 ==>
        && ReadDnsHeader(m) == DnsHeader(txid, 0x8180, 1, 1, 0, 0)
        && ReadDnsRecord(m) == DnsRecord(true, 10, 1, 60, 28 + Clamp16(total - 28)))
      && (padding >= 32 ==>
        && ReadDnsHeader(m) == DnsHeader(txid, 0x8180, 1, 0, 0, 1)
        && ReadDnsRecord(m) == DnsRecord(true, 41, 1232, 0, 28 + Clamp16(total - 28))
        && Get16(m, 28) == 0xFDE9 && (total <= 65563 ==> 32 + Get16(m, 30) == total))
  {
    hide ReadDnsHeader, ReadDnsQuestion, ReadDnsRecord, DnsNull, DnsOpt, Get16;
    if padding < 32 {
      NullReads(total, padding, txid, payload);
    } else {
      OptReads(total, padding, txid, payload);
    }
  }

  lemma {:induction false} NullReads(total: nat, padding: nat, txid: seq<byte>, payload: seq<byte>)
    requires |txid| == 2 && 28 <= padding < 32 && padding <= total && |payload| == total - padding
    ensures var m := DnsNull(total, padding, txid) + payload;
      && ReadDnsHeader(m) == DnsHeader(txid, 0x8180, 1, 1, 0, 0) && ReadDnsQuestion(m) == DnsQuestion(true, 1, 1)
      && ReadDnsRecord(m) == DnsRecord(true, 10, 1, 60, 28 + Clamp16(total - 28))
  {
    hide Clamp16, Be16;
    var m := DnsNull(total, padding, txid) + payload;
    assert m[..28] == DnsFixed(total, padding, txid);
    assert m[26..28] == Be16(Clamp16(total - 28));
    Get16At(m, 26, Clamp16(total - 28));
  }

  /** With room for the header only, the message says that nothing follows; with room for the question, one question. */
  lemma {:induction false} ShortDnsReads(total: nat, padding: nat, txid: seq<byte>)
    requires |txid| == 2 && 12 <= padding < 28
    ensures var m := Dns(total, padding, txid);
      && ReadDnsHeader(m) == DnsHeader(txid, 0x8180, if padding < 17 then 0 else 1, 0, 0, 0)
      && (padding >= 17 ==> ReadDnsQuestion(m) == DnsQuestion(true, 1, 1) && m[17..] == Zeros(padding - 17))
      && (padding < 17 ==> m[12..] == Zeros(padding - 12))
  {
    hide Clamp16, Be16;
    var m := Dns(total, padding, txid);
    assert m[..12] == DnsFixed(total, padding, txid)[..12];
  }

  lemma {:induction false} OptReads(total: nat, padding: nat, txid: seq<byte>, payload: seq<byte>)
    requires |txid| == 2 && 32 <= padding <= total && |payload| == total - padding
    ensures var m := DnsOpt(total, padding, txid) + payload;
      && ReadDnsHeader(m) == DnsHeader(txid, 0x8180, 1, 0, 0, 1) && ReadDnsQuestion(m) == DnsQuestion(true, 1, 1)
      && ReadDnsRecord(m) == DnsRecord(true, 41, 1232, 0, 28 + Clamp16(total - 28))
      && Get16(m, 28) == 0xFDE9 && Get16(m, 30) == Clamp16(total - 32)
  {
    hide DnsOpt, Clamp16;
    OptParts(total, padding, txid, payload);
    var m := DnsOpt(total, padding, txid) + payload;
    Get16At(m, 26, Clamp16(total - 28));
    Get16At(m, 28, 0xFDE9);
    Get16At(m, 30, Clamp16(total - 32));
    assert m[..26] == OptHead(txid) && OptHead(txid)[20..22] == Be16(1232);
    Get16At(m, 20, 1232);
  }

  /** Up to the length of the record */
  function OptHead(txid: seq<byte>): seq<byte> {
    txid + [0x81, 0x80, 0, 1, 0, 0, 0, 0, 0, 1] + [0, 0, 1, 0, 1] + [0, 0, 0x29] + Be16(1232) + [0, 0, 0, 0]
  }

  lemma {:induction false} OptParts(total: nat, padding: nat, txid: seq<byte>, payload: seq<byte>)
    requires |txid| == 2 && 32 <= padding <= total && |payload| == total - padding
    ensures var m := DnsOpt(total, padding, txid) + payload;
      && m[..26] == OptHead(txid) && m[26..28] == Be16(Clamp16(total - 28)) && m[28..30] == Be16(0xFDE9)
      && m[30..32] == Be16(Clamp16(total - 32))
  {
    hide Zeros, Clamp16, Be16;
  }

  /** clamp_u16 */
  method ClampU16(v: int) returns (r: nat)
    ensures r == Clamp16(v)
  {
    if v < 0 {
      return 0;
    }
    if v > 0xFFFF {
      return 0xFFFF;
    }
    return v;
  }

  /** write_dns_opt_response, the 32 bytes that are not zeroes */
  method OptResponse(total: nat, txid: seq<byte>, ghost padding: nat) returns (p: seq<byte>)
    requires |txid| == 2 && padding >= 32
    ensures |p| == 32 && p + Zeros(padding - 32) == DnsOpt(total, padding, txid)
  {
    var rdlength := ClampU16(total - (17 + 11));
    var optLen := ClampU16(total - (17 + 11 + 4));
    hide Clamp16;
    assert txid == [txid[0], txid[1]];
    assert Be16(1232) == [0x04, 0xD0] && Be16(0xFDE9) == [0xFD, 0xE9];
    assert Be16(rdlength) == [rdlength / 256, rdlength % 256] && Be16(optLen) == [optLen / 256, optLen % 256];
    p := [txid[0], txid[1]] + [0x81, 0x80, 0x00, 0x01, 0x00, 0x00, 0x00, 0x00, 0x00, 0x01];
    p := p + [0x00, 0x00, 0x01, 0x00, 0x01];
    p := p + [0x00, 0x00, 0x29] + [0x04, 0xD0] + [0x00, 0x00, 0x00, 0x00] + [rdlength / 256, rdlength % 256];
    p := p + [0xFD, 0xE9] + [optLen / 256, optLen % 256];
  }

  /** The array fixed of write_dns_null */
  method FixedBytes(total: nat, padding: nat, txid: seq<byte>) returns (p: seq<byte>)
    requires |txid| == 2
    ensures p == DnsFixed(total, padding, txid)
  {
    var qdcount, ancount := 0, 0;
    if padding >= 17 {
      qdcount := 1;
    }
    if padding >= 28 {
      ancount := 1;
    }
    var rdlength := ClampU16(total - 28);
    hide Clamp16;
    assert txid == [txid[0], txid[1]];
    assert Be16(rdlength) == [rdlength / 256, rdlength % 256];
    hide Be16;
    p := [txid[0], txid[1]] + [0x81, 0x80, 0x00, qdcount, 0x00, ancount, 0x00, 0x00, 0x00, 0x00];
    p := p + [0x00, 0x00, 0x01, 0x00, 0x01];
    p := p + [0x00, 0x00, 0x0a, 0x00, 0x01, 0x00, 0x00, 0x00, 0x3c] + [rdlength / 256, rdlength % 256];
  }

  /** The bytes of write_dns_null that are not zeroes */
  method NullResponse(total: nat, padding: nat, txid: seq<byte>) returns (p: seq<byte>)
    requires |txid| == 2
    ensures |p| == Min(padding, Advertised(padding)) && p + Zeros(padding - |p|) == DnsNull(total, padding, txid)
  {
    hide DnsFixed;
    var fixed := FixedBytes(total, padding, txid);
    var advertised := 12;
    if padding >= 28 {
      advertised := 28;
    } else if padding >= 17 {
      advertised := 17;
    }
    p := fixed[..if padding < advertised then padding else advertised];
  }

  /** write_dns_msg with what it calls */
  method WriteDns(buf: array<byte>, total: nat, padding: nat, txid: seq<byte>)
    requires padding <= buf.Length && |txid| == 2
    modifies buf
    ensures Front(buf, old(buf[..]), Dns(total, padding, txid))
  {
    hide DnsNull, DnsOpt, Written, Advertised;
    ghost var was := buf[..];
    var p;
    if padding < 32 {
      p := NullResponse(total, padding, txid);
    } else {
      p := OptResponse(total, txid, padding);
    }
    PutBytes(buf, 0, p);
    PutBytes(buf, |p|, Zeros(padding - |p|));
    WrittenOn(was, 0, p, Zeros(padding - |p|));
    HeaderWritten(was, Dns(total, padding, txid));
  }

  // ---- filling ----

  datatype Protocol = NoProtocol | Quic | DnsProtocol | StunProtocol | SipProtocol

  /** What the filler of a protocol writes, for a seed and two bytes of the payload */
  function ByProtocol(p: Protocol, total: nat, padding: nat, seed: nat, txid: seq<byte>): (m: seq<byte>)
    requires p != NoProtocol && padding <= total && |txid| == 2
    ensures |m| == padding
  {
    match p
    case Quic => QuicShort(padding, seed)
    case DnsProtocol => Dns(total, padding, txid)
    case StunProtocol => Stun(padding, seed)
    case SipProtocol => SipPrefix(total, padding, seed)
  }

  /** The padding in front of a payload of which head are the first bytes, up to 64 */
  function Prefix(p: Protocol, total: nat, padding: nat, head: seq<byte>): (m: seq<byte>)
    requires p != NoProtocol && padding <= total
    ensures |m| == padding
  {
    ByProtocol(p, total, padding, Fnv(0x811c_9dc5, head),
               [if |head| > 0 then head[0] else 0, if |head| > 1 then head[1] else 0])
  }

  function SipPrefix(total: nat, padding: nat, seed: nat): (m: seq<byte>)
    ensures |m| == padding
  {
    Sip.TextLength(total, padding, seed);
    Sip.Bytes(Sip.Text(total, padding, seed))
  }

  /** imitate_fill_prefix: only the padding changes, all of it does, and what it becomes depends on nothing but
      the lengths, the protocol and the first 64 bytes of the payload */
  method FillPrefix(buf: array<byte>, padding: nat, p: Protocol)
    modifies buf
    ensures padding == 0 || padding >= buf.Length || p == NoProtocol ==> buf[..] == old(buf[..])
    ensures 0 < padding < buf.Length && p != NoProtocol ==>
      buf[..] == Prefix(p, buf.Length, padding, old(buf[padding..Min(padding + 64, buf.Length)])) + old(buf[padding..])
  {
    hide Prefix;
    if padding == 0 || padding >= buf.Length || p == NoProtocol {
      return;
    }
    FillBefore(buf, padding, p);
  }

  /** The filler of a protocol, seeded with the payload behind the padding */
  method FillBefore(buf: array<byte>, padding: nat, p: Protocol)
    requires 0 < padding < buf.Length && p != NoProtocol
    modifies buf
    ensures buf[..] == Prefix(p, buf.Length, padding, old(buf[padding..Min(padding + 64, buf.Length)])) + old(buf[padding..])
  {
    hide ByProtocol, Fnv, Prefix, Seed;
    var total := buf.Length;
    ghost var head := buf[padding..Min(padding + 64, total)];
    var seed := FnvSeed(buf, padding);
    var txid := [buf[padding], if total - padding > 1 then buf[padding + 1] else 0];
    SeedOf(buf[padding..], head);
    PrefixIs(p, total, padding, head, txid);
    ghost var was := buf[..];
    FillFor(buf, padding, p, seed, txid);
    assert was[padding..] == old(buf[padding..]);
  }

  lemma SeedOf(m: seq<byte>, head: seq<byte>)
    requires head == m[..Min(64, |m|)]
    ensures Seed(m) == Fnv(0x811c_9dc5, head)
  {
  }

  lemma PrefixIs(p: Protocol, total: nat, padding: nat, head: seq<byte>, txid: seq<byte>)
    requires p != NoProtocol && padding <= total && |txid| == 2 && |head| > 0
    requires txid[0] == head[0] && txid[1] == if |head| > 1 then head[1] else 0
    ensures Prefix(p, total, padding, head) == ByProtocol(p, total, padding, Fnv(0x811c_9dc5, head), txid)
  {
    hide ByProtocol, Fnv;
    assert txid == [head[0], txid[1]];
  }

  /** The dispatch to the fillers */
  method FillFor(buf: array<byte>, padding: nat, p: Protocol, seed: nat, txid: seq<byte>)
    requires p != NoProtocol && padding <= buf.Length && |txid| == 2
    modifies buf
    ensures Front(buf, old(buf[..]), ByProtocol(p, buf.Length, padding, seed, txid))
  {
    hide QuicShort, Dns, Stun, SipPrefix;
    match p
    case Quic => WriteQuicShort(buf, padding, seed);
    case DnsProtocol => WriteDns(buf, buf.Length, padding, txid);
    case StunProtocol => WriteStun(buf, padding, seed);
    case SipProtocol =>
      Sip.WriteSip(buf, buf.Length, padding, seed);
      SipIs(buf.Length, padding, seed);
  }

  lemma SipIs(total: nat, padding: nat, seed: nat)
    ensures SipPrefix(total, padding, seed) == Sip.Bytes(Sip.Text(total, padding, seed))
  {
  }

  /** imitate_fill_whole */
  method FillWhole(buf: array<byte>, seed: nat, p: Protocol)
    modifies buf
    ensures p == NoProtocol || buf.Length == 0 ==> buf[..] == old(buf[..])
    ensures p == Quic ==> buf[..] == QuicShort(buf.Length, seed)
    ensures p == DnsProtocol ==> buf[..] == Dns(buf.Length, buf.Length, [seed / 256 % 256, seed % 256])
    ensures p == StunProtocol ==> buf[..] == Stun(buf.Length, seed)
    ensures p == SipProtocol ==> buf[..] == SipPrefix(buf.Length, buf.Length, seed)
  {
    hide QuicShort, Dns, Stun, SipPrefix;
    var len := buf.Length;
    match p {
      case NoProtocol =>
      case Quic => WriteQuicShort(buf, len, seed);
      case DnsProtocol => WriteDns(buf, len, len, [seed / 256 % 256, seed % 256]);
      case StunProtocol => WriteStun(buf, len, seed);
      case SipProtocol =>
        Sip.WriteSip(buf, len, len, seed);
        SipIs(len, len, seed);
    }
  }
}
