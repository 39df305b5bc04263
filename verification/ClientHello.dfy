/** The QUIC and TLS encodings of qinit.c and the ClientHello it builds, and a
    reader that finds the server name in one. */
module ClientHello {
  import opened Wrappers
  import opened Words

  // ---- variable-length integers (section 16 of RFC 9000) ----

  /** The low six bits of x under a two-bit tag, as 0xc0 | x in one byte */
  function Tagged(tag: nat, x: nat): byte
    requires tag < 4
  {
    64 * tag + x % 64
  }

  /** (u8)(v >> k), for p == 2^k */
  function ByteOf(v: nat, p: nat): byte
    requires p > 0
  {
    v / p % 256
  }

  /** The last n bytes of v, big-endian */
  function BeTail(v: nat, n: nat): (m: seq<byte>)
    ensures |m| == n
  {
    if n == 0 then [] else BeTail(v / 256, n - 1) + [v % 256]
  }

  function VarintSize(v: nat): nat {
    if v <= 63 then 1 else if v <= 16383 then 2 else if v <= 1073741823 then 4 else 8
  }

  function TagOf(size: nat): (tag: nat)
    ensures tag < 4
  {
    if size == 1 then 0 else if size == 2 then 1 else if size == 4 then 2 else 3
  }

  function TopUnit(size: nat): nat {
    if size == 1 then 1 else if size == 2 then 0x100 else if size == 4 then 0x100_0000 else 0x100_0000_0000_0000
  }

  function Varint(v: nat): (m: seq<byte>)
    ensures |m| == VarintSize(v)
  {
    var n := VarintSize(v);
    [Tagged(TagOf(n), v / TopUnit(n))] + BeTail(v, n - 1)
  }

  function ReadVarint(m: seq<byte>): Option<(nat, seq<byte>)> {
    if m == [] then None
    else
      var n := if m[0] < 64 then 1 else if m[0] < 128 then 2 else if m[0] < 192 then 4 else 8;
      if n > |m| then None else Some((LoadBe([m[0] % 64] + m[1..n]), m[n..]))
  }

  lemma {:induction false} LoadBeStep(a: seq<byte>, x: byte)
    ensures LoadBe(a + [x]) == 256 * LoadBe(a) + x
  {
    assert (a + [x])[..|a|] == a;
  }

  /** A first digit and the n digits below it */
  lemma {:induction false} LoadBeTail(x: byte, v: nat, n: nat, p: nat)
    requires p == Pow2(8 * n)
    ensures LoadBe([x] + BeTail(v, n)) == x * p + v % p
    decreases n
  {
    if n == 0 {
      LoadBeStep([], x);
      assert [] + [x] == [x] + BeTail(v, 0);
    } else {
      var h := Pow2(8 * (n - 1));
      Pow2Add(8 * (n - 1), 8);
      assert Pow2(8) == 256;
      var t := BeTail(v / 256, n - 1);
      assert [x] + BeTail(v, n) == [x] + t + [v % 256];
      hide Pow2, BeTail, LoadBe;
      LoadBeStep([x] + t, v % 256);
      LoadBeTail(x, v / 256, n - 1, h);
      LastDigit(x, v, h, p);
    }
  }

  lemma {:induction false} LastDigit(x: nat, v: nat, h: nat, p: nat)
    requires h > 0 && p == h * 256
    ensures 256 * (x * h + v / 256 % h) + v % 256 == x * p + v % p
  {
    ModParts(v, 256);
    ModParts(v / 256, h);
    var q, r := v / 256 / h, v / 256 % h;
    assert v == 256 * (h * q + r) + v % 256;
    Associate(256, h, q);
    Associate(x, h, 256);
    DivUnique(v, 256 * h, q, 256 * r + v % 256);
  }

  lemma {:induction false} TopDigit(v: nat, p: nat)
    requires p > 0
    ensures v / p % 64 * p + v % p == v % (64 * p)
  {
    ModParts(v, p);
    ModParts(v / p, 64);
    var q, r := v / p / 64, v / p % 64;
    assert v == p * (64 * q + r) + v % p;
    Associate(p, 64, q);
    MulAtLeast(64 - r, p);
    DivUnique(v, 64 * p, q, r * p + v % p);
  }

  lemma {:induction false} TopUnitIs(v: nat)
    ensures Pow2(8 * (VarintSize(v) - 1)) == TopUnit(VarintSize(v))
  {
    hide Pow2;
    SmallPowers();
    Powers();
    Pow2Is(48, 0x1_0000_0000_0000, 8, 0x100);
    assert Pow2(0) == 1 by { Pow2Add(0, 8); }
  }

  lemma {:induction false} VarintParts(v: nat, rest: seq<byte>)
    ensures var n := VarintSize(v) - 1; var p := TopUnit(n + 1);
      ReadVarint(Varint(v) + rest) == Some((LoadBe([v / p % 64] + BeTail(v, n)), rest))
  {
    hide BeTail, LoadBe, VarintSize;
    assert VarintSize(v) == 1 || VarintSize(v) == 2 || VarintSize(v) == 4 || VarintSize(v) == 8 by { Sizes(v); }
    var size := VarintSize(v);
    var m := Varint(v) + rest;
    assert m[0] == Tagged(TagOf(size), v / TopUnit(size));
    assert m[1..size] == BeTail(v, size - 1) && m[size..] == rest;
  }

  lemma Sizes(v: nat)
    ensures VarintSize(v) == 1 || VarintSize(v) == 2 || VarintSize(v) == 4 || VarintSize(v) == 8
  {
  }

  lemma {:induction false} VarintValue(v: nat, rest: seq<byte>, p: nat)
    requires p == TopUnit(VarintSize(v))
    ensures ReadVarint(Varint(v) + rest) == Some((v % (64 * p), rest))
  {
    TopUnitIs(v);
    VarintParts(v, rest);
    hide Pow2, BeTail, LoadBe, ReadVarint, Varint, TopUnit, VarintSize;
    LoadBeTail(v / p % 64, v, VarintSize(v) - 1, p);
    TopDigit(v, p);
  }

  /** A number of 64 bits is read back if and only if it is below 2^62. */
  lemma {:induction false} VarintReads(v: nat, rest: seq<byte>)
    requires v < 0x1_0000_0000_0000_0000
    ensures v < 0x4000_0000_0000_0000 <==> ReadVarint(Varint(v) + rest) == Some((v, rest))
  {
    var p := TopUnit(VarintSize(v));
    VarintValue(v, rest, p);
    hide ReadVarint, Varint;
    if v < 64 * p {
      DivUnique(v, 64 * p, 0, v);
    } else {
      assert v % (64 * p) < 64 * p <= v;
    }
  }

  lemma {:induction false} DivTwice(v: nat, a: nat, b: nat)
    requires a > 0 && b > 0
    ensures a * b > 0 && v / a / b == v / (b * a)
  {
    MulAtLeast(a, b);
    ModParts(v, a);
    ModParts(v / a, b);
    var q, r := v / a / b, v / a % b;
    assert v == a * (b * q + r) + v % a;
    Associate(a, b, q);
    MulAtLeast(b - r, a);
    DivUnique(v, b * a, q, a * r + v % a);
  }

  lemma {:induction false} BeTailAt(v: nat, n: nat, i: nat, p: nat)
    requires i < n && p == Pow2(8 * (n - 1 - i))
    ensures BeTail(v, n)[i] == ByteOf(v, p)
    decreases n
  {
    if i < n - 1 {
      var h := Pow2(8 * (n - 2 - i));
      BeTailAt(v / 256, n - 1, i, h);
      Pow2Add(8 * (n - 2 - i), 8);
      assert Pow2(8) == 256;
      hide Pow2;
      DivTwice(v, 256, h);
    } else {
      assert Pow2(0) == 1;
    }
  }

  lemma {:induction false} BeTail3(v: nat)
    ensures BeTail(v, 1) == [ByteOf(v, 1)]
    ensures BeTail(v, 3) == [ByteOf(v, 0x1_0000), ByteOf(v, 0x100), ByteOf(v, 1)]
  {
    assert Pow2(0) == 1;
    hide Pow2, BeTail, ByteOf;
    SmallPowers();
    BeTailAt(v, 1, 0, 1);
    BeTailAt(v, 3, 0, 0x1_0000);
    BeTailAt(v, 3, 1, 0x100);
    BeTailAt(v, 3, 2, 1);
  }

  lemma {:induction false} BytePowers()
    ensures Pow2(0) == 1 && Pow2(8) == 0x100 && Pow2(16) == 0x1_0000 && Pow2(24) == 0x100_0000
    ensures Pow2(32) == 0x1_0000_0000 && Pow2(40) == 0x100_0000_0000 && Pow2(48) == 0x1_0000_0000_0000
  {
    assert Pow2(0) == 1;
    hide Pow2;
    SmallPowers();
    Powers();
    Pow2Is(32, 0x1_0000_0000, 8, 0x100);
  }

  lemma {:induction false} BeTailUpper(v: nat)
    ensures BeTail(v, 7)[0] == ByteOf(v, 0x1_0000_0000_0000) && BeTail(v, 7)[1] == ByteOf(v, 0x100_0000_0000)
    ensures BeTail(v, 7)[2] == ByteOf(v, 0x1_0000_0000) && BeTail(v, 7)[3] == ByteOf(v, 0x100_0000)
  {
    hide Pow2, BeTail, ByteOf;
    BytePowers();
    BeTailAt(v, 7, 0, 0x1_0000_0000_0000);
    BeTailAt(v, 7, 1, 0x100_0000_0000);
    BeTailAt(v, 7, 2, 0x1_0000_0000);
    BeTailAt(v, 7, 3, 0x100_0000);
  }

  lemma {:induction false} BeTailLower(v: nat)
    ensures BeTail(v, 7)[4] == ByteOf(v, 0x1_0000) && BeTail(v, 7)[5] == ByteOf(v, 0x100)
    ensures BeTail(v, 7)[6] == ByteOf(v, 1)
  {
    hide Pow2, BeTail, ByteOf;
    BytePowers();
    BeTailAt(v, 7, 4, 0x1_0000);
    BeTailAt(v, 7, 5, 0x100);
    BeTailAt(v, 7, 6, 1);
  }

  lemma {:induction false} BeTail7(v: nat)
    ensures BeTail(v, 7) ==
      [ByteOf(v, 0x1_0000_0000_0000), ByteOf(v, 0x100_0000_0000), ByteOf(v, 0x1_0000_0000), ByteOf(v, 0x100_0000),
       ByteOf(v, 0x1_0000), ByteOf(v, 0x100), ByteOf(v, 1)]
  {
    hide BeTail, ByteOf;
    BeTailUpper(v);
    BeTailLower(v);
  }

  // ---- vectors ----

  function U8Vec(body: seq<byte>): (m: seq<byte>)
    ensures |m| == 1 + |body|
  {
    [|body| % 256] + body
  }

  function U16Vec(body: seq<byte>): (m: seq<byte>)
    ensures |m| == 2 + |body|
  {
    Be16(|body|) + body
  }

  function Ext(kind: nat, data: seq<byte>): (m: seq<byte>)
    ensures |m| == 4 + |data|
  {
    Be16(kind) + U16Vec(data)
  }

  function ReadU8Vec(m: seq<byte>): Option<(seq<byte>, seq<byte>)> {
    if |m| < 1 || 1 + m[0] > |m| then None else Some((m[1..1 + m[0]], m[1 + m[0]..]))
  }

  function ReadU16Vec(m: seq<byte>): Option<(seq<byte>, seq<byte>)> {
    if |m| < 2 || 2 + Get16(m, 0) > |m| then None
    else Some((m[2..2 + Get16(m, 0)], m[2 + Get16(m, 0)..]))
  }

  lemma {:induction false} U8VecReads(body: seq<byte>, rest: seq<byte>)
    requires |body| < 256
    ensures ReadU8Vec(U8Vec(body) + rest) == Some((body, rest))
  {
    var m := U8Vec(body) + rest;
    assert m[1..1 + |body|] == body && m[1 + |body|..] == rest;
  }

  lemma {:induction false} U16VecReads(body: seq<byte>, rest: seq<byte>)
    requires |body| < 0x1_0000
    ensures ReadU16Vec(U16Vec(body) + rest) == Some((body, rest))
  {
    var m := U16Vec(body) + rest;
    assert m[2..2 + |body|] == body && m[2 + |body|..] == rest;
    assert m[0..2] == Be16(|body|);
    hide Be16, Get16;
    Get16At(m, 0, |body|);
  }

  // ---- the message and its reader ----

  function ServerNames(name: seq<byte>): seq<byte> {
    U16Vec([0] + U16Vec(name))
  }

  function KeyShare(pub: seq<byte>): seq<byte> {
    U16Vec(Be16(0x1d) + U16Vec(pub))
  }

  function Offered(name: seq<byte>, pub: seq<byte>, scid: seq<byte>): seq<Extension> {
    [Extension(0x0000, ServerNames(name)), Extension(0x002b, U8Vec([3, 4])), Extension(0x000a, U16Vec([0, 0x1d])),
     Extension(0x0033, KeyShare(pub)), Extension(0x000d, U16Vec([4, 3, 8, 4, 4, 1])),
     Extension(0x0010, U16Vec(U8Vec([0x68, 0x33]))), Extension(0x0039, [0x0f] + U8Vec(scid))]
  }

  function Joined(list: seq<Extension>): seq<byte> {
    if list == [] then [] else Joined(list[..|list| - 1]) + Ext(Last(list).kind, Last(list).data)
  }

  function Last(list: seq<Extension>): Extension
    requires list != []
  {
    list[|list| - 1]
  }

  function Body(random: seq<byte>, extensions: seq<byte>): seq<byte> {
    [3, 3] + random + U8Vec([]) + U16Vec([0x13, 1, 0x13, 2, 0x13, 3]) + U8Vec([0]) + U16Vec(extensions)
  }

  function Be24(v: nat): (m: seq<byte>)
    ensures |m| == 3
  {
    [v / 0x1_0000 % 256] + Be16(v)
  }

  function Hello(name: seq<byte>, pub: seq<byte>, random: seq<byte>, scid: seq<byte>): seq<byte> {
    var body := Body(random, Joined(Offered(name, pub, scid)));
    [1] + Be24(|body|) + body
  }

  datatype Extension = Extension(kind: nat, data: seq<byte>)

  /** A whole block of extensions (section 4.2 of RFC 8446) */
  function ReadExts(m: seq<byte>): Option<seq<Extension>>
    decreases |m|
  {
    if m == [] then Some([])
    else if |m| < 2 then None
    else
      match ReadU16Vec(m[2..])
      case None => None
      case Some((data, rest)) =>
        match ReadExts(rest) case None => None case Some(more) => Some([Extension(Get16(m, 0), data)] + more)
  }

  /** The host name of a list of server names (section 3 of RFC 6066) */
  function HostName(m: seq<byte>): Option<seq<byte>> {
    match ReadU16Vec(m)
    case None => None
    case Some((list, _)) =>
      if list == [] || list[0] != 0 then None
      else match ReadU16Vec(list[1..]) case None => None case Some((name, _)) => Some(name)
  }

  /** The extensions of the body of a ClientHello (section 4.1.2 of RFC 8446) */
  function ReadBody(body: seq<byte>): Option<seq<byte>> {
    if |body| < 34 then None
    else
      match ReadU8Vec(body[34..])
      case None => None
      case Some((_, suites)) =>
        match ReadU16Vec(suites)
        case None => None
        case Some((_, compression)) =>
          match ReadU8Vec(compression)
          case None => None
          case Some((_, last)) =>
            match ReadU16Vec(last)
            case None => None
            case Some((extensions, rest)) => if rest == [] then Some(extensions) else None
  }

  /** The random bytes and the extensions of a ClientHello message */
  function ReadHello(m: seq<byte>): Option<(seq<byte>, seq<Extension>)> {
    if |m| < 38 || m[0] != 1 || 0x1_0000 * (m[1] as int) + Get16(m, 2) != |m| - 4 then None
    else
      match ReadBody(m[4..])
      case None => None
      case Some(extensions) =>
        match ReadExts(extensions) case None => None case Some(list) => Some((m[6..38], list))
  }

  function NameAmong(list: seq<Extension>): Option<seq<byte>> {
    if list == [] then None else if list[0].kind == 0 then HostName(list[0].data) else NameAmong(list[1..])
  }

  function ServerName(m: seq<byte>): Option<seq<byte>> {
    match ReadHello(m) case None => None case Some((_, list)) => NameAmong(list)
  }

  lemma {:induction false} HostNameReads(name: seq<byte>)
    requires |name| < 0xfffd
    ensures HostName(ServerNames(name)) == Some(name)
  {
    hide ReadU16Vec, U16Vec;
    var list := [0] + U16Vec(name);
    U16VecReads(list, []);
    assert U16Vec(list) + [] == U16Vec(list);
    assert list[1..] == U16Vec(name) + [];
    U16VecReads(name, []);
  }

  lemma {:induction false} ExtReads(e: Extension, rest: seq<byte>, more: seq<Extension>)
    requires |e.data| < 0x1_0000 && e.kind < 0x1_0000 && ReadExts(rest) == Some(more)
    ensures ReadExts(Ext(e.kind, e.data) + rest) == Some([e] + more)
  {
    hide ReadU16Vec, U16Vec, Be16, Get16;
    var m := Ext(e.kind, e.data) + rest;
    assert m[0..2] == Be16(e.kind);
    Get16At(m, 0, e.kind);
    assert m[2..] == U16Vec(e.data) + rest;
    U16VecReads(e.data, rest);
  }

  lemma {:induction false} JoinedReads(list: seq<Extension>, rest: seq<byte>, more: seq<Extension>)
    requires forall e :: e in list ==> |e.data| < 0x1_0000 && e.kind < 0x1_0000
    requires ReadExts(rest) == Some(more)
    ensures ReadExts(Joined(list) + rest) == Some(list + more)
  {
    if list == [] {
      assert Joined(list) + rest == rest && list + more == more;
    } else {
      hide ReadExts, Ext;
      var e, init := Last(list), list[..|list| - 1];
      assert Joined(list) == Joined(init) + Ext(e.kind, e.data);
      hide Joined;
      assert Joined(init) + Ext(e.kind, e.data) + rest == Joined(init) + (Ext(e.kind, e.data) + rest);
      assert list == init + [e] && init + [e] + more == init + ([e] + more);
      assert forall x :: x in init ==> x in list;
      ExtReads(e, rest, more);
      JoinedReads(init, Ext(e.kind, e.data) + rest, [e] + more);
    }
  }

  lemma {:induction false} BodyReads(random: seq<byte>, extensions: seq<byte>)
    requires |random| == 32 && |extensions| < 0x1_0000
    ensures ReadBody(Body(random, extensions)) == Some(extensions)
  {
    hide ReadU16Vec, U16Vec, ReadU8Vec, U8Vec;
    var last := U16Vec(extensions) + [];
    var compression := U8Vec([0]) + last;
    var suites := U16Vec([0x13, 1, 0x13, 2, 0x13, 3]) + compression;
    var session := U8Vec([]) + suites;
    var body := Body(random, extensions);
    assert body == [3, 3] + random + session;
    assert body[34..] == session;
    U8VecReads([], suites);
    U16VecReads([0x13, 1, 0x13, 2, 0x13, 3], compression);
    U8VecReads([0], last);
    U16VecReads(extensions, []);
  }

  lemma {:induction false} JoinedSize(list: seq<Extension>)
    ensures |Joined(list)| == 4 * |list| + Total(list)
  {
    if list != [] {
      JoinedSize(list[..|list| - 1]);
    }
  }

  function Total(list: seq<Extension>): nat {
    if list == [] then 0 else Total(list[..|list| - 1]) + |Last(list).data|
  }

  lemma {:induction false} TotalGrows(list: seq<Extension>, e: Extension)
    ensures Total(list + [e]) == Total(list) + |e.data|
    ensures Joined(list + [e]) == Joined(list) + Ext(e.kind, e.data)
  {
    assert (list + [e])[..|list|] == list;
  }

  lemma {:induction false} OfferedSize(name: seq<byte>, pub: seq<byte>, scid: seq<byte>)
    ensures |Joined(Offered(name, pub, scid))| == 61 + |name| + |pub| + |scid|
  {
    var l := Offered(name, pub, scid);
    JoinedSize(l);
    assert Total([]) == 0;
    hide Joined, Total, U8Vec, U16Vec;
    assert l == [] + [l[0]] + [l[1]] + [l[2]] + [l[3]] + [l[4]] + [l[5]] + [l[6]];
    TotalGrows([], l[0]);
    TotalGrows([] + [l[0]], l[1]);
    TotalGrows([] + [l[0]] + [l[1]], l[2]);
    TotalGrows([] + [l[0]] + [l[1]] + [l[2]], l[3]);
    TotalGrows([] + [l[0]] + [l[1]] + [l[2]] + [l[3]], l[4]);
    TotalGrows([] + [l[0]] + [l[1]] + [l[2]] + [l[3]] + [l[4]], l[5]);
    TotalGrows([] + [l[0]] + [l[1]] + [l[2]] + [l[3]] + [l[4]] + [l[5]], l[6]);
  }

  lemma {:induction false} HelloSize(name: seq<byte>, pub: seq<byte>, random: seq<byte>, scid: seq<byte>)
    ensures |Hello(name, pub, random, scid)| == 80 + |name| + |pub| + |random| + |scid|
  {
    hide U8Vec, U16Vec, Joined, Offered;
    OfferedSize(name, pub, scid);
  }

  lemma NoExts()
    ensures ReadExts([]) == Some([])
  {
  }

  /** The reader finds what the message was built with, the name among it. */
  lemma {:induction false} HelloReads(name: seq<byte>, pub: seq<byte>, random: seq<byte>, scid: seq<byte>)
    requires |random| == 32 && |name| + |pub| + |scid| < 0xff00
    ensures ReadHello(Hello(name, pub, random, scid)) == Some((random, Offered(name, pub, scid)))
    ensures ServerName(Hello(name, pub, random, scid)) == Some(name)
  {
    var list := Offered(name, pub, scid);
    var extensions := Joined(list);
    var body := Body(random, extensions);
    var m := Hello(name, pub, random, scid);
    OfferedSize(name, pub, scid);
    NoExts();
    hide Joined, ReadExts, HostName, ReadBody, Get16, Be16, U8Vec, U16Vec, Ext;
    assert |body| == 47 + |extensions|;
    assert m[4..] == body && m[2..4] == Be16(|body|) && m[6..38] == random;
    Get16At(m, 2, |body|);
    BodyReads(random, extensions);
    JoinedReads(list, [], []);
    assert extensions + [] == extensions && list + [] == list;
    HostNameReads(name);
  }

  // ---- the code ----

  /** The n bytes of a tape from at on */
  function Slice(tape: nat -> byte, at: nat, n: nat): (m: seq<byte>)
    ensures |m| == n
  {
    seq(n, i requires 0 <= i < n => tape(at + i))
  }

  /** The callback that draws random bytes, reading along a tape of them */
  class Random {
    const tape: nat -> byte
    var drawn: nat

    constructor (tape: nat -> byte)
      ensures this.tape == tape && drawn == 0
    {
      this.tape, drawn := tape, 0;
    }

    method Draw(n: nat) returns (m: seq<byte>)
      modifies this
      ensures m == Slice(tape, old(drawn), n) && drawn == old(drawn) + n
    {
      m := Slice(tape, drawn, n);
      drawn := drawn + n;
    }
  }

  /** What a write pointer p has behind it: done, over what was there */
  ghost predicate At(buf: array<byte>, was: seq<byte>, done: seq<byte>, p: nat)
    reads buf
  {
    p == |done| <= |was| && buf[..] == Written(was, 0, done)
  }

  lemma AtSlice(buf: array<byte>, was: seq<byte>, done: seq<byte>, p: nat)
    requires At(buf, was, done, p)
    ensures p == |done| <= buf.Length && buf[..p] == done
  {
    assert buf[..p] == buf[..][..p];
  }

  method Append(buf: array<byte>, p: nat, data: seq<byte>, ghost was: seq<byte>, ghost done: seq<byte>)
    returns (q: nat)
    requires At(buf, was, done, p) && p + |data| <= buf.Length
    modifies buf
    ensures q == p + |data| && At(buf, was, done + data, q)
  {
    WrittenOn(was, 0, done, data);
    hide Written;
    Put(buf, p, data);
    q := p + |data|;
  }

  /** qinit_put_varint */
  method PutVarint(buf: array<byte>, p: nat, v: nat, ghost was: seq<byte>, ghost done: seq<byte>) returns (q: nat)
    requires At(buf, was, done, p) && p + VarintSize(v) <= buf.Length
    modifies buf
    ensures q == p + VarintSize(v) && At(buf, was, done + Varint(v), q)
  {
    var m := VarintBytes(v);
    hide At, Varint, VarintSize;
    q := Append(buf, p, m, was, done);
  }

  method VarintBytes(v: nat) returns (m: seq<byte>)
    ensures m == Varint(v)
  {
    hide BeTail, ByteOf;
    if v <= 63 {
      BeTail0(v);
      m := [v];
    } else if v <= 16383 {
      BeTail3(v);
      m := [Tagged(1, v / 0x100), ByteOf(v, 1)];
    } else if v <= 1073741823 {
      BeTail3(v);
      m := [Tagged(2, v / 0x100_0000), ByteOf(v, 0x1_0000), ByteOf(v, 0x100), ByteOf(v, 1)];
    } else {
      m := EightBytes(v);
    }
  }

  method EightBytes(v: nat) returns (m: seq<byte>)
    requires v > 1073741823
    ensures m == Varint(v)
  {
    hide BeTail, ByteOf, Tagged;
    BeTail7(v);
    m := [Tagged(3, v / 0x100_0000_0000_0000), ByteOf(v, 0x1_0000_0000_0000), ByteOf(v, 0x100_0000_0000),
          ByteOf(v, 0x1_0000_0000), ByteOf(v, 0x100_0000), ByteOf(v, 0x1_0000), ByteOf(v, 0x100), ByteOf(v, 1)];
    assert m == [m[0]] + m[1..];
  }

  lemma BeTail0(v: nat)
    ensures BeTail(v, 0) == []
  {
  }

  /** qinit_put_u8vec */
  method PutU8Vec(buf: array<byte>, p: nat, body: seq<byte>, ghost was: seq<byte>, ghost done: seq<byte>)
    returns (q: nat)
    requires At(buf, was, done, p) && p + 1 + |body| <= buf.Length
    modifies buf
    ensures q == p + 1 + |body| && At(buf, was, done + U8Vec(body), q)
  {
    hide At;
    q := Append(buf, p, [|body| % 256], was, done);
    q := Append(buf, q, body, was, done + [|body| % 256]);
    assert done + [|body| % 256] + body == done + U8Vec(body);
  }

  /** qinit_put_u16vec */
  method PutU16Vec(buf: array<byte>, p: nat, body: seq<byte>, ghost was: seq<byte>, ghost done: seq<byte>)
    returns (q: nat)
    requires At(buf, was, done, p) && p + 2 + |body| <= buf.Length
    modifies buf
    ensures q == p + 2 + |body| && At(buf, was, done + U16Vec(body), q)
  {
    hide At;
    q := Append(buf, p, [|body| / 256 % 256, |body| % 256], was, done);
    q := Append(buf, q, body, was, done + Be16(|body|));
    assert done + Be16(|body|) + body == done + U16Vec(body);
  }

  /** qinit_put_ext */
  method PutExt(buf: array<byte>, p: nat, e: Extension, ghost was: seq<byte>, ghost list: seq<Extension>)
    returns (q: nat)
    requires At(buf, was, Joined(list), p) && p + 4 + |e.data| <= buf.Length
    modifies buf
    ensures q == p + 4 + |e.data| && At(buf, was, Joined(list + [e]), q)
  {
    TotalGrows(list, e);
    hide At, Joined, U16Vec;
    ghost var done := Joined(list);
    q := Append(buf, p, [e.kind / 256 % 256, e.kind % 256], was, done);
    q := PutU16Vec(buf, q, e.data, was, done + Be16(e.kind));
    assert done + Be16(e.kind) + U16Vec(e.data) == done + Ext(e.kind, e.data);
  }

  /** A vector built in a scratch buffer of its own */
  method Scratch16(size: nat, body: seq<byte>) returns (m: seq<byte>)
    requires 2 + |body| <= size
    ensures m == U16Vec(body)
  {
    hide U16Vec;
    var a := new byte[size];
    assert a[..] == Written(a[..], 0, []);
    ghost var was := a[..];
    var p := PutU16Vec(a, 0, body, was, []);
    assert [] + U16Vec(body) == U16Vec(body);
    m := a[..p];
  }

  method Scratch8(size: nat, body: seq<byte>) returns (m: seq<byte>)
    requires 1 + |body| <= size
    ensures m == U8Vec(body)
  {
    hide U8Vec;
    var a := new byte[size];
    assert a[..] == Written(a[..], 0, []);
    ghost var was := a[..];
    var p := PutU8Vec(a, 0, body, was, []);
    assert [] + U8Vec(body) == U8Vec(body);
    m := a[..p];
  }

  /** The part of the extension block between its start and the write pointer */
  method BuildExtensions(exts: array<byte>, name: seq<byte>, pub: seq<byte>, scid: seq<byte>) returns (ep: nat)
    requires exts.Length == 512 && |name| <= 255 && |pub| == 32 && |scid| <= 20
    modifies exts
    ensures ep == |Joined(Offered(name, pub, scid))| <= 512
    ensures exts[..ep] == Joined(Offered(name, pub, scid))
  {
    OfferedSize(name, pub, scid);
    ghost var list := Offered(name, pub, scid);
    ghost var was := exts[..];
    assert Joined(list[..0]) == [] && At(exts, was, Joined(list[..0]), 0);
    hide Joined, At, U8Vec, U16Vec;
    var sniList := Scratch16(2 + 255, name);
    sniList := Scratch16(2 + 3 + 255, [0] + sniList);
    ep := PutExt(exts, 0, Extension(0x0000, sniList), was, list[..0]);
    assert list[..0] + [list[0]] == list[..1];
    var sv := Scratch8(1 + 2, [3, 4]);
    ep := PutExt(exts, ep, Extension(0x002b, sv), was, list[..1]);
    assert list[..1] + [list[1]] == list[..2];
    var sg := Scratch16(2 + 2, [0, 0x1d]);
    ep := PutExt(exts, ep, Extension(0x000a, sg), was, list[..2]);
    assert list[..2] + [list[2]] == list[..3];
    ep := BuildShareAndRest(exts, ep, name, pub, scid, was);
    AtSlice(exts, was, Joined(list), ep);
  }

  method BuildShareAndRest(exts: array<byte>, p: nat, ghost name: seq<byte>, pub: seq<byte>, scid: seq<byte>,
    ghost was: seq<byte>) returns (ep: nat)
    requires exts.Length == 512 && p <= 260 + 27 && |pub| == 32 && |scid| <= 20
    requires At(exts, was, Joined(Offered(name, pub, scid)[..3]), p)
    modifies exts
    ensures At(exts, was, Joined(Offered(name, pub, scid)), ep) && ep <= 512
  {
    ghost var list := Offered(name, pub, scid);
    hide Joined, At, U8Vec, U16Vec;
    var ks := Scratch16(2 + 32, pub);
    ks := Scratch16(2 + 2 + 2 + 32, [0, 0x1d] + ks);
    ep := PutExt(exts, p, Extension(0x0033, ks), was, list[..3]);
    assert list[..3] + [list[3]] == list[..4];
    var sa := Scratch16(2 + 6, [4, 3, 8, 4, 4, 1]);
    ep := PutExt(exts, ep, Extension(0x000d, sa), was, list[..4]);
    assert list[..4] + [list[4]] == list[..5];
    var alpn := Scratch8(1 + 2, [0x68, 0x33]);
    alpn := Scratch16(2 + 3, alpn);
    ep := PutExt(exts, ep, Extension(0x0010, alpn), was, list[..5]);
    assert list[..5] + [list[5]] == list[..6];
    var qtp := Scratch8(1 + 20, scid);
    ep := PutExt(exts, ep, Extension(0x0039, [0x0f] + qtp), was, list[..6]);
    assert list[..6] + [list[6]] == list;
  }

  /** The bytes of a C string */
  function Name(str: seq<byte>): (name: seq<byte>)
    requires 0 in str
    ensures |name| < |str| && name == str[..|name|] && str[|name|] == 0 && 0 !in name
  {
    if str[0] == 0 then [] else [str[0]] + Name(str[1..])
  }

  method NameLength(str: seq<byte>) returns (n: nat)
    requires 0 in str
    ensures n == |Name(str)|
  {
    n := 0;
    while str[n] != 0
      invariant n <= |Name(str)|
      decreases |str| - n
    {
      n := n + 1;
    }
  }

  method BuildBody(body: array<byte>, random: seq<byte>, extensions: seq<byte>) returns (bp: nat)
    requires body.Length == 512 && |random| == 32 && |extensions| <= 512 - 47
    modifies body
    ensures bp == |Body(random, extensions)| <= 512 && body[..bp] == Body(random, extensions)
  {
    hide At, U8Vec, U16Vec;
    ghost var was := body[..];
    assert At(body, was, [], 0) by { Start(body); }
    bp := Append(body, 0, [3, 3], was, []);
    ghost var done := [] + [3, 3];
    bp := Append(body, bp, random, was, done);
    done := done + random;
    bp := PutU8Vec(body, bp, [], was, done);
    done := done + U8Vec([]);
    bp := PutU16Vec(body, bp, [0x13, 1, 0x13, 2, 0x13, 3], was, done);
    done := done + U16Vec([0x13, 1, 0x13, 2, 0x13, 3]);
    bp := PutU8Vec(body, bp, [0], was, done);
    done := done + U8Vec([0]);
    bp := PutU16Vec(body, bp, extensions, was, done);
    AtSlice(body, was, done + U16Vec(extensions), bp);
    assert [] + [3, 3] == [3, 3];
  }

  lemma Start(buf: array<byte>)
    ensures At(buf, buf[..], [], 0)
  {
  }

  /** qinit_build_client_hello */
  method BuildHello(out: array<byte>, str: seq<byte>, scid: seq<byte>, rand: Random) returns (n: int)
    requires 0 in str && |scid| <= 20 && out.Length == 512
    modifies out, rand
    ensures 1 <= |Name(str)| <= 255 ==>
      && rand.drawn == old(rand.drawn) + 64
      && var hello := Hello(Name(str), Slice(rand.tape, old(rand.drawn), 32), Slice(rand.tape, old(rand.drawn) + 32, 32), scid);
      && n == |hello| <= 512 && out[..] == Written(old(out[..]), 0, hello)
    ensures !(1 <= |Name(str)| <= 255) ==> n == -1 && unchanged(out) && unchanged(rand)
  {
    var snilen := NameLength(str);
    if snilen > 255 || snilen == 0 {
      return -1;
    }
    var name := str[..snilen];
    var pub := rand.Draw(32);
    var random := rand.Draw(32);
    OfferedSize(name, pub, scid);
    HelloSize(name, pub, random, scid);
    hide Joined, Offered, Body, Be24;
    var exts := new byte[512];
    var body := new byte[512];
    var extlen := BuildExtensions(exts, name, pub, scid);
    var bodylen := BuildBody(body, random, exts[..extlen]);
    n := Wrap(out, body[..bodylen]);
  }

  /** The handshake header and the body behind it */
  method Wrap(out: array<byte>, body: seq<byte>) returns (n: nat)
    requires 4 + |body| <= out.Length
    modifies out
    ensures n == 4 + |body| && out[..] == Written(old(out[..]), 0, [1] + Be24(|body|) + body)
  {
    n := |body|;
    out[0], out[1], out[2], out[3] := 1, n / 0x1_0000 % 256, n / 256 % 256, n % 256;
    Put(out, 4, body);
    n := n + 4;
  }
}
