/** Machine words as natural numbers: bits, exclusive or, find-last-set, and
    the little- and big-endian layouts of a word in memory. */
module Words {
  type byte = x: int | 0 <= x < 256
  type Block = s: seq<byte> | |s| == 16 witness seq(16, _ => 0)
  newtype u32 = x: int | 0 <= x < 0x1_0000_0000
  newtype u64 = x: int | 0 <= x < 0x1_0000_0000_0000_0000
  newtype u128 = x: int | 0 <= x < 0x1_0000_0000_0000_0000_0000_0000_0000_0000

  function Pow2(n: nat): (r: nat)
    ensures r >= 1
  {
    if n == 0 then 1 else 2 * Pow2(n - 1)
  }

  /** Bit i of x, counted from the least significant one. */
  predicate Bit(x: nat, i: nat)
    decreases i
  {
    if i == 0 then x % 2 == 1 else Bit(x / 2, i - 1)
  }

  /** x ^ y on words of any width. */
  function Xor(x: nat, y: nat): nat {
    if x == 0 && y == 0 then 0
    else (x + y) % 2 + 2 * Xor(x / 2, y / 2)
  }

  /** x & y on words of any width. */
  function And(x: nat, y: nat): nat {
    if x == 0 || y == 0 then 0
    else (if x % 2 == 1 && y % 2 == 1 then 1 else 0) + 2 * And(x / 2, y / 2)
  }

  /** fls()/fls64(): one more than the index of the highest set bit, 0 for 0. */
  function Fls(x: nat): nat {
    if x == 0 then 0 else 1 + Fls(x / 2)
  }

  function LoadLe(m: seq<byte>): nat {
    if m == [] then 0 else m[0] + 256 * LoadLe(m[1..])
  }

  function LoadBe(m: seq<byte>): nat {
    if m == [] then 0 else 256 * LoadBe(m[..|m| - 1]) + m[|m| - 1]
  }

  function StoreLe(x: nat, n: nat): (m: seq<byte>)
    ensures |m| == n
  {
    if n == 0 then [] else [x % 256] + StoreLe(x / 256, n - 1)
  }

  function Reverse<T>(s: seq<T>): (r: seq<T>)
    ensures |r| == |s|
    ensures forall i :: 0 <= i < |s| ==> r[i] == s[|s| - 1 - i]
  {
    if s == [] then [] else [s[|s| - 1]] + Reverse(s[..|s| - 1])
  }

  lemma {:induction false} StoreLeOfLoadBe(m: seq<byte>)
    ensures StoreLe(LoadBe(m), |m|) == Reverse(m)
  {
    if m != [] {
      StoreLeOfLoadBe(m[..|m| - 1]);
    }
  }

  lemma {:induction false} LoadLeBound(m: seq<byte>)
    ensures LoadLe(m) < Pow2(8 * |m|)
  {
    if m != [] {
      Pow2Add(8, 8 * (|m| - 1));
      assert Pow2(8) == 256;
      LoadLeBound(m[1..]);
    }
  }

  lemma {:induction false} LoadLeConcat(a: seq<byte>, b: seq<byte>)
    ensures LoadLe(a + b) == LoadLe(a) + Pow2(8 * |a|) * LoadLe(b)
  {
    if a == [] {
      assert a + b == b;
    } else {
      LoadLeConcat(a[1..], b);
      assert (a + b)[1..] == a[1..] + b;
      Pow2Add(8, 8 * (|a| - 1));
      assert Pow2(8) == 256;
      assert 256 * (Pow2(8 * (|a| - 1)) * LoadLe(b)) == Pow2(8 * |a|) * LoadLe(b);
    }
  }

  lemma {:induction false} Pow2Add(a: nat, b: nat)
    ensures Pow2(a + b) == Pow2(a) * Pow2(b)
  {
    if a > 0 {
      Pow2Add(a - 1, b);
    }
  }

  /** (x >> i) & 1 is bit i. */
  lemma {:induction false} ShiftIsBit(x: nat, i: nat)
    ensures Bit(x, i) <==> (x / Pow2(i)) % 2 == 1
  {
    if i > 0 {
      ShiftIsBit(x / 2, i - 1);
      DivDiv(x, Pow2(i - 1));
    }
  }

  lemma {:induction false} DivDiv(x: nat, d: nat)
    requires d > 0
    ensures x / 2 / d == x / (2 * d)
  {
    var q := x / 2 / d;
    var r := x / 2 % d;
    var b := x % 2;
    assert x == 2 * (q * d + r) + b;
    assert x == q * (2 * d) + (2 * r + b);
    DivUnique(x, 2 * d, q, 2 * r + b);
  }

  lemma {:induction false} MulAtLeast(k: int, d: int)
    requires k >= 1 && d > 0
    ensures k * d >= d
  {
  }

  lemma {:induction false} MulNonNegative(k: int, d: int)
    requires k >= 0 && d >= 0
    ensures k * d >= 0
  {
  }

  lemma {:induction false} ModParts(x: nat, d: nat)
    requires d > 0
    ensures x == d * (x / d) + x % d && x / d >= 0 && 0 <= x % d <= x
  {
    MulNonNegative(x / d, d);
  }

  lemma {:induction false} DivUnique(x: int, d: int, q: int, r: int)
    requires d > 0 && x == q * d + r && 0 <= r < d
    ensures x / d == q && x % d == r
  {
    var q', r' := x / d, x % d;
    var k := q - q';
    assert k * d == r' - r by {
      assert x == q' * d + r';
      assert (q - q') * d == q * d - q' * d;
    }
    if k >= 1 {
      MulAtLeast(k, d);
    } else if k <= -1 {
      MulAtLeast(-k, d);
    }
  }

  lemma {:induction false} BitLowHigh(b: nat, x: nat, k: nat, i: nat)
    requires b < Pow2(k)
    ensures Bit(b + Pow2(k) * x, i) == if i < k then Bit(b, i) else Bit(x, i - k)
  {
    if k > 0 {
      assert b + Pow2(k) * x == b + 2 * (Pow2(k - 1) * x);
      assert (b + Pow2(k) * x) / 2 == b / 2 + Pow2(k - 1) * x;
      if i > 0 {
        BitLowHigh(b / 2, x, k - 1, i - 1);
      }
    }
  }

  /** Bit i of a little-endian word is bit i % 8 of its byte i / 8. */
  lemma {:induction false} BitOfLoadLe(m: seq<byte>, i: nat)
    requires i < 8 * |m|
    ensures Bit(LoadLe(m), i) == Bit(m[i / 8], i % 8)
  {
    assert Pow2(8) == 256;
    BitLowHigh(m[0], LoadLe(m[1..]), 8, i);
    if i >= 8 {
      BitOfLoadLe(m[1..], i - 8);
      assert (i - 8) / 8 == i / 8 - 1 && (i - 8) % 8 == i % 8;
      assert m[1..][i / 8 - 1] == m[i / 8];
    }
  }

  lemma FlsPositive(x: nat)
    ensures Fls(x) > 0 <==> x != 0
  {
  }

  /** fls(x ^ y) separates the high bits on which x and y agree from the
      highest one on which they differ. */
  lemma {:induction false} FlsOfXor(x: nat, y: nat)
    ensures forall i :: i >= Fls(Xor(x, y)) ==> Bit(x, i) == Bit(y, i)
    ensures var k := Fls(Xor(x, y)); k > 0 ==> Bit(x, k - 1) != Bit(y, k - 1)
  {
    forall i | i >= Fls(Xor(x, y))
      ensures Bit(x, i) == Bit(y, i)
    {
      AgreeAboveFls(x, y, i);
    }
    if Fls(Xor(x, y)) > 0 {
      DifferBelowFls(x, y);
    }
  }

  lemma {:induction false} AgreeAboveFls(x: nat, y: nat, i: nat)
    requires i >= Fls(Xor(x, y))
    ensures Bit(x, i) == Bit(y, i)
    decreases i
  {
    XorParts(x, y);
    if i > 0 {
      AgreeAboveFls(x / 2, y / 2, i - 1);
    }
  }

  lemma {:induction false} DifferBelowFls(x: nat, y: nat)
    requires Fls(Xor(x, y)) > 0
    ensures Bit(x, Fls(Xor(x, y)) - 1) != Bit(y, Fls(Xor(x, y)) - 1)
    decreases x + y
  {
    XorParts(x, y);
    if Fls(Xor(x, y)) > 1 {
      DifferBelowFls(x / 2, y / 2);
    }
  }

  lemma {:induction false} XorParts(x: nat, y: nat)
    ensures Xor(x, y) / 2 == Xor(x / 2, y / 2)
    ensures Xor(x, y) % 2 == if x % 2 == y % 2 then 0 else 1
  {
    XorStep(x, y);
  }

  lemma {:induction false} XorStep(x: nat, y: nat)
    ensures Xor(x, y) == (x + y) % 2 + 2 * Xor(x / 2, y / 2)
  {
  }

  lemma {:induction false} XorZero(x: nat)
    ensures Xor(x, 0) == x
  {
    if x > 0 {
      XorZero(x / 2);
    }
  }

  lemma {:induction false} FlsBound(x: nat, n: nat)
    requires x < Pow2(n)
    ensures Fls(x) <= n
  {
    if n > 0 && x > 0 {
      FlsBound(x / 2, n - 1);
    }
  }

  lemma {:induction false} XorBound(x: nat, y: nat, n: nat)
    requires x < Pow2(n) && y < Pow2(n)
    ensures Xor(x, y) < Pow2(n)
  {
    if n > 0 {
      XorBound(x / 2, y / 2, n - 1);
    }
  }

  function Quad(a: int, b: int, c: int, d: int): int {
    a + 0x100 * b + 0x1_0000 * c + 0x100_0000 * d
  }

  lemma {:induction false} LoadLe4(m: seq<byte>)
    requires |m| == 4
    ensures LoadLe(m) == Quad(m[0], m[1], m[2], m[3])
  {
    assert LoadLe(m[1..]) == m[1] + 256 * LoadLe(m[2..]) by {
      assert m[1..][1..] == m[2..];
    }
    assert LoadLe(m[2..]) == m[2] + 256 * LoadLe(m[3..]) by {
      assert m[2..][1..] == m[3..];
    }
    assert LoadLe(m[3..]) == m[3] by {
      assert m[3..][1..] == [];
    }
  }

  lemma {:induction false} LoadLe16(m: seq<byte>)
    requires |m| == 16
    ensures LoadLe(m) == LoadLe(m[0..4]) + 0x1_0000_0000 * LoadLe(m[4..8]) + 0x1_0000_0000_0000_0000 * LoadLe(m[8..12])
      + 0x1_0000_0000_0000_0000_0000_0000 * LoadLe(m[12..16])
  {
    hide LoadLe, Pow2;
    Powers();
    assert m == m[0..4] + (m[4..8] + (m[8..12] + m[12..16]));
    LoadLeConcat(m[0..4], m[4..8] + (m[8..12] + m[12..16]));
    LoadLeConcat(m[4..8], m[8..12] + m[12..16]);
    LoadLeConcat(m[8..12], m[12..16]);
  }

  function Oct(a: int, b: int, c: int, d: int, e: int, f: int, g: int, h: int): int {
    Quad(a, b, c, d) + 0x1_0000_0000 * Quad(e, f, g, h)
  }

  lemma {:induction false} LoadLe8(m: seq<byte>)
    requires |m| == 8
    ensures LoadLe(m) == Oct(m[0], m[1], m[2], m[3], m[4], m[5], m[6], m[7])
  {
    hide LoadLe, Pow2, Quad;
    Powers();
    assert m == m[0..4] + m[4..8];
    LoadLeConcat(m[0..4], m[4..8]);
    LoadLe4(m[0..4]);
    LoadLe4(m[4..8]);
  }

  lemma {:induction false} Pow2Is(a: nat, x: nat, b: nat, y: nat)
    requires Pow2(a) == x && Pow2(b) == y
    ensures Pow2(a + b) == x * y
  {
    hide Pow2;
    Pow2Add(a, b);
  }

  lemma {:induction false} SmallPowers()
    ensures Pow2(2) == 0x4 && Pow2(4) == 0x10 && Pow2(6) == 0x40 && Pow2(8) == 0x100 && Pow2(10) == 0x400
    ensures Pow2(12) == 0x1000 && Pow2(14) == 0x4000 && Pow2(16) == 0x1_0000 && Pow2(18) == 0x4_0000
    ensures Pow2(20) == 0x10_0000 && Pow2(22) == 0x40_0000 && Pow2(26) == 0x400_0000 && Pow2(28) == 0x1000_0000
    ensures Pow2(34) == 0x4_0000_0000
  {
    assert Pow2(2) == 0x4;
    hide Pow2;
    Pow2Is(2, 0x4, 2, 0x4);
    Pow2Is(4, 0x10, 2, 0x4);
    Pow2Is(6, 0x40, 2, 0x4);
    Pow2Is(8, 0x100, 2, 0x4);
    Pow2Is(10, 0x400, 2, 0x4);
    Pow2Is(12, 0x1000, 2, 0x4);
    Pow2Is(14, 0x4000, 2, 0x4);
    Pow2Is(16, 0x1_0000, 2, 0x4);
    Pow2Is(18, 0x4_0000, 2, 0x4);
    Pow2Is(20, 0x10_0000, 2, 0x4);
    Pow2Is(22, 0x40_0000, 4, 0x10);
    Pow2Is(26, 0x400_0000, 2, 0x4);
    Pow2Is(28, 0x1000_0000, 6, 0x40);
  }

  lemma {:induction false} Powers()
    ensures Pow2(8) == 0x100 && Pow2(24) == 0x100_0000 && Pow2(32) == 0x1_0000_0000
    ensures Pow2(48) == 0x1_0000_0000_0000 && Pow2(64) == 0x1_0000_0000_0000_0000
    ensures Pow2(72) == 0x100_0000_0000_0000_0000 && Pow2(96) == 0x1_0000_0000_0000_0000_0000_0000
    ensures Pow2(128) == 0x1_0000_0000_0000_0000_0000_0000_0000_0000
  {
    hide Pow2;
    SmallPowers();
    Pow2Is(16, 0x1_0000, 8, 0x100);
    Pow2Is(16, 0x1_0000, 16, 0x1_0000);
    Pow2Is(24, 0x100_0000, 24, 0x100_0000);
    Pow2Is(32, 0x1_0000_0000, 32, 0x1_0000_0000);
    Pow2Is(48, 0x1_0000_0000_0000, 24, 0x100_0000);
    Pow2Is(64, 0x1_0000_0000_0000_0000, 32, 0x1_0000_0000);
    Pow2Is(64, 0x1_0000_0000_0000_0000, 64, 0x1_0000_0000_0000_0000);
  }

  lemma {:induction false} StoreLeConcat(a: nat, b: nat, n: nat, m: nat, p: nat)
    requires p == Pow2(8 * n) && a < p
    ensures StoreLe(a + p * b, n + m) == StoreLe(a, n) + StoreLe(b, m)
    decreases n
  {
    if n == 0 {
      assert a == 0 && p == 1;
    } else {
      var h, x := Pow2(8 * (n - 1)), a + p * b;
      Pow2Add(8, 8 * (n - 1));
      assert Pow2(8) == 256;
      hide Pow2, StoreLe;
      Associate(256, h, b);
      ModParts(a, 256);
      DivUnique(x, 256, a / 256 + h * b, a % 256);
      StoreLeConcat(a / 256, b, n - 1, m, h);
      StoreLeFirst(x, n + m);
      StoreLeFirst(a, n);
    }
  }

  lemma StoreLeFirst(x: nat, n: nat)
    requires n > 0
    ensures StoreLe(x, n) == [x % 256] + StoreLe(x / 256, n - 1)
  {
  }

  lemma {:induction false} ModSum(x: nat, y: nat, m: nat)
    requires m > 0
    ensures (x % m + y) % m == (x + y) % m
  {
    var q, s := x / m, x % m + y;
    Distribute(q, s / m, m);
    DivUnique(x + y, m, q + s / m, s % m);
  }

  lemma {:induction false} ModDouble(x: nat, d: nat)
    requires d > 0
    ensures x % (2 * d) == x % 2 + 2 * (x / 2 % d)
    ensures x / (2 * d) == x / 2 / d
  {
    var q, r := x / 2 / d, x / 2 % d;
    assert x == q * (2 * d) + (x % 2 + 2 * r) by {
      assert x / 2 == q * d + r;
    }
    DivUnique(x, 2 * d, q, x % 2 + 2 * r);
  }

  lemma {:induction false} AndOnes(x: nat, n: nat)
    ensures And(x, Pow2(n) - 1) == x % Pow2(n)
  {
    if n > 0 {
      var h := Pow2(n - 1);
      assert Pow2(n) == 2 * h;
      AndOnes(x / 2, n - 1);
      hide Pow2;
      ModDouble(x, h);
      AndHalves(x, 2 * h - 1);
      hide And;
      DivUnique(2 * h - 1, 2, h - 1, 1);
    }
  }

  lemma {:induction false} AndSplit(x: nat, xl: nat, xh: nat, y: nat, yl: nat, yh: nat, k: nat, p: nat)
    requires p == Pow2(k) && xl < p && yl < p && x == xl + p * xh && y == yl + p * yh
    ensures And(x, y) == And(xl, yl) + p * And(xh, yh)
    decreases k
  {
    if k > 0 {
      var h := Pow2(k - 1);
      assert p == 2 * h;
      hide And, Pow2;
      Associate(2, h, xh);
      Associate(2, h, yh);
      AndSplit(x / 2, xl / 2, xh, y / 2, yl / 2, yh, k - 1, h);
      AndHalves(x, y);
      AndHalves(xl, yl);
      Associate(2, h, And(xh, yh));
    }
  }

  lemma {:induction false} AndBound(x: nat, y: nat)
    ensures And(x, y) <= x && And(x, y) <= y
  {
    if x != 0 && y != 0 {
      AndBound(x / 2, y / 2);
    }
  }

  lemma AndHalves(x: nat, y: nat)
    ensures And(x, y) == (if x % 2 == 1 && y % 2 == 1 then 1 else 0) + 2 * And(x / 2, y / 2)
  {
  }

  lemma Associate(x: int, y: int, z: int)
    ensures x * y * z == x * (y * z)
  {
  }

  lemma Distribute(x: int, y: int, r: int)
    ensures (x + y) * r == x * r + y * r
  {
  }

  lemma {:induction false} ModMod(x: nat, a: nat, b: nat)
    ensures x % Pow2(a + b) % Pow2(a) == x % Pow2(a)
  {
    hide Pow2;
    var d, e := Pow2(a), Pow2(b);
    Pow2Add(a, b);
    var q, r := x / (d * e), x % (d * e);
    assert x == q * (d * e) + r;
    Associate(q, e, d);
    Distribute(q * e, r / d, d);
    DivUnique(x, d, q * e + r / d, r % d);
  }

  /** x & mask for a mask of ones but for a hole, or an end, from bit a on to bit b. */
  lemma {:induction false} AndHole(x: nat, mask: nat, a: nat, b: nat, n: nat, pa: nat, pb: nat, pn: nat)
    requires a <= b && pa == Pow2(a) && pb == Pow2(b) && pn == Pow2(n) && mask == pa - 1 + pb * (pn - 1)
    ensures And(x, mask) == x % pa + pb * (x / pb % pn)
  {
    hide And, Pow2;
    ModParts(x, pb);
    Pow2Add(a, b - a);
    MulAtLeast(Pow2(b - a), pa);
    AndSplit(x, x % pb, x / pb, mask, pa - 1, pn - 1, b, pb);
    AndOnes(x % pb, a);
    AndOnes(x / pb, n);
    ModMod(x, a, b - a);
  }

  // ---- big-endian numbers in byte strings ----

  function Be16(v: nat): (m: seq<byte>)
    ensures |m| == 2
  {
    [v / 256 % 256, v % 256]
  }

  function Be32(v: nat): (m: seq<byte>)
    ensures |m| == 4
  {
    Be16(v / 0x1_0000) + Be16(v)
  }

  /** The bytes of a 32-bit word in both orders */
  lemma {:induction false} WordBytes(c: nat)
    requires c < 0x1_0000_0000
    ensures Be32(c) == [c / 0x100_0000, c / 0x1_0000 % 256, c / 0x100 % 256, c % 256]
    ensures StoreLe(c, 4) == [c % 256, c / 0x100 % 256, c / 0x1_0000 % 256, c / 0x100_0000]
  {
    var x, y := c / 256, c / 0x1_0000;
    ModParts(c, 0x1_0000);
    ModParts(c, 256);
    ModParts(y, 256);
    DivUnique(x, 256, y, x - 256 * y);
    DivUnique(c, 0x100_0000, y / 256, c - 0x100_0000 * (y / 256));
    DivUnique(y / 256, 256, 0, y / 256);
    assert StoreLe(y / 256, 1) == [y / 256];
    assert StoreLe(y, 2) == [y % 256, y / 256];
    assert StoreLe(x, 3) == [x % 256, y % 256, y / 256];
  }

  /** A 64-bit number, big-endian */
  function Be64(v: nat): (m: seq<byte>)
    ensures |m| == 8
  {
    Be32(v / 0x1_0000_0000) + Be32(v)
  }

  /** The digits of a 32-bit word are those of every number congruent to it. */
  lemma {:induction false} Digits(v: nat, q: nat, a: byte, b: byte, c: byte, d: byte)
    requires v == 0x1_0000_0000 * q + 0x100_0000 * (a as int) + 0x1_0000 * (b as int) + 0x100 * (c as int) + d
    ensures Be32(v) == [a, b, c, d]
  {
    var hi := 0x1_0000 * q + 256 * a + b;
    DivUnique(v, 0x1_0000, hi, 256 * c + d);
    DivUnique(hi, 256, 256 * q + a, b);
    DivUnique(256 * q + a, 256, q, a);
    DivUnique(v, 256, 256 * hi + c, d);
    DivUnique(256 * hi + c, 256, hi, c);
  }

  lemma {:induction false} Word(v: nat) returns (q: nat)
    ensures var m := Be32(v);
      v == 0x1_0000_0000 * q + 0x100_0000 * (m[0] as int) + 0x1_0000 * (m[1] as int) + 0x100 * (m[2] as int) + m[3]
  {
    var x := v / 256;
    var y := v / 0x1_0000;
    ModParts(v, 0x1_0000);
    ModParts(v, 256);
    DivUnique(x, 256, y, x - 256 * y);
    ModParts(y, 256);
    ModParts(y / 256, 256);
    q := y / 256 / 256;
  }

  lemma {:induction false} Be32Mod(a: nat, b: nat, q: nat)
    requires a == b + 0x1_0000_0000 * q
    ensures Be32(a) == Be32(b)
  {
    var m := Be32(b);
    var k := Word(b);
    hide Be32;
    Digits(a, k + q, m[0], m[1], m[2], m[3]);
  }

  lemma {:induction false} Be64Mod(a: nat, b: nat, q: nat)
    requires a == b + 0x1_0000_0000_0000_0000 * q
    ensures Be64(a) == Be64(b)
  {
    hide Be32;
    Be32Mod(a, b, 0x1_0000_0000 * q);
    ModParts(b, 0x1_0000_0000);
    DivUnique(a, 0x1_0000_0000, b / 0x1_0000_0000 + 0x1_0000_0000 * q, b % 0x1_0000_0000);
    Be32Mod(a / 0x1_0000_0000, b / 0x1_0000_0000, q);
  }

  lemma {:induction false} LoadBe2(m: seq<byte>)
    requires |m| == 2
    ensures LoadBe(m) == 256 * (m[0] as int) + m[1]
  {
    assert m[..1][..0] == [];
    assert LoadBe(m[..1]) == m[0];
  }

  lemma {:induction false} LoadBe4(m: seq<byte>)
    requires |m| == 4
    ensures LoadBe(m) == 0x100_0000 * (m[0] as int) + 0x1_0000 * (m[1] as int) + 0x100 * (m[2] as int) + m[3]
  {
    LoadBe2(m[..2]);
    assert m[..3][..2] == m[..2];
    assert LoadBe(m[..3]) == 256 * LoadBe(m[..2]) + m[2];
  }

  lemma LoadBeLast(m: seq<byte>, n: nat)
    requires |m| == n + 1
    ensures LoadBe(m) == 256 * LoadBe(m[..n]) + m[n] && LoadBe(m[..0]) == 0
  {
  }

  lemma {:induction false} LoadBeConcat(a: seq<byte>, b: seq<byte>)
    ensures LoadBe(a + b) == LoadBe(a) * Pow2(8 * |b|) + LoadBe(b)
  {
    if b == [] {
      assert a + b == a;
    } else {
      hide LoadBe, Pow2;
      var n := |b| - 1;
      LoadBeConcat(a, b[..n]);
      LoadBeLast(b, n);
      LoadBeLast(a + b, |a| + n);
      assert (a + b)[..|a| + n] == a + b[..n] && (a + b)[|a| + n] == b[n];
      Pow2Add(8 * n, 8);
      SmallPowers();
      Associate(LoadBe(a), Pow2(8 * n), 256);
      assert Pow2(8 * |b|) == Pow2(8 * n) * 256;
    }
  }

  /** Numbers written with the most significant byte first are read back. */
  lemma {:induction false} BeReads(v: nat)
    ensures LoadBe(Be16(v)) == v % 0x1_0000 && LoadBe(Be32(v)) == v % 0x1_0000_0000
    ensures LoadBe(Be64(v)) == v % 0x1_0000_0000_0000_0000
  {
    Be16Reads(v);
    Be32Reads(v);
    Be32Reads(v / 0x1_0000_0000);
    hide LoadBe, Be32, Be16;
    LoadBeConcat(Be32(v / 0x1_0000_0000), Be32(v));
    Powers();
    hide Pow2;
    var hi, lo := v / 0x1_0000_0000, v % 0x1_0000_0000;
    ModParts(v, 0x1_0000_0000);
    ModParts(hi, 0x1_0000_0000);
    DivUnique(v, 0x1_0000_0000_0000_0000, hi / 0x1_0000_0000, hi % 0x1_0000_0000 * 0x1_0000_0000 + lo);
  }

  lemma {:induction false} Be16Reads(v: nat)
    ensures LoadBe(Be16(v)) == v % 0x1_0000
  {
    LoadBe2(Be16(v));
    ModParts(v, 256);
    ModParts(v / 256, 256);
    DivUnique(v, 0x1_0000, v / 256 / 256, 256 * (v / 256 % 256) + v % 256);
  }

  lemma {:induction false} Be32Reads(v: nat)
    ensures LoadBe(Be32(v)) == v % 0x1_0000_0000
  {
    var q := Word(v);
    LoadBe4(Be32(v));
    hide Be32, LoadBe;
    DivUnique(v, 0x1_0000_0000, q, LoadBe(Be32(v)));
  }

  /** Numbers written with the least significant byte first are read back. */
  lemma {:induction false} LeReads(v: nat, n: nat)
    ensures LoadLe(StoreLe(v, n)) == v % Pow2(8 * n)
  {
    if n > 0 {
      LeReads(v / 256, n - 1);
      assert StoreLe(v, n)[1..] == StoreLe(v / 256, n - 1);
      Pow2Add(8 * (n - 1), 8);
      SmallPowers();
      hide LoadLe, StoreLe;
      var d, w := Pow2(8 * (n - 1)), v / 256;
      hide Pow2;
      assert LoadLe(StoreLe(v, n)) == v % 256 + 256 * (w % d) by { LoadLeFirst(StoreLe(v, n)); StoreLeFirst(v, n); }
      ModParts(v, 256);
      ModParts(w, d);
      assert v == w / d * (d * 256) + (v % 256 + 256 * (w % d)) by { Associate(w / d, d, 256); }
      DivUnique(v, d * 256, w / d, v % 256 + 256 * (w % d));
    }
  }

  lemma LoadLeFirst(m: seq<byte>)
    requires m != []
    ensures LoadLe(m) == m[0] + 256 * LoadLe(m[1..])
  {
  }

  function Get16(m: seq<byte>, i: nat): nat
    requires i + 2 <= |m|
  {
    256 * (m[i] as int) + m[i + 1]
  }

  lemma Get16At(m: seq<byte>, i: nat, v: nat)
    requires i + 2 <= |m| && v < 0x1_0000 && m[i..i + 2] == Be16(v)
    ensures Get16(m, i) == v
  {
    assert m[i] == m[i..i + 2][0] && m[i + 1] == m[i..i + 2][1];
  }

  lemma {:induction false} XorAssociative(x: nat, y: nat, z: nat)
    ensures Xor(Xor(x, y), z) == Xor(x, Xor(y, z))
    decreases x + y + z
  {
    if x + y + z == 0 {
      XorZero(0);
    } else {
      hide Xor;
      XorParts(x, y);
      XorParts(y, z);
      XorParts(Xor(x, y), z);
      XorParts(x, Xor(y, z));
      XorAssociative(x / 2, y / 2, z / 2);
    }
  }

  // ---- byte strings ----

  function Zeros(n: nat): (z: seq<byte>)
    ensures |z| == n
  {
    seq(n, _ => 0)
  }

  function XorByte(x: byte, y: byte): byte {
    assert Pow2(8) == 256;
    XorBound(x, y, 8);
    Xor(x, y)
  }

  function Concat(ss: seq<seq<byte>>): seq<byte> {
    if ss == [] then [] else Concat(ss[..|ss| - 1]) + ss[|ss| - 1]
  }

  /** crypto_xor */
  function XorBytes(a: seq<byte>, b: seq<byte>): (m: seq<byte>)
    requires |a| <= |b|
    ensures |m| == |a|
  {
    seq(|a|, i requires 0 <= i < |a| => XorByte(a[i], b[i]))
  }

  lemma {:induction false} XorCancels(x: nat, y: nat)
    ensures Xor(Xor(x, y), y) == x
  {
    if x == 0 && y == 0 {
      XorZero(0);
    } else {
      hide Xor;
      XorParts(x, y);
      XorParts(Xor(x, y), y);
      XorCancels(x / 2, y / 2);
    }
  }

  lemma {:induction false} XorCommutes(x: nat, y: nat)
    ensures Xor(x, y) == Xor(y, x)
  {
    if x == 0 && y == 0 {
      XorZero(0);
    } else {
      hide Xor;
      XorParts(x, y);
      XorParts(y, x);
      XorCommutes(x / 2, y / 2);
    }
  }

  /** A buffer that held was, with data written over it from at on. */
  function Written<T>(was: seq<T>, at: nat, data: seq<T>): (now: seq<T>)
    requires at + |data| <= |was|
    ensures |now| == |was|
  {
    was[..at] + data + was[at + |data|..]
  }

  lemma {:induction false} WrittenOn<T>(was: seq<T>, at: nat, a: seq<T>, b: seq<T>)
    requires at + |a| + |b| <= |was|
    ensures Written(Written(was, at, a), at + |a|, b) == Written(was, at, a + b)
  {
  }

  /** memcpy(dst + at, src, |src|) */
  method Put(dst: array<byte>, at: nat, src: seq<byte>)
    requires at + |src| <= dst.Length
    modifies dst
    ensures dst[..] == Written(old(dst[..]), at, src)
  {
    forall i | 0 <= i < |src| {
      dst[at + i] := src[i];
    }
  }
}
