/** poly1305-donna32.c: the accumulator as five limbs of 26 bits. The u32 and
    u64 variables have those types here, so that every sum and product is
    known to fit; the two places that wrap on purpose say so. */
module Donna32 {
  import opened Words
  import opened Poly1305Spec
  import opened LimbArithmetic

  datatype Limbs = Limbs(l0: u32, l1: u32, l2: u32, l3: u32, l4: u32)

  function Sum(x0: int, x1: int, x2: int, x3: int, x4: int): int {
    x0 + 0x400_0000 * x1 + 0x10_0000_0000_0000 * x2 + 0x4000_0000_0000_0000_0000 * x3
    + 0x1_0000_0000_0000_0000_0000_0000_00 * x4
  }

  function Value(h: Limbs): nat {
    Sum(h.l0 as int, h.l1 as int, h.l2 as int, h.l3 as int, h.l4 as int)
  }

  lemma Row(x: int, y0: int, y1: int, y2: int, y3: int, y4: int)
    ensures Mul(x, Sum(y0, y1, y2, y3, y4)) == Sum(Mul(x, y0), Mul(x, y1), Mul(x, y2), Mul(x, y3), Mul(x, y4))
  {
  }

  lemma Column(x0: int, x1: int, x2: int, x3: int, x4: int, y: int)
    ensures Mul(Sum(x0, x1, x2, x3, x4), y) == Sum(Mul(x0, y), Mul(x1, y), Mul(x2, y), Mul(x3, y), Mul(x4, y))
  {
  }

  lemma Five(x: int, y: int)
    ensures Mul(x, 5 * y) == 5 * Mul(x, y)
  {
  }

  /** The five columns of h * r, the part above 2^130 brought back as five times itself. */
  lemma Schoolbook(h0: int, h1: int, h2: int, h3: int, h4: int, r0: int, r1: int, r2: int, r3: int, r4: int)
    returns (q: int)
    ensures Mul(Sum(h0, h1, h2, h3, h4), Sum(r0, r1, r2, r3, r4)) ==
      Sum(Mul(h0, r0) + Mul(h1, 5 * r4) + Mul(h2, 5 * r3) + Mul(h3, 5 * r2) + Mul(h4, 5 * r1),
          Mul(h0, r1) + Mul(h1, r0) + Mul(h2, 5 * r4) + Mul(h3, 5 * r3) + Mul(h4, 5 * r2),
          Mul(h0, r2) + Mul(h1, r1) + Mul(h2, r0) + Mul(h3, 5 * r4) + Mul(h4, 5 * r3),
          Mul(h0, r3) + Mul(h1, r2) + Mul(h2, r1) + Mul(h3, r0) + Mul(h4, 5 * r4),
          Mul(h0, r4) + Mul(h1, r3) + Mul(h2, r2) + Mul(h3, r1) + Mul(h4, r0)) + P * q
  {
    hide Mul;
    var r := Sum(r0, r1, r2, r3, r4);
    Column(h0, h1, h2, h3, h4, r);
    Row(h0, r0, r1, r2, r3, r4);
    Row(h1, r0, r1, r2, r3, r4);
    Row(h2, r0, r1, r2, r3, r4);
    Row(h3, r0, r1, r2, r3, r4);
    Row(h4, r0, r1, r2, r3, r4);
    Five(h1, r4); Five(h2, r3); Five(h3, r2); Five(h4, r1);
    Five(h2, r4); Five(h3, r3); Five(h4, r2);
    Five(h3, r4); Five(h4, r3); Five(h4, r4);
    q := Sum(Mul(h1, r4) + Mul(h2, r3) + Mul(h3, r2) + Mul(h4, r1),
             Mul(h2, r4) + Mul(h3, r3) + Mul(h4, r2),
             Mul(h3, r4) + Mul(h4, r3),
             Mul(h4, r4), 0);
  }

  /** (u64)x * y */
  function Wide(x: u32, y: u32): (p: u64)
    ensures p as int == Mul(x as int, y as int)
  {
    MulBound(x as int, y as int, 0xffff_ffff, 0xffff_ffff);
    (x as u64) * (y as u64)
  }

  /** r after clamping, and s = 5 * r */
  ghost predicate Key(r: Limbs, s1: u32, s2: u32, s3: u32, s4: u32) {
    && r.l0 < 0x400_0000 && r.l1 < 0x400_0000 && r.l2 < 0x400_0000 && r.l3 < 0x400_0000 && r.l4 < 0x10_0000
    && s1 == 5 * r.l1 && s2 == 5 * r.l2 && s3 == 5 * r.l3 && s4 == 5 * r.l4
  }

  /** The limbs between two blocks. */
  ghost predicate Carried(h: Limbs) {
    h.l0 < 0x400_0000 && h.l1 < 0x400_0040 && h.l2 < 0x400_0000 && h.l3 < 0x400_0000 && h.l4 < 0x400_0000
  }

  /** The limbs with the next block added. */
  ghost predicate Added(h: Limbs) {
    h.l0 < 0x800_0000 && h.l1 < 0x800_0040 && h.l2 < 0x800_0000 && h.l3 < 0x800_0000 && h.l4 < 0x600_0000
  }

  /** One column of the product */
  method Column5(a0: u32, b0: u32, a1: u32, b1: u32, a2: u32, b2: u32, a3: u32, b3: u32, a4: u32, b4: u32,
                 ghost b: nat)
    returns (d: u64)
    requires a0 < 0x800_0040 && a1 < 0x800_0040 && a2 < 0x800_0040 && a3 < 0x800_0040 && a4 < 0x800_0040
    requires b0 as nat <= b && b1 as nat <= b && b2 as nat <= b && b3 as nat <= b && b4 as nat <= b <= 0x1400_0000
    ensures d as int == Mul(a0 as int, b0 as int) + Mul(a1 as int, b1 as int) + Mul(a2 as int, b2 as int)
      + Mul(a3 as int, b3 as int) + Mul(a4 as int, b4 as int)
    ensures d as nat <= 5 * 0x800_0040 * b
  {
    hide Mul;
    MulBound(a0 as int, b0 as int, 0x800_0040, b);
    MulBound(a1 as int, b1 as int, 0x800_0040, b);
    MulBound(a2 as int, b2 as int, 0x800_0040, b);
    MulBound(a3 as int, b3 as int, 0x800_0040, b);
    MulBound(a4 as int, b4 as int, 0x800_0040, b);
    d := Wide(a0, b0) + Wide(a1, b1) + Wide(a2, b2) + Wide(a3, b3) + Wide(a4, b4);
  }

  /** h *= r, the columns d not yet carried */
  method Products(h: Limbs, r: Limbs, s1: u32, s2: u32, s3: u32, s4: u32)
    returns (d0: u64, d1: u64, d2: u64, d3: u64, d4: u64, ghost q: int)
    requires Added(h) && Key(r, s1, s2, s3, s4)
    ensures Mul(Value(h), Value(r)) == Sum(d0 as int, d1 as int, d2 as int, d3 as int, d4 as int) + P * q
    ensures d0 < 0x330_0000_0000_0000 && d1 < 0x330_0000_0000_0000 && d2 < 0x330_0000_0000_0000
    ensures d3 < 0x330_0000_0000_0000 && d4 < 0xc0_0000_0000_0000
  {
    hide Mul;
    d0 := Column5(h.l0, r.l0, h.l1, s4, h.l2, s3, h.l3, s2, h.l4, s1, 0x1400_0000);
    d1 := Column5(h.l0, r.l1, h.l1, r.l0, h.l2, s4, h.l3, s3, h.l4, s2, 0x1400_0000);
    d2 := Column5(h.l0, r.l2, h.l1, r.l1, h.l2, r.l0, h.l3, s4, h.l4, s3, 0x1400_0000);
    d3 := Column5(h.l0, r.l3, h.l1, r.l2, h.l2, r.l1, h.l3, r.l0, h.l4, s4, 0x1400_0000);
    d4 := Column5(h.l0, r.l4, h.l1, r.l3, h.l2, r.l2, h.l3, r.l1, h.l4, r.l0, 0x400_0000);
    q := Schoolbook(h.l0 as int, h.l1 as int, h.l2 as int, h.l3 as int, h.l4 as int,
                    r.l0 as int, r.l1 as int, r.l2 as int, r.l3 as int, r.l4 as int);
  }

  /** (partial) h %= p */
  method Carry(d0: u64, d1: u64, d2: u64, d3: u64, d4: u64) returns (h: Limbs, ghost q: int)
    requires d0 < 0x330_0000_0000_0000 && d1 < 0x330_0000_0000_0000 && d2 < 0x330_0000_0000_0000
    requires d3 < 0x330_0000_0000_0000 && d4 < 0xc0_0000_0000_0000
    ensures Carried(h) && Sum(d0 as int, d1 as int, d2 as int, d3 as int, d4 as int) == Value(h) + P * q
  {
    var c := (d0 / 0x400_0000) as u32;
    var h0 := (d0 % 0x400_0000) as u32;
    var e1 := d1 + c as u64;
    c := (e1 / 0x400_0000) as u32;
    var h1 := (e1 % 0x400_0000) as u32;
    var e2 := d2 + c as u64;
    c := (e2 / 0x400_0000) as u32;
    var h2 := (e2 % 0x400_0000) as u32;
    var e3 := d3 + c as u64;
    c := (e3 / 0x400_0000) as u32;
    var h3 := (e3 % 0x400_0000) as u32;
    var e4 := d4 + c as u64;
    c := (e4 / 0x400_0000) as u32;
    var h4 := (e4 % 0x400_0000) as u32;
    q := c as int;
    h0 := h0 + c * 5;
    c := h0 / 0x400_0000;
    h0 := h0 % 0x400_0000;
    h1 := h1 + c;
    h := Limbs(h0, h1, h2, h3, h4);
  }

  /** get_unaligned_le32(&m[i]) */
  function Load32(m: seq<byte>, i: nat): (x: u32)
    requires i + 4 <= |m|
    ensures x as nat == LoadLe(m[i..i + 4])
  {
    LoadLeBound(m[i..i + 4]);
    Powers();
    LoadLe(m[i..i + 4]) as u32
  }

  /** How a 32-bit word at byte 0, 3, 6, 9 or 12 gives the 26 bits of a limb. */
  lemma Piece0(a: byte, b: byte, c: byte, d: byte)
    ensures Quad(a, b, c, d) % 0x400_0000 == a + 0x100 * b + 0x1_0000 * c + 0x100_0000 * (d % 4)
  {
    DivUnique(Quad(a, b, c, d), 0x400_0000, d / 4, a + 0x100 * b + 0x1_0000 * c + 0x100_0000 * (d % 4));
  }

  lemma Piece3(a: byte, b: byte, c: byte, d: byte)
    ensures Quad(a, b, c, d) / 0x4 % 0x400_0000
      == a / 4 + 0x40 * b + 0x4000 * c + 0x40_0000 * (d % 16)
  {
    var v := a / 4 + 0x40 * b + 0x4000 * c + 0x40_0000 * d;
    DivUnique(Quad(a, b, c, d), 0x4, v, a % 4);
    DivUnique(v, 0x400_0000, d / 16, a / 4 + 0x40 * b + 0x4000 * c + 0x40_0000 * (d % 16));
  }

  lemma Piece6(a: byte, b: byte, c: byte, d: byte)
    ensures Quad(a, b, c, d) / 0x10 % 0x400_0000
      == a / 16 + 0x10 * b + 0x1000 * c + 0x10_0000 * (d % 64)
  {
    var v := a / 16 + 0x10 * b + 0x1000 * c + 0x10_0000 * d;
    DivUnique(Quad(a, b, c, d), 0x10, v, a % 16);
    DivUnique(v, 0x400_0000, d / 64, a / 16 + 0x10 * b + 0x1000 * c + 0x10_0000 * (d % 64));
  }

  lemma Piece9(a: byte, b: byte, c: byte, d: byte)
    ensures Quad(a, b, c, d) / 0x40 % 0x400_0000
      == a / 64 + 0x4 * b + 0x400 * c + 0x4_0000 * d
  {
    var v := a / 64 + 0x4 * b + 0x400 * c + 0x4_0000 * d;
    DivUnique(Quad(a, b, c, d), 0x40, v, a % 64);
    DivUnique(v, 0x400_0000, 0, v);
  }

  lemma Piece12(a: byte, b: byte, c: byte, d: byte)
    ensures Quad(a, b, c, d) / 0x100 == b + 0x100 * c + 0x1_0000 * d
  {
    DivUnique(Quad(a, b, c, d), 0x100, b + 0x100 * c + 0x1_0000 * d, a);
  }

  lemma CutLinear(b0: int, b1: int, b2: int, x3: int, y3: int, b4: int, b5: int, x6: int, y6: int, b7: int,
                  b8: int, x9: int, y9: int, b10: int, b11: int, b12: int, b13: int, b14: int, b15: int)
    ensures Quad(b0, b1, b2, x3 + 4 * y3) + 0x1_0000_0000 * Quad(b4, b5, x6 + 16 * y6, b7)
        + 0x1_0000_0000_0000_0000 * Quad(b8, x9 + 64 * y9, b10, b11)
        + 0x1_0000_0000_0000_0000_0000_0000 * Quad(b12, b13, b14, b15)
      == Sum(b0 + 0x100 * b1 + 0x1_0000 * b2 + 0x100_0000 * x3, y3 + 0x40 * b4 + 0x4000 * b5 + 0x40_0000 * x6,
             y6 + 0x10 * b7 + 0x1000 * b8 + 0x10_0000 * x9, y9 + 0x4 * b10 + 0x400 * b11 + 0x4_0000 * b12,
             b13 + 0x100 * b14 + 0x1_0000 * b15)
  {
  }

  lemma CutBytes(b0: byte, b1: byte, b2: byte, b3: byte, b4: byte, b5: byte, b6: byte, b7: byte,
                 b8: byte, b9: byte, b10: byte, b11: byte, b12: byte, b13: byte, b14: byte, b15: byte)
    ensures Quad(b0, b1, b2, b3) + 0x1_0000_0000 * Quad(b4, b5, b6, b7) + 0x1_0000_0000_0000_0000 * Quad(b8, b9, b10, b11)
        + 0x1_0000_0000_0000_0000_0000_0000 * Quad(b12, b13, b14, b15)
      == Sum(Quad(b0, b1, b2, b3) % 0x400_0000, Quad(b3, b4, b5, b6) / 0x4 % 0x400_0000,
             Quad(b6, b7, b8, b9) / 0x10 % 0x400_0000, Quad(b9, b10, b11, b12) / 0x40 % 0x400_0000,
             Quad(b12, b13, b14, b15) / 0x100)
  {
    hide Quad, Sum;
    Piece0(b0, b1, b2, b3);
    Piece3(b3, b4, b5, b6);
    Piece6(b6, b7, b8, b9);
    Piece9(b9, b10, b11, b12);
    Piece12(b12, b13, b14, b15);
    assert b3 == b3 % 4 + 4 * (b3 / 4) && b6 == b6 % 16 + 16 * (b6 / 16) && b9 == b9 % 64 + 64 * (b9 / 64);
    CutLinear(b0, b1, b2, b3 % 4, b3 / 4, b4, b5, b6 % 16, b6 / 16, b7, b8, b9 % 64, b9 / 64, b10, b11, b12, b13, b14, b15);
  }

  /** The five overlapping words that cut 16 bytes into 26-bit pieces. */
  lemma {:induction false} Cut(m: seq<byte>)
    requires |m| == 16
    ensures LoadLe(m) == Sum(
      Load32(m, 0) as int % 0x400_0000,
      Load32(m, 3) as int / 0x4 % 0x400_0000,
      Load32(m, 6) as int / 0x10 % 0x400_0000,
      Load32(m, 9) as int / 0x40 % 0x400_0000,
      Load32(m, 12) as int / 0x100)
  {
    hide LoadLe, Load32, Quad, Sum;
    LoadLe16(m);
    LoadLe4(m[0..4]);
    LoadLe4(m[4..8]);
    LoadLe4(m[8..12]);
    LoadLe4(m[12..16]);
    LoadLe4(m[3..7]);
    LoadLe4(m[6..10]);
    LoadLe4(m[9..13]);
    CutBytes(m[0], m[1], m[2], m[3], m[4], m[5], m[6], m[7], m[8], m[9], m[10], m[11], m[12], m[13], m[14], m[15]);
  }

  /** x & m */
  function And32(x: u32, m: u32): (r: u32)
    ensures r as nat == And(x as nat, m as nat)
  {
    AndBound(x as nat, m as nat);
    And(x as nat, m as nat) as u32
  }

  lemma {:induction false} Masks(w3: u32, w6: u32, w9: u32, w12: u32)
    ensures And(w3 as nat, 0x3ffff03) == w3 as nat % 0x4 + 0x100 * (w3 as nat / 0x100 % 0x4_0000)
    ensures And(w6 as nat, 0x3ffc0ff) == w6 as nat % 0x100 + 0x4000 * (w6 as nat / 0x4000 % 0x1000)
    ensures And(w9 as nat, 0x3f03fff) == w9 as nat % 0x4000 + 0x10_0000 * (w9 as nat / 0x10_0000 % 0x40)
    ensures And(w12 as nat, 0x00fffff) == w12 as nat % 0x10_0000
  {
    SmallPowers();
    hide And, Pow2;
    AndHole(w3 as nat, 0x3ffff03, 2, 8, 18, 0x4, 0x100, 0x4_0000);
    AndHole(w6 as nat, 0x3ffc0ff, 8, 14, 12, 0x100, 0x4000, 0x1000);
    AndHole(w9 as nat, 0x3f03fff, 14, 20, 6, 0x4000, 0x10_0000, 0x40);
    AndOnes(w12 as nat, 20);
  }

  /** What the masks leave of a limb, in bytes. */
  lemma Clamp3(a: byte, b: byte, c: byte, d: byte)
    ensures var v := Quad(a, b, c, d) / 0x4;
      v % 0x4 + 0x100 * (v / 0x100 % 0x4_0000) == a % 16 / 4 + 0x40 * (b - b % 4) + 0x4000 * c + 0x40_0000 * (d % 16)
  {
    var v := Quad(a, b, c, d) / 0x4;
    DivUnique(Quad(a, b, c, d), 0x4, a / 4 + 0x40 * b + 0x4000 * c + 0x40_0000 * d, a % 4);
    DivUnique(v, 0x4, a / 16 + 0x10 * b + 0x1000 * c + 0x10_0000 * d, a % 16 / 4);
    DivUnique(v, 0x100, b / 4 + 0x40 * c + 0x4000 * d, a / 4 + 0x40 * (b % 4));
    DivUnique(v / 0x100, 0x4_0000, d / 16, b / 4 + 0x40 * c + 0x4000 * (d % 16));
  }

  lemma Clamp6(a: byte, b: byte, c: byte, d: byte)
    ensures var v := Quad(a, b, c, d) / 0x10;
      v % 0x100 + 0x4000 * (v / 0x4000 % 0x1000) == a / 16 + 0x10 * (b % 16) + 0x1000 * (c - c % 4) + 0x10_0000 * (d % 64)
  {
    var v := Quad(a, b, c, d) / 0x10;
    DivUnique(Quad(a, b, c, d), 0x10, a / 16 + 0x10 * b + 0x1000 * c + 0x10_0000 * d, a % 16);
    DivUnique(v, 0x100, b / 16 + 0x10 * c + 0x1000 * d, a / 16 + 0x10 * (b % 16));
    DivUnique(v, 0x4000, c / 4 + 0x40 * d, a / 16 + 0x10 * b + 0x1000 * (c % 4));
    DivUnique(v / 0x4000, 0x1000, d / 64, c / 4 + 0x40 * (d % 64));
  }

  lemma Clamp9(a: byte, b: byte, c: byte, d: byte)
    ensures var v := Quad(a, b, c, d) / 0x40;
      v % 0x4000 + 0x10_0000 * (v / 0x10_0000 % 0x40) == a / 64 + 0x4 * b + 0x400 * (c % 16) + 0x4_0000 * (d - d % 4)
  {
    var v := Quad(a, b, c, d) / 0x40;
    DivUnique(Quad(a, b, c, d), 0x40, a / 64 + 0x4 * b + 0x400 * c + 0x4_0000 * d, a % 64);
    DivUnique(v, 0x4000, c / 16 + 0x10 * d, a / 64 + 0x4 * b + 0x400 * (c % 16));
    DivUnique(v, 0x10_0000, d / 4, a / 64 + 0x4 * b + 0x400 * c + 0x4_0000 * (d % 4));
  }

  lemma Clamp12(a: byte, b: byte, c: byte, d: byte)
    ensures Quad(a, b, c, d) / 0x100 % 0x10_0000 == b + 0x100 * c + 0x1_0000 * (d % 16)
  {
    Piece12(a, b, c, d);
  }

  /** The five words of init, in the bytes of the clamped key. */
  lemma {:induction false} ClampedLimbs(k: seq<byte>)
    requires |k| == 16
    ensures LoadLe(Clamp(k)) == Sum(
      Load32(k, 0) as int % 0x400_0000,
      And(Load32(k, 3) as nat / 0x4, 0x3ffff03),
      And(Load32(k, 6) as nat / 0x10, 0x3ffc0ff),
      And(Load32(k, 9) as nat / 0x40, 0x3f03fff),
      And(Load32(k, 12) as nat / 0x100, 0x00fffff))
  {
    hide LoadLe, Load32, And, Quad, Sum, Clamp;
    LoadLe4(k[0..4]);
    LoadLe4(k[3..7]);
    LoadLe4(k[6..10]);
    LoadLe4(k[9..13]);
    LoadLe4(k[12..16]);
    Masks(Load32(k, 3) / 0x4, Load32(k, 6) / 0x10, Load32(k, 9) / 0x40, Load32(k, 12) / 0x100);
    ClampedBytes(k[0], k[1], k[2], k[3], k[4], k[5], k[6], k[7], k[8], k[9], k[10], k[11], k[12], k[13], k[14], k[15]);
    ClampedLoad(k);
  }

  lemma ClampedBytes(b0: byte, b1: byte, b2: byte, b3: byte, b4: byte, b5: byte, b6: byte, b7: byte,
                     b8: byte, b9: byte, b10: byte, b11: byte, b12: byte, b13: byte, b14: byte, b15: byte)
    ensures
      var v3, v6, v9 := Quad(b3, b4, b5, b6) / 0x4, Quad(b6, b7, b8, b9) / 0x10, Quad(b9, b10, b11, b12) / 0x40;
      Quad(b0, b1, b2, b3 % 16) + 0x1_0000_0000 * Quad(b4 - b4 % 4, b5, b6, b7 % 16)
        + 0x1_0000_0000_0000_0000 * Quad(b8 - b8 % 4, b9, b10, b11 % 16)
        + 0x1_0000_0000_0000_0000_0000_0000 * Quad(b12 - b12 % 4, b13, b14, b15 % 16)
      == Sum(Quad(b0, b1, b2, b3) % 0x400_0000, v3 % 0x4 + 0x100 * (v3 / 0x100 % 0x4_0000),
             v6 % 0x100 + 0x4000 * (v6 / 0x4000 % 0x1000), v9 % 0x4000 + 0x10_0000 * (v9 / 0x10_0000 % 0x40),
             Quad(b12, b13, b14, b15) / 0x100 % 0x10_0000)
  {
    hide Quad, Sum;
    Piece0(b0, b1, b2, b3);
    Clamp3(b3, b4, b5, b6);
    Clamp6(b6, b7, b8, b9);
    Clamp9(b9, b10, b11, b12);
    Clamp12(b12, b13, b14, b15);
    Nibbles(b3);
    Nibbles(b6);
    Nibbles(b9);
    CutLinear(b0, b1, b2, b3 % 4, b3 % 16 / 4, b4 - b4 % 4, b5, b6 % 16, b6 / 16, b7 % 16, b8 - b8 % 4, b9 % 64, b9 / 64,
              b10, b11 % 16, b12 - b12 % 4, b13, b14, b15 % 16);
  }

  /** h += m[i] */
  method AddBlock(h: Limbs, m: seq<byte>, padbit: u32) returns (h': Limbs)
    requires Carried(h) && |m| == 16 && padbit <= 1
    ensures Added(h') && Value(h') == Value(h) + (LoadLe(m) + padbit as nat * TWO_128)
  {
    hide LoadLe, Load32;
    var hibit := padbit * 0x100_0000;
    Cut(m);
    h' := Limbs(h.l0 + Load32(m, 0) % 0x400_0000,
                h.l1 + Load32(m, 3) / 0x4 % 0x400_0000,
                h.l2 + Load32(m, 6) / 0x10 % 0x400_0000,
                h.l3 + Load32(m, 9) / 0x40 % 0x400_0000,
                h.l4 + (Load32(m, 12) / 0x100 + hibit));
  }

  /** One pass of the loop of poly1305_blocks_generic */
  method Round(h: Limbs, r: Limbs, s1: u32, s2: u32, s3: u32, s4: u32, m: seq<byte>, padbit: u32) returns (h': Limbs)
    requires Carried(h) && Key(r, s1, s2, s3, s4) && |m| == 16 && padbit <= 1
    ensures Carried(h') && Value(h') % P == Step(Value(h), Value(r), LoadLe(m) + padbit as nat * TWO_128)
  {
    hide LoadLe, Sum, Added, Carried, Key;
    h' := AddBlock(h, m, padbit);
    ghost var sum := h';
    ghost var q, q';
    var d0, d1, d2, d3, d4;
    d0, d1, d2, d3, d4, q := Products(h', r, s1, s2, s3, s4);
    h', q' := Carry(d0, d1, d2, d3, d4);
    assert Mul(Value(sum), Value(r)) == Value(h') + P * (q + q');
    ModPlus(Value(h'), q + q');
  }

  ghost predicate Reduced(h: Limbs) {
    h.l0 < 0x400_0000 && h.l1 < 0x400_0000 && h.l2 < 0x400_0000 && h.l3 < 0x400_0000 && h.l4 < 0x400_0000
  }

  /** fully carry h */
  method FullCarry(h: Limbs) returns (g: Limbs, ghost q: int)
    requires Carried(h)
    ensures Reduced(g) && Value(h) == Value(g) + P * q
  {
    var h0, h1, h2, h3, h4 := h.l0, h.l1, h.l2, h.l3, h.l4;
    var c := h1 / 0x400_0000;
    h1 := h1 % 0x400_0000;
    h2 := h2 + c;
    c := h2 / 0x400_0000;
    h2 := h2 % 0x400_0000;
    h3 := h3 + c;
    c := h3 / 0x400_0000;
    h3 := h3 % 0x400_0000;
    h4 := h4 + c;
    c := h4 / 0x400_0000;
    h4 := h4 % 0x400_0000;
    q := c as int;
    h0 := h0 + c * 5;
    c := h0 / 0x400_0000;
    h0 := h0 % 0x400_0000;
    h1 := h1 + c;
    g := Limbs(h0, h1, h2, h3, h4);
  }

  /** x - z in 32 bits, going around below zero */
  function SubWrap32(x: u32, z: u32): u32 {
    ((x as int - z as int) % 0x1_0000_0000) as u32
  }

  /** x & mask for a mask of all ones or all zeroes */
  function Select(x: u32, mask: u32): u32
    requires mask == 0 || mask == 0xffff_ffff
  {
    if mask == 0 then 0 else x
  }

  /** x | y for words of which one is zero */
  function Either(x: u32, y: u32): u32
    requires x == 0 || y == 0
  {
    if x == 0 then y else x
  }

  /** (h & ~mask) | (g & mask) */
  function Choose(h: u32, g: u32, mask: u32): (x: u32)
    requires mask == 0 || mask == 0xffff_ffff
    ensures x == if mask == 0 then h else g
  {
    Either(Select(h, 0xffff_ffff - mask), Select(g, mask))
  }

  /** h + 5, the carries not taken out of the top limb */
  method AddFive(h: Limbs) returns (g: Limbs)
    requires Reduced(h)
    ensures g.l0 < 0x400_0000 && g.l1 < 0x400_0000 && g.l2 < 0x400_0000 && g.l3 < 0x400_0000 && g.l4 <= 0x400_0000
    ensures Value(g) == Value(h) + 5
  {
    var g0 := h.l0 + 5;
    var c := g0 / 0x400_0000;
    g0 := g0 % 0x400_0000;
    var g1 := h.l1 + c;
    c := g1 / 0x400_0000;
    g1 := g1 % 0x400_0000;
    var g2 := h.l2 + c;
    c := g2 / 0x400_0000;
    g2 := g2 % 0x400_0000;
    var g3 := h.l3 + c;
    c := g3 / 0x400_0000;
    g3 := g3 % 0x400_0000;
    g := Limbs(g0, g1, g2, g3, h.l4 + c);
  }

  lemma Below(h: Limbs)
    requires Reduced(h)
    ensures Value(h) <= P + 4
  {
  }

  /** All ones if the top limb of h + 5 reached 2^26, all zeroes otherwise; g4 is what remains of it. */
  method TopMask(top: u32) returns (g4: u32, mask: u32)
    requires top <= 0x400_0000
    ensures top == 0x400_0000 ==> g4 == 0 && mask == 0xffff_ffff
    ensures top < 0x400_0000 ==> mask == 0
  {
    g4 := SubWrap32(top, 0x400_0000);
    assert g4 == if top == 0x400_0000 then 0 else top + 0xfc00_0000;
    mask := SubWrap32(g4 / 0x8000_0000, 1);
  }

  lemma FreezeValue(h: Limbs, g: Limbs)
    requires Reduced(h) && Value(g) == Value(h) + 5
    requires g.l0 < 0x400_0000 && g.l1 < 0x400_0000 && g.l2 < 0x400_0000 && g.l3 < 0x400_0000 && g.l4 <= 0x400_0000
    ensures g.l4 == 0x400_0000 ==> Value(Limbs(g.l0, g.l1, g.l2, g.l3, 0)) == Value(h) % P
    ensures g.l4 < 0x400_0000 ==> Value(h) == Value(h) % P
  {
    Below(h);
    FreezeLinear(g.l0 as int, g.l1 as int, g.l2 as int, g.l3 as int, g.l4 as int);
    hide Sum;
    if g.l4 == 0x400_0000 {
      DivUnique(Value(h), P, 1, Value(Limbs(g.l0, g.l1, g.l2, g.l3, 0)));
    } else {
      DivUnique(Value(h), P, 0, Value(h));
    }
  }

  lemma FreezeLinear(g0: int, g1: int, g2: int, g3: int, g4: int)
    requires 0 <= g0 < 0x400_0000 && 0 <= g1 < 0x400_0000 && 0 <= g2 < 0x400_0000 && 0 <= g3 < 0x400_0000
    requires 0 <= g4 <= 0x400_0000
    ensures g4 == 0x400_0000 ==> Sum(g0, g1, g2, g3, g4) == P + 5 + Sum(g0, g1, g2, g3, 0)
    ensures g4 < 0x400_0000 ==> Sum(g0, g1, g2, g3, g4) < P + 5
  {
  }

  /** compute h + -p; select h if h < p, or h + -p if h >= p */
  method Freeze(h: Limbs) returns (f: Limbs)
    requires Reduced(h)
    ensures Reduced(f) && Value(f) == Value(h) % P
  {
    hide Sum;
    var g := AddFive(h);
    var g4, mask := TopMask(g.l4);
    FreezeValue(h, g);
    f := Limbs(Choose(h.l0, g.l0, mask), Choose(h.l1, g.l1, mask), Choose(h.l2, g.l2, mask), Choose(h.l3, g.l3, mask),
               Choose(h.l4, g4, mask));
  }

  /** x << k in 32 bits, m being 2^k: the k top bits are gone */
  function Shl32(x: u32, m: nat, d: nat): (r: u32)
    requires m > 0 && d > 0 && m * d == 0x1_0000_0000
    ensures r as nat == m * (x as nat % d)
  {
    ShiftOut(x as nat, m, d);
    (x as nat * m % 0x1_0000_0000) as u32
  }

  lemma PackLinear(h0: int, x1: int, y1: int, x2: int, y2: int, x3: int, y3: int, x4: int, y4: int)
    ensures Sum(h0, x1 + 0x40 * y1, x2 + 0x1000 * y2, x3 + 0x4_0000 * y3, x4 + 0x100_0000 * y4) ==
      (h0 + 0x400_0000 * x1) + 0x1_0000_0000 * (y1 + 0x10_0000 * x2) + 0x1_0000_0000_0000_0000 * (y2 + 0x4000 * x3)
      + 0x1_0000_0000_0000_0000_0000_0000 * (y3 + 0x100 * x4) + TWO_128 * y4
  {
  }

  /** h = h % (2^128), as four words; the two parts or-ed together have no common bit */
  method Pack(h: Limbs) returns (w0: u32, w1: u32, w2: u32, w3: u32)
    requires Reduced(h)
    ensures Words4(w0 as int, w1 as int, w2 as int, w3 as int) == Value(h) % TWO_128
  {
    hide Shl32;
    w0 := h.l0 + Shl32(h.l1, 0x400_0000, 0x40);
    w1 := h.l1 / 0x40 + Shl32(h.l2, 0x10_0000, 0x1000);
    w2 := h.l2 / 0x1000 + Shl32(h.l3, 0x4000, 0x4_0000);
    w3 := h.l3 / 0x4_0000 + Shl32(h.l4, 0x100, 0x100_0000);
    ghost var x1, y1 := h.l1 as int % 0x40, h.l1 as int / 0x40;
    ghost var x2, y2 := h.l2 as int % 0x1000, h.l2 as int / 0x1000;
    ghost var x3, y3 := h.l3 as int % 0x4_0000, h.l3 as int / 0x4_0000;
    ghost var x4, y4 := h.l4 as int % 0x100_0000, h.l4 as int / 0x100_0000;
    assert h.l1 as int == x1 + 0x40 * y1 && h.l2 as int == x2 + 0x1000 * y2;
    assert h.l3 as int == x3 + 0x4_0000 * y3 && h.l4 as int == x4 + 0x100_0000 * y4;
    PackLinear(h.l0 as int, x1, y1, x2, y2, x3, y3, x4, y4);
    Words4Bound(w0, w1, w2, w3);
    DivUnique(Value(h), TWO_128, y4, Words4(w0 as int, w1 as int, w2 as int, w3 as int));
  }

  lemma Words4Bound(w0: u32, w1: u32, w2: u32, w3: u32)
    ensures 0 <= Words4(w0 as int, w1 as int, w2 as int, w3 as int) < TWO_128
  {
  }

  lemma CarryLinear(s0: int, s1: int, s2: int, s3: int, m0: int, m1: int, m2: int, m3: int, c0: int, c1: int, c2: int, c3: int)
    requires s0 == m0 + 0x1_0000_0000 * c0 && s1 + c0 == m1 + 0x1_0000_0000 * c1
    requires s2 + c1 == m2 + 0x1_0000_0000 * c2 && s3 + c2 == m3 + 0x1_0000_0000 * c3
    ensures Words4(s0, s1, s2, s3) == Words4(m0, m1, m2, m3) + TWO_128 * c3
  {
  }

  /** One step of the addition: (u32)f and f >> 32 */
  method Add32(x: u32, y: u32, c: u64) returns (m: u32, c': u64)
    requires c <= 1
    ensures c' <= 1 && x as int + y as int + c as int == m as int + 0x1_0000_0000 * c' as int
  {
    var f := x as u64 + y as u64 + c;
    m, c' := (f % 0x1_0000_0000) as u32, f / 0x1_0000_0000;
  }

  /** mac = (h + nonce) % (2^128) */
  method AddNonce(w0: u32, w1: u32, w2: u32, w3: u32, n0: u32, n1: u32, n2: u32, n3: u32)
    returns (m0: u32, m1: u32, m2: u32, m3: u32)
    ensures Words4(m0 as int, m1 as int, m2 as int, m3 as int) ==
      (Words4(w0 as int, w1 as int, w2 as int, w3 as int) + Words4(n0 as int, n1 as int, n2 as int, n3 as int)) % TWO_128
  {
    var c0, c1, c2, c3;
    m0, c0 := Add32(w0, n0, 0);
    m1, c1 := Add32(w1, n1, c0);
    m2, c2 := Add32(w2, n2, c1);
    m3, c3 := Add32(w3, n3, c2);
    CarryLinear(w0 as int + n0 as int, w1 as int + n1 as int, w2 as int + n2 as int, w3 as int + n3 as int,
                m0 as int, m1 as int, m2 as int, m3 as int, c0 as int, c1 as int, c2 as int, c3 as int);
    Words4Bound(m0, m1, m2, m3);
    DivUnique(Words4(w0 as int, w1 as int, w2 as int, w3 as int) + Words4(n0 as int, n1 as int, n2 as int, n3 as int),
              TWO_128, c3 as int, Words4(m0 as int, m1 as int, m2 as int, m3 as int));
  }

  class State {
    var h: Limbs
    var r: Limbs
    var s1: u32
    var s2: u32
    var s3: u32
    var s4: u32

    ghost predicate Valid()
      reads this
    {
      Carried(h) && Key(r, s1, s2, s3, s4)
    }

    /** poly1305_init_generic */
    constructor (key: seq<byte>)
      requires |key| == 16
      ensures Valid() && Value(h) == 0 && Value(r) == LoadLe(Clamp(key))
    {
      ClampedLimbs(key);
      AndBound(Load32(key, 3) as nat / 0x4, 0x3ffff03);
      AndBound(Load32(key, 6) as nat / 0x10, 0x3ffc0ff);
      AndBound(Load32(key, 9) as nat / 0x40, 0x3f03fff);
      AndBound(Load32(key, 12) as nat / 0x100, 0x00fffff);
      hide LoadLe, Load32, And, Clamp;
      var k := Limbs(Load32(key, 0) % 0x400_0000,
                     And32(Load32(key, 3) / 0x4, 0x3ffff03),
                     And32(Load32(key, 6) / 0x10, 0x3ffc0ff),
                     And32(Load32(key, 9) / 0x40, 0x3f03fff),
                     And32(Load32(key, 12) / 0x100, 0x00fffff));
      r := k;
      s1, s2, s3, s4 := k.l1 * 5, k.l2 * 5, k.l3 * 5, k.l4 * 5;
      h := Limbs(0, 0, 0, 0, 0);
    }

    /** poly1305_blocks_generic */
    method Blocks(input: seq<byte>, padbit: u32)
      requires Valid() && padbit <= 1
      modifies this`h
      ensures Valid() && Value(h) % P == Fold(old(Value(h)) % P, Value(r), input, padbit as nat)
    {
      hide LoadLe, Key, Carried, Step, Fold, Sum;
      var rest, acc := input, h;
      while |rest| >= POLY1305_BLOCK_SIZE
        invariant Carried(acc) && h == old(h)
        invariant Fold(Value(acc) % P, Value(r), rest, padbit as nat) == Fold(Value(h) % P, Value(r), input, padbit as nat)
        decreases |rest|
      {
        FoldStep(Value(acc) % P, Value(r), rest, padbit as nat);
        StepMod(Value(acc), Value(r), LoadLe(rest[..16]) + padbit as nat * TWO_128);
        acc := Round(acc, r, s1, s2, s3, s4, rest[..16], padbit);
        rest := rest[16..];
      }
      FoldStep(Value(acc) % P, Value(r), rest, padbit as nat);
      h := acc;
    }

    /** poly1305_emit_generic */
    method Emit(n0: u32, n1: u32, n2: u32, n3: u32) returns (mac: seq<byte>)
      requires Valid()
      ensures mac == StoreLe((Value(h) % P + Words4(n0 as int, n1 as int, n2 as int, n3 as int)) % TWO_128, 16)
    {
      hide StoreLe, Sum, Carried, Reduced, Words4;
      ghost var q;
      var g;
      g, q := FullCarry(h);
      ModPlus(Value(g), q);
      g := Freeze(g);
      var w0, w1, w2, w3 := Pack(g);
      Words4Bound(n0, n1, n2, n3);
      ModSum(Value(g), Words4(n0 as int, n1 as int, n2 as int, n3 as int), TWO_128);
      w0, w1, w2, w3 := AddNonce(w0, w1, w2, w3, n0, n1, n2, n3);
      StoreWords(w0, w1, w2, w3);
      mac := StoreLe(w0 as nat, 4) + StoreLe(w1 as nat, 4) + StoreLe(w2 as nat, 4) + StoreLe(w3 as nat, 4);
    }
  }

  lemma Words4Nested(w0: int, w1: int, w2: int, w3: int)
    ensures Words4(w0, w1, w2, w3) == w0 + 0x1_0000_0000 * (w1 + 0x1_0000_0000 * (w2 + 0x1_0000_0000 * w3))
  {
  }

  lemma {:induction false} StoreWords(w0: u32, w1: u32, w2: u32, w3: u32)
    ensures Words4(w0 as int, w1 as int, w2 as int, w3 as int) >= 0
    ensures StoreLe(Words4(w0 as int, w1 as int, w2 as int, w3 as int), 16) ==
      StoreLe(w0 as nat, 4) + StoreLe(w1 as nat, 4) + StoreLe(w2 as nat, 4) + StoreLe(w3 as nat, 4)
  {
    hide StoreLe, Words4, Pow2;
    Powers();
    Words4Nested(w0 as int, w1 as int, w2 as int, w3 as int);
    Words4Bound(w0, w1, w2, w3);
    var x2 := w2 as nat + 0x1_0000_0000 * w3 as nat;
    var x1 := w1 as nat + 0x1_0000_0000 * x2;
    StoreLeConcat(w2 as nat, w3 as nat, 4, 4, 0x1_0000_0000);
    StoreLeConcat(w1 as nat, x2, 4, 8, 0x1_0000_0000);
    StoreLeConcat(w0 as nat, x1, 4, 12, 0x1_0000_0000);
  }
}
