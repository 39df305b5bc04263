/** poly1305-donna64.c: the accumulator as limbs of 44, 44 and 42 bits, with
    128-bit products. */
module Donna64 {
  import opened Words
  import opened Poly1305Spec
  import opened LimbArithmetic

  datatype Limbs = Limbs(l0: u64, l1: u64, l2: u64)

  function Sum(x0: int, x1: int, x2: int): int {
    x0 + 0x1000_0000_0000 * x1 + 0x1_0000_0000_0000_0000_0000_00 * x2
  }

  function Value(h: Limbs): nat {
    Sum(h.l0 as int, h.l1 as int, h.l2 as int)
  }

  lemma Row(x: int, y0: int, y1: int, y2: int)
    ensures Mul(x, Sum(y0, y1, y2)) == Sum(Mul(x, y0), Mul(x, y1), Mul(x, y2))
  {
  }

  lemma Column(x0: int, x1: int, x2: int, y: int)
    ensures Mul(Sum(x0, x1, x2), y) == Sum(Mul(x0, y), Mul(x1, y), Mul(x2, y))
  {
  }

  lemma Twenty(x: int, y: int)
    ensures Mul(x, 20 * y) == 20 * Mul(x, y)
  {
  }

  /** The columns of h * r, the part above 2^132 brought back as twenty times itself. */
  lemma Schoolbook(h0: int, h1: int, h2: int, r0: int, r1: int, r2: int) returns (q: int)
    ensures Mul(Sum(h0, h1, h2), Sum(r0, r1, r2)) ==
      Sum(Mul(h0, r0) + Mul(h1, 20 * r2) + Mul(h2, 20 * r1),
          Mul(h0, r1) + Mul(h1, r0) + Mul(h2, 20 * r2),
          Mul(h0, r2) + Mul(h1, r1) + Mul(h2, r0)) + P * q
  {
    hide Mul;
    Column(h0, h1, h2, Sum(r0, r1, r2));
    Row(h0, r0, r1, r2);
    Row(h1, r0, r1, r2);
    Row(h2, r0, r1, r2);
    Twenty(h1, r2);
    Twenty(h2, r1);
    Twenty(h2, r2);
    q := 4 * Sum(Mul(h1, r2) + Mul(h2, r1), Mul(h2, r2), 0);
  }

  /** (u128)x * y */
  function Wide(x: u64, y: u64): (p: u128)
    ensures p as int == Mul(x as int, y as int)
  {
    MulBound(x as int, y as int, 0xffff_ffff_ffff_ffff, 0xffff_ffff_ffff_ffff);
    (x as u128) * (y as u128)
  }

  /** r after clamping, and s = 20 * r */
  ghost predicate Key(r: Limbs, s1: u64, s2: u64) {
    && r.l0 < 0x1000_0000_0000 && r.l1 < 0x1000_0000_0000 && r.l2 < 0x10_0000_0000
    && s1 == 20 * r.l1 && s2 == 20 * r.l2
  }

  /** The limbs between two blocks. */
  ghost predicate Carried(h: Limbs) {
    h.l0 < 0x1000_0000_0000 && h.l1 < 0x1000_0000_0100 && h.l2 < 0x400_0000_0000
  }

  /** The limbs with the next block added. */
  ghost predicate Added(h: Limbs) {
    h.l0 < 0x2000_0000_0000 && h.l1 < 0x2000_0000_0100 && h.l2 < 0x600_0000_0000
  }

  /** One column of the product */
  method Column3(a0: u64, b0: u64, a1: u64, b1: u64, a2: u64, b2: u64, ghost b: nat) returns (d: u128)
    requires a0 < 0x2000_0000_0100 && a1 < 0x2000_0000_0100 && a2 < 0x2000_0000_0100
    requires b0 as nat <= b && b1 as nat <= b && b2 as nat <= b <= 0x1_4000_0000_0000
    ensures d as int == Mul(a0 as int, b0 as int) + Mul(a1 as int, b1 as int) + Mul(a2 as int, b2 as int)
    ensures d as nat <= 3 * 0x2000_0000_0100 * b
  {
    hide Mul;
    MulBound(a0 as int, b0 as int, 0x2000_0000_0100, b);
    MulBound(a1 as int, b1 as int, 0x2000_0000_0100, b);
    MulBound(a2 as int, b2 as int, 0x2000_0000_0100, b);
    d := Wide(a0, b0);
    var e := Wide(a1, b1);
    d := d + e;
    e := Wide(a2, b2);
    d := d + e;
  }

  /** h *= r, the columns d not yet carried */
  method Products(h: Limbs, r: Limbs, s1: u64, s2: u64) returns (d0: u128, d1: u128, d2: u128, ghost q: int)
    requires Added(h) && Key(r, s1, s2)
    ensures Mul(Value(h), Value(r)) == Sum(d0 as int, d1 as int, d2 as int) + P * q
    ensures d0 < 0x8000_0000_0000_0000_0000_0000 && d1 < 0x8000_0000_0000_0000_0000_0000
    ensures d2 < 0x700_0000_0000_0000_0000_0000
  {
    hide Mul;
    d0 := Column3(h.l0, r.l0, h.l1, s2, h.l2, s1, 0x1_4000_0000_0000);
    d1 := Column3(h.l0, r.l1, h.l1, r.l0, h.l2, s2, 0x1_4000_0000_0000);
    d2 := Column3(h.l0, r.l2, h.l1, r.l1, h.l2, r.l0, 0x1000_0000_0000);
    q := Schoolbook(h.l0 as int, h.l1 as int, h.l2 as int, r.l0 as int, r.l1 as int, r.l2 as int);
  }

  /** (partial) h %= p */
  method Carry(d0: u128, d1: u128, d2: u128) returns (h: Limbs, ghost q: int)
    requires d0 < 0x8000_0000_0000_0000_0000_0000 && d1 < 0x8000_0000_0000_0000_0000_0000
    requires d2 < 0x700_0000_0000_0000_0000_0000
    ensures Carried(h) && Sum(d0 as int, d1 as int, d2 as int) == Value(h) + P * q
  {
    var c := (d0 / 0x1000_0000_0000) as u64;
    var h0 := (d0 % 0x1000_0000_0000) as u64;
    var e1 := d1 + c as u128;
    c := (e1 / 0x1000_0000_0000) as u64;
    var h1 := (e1 % 0x1000_0000_0000) as u64;
    var e2 := d2 + c as u128;
    c := (e2 / 0x400_0000_0000) as u64;
    var h2 := (e2 % 0x400_0000_0000) as u64;
    q := c as int;
    h0 := h0 + c * 5;
    c := h0 / 0x1000_0000_0000;
    h0 := h0 % 0x1000_0000_0000;
    h1 := h1 + c;
    h := Limbs(h0, h1, h2);
  }

  /** get_unaligned_le64(&m[i]) */
  function Load64(m: seq<byte>, i: nat): (x: u64)
    requires i + 8 <= |m|
    ensures x as nat == LoadLe(m[i..i + 8])
  {
    LoadLeBound(m[i..i + 8]);
    Powers();
    LoadLe(m[i..i + 8]) as u64
  }

  /** x << k in 64 bits, m being 2^k: the k top bits are gone */
  function Shl64(x: u64, m: nat, d: nat): (r: u64)
    requires m > 0 && d > 0 && m * d == 0x1_0000_0000_0000_0000
    ensures r as nat == m * (x as nat % d)
  {
    ShiftOut(x as nat, m, d);
    (x as nat * m % 0x1_0000_0000_0000_0000) as u64
  }

  /** (t0 >> 44) | (t1 << 20), two parts with no common bit */
  function Middle(t0: u64, t1: u64): (r: u64)
    ensures r as nat == t0 as nat / 0x1000_0000_0000 + 0x10_0000 * (t1 as nat % 0x1000_0000_0000)
  {
    t0 / 0x1000_0000_0000 + Shl64(t1, 0x10_0000, 0x1000_0000_0000)
  }

  lemma MiddleLow(t0: u64, t1: u64)
    ensures Middle(t0, t1) as nat % 0x1000_0000_0000
      == t0 as nat / 0x1000_0000_0000 + 0x10_0000 * (t1 as nat % 0x100_0000)
  {
    var y, z := t1 as nat % 0x100_0000, t1 as nat % 0x1000_0000_0000 / 0x100_0000;
    DivUnique(Middle(t0, t1) as nat, 0x1000_0000_0000, z, t0 as nat / 0x1000_0000_0000 + 0x10_0000 * y);
  }

  lemma CutLinear(x0: int, y0: int, x1: int, y1: int)
    ensures (x0 + 0x1000_0000_0000 * y0) + 0x1_0000_0000_0000_0000 * (x1 + 0x100_0000 * y1)
      == Sum(x0, y0 + 0x10_0000 * x1, y1)
  {
  }

  lemma {:induction false} LoadHalves(m: seq<byte>)
    requires |m| == 16
    ensures LoadLe(m) == Load64(m, 0) as int + 0x1_0000_0000_0000_0000 * Load64(m, 8) as int
  {
    hide LoadLe, Pow2;
    Powers();
    assert m == m[0..8] + m[8..16];
    LoadLeConcat(m[0..8], m[8..16]);
  }

  /** Cutting two 64-bit words into limbs */
  lemma Cut(t0: u64, t1: u64)
    ensures t0 as int + 0x1_0000_0000_0000_0000 * t1 as int
      == Sum(t0 as int % 0x1000_0000_0000, Middle(t0, t1) as int % 0x1000_0000_0000, t1 as int / 0x100_0000)
  {
    hide Middle, Sum;
    MiddleLow(t0, t1);
    var x0, y0, x1, y1 := t0 as int % 0x1000_0000_0000, t0 as int / 0x1000_0000_0000, t1 as int % 0x100_0000, t1 as int / 0x100_0000;
    assert t0 as int == x0 + 0x1000_0000_0000 * y0 && t1 as int == x1 + 0x100_0000 * y1;
    CutLinear(x0, y0, x1, y1);
  }

  /** h += m[i] */
  method AddBlock(h: Limbs, m: seq<byte>, padbit: u32) returns (h': Limbs)
    requires Carried(h) && |m| == 16 && padbit <= 1
    ensures Added(h') && Value(h') == Value(h) + (LoadLe(m) + padbit as nat * TWO_128)
  {
    hide LoadLe, Load64, Middle;
    var hibit := padbit as u64 * 0x100_0000_0000;
    var t0, t1 := Load64(m, 0), Load64(m, 8);
    LoadHalves(m);
    Cut(t0, t1);
    h' := Limbs(h.l0 + t0 % 0x1000_0000_0000,
                h.l1 + Middle(t0, t1) % 0x1000_0000_0000,
                h.l2 + (t1 / 0x100_0000 % 0x400_0000_0000 + hibit));
  }

  /** One pass of the loop of poly1305_blocks_generic */
  method Round(h: Limbs, r: Limbs, s1: u64, s2: u64, m: seq<byte>, padbit: u32) returns (h': Limbs)
    requires Carried(h) && Key(r, s1, s2) && |m| == 16 && padbit <= 1
    ensures Carried(h') && Value(h') % P == Step(Value(h), Value(r), LoadLe(m) + padbit as nat * TWO_128)
  {
    hide LoadLe, Sum, Added, Carried, Key;
    h' := AddBlock(h, m, padbit);
    ghost var sum := h';
    ghost var q, q';
    var d0, d1, d2;
    d0, d1, d2, q := Products(h', r, s1, s2);
    h', q' := Carry(d0, d1, d2);
    assert Mul(Value(sum), Value(r)) == Value(h') + P * (q + q');
    ModPlus(Value(h'), q + q');
  }

  lemma {:induction false} Masks(t0: nat, v1: nat, v2: nat)
    ensures And(t0, 0xffc0fffffff) == t0 % 0x1000_0000 + 0x4_0000_0000 * (t0 / 0x4_0000_0000 % 0x400)
    ensures And(v1, 0xfffffc0ffff) == v1 % 0x1_0000 + 0x40_0000 * (v1 / 0x40_0000 % 0x40_0000)
    ensures And(v2, 0x00ffffffc0f) == v2 % 0x10 + 0x400 * (v2 / 0x400 % 0x400_0000)
  {
    SmallPowers();
    hide And, Pow2;
    AndHole(t0, 0xffc0fffffff, 28, 34, 10, 0x1000_0000, 0x4_0000_0000, 0x400);
    AndHole(v1, 0xfffffc0ffff, 16, 22, 22, 0x1_0000, 0x40_0000, 0x40_0000);
    AndHole(v2, 0x00ffffffc0f, 4, 10, 26, 0x10, 0x400, 0x400_0000);
  }

  /** What the masks leave of the limbs, in bytes. */
  lemma Clamp0(b0: byte, b1: byte, b2: byte, b3: byte, b4: byte, b5: byte, b6: byte, b7: byte)
    ensures var t := Oct(b0, b1, b2, b3, b4, b5, b6, b7);
      t % 0x1000_0000 + 0x4_0000_0000 * (t / 0x4_0000_0000 % 0x400)
      == Oct(b0, b1, b2, b3 % 16, b4 - b4 % 4, b5 % 16, 0, 0)
  {
    var t := Oct(b0, b1, b2, b3, b4, b5, b6, b7);
    DivUnique(t, 0x1000_0000, b3 / 16 + 0x10 * b4 + 0x1000 * b5 + 0x10_0000 * b6 + 0x1000_0000 * b7, Quad(b0, b1, b2, b3 % 16));
    DivUnique(t, 0x4_0000_0000, b4 / 4 + 0x40 * b5 + 0x4000 * b6 + 0x40_0000 * b7, Quad(b0, b1, b2, b3) + 0x1_0000_0000 * (b4 % 4));
    DivUnique(t / 0x4_0000_0000, 0x400, b5 / 16 + 0x10 * b6 + 0x1000 * b7, b4 / 4 + 0x40 * (b5 % 16));
  }

  /** limb 1 as bits 44 to 63 of one word and the low bits of the next */
  lemma Clamp1(y5: int, b6: byte, b7: byte, b8: byte, b9: byte, b10: byte, b11: byte, b12: byte, x13: int)
    requires 0 <= y5 < 16 && 0 <= x13 < 16
    ensures var v := y5 + 0x10 * b6 + 0x1000 * b7 + 0x10_0000 * Oct(b8, b9, b10, b11, b12, x13, 0, 0);
      v % 0x1_0000 + 0x40_0000 * (v / 0x40_0000 % 0x40_0000)
      == y5 + 0x10 * b6 + 0x1000 * (b7 % 16) + 0x10_0000 * Quad(b8 - b8 % 4, b9, b10, 0)
  {
    var u := Oct(b8, b9, b10, b11, b12, x13, 0, 0);
    var v := y5 + 0x10 * b6 + 0x1000 * b7 + 0x10_0000 * u;
    DivUnique(v, 0x1_0000, b7 / 16 + 0x10 * u, y5 + 0x10 * b6 + 0x1000 * (b7 % 16));
    DivUnique(v, 0x40_0000, b8 / 4 + 0x40 * b9 + 0x4000 * b10 + 0x40_0000 * b11 + 0x4000_0000 * b12 + 0x40_0000_0000 * x13,
              y5 + 0x10 * b6 + 0x1000 * b7 + 0x10_0000 * (b8 % 4));
    DivUnique(v / 0x40_0000, 0x40_0000, b11 + 0x100 * b12 + 0x1_0000 * x13, b8 / 4 + 0x40 * b9 + 0x4000 * b10);
  }

  lemma Clamp2(b11: byte, b12: byte, b13: byte, b14: byte, b15: byte)
    ensures var v := b11 + 0x100 * Quad(b12, b13, b14, b15);
      v % 0x10 + 0x400 * (v / 0x400 % 0x400_0000) == b11 % 16 + 0x100 * Quad(b12 - b12 % 4, b13, b14, b15 % 16)
  {
    var v := b11 + 0x100 * Quad(b12, b13, b14, b15);
    DivUnique(v, 0x10, b11 / 16 + 0x10 * Quad(b12, b13, b14, b15), b11 % 16);
    DivUnique(v, 0x400, b12 / 4 + 0x40 * b13 + 0x4000 * b14 + 0x40_0000 * b15, b11 + 0x100 * (b12 % 4));
    DivUnique(v / 0x400, 0x400_0000, b15 / 16, b12 / 4 + 0x40 * b13 + 0x4000 * b14 + 0x40_0000 * (b15 % 16));
  }

  /** Where the bytes of two words are. */
  lemma Shifts(b0: byte, b1: byte, b2: byte, b3: byte, b4: byte, b5: byte, b6: byte, b7: byte)
    ensures var t := Oct(b0, b1, b2, b3, b4, b5, b6, b7);
      && t / 0x1000_0000_0000 == b5 / 16 + 0x10 * b6 + 0x1000 * b7
      && t % 0x1000_0000_0000 == Oct(b0, b1, b2, b3, b4, b5 % 16, 0, 0)
      && t / 0x100_0000 == b3 + 0x100 * Quad(b4, b5, b6, b7)
  {
    var t := Oct(b0, b1, b2, b3, b4, b5, b6, b7);
    DivUnique(t, 0x1000_0000_0000, b5 / 16 + 0x10 * b6 + 0x1000 * b7, Oct(b0, b1, b2, b3, b4, b5 % 16, 0, 0));
    DivUnique(t, 0x100_0000, b3 + 0x100 * Quad(b4, b5, b6, b7), Quad(b0, b1, b2, 0));
  }

  lemma ClampLinear(b0: int, b1: int, b2: int, b3: int, b4: int, x5: int, y5: int, b6: int, b7: int, b8: int,
                    b9: int, b10: int, b11: int, b12: int, b13: int, b14: int, b15: int)
    ensures Quad(b0, b1, b2, b3) + 0x1_0000_0000 * Quad(b4, x5 + 16 * y5, b6, b7)
        + 0x1_0000_0000_0000_0000 * Quad(b8, b9, b10, b11)
        + 0x1_0000_0000_0000_0000_0000_0000 * Quad(b12, b13, b14, b15)
      == Sum(Oct(b0, b1, b2, b3, b4, x5, 0, 0), y5 + 0x10 * b6 + 0x1000 * b7 + 0x10_0000 * Quad(b8, b9, b10, 0),
             b11 + 0x100 * Quad(b12, b13, b14, b15))
  {
  }

  lemma Limb0(b0: byte, b1: byte, b2: byte, b3: byte, b4: byte, b5: byte, b6: byte, b7: byte)
    ensures And(Oct(b0, b1, b2, b3, b4, b5, b6, b7), 0xffc0fffffff) == Oct(b0, b1, b2, b3 % 16, b4 - b4 % 4, b5 % 16, 0, 0)
  {
    assert Oct(b0, b1, b2, b3, b4, b5, b6, b7) >= 0;
    hide And, Oct;
    Masks(Oct(b0, b1, b2, b3, b4, b5, b6, b7), 0, 0);
    Clamp0(b0, b1, b2, b3, b4, b5, b6, b7);
  }

  lemma Limb1(b0: byte, b1: byte, b2: byte, b3: byte, b4: byte, b5: byte, b6: byte, b7: byte,
              b8: byte, b9: byte, b10: byte, b11: byte, b12: byte, b13: byte, b14: byte, b15: byte)
    ensures var t0 := Oct(b0, b1, b2, b3, b4, b5, b6, b7); var t1 := Oct(b8, b9, b10, b11, b12, b13, b14, b15);
      And(t0 / 0x1000_0000_0000 + 0x10_0000 * (t1 % 0x1000_0000_0000), 0xfffffc0ffff)
      == b5 / 16 + 0x10 * b6 + 0x1000 * (b7 % 16) + 0x10_0000 * Quad(b8 - b8 % 4, b9, b10, 0)
  {
    hide And, Oct, Quad;
    Shifts(b0, b1, b2, b3, b4, b5, b6, b7);
    Shifts(b8, b9, b10, b11, b12, b13, b14, b15);
    Masks(0, b5 / 16 + 0x10 * b6 + 0x1000 * b7 + 0x10_0000 * Oct(b8, b9, b10, b11, b12, b13 % 16, 0, 0), 0);
    Clamp1(b5 / 16, b6, b7, b8, b9, b10, b11, b12, b13 % 16);
  }

  lemma Limb2(b8: byte, b9: byte, b10: byte, b11: byte, b12: byte, b13: byte, b14: byte, b15: byte)
    ensures And(Oct(b8, b9, b10, b11, b12, b13, b14, b15) / 0x100_0000, 0x00ffffffc0f)
      == b11 % 16 + 0x100 * Quad(b12 - b12 % 4, b13, b14, b15 % 16)
  {
    hide And, Oct, Quad;
    Shifts(b8, b9, b10, b11, b12, b13, b14, b15);
    Masks(0, 0, b11 + 0x100 * Quad(b12, b13, b14, b15));
    Clamp2(b11, b12, b13, b14, b15);
  }

  lemma ClampedBytes(b0: byte, b1: byte, b2: byte, b3: byte, b4: byte, b5: byte, b6: byte, b7: byte,
                     b8: byte, b9: byte, b10: byte, b11: byte, b12: byte, b13: byte, b14: byte, b15: byte,
                     t0: nat, t1: nat, v: nat)
    requires t0 == Oct(b0, b1, b2, b3, b4, b5, b6, b7) && t1 == Oct(b8, b9, b10, b11, b12, b13, b14, b15)
    requires v == t0 / 0x1000_0000_0000 + 0x10_0000 * (t1 % 0x1000_0000_0000)
    ensures
      Quad(b0, b1, b2, b3 % 16) + 0x1_0000_0000 * Quad(b4 - b4 % 4, b5, b6, b7 % 16)
        + 0x1_0000_0000_0000_0000 * Quad(b8 - b8 % 4, b9, b10, b11 % 16)
        + 0x1_0000_0000_0000_0000_0000_0000 * Quad(b12 - b12 % 4, b13, b14, b15 % 16)
      == Sum(And(t0, 0xffc0fffffff), And(v, 0xfffffc0ffff), And(t1 / 0x100_0000, 0x00ffffffc0f))
  {
    hide And, Quad, Oct, Sum;
    Limb0(b0, b1, b2, b3, b4, b5, b6, b7);
    Limb1(b0, b1, b2, b3, b4, b5, b6, b7, b8, b9, b10, b11, b12, b13, b14, b15);
    Limb2(b8, b9, b10, b11, b12, b13, b14, b15);
    Nibbles(b5);
    ClampLinear(b0, b1, b2, b3 % 16, b4 - b4 % 4, b5 % 16, b5 / 16, b6, b7 % 16, b8 - b8 % 4, b9, b10, b11 % 16,
                b12 - b12 % 4, b13, b14, b15 % 16);
  }

  lemma {:induction false} ClampedLimbs(k: seq<byte>)
    requires |k| == 16
    ensures LoadLe(Clamp(k)) == Sum(
      And(Load64(k, 0) as nat, 0xffc0fffffff),
      And(Middle(Load64(k, 0), Load64(k, 8)) as nat, 0xfffffc0ffff),
      And(Load64(k, 8) as nat / 0x100_0000, 0x00ffffffc0f))
  {
    hide LoadLe, Load64, And, Clamp, Middle, Quad, Oct, Sum;
    LoadLe8(k[0..8]);
    LoadLe8(k[8..16]);
    ClampedBytes(k[0], k[1], k[2], k[3], k[4], k[5], k[6], k[7], k[8], k[9], k[10], k[11], k[12], k[13], k[14], k[15],
                 Load64(k, 0) as nat, Load64(k, 8) as nat, Middle(Load64(k, 0), Load64(k, 8)) as nat);
    ClampedLoad(k);
  }

  /** x & m */
  function And64(x: u64, m: u64): (r: u64)
    ensures r as nat == And(x as nat, m as nat) && r <= m
  {
    AndBound(x as nat, m as nat);
    And(x as nat, m as nat) as u64
  }

  ghost predicate Reduced(h: Limbs) {
    h.l0 < 0x1000_0000_0000 && h.l1 < 0x1000_0000_0000 && h.l2 < 0x400_0000_0000
  }

  /** One turn of the carry: out of limb 1, limb 2 and limb 0 */
  method CarryTurn(h: Limbs) returns (g: Limbs, ghost q: int)
    requires h.l0 < 0x1000_0000_0000 && h.l1 < 0x1000_0000_0100 && h.l2 < 0x400_0000_0000
    ensures g.l0 < 0x1000_0000_0000 && g.l1 <= 0x1000_0000_0000 && g.l2 < 0x400_0000_0000
    ensures Value(h) == Value(g) + P * q
    ensures h.l1 <= 0x1000_0000_0000 ==> g.l1 < 0x1000_0000_0000
  {
    var h0, h1, h2 := h.l0, h.l1, h.l2;
    var c := h1 / 0x1000_0000_0000;
    h1 := h1 % 0x1000_0000_0000;
    h2 := h2 + c;
    c := h2 / 0x400_0000_0000;
    h2 := h2 % 0x400_0000_0000;
    q := c as int;
    h0 := h0 + c * 5;
    c := h0 / 0x1000_0000_0000;
    h0 := h0 % 0x1000_0000_0000;
    h1 := h1 + c;
    g := Limbs(h0, h1, h2);
  }

  /** fully carry h */
  method FullCarry(h: Limbs) returns (g: Limbs, ghost q: int)
    requires Carried(h)
    ensures Reduced(g) && Value(h) == Value(g) + P * q
  {
    hide Sum;
    ghost var q';
    g, q := CarryTurn(h);
    g, q' := CarryTurn(g);
    q := q + q';
  }

  /** h + 5, the carries not taken out of the top limb */
  method AddFive(h: Limbs) returns (g: Limbs)
    requires Reduced(h)
    ensures g.l0 < 0x1000_0000_0000 && g.l1 < 0x1000_0000_0000 && g.l2 <= 0x400_0000_0000
    ensures Value(g) == Value(h) + 5
  {
    var g0 := h.l0 + 5;
    var c := g0 / 0x1000_0000_0000;
    g0 := g0 % 0x1000_0000_0000;
    var g1 := h.l1 + c;
    c := g1 / 0x1000_0000_0000;
    g1 := g1 % 0x1000_0000_0000;
    g := Limbs(g0, g1, h.l2 + c);
  }

  /** x - z in 64 bits, going around below zero */
  function SubWrap64(x: u64, z: u64): u64 {
    ((x as int - z as int) % 0x1_0000_0000_0000_0000) as u64
  }

  /** x & mask for a mask of all ones or all zeroes */
  function Select(x: u64, mask: u64): u64
    requires mask == 0 || mask == 0xffff_ffff_ffff_ffff
  {
    if mask == 0 then 0 else x
  }

  /** x | y for words of which one is zero */
  function Either(x: u64, y: u64): u64
    requires x == 0 || y == 0
  {
    if x == 0 then y else x
  }

  /** (h & ~mask) | (g & mask) */
  function Choose(h: u64, g: u64, mask: u64): (x: u64)
    requires mask == 0 || mask == 0xffff_ffff_ffff_ffff
    ensures x == if mask == 0 then h else g
  {
    Either(Select(h, 0xffff_ffff_ffff_ffff - mask), Select(g, mask))
  }

  /** All ones if the top limb of h + 5 reached 2^42, all zeroes otherwise; g2 is what remains of it. */
  method TopMask(top: u64) returns (g2: u64, mask: u64)
    requires top <= 0x400_0000_0000
    ensures top == 0x400_0000_0000 ==> g2 == 0 && mask == 0xffff_ffff_ffff_ffff
    ensures top < 0x400_0000_0000 ==> mask == 0
  {
    g2 := SubWrap64(top, 0x400_0000_0000);
    assert g2 == if top == 0x400_0000_0000 then 0 else top + 0xffff_fc00_0000_0000;
    mask := SubWrap64(g2 / 0x8000_0000_0000_0000, 1);
  }

  lemma FreezeValue(h: Limbs, g: Limbs)
    requires Reduced(h) && Value(g) == Value(h) + 5
    requires g.l0 < 0x1000_0000_0000 && g.l1 < 0x1000_0000_0000 && g.l2 <= 0x400_0000_0000
    ensures g.l2 == 0x400_0000_0000 ==> Value(Limbs(g.l0, g.l1, 0)) == Value(h) % P
    ensures g.l2 < 0x400_0000_0000 ==> Value(h) == Value(h) % P
  {
    assert Value(h) <= P + 4;
    FreezeLinear(g.l0 as int, g.l1 as int, g.l2 as int);
    hide Sum;
    if g.l2 == 0x400_0000_0000 {
      DivUnique(Value(h), P, 1, Value(Limbs(g.l0, g.l1, 0)));
    } else {
      DivUnique(Value(h), P, 0, Value(h));
    }
  }

  lemma FreezeLinear(g0: int, g1: int, g2: int)
    requires 0 <= g0 < 0x1000_0000_0000 && 0 <= g1 < 0x1000_0000_0000 && 0 <= g2 <= 0x400_0000_0000
    ensures g2 == 0x400_0000_0000 ==> Sum(g0, g1, g2) == P + 5 + Sum(g0, g1, 0)
    ensures g2 < 0x400_0000_0000 ==> Sum(g0, g1, g2) < P + 5
  {
  }

  /** compute h + -p; select h if h < p, or h + -p if h >= p */
  method Freeze(h: Limbs) returns (f: Limbs)
    requires Reduced(h)
    ensures Reduced(f) && Value(f) == Value(h) % P
  {
    hide Sum;
    var g := AddFive(h);
    var g2, mask := TopMask(g.l2);
    FreezeValue(h, g);
    f := Limbs(Choose(h.l0, g.l0, mask), Choose(h.l1, g.l1, mask), Choose(h.l2, g2, mask));
  }

  lemma CarryLinear(s0: int, s1: int, s2: int, m0: int, m1: int, m2: int, c0: int, c1: int, c2: int)
    requires s0 == m0 + 0x1000_0000_0000 * c0 && s1 + c0 == m1 + 0x1000_0000_0000 * c1
    requires s2 + c1 == m2 + 0x400_0000_0000 * c2
    ensures Sum(s0, s1, s2) == Sum(m0, m1, m2) + TWO_128 * (4 * c2)
  {
  }

  /** h = (h + nonce), in limbs, modulo 2^130 */
  method AddNonce(h: Limbs, t0: u64, t1: u64) returns (g: Limbs, ghost q: int)
    requires Reduced(h)
    ensures Reduced(g) && Value(h) + t0 as int + 0x1_0000_0000_0000_0000 * t1 as int == Value(g) + TWO_128 * q
  {
    hide Middle, Sum;
    var h0 := h.l0 + t0 % 0x1000_0000_0000;
    var c0 := h0 / 0x1000_0000_0000;
    var h1 := h.l1 + (Middle(t0, t1) % 0x1000_0000_0000 + c0);
    var c1 := h1 / 0x1000_0000_0000;
    var h2 := h.l2 + (t1 / 0x100_0000 % 0x400_0000_0000 + c1);
    g := Limbs(h0 % 0x1000_0000_0000, h1 % 0x1000_0000_0000, h2 % 0x400_0000_0000);
    q := 4 * (h2 / 0x400_0000_0000) as int;
    Cut(t0, t1);
    SumPlus(h.l0 as int, h.l1 as int, h.l2 as int, t0 as int % 0x1000_0000_0000, Middle(t0, t1) as int % 0x1000_0000_0000,
            t1 as int / 0x100_0000);
    CarryLinear(h0 as int, h1 as int - c0 as int, h2 as int - c1 as int, g.l0 as int, g.l1 as int, g.l2 as int,
                c0 as int, c1 as int, (h2 / 0x400_0000_0000) as int);
  }

  lemma SumPlus(x0: int, x1: int, x2: int, y0: int, y1: int, y2: int)
    ensures Sum(x0, x1, x2) + Sum(y0, y1, y2) == Sum(x0 + y0, x1 + y1, x2 + y2)
  {
  }

  lemma PackLinear(h0: int, x1: int, y1: int, x2: int, y2: int)
    ensures Sum(h0, x1 + 0x10_0000 * y1, x2 + 0x100_0000_0000 * y2) ==
      (h0 + 0x1000_0000_0000 * x1) + 0x1_0000_0000_0000_0000 * (y1 + 0x100_0000 * x2) + TWO_128 * y2
  {
  }

  /** mac = h % (2^128), as two words; the two parts or-ed together have no common bit */
  method Pack(h: Limbs) returns (w0: u64, w1: u64)
    requires Reduced(h)
    ensures w0 as int + 0x1_0000_0000_0000_0000 * w1 as int == Value(h) % TWO_128
  {
    hide Shl64;
    w0 := h.l0 + Shl64(h.l1, 0x1000_0000_0000, 0x10_0000);
    w1 := h.l1 / 0x10_0000 + Shl64(h.l2, 0x100_0000, 0x100_0000_0000);
    ghost var x1, y1 := h.l1 as int % 0x10_0000, h.l1 as int / 0x10_0000;
    ghost var x2, y2 := h.l2 as int % 0x100_0000_0000, h.l2 as int / 0x100_0000_0000;
    assert h.l1 as int == x1 + 0x10_0000 * y1 && h.l2 as int == x2 + 0x100_0000_0000 * y2;
    PackLinear(h.l0 as int, x1, y1, x2, y2);
    DivUnique(Value(h), TWO_128, y2, w0 as int + 0x1_0000_0000_0000_0000 * w1 as int);
  }

  /** ((u64)hi << 32) | lo */
  function Join(hi: u32, lo: u32): u64 {
    hi as u64 * 0x1_0000_0000 + lo as u64
  }

  lemma NonceWords(n0: u32, n1: u32, n2: u32, n3: u32)
    ensures Words4(n0 as int, n1 as int, n2 as int, n3 as int) ==
      Join(n1, n0) as int + 0x1_0000_0000_0000_0000 * Join(n3, n2) as int
  {
  }

  class State {
    var h: Limbs
    var r: Limbs
    var s1: u64
    var s2: u64

    ghost predicate Valid()
      reads this
    {
      Carried(h) && Key(r, s1, s2)
    }

    /** poly1305_init_generic */
    constructor (key: seq<byte>)
      requires |key| == 16
      ensures Valid() && Value(h) == 0 && Value(r) == LoadLe(Clamp(key))
    {
      ClampedLimbs(key);
      hide LoadLe, Load64, And, Clamp, Middle;
      var t0, t1 := Load64(key, 0), Load64(key, 8);
      var k := Limbs(And64(t0, 0xffc0fffffff), And64(Middle(t0, t1), 0xfffffc0ffff), And64(t1 / 0x100_0000, 0x00ffffffc0f));
      r := k;
      s1, s2 := k.l1 * 20, k.l2 * 20;
      h := Limbs(0, 0, 0);
    }

    /** poly1305_blocks_generic */
    method Blocks(input: seq<byte>, padbit: u32)
      requires Valid() && padbit <= 1
      modifies this`h
      ensures Valid() && Value(h) % P == Fold(old(Value(h)) % P, Value(r), input, padbit as nat)
    {
      hide LoadLe, Key, Carried, Step, Fold, Sum;
      var rest, acc := input, h;
      while |rest| >= POLY1305_BLOCK_SIZE
        invariant Carried(acc) && h == old(h)
        invariant Fold(Value(acc) % P, Value(r), rest, padbit as nat) == Fold(Value(h) % P, Value(r), input, padbit as nat)
        decreases |rest|
      {
        FoldStep(Value(acc) % P, Value(r), rest, padbit as nat);
        StepMod(Value(acc), Value(r), LoadLe(rest[..16]) + padbit as nat * TWO_128);
        acc := Round(acc, r, s1, s2, rest[..16], padbit);
        rest := rest[16..];
      }
      FoldStep(Value(acc) % P, Value(r), rest, padbit as nat);
      h := acc;
    }

    /** poly1305_emit_generic */
    method Emit(n0: u32, n1: u32, n2: u32, n3: u32) returns (mac: seq<byte>)
      requires Valid()
      ensures mac == StoreLe((Value(h) % P + Words4(n0 as int, n1 as int, n2 as int, n3 as int)) % TWO_128, 16)
    {
      hide StoreLe, Sum, Carried, Reduced, Words4, Join;
      ghost var q;
      var g;
      g, q := FullCarry(h);
      ModPlus(Value(g), q);
      g := Freeze(g);
      ghost var v := Value(g);
      var t0, t1 := Join(n1, n0), Join(n3, n2);
      NonceWords(n0, n1, n2, n3);
      g, q := AddNonce(g, t0, t1);
      ModPlus128(Value(g), q);
      var w0, w1 := Pack(g);
      Powers();
      StoreLeConcat(w0 as nat, w1 as nat, 8, 8, 0x1_0000_0000_0000_0000);
      mac := StoreLe(w0 as nat, 8) + StoreLe(w1 as nat, 8);
    }
  }
}
