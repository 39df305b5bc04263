/** The product of two blocks in the field of GHASH (section 6.3 of NIST
    SP 800-38D): blocks are polynomials over the field of two elements, bit by
    bit from the first one of the first byte, modulo
    x^128 + x^7 + x^2 + x + 1. */
module GaloisField {
  import opened Words

  /** The coefficients of a polynomial of degree below 256 */
  type Poly = s: seq<bool> | |s| == 256 witness seq(256, _ => false)

  /** The coefficient of x^k */
  predicate Coeff(b: Block, k: nat)
    requires k < 128
  {
    Bit(b[k / 8], 7 - k % 8)
  }

  // ---- polynomials ----

  function Zero(): Poly {
    seq(256, _ => false)
  }

  function Add(a: Poly, b: Poly): Poly {
    seq(256, k requires 0 <= k < 256 => a[k] != b[k])
  }

  /** x times a polynomial */
  function Shifted(a: Poly): Poly {
    seq(256, k requires 0 <= k < 256 => k > 0 && a[k - 1])
  }

  function Shift(a: Poly, n: nat): Poly {
    if n == 0 then a else Shifted(Shift(a, n - 1))
  }

  /** The product of the polynomial with the given coefficients and a */
  function Mul(bits: seq<bool>, a: Poly): Poly {
    if bits == [] then Zero()
    else
      var n := |bits| - 1;
      Add(Mul(bits[..n], a), if bits[n] then Shift(a, n) else Zero())
  }

  function Modulus(): Poly {
    seq(256, k => k == 0 || k == 1 || k == 2 || k == 7 || k == 128)
  }

  function Bits(b: Block): (s: seq<bool>)
    ensures |s| == 128
  {
    seq(128, k requires 0 <= k < 128 => Coeff(b, k))
  }

  function Wide(b: Block): Poly {
    seq(256, k requires 0 <= k < 256 => k < 128 && Coeff(b, k))
  }

  /** z is the remainder of the product of x and y. */
  ghost predicate IsProduct(x: Block, y: Block, z: Block) {
    exists q: seq<bool> :: |q| == 128 && Add(Mul(Bits(x), Wide(y)), Wide(z)) == Mul(q, Modulus())
  }

  // ---- how the code multiplies ----

  /** x >> 1 with the last bit of the byte before it in front */
  function Half(x: byte, before: byte): byte {
    x / 2 + 128 * (before % 2)
  }

  /** A block times x: the bits move one place, and the modulus comes off if the last one is set. */
  function Doubled(v: Block): Block {
    seq(16, j requires 0 <= j < 16 =>
      if j == 0 then XorByte(v[0] / 2, if v[15] % 2 == 1 then 0xe1 else 0) else Half(v[j], v[j - 1]))
  }

  function Power(v: Block, n: nat): Block {
    if n == 0 then v else Doubled(Power(v, n - 1))
  }

  function Partial(z: Block, v: Block, n: nat): Block
    requires n <= 128
  {
    if n == 0 then Zeros(16)
    else if Coeff(z, n - 1) then XorBytes(Partial(z, v, n - 1), Power(v, n - 1))
    else Partial(z, v, n - 1)
  }

  function Times(z: Block, v: Block): Block {
    Partial(z, v, 128)
  }

  // ---- bits of bytes ----

  lemma {:induction false} BitOfXor(x: nat, y: nat, i: nat)
    ensures Bit(Xor(x, y), i) == (Bit(x, i) != Bit(y, i))
    decreases i
  {
    XorStep(x, y);
    XorParts(x, y);
    if i > 0 {
      BitOfXor(x / 2, y / 2, i - 1);
    }
  }

  lemma {:induction false} CoeffOfXor(a: Block, b: Block, k: nat)
    requires k < 128
    ensures Coeff(XorBytes(a, b), k) == (Coeff(a, k) != Coeff(b, k))
  {
    BitOfXor(a[k / 8], b[k / 8], 7 - k % 8);
  }

  /** A bit that moves in from the left */
  lemma {:induction false} BitOfHalf(x: byte, c: nat, i: nat)
    requires c < 2 && i < 8
    ensures Bit(x / 2 + 128 * c, i) == if i == 7 then c == 1 else Bit(x, i + 1)
  {
    SmallPowers();
    BitLowHigh(x / 2, c, 7, i);
  }

  /** 0xe1 is the low part of the modulus. */
  lemma {:induction false} LowPart(r: nat)
    requires r < 8
    ensures Bit(0xe1, 7 - r) <==> r == 0 || r == 1 || r == 2 || r == 7
  {
    assert !Bit(0xe1, 1) && !Bit(0xe1, 2) && !Bit(0xe1, 3) && !Bit(0xe1, 4) by {
      assert Bit(0xe1, 4) == Bit(0x70, 3) == Bit(0x38, 2) == Bit(0x1c, 1) == Bit(0xe, 0);
      assert Bit(0xe1, 3) == Bit(0x70, 2) == Bit(0x38, 1) == Bit(0x1c, 0);
    }
    assert Bit(0xe1, 5) && Bit(0xe1, 6) && Bit(0xe1, 7) by {
      assert Bit(0xe1, 5) == Bit(0x70, 4) == Bit(0x38, 3) == Bit(0x1c, 2) == Bit(0xe, 1) == Bit(0x7, 0);
      assert Bit(0xe1, 6) == Bit(0x70, 5) == Bit(0x38, 4) == Bit(0x1c, 3) == Bit(0xe, 2) == Bit(0x7, 1) == Bit(0x3, 0);
      assert Bit(0xe1, 7) == Bit(0x70, 6) == Bit(0x38, 5) == Bit(0x1c, 4) == Bit(0xe, 3) == Bit(0x7, 2) == Bit(0x3, 1) == Bit(0x1, 0);
    }
  }

  lemma {:induction false} NoBits(i: nat)
    ensures !Bit(0, i)
  {
    if i > 0 {
      NoBits(i - 1);
    }
  }

  /** The first byte of a block times x */
  lemma {:induction false} FirstByte(v: Block, r: nat)
    requires r < 8
    ensures Bit(Doubled(v)[0], 7 - r) == ((r > 0 && Bit(v[0], 8 - r)) != (v[15] % 2 == 1 && (r == 0 || r == 1 || r == 2 || r == 7)))
  {
    hide Xor;
    var low := if v[15] % 2 == 1 then 0xe1 else 0;
    assert Doubled(v)[0] == Xor(v[0] / 2, low);
    hide Doubled;
    BitOfXor(v[0] / 2, low, 7 - r);
    BitOfHalf(v[0], 0, 7 - r);
    NoBits(7 - r);
    LowPart(r);
  }

  /** Any other byte of it */
  lemma {:induction false} OtherByte(v: Block, j: nat, r: nat)
    requires 0 < j < 16 && r < 8
    ensures Bit(Doubled(v)[j], 7 - r) == if r == 0 then Bit(v[j - 1], 0) else Bit(v[j], 8 - r)
  {
    assert Doubled(v)[j] == v[j] / 2 + 128 * (v[j - 1] % 2);
    BitOfHalf(v[j], v[j - 1] % 2, 7 - r);
  }

  lemma CoeffAt(b: Block, j: nat, r: nat)
    requires j < 16 && r < 8
    ensures Coeff(b, 8 * j + r) == Bit(b[j], 7 - r)
  {
    assert (8 * j + r) / 8 == j && (8 * j + r) % 8 == r;
  }

  lemma LastBit(v: Block)
    ensures Coeff(v, 127) == (v[15] % 2 == 1)
  {
  }

  lemma {:induction false} CoeffOfDoubled(v: Block, k: nat)
    requires k < 128
    ensures Coeff(Doubled(v), k)
      == ((k > 0 && Coeff(v, k - 1)) != (Coeff(v, 127) && (k == 0 || k == 1 || k == 2 || k == 7)))
  {
    hide Coeff, Doubled, Bit;
    var j, r := k / 8, k % 8;
    LastBit(v);
    CoeffAt(Doubled(v), j, r);
    if j == 0 {
      FirstByte(v, r);
    } else {
      OtherByte(v, j, r);
    }
    if r > 0 {
      CoeffAt(v, j, r - 1);
    } else if j > 0 {
      CoeffAt(v, j - 1, 7);
    }
  }

  // ---- sums and shifts ----

  lemma WideOfXor(a: Block, b: Block)
    ensures Wide(XorBytes(a, b)) == Add(Wide(a), Wide(b))
  {
    hide Coeff;
    forall k | 0 <= k < 128
      ensures Coeff(XorBytes(a, b), k) == (Coeff(a, k) != Coeff(b, k))
    {
      CoeffOfXor(a, b, k);
    }
  }

  lemma {:induction false} WideOfDoubled(v: Block)
    ensures Wide(Doubled(v)) == Add(Shifted(Wide(v)), if Coeff(v, 127) then Modulus() else Zero())
  {
    hide Coeff, Doubled;
    forall k | 0 <= k < 128
      ensures Coeff(Doubled(v), k) == ((k > 0 && Coeff(v, k - 1)) != (Coeff(v, 127) && (k == 0 || k == 1 || k == 2 || k == 7)))
    {
      CoeffOfDoubled(v, k);
    }
  }

  lemma AddZero(a: Poly)
    ensures Add(a, Zero()) == a && Add(Zero(), a) == a && Add(a, a) == Zero() && Shifted(Zero()) == Zero()
  {
  }

  lemma AddIsZero(a: Poly, b: Poly)
    requires Add(a, b) == Zero()
    ensures a == b
  {
    forall k | 0 <= k < 256
      ensures a[k] == b[k]
    {
      assert Add(a, b)[k] == Zero()[k];
    }
  }

  lemma AddCommon(a: Poly, b: Poly, c: Poly)
    ensures Add(Add(a, b), Add(a, c)) == Add(b, c)
  {
  }

  lemma AddSwap(a: Poly, b: Poly, c: Poly, d: Poly)
    ensures Add(Add(a, b), Add(c, d)) == Add(Add(a, c), Add(b, d))
  {
  }

  lemma ShiftedAdd(a: Poly, b: Poly)
    ensures Shifted(Add(a, b)) == Add(Shifted(a), Shifted(b))
  {
  }

  /** A factor x in front */
  lemma {:induction false} MulShift(c: bool, bits: seq<bool>, a: Poly)
    ensures Mul([c] + bits, a) == Add(Shifted(Mul(bits, a)), if c then a else Zero())
  {
    var all := [c] + bits;
    if bits == [] {
      assert all[..0] == [] && all[0] == c;
      AddZero(if c then a else Zero());
      AddZero(Zero());
      assert Shift(a, 0) == a;
    } else {
      var n := |bits| - 1;
      MulShift(c, bits[..n], a);
      assert all[..n + 1] == [c] + bits[..n] && all[n + 1] == bits[n];
      var last := if bits[n] then Shift(a, n) else Zero();
      assert (if all[n + 1] then Shift(a, n + 1) else Zero()) == Shifted(last) by { AddZero(last); }
      hide Mul, Shift;
      ShiftedAdd(Mul(bits[..n], a), last);
      var x := if c then a else Zero();
      assert Add(Add(Shifted(Mul(bits[..n], a)), x), Shifted(last)) == Add(Add(Shifted(Mul(bits[..n], a)), Shifted(last)), x);
    }
  }

  function Both(p: seq<bool>, q: seq<bool>): (s: seq<bool>)
    requires |p| == |q|
    ensures |s| == |p|
  {
    seq(|p|, i requires 0 <= i < |p| => p[i] != q[i])
  }

  lemma {:induction false} MulBoth(p: seq<bool>, q: seq<bool>, a: Poly)
    requires |p| == |q|
    ensures Mul(Both(p, q), a) == Add(Mul(p, a), Mul(q, a))
  {
    if p != [] {
      var n := |p| - 1;
      MulBoth(p[..n], q[..n], a);
      assert Both(p, q)[..n] == Both(p[..n], q[..n]);
      var x, y := if p[n] then Shift(a, n) else Zero(), if q[n] then Shift(a, n) else Zero();
      assert (if Both(p, q)[n] then Shift(a, n) else Zero()) == Add(x, y) by { AddZero(Shift(a, n)); AddZero(Zero()); }
      hide Shift, Mul;
      AddSwap(Mul(p[..n], a), x, Mul(q[..n], a), y);
    } else {
      AddZero(Zero());
    }
  }

  lemma MulNoMore(q: seq<bool>, a: Poly)
    ensures Mul(q + [false], a) == Mul(q, a)
  {
    assert (q + [false])[..|q|] == q;
    AddZero(Mul(q, a));
  }

  // ---- the code's product is the product ----

  lemma MulNone(a: Poly, v: Block)
    ensures Add(a, a) == Mul([], Modulus()) && Shift(a, 0) == a && Power(v, 0) == v
  {
  }

  /** The powers that the code keeps are those of x times v, up to multiples of the modulus. */
  lemma {:induction false} PowerCongruent(v: Block, n: nat) returns (q: seq<bool>)
    ensures |q| == n && Add(Shift(Wide(v), n), Wide(Power(v, n))) == Mul(q, Modulus())
  {
    hide Mul, Modulus, Wide, Doubled, Coeff;
    if n == 0 {
      q := [];
      MulNone(Wide(v), v);
    } else {
      var r := PowerCongruent(v, n - 1);
      var s, w := Shift(Wide(v), n - 1), Power(v, n - 1);
      var c := Coeff(w, 127);
      q := [c] + r;
      WideOfDoubled(w);
      MulShift(c, r, Modulus());
      ShiftedAdd(s, Wide(w));
      AddThree(Shifted(s), Shifted(Wide(w)), if c then Modulus() else Zero());
    }
  }

  lemma AddThree(a: Poly, b: Poly, c: Poly)
    ensures Add(a, Add(b, c)) == Add(Add(a, b), c)
  {
  }

  lemma {:induction false} PartialCongruent(z: Block, v: Block, n: nat) returns (q: seq<bool>)
    requires n <= 128
    ensures |q| == n && Add(Mul(Bits(z)[..n], Wide(v)), Wide(Partial(z, v, n))) == Mul(q, Modulus())
  {
    if n == 0 {
      q := [];
      WideOfZeros();
      AddZero(Zero());
    } else {
      var r := PartialCongruent(z, v, n - 1);
      var bits := Bits(z)[..n];
      assert bits[..n - 1] == Bits(z)[..n - 1] && bits[n - 1] == Coeff(z, n - 1);
      var a, b := Mul(bits[..n - 1], Wide(v)), Wide(Partial(z, v, n - 1));
      if Coeff(z, n - 1) {
        var s := PowerCongruent(v, n - 1);
        q := Both(r, s) + [false];
        WideOfXor(Partial(z, v, n - 1), Power(v, n - 1));
        MulBoth(r, s, Modulus());
        MulNoMore(Both(r, s), Modulus());
        hide Modulus, Wide, Power, Shift, XorBytes;
        AddSwap(a, Shift(Wide(v), n - 1), b, Wide(Power(v, n - 1)));
      } else {
        q := r + [false];
        MulNoMore(r, Modulus());
        AddZero(a);
      }
    }
  }

  lemma WideOfZeros()
    ensures Wide(Zeros(16)) == Zero()
  {
    forall k | 0 <= k < 128
      ensures !Coeff(Zeros(16), k)
    {
      NoBits(7 - k % 8);
    }
  }

  /** The product that the code computes is the product of the polynomials, reduced by the modulus. */
  lemma {:induction false} TimesIsProduct(x: Block, y: Block)
    ensures IsProduct(x, y, Times(x, y))
  {
    hide Partial, Mul, Modulus, Wide;
    var q := PartialCongruent(x, y, 128);
    assert Bits(x)[..128] == Bits(x);
  }

  // ---- and there is only one ----

  lemma {:induction false} DegreeBelow(a: Poly, n: nat, m: nat)
    requires forall k :: m <= k < 256 ==> !a[k]
    ensures forall k :: m + n <= k < 256 ==> !Shift(a, n)[k]
    ensures m + n <= 256 && m > 0 && a[m - 1] ==> Shift(a, n)[m + n - 1]
  {
    if n > 0 {
      DegreeBelow(a, n - 1, m);
    }
  }

  lemma {:induction false} MulDegree(q: seq<bool>)
    ensures forall k :: 128 + |q| <= k < 256 ==> !Mul(q, Modulus())[k]
  {
    if q != [] {
      var n := |q| - 1;
      MulDegree(q[..n]);
      DegreeBelow(Modulus(), n, 129);
    }
  }

  /** A multiple of the modulus of degree below 128 is zero. */
  lemma {:induction false} SmallMultiple(q: seq<bool>)
    requires |q| <= 128 && forall k :: 128 <= k < 256 ==> !Mul(q, Modulus())[k]
    ensures Mul(q, Modulus()) == Zero()
  {
    if q != [] {
      var n := |q| - 1;
      var last, top := if q[n] then Shift(Modulus(), n) else Zero(), 128 + n;
      assert Mul(q, Modulus())[top] == (Mul(q[..n], Modulus())[top] != last[top]);
      MulDegree(q[..n]);
      DegreeBelow(Modulus(), n, 129);
      assert !q[n];
      AddZero(Mul(q[..n], Modulus()));
      SmallMultiple(q[..n]);
    }
  }

  lemma {:induction false} SameBits(x: byte, y: byte)
    requires forall i :: 0 <= i < 8 ==> Bit(x, i) == Bit(y, i)
    ensures x == y
  {
    HalfOf(x, y, 8);
  }

  lemma {:induction false} HalfOf(x: nat, y: nat, n: nat)
    requires x < Pow2(n) && y < Pow2(n) && forall i :: 0 <= i < n ==> Bit(x, i) == Bit(y, i)
    ensures x == y
  {
    if n > 0 {
      forall i | 0 <= i < n - 1
        ensures Bit(x / 2, i) == Bit(y / 2, i)
      {
        assert Bit(x, i + 1) == Bit(y, i + 1);
      }
      HalfOf(x / 2, y / 2, n - 1);
      assert Bit(x, 0) == Bit(y, 0);
    }
  }

  lemma {:induction false} SameBlock(u: Block, v: Block)
    requires Wide(u) == Wide(v)
    ensures u == v
  {
    forall j | 0 <= j < 16
      ensures u[j] == v[j]
    {
      forall i | 0 <= i < 8
        ensures Bit(u[j], i) == Bit(v[j], i)
      {
        var k := 8 * j + (7 - i);
        assert k / 8 == j && k % 8 == 7 - i;
        assert Wide(u)[k] == Wide(v)[k];
      }
      SameBits(u[j], v[j]);
    }
  }

  lemma {:induction false} ProductUnique(x: Block, y: Block, z: Block)
    requires IsProduct(x, y, z)
    ensures z == Times(x, y)
  {
    hide Partial, Mul, Modulus;
    var a, b, t := Mul(Bits(x), Wide(y)), Wide(z), Wide(Times(x, y));
    var q: seq<bool> :| |q| == 128 && Add(a, b) == Mul(q, Modulus());
    var r := PartialCongruent(x, y, 128);
    assert Bits(x)[..128] == Bits(x);
    MulBoth(q, r, Modulus());
    hide Times, Bits, Coeff;
    AddCommon(a, b, t);
    SmallMultiple(Both(q, r));
    AddIsZero(b, t);
    SameBlock(z, Times(x, y));
  }

  // ---- the code ----

  /** The loop over result */
  method XorInto(result: array<byte>, v: array<byte>)
    requires result.Length == 16 && v.Length == 16 && result != v
    modifies result
    ensures result[..] == XorBytes(old(result[..]), v[..])
  {
    hide XorByte;
    for j := 0 to 16
      invariant forall k :: 0 <= k < j ==> result[k] == XorByte(old(result[k]), v[k])
      invariant forall k :: j <= k < 16 ==> result[k] == old(result[k])
    {
      result[j] := XorByte(result[j], v[j]);
    }
  }

  /** The shift of vtmp, from its last byte to its first */
  method Double(v: array<byte>)
    requires v.Length == 16
    modifies v
    ensures v[..] == Doubled(old(v[..]))
  {
    hide XorByte, Half;
    var carry := v[15] % 2;
    var j := 15;
    while j > 0
      invariant 0 <= j <= 15
      invariant forall k :: j < k < 16 ==> v[k] == Half(old(v[k]), old(v[k - 1]))
      invariant forall k :: 0 <= k <= j ==> v[k] == old(v[k])
    {
      v[j] := Half(v[j], v[j - 1]);
      j := j - 1;
    }
    v[0] := v[0] / 2;
    NoChange(v[0]);
    if carry == 1 {
      v[0] := XorByte(v[0], 0xe1);
    }
    assert v[..] == Doubled(old(v[..]));
  }

  lemma NoChange(x: byte)
    ensures XorByte(x, 0) == x
  {
    XorZero(x);
  }

  /** gcm_gmul */
  method Multiply(z: array<byte>, v: Block)
    requires z.Length == 16
    modifies z
    ensures z[..] == Times(old(z[..]), v)
  {
    hide Coeff, Doubled, XorBytes;
    ghost var was := z[..];
    var result := new byte[16](_ => 0);
    var vtmp := new byte[16](j requires 0 <= j < 16 => v[j]);
    assert vtmp[..] == v && result[..] == Zeros(16);
    for i := 0 to 16
      invariant fresh(result) && fresh(vtmp) && result != vtmp && z[..] == was
      invariant result[..] == Partial(was, v, 8 * i) && vtmp[..] == Power(v, 8 * i)
    {
      MultiplyByte(z[i], result, vtmp, was, v, i);
    }
    Put(z, 0, result[..]);
    assert z[..] == result[..];
  }

  /** The loop over the bits of one byte */
  method MultiplyByte(x: byte, result: array<byte>, vtmp: array<byte>, ghost was: Block, ghost v: Block, ghost i: nat)
    requires i < 16 && x == was[i] && result.Length == 16 && vtmp.Length == 16 && result != vtmp
    requires result[..] == Partial(was, v, 8 * i) && vtmp[..] == Power(v, 8 * i)
    modifies result, vtmp
    ensures result[..] == Partial(was, v, 8 * i + 8) && vtmp[..] == Power(v, 8 * i + 8)
  {
    hide Doubled, XorBytes, Bit;
    for n := 0 to 8
      invariant result[..] == Partial(was, v, 8 * i + n) && vtmp[..] == Power(v, 8 * i + n)
    {
      assert (8 * i + n) / 8 == i && (8 * i + n) % 8 == n;
      if Bit(x, 7 - n) {
        XorInto(result, vtmp);
      }
      Double(vtmp);
    }
  }
}
