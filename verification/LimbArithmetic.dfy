/** What the two limb representations of poly1305 share. */
module LimbArithmetic {
  import opened Words
  import opened Poly1305Spec

  /** A product, under a name so that sums of products stay linear where it is hidden. */
  function Mul(x: int, y: int): int {
    x * y
  }

  lemma MulBound(x: int, y: int, a: int, b: int)
    requires 0 <= x <= a && 0 <= y <= b
    ensures 0 <= Mul(x, y) <= a * b
  {
  }

  lemma {:induction false} ShiftOut(x: nat, m: nat, d: nat)
    requires m > 0 && d > 0
    ensures m * d > 0 && x * m % (m * d) == m * (x % d)
  {
    var q, r := x / d, x % d;
    MulAtLeast(m, d);
    assert x * m == q * (m * d) + m * r by {
      assert x == q * d + r;
    }
    assert 0 <= m * r < m * d by {
      MulNonNegative(m, r);
      MulAtLeast(m, d - r);
      assert m * (d - r) == m * d - m * r;
    }
    DivUnique(x * m, m * d, q, m * r);
  }

  lemma {:induction false} ClampedLoad(k: seq<byte>)
    requires |k| == 16
    ensures LoadLe(Clamp(k)) ==
      Quad(k[0], k[1], k[2], k[3] % 16) + 0x1_0000_0000 * Quad(k[4] - k[4] % 4, k[5], k[6], k[7] % 16)
      + 0x1_0000_0000_0000_0000 * Quad(k[8] - k[8] % 4, k[9], k[10], k[11] % 16)
      + 0x1_0000_0000_0000_0000_0000_0000 * Quad(k[12] - k[12] % 4, k[13], k[14], k[15] % 16)
  {
    hide LoadLe, Quad;
    var c := Clamp(k);
    LoadLe16(c);
    LoadLe4(c[0..4]);
    LoadLe4(c[4..8]);
    LoadLe4(c[8..12]);
    LoadLe4(c[12..16]);
  }

  lemma Nibbles(b: byte)
    ensures b == b % 16 + 16 * (b / 16) && b == b % 64 + 64 * (b / 64) && b % 16 == b % 4 + 4 * (b % 16 / 4)
  {
  }

  function Words4(w0: int, w1: int, w2: int, w3: int): int {
    w0 + 0x1_0000_0000 * w1 + 0x1_0000_0000_0000_0000 * w2 + 0x1_0000_0000_0000_0000_0000_0000 * w3
  }

  lemma {:induction false} ModPlus128(x: int, q: int)
    ensures (x + TWO_128 * q) % TWO_128 == x % TWO_128
  {
    DivUnique(x + TWO_128 * q, TWO_128, x / TWO_128 + q, x % TWO_128);
  }
}
