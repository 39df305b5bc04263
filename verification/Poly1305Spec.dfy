/** Poly1305 as section 2.5 of RFC 8439 defines it, over natural numbers. */
module Poly1305Spec {
  import opened Words

  const P: nat := 0x3_ffff_ffff_ffff_ffff_ffff_ffff_ffff_fffb
  const TWO_128: nat := 0x1_0000_0000_0000_0000_0000_0000_0000_0000
  const POLY1305_BLOCK_SIZE: nat := 16

  function Step(acc: nat, r: nat, n: nat): nat {
    (acc + n) * r % P
  }

  /** The accumulator after the whole message: every 16-byte block, and the
      shorter one at the end, gets a one bit behind its last byte. */
  function Eval(acc: nat, r: nat, msg: seq<byte>): nat
    decreases |msg|
  {
    if msg == [] then acc
    else if |msg| < 16 then Step(acc, r, LoadLe(msg) + Pow2(8 * |msg|))
    else Eval(Step(acc, r, LoadLe(msg[..16]) + Pow2(128)), r, msg[16..])
  }

  /** The same over the 16-byte blocks at the front, with or without the one bit. */
  function Fold(acc: nat, r: nat, input: seq<byte>, pad: nat): nat
    decreases |input|
  {
    if |input| < 16 then acc
    else Fold(Step(acc, r, LoadLe(input[..16]) + pad * TWO_128), r, input[16..], pad)
  }

  lemma FoldStep(acc: nat, r: nat, input: seq<byte>, pad: nat)
    ensures |input| < 16 ==> Fold(acc, r, input, pad) == acc
    ensures |input| >= 16 ==>
      Fold(acc, r, input, pad) == Fold(Step(acc, r, LoadLe(input[..16]) + pad * TWO_128), r, input[16..], pad)
  {
  }

  lemma {:induction false} ModPlus(x: int, q: int)
    ensures (x + P * q) % P == x % P
  {
    DivUnique(x + P * q, P, x / P + q, x % P);
  }

  /** Reducing the accumulator first makes no difference. */
  lemma {:induction false} StepMod(acc: nat, r: nat, n: nat)
    ensures Step(acc % P, r, n) == Step(acc, r, n)
  {
    var q := acc / P;
    assert (acc + n) * r == (acc % P + n) * r + P * (q * r) by {
      assert acc == acc % P + P * q;
      Distribute(acc % P + n, P * q, r);
      Associate(P, q, r);
    }
    ModPlus((acc % P + n) * r, q * r);
  }

  /** The bits of r that have to be clear. */
  function ClampByte(b: byte, i: nat): byte {
    if i % 4 == 3 then b % 16
    else if i % 4 == 0 && i > 0 then b - b % 4
    else b
  }

  function Clamp(k: seq<byte>): seq<byte> {
    seq(|k|, i requires 0 <= i < |k| => ClampByte(k[i], i))
  }

  function Tag(key: seq<byte>, msg: seq<byte>): seq<byte>
    requires |key| == 32
  {
    StoreLe((Eval(0, LoadLe(Clamp(key[..16])), msg) + LoadLe(key[16..])) % TWO_128, 16)
  }

  lemma {:induction false} FoldConcat(acc: nat, r: nat, a: seq<byte>, b: seq<byte>, pad: nat)
    requires |a| % 16 == 0
    ensures Fold(acc, r, a + b, pad) == Fold(Fold(acc, r, a, pad), r, b, pad)
    decreases |a|
  {
    if a == [] {
      assert a + b == b;
    } else {
      hide Step;
      assert (a + b)[..16] == a[..16] && (a + b)[16..] == a[16..] + b;
      FoldConcat(Step(acc, r, LoadLe(a[..16]) + pad * TWO_128), r, a[16..], b, pad);
    }
  }

  /** The whole message is its full blocks, then what is left. */
  lemma {:induction false} EvalFold(acc: nat, r: nat, msg: seq<byte>)
    ensures var n := |msg| - |msg| % 16; var front := Fold(acc, r, msg[..n], 1);
      Eval(acc, r, msg) == if n == |msg| then front else Step(front, r, LoadLe(msg[n..]) + Pow2(8 * (|msg| - n)))
    decreases |msg|
  {
    hide Step, LoadLe, Pow2, Eval, Fold;
    var n := |msg| - |msg| % 16;
    EvalStep(acc, r, msg);
    FoldStep(acc, r, msg[..n], 1);
    if |msg| < 16 {
      assert msg[n..] == msg;
    } else {
      var m := msg[16..];
      assert |m| - |m| % 16 == n - 16;
      EvalFold(Step(acc, r, LoadLe(msg[..16]) + TWO_128), r, m);
      assert msg[..n][..16] == msg[..16] && msg[..n][16..] == m[..n - 16] && msg[n..] == m[n - 16..];
    }
  }

  lemma EvalStep(acc: nat, r: nat, msg: seq<byte>)
    ensures msg == [] ==> Eval(acc, r, msg) == acc
    ensures 0 < |msg| < 16 ==> Eval(acc, r, msg) == Step(acc, r, LoadLe(msg) + Pow2(8 * |msg|))
    ensures |msg| >= 16 ==> Eval(acc, r, msg) == Eval(Step(acc, r, LoadLe(msg[..16]) + TWO_128), r, msg[16..])
  {
    Powers();
    hide Pow2, Step, LoadLe;
  }

  /** A one behind the bytes, then zeroes: the one bit of a short block. */
  lemma {:induction false} LoadLePadded(m: seq<byte>, zeros: seq<byte>)
    requires forall i :: 0 <= i < |zeros| ==> zeros[i] == 0
    ensures LoadLe(m + [1] + zeros) == LoadLe(m) + Pow2(8 * |m|)
  {
    assert m + [1] + zeros == m + ([1] + zeros);
    LoadLeConcat(m, [1] + zeros);
    assert ([1] + zeros)[1..] == zeros;
    LoadLeZeros(zeros);
  }

  lemma {:induction false} LoadLeZeros(zeros: seq<byte>)
    requires forall i :: 0 <= i < |zeros| ==> zeros[i] == 0
    ensures LoadLe(zeros) == 0
  {
    if zeros != [] {
      LoadLeZeros(zeros[1..]);
    }
  }
}
