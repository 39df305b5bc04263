/** The key derivation of noise.c on top of its hmac: HKDF (RFC 5869) with the
    chaining key as salt and no info, for up to three keys. */
module NoiseKdf {
  import opened Words
  import opened Hmac
  import Blake2s

  /** The first three blocks of HKDF */
  function Derived(h: HashFunction, data: seq<byte>, ck: seq<byte>): (Bytes32, Bytes32, Bytes32) {
    var t := Blocks(h, Extract(h, ck, data), [], 3);
    (t[..32], t[32..64], t[64..])
  }

  /** All of them, one after the other, are what HKDF-Expand gives for their length. */
  lemma {:induction false} DerivedIsExpanded(h: HashFunction, data: seq<byte>, ck: seq<byte>)
    ensures var (a, b, c) := Derived(h, data, ck); Expand(h, Extract(h, ck, data), [], 96) == a + b + c
  {
    hide Blocks, Extract;
    var t := Blocks(h, Extract(h, ck, data), [], 3);
    assert t[..96] == t;
  }

  /** Each key is the code of the one before it and its number. */
  lemma {:induction false} Chained(h: HashFunction, data: seq<byte>, ck: seq<byte>)
    ensures var (a, b, c) := Derived(h, data, ck); var prk := Extract(h, ck, data);
      a == Mac(h, prk, [1]) && b == Mac(h, prk, a + [2]) && c == Mac(h, prk, b + [3])
  {
    hide Mac, Extract;
    var prk := Extract(h, ck, data);
    var t0, t1, t2, t3 := Blocks(h, prk, [], 0), Blocks(h, prk, [], 1), Blocks(h, prk, [], 2), Blocks(h, prk, [], 3);
    assert [] + [] + [1] == [1];
    assert t1 == [] + Mac(h, prk, [1]);
    assert t1[0..] + [] + [2] == t1 + [2];
    assert t2 == t1 + Mac(h, prk, t1 + [2]);
    assert t2[32..] + [] + [3] == t2[32..] + [3];
    assert t3 == t2 + Mac(h, prk, t2[32..] + [3]);
  }

  /** hmac of output and its number into output */
  method Advance(f: Blake2s.Compression, output: array<byte>, n: byte, secret: seq<byte>)
    requires output.Length == 33
    modifies output
    ensures output[..32] == Mac(Blake2s.Unkeyed(f), secret, old(output[..32]) + [n])
  {
    hide Mac, Blake2s.Unkeyed;
    output[32] := n;
    assert output[..] == old(output[..32]) + [n];
    var t := Blake2s.Authenticate(f, output[..], secret, 32);
    Put(output, 0, t);
    assert output[..32] == t;
  }

  /** kdf; a destination that is NULL has length 0 */
  method Kdf(f: Blake2s.Compression, data: seq<byte>, firstLen: nat, secondLen: nat, thirdLen: nat, ck: seq<byte>)
    returns (first: seq<byte>, second: seq<byte>, third: seq<byte>)
    requires firstLen <= 32 && secondLen <= 32 && thirdLen <= 32
    ensures var d := Derived(Blake2s.Unkeyed(f), data, ck);
      && first == d.0[..firstLen]
      && second == (if firstLen == 0 then [] else d.1[..secondLen])
      && third == if firstLen == 0 || secondLen == 0 then [] else d.2[..thirdLen]
  {
    hide Mac, Derived, Blake2s.Unkeyed;
    first, second, third := [], [], [];
    ghost var d := Derived(Blake2s.Unkeyed(f), data, ck);
    Chained(Blake2s.Unkeyed(f), data, ck);
    var secret := Blake2s.Authenticate(f, data, ck, 32);
    assert secret == Extract(Blake2s.Unkeyed(f), ck, data);
    var output := new byte[33](_ => 0);
    if firstLen == 0 {
      return;
    }
    output[0] := 1;
    assert output[..1] == [1];
    var t := Blake2s.Authenticate(f, output[..1], secret, 32);
    Put(output, 0, t);
    assert output[..32] == t == d.0;
    first := output[..32][..firstLen];
    if secondLen == 0 {
      return;
    }
    Advance(f, output, 2, secret);
    second := output[..32][..secondLen];
    if thirdLen == 0 {
      return;
    }
    Advance(f, output, 3, secret);
    third := output[..32][..thirdLen];
  }
}
