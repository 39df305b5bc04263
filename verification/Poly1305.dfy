/** poly1305.c: the buffer between callers that hand over any number of bytes
    and a block function that wants sixteen. */
module Poly1305 {
  import opened Words
  import opened Poly1305Spec
  import opened LimbArithmetic
  import Donna32
  import Donna64

  /** The block function's part of the context, in one of the two representations */
  datatype Backend = Narrow(n: Donna32.State) | Wide(w: Donna64.State) {
    ghost function Objects(): set<object> {
      match this
      case Narrow(s) => {s}
      case Wide(s) => {s}
    }

    ghost predicate Valid()
      reads Objects()
    {
      match this
      case Narrow(s) => s.Valid()
      case Wide(s) => s.Valid()
    }

    ghost function Acc(): nat
      reads Objects()
    {
      match this
      case Narrow(s) => Donna32.Value(s.h) % P
      case Wide(s) => Donna64.Value(s.h) % P
    }

    ghost function R(): nat
      reads Objects()
    {
      match this
      case Narrow(s) => Donna32.Value(s.r)
      case Wide(s) => Donna64.Value(s.r)
    }
  }

  /** poly1305_blocks */
  method Blocks(o: Backend, input: seq<byte>, padbit: u32)
    requires o.Valid() && padbit <= 1
    modifies o.Objects()
    ensures o.Valid() && o.R() == old(o.R()) && o.Acc() == Fold(old(o.Acc()), o.R(), input, padbit as nat)
  {
    match o {
      case Narrow(s) => s.Blocks(input, padbit);
      case Wide(s) => s.Blocks(input, padbit);
    }
  }

  /** poly1305_emit */
  method Emit(o: Backend, n0: u32, n1: u32, n2: u32, n3: u32) returns (mac: seq<byte>)
    requires o.Valid()
    ensures mac == StoreLe((o.Acc() + Words4(n0 as int, n1 as int, n2 as int, n3 as int)) % TWO_128, 16)
  {
    match o {
      case Narrow(s) => mac := s.Emit(n0, n1, n2, n3);
      case Wide(s) => mac := s.Emit(n0, n1, n2, n3);
    }
  }

  /** The state holds all full blocks of fed, the buffer the rest. */
  ghost predicate Buffered(acc: nat, r: nat, data: seq<byte>, num: nat, fed: seq<byte>) {
    && num < 16 == |data| && num == |fed| % 16 && data[..num] == fed[|fed| - num..]
    && acc == Fold(0, r, fed[..|fed| - num], 1)
  }

  lemma {:induction false} BufferedShort(acc: nat, r: nat, data: seq<byte>, num: nat, fed: seq<byte>, input: seq<byte>, data': seq<byte>)
    requires Buffered(acc, r, data, num, fed) && num + |input| < 16
    requires |data'| == 16 && data'[..num + |input|] == data[..num] + input
    ensures Buffered(acc, r, data', num + |input|, fed + input)
  {
    var all, n := fed + input, |fed| - num;
    assert all[..n] == fed[..n] && all[n..] == fed[n..] + input;
  }

  /** Filling the buffer and folding it in. */
  lemma {:induction false} BufferedFill(acc: nat, r: nat, data: seq<byte>, num: nat, fed: seq<byte>, input: seq<byte>, data': seq<byte>)
    requires Buffered(acc, r, data, num, fed) && num + |input| == 16 && data' == data[..num] + input
    ensures Buffered(Fold(acc, r, data', 1), r, data', 0, fed + input)
  {
    hide Fold;
    var all, n := fed + input, |fed| - num;
    FoldConcat(0, r, fed[..n], data', 1);
    assert all == fed[..n] + data' && all[..|all|] == all;
  }

  /** Folding in whole blocks past an empty buffer, and buffering what is left. */
  lemma {:induction false} BufferedRest(acc: nat, r: nat, data: seq<byte>, fed: seq<byte>, input: seq<byte>, data': seq<byte>)
    requires Buffered(acc, r, data, 0, fed) && |data'| == 16
    requires var rem := |input| % 16; data'[..rem] == input[|input| - rem..]
    ensures var rem := |input| % 16;
      Buffered(Fold(acc, r, input[..|input| - rem], 1), r, data', rem, fed + input)
  {
    hide Fold;
    var rem := |input| % 16;
    var all, n := fed + input, |input| - rem;
    assert fed[..|fed|] == fed;
    FoldConcat(0, r, fed, input[..n], 1);
    assert all[..|fed| + n] == fed + input[..n] && all[|fed| + n..] == input[n..];
  }

  class Context {
    var state: Backend
    var n0: u32
    var n1: u32
    var n2: u32
    var n3: u32
    var data: array<byte>
    var num: nat
    /** the key and the message so far */
    ghost var key: seq<byte>
    ghost var fed: seq<byte>

    ghost predicate Valid()
      reads this, data, state.Objects()
    {
      && |key| == 32 && data.Length == 16 && state.Valid()
      && state.R() == LoadLe(Clamp(key[..16])) && Words4(n0 as int, n1 as int, n2 as int, n3 as int) == LoadLe(key[16..])
      && Buffered(state.Acc(), state.R(), data[..], num, fed)
    }

    /** poly1305_init; narrow says which representation the build has */
    constructor (k: seq<byte>, narrow: bool)
      requires |k| == 32
      ensures Valid() && key == k && fed == [] && fresh(data) && fresh(state.Objects())
    {
      hide LoadLe, Clamp, Donna32.Sum, Donna64.Sum, Words4;
      LoadLe16(k[16..]);
      NonceLoad(k);
      n0, n1, n2, n3 := Donna32.Load32(k, 16), Donna32.Load32(k, 20), Donna32.Load32(k, 24), Donna32.Load32(k, 28);
      if narrow {
        var s := new Donna32.State(k[..16]);
        state := Narrow(s);
      } else {
        var s := new Donna64.State(k[..16]);
        state := Wide(s);
      }
      data := new byte[16];
      num := 0;
      key, fed := k, [];
    }

    method Append(input: seq<byte>)
      requires Valid() && num + |input| < 16
      modifies this`num, this`fed, data
      ensures Valid() && fed == old(fed) + input
    {
      hide LoadLe, Clamp, Fold, Words4;
      Put(data, num, input);
      BufferedShort(state.Acc(), state.R(), old(data[..]), num, fed, input, data[..]);
      num, fed := num + |input|, fed + input;
    }

    method FillBlock(input: seq<byte>)
      requires Valid() && num + |input| == 16
      modifies this`num, this`fed, data, state.Objects()
      ensures Valid() && num == 0 && fed == old(fed) + input
    {
      hide LoadLe, Clamp, Fold, Words4;
      Put(data, num, input);
      BufferedFill(state.Acc(), state.R(), old(data[..]), num, fed, input, data[..]);
      Blocks(state, data[..], 1);
      num, fed := 0, fed + input;
    }

    method Whole(input: seq<byte>)
      requires Valid() && num == 0
      modifies this`num, this`fed, data, state.Objects()
      ensures Valid() && fed == old(fed) + input
    {
      hide LoadLe, Clamp, Fold, Words4, Backend.Acc, Backend.R, Backend.Valid;
      var rem := |input| % POLY1305_BLOCK_SIZE;
      var len := |input| - rem;
      ghost var acc := state.Acc();
      if len >= POLY1305_BLOCK_SIZE {
        Blocks(state, input[..len], 1);
      } else {
        FoldStep(acc, state.R(), input[..len], 1);
      }
      if rem != 0 {
        Put(data, 0, input[len..]);
      }
      BufferedRest(acc, state.R(), old(data[..]), fed, input, data[..]);
      num, fed := rem, fed + input;
    }

    /** poly1305_update */
    method Update(input: seq<byte>)
      requires Valid()
      modifies this`num, this`fed, data, state.Objects()
      ensures Valid() && fed == old(fed) + input
    {
      assert num < 16;
      hide *;
      if num == 0 {
        Whole(input);
        return;
      }
      var rem := POLY1305_BLOCK_SIZE - num;
      if |input| < rem {
        Append(input);
        return;
      }
      FillBlock(input[..rem]);
      Whole(input[rem..]);
      assert input == input[..rem] + input[rem..];
    }

    /** The bytes behind the last ones, a one and zeroes */
    method PadBlock()
      requires data.Length == 16 && num < 16
      modifies this`num, data
      ensures num == 16 && data[..] == old(data[..num]) + [1] + seq(15 - old(num), _ => 0)
    {
      data[num] := 1;
      num := num + 1;
      while num < POLY1305_BLOCK_SIZE
        invariant old(num) < num <= 16 && data.Length == 16
        invariant data[..old(num)] == old(data[..num]) && data[old(num)] == 1
        invariant forall i :: old(num) < i < num ==> data[i] == 0
      {
        data[num] := 0;
        num := num + 1;
      }
    }

    /** poly1305_final */
    method Final() returns (mac: seq<byte>)
      requires Valid()
      modifies this`num, data, state.Objects()
      ensures mac == Tag(key, fed)
    {
      hide LoadLe, Clamp, Fold, Words4, Step, Eval, StoreLe, Pow2, Backend.Acc, Backend.R, Backend.Valid;
      ghost var r, acc, tail := state.R(), state.Acc(), data[..num];
      EvalFold(0, r, fed);
      if num != 0 {
        LoadLePadded(tail, seq(15 - num, _ => 0));
        PadBlock();
        Blocks(state, data[..], 0);
        FoldOne(acc, r, data[..]);
      }
      mac := Emit(state, n0, n1, n2, n3);
    }
  }

  lemma {:induction false} FoldOne(acc: nat, r: nat, block: seq<byte>)
    requires |block| == 16
    ensures Fold(acc, r, block, 0) == Step(acc, r, LoadLe(block))
  {
    hide Step, LoadLe;
    assert block[..16] == block;
    FoldStep(acc, r, block, 0);
    FoldStep(Step(acc, r, LoadLe(block)), r, block[16..], 0);
  }

  lemma {:induction false} NonceLoad(k: seq<byte>)
    requires |k| == 32
    ensures LoadLe(k[16..]) == Words4(Donna32.Load32(k, 16) as int, Donna32.Load32(k, 20) as int,
                                      Donna32.Load32(k, 24) as int, Donna32.Load32(k, 28) as int)
  {
    hide LoadLe;
    var n := k[16..];
    LoadLe16(n);
    assert n[0..4] == k[16..20] && n[4..8] == k[20..24] && n[8..12] == k[24..28] && n[12..16] == k[28..32];
  }
}
