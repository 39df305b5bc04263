/** counter_validate of receive.c: the bitmap of RFC 6479 as a set of the
    counters accepted so far. */
module ReplayWindow {
  import opened Words

  const BITS_PER_LONG: u64 := 64
  const COUNTER_BITS_TOTAL: u64 := 8192
  const COUNTER_WINDOW_SIZE: u64 := COUNTER_BITS_TOTAL - BITS_PER_LONG
  const U64_MAX: u64 := 0xffff_ffff_ffff_ffff
  const REJECT_AFTER_MESSAGES: u64 := U64_MAX - COUNTER_WINDOW_SIZE - 1
  const WORDS: u64 := COUNTER_BITS_TOTAL / BITS_PER_LONG

  /** One more than the highest counter accepted. */
  ghost predicate IsHighest(accepted: set<nat>, counter: nat) {
    && (forall n :: n in accepted ==> n < counter)
    && (counter == 0 || counter - 1 in accepted)
  }

  /** What the bitmap stands for: a counter is accepted if it is below the limit, not behind the window that
      ends at the highest one accepted, and not accepted before. */
  ghost predicate Acceptable(accepted: set<nat>, counter: nat, n: nat) {
    n < REJECT_AFTER_MESSAGES as nat && counter <= n + 1 + COUNTER_WINDOW_SIZE as nat && n !in accepted
  }

  /** Bit b of word number w is for the counter 64 * w + b - 1. */
  ghost predicate Seen(accepted: set<nat>, w: nat, b: nat) {
    64 * w + b > 0 && 64 * w + b - 1 in accepted
  }

  /** The 128 words up to the one of the highest counter. */
  ghost predicate Live(counter: nat, w: nat) {
    w <= counter / 64 < w + 128
  }

  lemma SameSlot(v: nat, w: nat)
    requires v % 128 == w % 128 && v < w + 128 && w < v + 128
    ensures v == w
  {
  }

  class ReplayCounter {
    var counter: u64
    /** backtrack[i] has the bits backtrack[i, 0] to backtrack[i, 63] */
    const backtrack: array2<bool>
    ghost var accepted: set<nat>

    ghost predicate Shaped() {
      backtrack.Length0 == 128 && backtrack.Length1 == 64
    }

    /** The bitmap is right for the words that are live for counter c. */
    ghost predicate Tracks(c: nat)
      requires Shaped()
      reads this, backtrack
    {
      forall w: nat, b: nat :: Live(c, w) && b < 64 ==> (backtrack[w % 128, b] <==> Seen(accepted, w, b))
    }

    ghost predicate Valid()
      reads this, backtrack
    {
      && Shaped() && counter <= REJECT_AFTER_MESSAGES
      && IsHighest(accepted, counter as nat) && Tracks(counter as nat)
    }

    constructor ()
      ensures Valid() && accepted == {} && fresh(backtrack)
    {
      counter, accepted := 0, {};
      backtrack := new bool[128, 64]((_, _) => false);
    }

    /** counter->backtrack[i & (COUNTER_BITS_TOTAL / BITS_PER_LONG - 1)] = 0 */
    method ClearWord(i: u64)
      requires Shaped()
      modifies backtrack
      ensures forall j, b :: 0 <= j < 128 && 0 <= b < 64 ==>
        backtrack[j, b] == (if j == i as int % 128 then false else old(backtrack[j, b]))
    {
      var slot := (i % WORDS) as int;
      forall b | 0 <= b < 64 {
        backtrack[slot, b] := false;
      }
    }

    /** The words behind the one of the old counter, up to all of them */
    method ClearWords(current: u64, top: u64)
      requires Shaped() && top <= 128 && current as nat + 128 <= U64_MAX as nat
      modifies backtrack
      ensures forall j, b :: 0 <= j < 128 && 0 <= b < 64 ==>
        backtrack[j, b] == (if Cleared(current as nat, top as nat, j) then false else old(backtrack[j, b]))
    {
      var i := 1;
      while i <= top
        invariant 1 <= i <= top + 1
        invariant forall j, b :: 0 <= j < 128 && 0 <= b < 64 ==>
          backtrack[j, b] == (if Cleared(current as nat, i as nat - 1, j) then false else old(backtrack[j, b]))
      {
        ClearWord(i + current);
        ghost var c, before, now := current as nat, i as nat - 1, i as nat;
        forall j: nat | j < 128
          ensures Cleared(c, now, j) <==> Cleared(c, before, j) || j == (now + c) % 128
        {
          ClearedNext(c, now, j);
        }
        i := i + 1;
      }
    }

    /** Move the window up to c */
    method MoveUp(c: u64)
      requires Valid() && counter < c <= REJECT_AFTER_MESSAGES
      modifies this`counter, backtrack
      ensures Shaped() && counter == c && Tracks(c as nat)
    {
      var index, current := c / BITS_PER_LONG, counter / BITS_PER_LONG;
      var top := if index - current < COUNTER_BITS_TOTAL / BITS_PER_LONG then index - current else COUNTER_BITS_TOTAL / BITS_PER_LONG;
      ClearWords(current, top);
      forall w: nat, b: nat | Live(c as nat, w) && b < 64
        ensures backtrack[w % 128, b] <==> Seen(accepted, w, b)
      {
        ClearedWords(current as nat, index as nat, w);
        if w > current as nat {
          assert 64 * w + b > counter as nat;
        } else {
          assert Live(counter as nat, w);
        }
      }
      counter := c;
    }

    /** test_and_set_bit for c, the old bit inverted */
    method TestAndSet(c: u64) returns (ret: bool)
      requires Shaped() && 1 <= c <= counter && Tracks(counter as nat) && Live(counter as nat, c as nat / 64)
      modifies this`accepted, backtrack
      ensures Tracks(counter as nat) && accepted == old(accepted) + {c as nat - 1}
      ensures ret <==> c as nat - 1 !in old(accepted)
    {
      var index, bit := (c / BITS_PER_LONG % WORDS) as int, (c % BITS_PER_LONG) as int;
      ret := !backtrack[index, bit];
      backtrack[index, bit] := true;
      accepted := accepted + {c as nat - 1};
      forall w: nat, b: nat | Live(counter as nat, w) && b < 64
        ensures backtrack[w % 128, b] <==> Seen(accepted, w, b)
      {
        assert old(backtrack[w % 128, b]) <==> Seen(old(accepted), w, b);
        if w % 128 == index {
          SameSlot(w, c as nat / 64);
        }
      }
    }

    lemma CounterIsHighest()
      requires Valid()
      ensures IsHighest(accepted, counter as nat)
    {
    }

    /** counter_validate */
    method Validate(theirCounter: u64) returns (ret: bool)
      requires Valid()
      modifies this, backtrack
      ensures Valid() && (ret <==> Acceptable(old(accepted), old(counter) as nat, theirCounter as nat))
      ensures accepted == if ret then old(accepted) + {theirCounter as nat} else old(accepted)
      ensures counter == if ret && old(counter) <= theirCounter then theirCounter + 1 else old(counter)
    {
      if counter >= REJECT_AFTER_MESSAGES + 1 || theirCounter >= REJECT_AFTER_MESSAGES {
        return false;
      }
      var c := theirCounter + 1;
      if COUNTER_WINDOW_SIZE + c < counter {
        return false;
      }
      if c > counter {
        MoveUp(c);
      }
      ret := TestAndSet(c);
      if !ret {
        assert accepted == old(accepted);
      }
    }
  }

  /** What is decided about arrival number i, given what was accepted before it; highest[i] is one more than the
      highest counter among those. */
  ghost predicate JudgedAt(arrivals: seq<u64>, verdicts: seq<bool>, highest: seq<nat>, i: nat)
    requires i < |arrivals| && |verdicts| == |highest| == |arrivals|
  {
    var accepted := AcceptedOf(arrivals[..i], verdicts[..i]);
    IsHighest(accepted, highest[i]) && (verdicts[i] <==> Acceptable(accepted, highest[i], arrivals[i] as nat))
  }

  ghost predicate Judged(arrivals: seq<u64>, verdicts: seq<bool>, highest: seq<nat>) {
    && |verdicts| == |highest| == |arrivals|
    && forall i :: 0 <= i < |arrivals| ==> JudgedAt(arrivals, verdicts, highest, i)
  }

  lemma {:induction false} JudgedNext(arrivals: seq<u64>, verdicts: seq<bool>, highest: seq<nat>, n: u64, v: bool, c: nat)
    requires Judged(arrivals, verdicts, highest) && IsHighest(AcceptedOf(arrivals, verdicts), c)
    requires v <==> Acceptable(AcceptedOf(arrivals, verdicts), c, n as nat)
    ensures Judged(arrivals + [n], verdicts + [v], highest + [c])
  {
    hide IsHighest, Acceptable, AcceptedOf;
    var as', vs, hs := arrivals + [n], verdicts + [v], highest + [c];
    forall i | 0 <= i < |as'|
      ensures JudgedAt(as', vs, hs, i)
    {
      if i < |arrivals| {
        assert JudgedAt(arrivals, verdicts, highest, i);
        assert as'[..i] == arrivals[..i] && vs[..i] == verdicts[..i];
      } else {
        assert as'[..i] == arrivals && vs[..i] == verdicts;
      }
    }
  }

  lemma {:induction false} AcceptedAt(arrivals: seq<u64>, verdicts: seq<bool>, i: nat, j: nat)
    requires |arrivals| == |verdicts| && i < j <= |arrivals| && verdicts[i]
    ensures arrivals[i] as nat in AcceptedOf(arrivals[..j], verdicts[..j])
  {
    assert arrivals[..j][i] == arrivals[i] && verdicts[..j][i];
  }

  lemma {:induction false} NoneTwice(arrivals: seq<u64>, verdicts: seq<bool>, highest: seq<nat>, i: nat, j: nat)
    requires Judged(arrivals, verdicts, highest) && i < j < |arrivals| && arrivals[i] == arrivals[j]
    ensures !(verdicts[i] && verdicts[j])
  {
    hide AcceptedOf, IsHighest;
    assert JudgedAt(arrivals, verdicts, highest, j);
    if verdicts[i] {
      AcceptedAt(arrivals, verdicts, i, j);
    }
  }

  /** Any sequence of arrivals at a new keypair, repeated and out of order as it may be: a counter is accepted
      exactly if it is below the limit, has not been accepted before and is not behind the window that ends at
      the highest one accepted before; so none is accepted twice. */
  method DeliverAll(arrivals: seq<u64>) returns (verdicts: seq<bool>, ghost highest: seq<nat>)
    ensures Judged(arrivals, verdicts, highest)
    ensures forall i, j :: 0 <= i < j < |arrivals| && arrivals[i] == arrivals[j] ==> !(verdicts[i] && verdicts[j])
  {
    var replay := new ReplayCounter();
    verdicts, highest := [], [];
    hide ReplayCounter.Valid, Judged, Acceptable;
    assert Judged(arrivals[..0], [], []) by { NoneYet(); }
    for k := 0 to |arrivals|
      invariant replay.Valid() && fresh(replay) && fresh(replay.backtrack)
      invariant |verdicts| == k && replay.accepted == AcceptedOf(arrivals[..k], verdicts)
      invariant Judged(arrivals[..k], verdicts, highest)
    {
      ghost var c := replay.counter as nat;
      replay.CounterIsHighest();
      var v := replay.Validate(arrivals[k]);
      AcceptedNext(arrivals[..k], verdicts, arrivals[k], v);
      JudgedNext(arrivals[..k], verdicts, highest, arrivals[k], v, c);
      assert arrivals[..k + 1] == arrivals[..k] + [arrivals[k]];
      verdicts, highest := verdicts + [v], highest + [c];
    }
    assert arrivals[..|arrivals|] == arrivals;
    forall i, j | 0 <= i < j < |arrivals| && arrivals[i] == arrivals[j]
      ensures !(verdicts[i] && verdicts[j])
    {
      NoneTwice(arrivals, verdicts, highest, i, j);
    }
  }

  lemma NoneYet()
    ensures Judged([], [], [])
  {
  }

  ghost function AcceptedOf(arrivals: seq<u64>, verdicts: seq<bool>): set<nat>
    requires |arrivals| == |verdicts|
  {
    set i | 0 <= i < |arrivals| && verdicts[i] :: arrivals[i] as nat
  }

  lemma {:induction false} AcceptedNext(arrivals: seq<u64>, verdicts: seq<bool>, n: u64, v: bool)
    requires |arrivals| == |verdicts|
    ensures AcceptedOf(arrivals + [n], verdicts + [v]) == AcceptedOf(arrivals, verdicts) + if v then {n as nat} else {}
  {
    var a, x := arrivals + [n], verdicts + [v];
    forall m | m in AcceptedOf(arrivals, verdicts)
      ensures m in AcceptedOf(a, x)
    {
      var i :| 0 <= i < |arrivals| && verdicts[i] && arrivals[i] as nat == m;
      assert x[i] && a[i] as nat == m;
    }
    if v {
      assert x[|arrivals|] && a[|arrivals|] == n;
    }
  }

  /** Slot j is that of one of the top words behind current. */
  ghost predicate Cleared(current: nat, top: nat, j: nat) {
    (j - current - 1) % 128 < top
  }

  lemma ClearedNext(current: nat, i: nat, j: nat)
    requires 1 <= i <= 128 && j < 128
    ensures Cleared(current, i, j) <==> Cleared(current, i - 1, j) || j == (i + current) % 128
  {
  }

  /** Of the words live for the new counter those up to the old one keep their slots, and the others get
      cleared ones. */
  lemma ClearedWords(current: nat, index: nat, w: nat)
    requires current <= index && w <= index < w + 128
    ensures Cleared(current, if index - current < 128 then index - current else 128, w % 128) <==> w > current
  {
  }
}
