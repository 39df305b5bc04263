/** ptr_ring.h: a ring of pointers whose consumed slots are cleared in
    batches. A pointer is a number, NULL is 0. */
module PtrRing {
  import opened Wrappers

  const ENOSPC := 28
  /** SMP_CACHE_BYTES * 2 / sizeof(void *), for 64-byte lines */
  const DEFAULT_BATCH: nat := 16

  function BatchFor(size: nat): (batch: nat)
    ensures batch >= 1 && (size > 0 ==> batch <= size)
  {
    if DEFAULT_BATCH > size / 2 then 1 else DEFAULT_BATCH
  }

  /** __ptr_ring_set_size: two cache lines of pointers, unless that is more than half of the ring */
  method SetBatch(size: nat) returns (batch: nat)
    ensures batch == BatchFor(size)
  {
    batch := 64 * 2 / 8;
    if batch > size / 2 || batch == 0 {
      batch := 1;
    }
  }

  /** How far behind the head slot p is, going round */
  ghost function BehindHead(p: nat, head: nat, size: nat): int {
    if p >= head then p - head else p + size - head
  }

  /** Slot p holds an entry, or one already consumed and not yet cleared, or NULL. */
  ghost predicate Fits(x: nat, p: nat, head: nat, tail: nat, size: nat, contents: seq<nat>) {
    if 0 <= BehindHead(p, head, size) < |contents| then x == contents[BehindHead(p, head, size)]
    else if tail <= p < head then x != 0
    else x == 0
  }

  /** The head moves on, and the slots from the tail to it are cleared or not. */
  lemma {:induction false} DiscardFits(x: nat, p: nat, head: nat, tail: nat, size: nat, contents: seq<nat>, clear: bool)
    requires contents != [] && tail <= head < size && |contents| + (head - tail) <= size && p < size
    requires head + 1 == size ==> clear
    requires Fits(x, p, head, tail, size, contents) && contents[0] != 0
    ensures var next := if head + 1 == size then 0 else head + 1;
      Fits(if clear && tail <= p <= head then 0 else x, p, next, if clear then next else tail, size, contents[1..])
  {
    var next := if head + 1 == size then 0 else head + 1;
    assert BehindHead(p, next, size) == if p == head then size - 1 else BehindHead(p, head, size) - 1;
  }

  class Ring {
    var producer: nat
    var consumerHead: nat
    var consumerTail: nat
    var size: nat
    var batch: nat
    var queue: array<nat>
    /** the entries produced and not yet consumed */
    ghost var contents: seq<nat>

    ghost function Behind(p: nat): int
      reads this
    {
      BehindHead(p, consumerHead, size)
    }

    ghost predicate SlotOk(p: nat)
      requires p < queue.Length
      reads this, queue
    {
      Fits(queue[p], p, consumerHead, consumerTail, size, contents)
    }

    ghost predicate Valid()
      reads this, queue
    {
      && queue.Length == size && batch == BatchFor(size) && (forall i :: 0 <= i < |contents| ==> contents[i] != 0)
      && (size == 0 ==> contents == [])
      && (size > 0 ==>
            && producer < size && consumerTail <= consumerHead < size && consumerHead - consumerTail < batch
            && |contents| + (consumerHead - consumerTail) <= size
            && Behind(producer) == (if |contents| == size then 0 else |contents|)
            && forall p :: 0 <= p < size ==> SlotOk(p))
    }

    /** ptr_ring_init */
    constructor (n: nat)
      ensures Valid() && size == n && contents == [] && fresh(queue)
    {
      producer, consumerHead, consumerTail := 0, 0, 0;
      var b := SetBatch(n);
      size, batch := n, b;
      queue := new nat[n](_ => 0);
      contents := [];
    }

    /** __ptr_ring_produce: refuses only when the entries and those not yet cleared fill the ring */
    method Produce(ptr: nat) returns (ret: int)
      requires Valid() && ptr != 0
      modifies this`producer, this`contents, queue
      ensures Valid() && (ret == 0 || ret == -ENOSPC)
      ensures ret == 0 ==> contents == old(contents) + [ptr]
      ensures ret != 0 ==> contents == old(contents) && producer == old(producer) && queue[..] == old(queue[..])
      ensures ret != 0 <==> size == 0 || |old(contents)| + (consumerHead - consumerTail) == size
      ensures ret != 0 && size > 0 ==> |contents| > size - batch
    {
      if size == 0 || queue[producer] != 0 {
        assert size > 0 ==> SlotOk(producer);
        return -ENOSPC;
      }
      assert SlotOk(producer);
      queue[producer] := ptr;
      producer := producer + 1;
      if producer >= size {
        producer := 0;
      }
      contents := contents + [ptr];
      forall p | 0 <= p < size
        ensures SlotOk(p)
      {
        assert old(SlotOk(p));
      }
      return 0;
    }

    /** __ptr_ring_peek: never a stale slot */
    method Peek() returns (ptr: nat)
      requires Valid()
      ensures ptr == if contents == [] then 0 else contents[0]
    {
      if size == 0 {
        return 0;
      }
      assert SlotOk(consumerHead);
      ptr := queue[consumerHead];
    }

    /** Clear the slots from head down to the tail */
    method ClearBatch(last: nat)
      requires consumerTail <= last < queue.Length
      modifies queue
      ensures forall p :: 0 <= p < queue.Length ==> queue[p] == if consumerTail <= p <= last then 0 else old(queue[p])
    {
      var head: int := last;
      while head >= consumerTail
        invariant consumerTail - 1 <= head <= last
        invariant forall p :: 0 <= p < queue.Length ==> queue[p] == if head < p <= last then 0 else old(queue[p])
      {
        queue[head] := 0;
        head := head - 1;
      }
    }

    /** __ptr_ring_discard_one */
    method DiscardOne()
      requires Valid() && contents != []
      modifies this`consumerHead, this`consumerTail, this`contents, queue
      ensures Valid() && contents == old(contents)[1..]
    {
      var head := consumerHead;
      var next := head + 1;
      ghost var clear := next - consumerTail >= batch || next >= size;
      forall p | 0 <= p < size
        ensures var next := if head + 1 == size then 0 else head + 1;
          Fits(if clear && consumerTail <= p <= head then 0 else queue[p], p, next,
               if clear then next else consumerTail, size, contents[1..])
      {
        assert SlotOk(p);
        DiscardFits(queue[p], p, head, consumerTail, size, contents, clear);
      }
      hide Fits;
      if next - consumerTail >= batch || next >= size {
        ClearBatch(head);
        consumerTail := next;
      }
      if next >= size {
        next := 0;
        consumerTail := 0;
      }
      consumerHead := next;
      contents := contents[1..];
    }

    /** __ptr_ring_consume */
    method Consume() returns (ptr: nat)
      requires Valid()
      modifies this`consumerHead, this`consumerTail, this`contents, queue
      ensures Valid()
      ensures old(contents) == [] ==> ptr == 0 && contents == []
      ensures old(contents) != [] ==> ptr == old(contents)[0] && contents == old(contents)[1..]
    {
      ptr := Peek();
      if ptr != 0 {
        DiscardOne();
      }
    }

    /** __ptr_ring_swap_queue: what fits stays, in order, and the rest is destroyed */
    method SwapQueue(newSize: nat) returns (destroyed: seq<nat>)
      requires Valid()
      modifies this, queue
      ensures Valid() && size == newSize && fresh(queue)
      ensures contents == old(contents)[..Min(newSize, |old(contents)|)]
      ensures destroyed == old(contents)[Min(newSize, |old(contents)|)..]
    {
      ghost var was := contents;
      var q := new nat[newSize](_ => 0);
      var n: nat;
      n, destroyed := Drain(q);
      if n >= newSize {
        n := 0;
      }
      var b := SetBatch(newSize);
      size, batch := newSize, b;
      producer, consumerHead, consumerTail := n, 0, 0;
      queue := q;
      contents := was[..Min(newSize, |was|)];
    }

    /** Consume everything, into q as far as it goes */
    method Drain(q: array<nat>) returns (n: nat, destroyed: seq<nat>)
      requires Valid() && q != queue && forall p :: 0 <= p < q.Length ==> q[p] == 0
      modifies this`consumerHead, this`consumerTail, this`contents, queue, q
      ensures n == Min(q.Length, |old(contents)|) && destroyed == old(contents)[n..]
      ensures forall p :: 0 <= p < q.Length ==> q[p] == if p < n then old(contents)[p] else 0
      ensures forall p :: 0 <= p < |old(contents)| ==> old(contents)[p] != 0
    {
      assert forall p :: 0 <= p < |contents| ==> contents[p] != 0;
      hide Valid;
      ghost var was, used := contents, 0;
      n, destroyed := 0, [];
      var more := true;
      while more
        invariant Valid() && used <= |was| && contents == was[used..] && (!more ==> used == |was|)
        invariant n == Min(q.Length, used) && destroyed == was[n..used]
        invariant forall p :: 0 <= p < q.Length ==> q[p] == if p < n then was[p] else 0
        decreases |contents|, more
      {
        var ptr := Consume();
        if ptr == 0 {
          more := false;
        } else {
          if n < q.Length {
            q[n] := ptr;
            n := n + 1;
          } else {
            destroyed := destroyed + [ptr];
          }
          used := used + 1;
        }
      }
      assert used == |was|;
      assert was[n..|was|] == was[n..];
    }
  }
}
