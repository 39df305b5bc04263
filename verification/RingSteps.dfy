/** The ring of ptr_ring.h under every interleaving of its producer with its
    consumer, who take different locks: each access to a slot of the queue is
    a step of its own. */
module RingSteps {
  import opened Words

  datatype Producer = Quiet | FoundEmpty(ptr: nat)

  /** Clearing: the consumer, with its entry in hand, clears slots from its head down; at is the next one. */
  datatype Consumer = Ready | Got(ptr: nat) | Clearing(ptr: nat, at: int)

  /** The ring, and what only this model keeps: how many slots all rounds completed so far had, and everything
      ever produced and consumed. */
  datatype State = State(
    size: nat, batch: nat, queue: seq<nat>, producer: nat, head: nat, tail: nat, p: Producer, c: Consumer,
    rounds: nat, produced: seq<nat>, consumed: seq<nat>)

  function Init(size: nat, batch: nat): State {
    State(size, batch, seq(size, _ => 0), 0, 0, 0, Quiet, Ready, 0, [], [])
  }

  /** Check and Store: __ptr_ring_produce, its test and its write. Read: __ptr_ring_peek. Discard: what follows,
      up to the next write of a slot or the end. */
  datatype Action = Check(ptr: nat) | Store | Read | Discard

  predicate Enabled(s: State, a: Action) {
    match a
    case Check(ptr) => s.p.Quiet? && ptr != 0
    case Store => s.p.FoundEmpty?
    case Read => s.c.Ready?
    case Discard => !s.c.Ready?
  }

  /** s->queue[s->producer] */
  predicate Refused(s: State) {
    s.producer < |s.queue| && s.queue[s.producer] != 0
  }

  function CheckStep(s: State, ptr: nat): State {
    if Refused(s) then s else s.(p := FoundEmpty(ptr))
  }

  function StoreStep(s: State): State
    requires s.p.FoundEmpty? && s.producer < |s.queue|
  {
    s.(queue := s.queue[s.producer := s.p.ptr], producer := if s.producer + 1 >= s.size then 0 else s.producer + 1,
       p := Quiet, produced := s.produced + [s.p.ptr])
  }

  function ReadStep(s: State): State
    requires s.head < |s.queue|
  {
    if s.queue[s.head] == 0 then s else s.(c := Got(s.queue[s.head]))
  }

  /** consumer_head - consumer_tail >= batch || consumer_head >= size, for the head one further on */
  predicate ClearsNow(s: State) {
    s.head + 1 >= s.tail + s.batch || s.head + 1 >= s.size
  }

  /** The end of __ptr_ring_discard_one */
  function Done(s: State, ptr: nat, tail: nat): State {
    if s.head + 1 >= s.size
    then s.(head := 0, tail := 0, c := Ready, rounds := s.rounds + s.size, consumed := s.consumed + [ptr])
    else s.(head := s.head + 1, tail := tail, c := Ready, consumed := s.consumed + [ptr])
  }

  function DiscardStep(s: State): State
    requires s.c.Clearing? ==> s.c.at < |s.queue|
  {
    match s.c
    case Ready => s
    case Got(ptr) => if ClearsNow(s) then s.(c := Clearing(ptr, s.head)) else Done(s, ptr, s.tail)
    case Clearing(ptr, at) =>
      if at >= s.tail then s.(queue := s.queue[at := 0], c := Clearing(ptr, at - 1))
      else Done(s, ptr, s.head + 1)
  }

  // ---- the invariant ----

  /** Slots from the tail to the head that the consumer has cleared already */
  predicate Cleared(s: State, i: nat) {
    s.c.Clearing? && s.c.at < i <= s.head
  }

  /** The number of the entry that slot i is for */
  function Number(s: State, i: nat): nat {
    if s.tail <= i && !Cleared(s, i) then s.rounds + i else s.rounds + s.size + i
  }

  /** The first slot that is not yet clear */
  function Low(s: State): nat {
    if s.c.Clearing? && s.c.at < s.tail then s.head + 1 else s.tail
  }

  function Room(s: State): nat {
    s.rounds + s.size + Low(s)
  }

  ghost predicate Shaped(s: State) {
    && 0 < s.batch <= s.size && |s.queue| == s.size
    && s.tail <= s.head < s.size && s.head - s.tail < s.batch && s.tail % s.batch == 0 && s.producer < s.size
  }

  ghost predicate Counted(s: State) {
    && |s.consumed| == s.rounds + s.head <= |s.produced| <= Room(s)
    && s.consumed == s.produced[..|s.consumed|] && 0 !in s.produced
    && (|s.produced| == s.rounds + s.producer || |s.produced| == s.rounds + s.size + s.producer
        || |s.produced| == s.rounds + 2 * s.size + s.producer)
  }

  ghost predicate SlotOk(s: State, i: nat)
    requires i < |s.queue|
  {
    s.queue[i] == if Number(s, i) < |s.produced| then s.produced[Number(s, i)] else 0
  }

  ghost predicate Slots(s: State) {
    forall i :: 0 <= i < |s.queue| ==> SlotOk(s, i)
  }

  ghost predicate Roles(s: State) {
    && (s.p.FoundEmpty? ==> s.p.ptr != 0 && |s.produced| < Room(s))
    && (!s.c.Ready? ==> |s.consumed| < |s.produced| && s.c.ptr == s.produced[|s.consumed|])
    && (s.c.Clearing? ==> s.tail - 1 <= s.c.at <= s.head && ClearsNow(s))
  }

  ghost predicate Inv(s: State) {
    Shaped(s) && Counted(s) && Slots(s) && Roles(s)
  }

  /** The producer's slot is in use if and only if the ring has no room. */
  lemma {:induction false} SlotInUse(s: State)
    requires Shaped(s) && Counted(s) && Slots(s) && Roles(s)
    ensures Refused(s) <==> |s.produced| == Room(s)
    ensures |s.produced| < Room(s) ==> Number(s, s.producer) == |s.produced|
  {
    assert SlotOk(s, s.producer);
    if Number(s, s.producer) < |s.produced| {
      assert s.produced[Number(s, s.producer)] in s.produced;
    }
  }

  lemma {:induction false} NumbersDiffer(s: State, i: nat, j: nat)
    requires Shaped(s) && i < s.size && j < s.size && i != j
    ensures Number(s, i) != Number(s, j)
  {
  }

  lemma {:induction false} CheckKeeps(s: State, ptr: nat)
    requires Inv(s) && s.p.Quiet? && ptr != 0
    ensures Inv(CheckStep(s, ptr))
  {
    SlotInUse(s);
    var t := CheckStep(s, ptr);
    forall i | 0 <= i < |t.queue|
      ensures SlotOk(t, i)
    {
      assert SlotOk(s, i);
    }
  }

  lemma {:induction false} StoreKeeps(s: State)
    requires Inv(s) && s.p.FoundEmpty?
    ensures Inv(StoreStep(s))
  {
    SlotInUse(s);
    var t := StoreStep(s);
    forall i | 0 <= i < |t.queue|
      ensures SlotOk(t, i)
    {
      assert SlotOk(s, i);
      if i != s.producer {
        NumbersDiffer(s, i, s.producer);
      }
    }
  }

  /** A read at the head gets the oldest entry, and NULL only if there is none. */
  lemma {:induction false} ReadsOldest(s: State)
    requires Inv(s) && s.c.Ready?
    ensures s.queue[s.head] == if |s.consumed| < |s.produced| then s.produced[|s.consumed|] else 0
    ensures |s.consumed| < |s.produced| ==> s.queue[s.head] != 0
  {
    assert SlotOk(s, s.head);
    if |s.consumed| < |s.produced| {
      assert s.produced[|s.consumed|] in s.produced;
    }
  }

  lemma {:induction false} ReadKeeps(s: State)
    requires Inv(s) && s.c.Ready?
    ensures Inv(ReadStep(s))
  {
    ReadsOldest(s);
    var t := ReadStep(s);
    forall i | 0 <= i < |t.queue|
      ensures SlotOk(t, i)
    {
      assert SlotOk(s, i);
    }
  }

  lemma {:induction false} ClearKeeps(s: State)
    requires Inv(s) && s.c.Clearing? && s.c.at >= s.tail
    ensures Inv(DiscardStep(s))
  {
    var t := DiscardStep(s);
    forall i | 0 <= i < |t.queue|
      ensures SlotOk(t, i)
    {
      assert SlotOk(s, i);
    }
  }

  lemma {:induction false} NextBatch(tail: nat, batch: nat)
    requires batch > 0 && tail % batch == 0
    ensures (tail + batch) % batch == 0 && 0 % batch == 0
  {
    ModParts(tail, batch);
    DivUnique(tail + batch, batch, tail / batch + 1, 0);
    DivUnique(0, batch, 0, 0);
  }

  /** Moving on leaves every slot for the same entry and the room as it is. */
  lemma {:induction false} DoneNumbers(s: State, ptr: nat, tail: nat)
    requires Shaped(s)
    requires (s.c.Clearing? && s.c.at < s.tail && tail == s.head + 1 && ClearsNow(s)) || (s.c.Got? && tail == s.tail && !ClearsNow(s))
    ensures var t := Done(s, ptr, tail);
      && Shaped(t) && Room(t) == Room(s) && t.rounds + t.head == s.rounds + s.head + 1
      && forall i :: 0 <= i < s.size ==> Number(t, i) == Number(s, i)
  {
    NextBatch(s.tail, s.batch);
  }

  lemma {:induction false} DoneKeeps(s: State, ptr: nat, tail: nat)
    requires Inv(s) && !s.c.Ready? && ptr == s.c.ptr
    requires (s.c.Clearing? && s.c.at < s.tail && tail == s.head + 1 && ClearsNow(s)) || (s.c.Got? && tail == s.tail && !ClearsNow(s))
    ensures Inv(Done(s, ptr, tail))
  {
    DoneNumbers(s, ptr, tail);
    var t := Done(s, ptr, tail);
    hide Number, Room;
    assert s.produced[..|s.consumed| + 1] == s.consumed + [ptr];
    forall i | 0 <= i < |t.queue|
      ensures SlotOk(t, i)
    {
      assert SlotOk(s, i);
    }
  }

  lemma {:induction false} StartKeeps(s: State)
    requires Inv(s) && s.c.Got? && ClearsNow(s)
    ensures Inv(DiscardStep(s))
  {
    var t := DiscardStep(s);
    forall i | 0 <= i < |t.queue|
      ensures SlotOk(t, i)
    {
      assert SlotOk(s, i);
    }
  }

  lemma {:induction false} DiscardKeeps(s: State)
    requires Inv(s) && !s.c.Ready?
    ensures Inv(DiscardStep(s))
  {
    hide Slots, Counted;
    match s.c
    case Got(ptr) =>
      if ClearsNow(s) {
        StartKeeps(s);
      } else {
        DoneKeeps(s, ptr, s.tail);
      }
    case Clearing(ptr, at) =>
      if at >= s.tail {
        ClearKeeps(s);
      } else {
        DoneKeeps(s, ptr, s.head + 1);
      }
  }

  ghost function Apply(s: State, a: Action): State
    requires Inv(s) && Enabled(s, a)
  {
    match a
    case Check(ptr) => CheckStep(s, ptr)
    case Store => StoreStep(s)
    case Read => ReadStep(s)
    case Discard => DiscardStep(s)
  }

  lemma {:induction false} StepKeeps(s: State, a: Action)
    requires Inv(s) && Enabled(s, a)
    ensures Inv(Apply(s, a))
  {
    hide Inv, CheckStep, StoreStep, ReadStep, DiscardStep;
    match a
    case Check(ptr) => CheckKeeps(s, ptr);
    case Store => StoreKeeps(s);
    case Read => ReadKeeps(s);
    case Discard => DiscardKeeps(s);
  }

  ghost predicate Possible(s: State, run: seq<Action>)
    requires Inv(s)
    decreases |run|
  {
    run != [] ==> Enabled(s, run[0]) && (StepKeeps(s, run[0]); Possible(Apply(s, run[0]), run[1..]))
  }

  ghost function After(s: State, run: seq<Action>): (t: State)
    requires Inv(s) && Possible(s, run)
    ensures Inv(t)
    decreases |run|
  {
    if run == [] then s else StepKeeps(s, run[0]); After(Apply(s, run[0]), run[1..])
  }

  lemma {:induction false} InitOk(size: nat, batch: nat)
    requires 0 < batch <= size
    ensures Inv(Init(size, batch))
  {
    var s := Init(size, batch);
    forall i | 0 <= i < |s.queue|
      ensures SlotOk(s, i)
    {
    }
  }

  lemma {:induction false} SizeStays(s: State, run: seq<Action>)
    requires Inv(s) && Possible(s, run)
    ensures After(s, run).size == s.size && After(s, run).batch == s.batch
    decreases |run|
  {
    if run != [] {
      StepKeeps(s, run[0]);
      SizeStays(Apply(s, run[0]), run[1..]);
    }
  }

  /** In every reachable state: what was consumed are the first entries produced, in order and each once; a read
      by a consumer that is ready gets the oldest of the others, and NULL only if there is none; and a producer
      is refused only if there are more entries than the ring's size less its batch, and while the consumer is ready
      if and only if the entries and the slots not yet cleared, those behind the last multiple of the batch, fill it. */
  lemma {:induction false} Fifo(size: nat, batch: nat, run: seq<Action>)
    requires 0 < batch <= size && Inv(Init(size, batch)) && Possible(Init(size, batch), run)
    ensures var s := After(Init(size, batch), run);
      && s.consumed <= s.produced && s.head < |s.queue|
      && (s.c.Ready? ==> s.queue[s.head] == if |s.consumed| < |s.produced| then s.produced[|s.consumed|] else 0)
      && (Refused(s) ==> |s.produced| - |s.consumed| > size - batch)
      && (s.c.Ready? ==> (Refused(s) <==> |s.produced| - |s.consumed| == size - s.head % batch))
  {
    var s := After(Init(size, batch), run);
    SizeStays(Init(size, batch), run);
    SlotInUse(s);
    ModParts(s.tail, batch);
    DivUnique(s.head, batch, s.tail / batch, s.head - s.tail);
    if s.c.Ready? {
      ReadsOldest(s);
    }
  }

  // ---- what each side does while the other one rests ----

  /** A produce that finds its slot free puts its entry behind the others. */
  lemma {:induction false} ProduceAlone(s: State, ptr: nat)
    requires Inv(s) && s.p.Quiet? && ptr != 0 && !Refused(s)
    ensures Possible(s, [Check(ptr), Store])
    ensures After(s, [Check(ptr), Store]).produced == s.produced + [ptr] && After(s, [Check(ptr), Store]).consumed == s.consumed
  {
    var t := CheckStep(s, ptr);
    StepKeeps(s, Check(ptr));
    assert t.p == FoundEmpty(ptr) && t.produced == s.produced && Apply(s, Check(ptr)) == t;
    StepKeeps(t, Store);
    hide Inv;
    assert [Check(ptr), Store][1..] == [Store] && [Store][1..] == [];
    assert Possible(t, [Store]) && After(t, [Store]) == StoreStep(t);
  }

  function Discards(k: nat): seq<Action> {
    if k == 0 then [] else [Discard] + Discards(k - 1)
  }

  /** How many steps it takes to discard the entry read */
  function ToGo(s: State): nat
    requires s.c.Clearing? ==> s.tail - 1 <= s.c.at
    requires s.tail <= s.head
  {
    match s.c
    case Ready => 0
    case Got(_) => if ClearsNow(s) then s.head - s.tail + 3 else 1
    case Clearing(_, at) => at - s.tail + 2
  }

  /** A consume gives back the oldest entry after at most batch + 3 steps, and nothing else if there is none. */
  lemma {:induction false} ConsumeAlone(s: State) returns (k: nat)
    requires Inv(s) && s.c.Ready?
    ensures k <= s.batch + 2 && Possible(s, [Read] + Discards(k))
    ensures var t := After(s, [Read] + Discards(k));
      && t.c.Ready? && t.produced == s.produced
      && t.consumed == s.consumed + if |s.consumed| < |s.produced| then [s.produced[|s.consumed|]] else []
  {
    ReadsOldest(s);
    StepKeeps(s, Read);
    var t := ReadStep(s);
    assert Apply(s, Read) == t && Shaped(s);
    k := ToGo(t);
    assert ([Read] + Discards(k))[1..] == Discards(k);
    hide Inv;
    DiscardsEnd(t, k);
  }

  lemma {:induction false} DiscardsEnd(s: State, k: nat)
    requires Inv(s) && k == ToGo(s)
    ensures Possible(s, Discards(k))
    ensures var t := After(s, Discards(k));
      t.c.Ready? && t.produced == s.produced && t.consumed == s.consumed + if s.c.Ready? then [] else [s.c.ptr]
    decreases k
  {
    if k > 0 {
      StepKeeps(s, Discard);
      var t := DiscardStep(s);
      assert Apply(s, Discard) == t && ToGo(t) == k - 1;
      assert t.produced == s.produced;
      assert t.consumed == if t.c.Ready? then s.consumed + [s.c.ptr] else s.consumed;
      assert !t.c.Ready? ==> t.c.ptr == s.c.ptr;
      hide Inv, DiscardStep, Apply;
      DiscardsEnd(t, k - 1);
      assert Discards(k)[1..] == Discards(k - 1) && Discards(k)[0] == Discard;
    }
  }
}
