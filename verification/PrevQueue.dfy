/** The intrusive queue of queueing.c under every interleaving of any number
    of producers with its one consumer. Each access to memory that more than
    one of them touches is a step of its own: a producer counts its packet,
    clears the packet's link, exchanges the head and writes the link of the
    element it replaced. */
module PrevQueue {
  import opened Wrappers

  const MAX_QUEUED_PACKETS := 1024

  datatype Elem = Stub | Packet(id: nat)

  datatype Link = Null | To(e: Elem)

  datatype Producer =
    | Idle
    | Counted(skb: nat)
    | Cleared(skb: nat)
    | Exchanged(prev: Elem, skb: nat)

  /** Where the consumer is in wg_prev_queue_dequeue; tail is its local variable. */
  datatype Consumer =
    | Ready
    | SkippedStub(tail: Elem)
    | Taken(tail: Elem)
    | NoNext(tail: Elem)
    | ClearStub(tail: Elem)
    | ExchangeStub(tail: Elem)
    | LinkStub(tail: Elem, prev: Elem)
    | Recheck(tail: Elem)

  /** The shared memory and the local states, and three things that only this model keeps: the elements from
      the tail to the head in the order of their exchanges, all packets ever exchanged and all ever dequeued. */
  datatype State = State(
    head: Elem, tail: Elem, next: map<Elem, Link>, count: int, producers: map<nat, Producer>, consumer: Consumer,
    chain: seq<Elem>, exchanged: seq<nat>, dequeued: seq<nat>)

  /** wg_prev_queue_init */
  function Init(): State {
    State(Stub, Stub, map[Stub := Null], 0, map[], Ready, [Stub], [], [])
  }

  function LinkOf(s: State, e: Elem): Link {
    Get(s.next, e)
  }

  function ProducerAt(s: State, p: nat): Producer {
    if p in s.producers then s.producers[p] else Idle
  }

  /** Producer p starts to enqueue skb, takes its next step, or the consumer takes its next step. */
  datatype Action = Enqueue(p: nat, skb: nat) | Produce(p: nat) | Consume

  /** Someone is working on the packet, or it is in the queue. */
  ghost predicate InUse(s: State, skb: nat) {
    || Packet(skb) in s.chain || s.consumer == Taken(Packet(skb))
    || exists p :: p in s.producers && s.producers[p] != Idle && s.producers[p].skb == skb
  }

  ghost predicate Enabled(s: State, a: Action) {
    match a
    case Enqueue(p, skb) => ProducerAt(s, p) == Idle && !InUse(s, skb)
    case Produce(p) => ProducerAt(s, p) != Idle
    case Consume => true
  }

  function SetProducer(s: State, p: nat, x: Producer): State {
    s.(producers := s.producers[p := x])
  }

  /** atomic_add_unless(&queue->count, 1, MAX_QUEUED_PACKETS) */
  function EnqueueStep(s: State, p: nat, skb: nat): State {
    if s.count == MAX_QUEUED_PACKETS then s
    else SetProducer(s.(count := s.count + 1), p, Counted(skb))
  }

  /** __wg_prev_queue_enqueue */
  function ProduceStep(s: State, p: nat): State {
    match ProducerAt(s, p)
    case Idle => s
    case Counted(skb) => SetProducer(s.(next := s.next[Packet(skb) := Null]), p, Cleared(skb))
    case Cleared(skb) =>
      SetProducer(s.(head := Packet(skb), chain := s.chain + [Packet(skb)], exchanged := s.exchanged + [skb]),
                  p, Exchanged(s.head, skb))
    case Exchanged(prev, skb) => SetProducer(s.(next := s.next[prev := To(Packet(skb))]), p, Idle)
  }

  /** queue->tail = next, the old tail being on its way out if it is a packet */
  function Advance(s: State, next: Elem, c: Consumer): State {
    s.(tail := next, chain := if s.chain == [] then [] else s.chain[1..], consumer := c,
       dequeued := if s.tail.Packet? then s.dequeued + [s.tail.id] else s.dequeued)
  }

  /** The end of wg_prev_queue_dequeue for a tail with a next element, or the rest of it for one without. */
  function TakeOr(s: State, tail: Elem, otherwise: Consumer): State {
    match LinkOf(s, tail)
    case To(next) => Advance(s, next, Taken(tail))
    case Null => s.(consumer := otherwise)
  }

  /** wg_prev_queue_dequeue; Ready again means it returned, a packet from Taken and NULL from elsewhere. */
  function ConsumeStep(s: State): State {
    match s.consumer
    case Ready =>
      if s.tail == Stub then
        match LinkOf(s, Stub)
        case Null => s
        case To(next) => Advance(s, next, SkippedStub(next))
      else TakeOr(s, s.tail, NoNext(s.tail))
    case SkippedStub(tail) => TakeOr(s, tail, NoNext(tail))
    case Taken(_) => s.(count := s.count - 1, consumer := Ready)
    case NoNext(tail) => s.(consumer := if tail != s.head then Ready else ClearStub(tail))
    case ClearStub(tail) => s.(next := s.next[Stub := Null], consumer := ExchangeStub(tail))
    case ExchangeStub(tail) => s.(head := Stub, chain := s.chain + [Stub], consumer := LinkStub(tail, s.head))
    case LinkStub(tail, prev) => s.(next := s.next[prev := To(Stub)], consumer := Recheck(tail))
    case Recheck(tail) => TakeOr(s, tail, Ready)
  }

  function Apply(s: State, a: Action): State {
    match a
    case Enqueue(p, skb) => EnqueueStep(s, p, skb)
    case Produce(p) => ProduceStep(s, p)
    case Consume => ConsumeStep(s)
  }

  ghost predicate Possible(s: State, run: seq<Action>)
    decreases |run|
  {
    run == [] || (Enabled(s, run[0]) && Possible(Apply(s, run[0]), run[1..]))
  }

  function After(s: State, run: seq<Action>): State
    decreases |run|
  {
    if run == [] then s else After(Apply(s, run[0]), run[1..])
  }

  // ---- the invariant ----

  function Packets(chain: seq<Elem>): seq<nat> {
    if chain == [] then []
    else Packets(chain[..|chain| - 1]) + if chain[|chain| - 1].Packet? then [chain[|chain| - 1].id] else []
  }

  ghost predicate Adjacent(chain: seq<Elem>, a: Elem, b: Elem) {
    exists i :: 0 <= i < |chain| - 1 && chain[i] == a && chain[i + 1] == b
  }

  function Get(next: map<Elem, Link>, e: Elem): Link {
    if e in next then next[e] else Null
  }

  /** The links about to be written: those of elements that have replaced another one at the head. */
  ghost function Pending(s: State): set<(Elem, Elem)> {
    (set p | p in s.producers && s.producers[p].Exchanged? :: (s.producers[p].prev, Packet(s.producers[p].skb)))
    + (if s.consumer.LinkStub? then {(s.consumer.prev, Stub)} else {})
  }

  /** Element i points to the next one, or that link is about to be written. */
  ghost predicate LinkOk(chain: seq<Elem>, next: map<Elem, Link>, pending: set<(Elem, Elem)>, i: nat)
    requires i < |chain|
  {
    if i == |chain| - 1 then Get(next, chain[i]) == Null
    else
      var written := (chain[i], chain[i + 1]) !in pending;
      Get(next, chain[i]) == if written then To(chain[i + 1]) else Null
  }

  ghost predicate Links(chain: seq<Elem>, next: map<Elem, Link>, pending: set<(Elem, Elem)>) {
    && chain != [] && Distinct(chain)
    && (forall i :: 0 <= i < |chain| ==> LinkOk(chain, next, pending, i))
    && (forall a, b :: (a, b) in pending ==> Adjacent(chain, a, b))
  }

  ghost predicate ChainOk(s: State) {
    Links(s.chain, s.next, Pending(s)) && s.tail == s.chain[0] && s.head == s.chain[|s.chain| - 1]
  }

  /** What a producer's local state says about the queue. */
  ghost predicate ProducerOk(s: State, x: Producer) {
    match x
    case Idle => true
    case Counted(skb) => Packet(skb) !in s.chain && s.consumer != Taken(Packet(skb))
    case Cleared(skb) => Packet(skb) !in s.chain && s.consumer != Taken(Packet(skb)) && LinkOf(s, Packet(skb)) == Null
    case Exchanged(prev, skb) => true
  }

  ghost predicate ProducersOk(s: State) {
    && (forall p :: p in s.producers ==> ProducerOk(s, s.producers[p]))
    && (forall p, q :: p in s.producers && q in s.producers && p != q && s.producers[p] != Idle && s.producers[q] != Idle
          ==> s.producers[p].skb != s.producers[q].skb)
  }

  ghost predicate ConsumerOk(s: State) {
    match s.consumer
    case Ready => true
    case Taken(tail) => tail.Packet? && tail !in s.chain && s.dequeued != [] && s.dequeued[|s.dequeued| - 1] == tail.id
    case SkippedStub(tail) => tail == s.tail && tail.Packet?
    case NoNext(tail) => tail == s.tail && tail.Packet?
    case ClearStub(tail) => tail == s.tail && tail.Packet? && Stub !in s.chain
    case ExchangeStub(tail) => tail == s.tail && tail.Packet? && Stub !in s.chain && LinkOf(s, Stub) == Null
    case LinkStub(tail, prev) => tail == s.tail && tail.Packet?
    case Recheck(tail) => tail == s.tail && tail.Packet?
  }

  /** The packets that are counted and not in the queue: those before the exchange, and one on its way out. */
  ghost function Outside(s: State): set<nat> {
    set p | p in s.producers && (s.producers[p].Counted? || s.producers[p].Cleared?)
  }

  ghost predicate CountOk(s: State) {
    && s.count == |Packets(s.chain)| + |Outside(s)| + (if s.consumer.Taken? then 1 else 0)
    && s.count <= MAX_QUEUED_PACKETS
  }

  ghost predicate Inv(s: State) {
    ChainOk(s) && ProducersOk(s) && ConsumerOk(s) && CountOk(s) && s.exchanged == s.dequeued + Packets(s.chain)
  }

  // ---- the chain under its four changes ----

  lemma {:induction false} LinksAppend(chain: seq<Elem>, next: map<Elem, Link>, pending: set<(Elem, Elem)>, e: Elem)
    requires Links(chain, next, pending) && e !in chain && Get(next, e) == Null
    ensures Links(chain + [e], next, pending + {(chain[|chain| - 1], e)})
  {
    var n := |chain|;
    var chain', pending' := chain + [e], pending + {(chain[n - 1], e)};
    forall i | 0 <= i <= n
      ensures LinkOk(chain', next, pending', i)
    {
      if i < n {
        assert LinkOk(chain, next, pending, i);
      }
    }
    forall a, b | (a, b) in pending'
      ensures Adjacent(chain', a, b)
    {
      if (a, b) in pending {
        var i :| 0 <= i < n - 1 && chain[i] == a && chain[i + 1] == b;
        assert chain'[i] == a && chain'[i + 1] == b;
      } else {
        assert chain'[n - 1] == a && chain'[n - 1 + 1] == b;
      }
    }
  }

  lemma {:induction false} LinksWrite(chain: seq<Elem>, next: map<Elem, Link>, pending: set<(Elem, Elem)>, a: Elem, b: Elem)
    requires Links(chain, next, pending) && (a, b) in pending
    ensures Links(chain, next[a := To(b)], pending - {(a, b)})
  {
    var k :| 0 <= k < |chain| - 1 && chain[k] == a && chain[k + 1] == b;
    var next', pending' := next[a := To(b)], pending - {(a, b)};
    forall i | 0 <= i < |chain|
      ensures LinkOk(chain, next', pending', i)
    {
      assert LinkOk(chain, next, pending, i);
    }
  }

  /** The tail is only left behind once its link is written. */
  lemma {:induction false} LinksDrop(chain: seq<Elem>, next: map<Elem, Link>, pending: set<(Elem, Elem)>, b: Elem)
    requires Links(chain, next, pending) && Get(next, chain[0]) == To(b)
    ensures |chain| > 1 && b == chain[1] && Links(chain[1..], next, pending)
    ensures chain[0] !in chain[1..]
  {
    assert LinkOk(chain, next, pending, 0);
    var rest := chain[1..];
    forall i | 0 <= i < |rest|
      ensures LinkOk(rest, next, pending, i)
    {
      assert LinkOk(chain, next, pending, i + 1);
    }
    forall x, y | (x, y) in pending
      ensures Adjacent(rest, x, y)
    {
      var i :| 0 <= i < |chain| - 1 && chain[i] == x && chain[i + 1] == y;
      assert i != 0;
      assert rest[i - 1] == x && rest[i - 1 + 1] == y;
    }
  }

  lemma {:induction false} LinksOther(chain: seq<Elem>, next: map<Elem, Link>, pending: set<(Elem, Elem)>, e: Elem, l: Link)
    requires Links(chain, next, pending) && e !in chain
    ensures Links(chain, next[e := l], pending)
  {
    var next' := next[e := l];
    forall i | 0 <= i < |chain|
      ensures LinkOk(chain, next', pending, i)
    {
      assert LinkOk(chain, next, pending, i);
    }
  }

  // ---- every step keeps the invariant ----

  lemma {:induction false} PacketsAppend(chain: seq<Elem>, e: Elem)
    ensures Packets(chain + [e]) == Packets(chain) + if e.Packet? then [e.id] else []
  {
    assert (chain + [e])[..|chain|] == chain;
  }

  lemma PacketsOne(chain: seq<Elem>)
    requires |chain| == 1
    ensures Packets(chain) == (if chain[0].Packet? then [chain[0].id] else []) + Packets(chain[1..])
  {
    assert chain[..0] == [] && chain[1..] == [];
  }

  lemma Regroup(a: seq<nat>, b: seq<nat>, c: seq<nat>)
    ensures a + b + c == a + (b + c)
  {
  }

  lemma {:induction false} PacketsDrop(chain: seq<Elem>)
    requires chain != []
    ensures Packets(chain) == (if chain[0].Packet? then [chain[0].id] else []) + Packets(chain[1..])
  {
    hide Packets;
    if |chain| == 1 {
      PacketsOne(chain);
    } else {
      var n := |chain| - 1;
      var front, last := chain[..n], chain[n];
      PacketsDrop(front);
      PacketsAppend(front, last);
      PacketsAppend(front[1..], last);
      assert chain == front + [last] && chain[1..] == front[1..] + [last] && chain[0] == front[0];
      Regroup(if chain[0].Packet? then [chain[0].id] else [], Packets(front[1..]), if last.Packet? then [last.id] else []);
    }
  }

  /** Replacing a producer's local state where no link comes or goes. */
  lemma {:induction false} SetQuiet(s: State, p: nat, x: Producer)
    requires !ProducerAt(s, p).Exchanged? && !x.Exchanged?
    ensures Pending(SetProducer(s, p, x)) == Pending(s)
  {
    var t := SetProducer(s, p, x);
    forall q | q in t.producers && t.producers[q].Exchanged?
      ensures q in s.producers && s.producers[q] == t.producers[q]
    {
    }
    forall q | q in s.producers && s.producers[q].Exchanged?
      ensures q in t.producers && s.producers[q] == t.producers[q]
    {
    }
  }

  lemma {:induction false} SetExchanged(s: State, p: nat, prev: Elem, skb: nat)
    requires !ProducerAt(s, p).Exchanged?
    ensures Pending(SetProducer(s, p, Exchanged(prev, skb))) == Pending(s) + {(prev, Packet(skb))}
  {
    var t := SetProducer(s, p, Exchanged(prev, skb));
    forall q | q in s.producers && s.producers[q].Exchanged?
      ensures q in t.producers && s.producers[q] == t.producers[q]
    {
    }
    assert p in t.producers && t.producers[p].Exchanged?;
  }

  lemma {:induction false} SetIdle(s: State, p: nat)
    requires ProducersOk(s) && ProducerAt(s, p).Exchanged?
    ensures var x := s.producers[p];
      Pending(SetProducer(s, p, Idle)) == Pending(s) - {(x.prev, Packet(x.skb))}
  {
    var t := SetProducer(s, p, Idle);
    forall q | q in s.producers && q != p && s.producers[q].Exchanged?
      ensures q in t.producers && s.producers[q] == t.producers[q] && s.producers[q].skb != s.producers[p].skb
    {
    }
  }

  lemma {:induction false} OutsideJoins(s: State, p: nat, x: Producer)
    requires x.Counted? && ProducerAt(s, p) == Idle
    ensures |Outside(SetProducer(s, p, x))| == |Outside(s)| + 1
  {
    assert Outside(SetProducer(s, p, x)) == Outside(s) + {p};
  }

  lemma {:induction false} OutsideStays(s: State, p: nat, x: Producer)
    requires (ProducerAt(s, p).Counted? && x.Cleared?) || (ProducerAt(s, p).Exchanged? && x == Idle)
    ensures Outside(SetProducer(s, p, x)) == Outside(s)
  {
  }

  lemma {:induction false} OutsideLeaves(s: State, p: nat, x: Producer)
    requires ProducerAt(s, p).Cleared? && x.Exchanged?
    ensures |Outside(SetProducer(s, p, x))| == |Outside(s)| - 1
  {
    assert Outside(s) == Outside(SetProducer(s, p, x)) + {p};
  }

  lemma {:induction false} EnqueueKeeps(s: State, p: nat, skb: nat)
    requires Inv(s) && Enabled(s, Enqueue(p, skb))
    ensures Inv(EnqueueStep(s, p, skb))
  {
    hide Links, Packets, Pending, Outside;
    if s.count < MAX_QUEUED_PACKETS {
      var t := s.(count := s.count + 1);
      SetQuiet(t, p, Counted(skb));
      OutsideJoins(t, p, Counted(skb));
      PendingSame(s, t);
      OutsideSame(s, t);
    }
  }

  lemma PendingSame(s: State, t: State)
    requires s.producers == t.producers && (s.consumer == t.consumer || (!s.consumer.LinkStub? && !t.consumer.LinkStub?))
    ensures Pending(s) == Pending(t)
  {
  }

  lemma OutsideSame(s: State, t: State)
    requires s.producers == t.producers
    ensures Outside(s) == Outside(t)
  {
  }

  lemma {:induction false} ClearKeeps(s: State, p: nat)
    requires Inv(s) && ProducerAt(s, p).Counted?
    ensures Inv(ProduceStep(s, p))
  {
    hide Links, Packets, Pending, Outside;
    var skb := s.producers[p].skb;
    var t := s.(next := s.next[Packet(skb) := Null]);
    PendingSame(s, t);
    OutsideSame(s, t);
    LinksOther(s.chain, s.next, Pending(s), Packet(skb), Null);
    SetQuiet(t, p, Cleared(skb));
    OutsideStays(t, p, Cleared(skb));
  }

  lemma {:induction false} ExchangeKeeps(s: State, p: nat)
    requires Inv(s) && ProducerAt(s, p).Cleared?
    ensures Inv(ProduceStep(s, p))
  {
    hide Links, Packets, Pending, Outside;
    var skb := s.producers[p].skb;
    var t := s.(head := Packet(skb), chain := s.chain + [Packet(skb)], exchanged := s.exchanged + [skb]);
    PendingSame(s, t);
    OutsideSame(s, t);
    NotEmpty(s);
    LinksAppend(s.chain, s.next, Pending(s), Packet(skb));
    SetExchanged(t, p, s.head, skb);
    OutsideLeaves(t, p, Exchanged(s.head, skb));
    PacketsAppend(s.chain, Packet(skb));
    assert s.dequeued + (Packets(s.chain) + [skb]) == s.dequeued + Packets(s.chain) + [skb];
  }

  lemma NotEmpty(s: State)
    requires ChainOk(s)
    ensures s.chain != []
  {
  }

  lemma {:induction false} LinkChain(s: State, p: nat)
    requires ChainOk(s) && ProducersOk(s) && ProducerAt(s, p).Exchanged?
    ensures ChainOk(ProduceStep(s, p)) && s.producers[p].prev in s.chain
  {
    hide Links;
    var x := s.producers[p];
    var t := s.(next := s.next[x.prev := To(Packet(x.skb))]);
    assert (x.prev, Packet(x.skb)) in Pending(s);
    PendingIn(s, x.prev, Packet(x.skb));
    SetIdle(s, p);
    hide Pending, ProducersOk;
    PendingSame(SetProducer(s, p, Idle), SetProducer(t, p, Idle));
    LinksWrite(s.chain, s.next, Pending(s), x.prev, Packet(x.skb));
  }

  lemma {:induction false} LinkProducers(s: State, p: nat)
    requires ProducersOk(s) && ProducerAt(s, p).Exchanged? && s.producers[p].prev in s.chain
    ensures ProducersOk(ProduceStep(s, p))
  {
  }

  lemma {:induction false} LinkKeeps(s: State, p: nat)
    requires Inv(s) && ProducerAt(s, p).Exchanged?
    ensures Inv(ProduceStep(s, p))
  {
    hide ChainOk, ProducersOk, Packets, Outside;
    var x := s.producers[p];
    var t := s.(next := s.next[x.prev := To(Packet(x.skb))]);
    LinkChain(s, p);
    LinkProducers(s, p);
    LinkConsumer(s, p);
    hide ConsumerOk;
    OutsideSame(s, t);
    OutsideStays(t, p, Idle);
  }

  lemma {:induction false} LinkConsumer(s: State, p: nat)
    requires ConsumerOk(s) && ProducerAt(s, p).Exchanged? && s.producers[p].prev in s.chain
    ensures ConsumerOk(ProduceStep(s, p))
  {
  }

  /** A link about to be written starts in the chain. */
  lemma {:induction false} PendingIn(s: State, a: Elem, b: Elem)
    requires ChainOk(s) && (a, b) in Pending(s)
    ensures a in s.chain && b in s.chain
  {
    assert Adjacent(s.chain, a, b);
  }

  lemma {:induction false} ProduceKeeps(s: State, p: nat)
    requires Inv(s) && Enabled(s, Produce(p))
    ensures Inv(ProduceStep(s, p))
  {
    hide Inv, ProduceStep;
    match ProducerAt(s, p)
    case Counted(_) => ClearKeeps(s, p);
    case Cleared(_) => ExchangeKeeps(s, p);
    case Exchanged(_, _) => LinkKeeps(s, p);
  }

  /** Moving on from a tail whose link is written. */
  lemma {:induction false} AdvanceKeeps(s: State, next: Elem, c: Consumer)
    requires Inv(s) && !s.consumer.Taken? && !s.consumer.LinkStub? && LinkOf(s, s.tail) == To(next)
    requires if s.tail == Stub then c == SkippedStub(next) else c == Taken(s.tail)
    ensures Inv(Advance(s, next, c))
  {
    hide Packets, Pending, Outside, Links;
    var t := Advance(s, next, c);
    PendingSame(s, t);
    OutsideSame(s, t);
    NotEmpty(s);
    LinksDrop(s.chain, s.next, Pending(s), next);
    PacketsDrop(s.chain);
    if s.tail.Packet? {
      assert s.dequeued + ([s.tail.id] + Packets(t.chain)) == s.dequeued + [s.tail.id] + Packets(t.chain);
    }
  }

  lemma {:induction false} TakeOrKeeps(s: State, tail: Elem, otherwise: Consumer)
    requires Inv(s) && tail == s.tail && tail.Packet? && (s.consumer.Ready? || s.consumer.SkippedStub? || s.consumer.Recheck?)
    requires otherwise == NoNext(tail) || otherwise == Ready
    ensures Inv(TakeOr(s, tail, otherwise))
  {
    hide Packets, Pending, Outside, Links, Advance;
    match LinkOf(s, tail)
    case To(next) => AdvanceKeeps(s, next, Taken(tail));
    case Null =>
      PendingSame(s, s.(consumer := otherwise));
      OutsideSame(s, s.(consumer := otherwise));
  }

  lemma {:induction false} ConsumeKeeps(s: State)
    requires Inv(s)
    ensures Inv(ConsumeStep(s))
  {
    hide ChainOk, ProducersOk, CountOk, Packets;
    match s.consumer
    case Ready =>
      if s.tail != Stub {
        TakeOrKeeps(s, s.tail, NoNext(s.tail));
      } else if LinkOf(s, Stub).To? {
        AdvanceKeeps(s, LinkOf(s, Stub).e, SkippedStub(LinkOf(s, Stub).e));
      }
    case SkippedStub(tail) => TakeOrKeeps(s, tail, NoNext(tail));
    case Recheck(tail) => TakeOrKeeps(s, tail, Ready);
    case ExchangeStub(_) => ExchangeStubKeeps(s);
    case LinkStub(_, _) => LinkStubKeeps(s);
    case _ => QuietKeeps(s);
  }

  lemma OneElement(s: State)
    requires ChainOk(s)
    ensures s.tail == s.head ==> s.chain == [s.tail]
  {
  }

  lemma {:induction false} QuietKeeps(s: State)
    requires Inv(s) && (s.consumer.Taken? || s.consumer.NoNext? || s.consumer.ClearStub?)
    ensures Inv(ConsumeStep(s))
  {
    hide Packets, Outside, Links, Pending;
    var t := ConsumeStep(s);
    OutsideSame(s, t);
    PendingSame(s, t);
    match s.consumer
    case Taken(_) =>
    case NoNext(_) => OneElement(s);
    case ClearStub(_) => LinksOther(s.chain, s.next, Pending(s), Stub, Null);
  }

  lemma PendingJoins(s: State)
    requires s.consumer.ExchangeStub?
    ensures Pending(ConsumeStep(s)) == Pending(s) + {(s.head, Stub)}
  {
  }

  lemma PendingLeaves(s: State)
    requires s.consumer.LinkStub?
    ensures (s.consumer.prev, Stub) in Pending(s)
    ensures Pending(ConsumeStep(s)) == Pending(s) - {(s.consumer.prev, Stub)}
  {
  }

  lemma {:induction false} ExchangeStubKeeps(s: State)
    requires Inv(s) && s.consumer.ExchangeStub?
    ensures Inv(ConsumeStep(s))
  {
    hide Packets, Outside, Links, Pending;
    OutsideSame(s, ConsumeStep(s));
    NotEmpty(s);
    LinksAppend(s.chain, s.next, Pending(s), Stub);
    PacketsAppend(s.chain, Stub);
    PendingJoins(s);
  }

  lemma {:induction false} LinkStubChain(s: State)
    requires ChainOk(s) && s.consumer.LinkStub?
    ensures ChainOk(ConsumeStep(s)) && s.consumer.prev in s.chain
  {
    hide Links, Pending;
    PendingLeaves(s);
    PendingIn(s, s.consumer.prev, Stub);
    LinksWrite(s.chain, s.next, Pending(s), s.consumer.prev, Stub);
  }

  lemma {:induction false} LinkStubProducers(s: State)
    requires ProducersOk(s) && s.consumer.LinkStub? && s.consumer.prev in s.chain
    ensures ProducersOk(ConsumeStep(s))
  {
  }

  lemma {:induction false} LinkStubKeeps(s: State)
    requires Inv(s) && s.consumer.LinkStub?
    ensures Inv(ConsumeStep(s))
  {
    hide Packets, Outside, ChainOk, ProducersOk;
    OutsideSame(s, ConsumeStep(s));
    LinkStubChain(s);
    LinkStubProducers(s);
  }

  lemma {:induction false} StepKeeps(s: State, a: Action)
    requires Inv(s) && Enabled(s, a)
    ensures Inv(Apply(s, a))
  {
    hide Inv, EnqueueStep, ProduceStep, ConsumeStep;
    match a
    case Enqueue(p, skb) => EnqueueKeeps(s, p, skb);
    case Produce(p) => ProduceKeeps(s, p);
    case Consume => ConsumeKeeps(s);
  }

  lemma {:induction false} InitOk()
    ensures Inv(Init())
  {
    assert Init().chain[..0] == [];
  }

  lemma {:induction false} RunKeeps(s: State, run: seq<Action>)
    requires Inv(s) && Possible(s, run)
    ensures Inv(After(s, run))
    decreases |run|
  {
    hide Inv, Apply, Enabled;
    if run != [] {
      StepKeeps(s, run[0]);
      RunKeeps(Apply(s, run[0]), run[1..]);
    }
  }

  /** In every reachable state: packets have been dequeued in the order of their exchanges, each once, the rest
      of them are in the queue in that order, no more than are counted and no more than the limit; the stub is in
      the queue at most once; and no producer is about to write to an element that has left it. */
  lemma {:induction false} Safety(run: seq<Action>)
    requires Possible(Init(), run)
    ensures var s := After(Init(), run);
      && s.exchanged == s.dequeued + Packets(s.chain)
      && |Packets(s.chain)| <= s.count <= MAX_QUEUED_PACKETS
      && (forall i, j :: 0 <= i < j < |s.chain| && s.chain[i] == Stub ==> s.chain[j] != Stub)
      && (forall a, b :: (a, b) in Pending(s) ==> a in s.chain && b in s.chain)
      && (s.consumer.Taken? ==> s.dequeued != [] && s.consumer.tail == Packet(s.dequeued[|s.dequeued| - 1]))
  {
    InitOk();
    RunKeeps(Init(), run);
    var s := After(Init(), run);
    forall a, b | (a, b) in Pending(s)
      ensures a in s.chain && b in s.chain
    {
      PendingIn(s, a, b);
    }
  }

  // ---- every packet that was let in ----

  ghost predicate LetIn(s: State, a: Action) {
    a.Enqueue? && s.count < MAX_QUEUED_PACKETS
  }

  /** The packets of the run's enqueues that the queue had room for */
  ghost function Accepted(s: State, run: seq<Action>): multiset<nat>
    decreases |run|
  {
    if run == [] then multiset{}
    else (if LetIn(s, run[0]) then multiset{run[0].skb} else multiset{}) + Accepted(Apply(s, run[0]), run[1..])
  }

  /** How many of these are producer p's, and how many steps it has taken */
  ghost function Entries(s: State, run: seq<Action>, p: nat): nat
    decreases |run|
  {
    if run == [] then 0
    else (if LetIn(s, run[0]) && run[0].p == p then 1 else 0) + Entries(Apply(s, run[0]), run[1..], p)
  }

  ghost function Steps(run: seq<Action>, p: nat): nat {
    if run == [] then 0 else (if run[0] == Produce(p) then 1 else 0) + Steps(run[1..], p)
  }

  /** The packets that producers hold before the exchange */
  ghost function Held(s: State): set<nat> {
    set p | p in s.producers && (s.producers[p].Counted? || s.producers[p].Cleared?) :: s.producers[p].skb
  }

  /** How many steps a producer has to go */
  function ToGo(x: Producer): nat {
    match x
    case Idle => 0
    case Counted(_) => 3
    case Cleared(_) => 2
    case Exchanged(_, _) => 1
  }

  lemma {:induction false} HeldNext(s: State, a: Action)
    requires Inv(s) && Enabled(s, a)
    ensures var t := Apply(s, a);
      multiset(t.exchanged) + multiset(Held(t))
      == multiset(s.exchanged) + multiset(Held(s)) + if LetIn(s, a) then multiset{a.skb} else multiset{}
  {
    hide Links, Pending, Packets, Outside, ChainOk, ConsumerOk, ProduceStep, ConsumeStep, InUse, ProducersOk;
    match a
    case Enqueue(p, skb) => EnqueueHeld(s, p, skb);
    case Produce(p) => ProduceHeld(s, p);
    case Consume =>
      ConsumeApart(s);
      HeldSame(s, ConsumeStep(s));
  }

  lemma ConsumeApart(s: State)
    ensures ConsumeStep(s).producers == s.producers && ConsumeStep(s).exchanged == s.exchanged
  {
  }

  lemma HeldSame(s: State, t: State)
    requires s.producers == t.producers
    ensures Held(s) == Held(t)
  {
  }

  lemma {:induction false} EnqueueHeld(s: State, p: nat, skb: nat)
    requires ProducerAt(s, p) == Idle && !InUse(s, skb) && s.count <= MAX_QUEUED_PACKETS
    ensures var t := EnqueueStep(s, p, skb);
      && t.exchanged == s.exchanged
      && multiset(Held(t)) == multiset(Held(s)) + if s.count < MAX_QUEUED_PACKETS then multiset{skb} else multiset{}
  {
    if s.count < MAX_QUEUED_PACKETS {
      HeldMore(s, p, skb);
      hide InUse, Held;
      var t := EnqueueStep(s, p, skb);
      HeldSame(SetProducer(s, p, Counted(skb)), t);
      assert multiset(Held(s) + {skb}) == multiset(Held(s)) + multiset{skb};
    }
  }

  lemma {:induction false} HeldMore(s: State, p: nat, skb: nat)
    requires ProducerAt(s, p) == Idle && !InUse(s, skb)
    ensures skb !in Held(s) && Held(SetProducer(s, p, Counted(skb))) == Held(s) + {skb}
  {
    var t := SetProducer(s, p, Counted(skb));
    forall x | x in Held(s)
      ensures x in Held(t)
    {
      var q :| q in s.producers && (s.producers[q].Counted? || s.producers[q].Cleared?) && s.producers[q].skb == x;
      assert q in t.producers && t.producers[q] == s.producers[q];
    }
    assert t.producers[p] == Counted(skb);
  }

  ghost predicate Holding(x: Producer) {
    x.Counted? || x.Cleared?
  }

  lemma {:induction false} HeldStays(s: State, p: nat, x: Producer)
    requires p in s.producers && Holding(s.producers[p]) == Holding(x)
    requires Holding(x) ==> s.producers[p].skb == x.skb
    ensures Held(SetProducer(s, p, x)) == Held(s)
  {
    var t := SetProducer(s, p, x);
    assert t.producers.Keys == s.producers.Keys;
    assert forall q :: q in s.producers && Holding(t.producers[q]) ==> Holding(s.producers[q]) && s.producers[q].skb == t.producers[q].skb;
    assert forall q :: q in s.producers && Holding(s.producers[q]) ==> Holding(t.producers[q]) && s.producers[q].skb == t.producers[q].skb;
  }

  lemma {:induction false} HeldLess(s: State, p: nat, x: Producer)
    requires p in s.producers && Holding(s.producers[p]) && !Holding(x) && ProducersOk(s)
    ensures s.producers[p].skb in Held(s) && Held(SetProducer(s, p, x)) == Held(s) - {s.producers[p].skb}
  {
    var t, skb := SetProducer(s, p, x), s.producers[p].skb;
    assert t.producers.Keys == s.producers.Keys;
    forall y
      ensures y in Held(t) <==> y in Held(s) && y != skb
    {
      if q :| q in t.producers && Holding(t.producers[q]) && t.producers[q].skb == y {
        assert q != p && s.producers[q] == t.producers[q];
      }
      if y in Held(s) && y != skb {
        var q :| q in s.producers && Holding(s.producers[q]) && s.producers[q].skb == y;
        assert q != p && s.producers[q] == t.producers[q];
      }
    }
  }

  lemma {:induction false} ProduceHeld(s: State, p: nat)
    requires ProducersOk(s) && ProducerAt(s, p) != Idle
    ensures var t := ProduceStep(s, p);
      multiset(t.exchanged) + multiset(Held(t)) == multiset(s.exchanged) + multiset(Held(s))
  {
    hide ProducersOk, Held;
    var t, x := ProduceStep(s, p), s.producers[p];
    HeldSame(SetProducer(s, p, t.producers[p]), t);
    if x.Cleared? {
      HeldLess(s, p, t.producers[p]);
      assert multiset(Held(s)) == multiset(Held(s) - {x.skb}) + multiset{x.skb};
    } else {
      HeldStays(s, p, t.producers[p]);
    }
  }

  lemma {:induction false} ToGoNext(s: State, a: Action, p: nat)
    requires Enabled(s, a) && s.count <= MAX_QUEUED_PACKETS
    ensures ToGo(ProducerAt(Apply(s, a), p)) + (if a == Produce(p) then 1 else 0)
      == ToGo(ProducerAt(s, p)) + if LetIn(s, a) && a.p == p then 3 else 0
  {
    if a.Consume? {
      assert Apply(s, a).producers == s.producers;
    }
  }

  lemma {:induction false} RunConserves(s: State, run: seq<Action>, p: nat)
    requires Inv(s) && Possible(s, run)
    ensures var t := After(s, run);
      && multiset(t.exchanged) + multiset(Held(t)) == multiset(s.exchanged) + multiset(Held(s)) + Accepted(s, run)
      && ToGo(ProducerAt(t, p)) + Steps(run, p) == ToGo(ProducerAt(s, p)) + 3 * Entries(s, run, p)
    decreases |run|
  {
    if run != [] {
      assert s.count <= MAX_QUEUED_PACKETS;
      HeldNext(s, run[0]);
      ToGoNext(s, run[0], p);
      StepKeeps(s, run[0]);
      hide Inv, Apply, Enabled, Held, ToGo, LetIn;
      RunConserves(Apply(s, run[0]), run[1..], p);
    }
  }

  /** In every run the packets let in are those exchanged and those that a producer still holds, none lost and none
      twice; and a producer is through with three steps for each of its packets. */
  lemma {:induction false} NoneLost(run: seq<Action>, p: nat)
    requires Possible(Init(), run)
    ensures var s := After(Init(), run);
      && Accepted(Init(), run) == multiset(s.exchanged) + multiset(Held(s))
      && ToGo(ProducerAt(s, p)) == 3 * Entries(Init(), run, p) - Steps(run, p)
  {
    InitOk();
    assert Held(Init()) == {};
    RunConserves(Init(), run, p);
  }

  // ---- a dequeue that no producer disturbs ----

  function ConsumeN(s: State, k: nat): State
    decreases k
  {
    if k == 0 then s else ConsumeN(ConsumeStep(s), k - 1)
  }

  lemma {:induction false} ConsumeNext(s: State, k: nat)
    ensures ConsumeN(ConsumeStep(s), k) == ConsumeN(s, k + 1)
  {
  }

  /** With all links written a tail that is a packet is taken, the stub going in behind it if it is the last one. */
  lemma {:induction false} TakeAlone(s: State) returns (k: nat)
    requires Inv(s) && Pending(s) == {} && s.tail.Packet? && (s.consumer.Ready? || s.consumer == SkippedStub(s.tail))
    ensures k <= 6 && ConsumeN(s, k).consumer == Taken(s.tail)
  {
    assert LinkOk(s.chain, s.next, Pending(s), 0);
    hide Links, Pending, ProducersOk, CountOk, Packets;
    if |s.chain| > 1 {
      ConsumeNext(s, 0);
      k := 1;
    } else {
      TakeLast(s);
      k := 6;
    }
  }

  /** The last packet: the stub goes in behind it. */
  lemma {:induction false} TakeLast(s: State)
    requires s.tail.Packet? && s.tail == s.head && LinkOf(s, s.tail) == Null
    requires s.consumer.Ready? || s.consumer == SkippedStub(s.tail)
    ensures ConsumeN(s, 6).consumer == Taken(s.tail)
  {
    var s1 := ConsumeStep(s);
    var s2 := ConsumeStep(s1);
    assert s2.consumer == ClearStub(s.tail) && s2.tail == s2.head == s.tail;
    TakeBehindStub(s2);
    hide ConsumeStep;
    ConsumeNext(s1, 4);
    ConsumeNext(s, 5);
  }

  lemma {:induction false} TakeBehindStub(s: State)
    requires s.tail.Packet? && s.tail == s.head && s.consumer == ClearStub(s.tail)
    ensures ConsumeN(s, 4).consumer == Taken(s.tail)
  {
    var s1 := ConsumeStep(s);
    var s2 := ConsumeStep(s1);
    var s3 := ConsumeStep(s2);
    assert s3.consumer == Recheck(s.tail) && LinkOf(s3, s.tail) == To(Stub);
    var s4 := ConsumeStep(s3);
    assert s4.consumer == Taken(s.tail);
    hide ConsumeStep;
    ConsumeNext(s3, 0);
    ConsumeNext(s2, 1);
    ConsumeNext(s1, 2);
    ConsumeNext(s, 3);
  }

  /** A dequeue that runs while no link is missing returns the oldest packet, and NULL only if there is none. */
  lemma {:induction false} DequeueAlone(s: State) returns (k: nat)
    requires Inv(s) && s.consumer.Ready? && Pending(s) == {}
    ensures Packets(s.chain) == [] ==> k == 1 && ConsumeN(s, k) == s
    ensures Packets(s.chain) != [] ==> k <= 7 && ConsumeN(s, k).consumer == Taken(Packet(Packets(s.chain)[0]))
  {
    PacketsDrop(s.chain);
    if s.tail.Packet? {
      k := TakeAlone(s);
    } else {
      assert LinkOk(s.chain, s.next, Pending(s), 0);
      var t := ConsumeStep(s);
      ConsumeNext(s, 0);
      if |s.chain| == 1 {
        assert s.chain[1..] == [];
        k := 1;
      } else {
        ConsumeKeeps(s);
        PendingSame(s, t);
        PacketsDrop(t.chain);
        assert t.tail == s.chain[1] && t.chain == s.chain[1..];
        k := TakeAlone(t);
        ConsumeNext(s, k);
        k := k + 1;
      }
    }
  }
}
