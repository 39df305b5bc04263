/** The pipeline over the memory of its queues: the peers' queues are those of
    PrevQueue and the device's ring is that of RingSteps, each access a step
    of its own, interleaved with everything else. A dequeue finds nothing
    while a link is missing, and a consumer or worker works on the packet that
    it read from memory. */
module QueuedPipeline {
  import opened Wrappers
  import P = Pipeline
  import Q = PrevQueue
  import R = RingSteps

  /** Which queue a submitter puts a packet into, and what it holds on to meanwhile */
  datatype Entry = Entry(peer: nat, producer: nat, keypair: nat)

  /** rest is the pipeline apart from its queues and its ring, which stay empty in there; reader is the worker that
      has the ring's consumer_lock. */
  datatype State = State(
    rest: P.State, queues: map<nat, Q.State>, entries: map<nat, Entry>, ring: R.State, reader: nat)

  function Init(size: nat, batch: nat): State {
    State(P.Init(), map[], map[], R.Init(size, batch), 0)
  }

  function QueueAt(s: State, p: nat): Q.State {
    if p in s.queues then s.queues[p] else Q.Init()
  }

  /** The packet that a pointer in the ring is for; 0 is NULL. */
  function Id(ptr: nat): nat {
    if ptr == 0 then 0 else ptr - 1
  }

  /** Enter: a submitter counts its packet; Step: its next step in the peer's queue; TurnAway: the peer is dead.
      Check and Store: it tests and writes a slot of the ring. Read and Discard: a worker reads a slot and moves
      the ring on; Finish is that of Pipeline. Dequeue: the consumer's next step in wg_prev_queue_dequeue; Poll: it
      looks at the state of the packet it holds. */
  datatype Action =
    | Enter(id: nat, entry: Entry)
    | Step(peer: nat, producer: nat)
    | TurnAway(id: nat, peer: nat, keypair: nat)
    | Check(id: nat)
    | Store
    | Read(w: nat)
    | Discard
    | Finish(w: nat, ok: bool)
    | Dequeue(peer: nat)
    | Poll(peer: nat, passed: bool)

  predicate Unknown(s: State, id: nat) {
    id !in s.rest.packets && id !in s.entries
  }

  /** The submitter has returned from wg_prev_queue_enqueue. */
  predicate Linked(s: State, id: nat) {
    id in s.entries ==>
      var q := QueueAt(s, s.entries[id].peer);
      Q.ProducerAt(q, s.entries[id].producer).Idle? || Q.ProducerAt(q, s.entries[id].producer).skb != id
  }

  ghost predicate Enabled(s: State, a: Action) {
    match a
    case Enter(id, e) => Unknown(s, id) && Q.Enabled(QueueAt(s, e.peer), Q.Enqueue(e.producer, id))
    case Step(peer, producer) => Q.Enabled(QueueAt(s, peer), Q.Produce(producer))
    case TurnAway(id, _, _) => Unknown(s, id)
    case Check(id) => Linked(s, id) && P.Enabled(s.rest, P.Produce(id, false)) && s.ring.p.Quiet?
    case Store => s.ring.p.FoundEmpty?
    case Read(w) => w !in s.rest.workers && s.ring.c.Ready?
    case Discard => !s.ring.c.Ready?
    case Finish(w, ok) => P.Enabled(s.rest, P.Finish(w, ok))
    case Dequeue(peer) => P.PeerAt(s.rest, peer).peeked == None || QueueAt(s, peer).consumer.Taken?
    case Poll(peer, _) => P.PeerAt(s.rest, peer).peeked.Some? && QueueAt(s, peer).consumer.Ready?
  }

  /** The packet that the consumer's next step takes out of the queue */
  function TakenBy(q: Q.State): Option<nat> {
    var c := Q.ConsumeStep(q).consumer;
    if !q.consumer.Taken? && c.Taken? && c.tail.Packet? then Some(c.tail.id) else None
  }

  /** The worker's next step is the last one in ptr_ring_consume. */
  predicate Consumes(r: R.State) {
    (r.c.Got? && !R.ClearsNow(r)) || (r.c.Clearing? && r.c.at < r.tail)
  }

  function Rest(s: State, a: Action): P.State
    requires a.Check? ==> a.id in s.rest.packets
    requires a.Finish? ==> P.Enabled(s.rest, P.Finish(a.w, a.ok))
  {
    match a
    case Enter(id, e) =>
      if QueueAt(s, e.peer).count == Q.MAX_QUEUED_PACKETS then P.SubmitStep(s.rest, id, e.peer, e.keypair, true) else s.rest
    case Step(peer, producer) =>
      var x := Q.ProducerAt(QueueAt(s, peer), producer);
      if x.Cleared? && x.skb in s.entries
      then P.Register(s.rest, x.skb, peer, s.entries[x.skb].keypair, P.Submitter).(
             peers := s.rest.peers[peer := P.PeerAt(s.rest, peer)])
      else s.rest
    case TurnAway(id, peer, keypair) => P.SubmitStep(s.rest, id, peer, keypair, true)
    case Check(id) => if R.Refused(s.ring) then P.SetState(s.rest, id, P.Dead) else s.rest
    case Store => if s.ring.p.FoundEmpty? then P.Hold(s.rest, Id(s.ring.p.ptr), P.Ring) else s.rest
    case Read(_) => s.rest
    case Discard => if Consumes(s.ring) then P.Give(s.rest, s.reader, Id(s.ring.c.ptr)) else s.rest
    case Finish(w, ok) => P.FinishStep(s.rest, w, ok)
    case Dequeue(peer) =>
      var got := TakenBy(QueueAt(s, peer));
      if got.Some? then s.rest.(peers := s.rest.peers[peer := P.PeerAt(s.rest, peer).(peeked := got)]) else s.rest
    case Poll(peer, passed) => P.PollStep(s.rest, peer, passed)
  }

  function Queues(s: State, a: Action): map<nat, Q.State> {
    match a
    case Enter(id, e) => s.queues[e.peer := Q.EnqueueStep(QueueAt(s, e.peer), e.producer, id)]
    case Step(peer, producer) => s.queues[peer := Q.ProduceStep(QueueAt(s, peer), producer)]
    case Dequeue(peer) => s.queues[peer := Q.ConsumeStep(QueueAt(s, peer))]
    case _ => s.queues
  }

  /** The ring's own action in a step */
  function RingAction(a: Action): Option<R.Action> {
    match a
    case Check(id) => Some(R.Check(id + 1))
    case Store => Some(R.Store)
    case Read(_) => Some(R.Read)
    case Discard => Some(R.Discard)
    case _ => None
  }

  ghost function Apply(s: State, a: Action): State
    requires R.Inv(s.ring) && Enabled(s, a)
  {
    var r := RingAction(a);
    State(Rest(s, a), Queues(s, a),
          if a.Enter? then s.entries[a.id := a.entry] else s.entries,
          if r.Some? then R.Apply(s.ring, r.value) else s.ring,
          if a.Read? then a.w else s.reader)
  }

  // ---- the pipeline it stands for ----

  /** What the ring's memory holds that no worker has got */
  ghost function Entries(r: R.State): seq<nat>
    requires R.Inv(r)
  {
    seq<nat>(|r.produced| - |r.consumed|, i requires 0 <= i < |r.produced| - |r.consumed| => Id(r.produced[|r.consumed| + i]))
  }

  function Full(s: State, p: nat): P.Peer {
    P.PeerAt(s.rest, p).(queue := Q.Packets(QueueAt(s, p).chain), queued := QueueAt(s, p).exchanged)
  }

  ghost function Peers(s: State): map<nat, P.Peer> {
    map p | p in s.rest.peers :: Full(s, p)
  }

  /** The pipeline with plain queues and a plain ring */
  ghost function Plain(s: State): P.State
    requires R.Inv(s.ring)
  {
    s.rest.(peers := Peers(s), ring := Entries(s.ring))
  }

  /** The plain pipeline's action that a step amounts to, if any */
  function Meaning(s: State, a: Action): Option<P.Action> {
    match a
    case Enter(id, e) =>
      if QueueAt(s, e.peer).count == Q.MAX_QUEUED_PACKETS then Some(P.Submit(id, e.peer, e.keypair, false, true)) else None
    case Step(peer, producer) =>
      var x := Q.ProducerAt(QueueAt(s, peer), producer);
      if x.Cleared? && x.skb in s.entries then Some(P.Submit(x.skb, peer, s.entries[x.skb].keypair, false, false)) else None
    case TurnAway(id, peer, keypair) => Some(P.Submit(id, peer, keypair, true, false))
    case Check(id) => if R.Refused(s.ring) then Some(P.Produce(id, true)) else None
    case Store => if s.ring.p.FoundEmpty? then Some(P.Produce(Id(s.ring.p.ptr), false)) else None
    case Read(_) => None
    case Discard => if Consumes(s.ring) then Some(P.Take(s.reader)) else None
    case Finish(w, ok) => Some(P.Finish(w, ok))
    case Dequeue(peer) => if TakenBy(QueueAt(s, peer)).Some? then Some(P.Look(peer)) else None
    case Poll(peer, passed) => Some(P.Poll(peer, passed))
  }

  // ---- the invariant ----

  /** A peer's queue is sound, is used only for peers that are known, and the packet on its way out of it is the one
      peeked at. */
  ghost predicate QueueOk(s: State, p: nat) {
    var q := QueueAt(s, p);
    && Q.Inv(q) && (p !in s.rest.peers ==> q.exchanged == [])
    && (q.consumer.Taken? ==> q.consumer.tail.Packet? && P.PeerAt(s.rest, p).peeked == Some(q.consumer.tail.id))
    && P.PeerAt(s.rest, p).queue == [] && P.PeerAt(s.rest, p).queued == []
  }

  /** A packet on its way into a queue is not in the pipeline yet, and its submitter's own. */
  ghost predicate EntryOk(s: State, p: nat, c: nat) {
    var x := Q.ProducerAt(QueueAt(s, p), c);
    x.Counted? || x.Cleared? ==>
      && x.skb in s.entries && s.entries[x.skb].peer == p && s.entries[x.skb].producer == c
      && x.skb !in s.rest.packets
  }

  /** Who is between two steps in the ring: a submitter with its packet, and a worker without one. */
  ghost predicate RingOk(s: State) {
    && R.Inv(s.ring) && s.rest.ring == []
    && (s.ring.p.FoundEmpty? ==>
          Id(s.ring.p.ptr) in s.rest.packets && s.rest.packets[Id(s.ring.p.ptr)].holder == P.Submitter)
    && (!s.ring.c.Ready? ==> s.reader !in s.rest.workers)
  }

  ghost predicate QueuesOk(s: State) {
    && (forall p {:trigger QueueOk(s, p)} :: QueueOk(s, p))
    && (forall p, c {:trigger EntryOk(s, p, c)} :: EntryOk(s, p, c))
  }

  ghost predicate Inv(s: State) {
    RingOk(s) && QueuesOk(s) && P.Inv(Plain(s))
  }

  lemma {:induction false} PlainPeer(s: State, p: nat)
    requires R.Inv(s.ring) && QueueOk(s, p)
    ensures P.PeerAt(Plain(s), p) == Full(s, p)
  {
    hide Q.ChainOk, Q.ProducersOk, Q.ConsumerOk, Q.CountOk;
  }

  // ---- steps that leave the peers' queues alone ----

  lemma {:induction false} QuietQueues(s: State, t: State)
    requires QueuesOk(s) && t.queues == s.queues && t.entries == s.entries
    requires forall p {:trigger P.PeerAt(t.rest, p)} ::
      && P.PeerAt(t.rest, p).queue == [] && P.PeerAt(t.rest, p).queued == []
      && (QueueAt(s, p).consumer.Taken? ==> P.PeerAt(t.rest, p).peeked == P.PeerAt(s.rest, p).peeked)
    requires s.rest.peers.Keys <= t.rest.peers.Keys
    requires forall id :: id in t.rest.packets ==> id in s.rest.packets || id !in s.entries
    ensures QueuesOk(t)
  {
    hide Q.Inv, P.PeerAt;
    forall p
      ensures QueueOk(t, p)
    {
      assert QueueOk(s, p);
    }
    forall p, c
      ensures EntryOk(t, p, c)
    {
      assert EntryOk(s, p, c);
    }
  }

  ghost predicate SameContents(s: State, t: State) {
    forall p :: Q.Packets(QueueAt(t, p).chain) == Q.Packets(QueueAt(s, p).chain) && QueueAt(t, p).exchanged == QueueAt(s, p).exchanged
  }

  lemma {:induction false} SamePeers(s: State, t: State)
    requires SameContents(s, t) && t.rest.peers == s.rest.peers
    ensures Peers(t) == Peers(s)
  {
    hide Q.Packets, QueueAt;
    assert forall p :: Full(t, p) == Full(s, p);
  }

  /** One peer changes, or its queue. */
  lemma {:induction false} OnePeer(s: State, t: State, peer: nat, x: P.Peer)
    requires t.rest.peers == s.rest.peers[peer := x] && forall p :: p != peer ==> QueueAt(t, p) == QueueAt(s, p)
    ensures Peers(t) == Peers(s)[peer := Full(t, peer)]
  {
    hide Q.Packets, QueueAt;
    assert forall p :: p in s.rest.peers && p != peer ==> Full(t, p) == Full(s, p);
  }

  /** Where no peer changes: TurnAway, Check, Store, Read, Discard and Finish */
  lemma {:induction false} SamePeersQueues(s: State, t: State)
    requires QueuesOk(s) && t.queues == s.queues && t.entries == s.entries && t.rest.peers == s.rest.peers
    requires forall id :: id in t.rest.packets ==> id in s.rest.packets || id !in s.entries
    ensures QueuesOk(t)
  {
    hide Q.Inv;
    forall p
      ensures P.PeerAt(t.rest, p) == P.PeerAt(s.rest, p) && P.PeerAt(t.rest, p).queue == [] && P.PeerAt(t.rest, p).queued == []
    {
      assert QueueOk(s, p);
    }
    QuietQueues(s, t);
  }

  lemma SameEntries(r: R.State, t: R.State)
    requires R.Inv(r) && R.Inv(t) && t.produced == r.produced && t.consumed == r.consumed
    ensures Entries(t) == Entries(r)
  {
    hide R.Slots, R.Shaped, R.Roles;
  }

  lemma {:induction false} StoreEntries(r: R.State, t: R.State)
    requires R.Inv(r) && R.Inv(t) && r.p.FoundEmpty? && t.produced == r.produced + [r.p.ptr] && t.consumed == r.consumed
    ensures Entries(t) == Entries(r) + [Id(r.p.ptr)]
  {
    hide R.Slots, R.Shaped, R.Roles;
  }

  lemma {:induction false} ConsumeEntries(r: R.State, t: R.State)
    requires R.Inv(r) && R.Inv(t) && !r.c.Ready? && t.produced == r.produced && t.consumed == r.consumed + [r.c.ptr]
    ensures Entries(r) != [] && Entries(r)[0] == Id(r.c.ptr) && Entries(t) == Entries(r)[1..]
  {
    hide R.Slots, R.Shaped;
  }

  /** What the ring's actions do to its entries */
  lemma {:induction false} RingEntries(r: R.State, a: R.Action)
    requires R.Inv(r) && R.Enabled(r, a)
    ensures var t := R.Apply(r, a);
      && R.Inv(t)
      && (a.Store? ==> Entries(t) == Entries(r) + [Id(r.p.ptr)])
      && (a.Discard? && Consumes(r) ==> Entries(r) != [] && Entries(r)[0] == Id(r.c.ptr) && Entries(t) == Entries(r)[1..])
      && (!a.Store? && !(a.Discard? && Consumes(r)) ==> Entries(t) == Entries(r))
  {
    R.StepKeeps(r, a);
    var t := R.Apply(r, a);
    RingHistory(r, a);
    hide R.Apply, R.Inv, Entries;
    if a.Store? {
      StoreEntries(r, t);
    } else if a.Discard? && Consumes(r) {
      ConsumeEntries(r, t);
    } else {
      SameEntries(r, t);
    }
  }

  lemma {:induction false} RingHistory(r: R.State, a: R.Action)
    requires R.Inv(r) && R.Enabled(r, a)
    ensures var t := R.Apply(r, a);
      && t.produced == (if a.Store? then r.produced + [r.p.ptr] else r.produced)
      && t.consumed == (if a.Discard? && Consumes(r) then r.consumed + [r.c.ptr] else r.consumed)
  {
    hide R.Slots;
  }

  /** Who has which lock after the ring's actions */
  lemma {:induction false} RingRoles(r: R.State, a: R.Action)
    requires R.Inv(r) && R.Enabled(r, a)
    ensures var t := R.Apply(r, a);
      && (a.Check? ==> t.c == r.c && t.p == if R.Refused(r) then R.Quiet else R.FoundEmpty(a.ptr))
      && (a.Store? ==> t.c == r.c && t.p == R.Quiet)
      && (a.Read? || a.Discard? ==> t.p == r.p)
      && (a.Discard? ==> (t.c.Ready? <==> Consumes(r)))
  {
    hide R.Slots;
  }

  ghost predicate Sound(s: State) {
    RingOk(s) && QueuesOk(s)
  }

  /** A step is a step of the plain pipeline, or leaves that alone. */
  ghost predicate Means(s: State, a: Action)
    requires RingOk(s) && Enabled(s, a) && R.Inv(Apply(s, a).ring)
  {
    var m := Meaning(s, a);
    if m.None? then Plain(Apply(s, a)) == Plain(s)
    else P.Enabled(Plain(s), m.value) && Plain(Apply(s, a)) == P.Apply(Plain(s), m.value)
  }

  /** A packet in the ring is not a submitter's any more, and neither is a worker's. */
  lemma {:induction false} InRing(s: P.State, id: nat)
    requires P.Inv(s) && id in s.ring
    ensures id in s.packets && s.packets[id].holder == P.Ring
  {
    assert P.PacketOk(s, id);
  }

  lemma {:induction false} AtWorker(s: P.State, w: nat)
    requires P.Inv(s) && w in s.workers
    ensures s.workers[w] in s.packets && s.packets[s.workers[w]].holder == P.Worker(w)
  {
    assert P.PacketOk(s, s.workers[w]);
    assert w in P.HoldersOf(s, s.workers[w]);
  }

  /** The ring's own side of a step on it */
  lemma {:induction false} RingKeeps(s: State, a: Action)
    requires Inv(s) && Enabled(s, a) && RingAction(a).Some?
    ensures Sound(Apply(s, a))
  {
    hide P.Inv, R.Inv, R.Apply, QueuesOk, Peers, Linked, R.ClearsNow;
    var r := RingAction(a).value;
    RingReady(s, a);
    RingEntries(s.ring, r);
    RingRoles(s.ring, r);
    if a.Discard? && Consumes(s.ring) {
      InRing(Plain(s), Entries(s.ring)[0]);
    }
    SamePeersQueues(s, Apply(s, a));
  }

  lemma {:induction false} RingMeans(s: State, a: Action)
    requires Inv(s) && Enabled(s, a) && RingAction(a).Some? && R.Inv(Apply(s, a).ring)
    ensures Means(s, a)
  {
    hide P.Inv, R.Inv, R.Apply, Q.Inv, Peers, QueuesOk, Entries, Linked;
    RingReady(s, a);
    RingEntries(s.ring, RingAction(a).value);
    SamePeers(s, Apply(s, a));
  }

  lemma RingReady(s: State, a: Action)
    requires Enabled(s, a) && RingAction(a).Some?
    ensures R.Enabled(s.ring, RingAction(a).value)
  {
  }

  /** TurnAway and Finish */
  lemma {:induction false} PacketKeeps(s: State, a: Action)
    requires Inv(s) && Enabled(s, a) && (a.TurnAway? || a.Finish?)
    ensures Sound(Apply(s, a))
  {
    hide R.Inv, Peers, QueuesOk;
    if a.Finish? {
      AtWorker(Plain(s), a.w);
    }
    hide P.Inv;
    SamePeersQueues(s, Apply(s, a));
  }

  lemma {:induction false} PacketMeans(s: State, a: Action)
    requires Inv(s) && Enabled(s, a) && (a.TurnAway? || a.Finish?)
    ensures Means(s, a)
  {
    hide P.Inv, R.Inv, Q.Inv, Peers, QueuesOk, Entries;
    SamePeers(s, Apply(s, a));
  }

  lemma {:induction false} PollKeeps(s: State, a: Action)
    requires Inv(s) && Enabled(s, a) && a.Poll?
    ensures Sound(Apply(s, a))
  {
    var t := Apply(s, a);
    PollRest(s.rest, a.peer, a.passed);
    hide P.Inv, R.Inv, Q.Inv, P.PollStep, P.PeerAt;
    forall p
      ensures P.PeerAt(t.rest, p).queue == [] && P.PeerAt(t.rest, p).queued == []
      ensures p != a.peer ==> P.PeerAt(t.rest, p) == P.PeerAt(s.rest, p)
    {
      assert QueueOk(s, p);
    }
    QuietQueues(s, t);
  }

  /** A poll with a packet in hand does not look into the queue. */
  lemma {:induction false} PollRest(s: P.State, peer: nat, passed: bool)
    requires P.PeerAt(s, peer).peeked.Some?
    ensures var t := P.PollStep(s, peer, passed);
      && P.PeerAt(t, peer).queue == P.PeerAt(s, peer).queue && P.PeerAt(t, peer).queued == P.PeerAt(s, peer).queued
      && (forall p :: p != peer ==> P.PeerAt(t, p) == P.PeerAt(s, p))
      && t.packets.Keys == s.packets.Keys && s.peers.Keys <= t.peers.Keys && t.workers == s.workers && t.ring == s.ring
      && (forall id :: id in t.packets ==> t.packets[id].holder == s.packets[id].holder)
  {
  }

  /** Nor does what it does depend on what is in there. */
  lemma {:induction false} PollBoth(a: P.State, b: P.State, peer: nat, passed: bool, queue: seq<nat>, queued: seq<nat>)
    requires P.PeerAt(a, peer).peeked.Some? && b == a.(peers := b.peers, ring := b.ring)
    requires P.PeerAt(b, peer) == P.PeerAt(a, peer).(queue := queue, queued := queued)
    ensures var t, u := P.PollStep(a, peer, passed), P.PollStep(b, peer, passed); var x := P.PeerAt(t, peer);
      if P.PeerAt(a, peer).peeked.value in a.packets
      then t.peers == a.peers[peer := x] && u == t.(peers := b.peers[peer := x.(queue := queue, queued := queued)], ring := b.ring)
      else t == a && u == b
  {
  }

  lemma {:induction false} PollMeans(s: State, a: Action)
    requires Inv(s) && Enabled(s, a) && a.Poll?
    ensures Means(s, a)
  {
    hide P.Inv, R.Inv, Q.Inv, Q.Packets, Peers, Entries, P.PeerAt, P.PollStep;
    var t, q := Apply(s, a), QueueAt(s, a.peer);
    assert QueueOk(s, a.peer);
    PlainPeer(s, a.peer);
    PollBoth(s.rest, Plain(s), a.peer, a.passed, Q.Packets(q.chain), q.exchanged);
    hide QueuesOk, QueueOk;
    if P.PeerAt(s.rest, a.peer).peeked.value in s.rest.packets {
      OnePeer(s, t, a.peer, P.PeerAt(t.rest, a.peer));
    } else {
      assert t == s;
    }
  }

  // ---- steps on a peer's queue ----

  /** What one peer's queue and its submitters need for the rest to stay as it is */
  lemma {:induction false} OneQueue(s: State, t: State, peer: nat)
    requires QueuesOk(s) && QueueOk(t, peer) && forall c :: EntryOk(t, peer, c)
    requires forall p {:trigger QueueAt(t, p)} :: p != peer ==> QueueAt(t, p) == QueueAt(s, p) && P.PeerAt(t.rest, p) == P.PeerAt(s.rest, p)
    requires s.rest.peers.Keys <= t.rest.peers.Keys
    requires forall id :: id in s.entries ==> id in t.entries && t.entries[id] == s.entries[id]
    requires forall id :: id in t.rest.packets ==> id in s.rest.packets || id !in s.entries || s.entries[id].peer == peer
    ensures QueuesOk(t)
  {
    hide Q.Inv, P.PeerAt, QueueAt;
    forall p
      ensures QueueOk(t, p)
    {
      assert QueueOk(s, p) && (p != peer ==> QueueAt(t, p) == QueueAt(s, p));
    }
    forall p, c
      ensures EntryOk(t, p, c)
    {
      assert EntryOk(s, p, c) && (p != peer ==> QueueAt(t, p) == QueueAt(s, p));
    }
  }

  lemma {:induction false} EnterQueue(q: Q.State, c: nat, id: nat)
    requires Q.Inv(q) && Q.Enabled(q, Q.Enqueue(c, id))
    ensures var r := Q.EnqueueStep(q, c, id);
      && Q.Inv(r) && r.chain == q.chain && r.exchanged == q.exchanged && r.consumer == q.consumer
      && (forall d :: d != c ==> Q.ProducerAt(r, d) == Q.ProducerAt(q, d))
      && (if q.count == Q.MAX_QUEUED_PACKETS then r == q else Q.ProducerAt(r, c) == Q.Counted(id))
  {
    Q.StepKeeps(q, Q.Enqueue(c, id));
    hide Q.Inv;
  }

  lemma {:induction false} EnterKeeps(s: State, a: Action)
    requires Inv(s) && Enabled(s, a) && a.Enter?
    ensures Sound(Apply(s, a))
  {
    hide P.Inv, R.Inv, Q.Inv, Q.Enabled, Q.EnqueueStep, Q.Packets, Peers, Entries;
    var e, t := a.entry, Apply(s, a);
    assert QueueOk(s, e.peer);
    EnterQueue(QueueAt(s, e.peer), e.producer, a.id);
    forall c
      ensures EntryOk(t, e.peer, c)
    {
      assert EntryOk(s, e.peer, c);
    }
    forall p | p != e.peer
      ensures QueueAt(t, p) == QueueAt(s, p) && P.PeerAt(t.rest, p) == P.PeerAt(s.rest, p)
    {
    }
    OneQueue(s, t, e.peer);
  }

  lemma {:induction false} EnterMeans(s: State, a: Action)
    requires Inv(s) && Enabled(s, a) && a.Enter?
    ensures Means(s, a)
  {
    hide P.Inv, R.Inv, Q.Inv, Q.Enabled, Q.EnqueueStep, Q.Packets, Peers, Entries;
    assert QueueOk(s, a.entry.peer);
    EnterQueue(QueueAt(s, a.entry.peer), a.entry.producer, a.id);
    hide QueuesOk, QueueOk;
    SamePeers(s, Apply(s, a));
  }

  /** A submitter before its exchange leaves room for its packet. */
  lemma {:induction false} RoomFor(q: Q.State, c: nat)
    requires Q.Inv(q) && Q.ProducerAt(q, c).Cleared?
    ensures |Q.Packets(q.chain)| < Q.MAX_QUEUED_PACKETS
  {
    hide Q.ChainOk, Q.ProducersOk, Q.Packets;
    assert c in Q.Outside(q);
  }

  lemma {:induction false} StepQueue(q: Q.State, c: nat)
    requires Q.Inv(q) && Q.ProducerAt(q, c) != Q.Idle
    ensures var r, x := Q.ProduceStep(q, c), Q.ProducerAt(q, c);
      && Q.Inv(r) && r.consumer == q.consumer
      && (forall d :: d != c ==> Q.ProducerAt(r, d) == Q.ProducerAt(q, d))
      && (Q.ProducerAt(r, c).Counted? || Q.ProducerAt(r, c).Cleared? ==> x.Counted? && Q.ProducerAt(r, c).skb == x.skb)
      && (x.Cleared? ==> Q.Packets(r.chain) == Q.Packets(q.chain) + [x.skb] && r.exchanged == q.exchanged + [x.skb])
      && (!x.Cleared? ==> r.chain == q.chain && r.exchanged == q.exchanged)
  {
    Q.StepKeeps(q, Q.Produce(c));
    hide Q.Inv, Q.Packets;
    if Q.ProducerAt(q, c).Cleared? {
      Q.PacketsAppend(q.chain, Q.Packet(Q.ProducerAt(q, c).skb));
    }
  }

  /** A step of a submitter other than the exchange */
  lemma {:induction false} LinkKeeps(s: State, a: Action)
    requires Inv(s) && Enabled(s, a) && a.Step? && !Q.ProducerAt(QueueAt(s, a.peer), a.producer).Cleared?
    ensures Sound(Apply(s, a)) && Means(s, a)
  {
    hide P.Inv, R.Inv, Q.Inv, Q.ProduceStep, Q.Packets, Peers, Entries;
    var t := Apply(s, a);
    assert QueueOk(s, a.peer);
    StepQueue(QueueAt(s, a.peer), a.producer);
    forall c
      ensures EntryOk(t, a.peer, c)
    {
      assert EntryOk(s, a.peer, c);
    }
    OneQueue(s, t, a.peer);
    SamePeers(s, t);
  }

  /** The exchange: the packet is in the queue, and in the pipeline. */
  lemma {:induction false} ExchangeKeeps(s: State, a: Action)
    requires Inv(s) && Enabled(s, a) && a.Step? && Q.ProducerAt(QueueAt(s, a.peer), a.producer).Cleared?
    ensures Sound(Apply(s, a))
  {
    hide P.Inv, R.Inv, Q.Inv, Q.ProduceStep, Q.Packets, Peers, Entries;
    var q, t := QueueAt(s, a.peer), Apply(s, a);
    assert QueueOk(s, a.peer) && EntryOk(s, a.peer, a.producer);
    StepQueue(q, a.producer);
    forall c
      ensures EntryOk(t, a.peer, c)
    {
      assert EntryOk(s, a.peer, c);
    }
    OneQueue(s, t, a.peer);
  }

  lemma {:induction false} ExchangeMeans(s: State, a: Action)
    requires Inv(s) && Enabled(s, a) && a.Step? && Q.ProducerAt(QueueAt(s, a.peer), a.producer).Cleared?
    ensures Means(s, a)
  {
    hide P.Inv, R.Inv, Q.Inv, Q.ProduceStep, Q.Packets, Peers, Entries;
    var q := QueueAt(s, a.peer);
    assert QueueOk(s, a.peer) && EntryOk(s, a.peer, a.producer);
    StepQueue(q, a.producer);
    RoomFor(q, a.producer);
    PlainPeer(s, a.peer);
    hide QueuesOk, QueueOk;
    OnePeer(s, Apply(s, a), a.peer, P.PeerAt(s.rest, a.peer));
  }

  /** A step of the consumer takes the first packet or none. */
  lemma {:induction false} ConsumeTakes(q: Q.State)
    requires Q.Inv(q)
    ensures var r := Q.ConsumeStep(q);
      && Q.Inv(r) && r.producers == q.producers && r.exchanged == q.exchanged
      && (TakenBy(q).Some? ==>
            && !q.consumer.Taken? && r.consumer == Q.Taken(Q.Packet(TakenBy(q).value))
            && Q.Packets(q.chain) == [TakenBy(q).value] + Q.Packets(r.chain))
      && (TakenBy(q).None? ==> Q.Packets(r.chain) == Q.Packets(q.chain) && !r.consumer.Taken?)
  {
    Q.ConsumeKeeps(q);
    ConsumeHistory(q);
    var r := Q.ConsumeStep(q);
    hide Q.ChainOk, Q.ProducersOk, Q.ConsumerOk, Q.CountOk, Q.Packets, Q.ConsumeStep;
    if TakenBy(q).Some? {
      var x := [r.consumer.tail.id];
      assert q.dequeued + x + Q.Packets(r.chain) == q.dequeued + (x + Q.Packets(r.chain));
      Cancel(q.dequeued, Q.Packets(q.chain), x + Q.Packets(r.chain));
    } else {
      Cancel(q.dequeued, Q.Packets(q.chain), Q.Packets(r.chain));
    }
  }

  lemma {:induction false} ConsumeHistory(q: Q.State)
    requires Q.ConsumerOk(q)
    ensures var r := Q.ConsumeStep(q);
      && r.exchanged == q.exchanged && r.producers == q.producers
      && (q.consumer.Taken? ==> r.consumer.Ready?)
      && (!q.consumer.Taken? && r.consumer.Taken? ==>
            r.consumer.tail.Packet? && r.dequeued == q.dequeued + [r.consumer.tail.id])
      && (q.consumer.Taken? || !r.consumer.Taken? ==> r.dequeued == q.dequeued)
  {
    hide Q.LinkOf;
    match q.consumer
    case Ready => assert q.tail.Packet? ==> Q.ConsumeStep(q) == Q.TakeOr(q, q.tail, Q.NoNext(q.tail));
    case SkippedStub(tail) =>
    case Recheck(tail) =>
    case _ =>
  }

  lemma Cancel(a: seq<nat>, b: seq<nat>, c: seq<nat>)
    requires a + b == a + c
    ensures b == c
  {
    assert (a + b)[|a|..] == b && (a + c)[|a|..] == c;
  }

  lemma {:induction false} DequeueKeeps(s: State, a: Action)
    requires Inv(s) && Enabled(s, a) && a.Dequeue?
    ensures Sound(Apply(s, a))
  {
    hide P.Inv, R.Inv, Q.Inv, Q.ConsumeStep, Q.Packets, Peers, Entries, TakenBy;
    var q, t := QueueAt(s, a.peer), Apply(s, a);
    assert QueueOk(s, a.peer);
    ConsumeTakes(q);
    forall c
      ensures EntryOk(t, a.peer, c)
    {
      assert EntryOk(s, a.peer, c);
    }
    forall p | p != a.peer
      ensures QueueAt(t, p) == QueueAt(s, p) && P.PeerAt(t.rest, p) == P.PeerAt(s.rest, p)
    {
    }
    OneQueue(s, t, a.peer);
  }

  lemma {:induction false} DequeueMeans(s: State, a: Action)
    requires Inv(s) && Enabled(s, a) && a.Dequeue?
    ensures Means(s, a)
  {
    hide P.Inv, R.Inv, Q.Inv, Q.ConsumeStep, Q.Packets, Peers, Entries, TakenBy;
    var q, t := QueueAt(s, a.peer), Apply(s, a);
    assert QueueOk(s, a.peer);
    ConsumeTakes(q);
    PlainPeer(s, a.peer);
    hide QueuesOk, QueueOk;
    if TakenBy(q).Some? {
      OnePeer(s, t, a.peer, P.PeerAt(s.rest, a.peer).(peeked := TakenBy(q)));
      assert Q.Packets(q.chain)[1..] == Q.Packets(QueueAt(t, a.peer).chain);
    } else {
      SamePeers(s, t);
    }
  }

  // ---- runs ----

  lemma {:induction false} StepKeeps(s: State, a: Action)
    requires Inv(s) && Enabled(s, a)
    ensures Sound(Apply(s, a)) && Means(s, a) && Inv(Apply(s, a))
  {
    StepSound(s, a);
    StepMeans(s, a);
    hide Enabled, Apply, Meaning, QueuesOk, P.Inv, P.Enabled, P.Apply, R.Inv, Peers, Entries;
    if Meaning(s, a).Some? {
      P.StepKeeps(Plain(s), Meaning(s, a).value);
    }
  }

  lemma {:induction false} StepSound(s: State, a: Action)
    requires Inv(s) && Enabled(s, a)
    ensures Sound(Apply(s, a))
  {
    hide Inv, Sound, Apply, Q.Enabled, P.Enabled;
    match a
    case Enter(_, _) => EnterKeeps(s, a);
    case Step(peer, producer) =>
      if Q.ProducerAt(QueueAt(s, peer), producer).Cleared? {
        ExchangeKeeps(s, a);
      } else {
        LinkKeeps(s, a);
      }
    case Dequeue(_) => DequeueKeeps(s, a);
    case Poll(_, _) => PollKeeps(s, a);
    case TurnAway(_, _, _) => PacketKeeps(s, a);
    case Finish(_, _) => PacketKeeps(s, a);
    case _ => RingKeeps(s, a);
  }

  lemma {:induction false} StepMeans(s: State, a: Action)
    requires Inv(s) && Enabled(s, a) && R.Inv(Apply(s, a).ring)
    ensures Means(s, a)
  {
    hide Inv, Means, Apply, Q.Enabled, P.Enabled;
    match a
    case Enter(_, _) => EnterMeans(s, a);
    case Step(peer, producer) =>
      if Q.ProducerAt(QueueAt(s, peer), producer).Cleared? {
        ExchangeMeans(s, a);
      } else {
        LinkKeeps(s, a);
      }
    case Dequeue(_) => DequeueMeans(s, a);
    case Poll(_, _) => PollMeans(s, a);
    case TurnAway(_, _, _) => PacketMeans(s, a);
    case Finish(_, _) => PacketMeans(s, a);
    case _ => RingMeans(s, a);
  }

  ghost predicate Possible(s: State, run: seq<Action>)
    requires Inv(s)
    decreases |run|
  {
    run != [] ==> Enabled(s, run[0]) && (StepKeeps(s, run[0]); Possible(Apply(s, run[0]), run[1..]))
  }

  ghost function After(s: State, run: seq<Action>): (t: State)
    requires Inv(s) && Possible(s, run)
    ensures Inv(t)
    decreases |run|
  {
    if run == [] then s else StepKeeps(s, run[0]); After(Apply(s, run[0]), run[1..])
  }

  lemma {:induction false} InitOk(size: nat, batch: nat)
    requires 0 < batch <= size
    ensures Inv(Init(size, batch))
  {
    Q.InitOk();
    P.InitOk();
    R.InitOk(size, batch);
    var s := Init(size, batch);
    hide P.Inv, Q.Inv, R.Inv;
    assert Peers(s) == map[];
    assert Entries(s.ring) == [];
    forall p
      ensures QueueOk(s, p)
    {
    }
  }

  /** Every run is a run of the pipeline with plain queues and a plain ring. */
  lemma {:induction false} Refines(s: State, run: seq<Action>) returns (r: seq<P.Action>)
    requires Inv(s) && Possible(s, run)
    ensures P.Possible(Plain(s), r) && P.After(Plain(s), r) == Plain(After(s, run))
    decreases |run|
  {
    if run == [] {
      r := [];
    } else {
      hide Inv, Enabled, P.Enabled, P.Apply, Meaning, Queues;
      StepKeeps(s, run[0]);
      var t := Apply(s, run[0]);
      r := Refines(t, run[1..]);
      if Meaning(s, run[0]).Some? {
        var m := Meaning(s, run[0]).value;
        assert ([m] + r)[1..] == r;
        r := [m] + r;
      }
    }
  }

  /** The packet in the consumer's hands, if any */
  function InHand(h: P.Peer): seq<nat> {
    if h.peeked.Some? then [h.peeked.value] else []
  }

  ghost predicate Waits(s: State, id: nat, p: nat) {
    id in InHand(P.PeerAt(s.rest, p)) + Q.Packets(QueueAt(s, p).chain)
  }

  lemma CancelBehind(a: seq<nat>, b: seq<nat>, c: seq<nat>)
    requires a + c == b + c
    ensures a == b
  {
    assert |a + c| == |a| + |c| && |b + c| == |b| + |c|;
    assert (a + c)[..|a|] == a && (b + c)[..|b|] == b;
  }

  /** What is in memory of a peer, in every state that is sound */
  lemma {:induction false} PeerMemory(s: State, p: nat)
    requires Inv(s)
    ensures var q, h := QueueAt(s, p), P.PeerAt(s.rest, p);
      && q.dequeued == P.Ids(h.retired) + InHand(h) && q.exchanged == q.dequeued + Q.Packets(q.chain) && Distinct(q.exchanged)
      && h.delivered == P.PassedOn(h.retired)
      && (q.consumer.Taken? ==> h.peeked.Some? && q.consumer.tail == Q.Packet(h.peeked.value))
  {
    var q, h := QueueAt(s, p), P.PeerAt(s.rest, p);
    assert QueueOk(s, p);
    PlainPeer(s, p);
    assert P.PeerOk(Plain(s), p, P.PeerAt(Plain(s), p));
    hide R.Inv, QueuesOk, P.PlacesOk, P.RefsOk, P.PeerAt, P.Ids, P.PassedOn;
    hide Distinct, Q.Packets, Q.ChainOk, Q.ProducersOk, Q.CountOk, Q.ConsumerOk, Peers, Entries;
    assert P.Ids(h.retired) + InHand(h) + Q.Packets(q.chain) == P.Ids(h.retired) + (InHand(h) + Q.Packets(q.chain));
    CancelBehind(q.dequeued, P.Ids(h.retired) + InHand(h), Q.Packets(q.chain));
  }

  lemma {:induction false} ReferencesHeld(s: State, id: nat)
    requires Inv(s) && id in s.rest.packets
    ensures s.rest.packets[id].released == if Waits(s, id, s.rest.packets[id].peer) then 0 else 1
  {
    var p := s.rest.packets[id].peer;
    assert QueueOk(s, p);
    PlainPeer(s, p);
    assert P.PacketOk(Plain(s), id);
    hide R.Inv, QueuesOk, P.PlacesOk, P.RefsOk, Peers, Entries, Q.Packets, P.PeerAt, Q.Inv;
  }

  lemma {:induction false} OwnPackets(s: State, v: nat, w: nat)
    requires Inv(s) && v in s.rest.workers && w in s.rest.workers && v != w
    ensures s.rest.workers[v] != s.rest.workers[w]
  {
    hide P.Inv, R.Inv, QueuesOk, Peers, Entries;
    AtWorker(Plain(s), v);
    AtWorker(Plain(s), w);
  }

  /** In every reachable state: what the dequeues of a peer's queue have returned from memory are the packets that its
      consumer has retired, and the one in its hands, in the order of their exchanges and each once; those that
      were transformed and pass the tests are delivered in that order; what workers have read from the ring's
      memory is what was written, in order, and no two of them have the same packet; and a packet has given back
      its references once, unless it still waits. */
  lemma {:induction false} Delivery(size: nat, batch: nat, run: seq<Action>, p: nat)
    requires 0 < batch <= size && Inv(Init(size, batch)) && Possible(Init(size, batch), run)
    ensures var s := After(Init(size, batch), run); var q, h := QueueAt(s, p), P.PeerAt(s.rest, p);
      && q.dequeued == P.Ids(h.retired) + InHand(h) && q.exchanged == q.dequeued + Q.Packets(q.chain) && Distinct(q.exchanged)
      && h.delivered == P.PassedOn(h.retired)
      && (q.consumer.Taken? ==> h.peeked.Some? && q.consumer.tail == Q.Packet(h.peeked.value))
      && s.ring.consumed <= s.ring.produced
      && (forall v, w :: v in s.rest.workers && w in s.rest.workers && v != w ==> s.rest.workers[v] != s.rest.workers[w])
      && (forall id :: id in s.rest.packets ==>
            s.rest.packets[id].released == if Waits(s, id, s.rest.packets[id].peer) then 0 else 1)
      && (forall k :: P.Refs(s.rest.keypairRefs, k) == |P.OnKeypair(s.rest, k)|)
      && P.Refs(s.rest.peerRefs, p) == |P.OnPeer(s.rest, p)|
  {
    var s := After(Init(size, batch), run);
    PeerMemory(s, p);
    RefsHeld(s);
    hide Possible, After, P.Inv, QueuesOk, Q.Packets, P.PeerAt, P.Ids, P.PassedOn, Distinct, R.Slots;
    forall v, w | v in s.rest.workers && w in s.rest.workers && v != w
      ensures s.rest.workers[v] != s.rest.workers[w]
    {
      OwnPackets(s, v, w);
    }
    forall id | id in s.rest.packets
      ensures s.rest.packets[id].released == if Waits(s, id, s.rest.packets[id].peer) then 0 else 1
    {
      ReferencesHeld(s, id);
    }
  }

  lemma {:induction false} RefsHeld(s: State)
    requires Inv(s)
    ensures P.RefsOk(s.rest)
  {
    hide R.Inv, QueuesOk, P.PlacesOk, Peers, Entries;
    P.RefsSame(Plain(s), s.rest);
  }

  // ---- which packets are let through ----

  /** What one step says about packet id: the worker that has it succeeds, or it fails or the ring is full */
  predicate Succeeds(s: State, a: Action, id: nat) {
    a.Finish? && a.ok && a.w in s.rest.workers && s.rest.workers[a.w] == id
  }

  predicate Fails(s: State, a: Action, id: nat) {
    || (a == Check(id) && R.Refused(s.ring))
    || (a.Finish? && !a.ok && a.w in s.rest.workers && s.rest.workers[a.w] == id)
  }

  /** The consumer of p has packet id in its hands, and finds that it passes the tests. */
  predicate Passes(s: State, a: Action, p: nat, id: nat) {
    a == Poll(p, true) && P.PeerAt(s.rest, p).peeked == Some(id)
  }

  ghost function Extended(h: P.Trace, s: State, a: Action): P.Trace {
    P.Trace(iset id: nat | id in h.ok || Succeeds(s, a, id),
            iset id: nat | id in h.failed || Fails(s, a, id),
            iset p: nat, id: nat | (p, id) in h.through || (Passes(s, a, p, id) && id in h.ok) :: (p, id))
  }

  lemma {:induction false} SameEvents(s: State, a: Action, id: nat)
    requires Inv(s) && Enabled(s, a)
    ensures var m := Meaning(s, a);
      && (Succeeds(s, a, id) <==> m.Some? && P.Succeeds(Plain(s), m.value, id))
      && (Fails(s, a, id) <==> m.Some? && P.Fails(Plain(s), m.value, id))
  {
    hide P.Inv, R.Inv, QueuesOk, Peers, Entries, Q.Enabled, TakenBy;
  }

  lemma {:induction false} SamePasses(s: State, a: Action, p: nat, id: nat)
    requires Inv(s) && Enabled(s, a)
    ensures var m := Meaning(s, a);
      Passes(s, a, p, id) <==> m.Some? && m.value == P.Poll(p, true) && P.Front(Plain(s), p) == Some(id)
  {
    hide P.Inv, R.Inv, Peers, Entries, Q.Enabled, TakenBy, P.PeerAt, Q.Packets, Q.Inv;
    assert QueueOk(s, p);
    PlainPeer(s, p);
    hide QueuesOk, QueueOk;
  }

  lemma {:induction false} SameExtended(s: State, a: Action, h: P.Trace)
    requires Inv(s) && Enabled(s, a)
    ensures Extended(h, s, a) == if Meaning(s, a).Some? then P.Extended(h, Plain(s), Meaning(s, a).value) else h
  {
    hide Inv, Enabled, Meaning, Succeeds, Fails, Passes, P.Succeeds, P.Fails, P.Front, Plain;
    InvParts(s);
    var g := if Meaning(s, a).Some? then P.Extended(h, Plain(s), Meaning(s, a).value) else h;
    forall id: nat
      ensures id in Extended(h, s, a).ok <==> id in g.ok
      ensures id in Extended(h, s, a).failed <==> id in g.failed
    {
      SameEvents(s, a, id);
    }
    forall x: (nat, nat)
      ensures x in Extended(h, s, a).through <==> x in g.through
    {
      SamePasses(s, a, x.0, x.1);
      assert x == (x.0, x.1);
    }
  }

  lemma InvParts(s: State)
    requires Inv(s)
    ensures RingOk(s) && R.Inv(s.ring) && P.Inv(Plain(s))
  {
  }

  /** The state after the first n steps of a run */
  ghost function At(s: State, run: seq<Action>, n: nat): (t: State)
    requires Inv(s) && Possible(s, run) && n <= |run|
    ensures Inv(t)
  {
    Prefix(s, run, n);
    After(s, run[..n])
  }

  lemma {:induction false} Prefix(s: State, run: seq<Action>, n: nat)
    requires Inv(s) && Possible(s, run) && n <= |run|
    ensures Possible(s, run[..n])
    ensures n < |run| ==>
      && Enabled(After(s, run[..n]), run[n]) && Possible(s, run[..n + 1])
      && After(s, run[..n + 1]) == Apply(After(s, run[..n]), run[n])
    decreases n
  {
    hide Enabled, Apply, Inv;
    if |run| > 0 {
      InvParts(s);
      StepKeeps(s, run[0]);
      if n > 0 {
        Prefix(Apply(s, run[0]), run[1..], n - 1);
        assert run[..n][1..] == run[1..][..n - 1];
        assert n < |run| ==> run[..n + 1][1..] == run[1..][..n];
      } else {
        assert run[..1][1..] == [];
      }
    }
  }

  ghost predicate Succeeded(s: State, run: seq<Action>, n: nat, id: nat)
    requires Inv(s) && Possible(s, run) && n <= |run|
  {
    exists i :: 0 <= i < n && Succeeds(At(s, run, i), run[i], id)
  }

  ghost predicate Failed(s: State, run: seq<Action>, n: nat, id: nat)
    requires Inv(s) && Possible(s, run) && n <= |run|
  {
    exists i :: 0 <= i < n && Fails(At(s, run, i), run[i], id)
  }

  /** A worker has succeeded with packet id, and after that its consumer has found that it passes the tests. */
  ghost predicate LetThrough(s: State, run: seq<Action>, n: nat, p: nat, id: nat)
    requires Inv(s) && Possible(s, run) && n <= |run|
  {
    exists j :: 0 <= j < n && Passes(At(s, run, j), run[j], p, id) && Succeeded(s, run, j, id)
  }

  ghost function History(s: State, run: seq<Action>, n: nat): P.Trace
    requires Inv(s) && Possible(s, run) && n <= |run|
  {
    P.Trace(iset id: nat | Succeeded(s, run, n, id), iset id: nat | Failed(s, run, n, id),
            iset p: nat, id: nat | LetThrough(s, run, n, p, id) :: (p, id))
  }

  lemma {:induction false} HistoryNext(s: State, run: seq<Action>, n: nat)
    requires Inv(s) && Possible(s, run) && n < |run|
    ensures History(s, run, n + 1) == Extended(History(s, run, n), At(s, run, n), run[n])
  {
    hide At, Succeeds, Fails, Passes, Possible, Inv;
    var h, g := History(s, run, n + 1), Extended(History(s, run, n), At(s, run, n), run[n]);
    forall id: nat
      ensures id in h.ok <==> id in g.ok
      ensures id in h.failed <==> id in g.failed
    {
    }
    forall p: nat, id: nat
      ensures (p, id) in h.through <==> (p, id) in g.through
    {
    }
  }

  lemma {:induction false} TraceExtended(s: State, a: Action, h: P.Trace)
    requires Inv(s) && Enabled(s, a) && P.Traced(Plain(s), h)
    ensures Inv(Apply(s, a)) && P.Traced(Plain(Apply(s, a)), Extended(h, s, a))
  {
    StepKeeps(s, a);
    hide Inv, Enabled, Apply, Meaning, Sound, P.Traced, P.Extended, Extended, P.Apply, P.Enabled, Plain;
    InvParts(s);
    SameExtended(s, a, h);
    if Meaning(s, a).Some? {
      P.TraceExtended(Plain(s), Meaning(s, a).value, h);
    }
  }

  lemma {:induction false} RunTraced(size: nat, batch: nat, run: seq<Action>, n: nat)
    requires 0 < batch <= size && Inv(Init(size, batch)) && Possible(Init(size, batch), run) && n <= |run|
    ensures P.Traced(Plain(At(Init(size, batch), run, n)), History(Init(size, batch), run, n))
  {
    var s := Init(size, batch);
    if n == 0 {
      hide Inv, Enabled, Apply, P.Inv, R.Inv;
      assert run[..0] == [];
      assert Peers(s) == map[];
    } else {
      hide Possible, After, Inv, Enabled, Apply, P.Traced, Extended, History, Plain;
      RunTraced(size, batch, run, n - 1);
      Prefix(s, run, n - 1);
      HistoryNext(s, run, n - 1);
      TraceExtended(At(s, run, n - 1), run[n - 1], History(s, run, n - 1));
    }
  }

  /** Over every run: a packet is delivered to its peer if and only if a worker has succeeded with it and its
      consumer, with the packet in its hands, has then found that it passes the tests; and a packet that was
      retired was transformed if and only if a worker has succeeded with it, and is dead if and only if one has failed
      or the ring was full. */
  lemma {:induction false} Authentic(size: nat, batch: nat, run: seq<Action>, p: nat)
    requires 0 < batch <= size && Inv(Init(size, batch)) && Possible(Init(size, batch), run)
    ensures var s, n := Init(size, batch), |run|; var h := P.PeerAt(After(s, run).rest, p);
      && (forall id :: id in h.delivered <==> LetThrough(s, run, n, p, id))
      && (forall o :: o in h.retired ==> (o.state == P.Crypted <==> Succeeded(s, run, n, o.id)))
      && (forall o :: o in h.retired ==> (o.state == P.Dead <==> Failed(s, run, n, o.id)))
  {
    var s, n := Init(size, batch), |run|;
    hide Possible, Succeeded, Failed, LetThrough, P.Inv, R.Inv, Peers, Entries;
    RunTraced(size, batch, run, n);
    assert run[..n] == run;
    var t := After(s, run);
    assert t == At(s, run, n);
    assert QueueOk(t, p);
    PlainPeer(t, p);
    hide QueuesOk, QueueOk, P.PeerAt;
    TracedPeer(Plain(t), History(s, run, n), p);
    forall id: nat
      ensures id in P.PeerAt(t.rest, p).delivered <==> LetThrough(s, run, n, p, id)
    {
      assert (p, id) in History(s, run, n).through <==> LetThrough(s, run, n, p, id);
    }
  }

  lemma TracedPeer(s: P.State, h: P.Trace, p: nat)
    requires P.Traced(s, h)
    ensures forall o :: o in P.PeerAt(s, p).retired ==> (o.state == P.Crypted <==> o.id in h.ok) && (o.state == P.Dead <==> o.id in h.failed)
    ensures forall id: nat :: id in P.PeerAt(s, p).delivered <==> (p, id) in h.through
  {
    hide P.PeerAt;
  }
}
