/** Packets of many peers on their way through the crypto workers, as
    queueing.h, receive.c and send.c pass them on. A packet (on the sending
    side, a list of packets that travels as one) is put into its peer's queue,
    then into the device's ring; workers take it from the ring, transform it
    and set its state, in any order; the peer's consumer takes packets from
    the peer's queue once their state is set. Any number of submitters,
    workers and consumers interleave. */
module Pipeline {
  import opened Wrappers

  const MAX_QUEUED_PACKETS := 1024

  datatype Crypt = Uncrypted | Crypted | Dead

  /** Who is going to set the state: the submitter that has not yet put the packet into the ring, the ring, a
      worker, or nobody any more. */
  datatype Holder = Submitter | Ring | Worker(w: nat) | Nobody

  /** released counts how often the packet's two references, on its keypair and its peer, were given back. */
  datatype Packet = Packet(peer: nat, keypair: nat, state: Crypt, holder: Holder, released: nat)

  /** A packet taken out of its peer's queue, with the state it had then and the result of the tests. */
  datatype Outcome = Outcome(id: nat, state: Crypt, passed: bool)

  /** A peer's queue with the packet its consumer has peeked at, and what only this model keeps: the packets ever
      queued, those taken out again, and those passed on. */
  datatype Peer = Peer(queue: seq<nat>, peeked: Option<nat>, queued: seq<nat>, retired: seq<Outcome>, delivered: seq<nat>)

  datatype State = State(
    packets: map<nat, Packet>, peers: map<nat, Peer>, ring: seq<nat>, workers: map<nat, nat>,
    keypairRefs: map<nat, int>, peerRefs: map<nat, int>)

  function Init(): State {
    State(map[], map[], [], map[], map[], map[])
  }

  function PeerAt(s: State, p: nat): Peer {
    if p in s.peers then s.peers[p] else Peer([], None, [], [], [])
  }

  function Refs(m: map<nat, int>, k: nat): int {
    if k in m then m[k] else 0
  }

  function AddRef(m: map<nat, int>, k: nat, d: int): map<nat, int> {
    m[k := Refs(m, k) + d]
  }

  /** Submit: wg_packet_consume_data or wg_packet_create_data for a packet that got its references, up to the
        peer's queue; dead says that the peer is, and refused that the queue was full.
      Produce: the rest of wg_queue_enqueue_per_device_and_peer and what follows; refused says that the ring was
        full.
      Take and Finish: a worker's.
      Look: a wg_prev_queue_peek that gets a packet.
      Poll: one turn of wg_packet_rx_poll or wg_packet_tx_worker; passed says whether a packet that was
        transformed also passed the tests that come after, on its counter and its endpoint. */
  datatype Action =
    | Submit(id: nat, peer: nat, keypair: nat, dead: bool, refused: bool)
    | Produce(id: nat, refused: bool)
    | Take(w: nat)
    | Finish(w: nat, ok: bool)
    | Look(peer: nat)
    | Poll(peer: nat, passed: bool)

  predicate Enabled(s: State, a: Action) {
    match a
    case Submit(id, peer, _, dead, refused) =>
      id !in s.packets && (!dead && !refused ==> |PeerAt(s, peer).queue| < MAX_QUEUED_PACKETS)
    case Produce(id, _) => id in s.packets && s.packets[id].holder == Submitter
    case Take(w) => w !in s.workers && s.ring != []
    case Finish(w, _) => w in s.workers && s.workers[w] in s.packets
    case Look(_) => true
    case Poll(_, _) => true
  }

  /** Both references are given back. */
  function Release(s: State, id: nat): State
    requires id in s.packets
  {
    var x := s.packets[id];
    s.(packets := s.packets[id := x.(released := x.released + 1)],
       keypairRefs := AddRef(s.keypairRefs, x.keypair, -1), peerRefs := AddRef(s.peerRefs, x.peer, -1))
  }

  /** A packet with its references, in the hands of holder */
  function Register(s: State, id: nat, peer: nat, keypair: nat, holder: Holder): State {
    s.(keypairRefs := AddRef(s.keypairRefs, keypair, 1), peerRefs := AddRef(s.peerRefs, peer, 1),
       packets := s.packets[id := Packet(peer, keypair, Uncrypted, holder, 0)])
  }

  function SubmitStep(s: State, id: nat, peer: nat, keypair: nat, turnedAway: bool): State {
    var q := PeerAt(s, peer);
    if turnedAway then Release(Register(s, id, peer, keypair, Nobody), id)
    else Register(s, id, peer, keypair, Submitter).(
           peers := s.peers[peer := q.(queue := q.queue + [id], queued := q.queued + [id])])
  }

  /** atomic_set_release of the state */
  function SetState(s: State, id: nat, c: Crypt): State
    requires id in s.packets
  {
    s.(packets := s.packets[id := s.packets[id].(state := c, holder := Nobody)])
  }

  function Hold(s: State, id: nat, holder: Holder): State {
    s.(packets := if id in s.packets then s.packets[id := s.packets[id].(holder := holder)] else s.packets)
  }

  function ProduceStep(s: State, id: nat, refused: bool): State
    requires id in s.packets
  {
    if refused then SetState(s, id, Dead) else Hold(s, id, Ring).(ring := s.ring + [id])
  }

  /** A worker gets a packet. */
  function Give(s: State, w: nat, id: nat): State {
    Hold(s, id, Worker(w)).(workers := s.workers[w := id])
  }

  function TakeStep(s: State, w: nat): State
    requires s.ring != []
  {
    Give(s, w, s.ring[0]).(ring := s.ring[1..])
  }

  function FinishStep(s: State, w: nat, ok: bool): State
    requires w in s.workers && s.workers[w] in s.packets
  {
    SetState(s, s.workers[w], if ok then Crypted else Dead).(workers := s.workers - {w})
  }

  /** wg_prev_queue_peek */
  function Peek(q: Peer): Peer {
    if q.peeked.None? && q.queue != [] then q.(peeked := Some(q.queue[0]), queue := q.queue[1..]) else q
  }

  function LookStep(s: State, peer: nat): State {
    s.(peers := s.peers[peer := Peek(PeerAt(s, peer))])
  }

  function PollStep(s: State, peer: nat, passed: bool): State {
    var q := Peek(PeerAt(s, peer));
    if q.peeked.None? || q.peeked.value !in s.packets then s
    else
      var id := q.peeked.value;
      if s.packets[id].state == Uncrypted then s.(peers := s.peers[peer := q])
      else
        var deliver := s.packets[id].state == Crypted && passed;
        var t := s.(peers := s.peers[peer := q.(peeked := None, retired := q.retired + [Outcome(id, s.packets[id].state, passed)],
                                                delivered := if deliver then q.delivered + [id] else q.delivered)]);
        Release(t, id)
  }

  function Apply(s: State, a: Action): State
    requires Enabled(s, a)
  {
    match a
    case Submit(id, peer, keypair, dead, refused) => SubmitStep(s, id, peer, keypair, dead || refused)
    case Produce(id, refused) => ProduceStep(s, id, refused)
    case Take(w) => TakeStep(s, w)
    case Finish(w, ok) => FinishStep(s, w, ok)
    case Look(peer) => LookStep(s, peer)
    case Poll(peer, passed) => PollStep(s, peer, passed)
  }

  // ---- the invariant ----

  function Waiting(q: Peer): seq<nat> {
    (if q.peeked.Some? then [q.peeked.value] else []) + q.queue
  }

  function Ids(retired: seq<Outcome>): (ids: seq<nat>)
    ensures |ids| == |retired| && forall i :: 0 <= i < |ids| ==> ids[i] == retired[i].id
  {
    seq(|retired|, i requires 0 <= i < |retired| => retired[i].id)
  }

  /** The packets that came out transformed and passed the tests, in order. */
  function PassedOn(retired: seq<Outcome>): seq<nat> {
    if retired == [] then []
    else
      var last := retired[|retired| - 1];
      PassedOn(retired[..|retired| - 1]) + if last.state == Crypted && last.passed then [last.id] else []
  }

  ghost function HoldersOf(s: State, id: nat): set<nat> {
    set w | w in s.workers && s.workers[w] == id
  }

  ghost predicate IsWaiting(s: State, id: nat, p: nat) {
    id in Waiting(PeerAt(s, p))
  }

  /** A packet is where its record says: waiting for its consumer as long as its references are not given back,
      and with someone who will set its state as long as that is not set. */
  ghost predicate RecordOk(x: Packet, waiting: bool, inRing: bool, workers: set<nat>) {
    && x.released == (if waiting then 0 else 1)
    && (waiting ==> (x.state == Uncrypted <==> x.holder != Nobody))
    && (!waiting ==> x.holder == Nobody)
    && (x.holder == Ring <==> inRing)
    && workers == (if x.holder.Worker? then {x.holder.w} else {})
  }

  ghost predicate PacketOk(s: State, id: nat) {
    && id in s.packets
    && RecordOk(s.packets[id], IsWaiting(s, id, s.packets[id].peer), id in s.ring, HoldersOf(s, id))
  }

  ghost predicate PeerOk(s: State, p: nat, q: Peer) {
    && q.queued == Ids(q.retired) + Waiting(q) && Distinct(q.queued) && |q.queue| <= MAX_QUEUED_PACKETS
    && q.delivered == PassedOn(q.retired)
    && (forall id :: id in q.queued ==> id in s.packets && s.packets[id].peer == p)
  }

  ghost function OnKeypair(s: State, k: nat): set<nat> {
    set id | id in s.packets && s.packets[id].released == 0 && s.packets[id].keypair == k
  }

  ghost function OnPeer(s: State, p: nat): set<nat> {
    set id | id in s.packets && s.packets[id].released == 0 && s.packets[id].peer == p
  }

  /** As many references are held as there are packets that have not given theirs back. */
  ghost predicate RefsOk(s: State) {
    && (forall k :: Refs(s.keypairRefs, k) == |OnKeypair(s, k)|)
    && (forall p :: Refs(s.peerRefs, p) == |OnPeer(s, p)|)
  }

  ghost predicate PlacesOk(s: State) {
    && Distinct(s.ring)
    && (forall id :: id in s.ring ==> id in s.packets)
    && (forall w :: w in s.workers ==> s.workers[w] in s.packets)
    && (forall id {:trigger PacketOk(s, id)} :: id in s.packets ==> PacketOk(s, id))
    && (forall p {:trigger PeerOk(s, p, PeerAt(s, p))} :: PeerOk(s, p, PeerAt(s, p)))
  }

  ghost predicate Inv(s: State) {
    PlacesOk(s) && RefsOk(s)
  }

  // ---- the references ----

  /** No packet joins or leaves the ones that hold references. */
  ghost predicate SameHolders(s: State, t: State) {
    && s.keypairRefs == t.keypairRefs && s.peerRefs == t.peerRefs && s.packets.Keys == t.packets.Keys
    && forall id :: id in s.packets ==>
         && s.packets[id].released == t.packets[id].released
         && s.packets[id].keypair == t.packets[id].keypair && s.packets[id].peer == t.packets[id].peer
  }

  lemma {:induction false} RefsSame(s: State, t: State)
    requires RefsOk(s) && SameHolders(s, t)
    ensures RefsOk(t)
  {
    forall k
      ensures OnKeypair(s, k) == OnKeypair(t, k)
    {
    }
    forall p
      ensures OnPeer(s, p) == OnPeer(t, p)
    {
    }
  }

  ghost predicate Holds(s: State, id: nat) {
    id in s.packets && s.packets[id].released == 0
  }

  /** t has the same packets holding references as s, and id, which s does not have. */
  ghost predicate Joined(s: State, t: State, id: nat) {
    && !Holds(s, id) && Holds(t, id)
    && forall j :: j != id ==>
         && (Holds(s, j) <==> Holds(t, j))
         && (Holds(s, j) ==> s.packets[j].keypair == t.packets[j].keypair && s.packets[j].peer == t.packets[j].peer)
  }

  lemma SizeJoined(a: set<nat>, b: set<nat>, id: nat, joins: bool)
    requires id !in a && (forall j :: j != id ==> (j in a <==> j in b)) && (id in b <==> joins)
    ensures |b| == |a| + if joins then 1 else 0
  {
    if joins {
      assert b == a + {id};
    } else {
      assert b == a;
    }
  }

  lemma {:induction false} JoinedSizes(s: State, t: State, id: nat, x: nat)
    requires Joined(s, t, id)
    ensures |OnKeypair(t, x)| == |OnKeypair(s, x)| + if x == t.packets[id].keypair then 1 else 0
    ensures |OnPeer(t, x)| == |OnPeer(s, x)| + if x == t.packets[id].peer then 1 else 0
  {
    forall j | j != id
      ensures (j in OnKeypair(s, x) <==> j in OnKeypair(t, x)) && (j in OnPeer(s, x) <==> j in OnPeer(t, x))
    {
      assert Holds(s, j) <==> Holds(t, j);
    }
    assert !Holds(s, id);
    SizeJoined(OnKeypair(s, x), OnKeypair(t, x), id, x == t.packets[id].keypair);
    SizeJoined(OnPeer(s, x), OnPeer(t, x), id, x == t.packets[id].peer);
  }

  lemma {:induction false} RefsTaken(s: State, t: State, id: nat)
    requires RefsOk(s) && Joined(s, t, id)
    requires t.keypairRefs == AddRef(s.keypairRefs, t.packets[id].keypair, 1)
    requires t.peerRefs == AddRef(s.peerRefs, t.packets[id].peer, 1)
    ensures RefsOk(t)
  {
    hide Joined, OnKeypair, OnPeer;
    forall x
      ensures Refs(t.keypairRefs, x) == |OnKeypair(t, x)|
    {
      JoinedSizes(s, t, id, x);
    }
    forall x
      ensures Refs(t.peerRefs, x) == |OnPeer(t, x)|
    {
      JoinedSizes(s, t, id, x);
    }
  }

  lemma {:induction false} RefsGivenBack(s: State, t: State, id: nat)
    requires RefsOk(s) && Joined(t, s, id)
    requires t.keypairRefs == AddRef(s.keypairRefs, s.packets[id].keypair, -1)
    requires t.peerRefs == AddRef(s.peerRefs, s.packets[id].peer, -1)
    ensures RefsOk(t)
  {
    hide Joined, OnKeypair, OnPeer;
    forall x
      ensures Refs(t.keypairRefs, x) == |OnKeypair(t, x)|
    {
      JoinedSizes(t, s, id, x);
    }
    forall x
      ensures Refs(t.peerRefs, x) == |OnPeer(t, x)|
    {
      JoinedSizes(t, s, id, x);
    }
  }

  lemma {:induction false} RefsNet(s: State, t: State)
    requires RefsOk(s) && (forall k :: Refs(t.keypairRefs, k) == Refs(s.keypairRefs, k)) && (forall p :: Refs(t.peerRefs, p) == Refs(s.peerRefs, p))
    requires forall j :: j in s.packets ==> j in t.packets && t.packets[j] == s.packets[j]
    requires forall j :: j in t.packets && j !in s.packets ==> t.packets[j].released == 1
    ensures RefsOk(t)
  {
    forall k
      ensures OnKeypair(s, k) == OnKeypair(t, k)
    {
    }
    forall p
      ensures OnPeer(s, p) == OnPeer(t, p)
    {
    }
  }

  // ---- the steps ----

  lemma FramePacket(s: State, t: State, id: nat)
    requires PacketOk(s, id) && id in t.packets && t.packets[id] == s.packets[id]
    requires IsWaiting(t, id, t.packets[id].peer) == IsWaiting(s, id, t.packets[id].peer)
    requires (id in t.ring <==> id in s.ring) && HoldersOf(t, id) == HoldersOf(s, id)
    ensures PacketOk(t, id)
  {
  }

  lemma FramePeer(s: State, t: State, p: nat)
    requires PeerOk(s, p, PeerAt(s, p)) && PeerAt(t, p) == PeerAt(s, p)
    requires forall id :: id in s.packets ==> id in t.packets && t.packets[id].peer == s.packets[id].peer
    ensures PeerOk(t, p, PeerAt(t, p))
  {
  }

  /** A packet not yet known is not in any queue. */
  lemma {:induction false} UnknownNotQueued(s: State, id: nat, p: nat)
    requires PlacesOk(s) && id !in s.packets
    ensures !IsWaiting(s, id, p) && id !in PeerAt(s, p).queued && id !in s.ring && HoldersOf(s, id) == {}
  {
    assert PeerOk(s, p, PeerAt(s, p));
    WaitingIsQueued(PeerAt(s, p));
  }

  lemma WaitingIsQueued(q: Peer)
    requires q.queued == Ids(q.retired) + Waiting(q)
    ensures forall id :: id in Waiting(q) ==> id in q.queued
  {
  }

  lemma {:induction false} TurnedAwayPlaces(s: State, id: nat, peer: nat, keypair: nat)
    requires PlacesOk(s) && id !in s.packets
    ensures PlacesOk(SubmitStep(s, id, peer, keypair, true))
  {
    hide PeerOk;
    var t := SubmitStep(s, id, peer, keypair, true);
    UnknownNotQueued(s, id, peer);
    forall j | j in t.packets
      ensures PacketOk(t, j)
    {
      assert HoldersOf(t, j) == HoldersOf(s, j);
      if j != id {
        FramePacket(s, t, j);
      }
    }
    forall p
      ensures PeerOk(t, p, PeerAt(t, p))
    {
      FramePeer(s, t, p);
    }
  }

  lemma {:induction false} TurnedAwayKeeps(s: State, id: nat, peer: nat, keypair: nat)
    requires Inv(s) && id !in s.packets
    ensures Inv(SubmitStep(s, id, peer, keypair, true))
  {
    TurnedAwayPlaces(s, id, peer, keypair);
    hide PlacesOk;
    RefsNet(s, SubmitStep(s, id, peer, keypair, true));
  }

  lemma {:induction false} QueuedOne(q: Peer, id: nat)
    requires q.queued == Ids(q.retired) + Waiting(q) && Distinct(q.queued) && id !in q.queued
    ensures var r := q.(queue := q.queue + [id], queued := q.queued + [id]);
      && Waiting(r) == Waiting(q) + [id] && r.queued == Ids(r.retired) + Waiting(r) && Distinct(r.queued)
  {
  }

  lemma {:induction false} SubmitPlaces(s: State, id: nat, peer: nat, keypair: nat)
    requires PlacesOk(s) && id !in s.packets && |PeerAt(s, peer).queue| < MAX_QUEUED_PACKETS
    ensures PlacesOk(SubmitStep(s, id, peer, keypair, false))
  {
    hide PeerOk, Waiting;
    var t := SubmitStep(s, id, peer, keypair, false);
    UnknownNotQueued(s, id, peer);
    assert PeerOk(t, peer, PeerAt(t, peer)) && Waiting(PeerAt(t, peer)) == Waiting(PeerAt(s, peer)) + [id] by {
      SubmitPeer(s, id, peer, keypair);
    }
    forall j | j in t.packets
      ensures PacketOk(t, j)
    {
      assert HoldersOf(t, j) == HoldersOf(s, j);
      if j != id {
        FramePacket(s, t, j);
      }
    }
    forall p
      ensures PeerOk(t, p, PeerAt(t, p))
    {
      if p != peer {
        FramePeer(s, t, p);
      }
    }
  }

  lemma {:induction false} SubmitPeer(s: State, id: nat, peer: nat, keypair: nat)
    requires PlacesOk(s) && id !in s.packets && |PeerAt(s, peer).queue| < MAX_QUEUED_PACKETS
    ensures var t := SubmitStep(s, id, peer, keypair, false);
      PeerOk(t, peer, PeerAt(t, peer)) && Waiting(PeerAt(t, peer)) == Waiting(PeerAt(s, peer)) + [id]
  {
    UnknownNotQueued(s, id, peer);
    assert PeerOk(s, peer, PeerAt(s, peer));
    QueuedOne(PeerAt(s, peer), id);
  }

  lemma {:induction false} SubmitKeeps(s: State, id: nat, peer: nat, keypair: nat)
    requires Inv(s) && id !in s.packets && |PeerAt(s, peer).queue| < MAX_QUEUED_PACKETS
    ensures Inv(SubmitStep(s, id, peer, keypair, false))
  {
    SubmitPlaces(s, id, peer, keypair);
    hide PlacesOk, RefsOk;
    RefsTaken(s, SubmitStep(s, id, peer, keypair, false), id);
  }

  /** A step that changes the place or state of one packet, and no queue. */
  lemma {:induction false} MoveKeeps(s: State, t: State, id: nat)
    requires Inv(s) && t.peers == s.peers && t.keypairRefs == s.keypairRefs && t.peerRefs == s.peerRefs
    requires id in s.packets && t.packets.Keys == s.packets.Keys
    requires forall j :: j in s.packets && j != id ==> t.packets[j] == s.packets[j]
    requires t.packets[id] == s.packets[id].(state := t.packets[id].state, holder := t.packets[id].holder)
    requires Distinct(t.ring) && forall j :: j in t.ring ==> j in t.packets
    requires forall w :: w in t.workers ==> t.workers[w] in t.packets
    requires forall j :: j != id ==> (j in t.ring <==> j in s.ring) && HoldersOf(t, j) == HoldersOf(s, j)
    requires PacketOk(t, id)
    ensures Inv(t)
  {
    assert RefsOk(t) by {
      hide PlacesOk;
      RefsSame(s, t);
    }
    hide PeerOk, RefsOk;
    forall j | j in t.packets
      ensures PacketOk(t, j)
    {
      if j != id {
        FramePacket(s, t, j);
      }
    }
    forall p
      ensures PeerOk(t, p, PeerAt(t, p))
    {
      FramePeer(s, t, p);
    }
  }

  lemma {:induction false} ProduceKeeps(s: State, id: nat, refused: bool)
    requires Inv(s) && Enabled(s, Produce(id, refused))
    ensures Inv(ProduceStep(s, id, refused))
  {
    hide RefsOk, PeerOk;
    var t := ProduceStep(s, id, refused);
    assert PacketOk(s, id);
    forall j
      ensures HoldersOf(t, j) == HoldersOf(s, j)
    {
    }
    MoveKeeps(s, t, id);
  }

  lemma {:induction false} TakeKeeps(s: State, w: nat)
    requires Inv(s) && Enabled(s, Take(w))
    ensures Inv(TakeStep(s, w))
  {
    hide RefsOk, PeerOk;
    var t, id := TakeStep(s, w), s.ring[0];
    assert PacketOk(s, id);
    forall j | j != id
      ensures HoldersOf(t, j) == HoldersOf(s, j) && (j in t.ring <==> j in s.ring)
    {
    }
    assert HoldersOf(t, id) == HoldersOf(s, id) + {w};
    MoveKeeps(s, t, id);
  }

  lemma {:induction false} FinishKeeps(s: State, w: nat, ok: bool)
    requires Inv(s) && Enabled(s, Finish(w, ok))
    ensures Inv(FinishStep(s, w, ok))
  {
    hide RefsOk, PeerOk;
    var t, id := FinishStep(s, w, ok), s.workers[w];
    assert PacketOk(s, id);
    assert w in HoldersOf(s, id);
    forall j | j != id
      ensures HoldersOf(t, j) == HoldersOf(s, j)
    {
    }
    assert HoldersOf(t, id) == HoldersOf(s, id) - {w};
    MoveKeeps(s, t, id);
  }

  lemma {:induction false} PeekQueue(q: Peer)
    requires |q.queue| <= MAX_QUEUED_PACKETS && q.queued == Ids(q.retired) + Waiting(q)
    ensures var r := Peek(q);
      && Waiting(r) == Waiting(q) && |r.queue| <= MAX_QUEUED_PACKETS
      && r.queued == q.queued && r.retired == q.retired && r.delivered == q.delivered
      && (r.peeked.None? ==> Waiting(q) == []) && (r.peeked.Some? ==> Waiting(q) != [] && r.peeked.value == Waiting(q)[0])
  {
  }

  lemma {:induction false} PeekPeer(s: State, p: nat)
    requires PeerOk(s, p, PeerAt(s, p))
    ensures PeerOk(s.(peers := s.peers[p := Peek(PeerAt(s, p))]), p, Peek(PeerAt(s, p)))
    ensures Waiting(Peek(PeerAt(s, p))) == Waiting(PeerAt(s, p))
  {
    PeekQueue(PeerAt(s, p));
    hide Waiting, Peek;
  }

  lemma {:induction false} PeekPlaces(s: State, p: nat)
    requires PlacesOk(s)
    ensures PlacesOk(s.(peers := s.peers[p := Peek(PeerAt(s, p))]))
  {
    hide Waiting, Peek, PeerOk;
    var t := s.(peers := s.peers[p := Peek(PeerAt(s, p))]);
    PeekPeer(s, p);
    forall j | j in t.packets
      ensures PacketOk(t, j)
    {
      assert HoldersOf(t, j) == HoldersOf(s, j);
      FramePacket(s, t, j);
    }
    forall x
      ensures PeerOk(t, x, PeerAt(t, x))
    {
      if x != p {
        FramePeer(s, t, x);
      }
    }
  }

  lemma {:induction false} PeekKeeps(s: State, p: nat)
    requires Inv(s)
    ensures Inv(s.(peers := s.peers[p := Peek(PeerAt(s, p))]))
  {
    PeekPlaces(s, p);
    hide PlacesOk, RefsOk;
    RefsSame(s, s.(peers := s.peers[p := Peek(PeerAt(s, p))]));
  }

  function Retired(q: Peer, o: Outcome): Peer {
    q.(peeked := None, retired := q.retired + [o],
       delivered := if o.state == Crypted && o.passed then q.delivered + [o.id] else q.delivered)
  }

  /** The packet peeked at leaves the queue. */
  lemma {:induction false} RetireQueue(q: Peer, o: Outcome)
    requires q.peeked == Some(o.id) && q.queued == Ids(q.retired) + Waiting(q) && Distinct(q.queued) && q.delivered == PassedOn(q.retired)
    ensures var r := Retired(q, o);
      && r.queued == Ids(r.retired) + Waiting(r) && r.delivered == PassedOn(r.retired)
      && (forall j :: j in Waiting(r) <==> j in Waiting(q) && j != o.id)
  {
    var r := Retired(q, o);
    assert r.retired[..|r.retired| - 1] == q.retired;
    assert Ids(r.retired) == Ids(q.retired) + [o.id];
    hide Ids, PassedOn;
    assert Waiting(q) == [o.id] + q.queue && Waiting(r) == q.queue;
    assert q.queued == Ids(q.retired) + [o.id] + q.queue;
    NotBehind(Ids(q.retired), o.id, q.queue);
  }

  lemma {:induction false} NotBehind(a: seq<nat>, x: nat, b: seq<nat>)
    requires Distinct(a + [x] + b)
    ensures x !in b
  {
    var all := a + [x] + b;
    assert all[|a|] == x;
    assert forall i :: 0 <= i < |b| ==> all[|a| + 1 + i] == b[i];
  }

  lemma {:induction false} RetirePeer(s: State, p: nat, o: Outcome)
    requires PeerOk(s, p, PeerAt(s, p)) && PeerAt(s, p).peeked == Some(o.id)
    ensures var q := PeerAt(s, p);
      && o.id in s.packets && s.packets[o.id].peer == p && IsWaiting(s, o.id, p)
      && PeerOk(Release(s.(peers := s.peers[p := Retired(q, o)]), o.id), p, Retired(q, o))
      && (forall j :: j in Waiting(Retired(q, o)) <==> j in Waiting(q) && j != o.id)
  {
    hide Ids, PassedOn, Distinct, Waiting, PeerAt, Retired;
    var q := PeerAt(s, p);
    WaitingIsQueued(q);
    PeekedWaits(q, o.id);
    RetireQueue(q, o);
    RetiredKeeps(q, o);
    var t := Release(s.(peers := s.peers[p := Retired(q, o)]), o.id);
    assert forall id :: id in q.queued ==> id in t.packets && t.packets[id].peer == p;
  }

  lemma PeekedWaits(q: Peer, id: nat)
    requires q.peeked == Some(id)
    ensures id in Waiting(q)
  {
  }

  lemma RetiredKeeps(q: Peer, o: Outcome)
    ensures Retired(q, o).queue == q.queue && Retired(q, o).queued == q.queued
  {
  }

  lemma {:induction false} RetirePlaces(s: State, p: nat, o: Outcome)
    requires PlacesOk(s) && PeerAt(s, p).peeked == Some(o.id) && o.id in s.packets && s.packets[o.id].state != Uncrypted
    ensures PlacesOk(Release(s.(peers := s.peers[p := Retired(PeerAt(s, p), o)]), o.id))
  {
    hide Waiting, PeerOk, Retired;
    var t := Release(s.(peers := s.peers[p := Retired(PeerAt(s, p), o)]), o.id);
    RetirePeer(s, p, o);
    assert PacketOk(s, o.id);
    forall j | j in t.packets
      ensures PacketOk(t, j)
    {
      assert HoldersOf(t, j) == HoldersOf(s, j);
      if j != o.id {
        FramePacket(s, t, j);
      }
    }
    forall x
      ensures PeerOk(t, x, PeerAt(t, x))
    {
      if x != p {
        FramePeer(s, t, x);
      }
    }
  }

  lemma {:induction false} RetireKeeps(s: State, p: nat, o: Outcome)
    requires Inv(s) && PeerAt(s, p).peeked == Some(o.id) && o.id in s.packets && s.packets[o.id].state != Uncrypted
    ensures Inv(Release(s.(peers := s.peers[p := Retired(PeerAt(s, p), o)]), o.id))
  {
    hide Waiting, PeerOk, RefsOk, Retired;
    RetirePeer(s, p, o);
    assert s.packets[o.id].released == 0 by {
      assert PacketOk(s, o.id);
    }
    RetirePlaces(s, p, o);
    hide PlacesOk, PacketOk;
    RefsGivenBack(s, Release(s.(peers := s.peers[p := Retired(PeerAt(s, p), o)]), o.id), o.id);
  }

  lemma {:induction false} PollKeeps(s: State, p: nat, passed: bool)
    requires Inv(s)
    ensures Inv(PollStep(s, p, passed))
  {
    hide Inv;
    var q := Peek(PeerAt(s, p));
    var s' := s.(peers := s.peers[p := q]);
    PeekKeeps(s, p);
    if q.peeked.Some? && q.peeked.value in s.packets && s.packets[q.peeked.value].state != Uncrypted {
      hide Peek;
      var o := Outcome(q.peeked.value, s.packets[q.peeked.value].state, passed);
      RetireKeeps(s', p, o);
      assert s'.peers[p := Retired(q, o)] == s.peers[p := Retired(q, o)];
    }
  }

  lemma {:induction false} StepKeeps(s: State, a: Action)
    requires Inv(s) && Enabled(s, a)
    ensures Inv(Apply(s, a))
  {
    hide Inv, SubmitStep, ProduceStep, TakeStep, FinishStep, PollStep;
    match a
    case Submit(id, peer, keypair, dead, refused) =>
      if dead || refused {
        TurnedAwayKeeps(s, id, peer, keypair);
      } else {
        SubmitKeeps(s, id, peer, keypair);
      }
    case Produce(id, refused) => ProduceKeeps(s, id, refused);
    case Take(w) => TakeKeeps(s, w);
    case Finish(w, ok) => FinishKeeps(s, w, ok);
    case Look(peer) => PeekKeeps(s, peer);
    case Poll(peer, passed) => PollKeeps(s, peer, passed);
  }

  ghost predicate Possible(s: State, run: seq<Action>)
    decreases |run|
  {
    run == [] || (Enabled(s, run[0]) && Possible(Apply(s, run[0]), run[1..]))
  }

  ghost function After(s: State, run: seq<Action>): State
    requires Possible(s, run)
    decreases |run|
  {
    if run == [] then s else After(Apply(s, run[0]), run[1..])
  }

  lemma {:induction false} RunKeeps(s: State, run: seq<Action>)
    requires Inv(s) && Possible(s, run)
    ensures Inv(After(s, run))
    decreases |run|
  {
    if run != [] {
      hide Inv, Apply, Enabled;
      StepKeeps(s, run[0]);
      RunKeeps(Apply(s, run[0]), run[1..]);
    }
  }

  lemma {:induction false} InitOk()
    ensures Inv(Init())
  {
    forall x
      ensures OnKeypair(Init(), x) == {} && OnPeer(Init(), x) == {}
    {
    }
  }

  /** In every reachable state every peer's packets have been passed on in the order in which they were queued,
      those that died left out; every packet has given its references back once or is still waiting, and those
      waiting are the references held. */
  lemma {:induction false} Delivery(run: seq<Action>, p: nat)
    requires Possible(Init(), run)
    ensures var s := After(Init(), run); var q := PeerAt(s, p);
      && q.queued == Ids(q.retired) + Waiting(q) && Distinct(q.queued) && q.delivered == PassedOn(q.retired)
      && (forall id :: id in s.packets ==> s.packets[id].released == if IsWaiting(s, id, s.packets[id].peer) then 0 else 1)
      && (forall k :: Refs(s.keypairRefs, k) == |OnKeypair(s, k)|)
      && Refs(s.peerRefs, p) == |OnPeer(s, p)|
  {
    InitOk();
    RunKeeps(Init(), run);
    var s := After(Init(), run);
    assert PeerOk(s, p, PeerAt(s, p));
    assert forall id :: id in s.packets ==> PacketOk(s, id);
  }

  // ---- which packets are let through ----

  /** What one action says about packet id: the worker that has it succeeds, or it fails or the ring is full */
  predicate Succeeds(s: State, a: Action, id: nat) {
    a.Finish? && a.ok && a.w in s.workers && s.workers[a.w] == id
  }

  predicate Fails(s: State, a: Action, id: nat) {
    || a == Produce(id, true)
    || (a.Finish? && !a.ok && a.w in s.workers && s.workers[a.w] == id)
  }

  /** What an action does to the state of a packet */
  lemma {:induction false} StepStates(s: State, a: Action, id: nat)
    requires Inv(s) && Enabled(s, a) && id in s.packets
    ensures var t := Apply(s, a);
      && id in t.packets
      && (t.packets[id].state == Crypted <==> s.packets[id].state == Crypted || Succeeds(s, a, id))
      && (t.packets[id].state == Dead <==> s.packets[id].state == Dead || Fails(s, a, id))
  {
    hide RefsOk, PeerOk, Waiting, Distinct, Peek, PacketOk;
    if a.Finish? {
      AtWorker(s, a.w);
    } else if a.Produce? {
      AtSubmitter(s, a.id);
    }
    hide PlacesOk;
  }

  lemma {:induction false} AtSubmitter(s: State, id: nat)
    requires PlacesOk(s) && id in s.packets && s.packets[id].holder == Submitter
    ensures s.packets[id].state == Uncrypted
  {
    hide PeerOk;
    assert PacketOk(s, id);
  }

  /** A packet at a worker is not transformed yet. */
  lemma {:induction false} AtWorker(s: State, w: nat)
    requires PlacesOk(s) && w in s.workers
    ensures var id := s.workers[w];
      && id in s.packets && s.packets[id].holder == Worker(w) && s.packets[id].state == Uncrypted
      && IsWaiting(s, id, s.packets[id].peer)
  {
    assert PacketOk(s, s.workers[w]);
    assert w in HoldersOf(s, s.workers[w]);
  }

  /** What a consumer has in front of it */
  function Front(s: State, p: nat): Option<nat> {
    var q := Waiting(PeerAt(s, p));
    if q == [] then None else Some(q[0])
  }

  /** What an action does to the packets retired and delivered */
  ghost predicate Retires(s: State, a: Action, p: nat)
    requires Enabled(s, a)
  {
    var q, r, x := PeerAt(s, p), PeerAt(Apply(s, a), p), Front(s, p);
    if a.Poll? && a.peer == p && x.Some? && x.value in s.packets && s.packets[x.value].state != Uncrypted
    then
      && r.retired == q.retired + [Outcome(x.value, s.packets[x.value].state, a.passed)]
      && r.delivered == if s.packets[x.value].state == Crypted && a.passed then q.delivered + [x.value] else q.delivered
    else r.retired == q.retired && r.delivered == q.delivered
  }

  lemma {:induction false} PollRetires(s: State, a: Action)
    requires Enabled(s, a) && a.Poll? && PeerOk(s, a.peer, PeerAt(s, a.peer))
    ensures Retires(s, a, a.peer)
  {
    PeekQueue(PeerAt(s, a.peer));
    hide Ids, PassedOn, Distinct, Waiting, Peek;
  }

  lemma {:induction false} StepRetires(s: State, a: Action, p: nat)
    requires Inv(s) && Enabled(s, a)
    ensures Retires(s, a, p)
  {
    hide RefsOk, PeerOk, Waiting;
    if a.Poll? && a.peer == p {
      assert PeerOk(s, p, PeerAt(s, p));
      PollRetires(s, a);
    } else {
      hide PlacesOk, Front;
    }
  }

  /** The packets that a worker has succeeded with, those that have failed, and those let through, with their peers */
  datatype Trace = Trace(ok: iset<nat>, failed: iset<nat>, through: iset<(nat, nat)>)

  ghost function Extended(h: Trace, s: State, a: Action): Trace {
    Trace(iset id: nat | id in h.ok || Succeeds(s, a, id),
          iset id: nat | id in h.failed || Fails(s, a, id),
          iset p: nat, id: nat | (p, id) in h.through || (a == Poll(p, true) && Front(s, p) == Some(id) && id in h.ok) :: (p, id))
  }

  /** The states and outcomes of packets, and what was delivered, are those of the trace. */
  ghost predicate StatesTraced(s: State, h: Trace) {
    && (forall id :: id in h.ok || id in h.failed ==> id in s.packets)
    && (forall id :: id in s.packets ==>
          && (s.packets[id].state == Crypted <==> id in h.ok)
          && (s.packets[id].state == Dead <==> id in h.failed))
  }

  ghost predicate PeersTraced(s: State, h: Trace) {
    && (forall p, o :: o in PeerAt(s, p).retired ==> o.state != Uncrypted && o.id in s.packets && s.packets[o.id].state == o.state)
    && (forall p: nat, id: nat :: id in PeerAt(s, p).delivered <==> (p, id) in h.through)
  }

  ghost predicate Traced(s: State, h: Trace) {
    StatesTraced(s, h) && PeersTraced(s, h)
  }

  lemma {:induction false} NewPacket(s: State, a: Action, id: nat)
    requires Inv(s) && Enabled(s, a) && id !in s.packets
    ensures !Succeeds(s, a, id) && !Fails(s, a, id)
    ensures id in Apply(s, a).packets ==> Apply(s, a).packets[id].state == Uncrypted
  {
    hide RefsOk, PeerOk, Waiting, Distinct, Peek;
  }

  lemma {:induction false} StatesExtended(s: State, a: Action, h: Trace)
    requires Inv(s) && Enabled(s, a) && StatesTraced(s, h)
    ensures StatesTraced(Apply(s, a), Extended(h, s, a))
  {
    var t, g := Apply(s, a), Extended(h, s, a);
    hide Inv, Apply, Enabled, Succeeds, Fails;
    forall id: nat
      ensures id in g.ok || id in g.failed ==> id in t.packets
      ensures id in t.packets ==> (t.packets[id].state == Crypted <==> id in g.ok) && (t.packets[id].state == Dead <==> id in g.failed)
    {
      if id in s.packets {
        StepStates(s, a, id);
      } else {
        NewPacket(s, a, id);
      }
    }
  }

  lemma {:induction false} OutcomesStay(s: State, a: Action, p: nat, o: Outcome)
    requires Inv(s) && Enabled(s, a) && o in PeerAt(Apply(s, a), p).retired
    requires forall o :: o in PeerAt(s, p).retired ==> o.state != Uncrypted && o.id in s.packets && s.packets[o.id].state == o.state
    ensures var t := Apply(s, a); o.state != Uncrypted && o.id in t.packets && t.packets[o.id].state == o.state
  {
    StepRetires(s, a, p);
    hide Inv, Apply, Enabled, Succeeds, Fails;
    assert o in PeerAt(s, p).retired || (o.id in s.packets && o.state == s.packets[o.id].state != Uncrypted);
    StepStates(s, a, o.id);
  }

  lemma {:induction false} PeersExtended(s: State, a: Action, h: Trace)
    requires Inv(s) && Enabled(s, a) && Traced(s, h)
    ensures PeersTraced(Apply(s, a), Extended(h, s, a))
  {
    var t, g := Apply(s, a), Extended(h, s, a);
    hide Inv, Apply, Enabled, Succeeds, Fails, PeerAt;
    forall p, o | o in PeerAt(t, p).retired
      ensures o.state != Uncrypted && o.id in t.packets && t.packets[o.id].state == o.state
    {
      OutcomesStay(s, a, p, o);
    }
    forall p: nat, id: nat
      ensures id in PeerAt(t, p).delivered <==> (p, id) in g.through
    {
      ThroughNext(s, a, h, p, id);
    }
  }

  lemma {:induction false} ThroughNext(s: State, a: Action, h: Trace, p: nat, id: nat)
    requires Inv(s) && Enabled(s, a) && Traced(s, h)
    ensures id in PeerAt(Apply(s, a), p).delivered <==> (p, id) in Extended(h, s, a).through
  {
    hide Inv, Apply, Enabled, Succeeds, Fails, PeerAt, Front;
    StepRetires(s, a, p);
    assert (p, id) in Extended(h, s, a).through <==>
      (p, id) in h.through || (a == Poll(p, true) && Front(s, p) == Some(id) && id in h.ok);
    assert id in PeerAt(s, p).delivered <==> (p, id) in h.through;
  }

  /** The state after the first n actions of a run */
  ghost function At(run: seq<Action>, n: nat): (s: State)
    requires Possible(Init(), run) && n <= |run|
    ensures Inv(s)
  {
    Prefix(Init(), run, n);
    InitOk();
    RunKeeps(Init(), run[..n]);
    After(Init(), run[..n])
  }

  lemma {:induction false} Prefix(s: State, run: seq<Action>, n: nat)
    requires Possible(s, run) && n <= |run|
    ensures Possible(s, run[..n])
    ensures n < |run| ==>
      && Enabled(After(s, run[..n]), run[n]) && Possible(s, run[..n + 1])
      && After(s, run[..n + 1]) == Apply(After(s, run[..n]), run[n])
    decreases n
  {
    hide Enabled, Apply;
    if n > 0 {
      Prefix(Apply(s, run[0]), run[1..], n - 1);
      assert run[..n][1..] == run[1..][..n - 1];
      assert n < |run| ==> run[..n + 1][1..] == run[1..][..n];
    } else if |run| > 0 {
      assert run[..1][1..] == [];
    }
  }

  lemma {:induction false} AtNext(run: seq<Action>, n: nat)
    requires Possible(Init(), run) && n < |run|
    ensures Enabled(At(run, n), run[n]) && At(run, n + 1) == Apply(At(run, n), run[n])
  {
    hide Enabled, Apply, Inv;
    Prefix(Init(), run, n);
  }

  /** Among the first n actions of the run a worker has succeeded with packet id. */
  ghost predicate Succeeded(run: seq<Action>, n: nat, id: nat)
    requires Possible(Init(), run) && n <= |run|
  {
    exists i :: 0 <= i < n && Succeeds(At(run, i), run[i], id)
  }

  ghost predicate Failed(run: seq<Action>, n: nat, id: nat)
    requires Possible(Init(), run) && n <= |run|
  {
    exists i :: 0 <= i < n && Fails(At(run, i), run[i], id)
  }

  /** A worker has succeeded with packet id, and after that its consumer has found that it passes the tests. */
  ghost predicate LetThrough(run: seq<Action>, n: nat, p: nat, id: nat)
    requires Possible(Init(), run) && n <= |run|
  {
    exists j :: 0 <= j < n && run[j] == Poll(p, true) && Front(At(run, j), p) == Some(id) && Succeeded(run, j, id)
  }

  ghost function History(run: seq<Action>, n: nat): Trace
    requires Possible(Init(), run) && n <= |run|
  {
    Trace(iset id: nat | Succeeded(run, n, id), iset id: nat | Failed(run, n, id),
          iset p: nat, id: nat | LetThrough(run, n, p, id) :: (p, id))
  }

  lemma {:induction false} HistoryNext(run: seq<Action>, n: nat)
    requires Possible(Init(), run) && n < |run|
    ensures History(run, n + 1) == Extended(History(run, n), At(run, n), run[n])
  {
    hide At, Succeeds, Fails, Front, Possible;
    var h, g := History(run, n + 1), Extended(History(run, n), At(run, n), run[n]);
    forall id: nat
      ensures id in h.ok <==> id in g.ok
      ensures id in h.failed <==> id in g.failed
    {
    }
    forall p: nat, id: nat
      ensures (p, id) in h.through <==> (p, id) in g.through
    {
    }
  }

  lemma {:induction false} RunTraced(run: seq<Action>, n: nat)
    requires Possible(Init(), run) && n <= |run|
    ensures Traced(At(run, n), History(run, n))
  {
    if n == 0 {
      hide Inv, Enabled, Apply;
      assert run[..0] == [];
    } else {
      hide Possible, Inv, Apply, Enabled, Traced, Extended, At, History;
      RunTraced(run, n - 1);
      AtNext(run, n - 1);
      HistoryNext(run, n - 1);
      TraceExtended(At(run, n - 1), run[n - 1], History(run, n - 1));
    }
  }

  lemma TraceExtended(s: State, a: Action, h: Trace)
    requires Inv(s) && Enabled(s, a) && Traced(s, h)
    ensures Traced(Apply(s, a), Extended(h, s, a))
  {
    hide Inv, Apply, Enabled, Extended, StatesTraced, PeersTraced;
    StatesExtended(s, a, h);
    PeersExtended(s, a, h);
  }

  /** Over every run: a packet is delivered to its peer if and only if a worker has succeeded with it and its consumer
      has then found that it passes the tests; and a packet taken out of its peer's queue was transformed if and
      only if a worker has succeeded with it, and is dead if and only if one has failed or the ring was full. */
  lemma {:induction false} Authentic(run: seq<Action>, p: nat)
    requires Possible(Init(), run)
    ensures var s, n := After(Init(), run), |run|; var q := PeerAt(s, p);
      && (forall id :: id in q.delivered <==> LetThrough(run, n, p, id))
      && (forall o :: o in q.retired ==> (o.state == Crypted <==> Succeeded(run, n, o.id)))
      && (forall o :: o in q.retired ==> (o.state == Dead <==> Failed(run, n, o.id)))
  {
    RunTraced(run, |run|);
    assert run[..|run|] == run;
    hide Inv, Succeeded, Failed, LetThrough;
    var s := After(Init(), run);
    assert s == At(run, |run|);
    forall o | o in PeerAt(s, p).retired
      ensures (o.state == Crypted <==> Succeeded(run, |run|, o.id)) && (o.state == Dead <==> Failed(run, |run|, o.id))
    {
      assert o.id in s.packets;
    }
    forall id: nat
      ensures id in PeerAt(s, p).delivered <==> LetThrough(run, |run|, p, id)
    {
      assert (p, id) in History(run, |run|).through <==> LetThrough(run, |run|, p, id);
    }
  }

  /** Once the ring is empty and submitters and workers are through, every waiting packet has its state, so that
      the consumers can take out all of them. */
  lemma {:induction false} NoneStuck(s: State, id: nat)
    requires Inv(s) && s.ring == [] && s.workers == map[] && forall j :: j in s.packets ==> s.packets[j].holder != Submitter
    requires id in s.packets && IsWaiting(s, id, s.packets[id].peer)
    ensures s.packets[id].state != Uncrypted
  {
    assert PacketOk(s, id);
    assert HoldersOf(s, id) == {};
  }
}
