/** The keypair slots of noise.c: which of a peer's keypairs are next, current
    and previous, who holds references to them, and which are in the index
    table. What runs under one lock is one step. The end of
    wg_noise_handshake_begin_session is two steps, since add_new_keypair and
    wg_index_hashtable_replace take different locks; the handshake's lock, held
    over both, keeps away other sessions of the peer and changes of its
    handshake's entry, but not wg_noise_keypairs_clear. */
module Keypairs {
  import opened Words
  import opened Wrappers
  import opened IndexTable

  /** struct noise_keypair, as far as the slots are concerned */
  datatype Noise = Noise(initiator: bool, refs: nat, sendingValid: bool)

  datatype Slots = Slots(next: Option<nat>, current: Option<nat>, previous: Option<nat>) {
    /** No keypair is in two of them. */
    predicate Apart() {
      && (next.Some? ==> next != current && next != previous)
      && (current.Some? ==> current != previous)
    }
  }

  ghost function Content(o: Option<nat>): set<nat> {
    if o.Some? then {o.value} else {}
  }

  ghost function In(s: Slots): set<nat> {
    Content(s.next) + Content(s.current) + Content(s.previous)
  }

  // ---- the accounts of references ----

  /** All keypairs ever made, the references packets hold, how often each lost a slot's reference, the entries in
      the table, and the keypairs that are in there though no slot holds them. */
  datatype Books = Books(pairs: map<nat, Noise>, held: map<nat, nat>, displaced: map<nat, nat>, hashed: set<Entry>,
    stale: set<nat>)

  /** The account of k, which a slot holds or not. */
  ghost predicate PairOk(b: Books, k: nat, slotted: bool) {
    && k in b.pairs && k in b.held && k in b.displaced
    && b.pairs[k].refs == b.held[k] + (if slotted then 1 else 0)
    && b.displaced[k] == (if slotted then 0 else 1)
    && (slotted ==> k !in b.stale)
    && (!slotted ==> (Keypair(k) in b.hashed <==> k in b.stale))
  }

  ghost predicate BooksOk(b: Books, slotted: set<nat>) {
    && slotted <= b.pairs.Keys
    && forall k :: k in b.pairs ==> PairOk(b, k, k in slotted)
  }

  /** k loses the reference of its slot and leaves the table. */
  ghost function Drop(b: Books, k: nat): Books
    requires k in b.pairs && k in b.displaced && b.pairs[k].refs > 0
  {
    b.(pairs := b.pairs[k := b.pairs[k].(refs := b.pairs[k].refs - 1)],
       displaced := b.displaced[k := b.displaced[k] + 1],
       hashed := b.hashed - {Keypair(k)})
  }

  lemma {:induction false} DropOk(b: Books, slotted: set<nat>, k: nat)
    requires BooksOk(b, slotted) && k in slotted
    ensures k in b.pairs && k in b.displaced && b.pairs[k].refs > 0 && BooksOk(Drop(b, k), slotted - {k})
    ensures Drop(b, k).pairs.Keys == b.pairs.Keys
  {
    assert PairOk(b, k, true);
    var c := Drop(b, k);
    forall j | j in c.pairs
      ensures PairOk(c, j, j in slotted - {k})
    {
      assert PairOk(b, j, j in slotted);
    }
  }

  ghost function Fresh(b: Books, k: nat, initiator: bool): Books {
    b.(pairs := b.pairs[k := Noise(initiator, 1, true)], held := b.held[k := 0], displaced := b.displaced[k := 0])
  }

  lemma {:induction false} FreshOk(b: Books, slotted: set<nat>, k: nat, initiator: bool)
    requires BooksOk(b, slotted) && k !in b.pairs && k !in b.stale
    ensures BooksOk(Fresh(b, k, initiator), slotted + {k})
  {
    var c := Fresh(b, k, initiator);
    forall j | j in c.pairs
      ensures PairOk(c, j, j in slotted + {k})
    {
      if j != k {
        assert PairOk(b, j, j in slotted);
      }
    }
  }

  /** Entries of handshakes come and go, and a slotted keypair may enter the table. */
  lemma {:induction false} HashedOk(b: Books, slotted: set<nat>, k: Option<nat>, hashed: set<Entry>)
    requires BooksOk(b, slotted) && (k.Some? ==> k.value in slotted)
    requires forall j: nat :: Some(j) != k ==> (Keypair(j) in hashed <==> Keypair(j) in b.hashed)
    ensures BooksOk(b.(hashed := hashed), slotted)
  {
    var c := b.(hashed := hashed);
    forall j | j in c.pairs
      ensures PairOk(c, j, j in slotted)
    {
      assert PairOk(b, j, j in slotted);
    }
  }

  /** A keypair without a slot enters the table. */
  lemma {:induction false} StaleOk(b: Books, slotted: set<nat>, k: nat, hashed: set<Entry>)
    requires BooksOk(b, slotted) && k in b.pairs && k !in slotted && Keypair(k) in hashed
    requires forall j :: j != k ==> (Keypair(j) in hashed <==> Keypair(j) in b.hashed)
    ensures BooksOk(b.(hashed := hashed, stale := b.stale + {k}), slotted)
  {
    var c := b.(hashed := hashed, stale := b.stale + {k});
    forall j | j in c.pairs
      ensures PairOk(c, j, j in slotted)
    {
      assert PairOk(b, j, j in slotted);
    }
  }

  /** Taking and giving back a packet's reference, and clearing is_valid, keep the accounts. */
  ghost function Taken(b: Books, k: nat): Books
    requires k in b.pairs && k in b.held
  {
    b.(pairs := b.pairs[k := b.pairs[k].(refs := b.pairs[k].refs + 1)], held := b.held[k := b.held[k] + 1])
  }

  lemma {:induction false} TakenOk(b: Books, slotted: set<nat>, k: nat)
    requires BooksOk(b, slotted) && k in b.pairs
    ensures k in b.held && BooksOk(Taken(b, k), slotted)
  {
    assert PairOk(b, k, k in slotted);
    var c := Taken(b, k);
    forall j | j in c.pairs
      ensures PairOk(c, j, j in slotted)
    {
      assert PairOk(b, j, j in slotted);
    }
  }

  /** The last reference takes the keypair out of the table. */
  ghost function GivenBack(b: Books, k: nat): Books
    requires k in b.pairs && b.pairs[k].refs > 0 && k in b.held && b.held[k] > 0
  {
    var c := b.(pairs := b.pairs[k := b.pairs[k].(refs := b.pairs[k].refs - 1)], held := b.held[k := b.held[k] - 1]);
    if c.pairs[k].refs == 0 then c.(hashed := b.hashed - {Keypair(k)}, stale := b.stale - {k}) else c
  }

  lemma {:induction false} GivenBackOk(b: Books, slotted: set<nat>, k: nat)
    requires BooksOk(b, slotted) && k in b.pairs && k in b.held && b.held[k] > 0
    ensures b.pairs[k].refs > 0 && BooksOk(GivenBack(b, k), slotted)
  {
    assert PairOk(b, k, k in slotted);
    var c := GivenBack(b, k);
    forall j | j in c.pairs
      ensures PairOk(c, j, j in slotted)
    {
      assert PairOk(b, j, j in slotted);
    }
  }

  function Invalid(pairs: map<nat, Noise>, o: Option<nat>): map<nat, Noise> {
    if o.Some? && o.value in pairs then pairs[o.value := pairs[o.value].(sendingValid := false)] else pairs
  }

  lemma {:induction false} InvalidOk(b: Books, slotted: set<nat>, o: Option<nat>)
    requires BooksOk(b, slotted)
    ensures BooksOk(b.(pairs := Invalid(b.pairs, o)), slotted)
  {
    var c := b.(pairs := Invalid(b.pairs, o));
    forall j | j in c.pairs
      ensures PairOk(c, j, j in slotted)
    {
      assert PairOk(b, j, j in slotted);
    }
  }

  /** Only keypairs that are known have left the table. */
  ghost predicate OnlyKeypairsLeft(was: set<Entry>, now: set<Entry>, known: set<nat>) {
    now <= was && forall e :: e in was && (e.Handshake? || e.id !in known) ==> e in now
  }

  /** A slot's keypair is in the table exactly if it was. */
  ghost predicate Stayed(slotted: set<nat>, was: set<Entry>, now: set<Entry>) {
    forall j :: j in slotted ==> (Keypair(j) in now <==> Keypair(j) in was)
  }

  /** The keypairs in the table that are other peers' */
  ghost function Others(hashed: set<Entry>, known: set<nat>): set<nat> {
    set e | e in hashed && e.Keypair? && e.id !in known :: e.id
  }

  lemma {:induction false} OthersStay(was: set<Entry>, known: set<nat>, now: set<Entry>, after: set<nat>)
    requires forall j :: j !in after ==> (Keypair(j) in now <==> Keypair(j) in was)
    requires known <= after && forall j :: j in after && j !in known ==> Keypair(j) !in was
    ensures Others(now, after) == Others(was, known)
  {
    forall j | j in Others(now, after)
      ensures j in Others(was, known)
    {
      assert Keypair(j) in was;
    }
    forall j | j in Others(was, known)
      ensures j in Others(now, after)
    {
      assert Keypair(j) in now;
    }
  }

  function Roles(pairs: map<nat, Noise>): map<nat, bool> {
    map k | k in pairs :: pairs[k].initiator
  }

  lemma RolesStay(pairs: map<nat, Noise>, k: nat, x: Noise)
    requires k in pairs && x.initiator == pairs[k].initiator
    ensures Roles(pairs[k := x]) == Roles(pairs) && pairs[k := x].Keys == pairs.Keys
  {
  }

  /** The current keypair may be used: it is the initiator's, or data has arrived under it; the next one is the
      responder's. */
  ghost predicate RolesFit(s: Slots, roles: map<nat, bool>, confirmed: set<nat>) {
    && (s.current.Some? ==> s.current.value in roles && (roles[s.current.value] || s.current.value in confirmed))
    && (s.next.Some? ==> s.next.value in roles && !roles[s.next.value])
  }

  lemma {:induction false} InvalidRoles(pairs: map<nat, Noise>, s: Slots, confirmed: set<nat>)
    requires RolesFit(s, Roles(pairs), confirmed)
    ensures var now := Invalid(Invalid(pairs, s.next), s.current);
      && now.Keys == pairs.Keys && Roles(now) == Roles(pairs)
      && (forall o :: o == s.next || o == s.current ==> o.Some? ==> o.value in now && !now[o.value].sendingValid)
      && forall j :: j in pairs && s.next != Some(j) && s.current != Some(j) ==> now[j] == pairs[j]
  {
  }

  lemma {:induction false} RolesAdded(s: Slots, roles: map<nat, bool>, confirmed: set<nat>, k: nat, initiator: bool)
    requires RolesFit(s, roles, confirmed) && k !in roles
    ensures RolesFit(Rotated(s, Added(k, initiator)), roles[k := initiator], confirmed)
  {
  }

  lemma {:induction false} RolesArrived(s: Slots, roles: map<nat, bool>, confirmed: set<nat>, k: nat)
    requires RolesFit(s, roles, confirmed) && k in roles
    ensures RolesFit(Rotated(s, Arrived(k)), roles, confirmed + {k})
  {
  }

  /** What the rotations do to the set of slotted keypairs. */
  lemma InParts(was: Slots)
    ensures was.next.Some? ==> was.next.value in In(was)
    ensures was.current.Some? ==> was.current.value in In(was)
    ensures was.previous.Some? ==> was.previous.value in In(was)
  {
  }

  lemma {:induction false} RotateInitiator(was: Slots, k: nat)
    requires was.Apart() && k !in In(was)
    ensures was.previous.Some? && was.next.Some? ==> was.previous.value in In(was) + {k} - Content(was.current)
    ensures var now := Slots(None, Some(k), if was.next.Some? then was.next else was.current);
      now.Apart() && In(now) == In(was) + {k} - (if was.next.Some? then Content(was.current) else {}) - Content(was.previous)
  {
  }

  lemma {:induction false} RotateResponder(was: Slots, k: nat)
    requires was.Apart() && k !in In(was)
    ensures was.previous.Some? ==> was.previous.value in In(was) + {k} - Content(was.next)
    ensures var now := Slots(Some(k), was.current, None);
      now.Apart() && In(now) == In(was) + {k} - Content(was.next) - Content(was.previous)
  {
  }

  lemma {:induction false} RotateReceived(was: Slots, k: nat)
    requires was.Apart() && was.next == Some(k)
    ensures var now := Slots(None, Some(k), was.current);
      now.Apart() && In(now) == In(was) - Content(was.previous)
  {
  }

  /** Data under the next keypair leaves the one between its two steps where it is, or makes it the current one. */
  lemma AddingStays(was: Slots, k: nat, adding: Option<nat>)
    requires was.Apart() && was.next == Some(k)
    requires adding.Some? && adding.value in In(was) ==> was.next == adding || (was.current == adding && was.next == None)
    ensures var now := Slots(None, Some(k), was.current);
      adding.Some? ==>
        && (adding.value in In(was) <==> adding.value in In(now))
        && (adding.value in In(now) ==> now.current == adding)
  {
  }

  lemma {:induction false} RotateClear(was: Slots)
    requires was.Apart()
    ensures was.previous.Some? ==> was.previous.value in In(was) - Content(was.next)
    ensures was.current.Some? ==> was.current.value in In(was) - Content(was.next) - Content(was.previous)
    ensures In(was) - Content(was.next) - Content(was.previous) - Content(was.current) == In(Slots(None, None, None))
  {
  }

  // ---- the history of a peer ----

  /** A keypair is put into its slot, all slots are cleared, a keypair takes the place of the handshake in the
      table or finds that not there, data arrives under a keypair, a packet takes a reference to one, gives one
      back, or the last one, the handshake gets an entry in the table or is without; or none of this. */
  datatype Event =
    | Added(k: nat, initiator: bool)
    | Cleared
    | Replaced(k: nat)
    | Missed(k: nat)
    | Arrived(k: nat)
    | Got(k: nat)
    | Gave(k: nat)
    | Returned(k: nat)
    | Shaken
    | Unshaken
    | Nothing

  /** What a history comes to: the slots, the keypair between the two steps of its session, whether the handshake
      is in the table, the references packets hold, the keypairs under which data has arrived, and all keypairs
      with their roles. */
  datatype Story = Story(
    slots: Slots, adding: Option<nat>, shaken: bool, held: map<nat, nat>, confirmed: set<nat>, roles: map<nat, bool>)

  function Rotated(s: Slots, e: Event): Slots {
    match e
    case Added(k, initiator) =>
      if initiator then Slots(None, Some(k), if s.next.Some? then s.next else s.current) else Slots(Some(k), s.current, None)
    case Cleared => Slots(None, None, None)
    case Arrived(k) => if s.next == Some(k) then Slots(None, Some(k), s.current) else s
    case _ => s
  }

  function Next(t: Story, e: Event): Story {
    match e
    case Added(k, initiator) =>
      t.(slots := Rotated(t.slots, e), adding := Some(k), held := t.held[k := 0], roles := t.roles[k := initiator])
    case Cleared => t.(slots := Rotated(t.slots, e))
    case Replaced(_) => t.(adding := None, shaken := false)
    case Missed(_) => t.(adding := None)
    case Arrived(k) => t.(slots := Rotated(t.slots, e), confirmed := t.confirmed + {k})
    case Got(k) => if k in t.held then t.(held := t.held[k := t.held[k] + 1]) else t
    case Gave(k) => if k in t.held && t.held[k] > 0 then t.(held := t.held[k := t.held[k] - 1]) else t
    case Returned(k) => if k in t.held && t.held[k] > 0 then t.(held := t.held[k := t.held[k] - 1]) else t
    case Shaken => t.(shaken := true)
    case Unshaken => t.(shaken := false)
    case Nothing => t
  }

  function Told(log: seq<Event>): Story {
    if log == [] then Story(Slots(None, None, None), None, false, map[], {}, map[])
    else Next(Told(log[..|log| - 1]), log[|log| - 1])
  }

  lemma {:induction false} ToldNext(log: seq<Event>, e: Event)
    ensures Told(log + [e]) == Next(Told(log), e)
  {
    assert (log + [e])[..|log|] == log;
  }

  /** The event adds k. */
  predicate Adds(e: Event, k: nat) {
    e.Added? && e.k == k
  }

  ghost predicate Known(log: seq<Event>, k: nat) {
    exists a :: 0 <= a < |log| && Adds(log[a], k)
  }

  ghost predicate ClearedSince(log: seq<Event>, k: nat) {
    exists a, c :: 0 <= a < c < |log| && Adds(log[a], k) && log[c] == Cleared
  }

  /** The slots were cleared between the two steps that made k's session, and no packet has since given back the
      last reference to k. */
  ghost predicate Late(log: seq<Event>, k: nat) {
    exists r :: 0 <= r < |log| && log[r] == Replaced(k) && ClearedSince(log[..r], k) && Returned(k) !in log[r..]
  }

  lemma {:induction false} KnownNext(log: seq<Event>, e: Event, k: nat)
    ensures Known(log + [e], k) <==> Known(log, k) || Adds(e, k)
  {
    var now := log + [e];
    if a :| 0 <= a < |log| && Adds(log[a], k) {
      assert Adds(now[a], k);
    }
    if Adds(e, k) {
      assert Adds(now[|log|], k);
    }
  }

  lemma {:induction false} ClearedSinceNext(log: seq<Event>, e: Event, k: nat)
    ensures ClearedSince(log + [e], k) <==> ClearedSince(log, k) || (e == Cleared && Known(log, k))
  {
    hide Adds;
    var now := log + [e];
    if a, c :| 0 <= a < c < |log| && Adds(log[a], k) && log[c] == Cleared {
      assert Adds(now[a], k) && now[c] == Cleared;
    }
    if e == Cleared && Known(log, k) {
      var a :| 0 <= a < |log| && Adds(log[a], k);
      assert Adds(now[a], k) && now[|log|] == Cleared;
    }
  }

  lemma {:induction false} LateNext(log: seq<Event>, e: Event, k: nat)
    ensures Late(log + [e], k) <==> e != Returned(k) && (Late(log, k) || (e == Replaced(k) && ClearedSince(log, k)))
  {
    hide ClearedSince;
    var now := log + [e];
    assert forall r :: 0 <= r <= |log| ==> now[..r] == log[..r] && now[r..] == log[r..] + [e];
    assert log[..|log|] == log;
    if r :| 0 <= r < |log| && log[r] == Replaced(k) && ClearedSince(log[..r], k) && Returned(k) !in log[r..] {
      if e != Returned(k) {
        assert now[r] == Replaced(k) && ClearedSince(now[..r], k) && Returned(k) !in now[r..];
      }
    }
    if e == Replaced(k) && ClearedSince(log, k) {
      assert now[|log|] == Replaced(k) && ClearedSince(now[..|log|], k) && Returned(k) !in now[|log|..];
    }
    if r :| 0 <= r < |now| && now[r] == Replaced(k) && ClearedSince(now[..r], k) && Returned(k) !in now[r..] {
      assert e in now[r..];
      if r < |log| {
        assert log[r] == Replaced(k) && ClearedSince(log[..r], k) && Returned(k) !in log[r..];
      }
    }
  }

  /** What a peer's history says about its keypairs in the table; adding is the one between its two steps, if any. */
  ghost predicate LogOk(log: seq<Event>, known: set<nat>, slotted: set<nat>, stale: set<nat>, adding: Option<nat>) {
    && (forall k :: Known(log, k) <==> k in known)
    && (forall k :: Replaced(k) in log ==> k in known)
    && (forall k :: k in stale <==> Late(log, k))
    && (adding.Some? ==> adding.value in known && (adding.value in slotted <==> !ClearedSince(log, adding.value)))
  }

  /** A keypair in a slot is in the table if and only if its session is complete. */
  ghost predicate Hashing(log: seq<Event>, slotted: set<nat>, hashed: set<Entry>) {
    forall k :: k in slotted ==> (Keypair(k) in hashed <==> Replaced(k) in log)
  }

  lemma {:induction false} HashingNext(log: seq<Event>, e: Event, slotted: set<nat>, hashed: set<Entry>, now: set<nat>, after: set<Entry>)
    requires Hashing(log, slotted, hashed)
    requires forall j :: j in now && !Adds(e, j) ==>
      j in slotted && (Keypair(j) in after <==> Keypair(j) in hashed || e == Replaced(j))
    requires forall j :: j in now && Adds(e, j) ==> Keypair(j) !in after && Replaced(j) !in log
    ensures Hashing(log + [e], now, after)
  {
  }

  lemma {:induction false} HashingAdded(log: seq<Event>, slotted: set<nat>, hashed: set<Entry>, e: Event, now: set<nat>, after: set<Entry>)
    requires Hashing(log, slotted, hashed) && e.Added? && now <= slotted + {e.k} && Stayed(now, hashed, after) && after <= hashed
    requires Keypair(e.k) !in hashed && Replaced(e.k) !in log
    ensures Hashing(log + [e], now, after) && Keypair(e.k) !in after
  {
    HashingNext(log, e, slotted, hashed, now, after);
  }

  lemma {:induction false} HashingStays(log: seq<Event>, e: Event, slotted: set<nat>, hashed: set<Entry>, now: set<nat>, after: set<Entry>)
    requires Hashing(log, slotted, hashed) && now <= slotted && Stayed(now, hashed, after) && !e.Added? && !e.Replaced?
    ensures Hashing(log + [e], now, after)
  {
    HashingNext(log, e, slotted, hashed, now, after);
  }

  lemma {:induction false} LogAdded(log: seq<Event>, known: set<nat>, slotted: set<nat>, stale: set<nat>, e: Event, now: set<nat>)
    requires LogOk(log, known, slotted, stale, None) && e.Added? && e.k !in known && e.k in now
    ensures LogOk(log + [e], known + {e.k}, now, stale, Some(e.k))
  {
    hide Late;
    forall j
      ensures j in stale <==> Late(log + [e], j)
      ensures Known(log + [e], j) <==> j in known + {e.k}
    {
      LateNext(log, e, j);
      KnownNext(log, e, j);
    }
    assert !Known(log, e.k);
    hide ClearedSince;
    ClearedSinceNext(log, e, e.k);
    assert !ClearedSince(log, e.k) by { NotAdded(log, e.k); }
  }

  lemma NotAdded(log: seq<Event>, k: nat)
    requires !Known(log, k)
    ensures !ClearedSince(log, k)
  {
  }

  lemma {:induction false} LogCleared(log: seq<Event>, known: set<nat>, slotted: set<nat>, stale: set<nat>, adding: Option<nat>)
    requires LogOk(log, known, slotted, stale, adding)
    ensures LogOk(log + [Cleared], known, {}, stale, adding)
  {
    hide Late, ClearedSince, Known;
    forall j
      ensures j in stale <==> Late(log + [Cleared], j)
      ensures Known(log + [Cleared], j) <==> j in known
    {
      LateNext(log, Cleared, j);
      KnownNext(log, Cleared, j);
    }
    if adding.Some? {
      ClearedSinceNext(log, Cleared, adding.value);
    }
  }

  lemma {:induction false} LogReplaced(log: seq<Event>, known: set<nat>, slotted: set<nat>, stale: set<nat>, k: nat)
    requires LogOk(log, known, slotted, stale, Some(k)) && (k in slotted ==> k !in stale)
    ensures LogOk(log + [Replaced(k)], known, slotted, if k in slotted then stale else stale + {k}, None)
  {
    hide Late, ClearedSince, Known;
    forall j
      ensures j in (if k in slotted then stale else stale + {k}) <==> Late(log + [Replaced(k)], j)
      ensures Known(log + [Replaced(k)], j) <==> j in known
    {
      LateNext(log, Replaced(k), j);
      KnownNext(log, Replaced(k), j);
    }
  }

  /** A packet gives back the last reference to k. */
  lemma {:induction false} LogReturned(log: seq<Event>, known: set<nat>, slotted: set<nat>, stale: set<nat>, adding: Option<nat>, k: nat)
    requires LogOk(log, known, slotted, stale, adding)
    ensures LogOk(log + [Returned(k)], known, slotted, stale - {k}, adding)
  {
    hide Late, ClearedSince, Known;
    forall j
      ensures j in stale - {k} <==> Late(log + [Returned(k)], j)
      ensures Known(log + [Returned(k)], j) <==> j in known
    {
      LateNext(log, Returned(k), j);
      KnownNext(log, Returned(k), j);
    }
    if adding.Some? {
      ClearedSinceNext(log, Returned(k), adding.value);
    }
  }

  /** Other events say nothing about the table; a keypair that is being added stays where it is, or is not any more. */
  lemma {:induction false} LogOther(log: seq<Event>, e: Event, known: set<nat>, slotted: set<nat>, stale: set<nat>, adding: Option<nat>,
                                    now: set<nat>, still: Option<nat>)
    requires LogOk(log, known, slotted, stale, adding) && !e.Added? && !e.Cleared? && !e.Replaced? && !e.Returned?
    requires still == None || (still == adding && (still.value in slotted <==> still.value in now))
    ensures LogOk(log + [e], known, now, stale, still)
  {
    hide Late, ClearedSince, Known;
    forall j
      ensures j in stale <==> Late(log + [e], j)
      ensures Known(log + [e], j) <==> j in known
    {
      LateNext(log, e, j);
      KnownNext(log, e, j);
    }
    if still.Some? {
      ClearedSinceNext(log, e, still.value);
    }
  }

  /** Add and Finish are the two steps of a session; Shake gives the handshake an entry in the table, if the index
      drawn is free, and Unshake takes it out. */
  datatype Op =
    | Add(k: nat, initiator: bool)
    | Finish
    | Shake(random: u32)
    | Unshake
    | Data(k: nat)
    | Expire
    | Clear
    | Get(k: nat)
    | Release(k: nat)

  /** The event of an operation, after a history that comes to t and with keypairs of other peers in the table. Only
      whether the index drawn for a handshake is free is left open. */
  ghost predicate Fits(op: Op, t: Story, others: set<nat>, e: Event) {
    match op
    case Add(k, initiator) =>
      e == if t.adding == None && k !in t.roles && k !in others then Added(k, initiator) else Nothing
    case Finish =>
      e == if t.adding == None then Nothing else if t.shaken then Replaced(t.adding.value) else Missed(t.adding.value)
    case Shake(_) => if t.adding == None then e == Shaken || e == Unshaken else e == Nothing
    case Unshake => e == if t.adding == None then Unshaken else Nothing
    case Data(k) => e == if k in t.roles then Arrived(k) else Nothing
    case Expire => e == Nothing
    case Clear => e == Cleared
    case Get(k) => e == if k in t.held && (k in In(t.slots) || t.held[k] > 0) then Got(k) else Nothing
    case Release(k) =>
      e == if k !in t.held || t.held[k] == 0 then Nothing
           else if t.held[k] == 1 && k !in In(t.slots) then Returned(k) else Gave(k)
  }

  /** The history was goes on to be log, with one event for every operation. */
  ghost predicate Explained(was: seq<Event>, ops: seq<Op>, others: set<nat>, log: seq<Event>) {
    && |log| == |was| + |ops| && log[..|was|] == was
    && forall i :: 0 <= i < |ops| ==> Fits(ops[i], Told(log[..|was| + i]), others, log[|was| + i])
  }

  class Peer {
    const table: IndexHashtable
    const handshake: Entry
    var slots: Slots
    /** the local variable new_keypair of a session between its two steps */
    var adding: Option<nat>
    /** every keypair of the peer, also the freed ones, whose refs are 0 */
    var pairs: map<nat, Noise>
    ghost var held: map<nat, nat>
    ghost var displaced: map<nat, nat>
    ghost var stale: set<nat>
    ghost var log: seq<Event>
    /** keypairs under which data has arrived */
    ghost var confirmed: set<nat>

    ghost function Account(): Books
      reads this, table
    {
      Books(pairs, held, displaced, table.hashed, stale)
    }

    /** What the history has come to */
    ghost function Now(): Story
      reads `slots, `adding, `held, `confirmed, `pairs, table`hashed
    {
      Story(slots, adding, handshake in table.hashed, held, confirmed, Roles(pairs))
    }

    ghost function Foreign(): set<nat>
      reads `pairs, table`hashed
    {
      Others(table.hashed, pairs.Keys)
    }

    /** A keypair between its two steps, unless it has lost its slot, is the next one, or the current one with no
        next one after it. */
    ghost predicate AddingOk()
      reads `adding, `slots, table`hashed
    {
      adding.Some? ==>
        && Keypair(adding.value) !in table.hashed
        && (adding.value in In(slots) ==> slots.next == adding || (slots.current == adding && slots.next == None))
    }

    ghost predicate Valid()
      reads this, table, table.buckets
    {
      && table.Valid() && handshake.Handshake? && slots.Apart() && BooksOk(Account(), In(slots))
      && RolesFit(slots, Roles(pairs), confirmed) && AddingOk()
      && LogOk(log, pairs.Keys, In(slots), stale, adding) && Hashing(log, In(slots), table.hashed) && Told(log) == Now()
    }

    constructor (table: IndexHashtable, peer: nat)
      requires table.Valid() && Handshake(peer) !in table.hashed
      ensures Valid() && this.table == table && log == []
    {
      this.table, handshake := table, Handshake(peer);
      slots, pairs, held, confirmed, displaced := Slots(None, None, None), map[], map[], {}, map[];
      adding, stale, log := None, {}, [];
    }

    /** wg_noise_keypair_put; the last reference also takes the keypair out of the table and frees it */
    method Put(k: nat, unreferenceNow: bool)
      requires table.Valid() && k in pairs && pairs[k].refs > 0
      modifies this`pairs, table`hashed, table.buckets
      ensures table.Valid() && pairs == old(pairs)[k := old(pairs)[k].(refs := old(pairs)[k].refs - 1)]
      ensures pairs.Keys == old(pairs.Keys) && Roles(pairs) == old(Roles(pairs))
      ensures table.hashed == if unreferenceNow || pairs[k].refs == 0 then old(table.hashed) - {Keypair(k)} else old(table.hashed)
    {
      hide IndexHashtable.Valid, Roles;
      if unreferenceNow {
        table.Remove(Keypair(k));
      }
      RolesStay(pairs, k, pairs[k].(refs := pairs[k].refs - 1));
      pairs := pairs[k := pairs[k].(refs := pairs[k].refs - 1)];
      if pairs[k].refs == 0 {
        table.Remove(Keypair(k));
      }
    }

    /** wg_noise_keypair_put(old, true) for what a slot held */
    method Displace(k: Option<nat>, ghost slotted: set<nat>)
      requires table.Valid() && BooksOk(Account(), slotted) && (k.Some? ==> k.value in slotted)
      modifies this`pairs, this`displaced, table`hashed, table.buckets
      ensures table.Valid() && BooksOk(Account(), slotted - Content(k))
      ensures OnlyKeypairsLeft(old(table.hashed), table.hashed, old(pairs.Keys))
      ensures Stayed(slotted - Content(k), old(table.hashed), table.hashed) && Roles(pairs) == old(Roles(pairs))
      ensures pairs.Keys == old(pairs.Keys) && forall j :: j in pairs && Some(j) != k ==> pairs[j] == old(pairs)[j]
    {
      hide IndexHashtable.Valid, BooksOk, Roles;
      if k.Some? {
        DropOk(Account(), slotted, k.value);
        Put(k.value, true);
        displaced := displaced[k.value := displaced[k.value] + 1];
      } else {
        assert slotted - Content(k) == slotted;
      }
    }

    /** The account of a keypair just made */
    method Create(k: nat, initiator: bool)
      requires Valid() && k !in pairs
      modifies this`pairs, this`held, this`displaced
      ensures BooksOk(Account(), In(slots) + {k}) && pairs == old(pairs)[k := Noise(initiator, 1, true)]
      ensures k !in In(slots) && held == old(held)[k := 0] && Roles(pairs) == old(Roles(pairs))[k := initiator]
    {
      hide IndexHashtable.Valid, PairOk, In, LogOk, Hashing, RolesFit, AddingOk, Told, Slots.Apart;
      NotStale(log, pairs.Keys, In(slots), stale, adding, k);
      FreshOk(Account(), In(slots), k, initiator);
      pairs, held, displaced := pairs[k := Noise(initiator, 1, true)], held[k := 0], displaced[k := 0];
    }

    /** The rotation for the initiator: the response has arrived, so the new keypair can be used */
    method RotateIn(k: nat)
      requires Valid() && k !in pairs
      modifies this`pairs, this`held, this`displaced, this`slots, table`hashed, table.buckets
      ensures table.Valid() && slots.Apart() && BooksOk(Account(), In(slots))
      ensures k in pairs && pairs[k] == Noise(true, 1, true) && Roles(pairs) == old(Roles(pairs))[k := true]
      ensures held == old(held)[k := 0]
      ensures OnlyKeypairsLeft(old(table.hashed), table.hashed, old(pairs.Keys) + {k}) && pairs.Keys == old(pairs.Keys) + {k}
      ensures In(slots) <= old(In(slots)) + {k} && Stayed(In(slots), old(table.hashed), table.hashed)
      ensures slots == Slots(None, Some(k), if old(slots.next).Some? then old(slots.next) else old(slots.current))
    {
      hide IndexHashtable.Valid, BooksOk, In, Content, Slots.Apart, LogOk, Hashing, Told, AddingOk, RolesFit, PairOk, Roles;
      var was := slots;
      InParts(was);
      Create(k, true);
      RotateInitiator(was, k);
      if was.next.Some? {
        slots := Slots(None, Some(k), was.next);
        Displace(was.current, In(was) + {k});
        Displace(was.previous, In(was) + {k} - Content(was.current));
      } else {
        slots := Slots(None, Some(k), was.current);
        Displace(was.previous, In(was) + {k});
        assert In(was) + {k} - {} == In(was) + {k};
      }
    }

    /** The rotation for the responder: the new keypair waits for data */
    method RotateNext(k: nat)
      requires Valid() && k !in pairs
      modifies this`pairs, this`held, this`displaced, this`slots, table`hashed, table.buckets
      ensures table.Valid() && slots.Apart() && BooksOk(Account(), In(slots))
      ensures k in pairs && pairs[k] == Noise(false, 1, true) && Roles(pairs) == old(Roles(pairs))[k := false]
      ensures held == old(held)[k := 0]
      ensures OnlyKeypairsLeft(old(table.hashed), table.hashed, old(pairs.Keys) + {k}) && pairs.Keys == old(pairs.Keys) + {k}
      ensures In(slots) <= old(In(slots)) + {k} && Stayed(In(slots), old(table.hashed), table.hashed)
      ensures slots == Slots(Some(k), old(slots.current), None)
    {
      hide IndexHashtable.Valid, BooksOk, In, Content, Slots.Apart, LogOk, Hashing, Told, AddingOk, RolesFit, PairOk, Roles;
      var was := slots;
      InParts(was);
      Create(k, false);
      RotateResponder(was, k);
      slots := Slots(Some(k), was.current, None);
      Displace(was.next, In(was) + {k});
      Displace(was.previous, In(was) + {k} - Content(was.next));
    }

    method Rotate(k: nat, initiator: bool)
      requires Valid() && k !in pairs
      modifies this`pairs, this`held, this`displaced, this`slots, table`hashed, table.buckets
      ensures table.Valid() && slots.Apart() && BooksOk(Account(), In(slots))
      ensures k in pairs && pairs[k] == Noise(initiator, 1, true) && Roles(pairs) == old(Roles(pairs))[k := initiator]
      ensures held == old(held)[k := 0]
      ensures OnlyKeypairsLeft(old(table.hashed), table.hashed, old(pairs.Keys) + {k}) && pairs.Keys == old(pairs.Keys) + {k}
      ensures In(slots) <= old(In(slots)) + {k} && Stayed(In(slots), old(table.hashed), table.hashed)
      ensures slots == Rotated(old(slots), Added(k, initiator))
    {
      hide IndexHashtable.Valid, BooksOk, RolesFit, LogOk, Hashing, In, Slots.Apart, Roles, Stayed, OnlyKeypairsLeft, AddingOk, Told;
      if initiator {
        RotateIn(k);
      } else {
        RotateNext(k);
      }
    }

    /** add_new_keypair, the first step of a session that begins */
    method AddNew(k: nat, initiator: bool)
      requires Valid() && adding == None && k !in pairs && Keypair(k) !in table.hashed
      modifies this`pairs, this`held, this`displaced, this`slots, this`adding, this`log, table`hashed, table.buckets
      ensures Valid() && adding == Some(k) && log == old(log) + [Added(k, initiator)] && Foreign() == old(Foreign())
      ensures k in pairs && pairs[k] == Noise(initiator, 1, true) && held == old(held)[k := 0] && pairs.Keys == old(pairs.Keys) + {k}
      ensures handshake in table.hashed <==> handshake in old(table.hashed)
      ensures slots == if initiator
                       then Slots(None, Some(k), if old(slots.next).Some? then old(slots.next) else old(slots.current))
                       else Slots(Some(k), old(slots.current), None)
    {
      hide IndexHashtable.Valid, BooksOk, RolesFit, LogOk, Hashing, In, Slots.Apart, Stayed, OnlyKeypairsLeft, Told, Others;
      NotStale(log, pairs.Keys, In(slots), stale, adding, k);
      RolesAdded(slots, Roles(pairs), confirmed, k, initiator);
      ghost var known, slotted, hashed := pairs.Keys, In(slots), table.hashed;
      ghost var e := Added(k, initiator);
      Rotate(k, initiator);
      InParts(slots);
      LogAdded(log, known, slotted, stale, e, In(slots));
      Leaving(hashed, table.hashed, known, pairs.Keys, handshake);
      HashingAdded(log, slotted, hashed, e, In(slots), table.hashed);
      ToldNext(log, e);
      adding, log := Some(k), log + [e];
    }

    /** wg_index_hashtable_replace, its second step: the keypair takes the place of the handshake in the table,
        under the same index, whether or not it still has a slot */
    method FinishNew() returns (ret: bool)
      requires Valid() && adding.Some?
      modifies this`adding, this`stale, this`log, table, table.buckets
      ensures Valid() && adding == None && (ret <==> handshake in old(table.hashed)) && Foreign() == old(Foreign())
      ensures ret ==> table.hashed == old(table.hashed) - {handshake} + {Keypair(old(adding).value)}
      ensures ret ==>
        && handshake in old(table.index) && Keypair(old(adding).value) in table.index
        && table.index[Keypair(old(adding).value)] == old(table.index)[handshake]
      ensures !ret ==> table.hashed == old(table.hashed)
      ensures log == old(log) + [if ret then Replaced(old(adding).value) else Missed(old(adding).value)]
    {
      hide IndexHashtable.Valid, BooksOk, LogOk, In, RolesFit, Slots.Apart, Hashing, Told, Roles, Others;
      var k := adding.value;
      table.Indexed(handshake);
      ghost var b := Account();
      ret := table.Replace(handshake, Keypair(k));
      adding := None;
      ghost var e := if ret then Replaced(k) else Missed(k);
      IsKnown(log, pairs.Keys, In(slots), stale, k);
      if ret {
        FinishedOk(b, In(slots), k, handshake, log);
        stale := if k in In(slots) then stale else stale + {k};
      } else {
        LogOther(log, e, pairs.Keys, In(slots), stale, Some(k), In(slots), None);
      }
      HashingNext(log, e, In(slots), b.hashed, In(slots), table.hashed);
      OthersStay(b.hashed, pairs.Keys, table.hashed, pairs.Keys);
      ToldNext(log, e);
      log := log + [e];
    }

    /** Where only the handshake's entry in the table changes */
    ghost method LogEntry(e: Event, was: set<Entry>)
      requires table.Valid() && handshake.Handshake? && slots.Apart() && RolesFit(slots, Roles(pairs), confirmed) && adding == None
      requires BooksOk(Account().(hashed := was), In(slots)) && LogOk(log, pairs.Keys, In(slots), stale, adding)
      requires Hashing(log, In(slots), was) && Told(log) == Now().(shaken := handshake in was)
      requires forall j :: j != handshake ==> (j in table.hashed <==> j in was)
      requires e == if handshake in table.hashed then Shaken else Unshaken
      modifies this`log
      ensures Valid() && log == old(log) + [e] && Foreign() == Others(was, pairs.Keys)
    {
      hide IndexHashtable.Valid, BooksOk, LogOk, In, RolesFit, Slots.Apart, Hashing, Told, Roles, Others;
      HashedOk(Account().(hashed := was), In(slots), None, table.hashed);
      LogOther(log, e, pairs.Keys, In(slots), stale, None, In(slots), None);
      HashingNext(log, e, In(slots), was, In(slots), table.hashed);
      OthersStay(was, pairs.Keys, table.hashed, pairs.Keys);
      ToldNext(log, e);
      log := log + [e];
    }

    /** One attempt of wg_index_hashtable_insert for the handshake, and wg_index_hashtable_remove; both under the
        handshake's lock */
    method Rehash(random: u32)
      requires Valid() && adding == None
      modifies this`log, table, table.buckets
      ensures Valid() && handshake in table.index && table.index[handshake] == random && Foreign() == old(Foreign())
      ensures log == old(log) + [if handshake in table.hashed then Shaken else Unshaken]
    {
      hide IndexHashtable.Valid, BooksOk, LogOk, In, RolesFit, Slots.Apart, Hashing, Told, Roles, Others;
      ghost var was := table.hashed;
      table.Remove(handshake);
      table.Pick(handshake, random);
      var ok := table.TryInsert(handshake);
      LogEntry(if handshake in table.hashed then Shaken else Unshaken, was);
    }

    method Unhash()
      requires Valid() && adding == None
      modifies this`log, table`hashed, table.buckets
      ensures Valid() && table.hashed == old(table.hashed) - {handshake} && Foreign() == old(Foreign())
      ensures log == old(log) + [Unshaken]
    {
      hide IndexHashtable.Valid, BooksOk, LogOk, In, RolesFit, Slots.Apart, Hashing, Told, Roles, Others;
      ghost var was := table.hashed;
      table.Remove(handshake);
      LogEntry(Unshaken, was);
    }

    /** Nothing that the history is about has happened. */
    ghost method LogNothing()
      requires Valid()
      modifies this`log
      ensures Valid() && log == old(log) + [Nothing]
    {
      hide IndexHashtable.Valid, BooksOk, LogOk, In, RolesFit, Slots.Apart, Hashing, Told, Roles, AddingOk;
      LogOther(log, Nothing, pairs.Keys, In(slots), stale, adding, In(slots), adding);
      HashingNext(log, Nothing, In(slots), table.hashed, In(slots), table.hashed);
      ToldNext(log, Nothing);
      log := log + [Nothing];
    }

    /** wg_noise_received_with_keypair */
    method Received(k: nat) returns (keyIsNew: bool)
      requires Valid() && k in pairs
      modifies this`pairs, this`displaced, this`slots, this`confirmed, this`log, table`hashed, table.buckets
      ensures Valid() && log == old(log) + [Arrived(k)] && Foreign() == old(Foreign())
      ensures keyIsNew <==> old(slots).next == Some(k)
      ensures slots == if keyIsNew then Slots(None, Some(k), old(slots).current) else old(slots)
    {
      hide IndexHashtable.Valid, BooksOk, LogOk, Hashing, Told, RolesFit, Others, In, Slots.Apart, Content, Stayed, OnlyKeypairsLeft;
      var was := slots;
      ghost var hashed := table.hashed;
      RolesArrived(slots, Roles(pairs), confirmed, k);
      confirmed := confirmed + {k};
      ToldNext(log, Arrived(k));
      keyIsNew := Some(k) == slots.next;
      if keyIsNew {
        InParts(was);
        RotateReceived(was, k);
        AddingStays(was, k, adding);
        slots := Slots(None, Some(k), was.current);
        Displace(was.previous, In(was));
        Leaving(hashed, table.hashed, pairs.Keys, pairs.Keys, handshake);
      } else {
        AllStay(In(was), hashed);
      }
      LogOther(log, Arrived(k), pairs.Keys, In(was), stale, adding, In(slots), adding);
      HashingStays(log, Arrived(k), In(was), hashed, In(slots), table.hashed);
      log := log + [Arrived(k)];
    }

    /** wg_noise_expire_current_peer_keypairs, the part about keypairs */
    method ExpireCurrent()
      requires Valid()
      modifies this`pairs, this`log
      ensures Valid() && log == old(log) + [Nothing] && Foreign() == old(Foreign())
      ensures forall o :: o == slots.next || o == slots.current ==> o.Some? ==> o.value in pairs && !pairs[o.value].sendingValid
      ensures pairs.Keys == old(pairs).Keys
      ensures forall j :: j in pairs && slots.next != Some(j) && slots.current != Some(j) ==> pairs[j] == old(pairs)[j]
    {
      hide IndexHashtable.Valid, BooksOk, LogOk, Hashing, Told, AddingOk, In, Slots.Apart, Roles, RolesFit, Invalid;
      InvalidRoles(pairs, slots, confirmed);
      InvalidOk(Account(), In(slots), slots.next);
      pairs := Invalid(pairs, slots.next);
      InvalidOk(Account(), In(slots), slots.current);
      pairs := Invalid(pairs, slots.current);
      LogNothing();
    }

    /** The three slots, next first */
    method EmptySlots()
      requires table.Valid() && slots.Apart() && BooksOk(Account(), In(slots))
      modifies this`pairs, this`displaced, this`slots, table`hashed, table.buckets
      ensures table.Valid() && slots == Slots(None, None, None) && BooksOk(Account(), In(slots))
      ensures pairs.Keys == old(pairs.Keys) && Roles(pairs) == old(Roles(pairs))
      ensures OnlyKeypairsLeft(old(table.hashed), table.hashed, pairs.Keys)
    {
      hide IndexHashtable.Valid, BooksOk, In, Content, Slots.Apart, Roles, Stayed;
      var was := slots;
      InParts(was);
      RotateClear(was);
      slots := slots.(next := None);
      Displace(was.next, In(was));
      slots := slots.(previous := None);
      Displace(was.previous, In(was) - Content(was.next));
      slots := slots.(current := None);
      Displace(was.current, In(was) - Content(was.next) - Content(was.previous));
    }

    /** wg_noise_keypairs_clear */
    method ClearAll()
      requires Valid()
      modifies this`pairs, this`displaced, this`slots, this`log, table`hashed, table.buckets
      ensures Valid() && slots == Slots(None, None, None) && pairs.Keys == old(pairs.Keys)
      ensures log == old(log) + [Cleared] && Foreign() == old(Foreign())
      ensures handshake in table.hashed <==> handshake in old(table.hashed)
      ensures forall k :: k in pairs ==>
        (Keypair(k) in table.hashed <==> k in stale) && k in held && pairs[k].refs == held[k]
    {
      hide IndexHashtable.Valid, BooksOk, In, LogOk, Hashing, Told, Roles, Others, OnlyKeypairsLeft;
      ghost var slotted, hashed := In(slots), table.hashed;
      EmptySlots();
      NoneSlotted(Account());
      Leaving(hashed, table.hashed, pairs.Keys, pairs.Keys, handshake);
      LogCleared(log, pairs.Keys, slotted, stale, adding);
      ToldNext(log, Cleared);
      HashingNext(log, Cleared, slotted, hashed, {}, table.hashed);
      log := log + [Cleared];
    }

    /** wg_noise_keypair_get */
    method Take(k: nat) returns (ok: bool)
      requires Valid() && k in pairs
      modifies this`pairs, this`held, this`log
      ensures Valid() && k in pairs && (ok <==> old(pairs)[k].refs > 0) && Foreign() == old(Foreign())
      ensures ok ==> pairs[k].refs == old(pairs)[k].refs + 1
      ensures log == old(log) + [if ok then Got(k) else Nothing]
    {
      hide IndexHashtable.Valid, BooksOk, In, LogOk, Hashing, Told, RolesFit, Roles, AddingOk, Slots.Apart;
      ok := pairs[k].refs > 0;
      if !ok {
        LogNothing();
        return;
      }
      TakenOk(Account(), In(slots), k);
      RolesStay(pairs, k, pairs[k].(refs := pairs[k].refs + 1));
      pairs, held := pairs[k := pairs[k].(refs := pairs[k].refs + 1)], held[k := held[k] + 1];
      LogUse(Got(k), table.hashed, stale);
    }

    /** Where a packet takes or gives back a reference; the last one takes the keypair out of the table. */
    ghost method LogUse(e: Event, hashed: set<Entry>, was: set<nat>)
      requires table.Valid() && handshake.Handshake? && slots.Apart() && AddingOk() && BooksOk(Account(), In(slots))
      requires RolesFit(slots, Roles(pairs), confirmed) && LogOk(log, pairs.Keys, In(slots), was, adding)
      requires Hashing(log, In(slots), hashed) && Next(Told(log), e) == Now()
      requires if e.Returned? then e.k in pairs && e.k !in In(slots) && table.hashed == hashed - {Keypair(e.k)} && stale == was - {e.k}
               else (e.Got? || e.Gave?) && table.hashed == hashed && stale == was
      modifies this`log
      ensures Valid() && log == old(log) + [e] && Foreign() == Others(hashed, pairs.Keys)
    {
      hide IndexHashtable.Valid, BooksOk, In, LogOk, Hashing, Told, RolesFit, Roles, AddingOk, Slots.Apart, Next, Others;
      if e.Returned? {
        LogReturned(log, pairs.Keys, In(slots), was, adding, e.k);
      } else {
        LogOther(log, e, pairs.Keys, In(slots), stale, adding, In(slots), adding);
      }
      HashingNext(log, e, In(slots), hashed, In(slots), table.hashed);
      OthersStay(hashed, pairs.Keys, table.hashed, pairs.Keys);
      ToldNext(log, e);
      log := log + [e];
    }

    /** wg_noise_keypair_put(keypair, false) for a packet's reference */
    method GiveBack(k: nat)
      requires Valid() && k in pairs && k in held && held[k] > 0
      modifies this`pairs, this`held, this`stale, this`log, table`hashed, table.buckets
      ensures Valid() && k in pairs && pairs[k].refs == old(pairs)[k].refs - 1 && Foreign() == old(Foreign())
      ensures pairs[k].refs == 0 ==> Keypair(k) !in table.hashed
      ensures log == old(log) + [if pairs[k].refs == 0 then Returned(k) else Gave(k)]
    {
      hide IndexHashtable.Valid, BooksOk, In, LogOk, Hashing, Told, RolesFit, Roles, Slots.Apart, Others;
      ghost var b := Account();
      GivenBackOk(b, In(slots), k);
      Referred(b, In(slots), k);
      Put(k, false);
      held := held[k := held[k] - 1];
      if pairs[k].refs == 0 {
        stale := stale - {k};
      }
      LogUse(if pairs[k].refs == 0 then Returned(k) else Gave(k), b.hashed, b.stale);
    }

    /** One operation; a new keypair's number is not used yet, and what gives back a reference has one. */
    method Step(op: Op) returns (ghost e: Event)
      requires Valid()
      modifies this, table, table.buckets
      ensures Valid() && log == old(log) + [e] && Foreign() == old(Foreign())
      ensures Fits(op, old(Now()), old(Foreign()), e)
    {
      hide IndexHashtable.Valid, BooksOk, RolesFit, LogOk, AddingOk, Hashing, Slots.Apart, In, Told;
      match op {
        case Add(k, initiator) =>
          if adding == None && k !in pairs && Keypair(k) !in table.hashed {
            AddNew(k, initiator);
          } else {
            LogNothing();
          }
        case Finish =>
          if adding.Some? {
            var _ := FinishNew();
          } else {
            LogNothing();
          }
        case Shake(random) =>
          if adding == None {
            Rehash(random);
          } else {
            LogNothing();
          }
        case Unshake =>
          if adding == None {
            Unhash();
          } else {
            LogNothing();
          }
        case Data(k) =>
          if k in pairs {
            var _ := Received(k);
          } else {
            LogNothing();
          }
        case Expire => ExpireCurrent();
        case Clear => ClearAll();
        case Get(k) => GetOne(k);
        case Release(k) => ReleaseOne(k);
      }
      e := log[|log| - 1];
    }

    method GetOne(k: nat)
      requires Valid()
      modifies this`pairs, this`held, this`log
      ensures Valid() && |log| == |old(log)| + 1 && log == old(log) + [log[|old(log)|]] && Foreign() == old(Foreign())
      ensures Fits(Get(k), old(Now()), {}, log[|old(log)|])
    {
      hide IndexHashtable.Valid, BooksOk, RolesFit, LogOk, AddingOk, Hashing, Slots.Apart, In, Told;
      SameKeys(log);
      if k in pairs {
        Referred(Account(), In(slots), k);
        var _ := Take(k);
      } else {
        LogNothing();
      }
    }

    method ReleaseOne(k: nat)
      requires Valid()
      modifies this`pairs, this`held, this`stale, this`log, table`hashed, table.buckets
      ensures Valid() && |log| == |old(log)| + 1 && log == old(log) + [log[|old(log)|]] && Foreign() == old(Foreign())
      ensures Fits(Release(k), old(Now()), {}, log[|old(log)|])
    {
      hide IndexHashtable.Valid, BooksOk, RolesFit, LogOk, AddingOk, Hashing, Slots.Apart, In, Told;
      SameKeys(log);
      if k in pairs && pairs[k].refs > (if Some(k) == slots.next || Some(k) == slots.current || Some(k) == slots.previous then 1 else 0) {
        HeldPositive(Account(), slots, k);
        Referred(Account(), In(slots), k);
        GiveBack(k);
      } else {
        NotHeld(Account(), slots, k);
        LogNothing();
      }
    }

    /** Over every run: each operation adds to the history the event that fits it, and slots, references, roles and
        the handshake's entry are what that history comes to; the slots hold distinct keypairs, each in the table
        once its session is complete; every keypair that has left its slot has lost that reference exactly once,
        and is in the table if and only if the slots were cleared between the two steps of its session and no
        packet has given back its last reference since, so never if no operation clears them; and the current
        one is the initiator's, or data has arrived under it. */
    method Run(ops: seq<Op>)
      requires Valid()
      modifies this, table, table.buckets
      ensures Valid() && slots.Apart()
      ensures Explained(old(log), ops, old(Foreign()), log)
      ensures Told(log) == Story(slots, adding, handshake in table.hashed, held, confirmed, Roles(pairs))
      ensures forall k :: k in pairs ==> k in held && pairs[k].refs == held[k] + if k in In(slots) then 1 else 0
      ensures forall k :: k in pairs && k in In(slots) ==> (Keypair(k) in table.hashed <==> Replaced(k) in log)
      ensures forall k :: k in pairs && k !in In(slots) ==>
        k in displaced && displaced[k] == 1 && (Keypair(k) in table.hashed <==> Late(log, k))
      ensures Cleared !in old(log) && Clear !in ops ==> forall k :: k in pairs && k !in In(slots) ==> Keypair(k) !in table.hashed
      ensures forall k :: slots.current == Some(k) ==> k in pairs && (pairs[k].initiator || k in confirmed)
    {
      hide IndexHashtable.Valid, BooksOk, RolesFit, LogOk, AddingOk, Hashing, Explained, Fits, Told, Roles, Others, Late;
      ghost var was, others := log, Foreign();
      ExplainedStart(was, others);
      for i := 0 to |ops|
        invariant Valid() && Explained(was, ops[..i], others, log) && Foreign() == others
      {
        ghost var before := log;
        ghost var e := Step(ops[i]);
        ExplainedNext(was, ops, i, others, before, e);
      }
      assert ops[..|ops|] == ops;
      Sound();
      ClearsLogged(was, ops, others, log);
    }

    /** What being valid says of every keypair */
    lemma Sound()
      requires Valid()
      ensures forall k :: k in pairs ==> k in held && pairs[k].refs == held[k] + if k in In(slots) then 1 else 0
      ensures forall k :: k in pairs && k in In(slots) ==> (Keypair(k) in table.hashed <==> Replaced(k) in log)
      ensures forall k :: k in pairs && k !in In(slots) ==>
        k in displaced && displaced[k] == 1 && (Keypair(k) in table.hashed <==> Late(log, k))
      ensures forall k :: slots.current == Some(k) ==> k in pairs && (pairs[k].initiator || k in confirmed)
      ensures Cleared !in log ==> forall k :: k in pairs && k !in In(slots) ==> Keypair(k) !in table.hashed
    {
      hide IndexHashtable.Valid, Late, ClearedSince, AddingOk, In, Told, Known;
      assert forall k :: k in pairs ==> PairOk(Account(), k, k in In(slots));
      if Cleared !in log {
        forall k | k in pairs && k !in In(slots)
          ensures Keypair(k) !in table.hashed
        {
          NotLate(log, k);
        }
      }
    }

    /** Such a run: the slots are cleared between the two steps, and a keypair that nothing refers to any more,
        and whose memory is to be freed, is in the table. */
    method ClearBetween(k: nat, initiator: bool)
      requires Valid() && adding == None && k !in pairs && Keypair(k) !in table.hashed && handshake in table.hashed
      modifies this, table, table.buckets
      ensures Valid() && k in pairs && pairs[k].refs == 0 && k !in In(slots) && Keypair(k) in table.hashed
      ensures log == old(log) + [Added(k, initiator), Cleared, Replaced(k)]
    {
      hide IndexHashtable.Valid, BooksOk, RolesFit, LogOk, AddingOk, Hashing, Told, Others, Slots.Apart, Roles, In;
      AddNew(k, initiator);
      ClearAll();
      var ret := FinishNew();
      NothingIn();
    }
  }

  lemma NothingIn()
    ensures In(Slots(None, None, None)) == {}
  {
  }

  lemma NotStale(log: seq<Event>, known: set<nat>, slotted: set<nat>, stale: set<nat>, adding: Option<nat>, k: nat)
    requires LogOk(log, known, slotted, stale, adding) && k !in known
    ensures k !in stale && Replaced(k) !in log
  {
    hide ClearedSince, Known;
  }

  lemma IsKnown(log: seq<Event>, known: set<nat>, slotted: set<nat>, stale: set<nat>, k: nat)
    requires LogOk(log, known, slotted, stale, Some(k))
    ensures k in known
  {
  }

  /** Where nothing was cleared no keypair is late. */
  lemma NotLate(log: seq<Event>, k: nat)
    requires Cleared !in log
    ensures !Late(log, k)
  {
    hide Adds;
  }

  /** Keypairs that leave the table take neither the handshake nor other peers' keypairs along. */
  lemma {:induction false} Leaving(was: set<Entry>, now: set<Entry>, known: set<nat>, after: set<nat>, handshake: Entry)
    requires OnlyKeypairsLeft(was, now, after) && handshake.Handshake? && known <= after
    requires forall j :: j in after && j !in known ==> Keypair(j) !in was
    ensures now <= was && (handshake in now <==> handshake in was) && Others(now, after) == Others(was, known)
  {
    OthersStay(was, known, now, after);
  }

  lemma AllStay(slotted: set<nat>, hashed: set<Entry>)
    ensures Stayed(slotted, hashed, hashed)
  {
  }

  lemma NextKeys(t: Story, e: Event)
    requires t.held.Keys == t.roles.Keys
    ensures Next(t, e).held.Keys == Next(t, e).roles.Keys
  {
    hide Rotated;
  }

  lemma {:induction false} SameKeys(log: seq<Event>)
    ensures Told(log).held.Keys == Told(log).roles.Keys
  {
    hide Next;
    if log != [] {
      SameKeys(log[..|log| - 1]);
      NextKeys(Told(log[..|log| - 1]), log[|log| - 1]);
    }
  }

  /** The second step succeeds. */
  lemma {:induction false} FinishedOk(b: Books, slotted: set<nat>, k: nat, handshake: Entry, log: seq<Event>)
    requires BooksOk(b, slotted) && LogOk(log, b.pairs.Keys, slotted, b.stale, Some(k)) && handshake.Handshake?
    ensures var now := if k in slotted then b.stale else b.stale + {k};
      && BooksOk(b.(hashed := b.hashed - {handshake} + {Keypair(k)}, stale := now), slotted)
      && LogOk(log + [Replaced(k)], b.pairs.Keys, slotted, now, None)
  {
    assert PairOk(b, k, k in slotted) by {
      assert k in b.pairs;
    }
    LogReplaced(log, b.pairs.Keys, slotted, b.stale, k);
    hide LogOk, BooksOk, PairOk;
    var hashed := b.hashed - {handshake} + {Keypair(k)};
    if k in slotted {
      HashedOk(b, slotted, Some(k), hashed);
    } else {
      StaleOk(b, slotted, k, hashed);
    }
  }

  lemma NoneSlotted(b: Books)
    requires BooksOk(b, In(Slots(None, None, None)))
    ensures forall k :: k in b.pairs ==>
      k in b.held && (Keypair(k) in b.hashed <==> k in b.stale) && b.pairs[k].refs == b.held[k]
    ensures In(Slots(None, None, None)) == {}
  {
    forall k | k in b.pairs
      ensures k in b.held && (Keypair(k) in b.hashed <==> k in b.stale) && b.pairs[k].refs == b.held[k]
    {
      assert PairOk(b, k, false);
    }
  }

  lemma HeldPositive(b: Books, s: Slots, k: nat)
    requires BooksOk(b, In(s)) && k in b.pairs
    requires b.pairs[k].refs > if Some(k) == s.next || Some(k) == s.current || Some(k) == s.previous then 1 else 0
    ensures k in b.held && b.held[k] > 0
  {
    assert PairOk(b, k, k in In(s));
  }

  lemma NotHeld(b: Books, s: Slots, k: nat)
    requires BooksOk(b, In(s))
    requires k in b.pairs ==>
      b.pairs[k].refs <= if Some(k) == s.next || Some(k) == s.current || Some(k) == s.previous then 1 else 0
    ensures k in b.pairs ==> k in b.held && b.held[k] == 0
  {
    if k in b.pairs {
      assert PairOk(b, k, k in In(s));
    }
  }

  lemma Referred(b: Books, slotted: set<nat>, k: nat)
    requires BooksOk(b, slotted) && k in b.pairs
    ensures k in b.held && b.pairs[k].refs == b.held[k] + if k in slotted then 1 else 0
  {
    assert PairOk(b, k, k in slotted);
  }

  lemma {:induction false} ExplainedStart(was: seq<Event>, others: set<nat>)
    ensures Explained(was, [], others, was)
  {
  }

  lemma {:induction false} ExplainedNext(was: seq<Event>, ops: seq<Op>, i: nat, others: set<nat>, log: seq<Event>, e: Event)
    requires i < |ops| && Explained(was, ops[..i], others, log) && Fits(ops[i], Told(log), others, e)
    ensures Explained(was, ops[..i + 1], others, log + [e])
  {
    hide Fits, Told;
    var now, done := log + [e], ops[..i + 1];
    assert now[..|was|] == was && now[..|log|] == log;
    forall j | 0 <= j < |done|
      ensures Fits(done[j], Told(now[..|was| + j]), others, now[|was| + j])
    {
      if j < i {
        assert done[j] == ops[..i][j];
        assert Fits(ops[..i][j], Told(log[..|was| + j]), others, log[|was| + j]);
        assert now[..|was| + j] == log[..|was| + j];
      }
    }
  }

  /** Only an operation that clears the slots writes that down. */
  lemma {:induction false} ClearsLogged(was: seq<Event>, ops: seq<Op>, others: set<nat>, log: seq<Event>)
    requires Explained(was, ops, others, log)
    ensures Cleared !in was && Clear !in ops ==> Cleared !in log
  {
    hide Told;
    if Cleared !in was && Clear !in ops {
      forall x | 0 <= x < |log|
        ensures log[x] != Cleared
      {
        if x < |was| {
          assert log[x] == was[x];
        } else {
          var i := x - |was|;
          assert Fits(ops[i], Told(log[..|was| + i]), others, log[|was| + i]) && ops[i] in ops;
        }
      }
    }
  }
}
