/** ratelimiter.c: a token bucket for each source of handshake packets, in a
    hash table from which idle buckets are collected. A call of
    wg_ratelimiter_allow is one step; FirstPackets is about calls that
    interleave. The collector's steps are the chains it visits under the
    table's lock: it reads the clock once per round, and packets arrive between
    its steps. */
module Ratelimiter {
  import opened Wrappers

  const NSEC_PER_SEC: nat := 1_000_000_000
  const PACKETS_BURSTABLE: nat := 5
  const PACKET_COST: nat := 50_000_000
  const TOKEN_MAX: nat := 250_000_000
  const U64: nat := 0x1_0000_0000_0000_0000

  /** The clock is a signed 64-bit number of nanoseconds. */
  type Time = x: int | 0 <= x < 0x8000_0000_0000_0000

  /** A source is an IPv4 address or the upper half of an IPv6 address, in a network namespace. */
  datatype Source = Source(v6: bool, net: nat, ip: nat)

  datatype Bucket = Bucket(last: Time, tokens: nat)

  // ---- the limiter without the table ----

  /** min_t(u64, TOKEN_MAX, tokens + now - last_time_ns) */
  function Level(b: Bucket, now: Time): nat {
    Min(TOKEN_MAX, (b.tokens + now - b.last) % U64)
  }

  function LevelOf(m: map<Source, Bucket>, s: Source, now: Time): nat {
    if s in m then Level(m[s], now) else TOKEN_MAX
  }

  /** now - last_time_ns > NSEC_PER_SEC, in 64 bits without a sign */
  predicate Idle(b: Bucket, now: Time) {
    (now - b.last) % U64 > NSEC_PER_SEC
  }

  /** The subtraction wraps around: a bucket used after now was read counts as idle. */
  lemma {:induction false} IdleExactly(b: Bucket, now: Time)
    ensures Idle(b, now) <==> now < b.last || now - b.last > NSEC_PER_SEC
  {
  }

  /** A packet of s arrives, and there is room for a new entry or not; or the collector visits some of the
      sources, with a clock value that it read then or earlier. */
  datatype Event = Packet(s: Source, now: Time, room: bool) | Collect(now: Time, visits: set<Source>)

  function Taken(level: nat, now: Time): Bucket {
    Bucket(now, if level >= PACKET_COST then level - PACKET_COST else level)
  }

  function Next(m: map<Source, Bucket>, e: Event): map<Source, Bucket> {
    match e
    case Packet(s, now, room) =>
      if s in m || room then m[s := Taken(LevelOf(m, s, now), now)] else m
    case Collect(now, visits) => map s | s in m && !(s in visits && Idle(m[s], now)) :: m[s]
  }

  predicate Admits(m: map<Source, Bucket>, e: Event) {
    e.Packet? && if e.s in m then LevelOf(m, e.s, e.now) >= PACKET_COST else e.room
  }

  /** Buckets as they are at time t */
  ghost predicate Ok(m: map<Source, Bucket>, t: Time) {
    forall s :: s in m ==> m[s].last <= t && m[s].tokens <= TOKEN_MAX
  }

  /** The time after an event that happens at t or later */
  function Clock(e: Event, t: Time): Time {
    if e.Packet? then e.now else t
  }

  /** The clock does not go back, and what the collector read of it is not ahead of it. */
  ghost predicate Ordered(es: seq<Event>, t: Time) {
    es != [] ==> (if es[0].Packet? then t <= es[0].now else es[0].now <= t) && Ordered(es[1..], Clock(es[0], t))
  }

  function End(es: seq<Event>, t: Time): Time {
    if es == [] then t else End(es[1..], Clock(es[0], t))
  }

  /** Every bucket that the collector visits and that is newer than its clock value is full. */
  ghost predicate HarmlessAt(m: map<Source, Bucket>, e: Event, t: Time) {
    e.Collect? ==> forall s :: s in e.visits && s in m && e.now < m[s].last ==> LevelOf(m, s, t) == TOKEN_MAX
  }

  ghost predicate Harmless(m: map<Source, Bucket>, es: seq<Event>, t: Time)
    decreases |es|
  {
    es != [] ==> HarmlessAt(m, es[0], t) && Harmless(Next(m, es[0]), es[1..], Clock(es[0], t))
  }

  function Admitted(m: map<Source, Bucket>, es: seq<Event>, s: Source): nat
    decreases |es|
  {
    if es == [] then 0
    else (if Admits(m, es[0]) && es[0].s == s then 1 else 0) + Admitted(Next(m, es[0]), es[1..], s)
  }

  function Decisions(m: map<Source, Bucket>, es: seq<Event>): seq<bool>
    decreases |es|
  {
    if es == [] then [] else [Admits(m, es[0])] + Decisions(Next(m, es[0]), es[1..])
  }

  /** A bucket fills with time and no further than to the brim. */
  lemma {:induction false} LevelLater(b: Bucket, t: Time, u: Time)
    requires b.last <= t <= u && b.tokens <= TOKEN_MAX
    ensures Level(b, u) == Min(TOKEN_MAX, Level(b, t) + (u - t))
  {
  }

  lemma {:induction false} LevelOfLater(m: map<Source, Bucket>, s: Source, t: Time, u: Time)
    requires Ok(m, t) && t <= u
    ensures LevelOf(m, s, u) == Min(TOKEN_MAX, LevelOf(m, s, t) + (u - t))
  {
    hide Level;
    if s in m {
      LevelLater(m[s], t, u);
    }
  }

  lemma {:induction false} NextOk(m: map<Source, Bucket>, e: Event, t: Time)
    requires Ok(m, t) && (e.Packet? ==> t <= e.now)
    ensures Ok(Next(m, e), Clock(e, t))
  {
  }

  /** A packet costs its source the price if it is admitted, and no other source anything. */
  lemma {:induction false} PacketLevel(m: map<Source, Bucket>, e: Event, s: Source, t: Time)
    requires e.Packet? && Ok(m, t) && t <= e.now
    ensures LevelOf(Next(m, e), s, e.now)
      == LevelOf(m, s, e.now) - (if Admits(m, e) && e.s == s then PACKET_COST else 0)
  {
  }

  /** A visit of the collector changes no level if and only if it is harmless; it never lowers a level. */
  lemma {:induction false} CollectLevel(m: map<Source, Bucket>, e: Event, t: Time)
    requires e.Collect? && Ok(m, t) && e.now <= t
    ensures (forall s :: LevelOf(Next(m, e), s, t) == LevelOf(m, s, t))
      <==> HarmlessAt(m, e, t)
    ensures forall s :: LevelOf(Next(m, e), s, t) >= LevelOf(m, s, t)
  {
    forall s
      ensures LevelOf(Next(m, e), s, t) >= LevelOf(m, s, t)
      ensures s in e.visits && s in m && e.now < m[s].last ==> LevelOf(Next(m, e), s, t) == TOKEN_MAX
      ensures !(s in e.visits && s in m && e.now < m[s].last) ==> LevelOf(Next(m, e), s, t) == LevelOf(m, s, t)
    {
      if s in e.visits && s in m {
        IdleExactly(m[s], e.now);
        IdleIsFull(m[s], e.now, t);
        hide Level, Idle;
      }
    }
  }

  /** A second without packets fills a bucket. */
  lemma {:induction false} IdleIsFull(b: Bucket, now: Time, t: Time)
    requires b.tokens <= TOKEN_MAX
    ensures b.last <= now <= t && Idle(b, now) ==> Level(b, t) == TOKEN_MAX
  {
  }

  lemma {:induction false} StepLevel(m: map<Source, Bucket>, e: Event, s: Source, t: Time)
    requires Ok(m, t) && (if e.Packet? then t <= e.now else e.now <= t)
    ensures var u := Clock(e, t); var cost := if Admits(m, e) && e.s == s then PACKET_COST else 0;
      && LevelOf(Next(m, e), s, u) >= LevelOf(m, s, u) - cost
      && (HarmlessAt(m, e, t) ==> LevelOf(Next(m, e), s, u) == LevelOf(m, s, u) - cost)
  {
    hide LevelOf, Next;
    if e.Packet? {
      PacketLevel(m, e, s, t);
    } else {
      CollectLevel(m, e, t);
    }
  }

  /** What is admitted in a span of time is paid for by the level at its start and the time that passes. */
  lemma {:induction false} Paid(m: map<Source, Bucket>, es: seq<Event>, s: Source, t: Time)
    requires Ok(m, t) && Ordered(es, t) && Harmless(m, es, t)
    ensures t <= End(es, t)
    ensures PACKET_COST * Admitted(m, es, s) <= LevelOf(m, s, t) + (End(es, t) - t)
    decreases |es|
  {
    if es != [] {
      hide LevelOf, Next, Admits, Ok, HarmlessAt;
      var u := Clock(es[0], t);
      NextOk(m, es[0], t);
      LevelOfLater(m, s, t, u);
      StepLevel(m, es[0], s, t);
      Paid(Next(m, es[0]), es[1..], s, u);
    }
  }

  /** In any span of time in which the collector's visits are harmless, whether the table is full or not, a source
      has at most the burst and one packet for each PACKET_COST nanoseconds admitted. */
  lemma {:induction false} RateBound(m: map<Source, Bucket>, es: seq<Event>, s: Source, t: Time)
    requires Ok(m, t) && Ordered(es, t) && Harmless(m, es, t)
    ensures Admitted(m, es, s) <= PACKETS_BURSTABLE + (End(es, t) - t) / PACKET_COST
  {
    Paid(m, es, s, t);
  }

  // ---- a round that read the clock too early ----

  /** A bucket that is used after the collector read the clock, and before it is visited, is dropped, whatever its
      level; then its source starts afresh. */
  lemma {:induction false} StaleVisit(m: map<Source, Bucket>, e: Event, s: Source, t: Time)
    requires e.Collect? && Ok(m, t) && e.now <= t && s in e.visits && s in m && e.now < m[s].last
    ensures s !in Next(m, e) && LevelOf(Next(m, e), s, t) == TOKEN_MAX
  {
    IdleExactly(m[s], e.now);
  }

  /** A packet that is admitted, at the time of the one before it */
  lemma {:induction false} OneMore(s: Source, t: Time, x: nat, rest: seq<Event>)
    requires PACKET_COST <= x <= TOKEN_MAX
    ensures var es := [Packet(s, t, true)] + rest;
      && Admitted(map[s := Bucket(t, x)], es, s) == 1 + Admitted(map[s := Bucket(t, x - PACKET_COST)], rest, s)
      && (Ordered(rest, t) ==> Ordered(es, t)) && End(es, t) == End(rest, t)
  {
    var e, m := Packet(s, t, true), map[s := Bucket(t, x)];
    assert ([e] + rest)[1..] == rest;
    assert Next(m, e) == map[s := Bucket(t, x - PACKET_COST)];
  }

  /** A packet of a source without a bucket */
  lemma {:induction false} FirstOne(s: Source, t: Time, rest: seq<Event>)
    ensures var es := [Packet(s, t, true)] + rest;
      && Admitted(map[], es, s) == 1 + Admitted(map[s := Bucket(t, TOKEN_MAX - PACKET_COST)], rest, s)
      && (Ordered(rest, t) ==> Ordered(es, t)) && End(es, t) == End(rest, t)
  {
    assert ([Packet(s, t, true)] + rest)[1..] == rest;
  }

  lemma {:induction false} VisitTooLate(s: Source, now: Time, t: Time, rest: seq<Event>)
    requires now < t
    ensures var es := [Collect(now, {s})] + rest;
      && Admitted(map[s := Bucket(t, 0)], es, s) == Admitted(map[], rest, s)
      && (Ordered(rest, t) ==> Ordered(es, t)) && End(es, t) == End(rest, t)
  {
    var e, m := Collect(now, {s}), map[s := Bucket(t, 0)];
    assert ([e] + rest)[1..] == rest;
    StaleVisit(m, e, s, t);
    assert Next(m, e) == map[];
  }

  /** The bound fails: for every source and every two clock values there are six packets that are admitted at one
      moment, five before and one after a visit of the collector, which read the clock before them. */
  lemma {:induction false} SixAtOnce(s: Source, now: Time, t: Time) returns (es: seq<Event>)
    requires now < t
    ensures Ordered(es, t) && End(es, t) == t && Admitted(map[], es, s) == 6 && !Harmless(map[], es, t)
    ensures Admitted(map[], es, s) > PACKETS_BURSTABLE + (End(es, t) - t) / PACKET_COST
  {
    hide Admitted, Ordered, End, Harmless, Next, Admits;
    var p, c := Packet(s, t, true), Collect(now, {s});
    Nothing(s, t);
    FirstOne(s, t, []);
    VisitTooLate(s, now, t, [p] + []);
    var e0 := [c] + ([p] + []);
    OneMore(s, t, PACKET_COST, e0);
    OneMore(s, t, 2 * PACKET_COST, [p] + e0);
    OneMore(s, t, 3 * PACKET_COST, [p] + ([p] + e0));
    OneMore(s, t, 4 * PACKET_COST, [p] + ([p] + ([p] + e0)));
    FirstOne(s, t, [p] + ([p] + ([p] + ([p] + e0))));
    es := [p] + ([p] + ([p] + ([p] + ([p] + e0))));
    assert Admitted(map[], es, s) == 6;
    NoBuckets(t);
    if Harmless(map[], es, t) {
      RateBound(map[], es, s, t);
    }
  }

  lemma Nothing(s: Source, t: Time)
    ensures Ordered([], t) && End([], t) == t
    ensures Admitted(map[s := Bucket(t, TOKEN_MAX - PACKET_COST)], [], s) == 0
  {
  }

  lemma NoBuckets(t: Time)
    ensures Ok(map[], t)
  {
  }

  // ---- the collector is invisible ----

  /** The same packets with room for every source and without the collector */
  function Packets(es: seq<Event>): seq<Event> {
    if es == [] then []
    else (if es[0].Packet? then [es[0].(room := true)] else []) + Packets(es[1..])
  }

  /** The decisions about packets, without the collector's rounds */
  function Verdicts(m: map<Source, Bucket>, es: seq<Event>): seq<bool>
    decreases |es|
  {
    if es == [] then []
    else (if es[0].Packet? then [Admits(m, es[0])] else []) + Verdicts(Next(m, es[0]), es[1..])
  }

  /** No packet of a new source comes while the table is full. */
  ghost predicate Room(m: map<Source, Bucket>, es: seq<Event>)
    decreases |es|
  {
    es != [] ==> (es[0].Packet? && es[0].s !in m ==> es[0].room) && Room(Next(m, es[0]), es[1..])
  }

  ghost predicate Alike(m: map<Source, Bucket>, k: map<Source, Bucket>, t: Time) {
    Ok(m, t) && Ok(k, t) && forall s :: LevelOf(m, s, t) == LevelOf(k, s, t)
  }

  lemma {:induction false} StepAlike(m: map<Source, Bucket>, k: map<Source, Bucket>, e: Event, t: Time)
    requires Alike(m, k, t) && HarmlessAt(m, e, t) && (e.Packet? && e.s !in m ==> e.room)
    requires if e.Packet? then t <= e.now else e.now <= t
    ensures e.Packet? ==>
      && Alike(Next(m, e), Next(k, e.(room := true)), e.now)
      && Admits(m, e) == Admits(k, e.(room := true))
    ensures e.Collect? ==> Alike(Next(m, e), k, t)
  {
    hide LevelOf, Next, HarmlessAt;
    var u := Clock(e, t);
    NextOk(m, e, t);
    forall s
      ensures LevelOf(m, s, u) == LevelOf(k, s, u)
    {
      LevelOfLater(m, s, t, u);
      LevelOfLater(k, s, t, u);
    }
    if e.Packet? {
      var g := e.(room := true);
      NextOk(k, g, t);
      AdmitsByLevel(m, e);
      AdmitsByLevel(k, g);
      forall s
        ensures LevelOf(Next(m, e), s, u) == LevelOf(Next(k, g), s, u)
      {
        PacketLevel(m, e, s, t);
        PacketLevel(k, g, s, t);
      }
    } else {
      forall s
        ensures LevelOf(Next(m, e), s, u) == LevelOf(k, s, u)
      {
        StepLevel(m, e, s, t);
      }
    }
  }

  lemma {:induction false} AdmitsByLevel(m: map<Source, Bucket>, e: Event)
    requires e.Packet? && (e.s !in m ==> e.room)
    ensures Admits(m, e) <==> LevelOf(m, e.s, e.now) >= PACKET_COST
  {
  }

  /** As long as the table is not full, and the collector's visits are harmless, they change no decision: those are
      the ones of a limiter that keeps every bucket forever. */
  lemma {:induction false} CollectorInvisible(m: map<Source, Bucket>, k: map<Source, Bucket>, es: seq<Event>, t: Time)
    requires Alike(m, k, t) && Ordered(es, t) && Room(m, es) && Harmless(m, es, t)
    ensures Verdicts(m, es) == Decisions(k, Packets(es))
    decreases |es|
  {
    if es != [] {
      hide Alike, Next, Admits, HarmlessAt;
      var e, rest := es[0], es[1..];
      StepAlike(m, k, e, t);
      if e.Packet? {
        CollectorInvisible(Next(m, e), Next(k, e.(room := true)), rest, e.now);
        assert Packets(es)[1..] == Packets(rest);
      } else {
        CollectorInvisible(Next(m, e), k, rest, t);
        assert [] + Packets(rest) == Packets(rest) && [] + Verdicts(Next(m, e), rest) == Verdicts(Next(m, e), rest);
      }
    }
  }

  /** n packets of s at one moment */
  function Burst(s: Source, t: Time, n: nat): seq<Event> {
    if n == 0 then [] else [Packet(s, t, true)] + Burst(s, t, n - 1)
  }

  lemma {:induction false} BurstFits(s: Source, t: Time, n: nat)
    ensures Ordered(Burst(s, t, n), t) && Packets(Burst(s, t, n)) == Burst(s, t, n)
  {
    if n > 0 {
      BurstFits(s, t, n - 1);
      assert Burst(s, t, n)[1..] == Burst(s, t, n - 1);
    }
  }

  /** A packet that one of two limiters admits tells them apart. */
  lemma {:induction false} ToldAtOnce(m: map<Source, Bucket>, k: map<Source, Bucket>, e: Event, rest: seq<Event>)
    requires e.Packet? && (Admits(m, e) != Admits(k, e) || Verdicts(Next(m, e), rest) != Decisions(Next(k, e), rest))
    ensures Verdicts(m, [e] + rest) != Decisions(k, [e] + rest)
  {
    hide Next, Admits;
    var es := [e] + rest;
    assert es[1..] == rest;
    assert Verdicts(m, es)[0] == Admits(m, e) && Decisions(k, es)[0] == Admits(k, e);
    assert Verdicts(m, es)[1..] == Verdicts(Next(m, e), rest) && Decisions(k, es)[1..] == Decisions(Next(k, e), rest);
  }

  /** So does a burst as long as the lower of two levels admits, with one more packet. */
  lemma {:induction false} ToldApart(m: map<Source, Bucket>, k: map<Source, Bucket>, s: Source, t: Time)
    requires Ok(m, t) && Ok(k, t)
    requires LevelOf(m, s, t) / PACKET_COST > LevelOf(k, s, t) / PACKET_COST
    ensures var es := Burst(s, t, LevelOf(k, s, t) / PACKET_COST + 1);
      Verdicts(m, es) != Decisions(k, es)
    decreases LevelOf(k, s, t)
  {
    hide LevelOf, Next, Admits, Ok, Verdicts, Decisions;
    var n, e := LevelOf(k, s, t) / PACKET_COST, Packet(s, t, true);
    AdmitsByLevel(m, e);
    AdmitsByLevel(k, e);
    if n > 0 {
      NextOk(m, e, t);
      NextOk(k, e, t);
      PacketLevel(m, e, s, t);
      PacketLevel(k, e, s, t);
      OneFewer(LevelOf(m, s, t));
      OneFewer(LevelOf(k, s, t));
      ToldApart(Next(m, e), Next(k, e), s, t);
    }
    ToldAtOnce(m, k, e, Burst(s, t, n));
  }

  lemma OneFewer(x: nat)
    requires x / PACKET_COST > 0
    ensures x >= PACKET_COST && (x - PACKET_COST) / PACKET_COST == x / PACKET_COST - 1
  {
  }

  /** After any visit that is not harmless there are packets about which the limiters decide differently. */
  lemma {:induction false} CollectorVisible(m: map<Source, Bucket>, k: map<Source, Bucket>, e: Event, t: Time) returns (es: seq<Event>)
    requires Alike(m, k, t) && e.Collect? && e.now <= t && !HarmlessAt(m, e, t)
    ensures Ordered([e] + es, t) && Verdicts(m, [e] + es) != Decisions(k, Packets([e] + es))
  {
    var s :| s in e.visits && s in m && e.now < m[s].last && LevelOf(m, s, t) != TOKEN_MAX;
    StaleVisit(m, e, s, t);
    NextOk(m, e, t);
    assert LevelOf(m, s, t) == LevelOf(k, s, t) < TOKEN_MAX;
    hide LevelOf, Next, HarmlessAt;
    ToldApart(Next(m, e), k, s, t);
    var n := LevelOf(k, s, t) / PACKET_COST + 1;
    es := Burst(s, t, n);
    BurstFits(s, t, n);
    assert ([e] + es)[1..] == es;
    assert [] + Packets(es) == Packets(es) && [] + Verdicts(Next(m, e), es) == Verdicts(Next(m, e), es);
  }

  lemma NotOfOthers(m: map<Source, Bucket>, e: Event)
    ensures Admits(m, e) ==> e.Packet?
  {
  }

  /** The packets of s in es come at least PACKET_COST nanoseconds after since and after each other. */
  ghost predicate Spaced(es: seq<Event>, s: Source, since: int) {
    es != [] ==>
      if es[0].Packet? && es[0].s == s
      then since + PACKET_COST <= es[0].now && Spaced(es[1..], s, es[0].now)
      else Spaced(es[1..], s, since)
  }

  function Sent(es: seq<Event>, s: Source): nat {
    if es == [] then 0 else (if es[0].Packet? && es[0].s == s then 1 else 0) + Sent(es[1..], s)
  }

  /** A source that keeps to the rate has every packet admitted, whatever the collector does. */
  lemma {:induction false} SteadySource(m: map<Source, Bucket>, es: seq<Event>, s: Source, since: int, t: Time)
    requires Ok(m, t) && Ordered(es, t) && Room(m, es) && Spaced(es, s, since)
    requires since <= t && LevelOf(m, s, t) >= Min(PACKET_COST, t - since)
    ensures Admitted(m, es, s) == Sent(es, s)
    decreases |es|
  {
    if es != [] {
      hide LevelOf, Next, Admits, Ok, HarmlessAt;
      var e := es[0];
      var u := Clock(e, t);
      NextOk(m, e, t);
      LevelOfLater(m, s, t, u);
      StepLevel(m, e, s, t);
      if e.Packet? && e.s == s {
        AdmitsByLevel(m, e);
        SteadySource(Next(m, e), es[1..], s, u, u);
      } else {
        NotOfOthers(m, e);
        SteadySource(Next(m, e), es[1..], s, since, u);
      }
    }
  }

  // ---- the table ----

  datatype Entry = Entry(s: Source, b: Bucket)

  /** The number of chains and the hash that picks one; the chains of table_v6 come behind those of table_v4. */
  datatype Hashing = Hashing(size: nat, hash: Source -> nat) {
    function Slot(s: Source): (k: nat)
      requires size > 0
      ensures k < 2 * size
    {
      (if s.v6 then size else 0) + hash(s) % size
    }
  }

  /** Chain number k holds the buckets of the sources that hash to it, each once. */
  ghost predicate ChainIs(chain: seq<Entry>, k: nat, g: Hashing, m: map<Source, Bucket>)
    requires g.size > 0
  {
    && (forall i, j :: 0 <= i < j < |chain| ==> chain[i].s != chain[j].s)
    && (forall e :: e in chain <==> e.s in m && m[e.s] == e.b && g.Slot(e.s) == k)
  }

  lemma {:induction false} ReplaceOk(chain: seq<Entry>, k: nat, g: Hashing, m: map<Source, Bucket>, i: nat, b: Bucket)
    requires g.size > 0 && ChainIs(chain, k, g, m) && i < |chain|
    ensures ChainIs(chain[i := Entry(chain[i].s, b)], k, g, m[chain[i].s := b])
  {
    hide Hashing.Slot;
    var s := chain[i].s;
    var now, n := chain[i := Entry(s, b)], m[s := b];
    assert chain[i] in chain;
    forall e
      ensures e in now <==> e.s in n && n[e.s] == e.b && g.Slot(e.s) == k
    {
      if e in now {
        var j :| 0 <= j < |now| && now[j] == e;
        assert j != i ==> e == chain[j] && e in chain;
      }
      if e.s in n && n[e.s] == e.b && g.Slot(e.s) == k {
        if e.s == s {
          assert now[i] == e;
        } else {
          var j :| 0 <= j < |chain| && chain[j] == e;
          assert now[j] == e;
        }
      }
    }
  }

  lemma {:induction false} HeadOk(chain: seq<Entry>, k: nat, g: Hashing, m: map<Source, Bucket>, s: Source, b: Bucket)
    requires g.size > 0 && ChainIs(chain, k, g, m) && s !in m && g.Slot(s) == k
    ensures ChainIs([Entry(s, b)] + chain, k, g, m[s := b])
  {
    hide Hashing.Slot;
    assert forall e :: e in [Entry(s, b)] + chain <==> e == Entry(s, b) || e in chain;
    assert forall i :: 0 <= i < |chain| ==> chain[i] in chain;
  }

  lemma {:induction false} CutOk(chain: seq<Entry>, k: nat, g: Hashing, m: map<Source, Bucket>, i: nat)
    requires g.size > 0 && ChainIs(chain, k, g, m) && i < |chain|
    ensures chain[i].s in m && ChainIs(chain[..i] + chain[i + 1..], k, g, m - {chain[i].s})
  {
    hide Hashing.Slot;
    var now := chain[..i] + chain[i + 1..];
    assert chain[i] in chain;
    forall e
      ensures e in now <==> e in chain && e.s != chain[i].s
    {
      if e in chain && e.s != chain[i].s {
        var j :| 0 <= j < |chain| && chain[j] == e;
        assert now[if j < i then j else j - 1] == e;
      }
    }
  }

  lemma {:induction false} OtherOk(chain: seq<Entry>, k: nat, g: Hashing, m: map<Source, Bucket>, n: map<Source, Bucket>, s: Source)
    requires g.size > 0 && ChainIs(chain, k, g, m) && g.Slot(s) != k
    requires m - {s} == n - {s}
    ensures ChainIs(chain, k, g, n)
  {
    hide Hashing.Slot;
    forall e: Entry | g.Slot(e.s) == k
      ensures e.s in m <==> e.s in n
      ensures e.s in m ==> m[e.s] == n[e.s]
    {
      assert e.s in m - {s} <==> e.s in n - {s};
      assert e.s in m ==> (m - {s})[e.s] == (n - {s})[e.s];
    }
  }

  /** Where a source is in a chain, or the length of the chain */
  method Search(chain: seq<Entry>, s: Source) returns (i: nat)
    ensures i <= |chain| && (i < |chain| ==> chain[i].s == s)
    ensures forall j :: 0 <= j < i ==> chain[j].s != s
  {
    i := 0;
    while i < |chain| && chain[i].s != s
      invariant i <= |chain| && forall j :: 0 <= j < i ==> chain[j].s != s
    {
      i := i + 1;
    }
  }

  class Limiter {
    const g: Hashing
    const table: array<seq<Entry>>
    /** total_entries: those in the table and those that wait to be freed */
    var total: nat
    /** how many were handed to call_rcu */
    var waiting: nat
    ghost var entries: map<Source, Bucket>

    function MaxEntries(): nat {
      8 * g.size
    }

    ghost predicate Chains()
      reads this`entries, table
    {
      && g.size > 0 && table.Length == 2 * g.size
      && forall k :: 0 <= k < table.Length ==> ChainIs(table[k], k, g, entries)
    }

    ghost predicate Valid()
      reads this, table
    {
      Chains() && total == |entries| + waiting <= MaxEntries()
    }

    /** wg_ratelimiter_init */
    constructor (size: nat, hash: Source -> nat)
      requires size > 0
      ensures Valid() && g == Hashing(size, hash) && entries == map[] && fresh(table)
    {
      g, total, waiting, entries := Hashing(size, hash), 0, 0, map[];
      table := new seq<Entry>[2 * size](_ => []);
    }

    /** One chain changes with the entry of one of its sources. */
    method SetChain(k: nat, chain: seq<Entry>, ghost s: Source, ghost now: map<Source, Bucket>)
      requires Chains() && k < table.Length && g.Slot(s) == k
      requires ChainIs(chain, k, g, now) && entries - {s} == now - {s}
      modifies this`entries, table
      ensures Chains() && entries == now && table[k] == chain
      ensures forall j :: 0 <= j < table.Length && j != k ==> table[j] == old(table[j])
    {
      forall j | 0 <= j < table.Length && j != k
        ensures ChainIs(table[j], j, g, now)
      {
        OtherOk(table[j], j, g, entries, now, s);
      }
      hide ChainIs;
      table[k] := chain;
      entries := now;
    }

    /** A bucket in place */
    method Refresh(k: nat, i: nat, b: Bucket)
      requires Valid() && k < table.Length && i < |table[k]|
      modifies this`entries, table
      ensures Valid() && entries == old(entries)[old(table[k][i].s) := b]
    {
      var s := table[k][i].s;
      ReplaceOk(table[k], k, g, entries, i, b);
      assert table[k][i] in table[k] && s in entries && g.Slot(s) == k;
      hide ChainIs;
      ghost var now := entries[s := b];
      assert now.Keys == entries.Keys && now - {s} == entries - {s};
      SetChain(k, table[k][i := Entry(s, b)], s, now);
    }

    /** hlist_add_head_rcu */
    method AddHead(k: nat, s: Source, b: Bucket)
      requires Valid() && s !in entries && k == g.Slot(s) && total < MaxEntries()
      modifies this`entries, this`total, table
      ensures Valid() && entries == old(entries)[s := b]
    {
      HeadOk(table[k], k, g, entries, s, b);
      hide ChainIs;
      ghost var now := entries[s := b];
      assert now - {s} == entries - {s};
      total := total + 1;
      SetChain(k, [Entry(s, b)] + table[k], s, now);
    }

    /** entry_uninit */
    method Unlink(k: nat, i: nat)
      requires Valid() && k < table.Length && i < |table[k]|
      modifies this`entries, this`waiting, table
      ensures Valid() && entries == old(entries) - {old(table[k][i].s)}
      ensures table[k] == old(table[k])[..i] + old(table[k])[i + 1..]
      ensures forall j :: 0 <= j < table.Length && j != k ==> table[j] == old(table[j])
    {
      var s := table[k][i].s;
      CutOk(table[k], k, g, entries, i);
      assert table[k][i] in table[k] && g.Slot(s) == k;
      hide ChainIs;
      ghost var now := entries - {s};
      assert now - {s} == entries - {s};
      assert |now| == |entries| - 1 by { OneLess(entries, s); }
      waiting := waiting + 1;
      SetChain(k, table[k][..i] + table[k][i + 1..], s, now);
    }

    /** entry_free, when the readers of an entry that was taken out have gone */
    method Freed()
      requires Valid() && waiting > 0
      modifies this`total, this`waiting
      ensures Valid() && waiting == old(waiting) - 1 && total == old(total) - 1
    {
      total, waiting := total - 1, waiting - 1;
    }

    /** wg_ratelimiter_allow; alloc tells whether kmem_cache_alloc succeeds. */
    method Allow(s: Source, now: Time, alloc: bool) returns (r: bool)
      requires Valid() && Ok(entries, now)
      modifies this, table
      ensures Valid() && Ok(entries, now) && waiting == old(waiting)
      ensures var e := Packet(s, now, alloc && old(total) < MaxEntries());
        entries == Next(old(entries), e) && r == Admits(old(entries), e)
    {
      ghost var e := Packet(s, now, alloc && total < MaxEntries());
      NextOk(entries, e, now);
      var k := g.hash(s) % g.size;
      if s.v6 {
        k := g.size + k;
      }
      var i := Search(table[k], s);
      Found(table[k], k, g, entries, s, i);
      hide Ok, ChainIs, Hashing.Slot;
      if i < |table[k]| {
        var b := table[k][i].b;
        var tokens := Min(TOKEN_MAX, (b.tokens + now - b.last) % U64);
        r := tokens >= PACKET_COST;
        Refresh(k, i, Bucket(now, if r then tokens - PACKET_COST else tokens));
        return;
      }
      if total + 1 > g.size * 8 || !alloc {
        return false;
      }
      AddHead(k, s, Bucket(now, TOKEN_MAX - PACKET_COST));
      r := true;
    }

    /** The sources whose chain is k */
    ghost function Hashed(k: nat): set<Source>
      requires g.size > 0
      reads this`entries
    {
      set s | s in entries && g.Slot(s) == k
    }

    /** The walk over one chain: those that are idle go, or all. */
    method CollectChain(k: nat, now: Time, all: bool)
      requires Valid() && k < table.Length
      modifies this`entries, this`waiting, table
      ensures Valid() && Swept(old(entries), entries, now, all)
      ensures forall s :: s in entries && g.Slot(s) == k ==> !all && !Idle(entries[s], now)
      ensures forall s :: s in old(entries) && s !in entries ==> g.Slot(s) == k
      ensures !all ==> entries == Next(old(entries), Event.Collect(now, old(Hashed(k))))
    {
      hide ChainIs, Hashing.Slot, Idle;
      ghost var was := entries;
      var i := 0;
      while i < |table[k]|
        invariant Valid() && Swept(was, entries, now, all) && i <= |table[k]|
        invariant forall s :: s in was && s !in entries ==> g.Slot(s) == k
        invariant Kept(table[k][..i], now, all)
        decreases |table[k]| - i
      {
        InChain(table[k], k, g, entries, i);
        if all || Idle(table[k][i].b, now) {
          ghost var chain := table[k];
          Unlink(k, i);
          assert table[k][..i] == chain[..i];
        } else {
          assert table[k][..i + 1] == table[k][..i] + [table[k][i]];
          i := i + 1;
        }
      }
      forall s | s in entries && g.Slot(s) == k
        ensures !all && !Idle(entries[s], now)
      {
        var j := Position(table[k], k, g, entries, s);
        assert table[k][..i][j] == table[k][j];
      }
    }

    /** A visit to a chain, if there is one with this number */
    method VisitChain(k: nat, now: Time) returns (ghost e: Event)
      requires Valid()
      modifies this`entries, this`waiting, table
      ensures Valid() && e.Collect? && e.now == now && entries == Next(old(entries), e)
    {
      if k < table.Length {
        e := Event.Collect(now, Hashed(k));
        CollectChain(k, now, false);
      } else {
        e := Event.Collect(now, {});
      }
    }

    /** wg_ratelimiter_gc_entries with nothing in between; without work it takes out everything. */
    method Collect(now: Time, work: bool)
      requires Valid()
      modifies this`entries, this`waiting, table
      ensures Valid()
      ensures entries == if work then Next(old(entries), Event.Collect(now, old(entries.Keys))) else map[]
    {
      hide ChainIs, Hashing.Slot, Idle;
      ghost var was := entries;
      for i := 0 to g.size
        invariant Valid() && Swept(was, entries, now, !work)
        invariant forall s :: s in entries && Done(g, s, i) ==> work && !Idle(entries[s], now)
      {
        CollectChain(i, now, !work);
        CollectChain(g.size + i, now, !work);
        DoneNext(g, i);
      }
      DoneAll(g);
    }
  }

  /** What may happen to the entries during a round: some of those to be taken out are gone. */
  ghost predicate Swept(was: map<Source, Bucket>, now: map<Source, Bucket>, t: Time, all: bool) {
    && (forall s :: s in now ==> s in was && now[s] == was[s])
    && (forall s :: s in was && s !in now ==> all || Idle(was[s], t))
  }

  ghost predicate Kept(chain: seq<Entry>, t: Time, all: bool) {
    forall j :: 0 <= j < |chain| ==> !all && !Idle(chain[j].b, t)
  }

  /** The chains of s are among the first i of both tables. */
  ghost predicate Done(g: Hashing, s: Source, i: nat)
    requires g.size > 0
  {
    g.Slot(s) < i || g.size <= g.Slot(s) < g.size + i
  }

  lemma DoneNext(g: Hashing, i: nat)
    requires 0 <= i < g.size
    ensures forall s :: Done(g, s, i + 1) ==> Done(g, s, i) || g.Slot(s) == i || g.Slot(s) == g.size + i
  {
  }

  lemma DoneAll(g: Hashing)
    requires g.size > 0
    ensures forall s :: Done(g, s, g.size)
  {
  }

  lemma {:induction false} InChain(chain: seq<Entry>, k: nat, g: Hashing, m: map<Source, Bucket>, i: nat)
    requires g.size > 0 && ChainIs(chain, k, g, m) && i < |chain|
    ensures chain[i].s in m && m[chain[i].s] == chain[i].b && g.Slot(chain[i].s) == k
  {
    assert chain[i] in chain;
  }

  lemma {:induction false} Position(chain: seq<Entry>, k: nat, g: Hashing, m: map<Source, Bucket>, s: Source)
    returns (i: nat)
    requires g.size > 0 && ChainIs(chain, k, g, m) && s in m && g.Slot(s) == k
    ensures i < |chain| && chain[i] == Entry(s, m[s])
  {
    assert Entry(s, m[s]) in chain;
    i :| 0 <= i < |chain| && chain[i] == Entry(s, m[s]);
  }

  lemma {:induction false} Found(chain: seq<Entry>, k: nat, g: Hashing, m: map<Source, Bucket>, s: Source, i: nat)
    requires g.size > 0 && ChainIs(chain, k, g, m) && g.Slot(s) == k
    requires i <= |chain| && (i < |chain| ==> chain[i].s == s) && (forall j :: 0 <= j < i ==> chain[j].s != s)
    ensures i < |chain| <==> s in m
    ensures i < |chain| ==> chain[i].b == m[s]
  {
    hide Hashing.Slot;
    if i < |chain| {
      InChain(chain, k, g, m, i);
    } else if s in m {
      var j := Position(chain, k, g, m, s);
    }
  }

  lemma {:induction false} OneLess(m: map<Source, Bucket>, s: Source)
    requires s in m
    ensures |m - {s}| == |m| - 1
  {
    var n := m - {s};
    assert n.Keys == m.Keys - {s};
    assert |n| == |n.Keys| && |m| == |m.Keys|;
  }

  // ---- runs ----

  /** A packet, a visit of the collector to chain k, or the end of the wait of an entry that was taken out */
  datatype Call = Allowing(s: Source, now: Time, alloc: bool) | Visiting(k: nat, now: Time) | Freeing

  /** The events that calls amount to, apart from whether there was room and whom a visit found */
  ghost predicate Matches(cs: seq<Call>, es: seq<Event>)
    decreases |cs|
  {
    if cs == [] then es == []
    else
      var c := cs[0];
      match c
      case Freeing => Matches(cs[1..], es)
      case Allowing(s, now, _) => es != [] && es[0].Packet? && es[0].s == s && es[0].now == now && Matches(cs[1..], es[1..])
      case Visiting(_, now) => es != [] && es[0].Collect? && es[0].now == now && Matches(cs[1..], es[1..])
  }

  ghost predicate InOrder(cs: seq<Call>, t: Time) {
    cs != [] ==>
      match cs[0]
      case Freeing => InOrder(cs[1..], t)
      case Allowing(_, now, _) => t <= now && InOrder(cs[1..], now)
      case Visiting(_, now) => now <= t && InOrder(cs[1..], t)
  }

  /** Any run of calls: its decisions, and the bound on them */
  method Run(l: Limiter, cs: seq<Call>, t: Time) returns (verdicts: seq<bool>, ghost es: seq<Event>)
    requires l.Valid() && Ok(l.entries, t) && InOrder(cs, t)
    modifies l, l.table
    ensures l.Valid() && Matches(cs, es) && Ordered(es, t) && verdicts == Decisions(old(l.entries), es)
    ensures Harmless(old(l.entries), es, t) ==>
      forall s :: Admitted(old(l.entries), es, s) <= PACKETS_BURSTABLE + (End(es, t) - t) / PACKET_COST
    decreases |cs|, 1
  {
    ghost var was := l.entries;
    if cs == [] {
      verdicts, es := [], [];
    } else {
      verdicts, es := RunOn(l, cs, t);
    }
    if Harmless(was, es, t) {
      forall s {
        RateBound(was, es, s, t);
      }
    }
  }

  method RunOn(l: Limiter, cs: seq<Call>, t: Time) returns (verdicts: seq<bool>, ghost es: seq<Event>)
    requires l.Valid() && Ok(l.entries, t) && InOrder(cs, t) && cs != []
    modifies l, l.table
    ensures l.Valid() && Matches(cs, es) && Ordered(es, t) && verdicts == Decisions(old(l.entries), es)
    decreases |cs|, 0
  {
    hide Limiter.Valid, Ok, Next, Admits, Limiter.MaxEntries;
    ghost var was := l.entries;
    var c := cs[0];
    match c
    case Freeing =>
      if l.waiting > 0 {
        l.Freed();
      }
      verdicts, es := Run(l, cs[1..], t);
    case Allowing(s, now, alloc) =>
      OkLater(l.entries, t, now);
      ghost var e := Packet(s, now, alloc && l.total < l.MaxEntries());
      var r := l.Allow(s, now, alloc);
      verdicts, es := Run(l, cs[1..], now);
      verdicts, es := [r] + verdicts, [e] + es;
    case Visiting(k, now) =>
      ghost var e := l.VisitChain(k, now);
      NextOk(was, e, t);
      NotOfOthers(was, e);
      verdicts, es := Run(l, cs[1..], t);
      verdicts, es := [false] + verdicts, [e] + es;
  }

  lemma OkLater(m: map<Source, Bucket>, t: Time, u: Time)
    requires Ok(m, t) && t <= u
    ensures Ok(m, u)
  {
  }
}
