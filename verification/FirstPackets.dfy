/** Packets of one source of handshake packets that come at the same time. The
    search for a bucket in wg_ratelimiter_allow and the insertion of a new one
    are different steps, and the insertion does not look again: several calls
    that have found nothing each insert a bucket, and only the last of these is
    found from then on. */
module FirstPackets {
  import opened Ratelimiter

  /** A call that has found no bucket, and one that has read the clock for a bucket of its own */
  datatype Caller = Missed | Stamped(now: Time)

  /** The source's buckets in the order of their chain, the calls under way and the clock; and what only this model
      keeps: how many packets were admitted, how many buckets were inserted in front of others, how many
      were inserted later than their own clock value, and how many at the front were collected with a clock value
      older than theirs. */
  datatype State = State(
    chain: seq<Bucket>, callers: map<nat, Caller>, clock: Time, admitted: nat, races: nat, late: nat, strays: nat)

  function Init(t: Time): State {
    State([], map[], t, 0, 0, 0, 0)
  }

  /** Look: a call looks for a bucket, and takes from the first one it finds. Stamp and Insert: a call that has found
      none makes one and links it; GiveUp: there is no room. Visit: the collector visits the chain. */
  datatype Action =
    | Look(c: nat, now: Time)
    | Stamp(c: nat, now: Time)
    | Insert(c: nat)
    | GiveUp(c: nat)
    | Visit(now: Time)

  predicate Enabled(s: State, a: Action) {
    match a
    case Look(c, now) => c !in s.callers && s.clock <= now
    case Stamp(c, now) => c in s.callers && s.callers[c].Missed? && s.clock <= now
    case Insert(c) => c in s.callers && s.callers[c].Stamped?
    case GiveUp(c) => c in s.callers
    case Visit(now) => now <= s.clock
  }

  function Kept(chain: seq<Bucket>, now: Time): (r: seq<Bucket>)
    ensures forall b :: b in r ==> b in chain
    ensures chain != [] && !Idle(chain[0], now) ==> r != [] && r[0] == chain[0]
  {
    if chain == [] then [] else (if Idle(chain[0], now) then [] else [chain[0]]) + Kept(chain[1..], now)
  }

  lemma {:induction false} KeptAre(chain: seq<Bucket>, now: Time)
    ensures forall b :: b in Kept(chain, now) <==> b in chain && !Idle(b, now)
  {
    if chain != [] {
      hide Idle;
      KeptAre(chain[1..], now);
    }
  }

  /** A visit takes the idle buckets of the source out, those in front and those behind. */
  lemma {:induction false} VisitTakes(s: State, now: Time)
    requires Enabled(s, Visit(now))
    ensures var t := Apply(s, Visit(now));
      && (forall b :: b in t.chain <==> b in s.chain && !Idle(b, now))
      && t.callers == s.callers && t.clock == s.clock && t.admitted == s.admitted
  {
    KeptAre(s.chain, now);
    hide Kept, Idle;
  }

  function LookStep(s: State, c: nat, now: Time): State {
    if s.chain == [] then s.(callers := s.callers[c := Missed], clock := now)
    else
      var level := Level(s.chain[0], now);
      s.(chain := s.chain[0 := Taken(level, now)], clock := now,
         admitted := if level >= PACKET_COST then s.admitted + 1 else s.admitted)
  }

  function InsertStep(s: State, c: nat): State
    requires Enabled(s, Insert(c))
  {
    var stamp := s.callers[c].now;
    s.(chain := [Bucket(stamp, TOKEN_MAX - PACKET_COST)] + s.chain, callers := s.callers - {c}, admitted := s.admitted + 1,
       races := if s.chain == [] then s.races else s.races + 1, late := if stamp < s.clock then s.late + 1 else s.late)
  }

  function VisitStep(s: State, now: Time): State {
    s.(chain := Kept(s.chain, now), strays := if s.chain != [] && now < s.chain[0].last then s.strays + 1 else s.strays)
  }

  function Apply(s: State, a: Action): State
    requires Enabled(s, a)
  {
    match a
    case Look(c, now) => LookStep(s, c, now)
    case Stamp(c, now) => s.(callers := s.callers[c := Stamped(now)], clock := now)
    case Insert(c) => InsertStep(s, c)
    case GiveUp(c) => s.(callers := s.callers - {c})
    case Visit(now) => VisitStep(s, now)
  }

  ghost predicate Possible(s: State, run: seq<Action>)
    decreases |run|
  {
    run == [] || (Enabled(s, run[0]) && Possible(Apply(s, run[0]), run[1..]))
  }

  ghost function After(s: State, run: seq<Action>): State
    requires Possible(s, run)
    decreases |run|
  {
    if run == [] then s else After(Apply(s, run[0]), run[1..])
  }

  // ---- what can be admitted ----

  /** What the source has to spend */
  function Credit(s: State): nat {
    if s.chain == [] then TOKEN_MAX else Level(s.chain[0], s.clock)
  }

  ghost predicate TimesOk(s: State) {
    && (forall b :: b in s.chain ==> b.last <= s.clock && b.tokens <= TOKEN_MAX)
    && (forall c :: c in s.callers && s.callers[c].Stamped? ==> s.callers[c].now <= s.clock)
  }

  ghost predicate Accounted(s: State, start: Time) {
    && start <= s.clock
    && PACKET_COST * s.admitted + Credit(s)
       <= TOKEN_MAX * (1 + s.races + s.strays) + PACKET_COST * s.late + (s.clock - start)
  }

  ghost predicate Inv(s: State, start: Time) {
    TimesOk(s) && Accounted(s, start)
  }

  lemma {:induction false} CreditLater(s: State, now: Time)
    requires TimesOk(s) && s.clock <= now
    ensures Credit(s.(clock := now)) <= Credit(s) + (now - s.clock)
  {
    if s.chain != [] {
      assert s.chain[0] in s.chain;
      LevelLater(s.chain[0], s.clock, now);
    }
  }

  lemma {:induction false} LookKeeps(s: State, c: nat, now: Time, start: Time)
    requires Inv(s, start) && Enabled(s, Look(c, now))
    ensures Inv(LookStep(s, c, now), start)
  {
    CreditLater(s, now);
    var t := LookStep(s, c, now);
    if s.chain != [] {
      var level := Level(s.chain[0], now);
      assert Level(Taken(level, now), now) == Taken(level, now).tokens by { TakenLevel(level, now); }
      hide Level;
      forall b | b in t.chain
        ensures b.last <= t.clock && b.tokens <= TOKEN_MAX
      {
        assert b == Taken(level, now) || b in s.chain;
      }
    }
  }

  lemma TakenLevel(level: nat, now: Time)
    requires level <= TOKEN_MAX
    ensures Level(Taken(level, now), now) == Taken(level, now).tokens
  {
  }

  lemma {:induction false} InsertKeeps(s: State, c: nat, start: Time)
    requires Inv(s, start) && Enabled(s, Insert(c))
    ensures Inv(InsertStep(s, c), start)
  {
    var stamp, t := s.callers[c].now, InsertStep(s, c);
    NewLevel(stamp, s.clock);
    hide Level;
    forall b | b in t.chain
      ensures b.last <= t.clock && b.tokens <= TOKEN_MAX
    {
      assert b == t.chain[0] || b in s.chain;
    }
  }

  lemma NewLevel(stamp: Time, clock: Time)
    requires stamp <= clock
    ensures Level(Bucket(stamp, TOKEN_MAX - PACKET_COST), clock) <= if stamp < clock then TOKEN_MAX else TOKEN_MAX - PACKET_COST
  {
  }

  lemma {:induction false} VisitKeeps(s: State, now: Time, start: Time)
    requires Inv(s, start) && Enabled(s, Visit(now))
    ensures Inv(VisitStep(s, now), start)
  {
    if s.chain != [] {
      assert s.chain[0] in s.chain;
      IdleIsFull(s.chain[0], now, s.clock);
    }
    hide Idle, Level;
    CreditBound(VisitStep(s, now));
  }

  lemma CreditBound(s: State)
    ensures Credit(s) <= TOKEN_MAX
  {
  }

  lemma {:induction false} StepKeeps(s: State, a: Action, start: Time)
    requires Inv(s, start) && Enabled(s, a)
    ensures Inv(Apply(s, a), start)
  {
    hide Level, LookStep, InsertStep, VisitStep;
    match a
    case Look(c, now) => LookKeeps(s, c, now, start);
    case Stamp(c, now) => CreditLater(s, now);
    case Insert(c) => InsertKeeps(s, c, start);
    case GiveUp(_) =>
    case Visit(now) => VisitKeeps(s, now, start);
  }

  lemma {:induction false} RunKeeps(s: State, run: seq<Action>, start: Time)
    requires Inv(s, start) && Possible(s, run)
    ensures Inv(After(s, run), start)
    decreases |run|
  {
    if run != [] {
      hide Inv, Apply, Enabled;
      StepKeeps(s, run[0], start);
      RunKeeps(Apply(s, run[0]), run[1..], start);
    }
  }

  /** What is counted: a packet admitted, a bucket inserted in front of another, one linked later than it was made, and
      one at the front collected with a clock value older than it */
  datatype Kind = Admission | InFront | LinkedLate | Stray

  ghost predicate Is(k: Kind, s: State, a: Action)
    requires Enabled(s, a)
  {
    match k
    case Admission => a.Insert? || (a.Look? && s.chain != [] && Level(s.chain[0], a.now) >= PACKET_COST)
    case InFront => a.Insert? && s.chain != []
    case LinkedLate => a.Insert? && s.callers[a.c].now < s.clock
    case Stray => a.Visit? && s.chain != [] && s.chain[0].last > a.now
  }

  ghost function Count(k: Kind, s: State, run: seq<Action>): nat
    requires Possible(s, run)
    decreases |run|
  {
    if run == [] then 0 else (if Is(k, s, run[0]) then 1 else 0) + Count(k, Apply(s, run[0]), run[1..])
  }

  /** The latest clock value that a call has read */
  ghost function Latest(t: Time, run: seq<Action>): Time
    decreases |run|
  {
    if run == [] then t else Latest(if run[0].Look? || run[0].Stamp? then run[0].now else t, run[1..])
  }

  lemma {:induction false} Counted(s: State, run: seq<Action>)
    requires Possible(s, run)
    ensures var t := After(s, run);
      && t.admitted == s.admitted + Count(Admission, s, run) && t.races == s.races + Count(InFront, s, run)
      && t.late == s.late + Count(LinkedLate, s, run) && t.strays == s.strays + Count(Stray, s, run)
      && t.clock == Latest(s.clock, run)
    decreases |run|
  {
    if run != [] {
      Counted(Apply(s, run[0]), run[1..]);
      hide Level, Kept;
    }
  }

  /** In every interleaving of any number of calls with the collector, no more packets are admitted than the burst,
      once more for every bucket inserted in front of another and for every one collected with a clock value
      older than it, one for every bucket that was linked later than it was made, and one for each PACKET_COST
      nanoseconds. */
  lemma {:induction false} RaceBound(t: Time, run: seq<Action>)
    requires Possible(Init(t), run)
    ensures var s := After(Init(t), run);
      s.admitted <= PACKETS_BURSTABLE * (1 + s.races + s.strays) + s.late + (s.clock - t) / PACKET_COST
    ensures var s, i := After(Init(t), run), Init(t);
      && s.admitted == Count(Admission, i, run) && s.races == Count(InFront, i, run)
      && s.late == Count(LinkedLate, i, run) && s.strays == Count(Stray, i, run) && s.clock == Latest(t, run)
  {
    RunKeeps(Init(t), run, t);
    Counted(Init(t), run);
    hide Possible, After, Count;
    var s := After(Init(t), run);
    Divided(s.admitted, 1 + s.races + s.strays, s.late, s.clock - t);
  }

  lemma Divided(admitted: nat, bursts: nat, late: nat, elapsed: nat)
    requires PACKET_COST * admitted <= TOKEN_MAX * bursts + PACKET_COST * late + elapsed
    ensures admitted <= PACKETS_BURSTABLE * bursts + late + elapsed / PACKET_COST
  {
  }

  // ---- and what is ----

  lemma {:induction false} Joined(s: State, a: seq<Action>, b: seq<Action>)
    requires Possible(s, a) && Possible(After(s, a), b)
    ensures Possible(s, a + b) && After(s, a + b) == After(After(s, a), b)
    decreases |a|
  {
    if a == [] {
      assert a + b == b;
    } else {
      hide Enabled, Apply;
      Joined(Apply(s, a[0]), a[1..], b);
      assert (a + b)[0] == a[0] && (a + b)[1..] == a[1..] + b;
    }
  }

  /** One step, and then a run */
  lemma Onward(s: State, a: Action, rest: seq<Action>)
    requires Enabled(s, a) && Possible(Apply(s, a), rest)
    ensures Possible(s, [a] + rest) && After(s, [a] + rest) == After(Apply(s, a), rest)
  {
    assert ([a] + rest)[1..] == rest;
  }

  function Looks(x: nat, t: Time, k: nat): seq<Action> {
    if k == 0 then [] else [Look(x, t)] + Looks(x, t, k - 1)
  }

  /** A bucket pays for as many packets as it has tokens for. */
  lemma {:induction false} Spend(s: State, x: nat, k: nat)
    requires x !in s.callers && s.chain != [] && s.chain[0] == Bucket(s.clock, PACKET_COST * k) && k <= 5
    ensures Possible(s, Looks(x, s.clock, k))
    ensures After(s, Looks(x, s.clock, k)) == s.(chain := s.chain[0 := Bucket(s.clock, 0)], admitted := s.admitted + k)
    decreases k
  {
    if k > 0 {
      var t := LookStep(s, x, s.clock);
      assert Level(s.chain[0], s.clock) == PACKET_COST * k;
      assert t == s.(chain := s.chain[0 := Bucket(s.clock, PACKET_COST * (k - 1))], admitted := s.admitted + 1);
      hide LookStep, Level;
      Spend(t, x, k - 1);
      Onward(s, Look(x, s.clock), Looks(x, s.clock, k - 1));
    } else {
      assert s.chain[0 := s.chain[0]] == s.chain;
    }
  }

  /** A call that has found nothing inserts its bucket, and the rest of that is spent. */
  lemma {:induction false} Round(s: State, c: nat, x: nat) returns (run: seq<Action>)
    requires c in s.callers && s.callers[c].Missed? && x !in s.callers
    ensures Possible(s, run)
    ensures After(s, run) == s.(chain := [Bucket(s.clock, 0)] + s.chain, callers := s.callers - {c},
      admitted := s.admitted + 5, races := if s.chain == [] then s.races else s.races + 1)
  {
    var s1 := Apply(s, Stamp(c, s.clock));
    var s2 := Apply(s1, Insert(c));
    assert s1.callers - {c} == s.callers - {c};
    assert s2 == s.(chain := [Bucket(s.clock, TOKEN_MAX - PACKET_COST)] + s.chain, callers := s.callers - {c},
      admitted := s.admitted + 1, races := if s.chain == [] then s.races else s.races + 1);
    var looks := Looks(x, s.clock, 4);
    Spend(s2, x, 4);
    hide Looks, Apply;
    Onward(s1, Insert(c), looks);
    Onward(s, Stamp(c, s.clock), [Insert(c)] + looks);
    run := [Stamp(c, s.clock)] + ([Insert(c)] + looks);
  }

  function AllMissed(n: nat): (m: map<nat, Caller>)
    ensures forall c: nat :: c in m <==> c < n
    ensures forall c :: c in m ==> m[c] == Missed
  {
    if n == 0 then map[] else AllMissed(n - 1)[n - 1 := Missed]
  }

  lemma {:induction false} MissTogether(t: Time, n: nat) returns (run: seq<Action>)
    ensures Possible(Init(t), run) && After(Init(t), run) == Init(t).(callers := AllMissed(n))
  {
    if n == 0 {
      run := [];
      assert AllMissed(0) == map[];
    } else {
      var before := MissTogether(t, n - 1);
      var s := Init(t).(callers := AllMissed(n - 1));
      assert AllMissed(n) == AllMissed(n - 1)[n - 1 := Missed];
      var look := [Look(n - 1, t)];
      var s' := Apply(s, look[0]);
      assert s' == Init(t).(callers := AllMissed(n));
      assert look[1..] == [] && Possible(s', []) && After(s', []) == s';
      Joined(Init(t), before, look);
      run := before + look;
    }
  }

  /** The calls that have found nothing go on one after the other. */
  lemma {:induction false} InsertInTurn(s: State, n: nat) returns (run: seq<Action>)
    requires s.callers == AllMissed(n)
    ensures Possible(s, run)
    ensures var r := After(s, run);
      && r.admitted == s.admitted + 5 * n && r.clock == s.clock && r.late == s.late && r.strays == s.strays
      && r.races == s.races + (if s.chain == [] && n > 0 then n - 1 else n)
    decreases n
  {
    if n == 0 {
      run := [];
    } else {
      var first := Round(s, n - 1, n);
      var s1 := After(s, first);
      assert AllMissed(n) - {n - 1} == AllMissed(n - 1);
      var rest := InsertInTurn(s1, n - 1);
      hide Possible, After;
      Joined(s, first, rest);
      run := first + rest;
    }
  }

  /** The bound is reached: for every n there is an interleaving in which n calls find nothing before any of them has
      inserted its bucket, and five times n packets are admitted at one moment. */
  lemma {:induction false} Reached(t: Time, n: nat) returns (run: seq<Action>)
    requires n > 0
    ensures Possible(Init(t), run)
    ensures var s := After(Init(t), run);
      && s.admitted == PACKETS_BURSTABLE * n && s.races == n - 1 && s.strays == 0 && s.late == 0 && s.clock == t
  {
    var first := MissTogether(t, n);
    var rest := InsertInTurn(Init(t).(callers := AllMissed(n)), n);
    hide Possible, After;
    Joined(Init(t), first, rest);
    run := first + rest;
  }

  // ---- calls one after the other ----

  /** No call looks for a bucket while another one is under way. */
  ghost predicate OneByOne(s: State, run: seq<Action>)
    requires Possible(s, run)
    decreases |run|
  {
    run != [] ==> (run[0].Look? ==> s.callers == map[]) && OneByOne(Apply(s, run[0]), run[1..])
  }

  /** Then no bucket is inserted in front of another. */
  lemma {:induction false} NoRaces(s: State, run: seq<Action>)
    requires Possible(s, run) && OneByOne(s, run)
    requires s.callers != map[] ==> s.chain == [] && exists c :: s.callers.Keys == {c}
    ensures After(s, run).races == s.races
    decreases |run|
  {
    if run != [] {
      var t := Apply(s, run[0]);
      OneCaller(s, run[0]);
      hide Apply, Enabled;
      NoRaces(t, run[1..]);
    }
  }

  lemma {:induction false} OneCaller(s: State, a: Action)
    requires Enabled(s, a) && (a.Look? ==> s.callers == map[])
    requires s.callers != map[] ==> s.chain == [] && exists c :: s.callers.Keys == {c}
    ensures var t := Apply(s, a);
      t.races == s.races && (t.callers != map[] ==> t.chain == [] && exists c :: t.callers.Keys == {c})
  {
    var t := Apply(s, a);
    match a
    case Look(c, now) => assert s.chain == [] ==> t.callers.Keys == {c};
    case Stamp(c, now) => assert t.callers.Keys == s.callers.Keys;
    case Insert(c) => assert t.callers == map[];
    case GiveUp(c) => assert t.callers == map[];
    case Visit(now) =>
  }
}
