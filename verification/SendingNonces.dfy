/** How wg_packet_send_staged_packets gives nonces to packets: any number of
    callers for one keypair, whose atomic increments of the sending counter
    interleave. */
module SendingNonces {
  import opened Wrappers

  const TWO_64: nat := 0x1_0000_0000_0000_0000
  const REJECT_AFTER_MESSAGES: nat := TWO_64 - 1 - 8128 - 1

  /** A caller between its test of is_valid and its end: it has nonces for some of its packets and left packets
      to go, or it has met the limit and is about to clear is_valid. */
  datatype Caller = Out | Assigning(left: nat, got: seq<nat>) | Failing

  /** increments counts the increments; the counter is that number modulo 2^64. sent are the nonces of the
      packets handed on for encryption. */
  datatype State = State(increments: nat, valid: bool, callers: map<nat, Caller>, sent: seq<nat>)

  function Init(): State {
    State(0, true, map[], [])
  }

  function CallerAt(s: State, c: nat): Caller {
    if c in s.callers then s.callers[c] else Out
  }

  /** Begin: the keypair is valid and there are packets staged; Expire: something else clears is_valid. */
  datatype Action = Begin(c: nat, packets: nat) | Assign(c: nat) | Invalidate(c: nat) | Expire

  ghost function Active(s: State): set<nat> {
    set c | c in s.callers && s.callers[c] != Out
  }

  ghost function Assigners(s: State): set<nat> {
    set c | c in s.callers && s.callers[c].Assigning?
  }

  ghost function Failers(s: State): set<nat> {
    set c | c in s.callers && s.callers[c].Failing?
  }

  /** At most limit callers are active at a time. */
  ghost predicate Enabled(s: State, a: Action, limit: nat) {
    match a
    case Begin(c, packets) => CallerAt(s, c) == Out && s.valid && packets > 0 && |Active(s)| < limit
    case Assign(c) => CallerAt(s, c).Assigning?
    case Invalidate(c) => CallerAt(s, c).Failing?
    case Expire => true
  }

  function Set(s: State, c: nat, x: Caller): State {
    s.(callers := s.callers[c := x])
  }

  /** atomic64_inc_return(&keypair->sending_counter) - 1, and what follows */
  function AssignStep(s: State, c: nat): State {
    match CallerAt(s, c)
    case Assigning(left, got) =>
      var nonce := s.increments % TWO_64;
      var t := s.(increments := s.increments + 1);
      if nonce >= REJECT_AFTER_MESSAGES then Set(t, c, Failing)
      else if left <= 1 then Set(t.(sent := t.sent + got + [nonce]), c, Out)
      else Set(t, c, Assigning(left - 1, got + [nonce]))
    case _ => s
  }

  function Apply(s: State, a: Action): State {
    match a
    case Begin(c, packets) => Set(s, c, Assigning(packets, []))
    case Assign(c) => AssignStep(s, c)
    case Invalidate(c) => Set(s.(valid := false), c, Out)
    case Expire => s.(valid := false)
  }

  ghost predicate Possible(s: State, run: seq<Action>, limit: nat)
    decreases |run|
  {
    run == [] || (Enabled(s, run[0], limit) && Possible(Apply(s, run[0]), run[1..], limit))
  }

  function After(s: State, run: seq<Action>): State
    decreases |run|
  {
    if run == [] then s else After(Apply(s, run[0]), run[1..])
  }

  // ---- how far past the limit the counter can get ----

  function Over(s: State): nat {
    if s.increments > REJECT_AFTER_MESSAGES then s.increments - REJECT_AFTER_MESSAGES else 0
  }

  ghost predicate OverOk(s: State, limit: nat) {
    && |Assigners(s)| + |Failers(s)| <= limit
    && (s.valid ==> Over(s) == |Failers(s)|)
    && (!s.valid ==> Over(s) + |Assigners(s)| <= limit)
  }

  // ---- whose the nonces are ----

  ghost predicate Mine(s: State, got: seq<nat>) {
    Distinct(got) && forall x :: x in got ==> x < s.increments && x < REJECT_AFTER_MESSAGES && x !in s.sent
  }

  ghost predicate Apart(a: seq<nat>, b: seq<nat>) {
    forall x :: x in a ==> x !in b
  }

  ghost predicate NoncesOk(s: State) {
    && Distinct(s.sent) && (forall x :: x in s.sent ==> x < s.increments && x < REJECT_AFTER_MESSAGES)
    && (forall c :: c in s.callers && s.callers[c].Assigning? ==> Mine(s, s.callers[c].got))
    && (forall c, d :: c in s.callers && d in s.callers && c != d && s.callers[c].Assigning? && s.callers[d].Assigning? ==>
          Apart(s.callers[c].got, s.callers[d].got))
  }

  ghost predicate Inv(s: State, limit: nat) {
    OverOk(s, limit) && NoncesOk(s)
  }

  lemma {:induction false} SizeBut(a: set<nat>, b: set<nat>, c: nat)
    requires a - {c} == b - {c}
    ensures |a| + (if c in b then 1 else 0) == |b| + (if c in a then 1 else 0)
  {
    assert |a - {c}| == |a| - if c in a then 1 else 0;
    assert |b - {c}| == |b| - if c in b then 1 else 0;
  }

  lemma {:induction false} SetSizes(s: State, c: nat, x: Caller)
    ensures var t := Set(s, c, x);
      && |Assigners(t)| == |Assigners(s)| + (if x.Assigning? then 1 else 0) - (if CallerAt(s, c).Assigning? then 1 else 0)
      && |Failers(t)| == |Failers(s)| + (if x.Failing? then 1 else 0) - (if CallerAt(s, c).Failing? then 1 else 0)
  {
    var t := Set(s, c, x);
    assert Assigners(t) - {c} == Assigners(s) - {c};
    assert Failers(t) - {c} == Failers(s) - {c};
    SizeBut(Assigners(t), Assigners(s), c);
    SizeBut(Failers(t), Failers(s), c);
  }

  lemma {:induction false} ActiveSize(s: State)
    ensures |Active(s)| == |Assigners(s)| + |Failers(s)|
  {
    assert Active(s) == Assigners(s) + Failers(s);
    assert Assigners(s) * Failers(s) == {};
  }

  /** Below 2^64 increments the counter has not gone around. */
  lemma {:induction false} NoWrap(s: State, c: nat, limit: nat)
    requires OverOk(s, limit) && CallerAt(s, c).Assigning? && limit <= TWO_64 - REJECT_AFTER_MESSAGES
    ensures s.increments < TWO_64
  {
    assert c in Assigners(s);
  }

  lemma SizesSame(s: State, t: State)
    requires s.callers == t.callers
    ensures Assigners(s) == Assigners(t) && Failers(s) == Failers(t)
  {
  }

  lemma {:induction false} OverKept(s: State, a: Action, limit: nat)
    requires OverOk(s, limit) && Enabled(s, a, limit) && limit <= TWO_64 - REJECT_AFTER_MESSAGES
    ensures OverOk(Apply(s, a), limit)
  {
    var t := Apply(s, a);
    match a
    case Begin(c, packets) =>
      ActiveSize(s);
      SetSizes(s, c, Assigning(packets, []));
    case Assign(c) =>
      NoWrap(s, c, limit);
      SetSizes(s, c, t.callers[c]);
      SizesSame(Set(s, c, t.callers[c]), t);
      assert s.increments % TWO_64 == s.increments;
      assert |Assigners(s)| > 0 by {
        assert c in Assigners(s);
      }
    case Invalidate(c) =>
      SetSizes(s, c, Out);
      SizesSame(Set(s, c, Out), t);
      assert c in Failers(s);
    case Expire => SizesSame(s, t);
  }

  lemma {:induction false} NoncesKept(s: State, a: Action, limit: nat)
    requires Inv(s, limit) && Enabled(s, a, limit) && limit <= TWO_64 - REJECT_AFTER_MESSAGES
    ensures NoncesOk(Apply(s, a))
  {
    if a.Assign? {
      NoWrap(s, a.c, limit);
      assert s.increments % TWO_64 == s.increments;
      AssignKept(s, a.c);
    }
  }

  lemma {:induction false} DistinctConcat(a: seq<nat>, b: seq<nat>)
    requires Distinct(a) && Distinct(b) && Apart(b, a)
    ensures Distinct(a + b)
  {
    var ab := a + b;
    forall i, j | 0 <= i < j < |ab|
      ensures ab[i] != ab[j]
    {
      if i < |a| <= j {
        assert ab[j] in b;
      }
    }
  }

  /** The nonces of everyone but c, when c is given another one */
  lemma {:induction false} OthersKept(s: State, c: nat, t: State, d: nat)
    requires NoncesOk(s) && CallerAt(s, c).Assigning? && d in s.callers && d != c && s.callers[d].Assigning?
    requires t.increments == s.increments + 1
    requires t.sent == s.sent || t.sent == s.sent + s.callers[c].got + [s.increments]
    ensures Mine(t, s.callers[d].got) && Apart(s.callers[d].got, s.callers[c].got + [s.increments])
    ensures Apart(s.callers[c].got + [s.increments], s.callers[d].got)
  {
    assert Mine(s, s.callers[d].got) && Mine(s, s.callers[c].got);
    assert Apart(s.callers[d].got, s.callers[c].got) && Apart(s.callers[c].got, s.callers[d].got);
    hide Distinct;
  }

  /** The nonces of c, with the new one */
  lemma {:induction false} OwnKept(s: State, c: nat)
    requires NoncesOk(s) && CallerAt(s, c).Assigning? && s.increments < REJECT_AFTER_MESSAGES
    ensures var got := s.callers[c].got + [s.increments];
      && Distinct(got) && Distinct(s.sent + got)
      && forall x :: x in got ==> x <= s.increments && x < REJECT_AFTER_MESSAGES && x !in s.sent
  {
    var got := s.callers[c].got;
    assert Mine(s, got);
    DistinctConcat(got, [s.increments]);
    DistinctConcat(s.sent, got + [s.increments]);
  }

  lemma {:induction false} AssignKept(s: State, c: nat)
    requires NoncesOk(s) && CallerAt(s, c).Assigning? && s.increments < TWO_64
    ensures NoncesOk(AssignStep(s, c))
  {
    var got, t := s.callers[c].got, AssignStep(s, c);
    assert s.increments % TWO_64 == s.increments;
    assert s.sent + got + [s.increments] == s.sent + (got + [s.increments]);
    if s.increments < REJECT_AFTER_MESSAGES {
      OwnKept(s, c);
    }
    forall d | d in t.callers && d != c && t.callers[d].Assigning?
      ensures Mine(t, t.callers[d].got)
      ensures t.callers[c].Assigning? ==> Apart(t.callers[c].got, t.callers[d].got) && Apart(t.callers[d].got, t.callers[c].got)
    {
      OthersKept(s, c, t, d);
    }
    hide Distinct;
  }

  lemma {:induction false} RunKeeps(s: State, run: seq<Action>, limit: nat)
    requires Inv(s, limit) && Possible(s, run, limit) && limit <= TWO_64 - REJECT_AFTER_MESSAGES
    ensures Inv(After(s, run), limit)
    decreases |run|
  {
    if run != [] {
      hide OverOk, NoncesOk, Enabled, Apply;
      OverKept(s, run[0], limit);
      NoncesKept(s, run[0], limit);
      RunKeeps(Apply(s, run[0]), run[1..], limit);
    }
  }

  /** With at most 8130 callers at a time no nonce is used twice and none reaches the limit. */
  lemma {:induction false} NoncesUnique(run: seq<Action>, limit: nat)
    requires Possible(Init(), run, limit) && limit <= TWO_64 - REJECT_AFTER_MESSAGES
    ensures var sent := After(Init(), run).sent;
      Distinct(sent) && forall x :: x in sent ==> x < REJECT_AFTER_MESSAGES
  {
    assert Assigners(Init()) == {} && Failers(Init()) == {};
    RunKeeps(Init(), run, limit);
  }

  /** How many packets the caller has last begun with */
  ghost function Asked(run: seq<Action>, c: nat): nat {
    if run == [] then 0
    else
      var a := run[|run| - 1];
      if a.Begin? && a.c == c then a.packets else Asked(run[..|run| - 1], c)
  }

  lemma {:induction false} PossiblePrefix(s: State, run: seq<Action>, a: Action, limit: nat)
    requires Possible(s, run + [a], limit)
    ensures Possible(s, run, limit) && Enabled(After(s, run), a, limit) && After(s, run + [a]) == Apply(After(s, run), a)
    decreases |run|
  {
    if run == [] {
      assert run + [a] == [a];
      hide Apply, Enabled;
      assert Possible(s, [a], limit) && [a][1..] == [];
    } else {
      hide Apply, Enabled;
      assert (run + [a])[0] == run[0] && (run + [a])[1..] == run[1..] + [a];
      PossiblePrefix(Apply(s, run[0]), run[1..], a, limit);
    }
  }

  /** A caller that is assigning has a nonce for every packet it began with but those left. */
  lemma {:induction false} NonceEach(run: seq<Action>, c: nat, limit: nat)
    requires Possible(Init(), run, limit)
    ensures var x := CallerAt(After(Init(), run), c);
      x.Assigning? ==> x.left > 0 && |x.got| + x.left == Asked(run, c)
    decreases |run|
  {
    if run != [] {
      var n := |run| - 1;
      assert run == run[..n] + [run[n]];
      PossiblePrefix(Init(), run[..n], run[n], limit);
      NonceEach(run[..n], c, limit);
      hide After, Possible;
    }
  }

  /** Packets are handed on a call at a time: all those that it began with, each with a nonce of its own. */
  lemma {:induction false} WholeCalls(run: seq<Action>, a: Action, limit: nat)
    requires Possible(Init(), run + [a], limit)
    ensures var s, t := After(Init(), run), After(Init(), run + [a]);
      && s.sent <= t.sent
      && (t.sent != s.sent ==> a.Assign? && |t.sent| == |s.sent| + Asked(run, a.c) && CallerAt(t, a.c) == Out)
      && (a.Assign? && CallerAt(t, a.c) == Out ==> |t.sent| == |s.sent| + Asked(run, a.c))
  {
    PossiblePrefix(Init(), run, a, limit);
    if a.Assign? {
      NonceEach(run, a.c, limit);
    }
    hide After, Possible, Asked;
  }

  // ---- with one more caller the counter can go around ----

  lemma {:induction false} RunConcat(s: State, a: seq<Action>, b: seq<Action>, limit: nat)
    requires Possible(s, a, limit) && Possible(After(s, a), b, limit)
    ensures Possible(s, a + b, limit) && After(s, a + b) == After(After(s, a), b)
    decreases |a|
  {
    if a == [] {
      assert a + b == b;
    } else {
      hide Enabled, Apply;
      assert (a + b)[1..] == a[1..] + b;
      RunConcat(Apply(s, a[0]), a[1..], b, limit);
    }
  }

  lemma RunOne(s: State, a: Action, limit: nat)
    requires Enabled(s, a, limit)
    ensures Possible(s, [a], limit) && After(s, [a]) == Apply(s, a)
  {
    hide Enabled, Apply;
  }

  /** One caller uses up k nonces, one packet at a time. */
  lemma {:induction false} UseUp(k: nat, limit: nat) returns (run: seq<Action>)
    requires k <= REJECT_AFTER_MESSAGES && limit > 0
    ensures Possible(Init(), run, limit)
    ensures var t := After(Init(), run);
      t.increments == k && t.valid && Active(t) == {} && (k > 0 ==> 0 in t.sent)
  {
    if k == 0 {
      run := [];
    } else {
      var before := UseUp(k - 1, limit);
      var s := After(Init(), before);
      hide Possible, After;
      var t := Apply(s, Begin(0, 1));
      assert Enabled(s, Begin(0, 1), limit) by {
        assert CallerAt(s, 0) == Out by {
          assert 0 !in Active(s);
        }
      }
      RunOne(s, Begin(0, 1), limit);
      RunOne(t, Assign(0), limit);
      RunConcat(s, [Begin(0, 1)], [Assign(0)], limit);
      RunConcat(Init(), before, [Begin(0, 1)] + [Assign(0)], limit);
      run := before + ([Begin(0, 1)] + [Assign(0)]);
      var u := Apply(t, Assign(0));
      assert s.increments % TWO_64 == s.increments;
      assert Active(u) == Active(s);
      assert u.sent == s.sent + [] + [s.increments];
    }
  }

  ghost predicate OneEach(s: State, lo: nat, hi: nat) {
    forall c :: lo <= c < hi ==> c in s.callers && s.callers[c] == Assigning(1, [])
  }

  lemma {:induction false} BeginOne(s: State, m: nat, limit: nat)
    requires s.valid && 1 <= m <= limit && OneEach(s, 1, m) && |Active(s)| == m - 1
    requires forall c :: c in Active(s) ==> 1 <= c < m
    ensures Enabled(s, Begin(m, 1), limit)
    ensures var t := Apply(s, Begin(m, 1));
      && t == s.(callers := t.callers) && OneEach(t, 1, m + 1) && Active(t) == Active(s) + {m} && m !in Active(s)
  {
    assert CallerAt(s, m) == Out by {
      assert m !in Active(s);
    }
  }

  /** Callers 1 to m begin, with a packet each. */
  lemma {:induction false} BeginMany(s: State, m: nat, limit: nat) returns (run: seq<Action>)
    requires s.valid && Active(s) == {} && m <= limit
    ensures Possible(s, run, limit)
    ensures var t := After(s, run);
      && t == s.(callers := t.callers) && OneEach(t, 1, m + 1) && |Active(t)| == m && (forall c :: c in Active(t) ==> 1 <= c <= m)
  {
    if m == 0 {
      run := [];
    } else {
      var before := BeginMany(s, m - 1, limit);
      var t := After(s, before);
      hide Possible, After, Apply, Enabled, OneEach, Active;
      BeginOne(t, m, limit);
      RunOne(t, Begin(m, 1), limit);
      RunConcat(s, before, [Begin(m, 1)], limit);
      run := before + [Begin(m, 1)];
    }
  }

  /** Callers 1 to m meet the limit, one after the other. */
  lemma {:induction false} FailMany(s: State, m: nat, n: nat, limit: nat) returns (run: seq<Action>)
    requires s.increments == REJECT_AFTER_MESSAGES && m <= n && m <= TWO_64 - REJECT_AFTER_MESSAGES && OneEach(s, 1, n + 1)
    ensures Possible(s, run, limit)
    ensures var t := After(s, run);
      t == s.(callers := t.callers, increments := REJECT_AFTER_MESSAGES + m) && OneEach(t, m + 1, n + 1)
  {
    if m == 0 {
      run := [];
    } else {
      var before := FailMany(s, m - 1, n, limit);
      var t := After(s, before);
      hide Possible, After;
      assert CallerAt(t, m) == Assigning(1, []);
      RunOne(t, Assign(m), limit);
      RunConcat(s, before, [Assign(m)], limit);
      run := before + [Assign(m)];
      assert t.increments % TWO_64 == t.increments;
    }
  }

  /** 8131 callers at a time are enough for a nonce to be used twice. */
  lemma {:induction false} NonceReused(limit: nat) returns (run: seq<Action>)
    requires limit > TWO_64 - REJECT_AFTER_MESSAGES
    ensures Possible(Init(), run, limit) && !Distinct(After(Init(), run).sent)
  {
    var n := TWO_64 - REJECT_AFTER_MESSAGES;
    var r1 := UseUp(REJECT_AFTER_MESSAGES, limit);
    var s1 := After(Init(), r1);
    var r2 := BeginMany(s1, n + 1, limit);
    var s2 := After(s1, r2);
    var r3 := FailMany(s2, n, n + 1, limit);
    var s3 := After(s2, r3);
    hide Possible, After;
    assert CallerAt(s3, n + 1) == Assigning(1, []) && s3.increments == TWO_64;
    RunOne(s3, Assign(n + 1), limit);
    RunConcat(s2, r3, [Assign(n + 1)], limit);
    RunConcat(s1, r2, r3 + [Assign(n + 1)], limit);
    RunConcat(Init(), r1, r2 + (r3 + [Assign(n + 1)]), limit);
    run := r1 + (r2 + (r3 + [Assign(n + 1)]));
    var t := Apply(s3, Assign(n + 1));
    var i :| 0 <= i < |s3.sent| && s3.sent[i] == 0;
    assert t.sent == s3.sent + [] + [0];
    assert t.sent[i] == t.sent[|s3.sent|];
  }
}
