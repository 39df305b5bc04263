/** The handshake of noise.c, Noise_IKpsk2: what each message does to the
    chaining key and the hash, in the hands of the one who writes it and of
    the one who reads it. The Diffie-Hellman function and the functions that
    BLAKE2s and ChaCha20 apply to their blocks are parameters; hash, key
    derivation and AEAD are those of this project. */
module NoiseHandshake {
  import opened Wrappers
  import opened Words
  import opened ChaCha20
  import Aead
  import Blake2s
  import Hmac
  import NoiseKdf
  import N = NoisePattern

  type Bytes = seq<byte>

  /** public and dh give None where curve25519 fails. */
  datatype Primitives = Primitives(
    public: Bytes -> Option<Bytes>, dh: (Bytes, Bytes) -> Option<Bytes>, compress: Blake2s.Compression,
    block: (Bytes, u64, u32) -> Bytes64)

  function Hash(p: Primitives, m: Bytes): Bytes {
    Blake2s.Unkeyed(p.compress)(m)
  }

  /** kdf, with the data first and the chaining key second */
  function Kdf(p: Primitives, data: Bytes, ck: Bytes): (Bytes, Bytes, Bytes) {
    NoiseKdf.Derived(Blake2s.Unkeyed(p.compress), data, ck)
  }

  /** wg_noise_init */
  function InitChainingKey(p: Primitives): Bytes {
    Hash(p, Hmac.Ascii("Noise_IKpsk2_25519_ChaChaPoly_BLAKE2s"))
  }

  function InitHash(p: Primitives): Bytes {
    Hash(p, InitChainingKey(p) + Hmac.Ascii("WireGuard v1 zx2c4 Jason@zx2c4.com"))
  }

  /** Both ends of a Diffie-Hellman get the same, or both fail. */
  ghost predicate Commutes(p: Primitives) {
    forall a, b :: p.public(a).Some? && p.public(b).Some? ==> p.dh(a, p.public(b).value) == p.dh(b, p.public(a).value)
  }

  /** The chaining key and the hash */
  datatype Sym = Sym(ck: Bytes, h: Bytes)

  function MixHash(p: Primitives, h: Bytes, data: Bytes): Bytes {
    Hash(p, h + data)
  }

  /** handshake_init */
  function Init(p: Primitives, responderStatic: Bytes): Sym {
    Sym(InitChainingKey(p), MixHash(p, InitHash(p), responderStatic))
  }

  /** message_ephemeral */
  function MixEphemeral(p: Primitives, s: Sym, e: Bytes): Sym {
    Sym(Kdf(p, e, s.ck).0, MixHash(p, s.h, e))
  }

  /** The kdf of mix_dh and mix_precomputed_dh */
  function MixKey(p: Primitives, s: Sym, secret: Bytes): (Sym, Bytes) {
    var k := Kdf(p, secret, s.ck);
    (s.(ck := k.0), k.1)
  }

  function MixPsk(p: Primitives, s: Sym, psk: Bytes): (Sym, Bytes) {
    var k := Kdf(p, psk, s.ck);
    (Sym(k.0, MixHash(p, s.h, k.1)), k.2)
  }

  function StreamOf(p: Primitives, key: Bytes): Stream {
    Stream(p.block, key, 0)
  }

  /** message_encrypt */
  function Encrypt(p: Primitives, s: Sym, key: Bytes, plain: Bytes): (Sym, Bytes) {
    var c := Aead.Seal(StreamOf(p, key), s.h, plain);
    (s.(h := MixHash(p, s.h, c)), c)
  }

  /** message_decrypt */
  function Decrypt(p: Primitives, s: Sym, key: Bytes, c: Bytes): Option<(Sym, Bytes)> {
    match Aead.Open(StreamOf(p, key), s.h, c)
    case None => None
    case Some(plain) => Some((s.(h := MixHash(p, s.h, c)), plain))
  }

  lemma DecryptEncrypt(p: Primitives, s: Sym, key: Bytes, plain: Bytes)
    ensures var (s', c) := Encrypt(p, s, key, plain); Decrypt(p, s, key, c) == Some((s', plain))
  {
    hide Aead.Seal, Aead.Open;
    Aead.OpenSeal(StreamOf(p, key), s.h, plain);
  }

  // ---- the first message: e, es, s, ss, {t} ----

  datatype First = First(sym: Sym, ephemeral: Bytes, encStatic: Bytes, encTime: Bytes)

  function WriteFirst(p: Primitives, responderStatic: Bytes, e: Bytes, mine: Bytes, ss: Option<Bytes>, time: Bytes): Option<First> {
    match p.public(e)
    case None => None
    case Some(pub) =>
      match p.dh(e, responderStatic)
      case None => None
      case Some(es) =>
        var s := MixEphemeral(p, Init(p, responderStatic), pub);
        var (s, key) := MixKey(p, s, es);
        var (s, encStatic) := Encrypt(p, s, key, mine);
        match ss
        case None => None
        case Some(secret) =>
          var (s, key) := MixKey(p, s, secret);
          var (s, encTime) := Encrypt(p, s, key, time);
          Some(First(s, pub, encStatic, encTime))
  }

  /** Up to the sender's static key, which tells who it is */
  function ReadStatic(p: Primitives, own: Bytes, ownPublic: Bytes, ephemeral: Bytes, encStatic: Bytes): Option<(Sym, Bytes)> {
    match p.dh(own, ephemeral)
    case None => None
    case Some(es) =>
      var s := MixEphemeral(p, Init(p, ownPublic), ephemeral);
      var (s, key) := MixKey(p, s, es);
      Decrypt(p, s, key, encStatic)
  }

  function ReadTime(p: Primitives, s: Sym, ss: Option<Bytes>, encTime: Bytes): Option<(Sym, Bytes)> {
    match ss
    case None => None
    case Some(secret) =>
      var (s, key) := MixKey(p, s, secret);
      Decrypt(p, s, key, encTime)
  }

  /** Who reads the first message honestly gets the writer's chaining key and hash, static key and time. */
  lemma {:induction false} FirstAgrees(p: Primitives, i: Bytes, r: Bytes, e: Bytes, ss: Option<Bytes>, time: Bytes)
    requires Commutes(p) && p.public(i).Some? && p.public(r).Some?
    requires WriteFirst(p, p.public(r).value, e, p.public(i).value, ss, time).Some?
    ensures var m := WriteFirst(p, p.public(r).value, e, p.public(i).value, ss, time).value;
      && var st := ReadStatic(p, r, p.public(r).value, m.ephemeral, m.encStatic);
      && st.Some? && st.value.1 == p.public(i).value
      && ReadTime(p, st.value.0, ss, m.encTime) == Some((m.sym, time))
  {
    hide Encrypt, Decrypt, MixKey, MixEphemeral, Init;
    var rs := p.public(r).value;
    var es := p.dh(e, rs).value;
    var s0 := MixEphemeral(p, Init(p, rs), p.public(e).value);
    var (s1, k1) := MixKey(p, s0, es);
    DecryptEncrypt(p, s1, k1, p.public(i).value);
    var (s2, c) := Encrypt(p, s1, k1, p.public(i).value);
    var (s3, k3) := MixKey(p, s2, ss.value);
    DecryptEncrypt(p, s3, k3, time);
  }

  // ---- the second message: e, ee, se, psk, {} ----

  datatype Second = Second(sym: Sym, ephemeral: Bytes, encNothing: Bytes)

  function WriteSecond(p: Primitives, s: Sym, e: Bytes, remoteEphemeral: Bytes, remoteStatic: Bytes, psk: Bytes): Option<Second> {
    match p.public(e)
    case None => None
    case Some(pub) =>
      match (p.dh(e, remoteEphemeral), p.dh(e, remoteStatic))
      case (Some(ee), Some(se)) =>
        var s := MixEphemeral(p, s, pub);
        var (s, _) := MixKey(p, s, ee);
        var (s, _) := MixKey(p, s, se);
        var (s, key) := MixPsk(p, s, psk);
        var (s, c) := Encrypt(p, s, key, []);
        Some(Second(s, pub, c))
      case _ => None
  }

  function ReadSecond(p: Primitives, s: Sym, e: Bytes, own: Bytes, remoteEphemeral: Bytes, psk: Bytes, encNothing: Bytes): Option<Sym> {
    match (p.dh(e, remoteEphemeral), p.dh(own, remoteEphemeral))
    case (Some(ee), Some(se)) =>
      var s := MixEphemeral(p, s, remoteEphemeral);
      var (s, _) := MixKey(p, s, ee);
      var (s, _) := MixKey(p, s, se);
      var (s, key) := MixPsk(p, s, psk);
      (match Decrypt(p, s, key, encNothing)
       case None => None
       case Some(x) => Some(x.0))
    case _ => None
  }

  lemma {:induction false} SecondAgrees(p: Primitives, s: Sym, i: Bytes, ei: Bytes, er: Bytes, psk: Bytes)
    requires Commutes(p) && p.public(i).Some? && p.public(ei).Some?
    requires WriteSecond(p, s, er, p.public(ei).value, p.public(i).value, psk).Some?
    ensures var m := WriteSecond(p, s, er, p.public(ei).value, p.public(i).value, psk).value;
      ReadSecond(p, s, ei, i, m.ephemeral, psk, m.encNothing) == Some(m.sym)
  {
    hide Encrypt, Decrypt, MixKey, MixEphemeral, MixPsk;
    var pub := p.public(er).value;
    var ee, se := p.dh(er, p.public(ei).value).value, p.dh(er, p.public(i).value).value;
    var s0 := MixEphemeral(p, s, pub);
    var (s1, _) := MixKey(p, s0, ee);
    var (s2, _) := MixKey(p, s1, se);
    var (s3, key) := MixPsk(p, s2, psk);
    DecryptEncrypt(p, s3, key, []);
  }

  // ---- what is in the messages ----

  function HashOf(p: Primitives): Hmac.HashFunction {
    Blake2s.Unkeyed(p.compress)
  }

  /** The AEAD with nonce 0 */
  function SealingOf(p: Primitives): N.Sealing {
    N.Sealing((key: Bytes, ad: Bytes, m: Bytes) => Aead.Seal(Stream(p.block, key, 0), ad, m))
  }

  lemma {:induction false} KdfIs(p: Primitives, data: Bytes, ck: Bytes)
    ensures var h := HashOf(p); Kdf(p, data, ck) == (N.Key1(h, ck, data), N.Key2(h, ck, data), N.Key3(h, ck, data))
  {
    NoiseKdf.Chained(HashOf(p), data, ck);
    hide NoiseKdf.Derived, Hmac.Mac, Hmac.Extract, Blake2s.Unkeyed;
  }

  /** The chaining key has taken in these inputs, and the hash these items. */
  ghost predicate Has(p: Primitives, s: Sym, inputs: seq<Bytes>, items: seq<Bytes>) {
    s == Sym(N.Chain(HashOf(p), inputs), N.Transcript(HashOf(p), items))
  }

  lemma {:induction false} HasInit(p: Primitives, rs: Bytes)
    ensures Has(p, Init(p, rs), [], [rs])
  {
    hide Blake2s.Unkeyed;
    N.TranscriptNext(HashOf(p), [], rs);
    assert [] + [rs] == [rs];
  }

  lemma {:induction false} HasEphemeral(p: Primitives, s: Sym, e: Bytes, inputs: seq<Bytes>, items: seq<Bytes>)
    requires Has(p, s, inputs, items)
    ensures Has(p, MixEphemeral(p, s, e), inputs + [e], items + [e])
  {
    hide Blake2s.Unkeyed, N.Chain, N.Transcript, Kdf, N.Key1;
    KdfIs(p, e, s.ck);
    N.ChainNext(HashOf(p), inputs, e);
    N.TranscriptNext(HashOf(p), items, e);
  }

  lemma {:induction false} HasKey(p: Primitives, s: Sym, x: Bytes, inputs: seq<Bytes>, items: seq<Bytes>)
    requires Has(p, s, inputs, items)
    ensures var (t, key) := MixKey(p, s, x);
      Has(p, t, inputs + [x], items) && key == N.Key2(HashOf(p), N.Chain(HashOf(p), inputs), x)
  {
    hide Blake2s.Unkeyed, N.Chain, N.Transcript, Kdf, N.Key1, N.Key2;
    KdfIs(p, x, s.ck);
    N.ChainNext(HashOf(p), inputs, x);
  }

  lemma {:induction false} HasPsk(p: Primitives, s: Sym, x: Bytes, inputs: seq<Bytes>, items: seq<Bytes>)
    requires Has(p, s, inputs, items)
    ensures var (t, key) := MixPsk(p, s, x); var ck := N.Chain(HashOf(p), inputs);
      Has(p, t, inputs + [x], items + [N.Key2(HashOf(p), ck, x)]) && key == N.Key3(HashOf(p), ck, x)
  {
    hide Blake2s.Unkeyed, N.Chain, N.Transcript, Kdf, N.Key1, N.Key2, N.Key3;
    KdfIs(p, x, s.ck);
    N.ChainNext(HashOf(p), inputs, x);
    N.TranscriptNext(HashOf(p), items, N.Key2(HashOf(p), s.ck, x));
  }

  lemma {:induction false} HasSealed(p: Primitives, s: Sym, key: Bytes, m: Bytes, inputs: seq<Bytes>, items: seq<Bytes>)
    requires Has(p, s, inputs, items)
    ensures var (t, c) := Encrypt(p, s, key, m);
      Has(p, t, inputs, items + [c]) && c == SealingOf(p).seal(key, N.Transcript(HashOf(p), items), m)
  {
    hide Blake2s.Unkeyed, N.Chain, N.Transcript, Aead.Seal;
    N.TranscriptNext(HashOf(p), items, Encrypt(p, s, key, m).1);
  }

  /** The first message, and what its writer has taken in */
  lemma {:induction false} FirstSays(p: Primitives, rs: Bytes, e: Bytes, mine: Bytes, ss: Option<Bytes>, time: Bytes)
    requires WriteFirst(p, rs, e, mine, ss, time).Some?
    ensures p.public(e).Some? && p.dh(e, rs).Some? && ss.Some?
    ensures var m, h, f := WriteFirst(p, rs, e, mine, ss, time).value, HashOf(p), SealingOf(p);
      var pub, es := p.public(e).value, p.dh(e, rs).value;
      && m.ephemeral == pub && m.encStatic == N.SealedStatic(h, f, pub, es, rs, mine)
      && m.encTime == N.SealedTime(h, f, pub, es, ss.value, rs, m.encStatic, time)
      && Has(p, m.sym, [pub, es, ss.value], [rs, pub, m.encStatic, m.encTime])
  {
    hide HashOf, SealingOf, Has, Init, MixEphemeral, MixKey, Encrypt, N.Chain, N.Transcript, N.Key2;
    var pub, es, x := p.public(e).value, p.dh(e, rs).value, ss.value;
    var s0 := Init(p, rs);
    HasInit(p, rs);
    var s1 := MixEphemeral(p, s0, pub);
    HasEphemeral(p, s0, pub, [], [rs]);
    assert [] + [pub] == [pub] && [rs] + [pub] == [rs, pub];
    var (s2, k2) := MixKey(p, s1, es);
    HasKey(p, s1, es, [pub], [rs, pub]);
    assert [pub] + [es] == [pub, es];
    var (s3, c3) := Encrypt(p, s2, k2, mine);
    HasSealed(p, s2, k2, mine, [pub, es], [rs, pub]);
    assert [rs, pub] + [c3] == [rs, pub, c3];
    var (s4, k4) := MixKey(p, s3, x);
    HasKey(p, s3, x, [pub, es], [rs, pub, c3]);
    assert [pub, es] + [x] == [pub, es, x];
    var (s5, c5) := Encrypt(p, s4, k4, time);
    HasSealed(p, s4, k4, time, [pub, es, x], [rs, pub, c3]);
    assert [rs, pub, c3] + [c5] == [rs, pub, c3, c5];
  }

  /** The second message, and what its writer has taken in, on top of what it had */
  lemma {:induction false} SecondSays(p: Primitives, s: Sym, e: Bytes, re: Bytes, rs: Bytes, psk: Bytes, inputs: seq<Bytes>, items: seq<Bytes>)
    requires WriteSecond(p, s, e, re, rs, psk).Some? && Has(p, s, inputs, items)
    ensures p.public(e).Some? && p.dh(e, re).Some? && p.dh(e, rs).Some?
    ensures var m, h, f := WriteSecond(p, s, e, re, rs, psk).value, HashOf(p), SealingOf(p);
      var pub, ee, se := p.public(e).value, p.dh(e, re).value, p.dh(e, rs).value;
      var secrets := inputs + [pub, ee, se];
      && m.ephemeral == pub && m.encNothing == N.SealedNothing(h, f, secrets, psk, items + [pub])
      && Has(p, m.sym, secrets + [psk], items + [pub, N.Key2(h, N.Chain(h, secrets), psk), m.encNothing])
  {
    hide HashOf, SealingOf, Has, MixEphemeral, MixKey, MixPsk, Encrypt, N.Chain, N.Transcript, N.Key2, N.Key3;
    var pub, ee, se := p.public(e).value, p.dh(e, re).value, p.dh(e, rs).value;
    var s1 := MixEphemeral(p, s, pub);
    HasEphemeral(p, s, pub, inputs, items);
    var (s2, _) := MixKey(p, s1, ee);
    HasKey(p, s1, ee, inputs + [pub], items + [pub]);
    var (s3, _) := MixKey(p, s2, se);
    HasKey(p, s2, se, inputs + [pub] + [ee], items + [pub]);
    var secrets := inputs + [pub, ee, se];
    assert inputs + [pub] + [ee] + [se] == secrets;
    var (s4, k4) := MixPsk(p, s3, psk);
    HasPsk(p, s3, psk, secrets, items + [pub]);
    var tau := N.Key2(HashOf(p), N.Chain(HashOf(p), secrets), psk);
    var (s5, c5) := Encrypt(p, s4, k4, []);
    HasSealed(p, s4, k4, [], secrets + [psk], items + [pub] + [tau]);
    assert items + [pub] + [tau] + [c5] == items + [pub, tau, c5];
  }

  // ---- the two ends ----

  datatype Phase = Zeroed | CreatedInitiation | ConsumedInitiation | CreatedResponse | ConsumedResponse

  datatype Identity = Identity(private_: Bytes, public_: Bytes)

  datatype Initiation = Initiation(sender: nat, ephemeral: Bytes, encStatic: Bytes, encTime: Bytes)

  datatype Response = Response(sender: nat, receiver: nat, ephemeral: Bytes, encNothing: Bytes)

  datatype Keypair = Keypair(sending: Bytes, receiving: Bytes, initiator: bool, remoteIndex: nat)

  /** memcmp(a, b, n) > 0 */
  predicate Greater(a: Bytes, b: Bytes) {
    if a == [] || b == [] then |a| > |b|
    else a[0] > b[0] || (a[0] == b[0] && Greater(a[1..], b[1..]))
  }

  /** For timestamps of one length this is the order of the numbers they are, most significant byte first. */
  lemma {:induction false} GreaterIs(a: Bytes, b: Bytes)
    requires |a| == |b|
    ensures Greater(a, b) <==> LoadBe(a) > LoadBe(b)
  {
    hide LoadBe, Pow2;
    if a == [] {
      assert a == b;
    } else {
      GreaterIs(a[1..], b[1..]);
      var d := Pow2(8 * (|a| - 1));
      Leading(a);
      Leading(b);
      if a[0] > b[0] {
        AtLeast(a[0], b[0], d);
      } else if b[0] > a[0] {
        AtLeast(b[0], a[0], d);
      }
    }
  }

  lemma AtLeast(x: nat, y: nat, d: nat)
    requires x > y && d > 0
    ensures x * d >= y * d + d
  {
    MulAtLeast(x - y, d);
  }

  lemma {:induction false} Leading(m: Bytes)
    requires m != []
    ensures LoadBe(m) == m[0] * Pow2(8 * (|m| - 1)) + LoadBe(m[1..]) && LoadBe(m[1..]) < Pow2(8 * (|m| - 1))
  {
    assert m == [m[0]] + m[1..];
    LoadBeConcat([m[0]], m[1..]);
    LoadBeBound(m[1..]);
    assert LoadBe([m[0]]) == m[0] by { assert [m[0]][..0] == []; }
  }

  lemma {:induction false} LoadBeBound(m: Bytes)
    ensures LoadBe(m) < Pow2(8 * |m|)
  {
    if m != [] {
      var n := |m| - 1;
      LoadBeBound(m[..n]);
      Pow2Add(8 * n, 8);
      SmallPowers();
      hide Pow2;
      assert 8 * |m| == 8 * n + 8;
    }
  }

  /** NSEC_PER_SEC / INITIATIONS_PER_SECOND */
  const INITIATION_INTERVAL := 20_000_000

  class Handshake {
    const p: Primitives
    const remoteStatic: Bytes
    const psk: Bytes
    /** None for the zero point */
    const precomputed: Option<Bytes>
    var phase: Phase
    var ephemeralPrivate: Bytes
    var remoteEphemeral: Bytes
    var hash: Bytes
    var chainingKey: Bytes
    var remoteIndex: nat
    var latestTimestamp: Bytes
    var lastConsumption: int

    constructor (p: Primitives, remoteStatic: Bytes, psk: Bytes, precomputed: Option<Bytes>)
      ensures this.p == p && this.remoteStatic == remoteStatic && this.psk == psk && this.precomputed == precomputed
      ensures phase == Zeroed && latestTimestamp == seq(12, _ => 0) && lastConsumption == 0
    {
      this.p, this.remoteStatic, this.psk, this.precomputed := p, remoteStatic, psk, precomputed;
      phase, ephemeralPrivate, remoteEphemeral, hash, chainingKey := Zeroed, [], [], [], [];
      remoteIndex, latestTimestamp, lastConsumption := 0, seq(12, _ => 0), 0;
    }

    ghost function Transcript(): Sym
      reads this
    {
      Sym(chainingKey, hash)
    }

    /** wg_noise_handshake_create_initiation, with the ephemeral secret, the time and the index it draws */
    method CreateInitiation(own: Option<Identity>, e: Bytes, time: Bytes, index: nat) returns (r: Option<Initiation>)
      modifies this`phase, this`ephemeralPrivate, this`hash, this`chainingKey
      ensures r.Some? <==> own.Some? && WriteFirst(p, remoteStatic, e, own.value.public_, precomputed, time).Some?
      ensures r.None? ==> phase == old(phase)
      ensures r.Some? ==> var m := WriteFirst(p, remoteStatic, e, own.value.public_, precomputed, time).value;
        && Transcript() == m.sym && phase == CreatedInitiation && ephemeralPrivate == e
        && r.value == Initiation(index, m.ephemeral, m.encStatic, m.encTime)
    {
      hide Kdf, Hash, Encrypt, MixKey, MixEphemeral, Init;
      if own.None? {
        return None;
      }
      var s := Init(p, remoteStatic);
      chainingKey, hash := s.ck, s.h;
      ephemeralPrivate := e;
      var pub := p.public(e);
      if pub.None? {
        return None;
      }
      s := MixEphemeral(p, s, pub.value);
      chainingKey, hash := s.ck, s.h;
      var es := p.dh(ephemeralPrivate, remoteStatic);
      if es.None? {
        return None;
      }
      var (s1, key) := MixKey(p, s, es.value);
      var (s2, encStatic) := Encrypt(p, s1, key, own.value.public_);
      chainingKey, hash := s2.ck, s2.h;
      if precomputed.None? {
        return None;
      }
      var (s3, key') := MixKey(p, s2, precomputed.value);
      var (s4, encTime) := Encrypt(p, s3, key', time);
      chainingKey, hash := s4.ck, s4.h;
      phase := CreatedInitiation;
      return Some(Initiation(index, pub.value, encStatic, encTime));
    }

    /** The end of wg_noise_handshake_consume_initiation: turn away replays and floods, or copy everything */
    method AcceptInitiation(m: Initiation, s: Sym, time: Bytes, now: int) returns (ok: bool)
      modifies this`phase, this`remoteEphemeral, this`hash, this`chainingKey, this`remoteIndex, this`latestTimestamp, this`lastConsumption
      ensures ok <==> Greater(time, old(latestTimestamp)) && old(lastConsumption) + INITIATION_INTERVAL <= now
      ensures ok ==> Transcript() == s && phase == ConsumedInitiation && remoteEphemeral == m.ephemeral && remoteIndex == m.sender
      ensures ok ==> latestTimestamp == time && lastConsumption == now
      ensures !ok ==> unchanged(this)
    {
      var replay := !Greater(time, latestTimestamp);
      var flood := lastConsumption + INITIATION_INTERVAL > now;
      if replay || flood {
        return false;
      }
      remoteEphemeral := m.ephemeral;
      if Greater(time, latestTimestamp) {
        latestTimestamp := time;
      }
      hash, chainingKey := s.h, s.ck;
      remoteIndex := m.sender;
      if lastConsumption - now < 0 {
        lastConsumption := now;
      }
      phase := ConsumedInitiation;
      return true;
    }

    /** wg_noise_handshake_create_response */
    method CreateResponse(e: Bytes, index: nat) returns (r: Option<Response>)
      modifies this`phase, this`ephemeralPrivate, this`hash, this`chainingKey
      ensures r.Some? <==> old(phase) == ConsumedInitiation && WriteSecond(p, old(Transcript()), e, remoteEphemeral, remoteStatic, psk).Some?
      ensures r.None? ==> phase == old(phase)
      ensures r.Some? ==> var m := WriteSecond(p, old(Transcript()), e, remoteEphemeral, remoteStatic, psk).value;
        && Transcript() == m.sym && phase == CreatedResponse
        && r.value == Response(index, remoteIndex, m.ephemeral, m.encNothing)
    {
      hide Kdf, Hash, Encrypt, MixKey, MixPsk, MixEphemeral;
      if phase != ConsumedInitiation {
        return None;
      }
      ephemeralPrivate := e;
      var pub := p.public(e);
      if pub.None? {
        return None;
      }
      var s := MixEphemeral(p, Sym(chainingKey, hash), pub.value);
      chainingKey, hash := s.ck, s.h;
      var ee := p.dh(ephemeralPrivate, remoteEphemeral);
      if ee.None? {
        return None;
      }
      var (s1, _) := MixKey(p, s, ee.value);
      chainingKey, hash := s1.ck, s1.h;
      var se := p.dh(ephemeralPrivate, remoteStatic);
      if se.None? {
        return None;
      }
      var (s2, _) := MixKey(p, s1, se.value);
      var (s3, key) := MixPsk(p, s2, psk);
      var (s4, c) := Encrypt(p, s3, key, []);
      chainingKey, hash := s4.ck, s4.h;
      phase := CreatedResponse;
      return Some(Response(index, remoteIndex, pub.value, c));
    }

    /** wg_noise_handshake_consume_response, for the handshake that the receiver index names */
    method ConsumeResponse(own: Identity, m: Response) returns (ok: bool)
      modifies this`phase, this`remoteEphemeral, this`hash, this`chainingKey, this`remoteIndex
      ensures ok <==> (
        && old(phase) == CreatedInitiation
        && ReadSecond(p, old(Transcript()), ephemeralPrivate, own.private_, m.ephemeral, psk, m.encNothing).Some?)
      ensures ok ==> phase == ConsumedResponse && remoteIndex == m.sender && remoteEphemeral == m.ephemeral
      ensures ok ==> Some(Transcript()) == ReadSecond(p, old(Transcript()), ephemeralPrivate, own.private_, m.ephemeral, psk, m.encNothing)
      ensures !ok ==> phase == old(phase) && Transcript() == old(Transcript()) && remoteIndex == old(remoteIndex)
    {
      hide Decrypt, MixKey, MixPsk, MixEphemeral;
      if phase != CreatedInitiation {
        return false;
      }
      var r := ReadSecond(p, Sym(chainingKey, hash), ephemeralPrivate, own.private_, m.ephemeral, psk, m.encNothing);
      if r.None? {
        return false;
      }
      remoteEphemeral := m.ephemeral;
      hash, chainingKey := r.value.h, r.value.ck;
      remoteIndex := m.sender;
      phase := ConsumedResponse;
      return true;
    }

    /** wg_noise_handshake_begin_session, the keys; the handshake is cleared behind it */
    method BeginSession() returns (r: Option<Keypair>)
      modifies this`phase, this`ephemeralPrivate, this`remoteEphemeral, this`hash, this`chainingKey, this`remoteIndex
      ensures r.Some? <==> old(phase) == CreatedResponse || old(phase) == ConsumedResponse
      ensures r.Some? ==> phase == Zeroed && var k := Kdf(p, [], old(chainingKey));
        r.value == if old(phase) == ConsumedResponse then Keypair(k.0, k.1, true, old(remoteIndex)) else Keypair(k.1, k.0, false, old(remoteIndex))
      ensures r.None? ==> phase == old(phase) && Transcript() == old(Transcript())
    {
      hide Kdf;
      if phase != CreatedResponse && phase != ConsumedResponse {
        return None;
      }
      var k := Kdf(p, [], chainingKey);
      r := Some(if phase == ConsumedResponse then Keypair(k.0, k.1, true, remoteIndex) else Keypair(k.1, k.0, false, remoteIndex));
      phase, ephemeralPrivate, remoteEphemeral, hash, chainingKey, remoteIndex := Zeroed, [], [], [], [], 0;
    }
  }

  /** wg_noise_handshake_consume_initiation; peers by their static keys */
  method ConsumeInitiation(p: Primitives, own: Option<Identity>, peers: map<Bytes, Handshake>, m: Initiation, now: int)
    returns (r: Option<Handshake>)
    modifies peers.Values
    ensures r.None? ==> forall h :: h in peers.Values ==> unchanged(h)
    ensures r.Some? ==> own.Some? && Accepted(p, own.value, peers, m).Some?
    ensures own.Some? && Accepted(p, own.value, peers, m).Some? ==> var (k, s, t) := Accepted(p, own.value, peers, m).value; var h := peers[k];
      && (r.Some? <==> Greater(t, old(h.latestTimestamp)) && old(h.lastConsumption) + INITIATION_INTERVAL <= now)
      && (r.Some? ==> r.value == h && h.Transcript() == s && h.phase == ConsumedInitiation && h.latestTimestamp == t)
      && (r.Some? ==> h.remoteEphemeral == m.ephemeral && h.remoteIndex == m.sender)
  {
    if own.None? {
      return None;
    }
    hide ReadStatic, ReadTime;
    var st := ReadStatic(p, own.value.private_, own.value.public_, m.ephemeral, m.encStatic);
    if st.None? || st.value.1 !in peers {
      return None;
    }
    var h := peers[st.value.1];
    assert h in peers.Values;
    var rt := ReadTime(p, st.value.0, h.precomputed, m.encTime);
    if rt.None? {
      return None;
    }
    var ok := h.AcceptInitiation(m, rt.value.0, rt.value.1, now);
    return if ok then Some(h) else None;
  }

  /** The peer, transcript and time that a first message decrypts to. */
  ghost function Accepted(p: Primitives, own: Identity, peers: map<Bytes, Handshake>, m: Initiation): Option<(Bytes, Sym, Bytes)> {
    match ReadStatic(p, own.private_, own.public_, m.ephemeral, m.encStatic)
    case None => None
    case Some(st) =>
      if st.1 !in peers then None
      else
        match ReadTime(p, st.0, peers[st.1].precomputed, m.encTime)
        case None => None
        case Some(rt) => Some((st.1, rt.0, rt.1))
  }

  /** What two honest ends know of each other before the handshake. */
  ghost predicate Paired(p: Primitives, i: Identity, r: Identity, hi: Handshake, hr: Handshake) {
    && Commutes(p) && p.public(i.private_) == Some(i.public_) && p.public(r.private_) == Some(r.public_)
    && hi.p == p && hr.p == p && hi != hr && hi.psk == hr.psk
    && hi.remoteStatic == r.public_ && hr.remoteStatic == i.public_
    && hi.precomputed == p.dh(i.private_, r.public_) && hr.precomputed == p.dh(r.private_, i.public_)
  }

  /** The initiation of i to r, with ephemeral secret ei and static secret ss */
  ghost predicate FirstIs(p: Primitives, m: Initiation, i: Identity, r: Identity, ei: Bytes, ss: Bytes, time: Bytes, index: nat)
    requires p.public(ei).Some? && p.dh(ei, r.public_).Some?
  {
    var h, f, pub, es := HashOf(p), SealingOf(p), p.public(ei).value, p.dh(ei, r.public_).value;
    && m.sender == index && m.ephemeral == pub && m.encStatic == N.SealedStatic(h, f, pub, es, r.public_, i.public_)
    && m.encTime == N.SealedTime(h, f, pub, es, ss, r.public_, m.encStatic, time)
  }

  /** What an end that has written or read m has taken in */
  ghost predicate Took(p: Primitives, s: Sym, m: Initiation, r: Identity, ei: Bytes, ss: Bytes)
    requires p.public(ei).Some? && p.dh(ei, r.public_).Some?
  {
    Has(p, s, [p.public(ei).value, p.dh(ei, r.public_).value, ss], [r.public_, p.public(ei).value, m.encStatic, m.encTime])
  }

  /** From the initiator to the responder */
  method FirstLeg(p: Primitives, i: Identity, r: Identity, hi: Handshake, hr: Handshake, peers: map<Bytes, Handshake>,
                  ei: Bytes, time: Bytes, now: int, indexI: nat)
    returns (first: Option<Initiation>)
    requires Paired(p, i, r, hi, hr) && hi !in peers.Values && i.public_ in peers && peers[i.public_] == hr
    requires hi.precomputed.Some? && p.public(ei).Some? && p.dh(ei, r.public_).Some?
    requires Greater(time, hr.latestTimestamp) && hr.lastConsumption + INITIATION_INTERVAL <= now
    modifies hi, peers.Values
    ensures hi.phase == CreatedInitiation && hi.ephemeralPrivate == ei
    ensures hr.phase == ConsumedInitiation && hr.remoteEphemeral == p.public(ei).value && hr.remoteIndex == indexI
    ensures hi.Transcript() == hr.Transcript()
    ensures first.Some? && FirstIs(p, first.value, i, r, ei, hi.precomputed.value, time, indexI)
    ensures Took(p, hi.Transcript(), first.value, r, ei, hi.precomputed.value)
  {
    hide HashOf, SealingOf, Has;
    assert WriteFirst(p, r.public_, ei, i.public_, hi.precomputed, time).Some?;
    ghost var m := WriteFirst(p, r.public_, ei, i.public_, hi.precomputed, time).value;
    FirstSays(p, r.public_, ei, i.public_, hi.precomputed, time);
    FirstAgrees(p, i.private_, r.private_, ei, hi.precomputed, time);
    assert hi.precomputed == hr.precomputed && hr in peers.Values;
    hide WriteFirst, ReadStatic, ReadTime, Greater, Commutes, Kdf, Hash;
    first := hi.CreateInitiation(Some(i), ei, time, indexI);
    var _ := ConsumeInitiation(p, Some(r), peers, first.value, now);
  }

  /** The secrets drawn are such that no Diffie-Hellman fails. */
  ghost predicate Usable(p: Primitives, i: Identity, r: Identity, ei: Bytes, er: Bytes) {
    && p.public(ei).Some? && p.dh(ei, r.public_).Some?
    && p.public(er).Some? && p.dh(er, p.public(ei).value).Some? && p.dh(er, i.public_).Some?
  }

  /** What goes into the chaining key before the preshared key: e, es, ss, and e, ee, se of the responder */
  ghost function Secrets(p: Primitives, i: Identity, r: Identity, ss: Bytes, ei: Bytes, er: Bytes): seq<Bytes>
    requires Usable(p, i, r, ei, er)
  {
    var pi, pr := p.public(ei).value, p.public(er).value;
    [pi, p.dh(ei, r.public_).value, ss, pr, p.dh(er, pi).value, p.dh(er, i.public_).value]
  }

  /** What goes into the hash, in the end: what was sent, and a block from the preshared key */
  ghost function Items(p: Primitives, m: Initiation, x: Response, i: Identity, r: Identity, ss: Bytes, psk: Bytes, ei: Bytes, er: Bytes): seq<Bytes>
    requires Usable(p, i, r, ei, er)
  {
    [r.public_, p.public(ei).value, m.encStatic, m.encTime, p.public(er).value,
     N.Key2(HashOf(p), N.Chain(HashOf(p), Secrets(p, i, r, ss, ei, er)), psk), x.encNothing]
  }

  /** The response to m */
  ghost predicate SecondIs(p: Primitives, x: Response, m: Initiation, i: Identity, r: Identity, ss: Bytes, psk: Bytes,
                           ei: Bytes, er: Bytes, indexI: nat, indexR: nat)
    requires Usable(p, i, r, ei, er)
  {
    var pi, pr := p.public(ei).value, p.public(er).value;
    && x.sender == indexR && x.receiver == indexI && x.ephemeral == pr
    && x.encNothing == N.SealedNothing(HashOf(p), SealingOf(p), Secrets(p, i, r, ss, ei, er), psk,
         [r.public_, pi, m.encStatic, m.encTime, pr])
  }

  /** The second message in an honest run */
  lemma {:induction false} SecondSaysIs(p: Primitives, s: Sym, m: Initiation, i: Identity, r: Identity, ss: Bytes, psk: Bytes,
                                        ei: Bytes, er: Bytes, indexI: nat, indexR: nat)
    requires Usable(p, i, r, ei, er) && Took(p, s, m, r, ei, ss)
    ensures var w := WriteSecond(p, s, er, p.public(ei).value, i.public_, psk);
      && w.Some?
      && var x := Response(indexR, indexI, w.value.ephemeral, w.value.encNothing);
      && SecondIs(p, x, m, i, r, ss, psk, ei, er, indexI, indexR)
      && w.value.sym == Sym(N.Chain(HashOf(p), Secrets(p, i, r, ss, ei, er) + [psk]),
                            N.Transcript(HashOf(p), Items(p, m, x, i, r, ss, psk, ei, er)))
  {
    hide HashOf, SealingOf, N.Chain, N.Transcript, N.SealedNothing, N.Key2, Encrypt, MixKey, MixPsk, MixEphemeral;
    var pi, pr := p.public(ei).value, p.public(er).value;
    var es, ee, se := p.dh(ei, r.public_).value, p.dh(er, pi).value, p.dh(er, i.public_).value;
    var items := [r.public_, pi, m.encStatic, m.encTime];
    SecondSays(p, s, er, pi, i.public_, psk, [pi, es, ss], items);
    assert [pi, es, ss] + [pr, ee, se] == Secrets(p, i, r, ss, ei, er);
    assert items + [pr] == [r.public_, pi, m.encStatic, m.encTime, pr];
    var x := WriteSecond(p, s, er, pi, i.public_, psk).value;
    assert items + [pr, N.Key2(HashOf(p), N.Chain(HashOf(p), Secrets(p, i, r, ss, ei, er)), psk), x.encNothing]
      == Items(p, m, Response(indexR, indexI, x.ephemeral, x.encNothing), i, r, ss, psk, ei, er);
  }

  /** From the responder back to the initiator */
  method SecondLeg(p: Primitives, i: Identity, r: Identity, hi: Handshake, hr: Handshake, ei: Bytes, er: Bytes, indexR: nat,
                   ghost m: Initiation, ghost ss: Bytes)
    returns (second: Option<Response>)
    requires Paired(p, i, r, hi, hr) && hi.Transcript() == hr.Transcript() && Usable(p, i, r, ei, er)
    requires hi.phase == CreatedInitiation && hi.ephemeralPrivate == ei && Took(p, hr.Transcript(), m, r, ei, ss)
    requires hr.phase == ConsumedInitiation && hr.remoteEphemeral == p.public(ei).value
    modifies hi, hr`phase, hr`ephemeralPrivate, hr`hash, hr`chainingKey
    ensures hi.phase == ConsumedResponse && hr.phase == CreatedResponse && hi.remoteIndex == indexR
    ensures second.Some? && SecondIs(p, second.value, m, i, r, ss, hr.psk, ei, er, hr.remoteIndex, indexR)
    ensures hi.chainingKey == hr.chainingKey == N.Chain(HashOf(p), Secrets(p, i, r, ss, ei, er) + [hr.psk])
    ensures hi.hash == hr.hash == N.Transcript(HashOf(p), Items(p, m, second.value, i, r, ss, hr.psk, ei, er))
  {
    hide HashOf, Took, SecondIs, Secrets, Items, N.Transcript, N.Chain, Kdf, Hash, WriteSecond, ReadSecond, Commutes;
    ghost var s := hr.Transcript();
    SecondSaysIs(p, s, m, i, r, ss, hr.psk, ei, er, hr.remoteIndex, indexR);
    SecondAgrees(p, s, i.private_, ei, er, hr.psk);
    second := hr.CreateResponse(er, indexR);
    var _ := hi.ConsumeResponse(i, second.value);
  }

  /** Both messages */
  method BothLegs(p: Primitives, i: Identity, r: Identity, hi: Handshake, hr: Handshake, peers: map<Bytes, Handshake>,
                  ei: Bytes, er: Bytes, time: Bytes, now: int, indexI: nat, indexR: nat)
    returns (first: Option<Initiation>, second: Option<Response>)
    requires Paired(p, i, r, hi, hr) && hi !in peers.Values && i.public_ in peers && peers[i.public_] == hr
    requires hi.precomputed.Some? && Usable(p, i, r, ei, er)
    requires Greater(time, hr.latestTimestamp) && hr.lastConsumption + INITIATION_INTERVAL <= now
    modifies hi, peers.Values
    ensures hi.phase == ConsumedResponse && hr.phase == CreatedResponse && hi.remoteIndex == indexR && hr.remoteIndex == indexI
    ensures first.Some? && FirstIs(p, first.value, i, r, ei, hi.precomputed.value, time, indexI)
    ensures second.Some? && SecondIs(p, second.value, first.value, i, r, hi.precomputed.value, hi.psk, ei, er, indexI, indexR)
    ensures hi.chainingKey == hr.chainingKey == N.Chain(HashOf(p), Secrets(p, i, r, hi.precomputed.value, ei, er) + [hi.psk])
    ensures hi.hash == hr.hash
      == N.Transcript(HashOf(p), Items(p, first.value, second.value, i, r, hi.precomputed.value, hi.psk, ei, er))
  {
    PairedParts(p, i, r, hi, hr, peers);
    hide Paired, Greater, HashOf, FirstIs, SecondIs, Secrets, Items, Took, N.Chain, N.Transcript;
    first := FirstLeg(p, i, r, hi, hr, peers, ei, time, now, indexI);
    second := SecondLeg(p, i, r, hi, hr, ei, er, indexR, first.value, hi.precomputed.value);
  }

  lemma PairedParts(p: Primitives, i: Identity, r: Identity, hi: Handshake, hr: Handshake, peers: map<Bytes, Handshake>)
    requires Paired(p, i, r, hi, hr) && i.public_ in peers && peers[i.public_] == hr
    ensures hr in peers.Values && hi.p == p && hr.p == p && hi != hr && hi.psk == hr.psk
  {
  }

  /** An honest run. Each end knows the other's static key and the shared key, and has precomputed the static
      secret; the secrets drawn are such that no Diffie-Hellman fails, and the time is news to the responder.
      Then both ends get keypairs, each sends under the key under which the other receives, and each knows the
      other's index. The keys are the first two blocks of HKDF over the chaining key that has taken in, one after
      the other, the initiator's ephemeral key, es, ss, the responder's ephemeral key, ee, se and the preshared
      key, and the messages are those of the pattern. */
  method HonestRun(p: Primitives, i: Identity, r: Identity, hi: Handshake, hr: Handshake, peers: map<Bytes, Handshake>,
                   ei: Bytes, er: Bytes, time: Bytes, now: int, indexI: nat, indexR: nat)
    returns (a: Option<Keypair>, b: Option<Keypair>, first: Option<Initiation>, second: Option<Response>)
    requires Paired(p, i, r, hi, hr) && hi !in peers.Values && i.public_ in peers && peers[i.public_] == hr
    requires hi.precomputed.Some? && Usable(p, i, r, ei, er)
    requires Greater(time, hr.latestTimestamp) && hr.lastConsumption + INITIATION_INTERVAL <= now
    modifies hi, peers.Values
    ensures a.Some? && b.Some? && a.value.initiator && !b.value.initiator
    ensures a.value.sending == b.value.receiving && a.value.receiving == b.value.sending
    ensures a.value.remoteIndex == indexR && b.value.remoteIndex == indexI
    ensures first.Some? && FirstIs(p, first.value, i, r, ei, hi.precomputed.value, time, indexI)
    ensures second.Some? && SecondIs(p, second.value, first.value, i, r, hi.precomputed.value, hi.psk, ei, er, indexI, indexR)
    ensures var h := HashOf(p); var ck := N.Chain(h, Secrets(p, i, r, hi.precomputed.value, ei, er) + [hi.psk]);
      a.value.sending == N.Key1(h, ck, []) && a.value.receiving == N.Key2(h, ck, [])
  {
    PairedParts(p, i, r, hi, hr, peers);
    hide Paired, Greater, HashOf, FirstIs, SecondIs, Secrets, N.Chain, N.Key1, N.Key2, Kdf, Usable;
    first, second := BothLegs(p, i, r, hi, hr, peers, ei, er, time, now, indexI, indexR);
    KdfIs(p, [], hi.chainingKey);
    a := hi.BeginSession();
    b := hr.BeginSession();
  }
}
