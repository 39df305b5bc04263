/** What the messages and keys of Noise_IKpsk2 are, for any hash function and
    any way of sealing: folds over what the two ends send and compute. */
module NoisePattern {
  import opened Words
  import opened Hmac

  type Bytes = seq<byte>

  const PROTOCOL := "Noise_IKpsk2_25519_ChaChaPoly_BLAKE2s"
  const IDENTIFIER := "WireGuard v1 zx2c4 Jason@zx2c4.com"

  /** The blocks of HKDF (section 2.3 of RFC 5869), with a chaining key as salt and no info */
  function Key1(h: HashFunction, ck: Bytes, input: Bytes): Bytes32 {
    Mac(h, Extract(h, ck, input), [1])
  }

  function Key2(h: HashFunction, ck: Bytes, input: Bytes): Bytes32 {
    Mac(h, Extract(h, ck, input), Key1(h, ck, input) + [2])
  }

  function Key3(h: HashFunction, ck: Bytes, input: Bytes): Bytes32 {
    Mac(h, Extract(h, ck, input), Key2(h, ck, input) + [3])
  }

  /** The chaining key after all inputs: each one's first block becomes the key for the next. */
  function Chain(h: HashFunction, inputs: seq<Bytes>): Bytes {
    if inputs == [] then h(Ascii(PROTOCOL))
    else
      var n := |inputs| - 1;
      Key1(h, Chain(h, inputs[..n]), inputs[n])
  }

  /** The hash over everything sent */
  function Transcript(h: HashFunction, items: seq<Bytes>): Bytes {
    if items == [] then h(h(Ascii(PROTOCOL)) + Ascii(IDENTIFIER))
    else
      var n := |items| - 1;
      h(Transcript(h, items[..n]) + items[n])
  }

  lemma ChainNext(h: HashFunction, inputs: seq<Bytes>, x: Bytes)
    ensures Chain(h, inputs + [x]) == Key1(h, Chain(h, inputs), x)
  {
    assert (inputs + [x])[..|inputs|] == inputs;
  }

  lemma TranscriptNext(h: HashFunction, items: seq<Bytes>, x: Bytes)
    ensures Transcript(h, items + [x]) == h(Transcript(h, items) + x)
  {
    assert (items + [x])[..|items|] == items;
  }

  /** The three kinds of sealed fields, each under a key and bound to a transcript */
  datatype Sealing = Sealing(seal: (Bytes, Bytes, Bytes) -> Bytes)

  /** What the first message has: the initiator's ephemeral key, its static key under a key from es, and the time
      under one from ss */
  function SealedStatic(h: HashFunction, f: Sealing, e: Bytes, es: Bytes, rs: Bytes, is_: Bytes): Bytes {
    f.seal(Key2(h, Chain(h, [e]), es), Transcript(h, [rs, e]), is_)
  }

  function SealedTime(h: HashFunction, f: Sealing, e: Bytes, es: Bytes, ss: Bytes, rs: Bytes, encStatic: Bytes, time: Bytes): Bytes {
    f.seal(Key2(h, Chain(h, [e, es]), ss), Transcript(h, [rs, e, encStatic]), time)
  }

  /** What the second message has: nothing, under a key from the preshared key, after all other secrets */
  function SealedNothing(h: HashFunction, f: Sealing, secrets: seq<Bytes>, psk: Bytes, items: seq<Bytes>): Bytes {
    f.seal(Key3(h, Chain(h, secrets), psk), Transcript(h, items + [Key2(h, Chain(h, secrets), psk)]), [])
  }
}
