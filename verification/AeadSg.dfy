/** The scatter-gather functions of chacha20poly1305.c: the message lies in
    any number of segments of any lengths and is transformed in place. */
module AeadSg {
  import opened Wrappers
  import opened Words
  import opened ChaCha20
  import opened Aead
  import Poly1305

  // ---- segments, as values ----

  /** Where segment k begins. */
  function Offset(ss: seq<seq<byte>>, k: nat): nat
    requires k <= |ss|
  {
    |Concat(ss[..k])|
  }

  /** A stretch w of a message that begins at off, with data put over it at lo. */
  function Over(w: seq<byte>, off: nat, lo: nat, data: seq<byte>): (r: seq<byte>)
    ensures |r| == |w|
  {
    seq(|w|, i requires 0 <= i < |w| => if lo <= off + i < lo + |data| then data[off + i - lo] else w[i])
  }

  function OverAll(ss: seq<seq<byte>>, lo: nat, data: seq<byte>): (r: seq<seq<byte>>)
    ensures |r| == |ss|
  {
    seq(|ss|, k requires 0 <= k < |ss| => Over(ss[k], Offset(ss, k), lo, data))
  }

  /** Putting data over the segments one by one is putting it over the whole. */
  lemma {:induction false} OverConcat(ss: seq<seq<byte>>, lo: nat, data: seq<byte>)
    ensures Concat(OverAll(ss, lo, data)) == Over(Concat(ss), 0, lo, data)
  {
    if ss != [] {
      hide Over;
      var n := |ss| - 1;
      var front, all := ss[..n], OverAll(ss, lo, data);
      OverConcat(front, lo, data);
      forall k | 0 <= k < n
        ensures all[k] == OverAll(front, lo, data)[k]
      {
        assert ss[..k] == front[..k];
      }
      assert all[..n] == OverAll(front, lo, data);
      OverSplit(Concat(front), ss[n], 0, lo, data);
    }
  }

  lemma {:induction false} OverSplit(a: seq<byte>, b: seq<byte>, off: nat, lo: nat, data: seq<byte>)
    ensures Over(a + b, off, lo, data) == Over(a, off, lo, data) + Over(b, off + |a|, lo, data)
  {
  }

  /** Segment k is the stretch of the whole message from its offset on. */
  lemma {:induction false} SegmentOf(ss: seq<seq<byte>>, k: nat)
    requires k < |ss|
    ensures Offset(ss, k + 1) == Offset(ss, k) + |ss[k]| <= |Concat(ss)|
    ensures Concat(ss)[Offset(ss, k)..Offset(ss, k + 1)] == ss[k]
  {
    assert ss[..k + 1][..k] == ss[..k];
    ConcatPrefix(ss, k + 1);
  }

  lemma {:induction false} ConcatPrefix(ss: seq<seq<byte>>, k: nat)
    requires k <= |ss|
    ensures Concat(ss[..k]) <= Concat(ss)
    decreases |ss|
  {
    if k == |ss| {
      assert ss[..k] == ss;
    } else {
      assert ss[..|ss| - 1][..k] == ss[..k];
      ConcatPrefix(ss[..|ss| - 1], k);
    }
  }

  // ---- one segment ----

  /** How far the keystream is after n bytes of the message: the blocks used, the number of bytes used of
      the last one, if it is not used up, and that block. */
  ghost predicate At(s: Stream, blocks: nat, partial: nat, stream: seq<byte>, n: nat) {
    && partial == n % 64 && blocks == 1 + Ceil64(n) && |stream| == 64
    && (partial != 0 ==> stream == s.KeyBlock(blocks - 1))
  }

  ghost predicate Aligned(blocks: nat, n: nat) {
    n % 64 == 0 && blocks == 1 + n / 64
  }

  /** A buffer that held w with l bytes from at on xor-ed with the keystream from pos on. */
  function Crypted(s: Stream, w: seq<byte>, at: nat, l: nat, pos: nat): (r: seq<byte>)
    requires at + l <= |w|
    ensures |r| == |w|
  {
    w[..at] + XorStream(s, pos, w[at..at + l]) + w[at + l..]
  }

  lemma {:induction false} CryptedOn(s: Stream, w: seq<byte>, at: nat, a: nat, b: nat, pos: nat)
    requires at + a + b <= |w|
    ensures Crypted(s, Crypted(s, w, at, a, pos), at + a, b, pos + a) == Crypted(s, w, at, a + b, pos)
  {
    hide XorStream;
    var v := Crypted(s, w, at, a, pos);
    assert v[at + a..at + a + b] == w[at + a..at + a + b];
    assert w[at..at + (a + b)] == w[at..at + a] + w[at + a..at + a + b];
    XorStreamConcat(s, pos, w[at..at + a], w[at + a..at + a + b]);
  }

  lemma {:induction false} CryptedNone(s: Stream, w: seq<byte>, at: nat, pos: nat)
    requires at <= |w|
    ensures Crypted(s, w, at, 0, pos) == w
  {
  }

  lemma AtPartial(s: Stream, blocks: nat, partial: nat, stream: seq<byte>, n: nat, l: nat)
    requires At(s, blocks, partial, stream, n) && partial != 0 && l <= 64 - partial
    ensures blocks >= 1 && partial < 64 == |stream| && 64 * (blocks - 1) + partial == 64 + n && stream == s.KeyBlock(blocks - 1)
    ensures At(s, blocks, (partial + l) % 64, stream, n + l)
  {
    hide Stream.KeyBlock;
  }

  /** Use up the block that the segment before left unfinished */
  method UsePartial(s: Stream, addr: array<byte>, length: nat, partial: nat, stream: seq<byte>,
                    ghost blocks: nat, ghost done: nat)
    returns (partial': nat, l: nat)
    requires length <= addr.Length && At(s, blocks, partial, stream, done) && 0 < partial < 64
    modifies addr
    ensures l <= length && At(s, blocks, partial', stream, done + l) && (l < length ==> partial' == 0)
    ensures addr[..] == Crypted(s, old(addr[..]), 0, l, 64 + done)
  {
    hide XorStream, Stream.KeyBlock, XorBytes, At;
    l := Min(length, 64 - partial);
    AtPartial(s, blocks, partial, stream, done, l);
    XorStreamInBlock(s, blocks - 1, partial, addr[..l]);
    assert addr[..][0..l] == addr[..l];
    Put(addr, 0, XorBytes(addr[..l], stream[partial..]));
    partial' := (partial + l) % 64;
  }

  /** Whole blocks straight on the segment, and everything that is left of the message at its end */
  method UseWhole(cipher: ChaCha20.Cipher, addr: array<byte>, at: nat, length: nat, sl: nat, ghost n: nat)
    returns (l: nat)
    requires cipher.Valid() && at + length <= addr.Length && length <= sl <= INT_MAX
    requires Aligned(cipher.blocks, n)
    modifies cipher, addr
    ensures l <= length && (if length == sl then l == length else length - l < 64)
    ensures cipher.Valid() && addr[..] == Crypted(cipher.s, old(addr[..]), at, l, 64 + n)
    ensures length != sl ==> Aligned(cipher.blocks, n + l)
  {
    hide XorStream, Low32;
    l := length;
    if length < sl {
      l := l - l % 64;
    }
    assert 64 * cipher.blocks == 64 + n;
    assert length < sl ==> Aligned(cipher.blocks + Ceil64(l), n + l);
    assert addr[at..at + l][..l] == addr[at..at + l] == addr[..][at..at + l];
    cipher.Crypt(addr, at, addr[at..at + l]);
  }

  /** The bytes behind the last whole block, and the block they are the first to use */
  method UseRest(cipher: ChaCha20.Cipher, addr: array<byte>, at: nat, length: nat, ghost n: nat) returns (stream: seq<byte>)
    requires cipher.Valid() && at + length <= addr.Length && 0 < length < 64
    requires Aligned(cipher.blocks, n)
    modifies cipher, addr
    ensures cipher.Valid() && addr[..] == Crypted(cipher.s, old(addr[..]), at, length, 64 + n)
    ensures At(cipher.s, cipher.blocks, length, stream, n + length)
  {
    hide XorStream, Stream.KeyBlock, XorBytes, At, Aligned, ChaCha20.Cipher.Valid;
    ghost var c := cipher.blocks;
    AtFirst(cipher.s, c, n, length);
    stream := StreamBytes(cipher, 64);
    assert stream == cipher.s.KeyBlock(c) && stream[0..] == stream;
    XorStreamInBlock(cipher.s, c, 0, addr[at..at + length]);
    assert addr[..][at..at + length] == addr[at..at + length];
    Put(addr, at, XorBytes(addr[at..at + length], stream));
  }

  lemma AtFirst(s: Stream, c: nat, n: nat, length: nat)
    requires Aligned(c, n) && 0 < length < 64
    ensures 64 * c + 0 == 64 + n && At(s, c + 1, length, s.KeyBlock(c), n + length)
  {
    hide Stream.KeyBlock;
  }

  lemma AtBound(s: Stream, blocks: nat, partial: nat, stream: seq<byte>, n: nat)
    requires At(s, blocks, partial, stream, n)
    ensures partial < 64
  {
  }

  lemma AtAligned(s: Stream, blocks: nat, stream: seq<byte>, n: nat)
    requires At(s, blocks, 0, stream, n)
    ensures Aligned(blocks, n) && |stream| == 64
  {
  }

  lemma AtWhole(s: Stream, blocks: nat, stream: seq<byte>, n: nat)
    requires |stream| == 64 && Aligned(blocks, n)
    ensures At(s, blocks, 0, stream, n)
  {
  }

  /** Whole blocks, if there are any, when more is left of the message than this segment holds */
  method UseBlocks(cipher: ChaCha20.Cipher, addr: array<byte>, at: nat, left: nat, sl: nat, ghost n: nat) returns (l: nat)
    requires cipher.Valid() && at + left <= addr.Length && left < sl <= INT_MAX && Aligned(cipher.blocks, n)
    modifies cipher, addr
    ensures l <= left < l + 64 && Aligned(cipher.blocks, n + l)
    ensures cipher.Valid() && addr[..] == Crypted(cipher.s, old(addr[..]), at, l, 64 + n)
  {
    hide Crypted, Aligned, ChaCha20.Cipher.Valid;
    CryptedNone(cipher.s, addr[..], at, 64 + n);
    l := 0;
    if left >= CHACHA20_BLOCK_SIZE {
      l := UseWhole(cipher, addr, at, left, sl, n);
    }
  }

  /** The part of a segment behind the unfinished block, when more is left of the message than that */
  method UseInner(cipher: ChaCha20.Cipher, addr: array<byte>, at: nat, left: nat, sl: nat, stream: seq<byte>, ghost n: nat)
    returns (partial': nat, stream': seq<byte>)
    requires cipher.Valid() && at + left <= addr.Length && left < sl <= INT_MAX && |stream| == 64
    requires Aligned(cipher.blocks, n)
    modifies cipher, addr
    ensures cipher.Valid() && addr[..] == Crypted(cipher.s, old(addr[..]), at, left, 64 + n)
    ensures At(cipher.s, cipher.blocks, partial', stream', n + left)
  {
    hide Crypted, At, Aligned, ChaCha20.Cipher.Valid;
    ghost var was := addr[..];
    var l := UseBlocks(cipher, addr, at, left, sl, n);
    partial', stream' := left - l, stream;
    if left == l {
      AtWhole(cipher.s, cipher.blocks, stream, n + left);
    } else {
      CryptedOn(cipher.s, was, at, l, left - l, 64 + n);
      stream' := UseRest(cipher, addr, at + l, left - l, n + l);
    }
  }

  /** The part of a segment behind the unfinished block */
  method UseAligned(cipher: ChaCha20.Cipher, addr: array<byte>, at: nat, left: nat, sl: nat, stream: seq<byte>, ghost n: nat)
    returns (partial': nat, stream': seq<byte>)
    requires cipher.Valid() && at + left <= addr.Length && left <= sl <= INT_MAX && |stream| == 64
    requires Aligned(cipher.blocks, n)
    modifies cipher, addr
    ensures cipher.Valid() && addr[..] == Crypted(cipher.s, old(addr[..]), at, left, 64 + n)
    ensures left < sl ==> At(cipher.s, cipher.blocks, partial', stream', n + left)
  {
    hide Crypted, At, Aligned, ChaCha20.Cipher.Valid;
    if left == sl {
      var _ := UseWhole(cipher, addr, at, left, sl, n);
      partial', stream' := 0, stream;
    } else {
      partial', stream' := UseInner(cipher, addr, at, left, sl, stream, n);
    }
  }

  /** What the loops of both functions do to a segment, of which length bytes belong to the message, sl bytes
      of it being left; more than that says that some are left for the next segment. */
  method Segment(cipher: ChaCha20.Cipher, addr: array<byte>, length: nat, sl: nat, partial: nat, stream: seq<byte>, ghost done: nat)
    returns (partial': nat, stream': seq<byte>)
    requires cipher.Valid() && length <= addr.Length && 0 < sl <= INT_MAX && length <= sl
    requires At(cipher.s, cipher.blocks, partial, stream, done)
    modifies cipher, addr
    ensures cipher.Valid() && addr[..] == Crypted(cipher.s, old(addr[..]), 0, length, 64 + done)
    ensures length < sl ==> At(cipher.s, cipher.blocks, partial', stream', done + length)
  {
    hide Crypted, At, ChaCha20.Cipher.Valid;
    var l := 0;
    partial', stream' := partial, stream;
    ghost var was := addr[..];
    CryptedNone(cipher.s, was, 0, 64 + done);
    if partial != 0 {
      AtBound(cipher.s, cipher.blocks, partial, stream, done);
      partial', l := UsePartial(cipher.s, addr, length, partial, stream, cipher.blocks, done);
    }
    if length - l > 0 {
      AtAligned(cipher.s, cipher.blocks, stream, done + l);
      CryptedOn(cipher.s, was, 0, l, length - l, 64 + done);
      partial', stream' := UseAligned(cipher, addr, l, length - l, sl, stream, done + l);
    }
  }

  // ---- the walk over the segments ----

  /** The stretch of the message in one segment, transformed alone or with the rest */
  lemma {:induction false} SegmentCrypted(s: Stream, whole: seq<byte>, n: nat, w: seq<byte>, done: nat, length: nat)
    requires done <= n <= |whole| && done + |w| <= |whole| && w == whole[done..done + |w|] && length == Min(|w|, n - done)
    ensures Crypted(s, w, 0, length, 64 + done) == Over(w, done, 0, Encipher(s, whole[..n]))
    ensures Crypted(s, w, 0, length, 64 + done)[..length] == Encipher(s, whole[..n])[done..done + length]
  {
    hide XorByte, Stream.At;
  }

  /** One pass of the loop of the encrypting function: transform the segment, then authenticate it */
  method SealSegment(cipher: ChaCha20.Cipher, poly: Poly1305.Context, seg: array<byte>, sl: nat, partial: nat, stream: seq<byte>,
                     ghost whole: seq<byte>, ghost n: nat, ghost done: nat)
    returns (partial': nat, stream': seq<byte>)
    requires cipher.Valid() && poly.Valid() && poly.data != seg
    requires 0 < sl <= INT_MAX && sl == n - done && n <= |whole| && done + seg.Length <= |whole|
    requires seg[..] == whole[done..done + seg.Length] && At(cipher.s, cipher.blocks, partial, stream, done)
    modifies cipher, seg, poly`num, poly`fed, poly.data, poly.state.Objects()
    ensures cipher.Valid() && poly.Valid() && seg[..] == Over(old(seg[..]), done, 0, Encipher(cipher.s, whole[..n]))
    ensures seg.Length < sl ==> At(cipher.s, cipher.blocks, partial', stream', done + seg.Length)
    ensures poly.fed == old(poly.fed) + Encipher(cipher.s, whole[..n])[done..done + Min(seg.Length, sl)]
  {
    hide At, Crypted, Over, Encipher, Poly1305.Context.Valid, ChaCha20.Cipher.Valid;
    var length := Min(sl, seg.Length);
    SegmentCrypted(cipher.s, whole, n, seg[..], done, length);
    partial', stream' := Segment(cipher, seg, length, sl, partial, stream, done);
    assert seg[..][..length] == seg[..length];
    poly.Update(seg[..length]);
  }

  ghost predicate Holds(segs: seq<array<byte>>, now: seq<seq<byte>>)
    reads segs
  {
    |segs| == |now| && forall k :: 0 <= k < |segs| ==> segs[k][..] == now[k]
  }

  ghost predicate Separate(segs: seq<array<byte>>) {
    forall j, k :: 0 <= j < k < |segs| ==> segs[j] != segs[k]
  }

  /** The first i segments with data over them, the others as they were. */
  ghost function Mixed(was: seq<seq<byte>>, i: nat, lo: nat, data: seq<byte>): (r: seq<seq<byte>>)
    requires i <= |was|
    ensures |r| == |was|
  {
    OverAll(was, lo, data)[..i] + was[i..]
  }

  lemma {:induction false} MixedNone(was: seq<seq<byte>>, lo: nat, data: seq<byte>)
    ensures Mixed(was, 0, lo, data) == was
  {
  }

  /** A further segment done */
  lemma {:induction false} HoldsNext(segs: seq<array<byte>>, was: seq<seq<byte>>, before: seq<seq<byte>>, i: nat, lo: nat, data: seq<byte>)
    requires i < |segs| == |was| && before == Mixed(was, i, lo, data)
    requires forall k :: 0 <= k < |segs| && k != i ==> segs[k][..] == before[k]
    requires segs[i][..] == Over(was[i], Offset(was, i), lo, data)
    ensures Holds(segs, Mixed(was, i + 1, lo, data))
  {
    hide Over, Offset;
  }

  /** Behind its end the data makes no difference. */
  lemma {:induction false} MixedDone(was: seq<seq<byte>>, i: nat, lo: nat, data: seq<byte>)
    requires i <= |was| && Offset(was, i) >= lo + |data|
    ensures Mixed(was, i, lo, data) == OverAll(was, lo, data)
  {
    var all := OverAll(was, lo, data);
    forall k | i <= k < |was|
      ensures all[k] == was[k]
    {
      assert was[..k][..i] == was[..i];
      ConcatPrefix(was[..k], i);
    }
  }

  /** What the authenticator has been fed when n bytes of the message are done. */
  ghost predicate Fed(poly: Poly1305.Context, key: seq<byte>, head: seq<byte>, ct: seq<byte>, n: nat)
    reads poly, poly.data, poly.state.Objects()
  {
    poly.Valid() && poly.key == key && poly.fed == head + ct[..Min(n, |ct|)]
  }

  lemma {:induction false} FedNext(head: seq<byte>, ct: seq<byte>, done: nat, length: nat)
    requires done < |ct|
    ensures head + ct[..Min(done, |ct|)] + ct[done..done + Min(length, |ct| - done)] == head + ct[..Min(done + length, |ct|)]
  {
    assert ct[..done] + ct[done..done + Min(length, |ct| - done)] == ct[..Min(done + length, |ct|)];
  }

  lemma AtStart(s: Stream, stream: seq<byte>)
    requires |stream| == 64
    ensures At(s, 1, 0, stream, 0)
  {
  }

  lemma OffsetEnds(was: seq<seq<byte>>)
    ensures Offset(was, 0) == 0 && Offset(was, |was|) == |Concat(was)|
  {
    assert was[..|was|] == was;
  }

  /** Where both loops are after i segments, sl bytes of the n of the message being left: the segments they went
      through hold out, and the authenticator has got fed, the sealed message. */
  ghost predicate Walking(segs: seq<array<byte>>, cipher: ChaCha20.Cipher, poly: Poly1305.Context, was: seq<seq<byte>>, n: nat,
                          head: seq<byte>, fed: seq<byte>, i: nat, sl: int, partial: nat, stream: seq<byte>)
    reads segs, cipher, poly, poly.data, poly.state.Objects()
  {
    && i <= |segs| == |was| && Separate(segs) && poly.data !in segs && n <= INT_MAX && n <= |Concat(was)| && |fed| == n
    && Holds(segs, Mixed(was, i, 0, Encipher(cipher.s, Concat(was)[..n]))) && sl == n - Offset(was, i)
    && cipher.Valid() && (sl > 0 ==> At(cipher.s, cipher.blocks, partial, stream, Offset(was, i)))
    && Fed(poly, poly.key, head, fed, Offset(was, i))
    && (i == 0 || Offset(was, i - 1) < n)
  }

  lemma {:induction false} WalkStart(segs: seq<array<byte>>, cipher: ChaCha20.Cipher, poly: Poly1305.Context, was: seq<seq<byte>>,
                                     n: nat, fed: seq<byte>, stream: seq<byte>)
    requires Holds(segs, was) && Separate(segs) && poly.data !in segs && n <= INT_MAX && n <= |Concat(was)| && |fed| == n
    requires cipher.Valid() && cipher.blocks == 1 && poly.Valid() && |stream| == 64
    ensures Walking(segs, cipher, poly, was, n, poly.fed, fed, 0, n, 0, stream)
  {
    hide At, Encipher, Concat, Poly1305.Context.Valid, ChaCha20.Cipher.Valid, Mixed;
    AtStart(cipher.s, stream);
    MixedNone(was, 0, Encipher(cipher.s, Concat(was)[..n]));
    OffsetEnds(was);
    assert poly.fed + fed[..Min(0, |fed|)] == poly.fed;
  }

  lemma {:induction false} WalkEnd(segs: seq<array<byte>>, cipher: ChaCha20.Cipher, poly: Poly1305.Context, was: seq<seq<byte>>, n: nat,
                                   head: seq<byte>, fed: seq<byte>, i: nat, sl: int, partial: nat, stream: seq<byte>)
    requires Walking(segs, cipher, poly, was, n, head, fed, i, sl, partial, stream) && (sl <= 0 || i == |segs|)
    ensures Holds(segs, OverAll(was, 0, Encipher(cipher.s, Concat(was)[..n]))) && poly.Valid() && poly.fed == head + fed
    ensures i <= |segs| == |was| && sl == n - Offset(was, i) <= 0 && (i == 0 || Offset(was, i - 1) < n)
  {
    OffsetEnds(was);
    hide At, Encipher, Offset, Concat, Poly1305.Context.Valid, ChaCha20.Cipher.Valid, Over, OverAll, Mixed;
    MixedDone(was, i, 0, Encipher(cipher.s, Concat(was)[..n]));
    assert fed[..Min(Offset(was, i), |fed|)] == fed;
  }

  /** A pass of the encrypting loop, for segment i of all of them */
  method SealStep(segs: seq<array<byte>>, i: nat, cipher: ChaCha20.Cipher, poly: Poly1305.Context, sl: nat, partial: nat,
                  stream: seq<byte>, ghost was: seq<seq<byte>>, ghost n: nat, ghost head: seq<byte>)
    returns (partial': nat, stream': seq<byte>)
    requires i < |segs| && 0 < sl && n <= |Concat(was)|
    requires Walking(segs, cipher, poly, was, n, head, Encipher(cipher.s, Concat(was)[..n]), i, sl, partial, stream)
    modifies cipher, segs[i], poly`num, poly`fed, poly.data, poly.state.Objects()
    ensures Walking(segs, cipher, poly, was, n, head, Encipher(cipher.s, Concat(was)[..n]), i + 1, sl - segs[i].Length, partial', stream')
  {
    hide At, Over, Encipher, Offset, Concat, Poly1305.Context.Valid, ChaCha20.Cipher.Valid;
    SegmentOf(was, i);
    ghost var ct := Encipher(cipher.s, Concat(was)[..n]);
    ghost var before, done := Mixed(was, i, 0, ct), Offset(was, i);
    assert segs[i][..] == before[i] == was[i];
    FedNext(head, ct, done, |was[i]|);
    partial', stream' := SealSegment(cipher, poly, segs[i], sl, partial, stream, Concat(was), n, done);
    HoldsNext(segs, was, before, i, 0, ct);
  }

  /** The loop of the encrypting function; i counts the segments it went through */
  method SealAll(segs: seq<array<byte>>, n: nat, cipher: ChaCha20.Cipher, poly: Poly1305.Context, ghost was: seq<seq<byte>>)
    returns (i: nat, sl: int)
    requires Holds(segs, was) && Separate(segs) && n <= INT_MAX && n <= |Concat(was)| && poly.data !in segs
    requires cipher.Valid() && cipher.blocks == 1 && poly.Valid()
    modifies cipher, segs, poly`num, poly`fed, poly.data, poly.state.Objects()
    ensures var ct := Encipher(cipher.s, Concat(was)[..n]);
      Holds(segs, OverAll(was, 0, ct)) && poly.Valid() && poly.fed == old(poly.fed) + ct
    ensures i <= |segs| == |was| && sl == n - Offset(was, i) <= 0 && (i == 0 || Offset(was, i - 1) < n)
  {
    hide At, Encipher, Offset, Concat, Over, OverAll, Poly1305.Context.Valid, ChaCha20.Cipher.Valid, Walking, Holds;
    var partial, stream := 0, Zeros(64);
    ghost var head, ct := poly.fed, Encipher(cipher.s, Concat(was)[..n]);
    WalkStart(segs, cipher, poly, was, n, ct, stream);
    i, sl := 0, n;
    while sl > 0 && i < |segs|
      invariant i <= |segs| && poly.data == old(poly.data) && poly.state == old(poly.state)
      invariant Walking(segs, cipher, poly, was, n, head, ct, i, sl, partial, stream)
    {
      partial, stream := SealStep(segs, i, cipher, poly, sl, partial, stream, was, n, head);
      sl := sl - segs[i].Length;
      i := i + 1;
    }
    WalkEnd(segs, cipher, poly, was, n, head, ct, i, sl, partial, stream);
  }

  /** One pass of the loop of the decrypting function: authenticate the segment, then transform it */
  method OpenSegment(cipher: ChaCha20.Cipher, poly: Poly1305.Context, seg: array<byte>, sl: nat, partial: nat, stream: seq<byte>,
                     ghost whole: seq<byte>, ghost n: nat, ghost done: nat)
    returns (partial': nat, stream': seq<byte>)
    requires cipher.Valid() && poly.Valid() && poly.data != seg
    requires 0 < sl <= INT_MAX && sl == n - done && n <= |whole| && done + seg.Length <= |whole|
    requires seg[..] == whole[done..done + seg.Length] && At(cipher.s, cipher.blocks, partial, stream, done)
    modifies cipher, seg, poly`num, poly`fed, poly.data, poly.state.Objects()
    ensures cipher.Valid() && poly.Valid() && seg[..] == Over(old(seg[..]), done, 0, Encipher(cipher.s, whole[..n]))
    ensures seg.Length < sl ==> At(cipher.s, cipher.blocks, partial', stream', done + seg.Length)
    ensures poly.fed == old(poly.fed) + whole[..n][done..done + Min(seg.Length, sl)]
  {
    hide At, Crypted, Over, Encipher, Poly1305.Context.Valid, ChaCha20.Cipher.Valid;
    var length := Min(sl, seg.Length);
    assert seg[..length] == whole[..n][done..done + length];
    SegmentCrypted(cipher.s, whole, n, seg[..], done, length);
    poly.Update(seg[..length]);
    partial', stream' := Segment(cipher, seg, length, sl, partial, stream, done);
  }

  /** A pass of the decrypting loop, for segment i of all of them */
  method OpenStep(segs: seq<array<byte>>, i: nat, cipher: ChaCha20.Cipher, poly: Poly1305.Context, sl: nat, partial: nat,
                  stream: seq<byte>, ghost was: seq<seq<byte>>, ghost n: nat, ghost head: seq<byte>)
    returns (partial': nat, stream': seq<byte>)
    requires i < |segs| && 0 < sl && n <= |Concat(was)|
    requires Walking(segs, cipher, poly, was, n, head, Concat(was)[..n], i, sl, partial, stream)
    modifies cipher, segs[i], poly`num, poly`fed, poly.data, poly.state.Objects()
    ensures Walking(segs, cipher, poly, was, n, head, Concat(was)[..n], i + 1, sl - segs[i].Length, partial', stream')
  {
    hide At, Over, Encipher, Offset, Concat, Poly1305.Context.Valid, ChaCha20.Cipher.Valid;
    SegmentOf(was, i);
    ghost var pt := Encipher(cipher.s, Concat(was)[..n]);
    ghost var before, done := Mixed(was, i, 0, pt), Offset(was, i);
    assert segs[i][..] == before[i] == was[i];
    FedNext(head, Concat(was)[..n], done, |was[i]|);
    partial', stream' := OpenSegment(cipher, poly, segs[i], sl, partial, stream, Concat(was), n, done);
    HoldsNext(segs, was, before, i, 0, pt);
  }

  /** The loop of the decrypting function; i counts the segments it went through */
  method OpenAll(segs: seq<array<byte>>, n: nat, cipher: ChaCha20.Cipher, poly: Poly1305.Context, ghost was: seq<seq<byte>>)
    returns (i: nat, sl: int)
    requires Holds(segs, was) && Separate(segs) && n <= INT_MAX && n <= |Concat(was)| && poly.data !in segs
    requires cipher.Valid() && cipher.blocks == 1 && poly.Valid()
    modifies cipher, segs, poly`num, poly`fed, poly.data, poly.state.Objects()
    ensures Holds(segs, OverAll(was, 0, Encipher(cipher.s, Concat(was)[..n])))
    ensures poly.Valid() && poly.fed == old(poly.fed) + Concat(was)[..n]
    ensures i <= |segs| == |was| && sl == n - Offset(was, i) <= 0 && (i == 0 || Offset(was, i - 1) < n)
  {
    hide At, Encipher, Offset, Concat, Over, OverAll, Poly1305.Context.Valid, ChaCha20.Cipher.Valid, Walking, Holds;
    var partial, stream := 0, Zeros(64);
    ghost var head, ct := poly.fed, Concat(was)[..n];
    WalkStart(segs, cipher, poly, was, n, ct, stream);
    i, sl := 0, n;
    while sl > 0 && i < |segs|
      invariant i <= |segs| && poly.data == old(poly.data) && poly.state == old(poly.state)
      invariant Walking(segs, cipher, poly, was, n, head, ct, i, sl, partial, stream)
    {
      partial, stream := OpenStep(segs, i, cipher, poly, sl, partial, stream, was, n, head);
      sl := sl - segs[i].Length;
      i := i + 1;
    }
    WalkEnd(segs, cipher, poly, was, n, head, ct, i, sl, partial, stream);
  }

  // ---- the tag ----

  lemma {:induction false} OverIs(w: seq<byte>, off: nat, lo: nat, data: seq<byte>, a: nat, b: nat)
    requires a <= b <= |w| && lo <= off + a && off + b <= lo + |data|
    requires (a == 0 || lo == off + a) && (b == |w| || off + b == lo + |data|)
    ensures Over(w, off, lo, data) == w[..a] + data[off + a - lo..off + b - lo] + w[b..]
  {
  }

  lemma {:induction false} OverMisses(w: seq<byte>, off: nat, lo: nat, data: seq<byte>)
    requires off >= lo + |data| || off + |w| <= lo || data == [] || w == []
    ensures Over(w, off, lo, data) == w
  {
  }

  /** scatterwalk_map_and_copy(data, segs, start, |data|, 1) */
  method ScatterWrite(segs: seq<array<byte>>, start: nat, data: seq<byte>, ghost was: seq<seq<byte>>)
    requires Holds(segs, was) && Separate(segs)
    modifies segs
    ensures Holds(segs, OverAll(was, start, data))
  {
    assert |was| == |segs|;
    MixedNone(was, start, data);
    OffsetEnds(was);
    hide *;
    var off, i := 0, 0;
    while i < |segs|
      invariant i <= |segs| && Holds(segs, Mixed(was, i, start, data)) && off == Offset(was, i)
    {
      off := ScatterStep(segs, i, off, start, data, was);
      i := i + 1;
    }
    MixedAll(was, start, data);
  }

  lemma MixedAll(was: seq<seq<byte>>, lo: nat, data: seq<byte>)
    ensures Mixed(was, |was|, lo, data) == OverAll(was, lo, data)
  {
  }

  /** What one segment gets of the data */
  method ScatterStep(segs: seq<array<byte>>, i: nat, off: nat, start: nat, data: seq<byte>, ghost was: seq<seq<byte>>) returns (off': nat)
    requires i < |segs| == |was| && Separate(segs) && Holds(segs, Mixed(was, i, start, data)) && off == Offset(was, i)
    modifies segs
    ensures Holds(segs, Mixed(was, i + 1, start, data)) && off' == Offset(was, i + 1)
  {
    hide Over, Offset, Concat;
    ghost var before := Mixed(was, i, start, data);
    var seg := segs[i];
    assert seg[..] == before[i] == was[i];
    SegmentOf(was, i);
    off' := off + seg.Length;
    var a := if start <= off then 0 else start - off;
    var b := if off' <= start + |data| then seg.Length else start + |data| - off;
    if a < b && off < start + |data| {
      OverIs(was[i], off, start, data, a, b);
      Put(seg, a, data[off + a - start..off + b - start]);
    } else {
      OverMisses(was[i], off, start, data);
    }
    HoldsNext(segs, was, before, i, start, data);
  }

  /** Only segment k has any of the data. */
  lemma {:induction false} OverOne(was: seq<seq<byte>>, k: nat, lo: nat, data: seq<byte>)
    requires k < |was| && Offset(was, k) <= lo && lo + |data| <= Offset(was, k) + |was[k]|
    ensures OverAll(was, lo, data) == was[k := Over(was[k], Offset(was, k), lo, data)]
  {
    var all := OverAll(was, lo, data);
    forall j | 0 <= j < |was| && j != k
      ensures all[j] == was[j]
    {
      SegmentOf(was, j);
      SegmentOf(was, k);
      if j < k {
        assert was[..k][..j + 1] == was[..j + 1];
        ConcatPrefix(was[..k], j + 1);
      } else {
        assert was[..j][..k + 1] == was[..k + 1];
        ConcatPrefix(was[..j], k + 1);
      }
      OverMisses(was[j], Offset(was, j), lo, data);
    }
  }

  /** The end of the last segment visited, where the tag is if 16 bytes or more of it lie behind the message */
  method TagPlace(segs: seq<array<byte>>, i: nat, sl: int, ghost now: seq<seq<byte>>, ghost n: nat) returns (k: nat, at: nat)
    requires Holds(segs, now) && 0 < i <= |segs| && sl == n - Offset(now, i) <= -16 && Offset(now, i - 1) < n
    ensures k == i - 1 && at + 16 <= segs[k].Length && at == n - Offset(now, k)
  {
    hide Concat, Offset;
    k := i - 1;
    SegmentOf(now, k);
    assert segs[k][..] == now[k];
    at := segs[k].Length + sl;
  }

  /** Where the encrypting function puts the tag */
  method StoreTag(segs: seq<array<byte>>, i: nat, sl: int, n: nat, mac: seq<byte>, ghost now: seq<seq<byte>>)
    requires Holds(segs, now) && Separate(segs) && |mac| == 16 && i <= |segs|
    requires sl == n - Offset(now, i) <= 0 && (i == 0 || Offset(now, i - 1) < n)
    modifies segs
    ensures Holds(segs, OverAll(now, n, mac))
  {
    OffsetEnds(now);
    hide Concat, Offset, Over, OverAll;
    if sl <= -16 {
      var k, at := TagPlace(segs, i, sl, now, n);
      OverOne(now, k, n, mac);
      OverIs(now[k], Offset(now, k), n, mac, at, at + 16);
      Put(segs[k], at, mac);
    } else {
      ScatterWrite(segs, n, mac, now);
    }
  }

  /** The bytes lo to hi of a message, as far as there are any. */
  function Slice(m: seq<byte>, lo: nat, hi: nat): seq<byte>
    requires lo <= hi
  {
    m[Min(lo, |m|)..Min(hi, |m|)]
  }

  lemma {:induction false} SliceConcat(a: seq<byte>, b: seq<byte>, lo: nat, hi: nat)
    requires lo <= hi
    ensures Slice(a + b, lo, hi) ==
      Slice(a, lo, hi) + Slice(b, if lo <= |a| then 0 else lo - |a|, if hi <= |a| then 0 else hi - |a|)
  {
  }

  lemma {:induction false} ReadStart(now: seq<seq<byte>>, start: nat, len: nat)
    requires start + len <= |Concat(now)|
    ensures Offset(now, 0) == 0 && Slice(Concat(now[..0]), start, start + len) == []
    ensures Slice(Concat(now[..|now|]), start, start + len) == Concat(now)[start..start + len]
  {
    assert Concat(now[..0]) == [] && now[..|now|] == now;
    hide Concat;
    SliceInside([], start, start + len);
    SliceInside(Concat(now), start, start + len);
  }

  lemma {:induction false} ReadNext(now: seq<seq<byte>>, i: nat, start: nat, len: nat)
    requires i < |now|
    ensures Offset(now, i + 1) == Offset(now, i) + |now[i]|
    ensures var off := Offset(now, i);
      var lo, hi := if start <= off then 0 else start - off, if start + len <= off then 0 else start + len - off;
      Slice(Concat(now[..i + 1]), start, start + len) == Slice(Concat(now[..i]), start, start + len) + Slice(now[i], lo, hi)
  {
    hide Concat, Slice, Offset;
    ConcatNext(now, i);
    SegmentOf(now, i);
    OffsetIs(now, i);
    SliceConcat(Concat(now[..i]), now[i], start, start + len);
  }

  lemma HoldsAt(segs: seq<array<byte>>, now: seq<seq<byte>>)
    requires Holds(segs, now)
    ensures |segs| == |now| && forall k :: 0 <= k < |segs| ==> segs[k][..] == now[k]
  {
  }

  /** scatterwalk_map_and_copy(data, segs, start, len, 0) */
  method ScatterRead(segs: seq<array<byte>>, start: nat, len: nat, ghost now: seq<seq<byte>>) returns (data: seq<byte>)
    requires Holds(segs, now) && start + len <= |Concat(now)|
    ensures data == Concat(now)[start..start + len]
  {
    hide Concat, Slice, Offset, Holds;
    HoldsAt(segs, now);
    ReadStart(now, start, len);
    data := [];
    var off := 0;
    for i := 0 to |segs|
      invariant off == Offset(now, i) && data == Slice(Concat(now[..i]), start, start + len)
    {
      ReadNext(now, i, start, len);
      var lo := if start <= off then 0 else start - off;
      var hi := if start + len <= off then 0 else start + len - off;
      data := data + Slice(segs[i][..], lo, hi);
      off := off + segs[i].Length;
    }
  }

  lemma OffsetIs(ss: seq<seq<byte>>, k: nat)
    requires k <= |ss|
    ensures Offset(ss, k) == |Concat(ss[..k])|
  {
  }

  lemma ConcatNext(ss: seq<seq<byte>>, k: nat)
    requires k < |ss|
    ensures Concat(ss[..k + 1]) == Concat(ss[..k]) + ss[k]
  {
    assert ss[..k + 1][..k] == ss[..k];
  }

  lemma SliceInside(m: seq<byte>, lo: nat, hi: nat)
    requires lo <= hi
    ensures hi <= |m| ==> Slice(m, lo, hi) == m[lo..hi]
    ensures Slice([], lo, hi) == []
  {
  }

  /** Where the decrypting function reads the tag */
  method LoadTag(segs: seq<array<byte>>, i: nat, sl: int, n: nat, ghost now: seq<seq<byte>>) returns (mac: seq<byte>)
    requires Holds(segs, now) && i <= |segs| && n + 16 <= |Concat(now)|
    requires sl == n - Offset(now, i) <= 0 && (i == 0 || Offset(now, i - 1) < n)
    ensures mac == Concat(now)[n..n + 16]
  {
    OffsetEnds(now);
    hide Concat, Offset;
    if sl <= -16 {
      var k, at := TagPlace(segs, i, sl, now, n);
      SegmentOf(now, k);
      mac := segs[k][at..at + 16];
      assert mac == now[k][at..at + 16];
    } else {
      mac := ScatterRead(segs, n, 16, now);
    }
  }

  lemma {:induction false} OverOffset(ss: seq<seq<byte>>, lo: nat, data: seq<byte>, k: nat)
    requires k <= |ss|
    ensures Offset(OverAll(ss, lo, data), k) == Offset(ss, k)
  {
    hide Over;
    var all, front := OverAll(ss, lo, data)[..k], OverAll(ss[..k], lo, data);
    forall j | 0 <= j < k
      ensures all[j] == front[j]
    {
      assert ss[..k][..j] == ss[..j];
    }
    assert all == front;
    OverConcat(ss[..k], lo, data);
  }

  lemma {:induction false} OverFront(whole: seq<byte>, n: nat, out: seq<byte>)
    requires n <= |whole| && |out| == n
    ensures Over(whole, 0, 0, out) == out + whole[n..]
  {
  }

  lemma {:induction false} OverTag(whole: seq<byte>, n: nat, out: seq<byte>, mac: seq<byte>)
    requires n + |mac| <= |whole| && |out| == n
    ensures Over(out + whole[n..], 0, n, mac) == out + mac + whole[n + |mac|..]
  {
  }

  /** The parts of a message whose segments got out over their front and mac behind it */
  lemma {:induction false} SealedConcat(was: seq<seq<byte>>, n: nat, out: seq<byte>, mac: seq<byte>)
    requires n + |mac| <= |Concat(was)| && |out| == n
    ensures var mid := OverAll(was, 0, out);
      && Concat(mid) == out + Concat(was)[n..]
      && Concat(OverAll(mid, n, mac)) == out + mac + Concat(was)[n + |mac|..]
  {
    hide Concat, Over, OverAll;
    var mid := OverAll(was, 0, out);
    OverConcat(was, 0, out);
    OverConcat(mid, n, mac);
    OverFront(Concat(was), n, out);
    OverTag(Concat(was), n, out, mac);
  }

  /** The encrypting function up to its tag */
  method SealMessage(segs: seq<array<byte>>, n: nat, ad: seq<byte>, s: Stream, narrow: bool, ghost was: seq<seq<byte>>)
    returns (i: nat, sl: int, mac: seq<byte>)
    requires Holds(segs, was) && Separate(segs) && n <= INT_MAX && n <= |Concat(was)|
    modifies segs
    ensures var ct := Encipher(s, Concat(was)[..n]); var mid := OverAll(was, 0, ct);
      && Holds(segs, mid) && mac == Mac(s, ad, ct) && i <= |mid|
      && sl == n - Offset(mid, i) <= 0 && (i == 0 || Offset(mid, i - 1) < n)
  {
    hide Concat, Offset, Over, OverAll, Encipher, Mac, Padded, OneTimeKey, Poly1305.Context.Valid, ChaCha20.Cipher.Valid, Holds;
    var cipher, poly := Start(s, ad, narrow);
    i, sl := SealAll(segs, n, cipher, poly, was);
    ghost var ct := Encipher(s, Concat(was)[..n]);
    mac := Finish(s, poly, ad, ct, n);
    OverOffset(was, 0, ct, i);
    if i > 0 {
      OverOffset(was, 0, ct, i - 1);
    }
  }

  /** chacha20poly1305_encrypt_sg_inplace: for every way of cutting the message, what the segments hold
      afterwards is what the contiguous function would have written. */
  method EncryptSg(segs: seq<array<byte>>, n: nat, ad: seq<byte>, s: Stream, narrow: bool, ghost was: seq<seq<byte>>)
    returns (ok: bool, ghost now: seq<seq<byte>>)
    requires Holds(segs, was) && Separate(segs) && n + POLY1305_MAC_SIZE <= |Concat(was)|
    modifies segs
    ensures Holds(segs, now) && (ok <==> n <= INT_MAX)
    ensures ok ==> Concat(now) == Seal(s, ad, Concat(was)[..n]) + Concat(was)[n + 16..]
    ensures !ok ==> now == was
  {
    hide Concat, Offset, OverAll, Encipher, Mac, Holds, Separate;
    if n > INT_MAX {
      return false, was;
    }
    HoldsAt(segs, was);
    ghost var ct := Encipher(s, Concat(was)[..n]);
    ghost var mid := OverAll(was, 0, ct);
    var i, sl, mac := SealMessage(segs, n, ad, s, narrow, was);
    StoreTag(segs, i, sl, n, mac, mid);
    now := OverAll(mid, n, mac);
    SealedConcat(was, n, ct, mac);
    ok := true;
  }

  /** The decrypting function up to its tag */
  method OpenMessage(segs: seq<array<byte>>, n: nat, ad: seq<byte>, s: Stream, narrow: bool, ghost was: seq<seq<byte>>)
    returns (i: nat, sl: int, mac: seq<byte>)
    requires Holds(segs, was) && Separate(segs) && n <= INT_MAX && n <= |Concat(was)|
    modifies segs
    ensures var mid := OverAll(was, 0, Encipher(s, Concat(was)[..n]));
      && Holds(segs, mid) && mac == Mac(s, ad, Concat(was)[..n]) && i <= |mid|
      && sl == n - Offset(mid, i) <= 0 && (i == 0 || Offset(mid, i - 1) < n)
  {
    hide Concat, Offset, Over, OverAll, Encipher, Mac, Padded, OneTimeKey, Poly1305.Context.Valid, ChaCha20.Cipher.Valid, Holds;
    var cipher, poly := Start(s, ad, narrow);
    i, sl := OpenAll(segs, n, cipher, poly, was);
    mac := Finish(s, poly, ad, Concat(was)[..n], n);
    ghost var pt := Encipher(s, Concat(was)[..n]);
    OverOffset(was, 0, pt, i);
    if i > 0 {
      OverOffset(was, 0, pt, i - 1);
    }
  }

  /** chacha20poly1305_decrypt_sg_inplace: accepts what the contiguous function accepts. The segments are
      decrypted in any case. */
  method DecryptSg(segs: seq<array<byte>>, srcLen: nat, ad: seq<byte>, s: Stream, narrow: bool, ghost was: seq<seq<byte>>)
    returns (ok: bool, ghost now: seq<seq<byte>>)
    requires Holds(segs, was) && Separate(segs) && srcLen <= |Concat(was)|
    modifies segs
    ensures Holds(segs, now)
    ensures srcLen < 16 || srcLen > INT_MAX ==> !ok && now == was
    ensures 16 <= srcLen <= INT_MAX ==> var n := srcLen - 16;
      && (ok <==> Open(s, ad, Concat(was)[..srcLen]).Some?)
      && Concat(now) == Encipher(s, Concat(was)[..n]) + Concat(was)[n..]
    ensures ok ==> Open(s, ad, Concat(was)[..srcLen]) == Some(Concat(now)[..srcLen - 16])
  {
    if srcLen < POLY1305_MAC_SIZE || srcLen > INT_MAX {
      return false, was;
    }
    hide Concat, Encipher, Open, Holds;
    ok, now := OpenSg(segs, srcLen - POLY1305_MAC_SIZE, ad, s, narrow, was);
  }

  /** The decrypting function on a message of n bytes and a tag */
  method OpenSg(segs: seq<array<byte>>, n: nat, ad: seq<byte>, s: Stream, narrow: bool, ghost was: seq<seq<byte>>)
    returns (ok: bool, ghost now: seq<seq<byte>>)
    requires Holds(segs, was) && Separate(segs) && n <= INT_MAX && n + 16 <= |Concat(was)|
    modifies segs
    ensures Holds(segs, now) && (ok <==> Open(s, ad, Concat(was)[..n + 16]).Some?)
    ensures Concat(now) == Encipher(s, Concat(was)[..n]) + Concat(was)[n..]
    ensures ok ==> Open(s, ad, Concat(was)[..n + 16]) == Some(Concat(now)[..n])
  {
    assert |was| == |segs|;
    hide Concat, Offset, OverAll, Encipher, Mac, Open, Holds;
    ghost var whole := Concat(was);
    ghost var pt := Encipher(s, whole[..n]);
    now := OverAll(was, 0, pt);
    var i, sl, mac := OpenMessage(segs, n, ad, s, narrow, was);
    SealedConcat(was, n, pt, mac);
    var tag := LoadTag(segs, i, sl, n, now);
    OpenedTag(whole, n, pt);
    OpenParts(s, ad, whole, n);
    ok := tag == mac;
  }

  lemma {:induction false} OpenedTag(whole: seq<byte>, n: nat, pt: seq<byte>)
    requires n + 16 <= |whole| && |pt| == n
    ensures (pt + whole[n..])[n..n + 16] == whole[n..n + 16] && (pt + whole[n..])[..n] == pt
  {
  }

  lemma {:induction false} OpenParts(s: Stream, ad: seq<byte>, whole: seq<byte>, n: nat)
    requires n + 16 <= |whole|
    ensures var o := Open(s, ad, whole[..n + 16]);
      && (o.Some? <==> whole[n..n + 16] == Mac(s, ad, whole[..n]))
      && (o.Some? ==> o.value == Encipher(s, whole[..n]))
  {
    hide Mac, Encipher;
    assert whole[..n + 16][..n] == whole[..n] && whole[..n + 16][n..] == whole[n..n + 16];
  }

  /** However a message was cut when it was sealed and however the sealed one is cut when it arrives,
      it is accepted and the message is back. */
  method SealAndOpen(a: seq<array<byte>>, b: seq<array<byte>>, n: nat, ad: seq<byte>, s: Stream, narrow: bool,
                     ghost wasA: seq<seq<byte>>, ghost wasB: seq<seq<byte>>)
    returns (ok: bool, ghost nowA: seq<seq<byte>>, ghost nowB: seq<seq<byte>>)
    requires Holds(a, wasA) && Separate(a) && n + 16 <= |Concat(wasA)| && n + 16 <= INT_MAX
    requires Holds(b, wasB) && Separate(b) && Concat(wasB) == Seal(s, ad, Concat(wasA)[..n])
    requires forall i, j :: 0 <= i < |a| && 0 <= j < |b| ==> a[i] != b[j]
    modifies a, b
    ensures Holds(a, nowA) && Concat(wasB) <= Concat(nowA)
    ensures Holds(b, nowB) && ok && Concat(wasA)[..n] <= Concat(nowB)
  {
    hide Concat, Encipher, Open, Seal, Mac;
    SealLength(s, ad, Concat(wasA)[..n]);
    ok, nowA := EncryptSg(a, n, ad, s, narrow, wasA);
    OpenSeal(s, ad, Concat(wasA)[..n]);
    assert Concat(wasB)[..n + 16] == Concat(wasB);
    ok, nowB := DecryptSg(b, n + 16, ad, s, narrow, wasB);
  }

  lemma SealLength(s: Stream, ad: seq<byte>, pt: seq<byte>)
    ensures |Seal(s, ad, pt)| == |pt| + 16
  {
  }
}
