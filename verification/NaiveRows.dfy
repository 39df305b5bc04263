/** The self-test's list as it is stored: addresses and masks, compared with & and
    memcmp. Its rows stand for the networks of NaiveTable. */
module NaiveRows {
  import opened Words
  import opened TrieNodes
  import opened Address
  import opened Forest
  import Naive = NaiveTable
  import AllowedIps

  // ---- masks ----

  /** (0xFFFFFFFFUL << (32 - k)) & 0xFFFFFFFFUL */
  function TopWord(k: nat): nat
    requires k <= 32
  {
    0xffff_ffff * Pow2(32 - k) % 0x1_0000_0000
  }

  /** horrible_cidr_to_mask */
  function CidrToMask(cidr: nat): (m: seq<byte>)
    requires cidr <= 128
    ensures |m| == 16
  {
    var m := seq(16, i requires 0 <= i < 16 => if i < cidr / 8 then 255 else 0);
    if cidr % 32 == 0 then m else m[..4 * (cidr / 32)] + Be32(TopWord(cidr % 32)) + m[4 * (cidr / 32) + 4..]
  }

  /** Byte i of a mask of cidr bits */
  function MaskByte(cidr: nat, i: nat): byte {
    if 8 * i + 8 <= cidr then 255 else if cidr <= 8 * i then 0 else ClearLow(255, 8 - cidr % 8)
  }

  lemma {:induction false} TopWordValue(k: nat, p: nat)
    requires k <= 32 && p == Pow2(32 - k) <= 0x1_0000_0000 && p > 0
    ensures TopWord(k) == 0x1_0000_0000 - p
  {
    hide Pow2;
    DivUnique(0xffff_ffff * p, 0x1_0000_0000, p - 1, 0x1_0000_0000 - p);
  }

  lemma {:induction false} ClearedOnes(m: nat, p: nat)
    requires 1 <= m <= 7 && p == Pow2(m)
    ensures 2 <= p <= 128 && ClearLow(255, m) == 256 - p
  {
    assert Pow2(1) == 2;
    assert p == if m == 1 then 2 else if m == 2 then 4 else if m == 3 then 8 else if m == 4 then 16
                else if m == 5 then 32 else if m == 6 then 64 else 128 by {
      SevenPowers();
    }
    hide Pow2;
  }

  lemma SevenPowers()
    ensures Pow2(1) == 2 && Pow2(2) == 4 && Pow2(3) == 8 && Pow2(4) == 16 && Pow2(5) == 32 && Pow2(6) == 64 && Pow2(7) == 128
  {
    assert Pow2(3) == 8;
    assert Pow2(5) == 32;
  }

  /** 2^(32 - k) for a mask that ends inside byte q of its word, or behind it */
  lemma {:induction false} LastOne(k: nat, q: nat, p: nat)
    requires q < 4 && 8 * q < k <= 8 * q + 8 && p == Pow2(8 * q + 8 - k)
    ensures Pow2(32 - k) == p * (if q == 0 then 0x100_0000 else if q == 1 then 0x1_0000 else if q == 2 then 0x100 else 1)
  {
    Pow2Add(8 * q + 8 - k, 8 * (3 - q));
    assert Pow2(0) == 1;
    hide Pow2;
    SmallPowers();
    Powers();
  }

  lemma {:induction false} WordBytes(k: nat, q: nat)
    requires q < 4 && 8 * q < k <= 8 * q + 8
    ensures Be32(TopWord(k)) == [MaskByte(k, 0), MaskByte(k, 1), MaskByte(k, 2), MaskByte(k, 3)]
  {
    var p := Pow2(8 * q + 8 - k);
    LastOne(k, q, p);
    assert p == if k == 8 * q + 8 then 1 else 256 - MaskByte(k, q) by {
      if k == 8 * q + 8 {
        assert Pow2(0) == 1;
      } else {
        assert 8 - k % 8 == 8 * q + 8 - k;
        ClearedOnes(8 * q + 8 - k, p);
      }
    }
    hide Pow2, ClearLow, Be32;
    TopWordValue(k, Pow2(32 - k));
    Digits(TopWord(k), 0, MaskByte(k, 0), MaskByte(k, 1), MaskByte(k, 2), MaskByte(k, 3));
  }

  lemma {:induction false} MaskBytes(cidr: nat, i: nat)
    requires cidr <= 128 && i < 16
    ensures CidrToMask(cidr)[i] == MaskByte(cidr, i)
  {
    hide ClearLow, Be32, TopWord;
    var w, k := cidr / 32, cidr % 32;
    ModParts(cidr, 32);
    if k != 0 && 4 * w <= i < 4 * w + 4 {
      assert CidrToMask(cidr)[i] == Be32(TopWord(k))[i - 4 * w];
      WordBytes(k, (k - 1) / 8);
      ModParts(k, 8);
      DivUnique(cidr, 8, 4 * w + k / 8, k % 8);
    } else {
      WholeMaskByte(cidr, w, k, i);
    }
  }

  lemma WholeMaskByte(cidr: nat, w: nat, k: nat, i: nat)
    requires cidr == 32 * w + k && k < 32 && (k == 0 || i < 4 * w || 4 * w + 4 <= i)
    ensures MaskByte(cidr, i) == if i < cidr / 8 then 255 else 0
  {
    hide ClearLow;
  }

  lemma {:induction false} MaskByteBits(cidr: nat, j: nat, b: nat)
    requires b < 8
    ensures Bit(MaskByte(cidr, j), b) <==> 8 * j + 7 - b < cidr
  {
    hide ClearLow, Bit;
    ZeroBits(b);
    OneBits(b);
    if 8 * j < cidr < 8 * j + 8 {
      DivUnique(cidr, 8, j, cidr - 8 * j);
      ClearLowBits(255, 8 - (cidr - 8 * j), b);
    }
  }

  /** A mask has ones up to its length and zeroes behind it. */
  lemma {:induction false} MaskBits(cidr: nat, i: nat)
    requires cidr <= 128 && i < 128
    ensures BeBits(CidrToMask(cidr))[i] <==> i < cidr
  {
    hide CidrToMask, MaskByte, Bit;
    var j, b := i / 8, 7 - i % 8;
    MaskBytes(cidr, j);
    MaskByteBits(cidr, j, b);
  }

  lemma OneBits(i: nat)
    requires i < 8
    ensures Bit(255, i)
  {
    assert Bit(15, 3) && Bit(15, 2) && Bit(15, 1) && Bit(15, 0);
    assert i >= 4 ==> (Bit(255, i) <==> Bit(127, i - 1)) && (Bit(127, i - 1) <==> Bit(63, i - 2)) && (Bit(63, i - 2) <==> Bit(31, i - 3));
    assert i >= 4 ==> (Bit(31, i - 3) <==> Bit(15, i - 4));
  }

  lemma {:induction false} AndBits(x: nat, y: nat, i: nat)
    ensures Bit(And(x, y), i) <==> Bit(x, i) && Bit(y, i)
    decreases i
  {
    AndHalves(x, y);
    hide And;
    if i > 0 {
      AndBits(x / 2, y / 2, i - 1);
    }
  }

  function AndByte(x: byte, y: byte): byte {
    AndBound(x, y);
    And(x, y)
  }

  function AndBytes(a: seq<byte>, m: seq<byte>): (r: seq<byte>)
    requires |a| <= |m|
    ensures |r| == |a|
  {
    seq(|a|, i requires 0 <= i < |a| => AndByte(a[i], m[i]))
  }

  lemma {:induction false} AndBytesBits(a: seq<byte>, m: seq<byte>, i: nat)
    requires |a| <= |m| && i < 8 * |a|
    ensures BeBits(AndBytes(a, m))[i] <==> BeBits(a)[i] && BeBits(m)[i]
  {
    hide And, Bit;
    AndBits(a[i / 8], m[i / 8], 7 - i % 8);
  }

  lemma {:induction false} SameBits(x: nat, y: nat, n: nat)
    requires x < Pow2(n) && y < Pow2(n) && forall i :: 0 <= i < n ==> (Bit(x, i) <==> Bit(y, i))
    ensures x == y
  {
    if n > 0 {
      assert Bit(x, 0) <==> Bit(y, 0);
      forall i | 0 <= i < n - 1
        ensures Bit(x / 2, i) <==> Bit(y / 2, i)
      {
        assert Bit(x, i + 1) <==> Bit(y, i + 1);
      }
      SameBits(x / 2, y / 2, n - 1);
    }
  }

  /** Bytes are equal if their bits are, as memcmp and == need it. */
  lemma {:induction false} BytesByBits(a: seq<byte>, b: seq<byte>)
    requires |a| == |b| && forall i :: 0 <= i < 8 * |a| ==> (BeBits(a)[i] <==> BeBits(b)[i])
    ensures a == b
  {
    forall j | 0 <= j < |a|
      ensures a[j] == b[j]
    {
      forall i | 0 <= i < 8
        ensures Bit(a[j], i) <==> Bit(b[j], i)
      {
        assert BeBits(a)[8 * j + (7 - i)] <==> BeBits(b)[8 * j + (7 - i)];
        hide Bit;
        assert (8 * j + (7 - i)) / 8 == j && (8 * j + (7 - i)) % 8 == 7 - i;
      }
      assert Pow2(8) == 256;
      SameBits(a[j], b[j], 8);
    }
  }

  // ---- rows ----

  /** struct horrible_allowedips_node */
  datatype Row = Row(v6: bool, ip: seq<byte>, mask: seq<byte>, value: Peer)

  function Bits(v6: bool): nat {
    if v6 then 128 else 32
  }

  /** horrible_allowedips_insert_v4 and _v6 up to the list, with horrible_mask_self */
  function RowFor(bits: nat, ip: seq<byte>, cidr: nat, value: Peer): Row
    requires IsKey(ip, bits) && cidr <= bits
  {
    var mask := CidrToMask(cidr);
    Row(bits == 128, AndBytes(ip, mask) + Zeros(16 - |ip|), mask, value)
  }

  /** horrible_match_v4 and _v6 */
  predicate Matches(r: Row, ip: seq<byte>)
    requires |ip| <= |r.ip| && |ip| <= |r.mask|
  {
    AndBytes(ip, r.mask) == r.ip[..|ip|]
  }

  /** The row is the masked form of the entry. */
  ghost predicate Stands(r: Row, e: Naive.Entry) {
    && |r.ip| == 16 && r.value == e.peer && e.net.bits == Bits(r.v6) && |e.net.prefix| <= e.net.bits
    && r.mask == CidrToMask(|e.net.prefix|)
    && forall i :: 0 <= i < 128 ==> (BeBits(r.ip)[i] <==> i < |e.net.prefix| && e.net.prefix[i])
  }

  lemma {:induction false} RowStands(bits: nat, ip: seq<byte>, cidr: nat, value: Peer)
    requires IsKey(ip, bits) && cidr <= bits
    ensures Stands(RowFor(bits, ip, cidr, value), Naive.Entry(NetAt(BeBits(ip), cidr), value))
  {
    var mask := CidrToMask(cidr);
    var masked := AndBytes(ip, mask);
    var r := RowFor(bits, ip, cidr, value);
    hide CidrToMask, AndBytes, Bit;
    forall i | 0 <= i < 128
      ensures BeBits(r.ip)[i] <==> i < cidr && BeBits(ip)[..cidr][i]
    {
      if i < bits {
        AndBytesBits(ip, mask, i);
        MaskBits(cidr, i);
        assert BeBits(r.ip)[i] == BeBits(masked)[i];
      } else {
        ZeroBits(7 - i % 8);
      }
    }
  }

  lemma {:induction false} MatchStands(r: Row, e: Naive.Entry, bits: nat, ip: seq<byte>)
    requires Stands(r, e) && IsKey(ip, bits) && r.v6 == (bits == 128)
    ensures Matches(r, ip) <==> Naive.EntryMatches(e, BeBits(ip))
  {
    var c, prefix, key := |e.net.prefix|, e.net.prefix, BeBits(ip);
    var masked, mine := AndBytes(ip, r.mask), r.ip[..|ip|];
    hide CidrToMask, AndBytes, Bit;
    forall i | 0 <= i < bits
      ensures BeBits(masked)[i] <==> key[i] && i < c
      ensures BeBits(mine)[i] <==> i < c && prefix[i]
    {
      AndBytesBits(ip, r.mask, i);
      MaskBits(c, i);
      assert BeBits(mine)[i] == BeBits(r.ip)[i];
    }
    if Matches(r, ip) {
      assert forall i :: 0 <= i < c ==> key[i] == prefix[i] by {
        forall i | 0 <= i < c
          ensures key[i] == prefix[i]
        {
          assert BeBits(masked)[i] == BeBits(mine)[i];
        }
      }
      assert key[..c] == prefix;
    }
    if Naive.EntryMatches(e, key) {
      assert forall i :: 0 <= i < c ==> key[i] == prefix[i];
      BytesByBits(masked, mine);
    }
  }

  /** hweight32 over the words of a mask */
  function Weight(bits: seq<bool>): nat {
    if bits == [] then 0 else Weight(bits[..|bits| - 1]) + if bits[|bits| - 1] then 1 else 0
  }

  function MaskToCidr(mask: seq<byte>): nat {
    Weight(BeBits(mask))
  }

  lemma {:induction false} WeightOnes(bits: seq<bool>, c: nat)
    requires forall i :: 0 <= i < |bits| ==> (bits[i] <==> i < c)
    ensures Weight(bits) == if c < |bits| then c else |bits|
  {
    if bits != [] {
      WeightOnes(bits[..|bits| - 1], c);
    }
  }

  lemma {:induction false} MaskToCidrIs(cidr: nat)
    requires cidr <= 128
    ensures MaskToCidr(CidrToMask(cidr)) == cidr
  {
    forall i | 0 <= i < 128
      ensures BeBits(CidrToMask(cidr))[i] <==> i < cidr
    {
      MaskBits(cidr, i);
    }
    hide CidrToMask, BeBits;
    WeightOnes(BeBits(CidrToMask(cidr)), cidr);
  }

  /** The comparisons of the first loop of horrible_insert_ordered */
  predicate SameKey(r: Row, q: Row) {
    r.v6 == q.v6 && r.mask == q.mask && r.ip == q.ip
  }

  lemma {:induction false} SameKeyStands(r: Row, e: Naive.Entry, q: Row, d: Naive.Entry)
    requires Stands(r, e) && Stands(q, d)
    ensures SameKey(r, q) <==> e.net == d.net
  {
    MaskToCidrIs(|e.net.prefix|);
    MaskToCidrIs(|d.net.prefix|);
    hide CidrToMask, MaskToCidr;
    if SameKey(r, q) {
      var c := |e.net.prefix|;
      assert forall i :: 0 <= i < c ==> (BeBits(r.ip)[i] <==> e.net.prefix[i]) && (BeBits(r.ip)[i] <==> d.net.prefix[i]);
      hide BeBits;
      assert e.net.prefix == d.net.prefix;
    }
    if e.net == d.net {
      BytesByBits(r.ip, q.ip);
    }
  }

  // ---- the list ----

  ghost predicate StandFor(rows: seq<Row>, list: seq<Naive.Entry>) {
    |rows| == |list| && forall i :: 0 <= i < |rows| ==> Stands(rows[i], list[i])
  }

  /** horrible_allowedips_lookup_v4 and _v6 */
  function Lookup(rows: seq<Row>, bits: nat, ip: seq<byte>): Peer?
    requires IsKey(ip, bits) && forall i :: 0 <= i < |rows| ==> |rows[i].ip| == 16 == |rows[i].mask|
  {
    if rows == [] then null
    else if rows[0].v6 == (bits == 128) && Matches(rows[0], ip) then rows[0].value
    else Lookup(rows[1..], bits, ip)
  }

  lemma {:induction false} LookupStands(rows: seq<Row>, list: seq<Naive.Entry>, bits: nat, ip: seq<byte>)
    requires IsKey(ip, bits) && StandFor(rows, list)
    ensures forall i :: 0 <= i < |rows| ==> |rows[i].ip| == 16 == |rows[i].mask|
    ensures Lookup(rows, bits, ip) == Naive.Lookup(list, BeBits(ip))
  {
    assert forall i :: 0 <= i < |rows| ==> Stands(rows[i], list[i]);
    if rows != [] {
      assert Stands(rows[0], list[0]);
      hide Stands, Matches;
      if rows[0].v6 == (bits == 128) {
        MatchStands(rows[0], list[0], bits, ip);
      } else {
        OtherWidth(rows[0], list[0], bits, ip);
      }
      LookupStands(rows[1..], list[1..], bits, ip);
    }
  }

  lemma OtherWidth(r: Row, e: Naive.Entry, bits: nat, ip: seq<byte>)
    requires Stands(r, e) && IsKey(ip, bits) && r.v6 != (bits == 128)
    ensures !Naive.EntryMatches(e, BeBits(ip)) && r.value == e.peer
  {
  }

  function Overwrite(rows: seq<Row>, r: Row): seq<Row> {
    if rows == [] then []
    else if SameKey(rows[0], r) then [rows[0].(value := r.value)] + rows[1..]
    else [rows[0]] + Overwrite(rows[1..], r)
  }

  function Place(rows: seq<Row>, r: Row): seq<Row> {
    if rows == [] then [r]
    else if MaskToCidr(rows[0].mask) <= MaskToCidr(r.mask) then [r] + rows
    else [rows[0]] + Place(rows[1..], r)
  }

  predicate HasKey(rows: seq<Row>, r: Row) {
    rows != [] && (SameKey(rows[0], r) || HasKey(rows[1..], r))
  }

  /** horrible_insert_ordered */
  function Insert(rows: seq<Row>, r: Row): seq<Row> {
    if HasKey(rows, r) then Overwrite(rows, r) else Place(rows, r)
  }

  /** horrible_allowedips_remove_by_value */
  function RemoveValue(rows: seq<Row>, value: Peer): seq<Row> {
    if rows == [] then []
    else if rows[0].value == value then RemoveValue(rows[1..], value)
    else [rows[0]] + RemoveValue(rows[1..], value)
  }

  lemma {:induction false} HasKeyStands(rows: seq<Row>, list: seq<Naive.Entry>, r: Row, e: Naive.Entry)
    requires StandFor(rows, list) && Stands(r, e)
    ensures HasKey(rows, r) <==> e.net in Naive.Table(list)
  {
    if rows != [] {
      hide Stands, SameKey;
      SameKeyStands(rows[0], list[0], r, e);
      HasKeyStands(rows[1..], list[1..], r, e);
    }
  }

  lemma StandCons(r: Row, e: Naive.Entry, rows: seq<Row>, list: seq<Naive.Entry>)
    requires Stands(r, e) && StandFor(rows, list)
    ensures StandFor([r] + rows, [e] + list)
  {
  }

  lemma {:induction false} OverwriteStands(rows: seq<Row>, list: seq<Naive.Entry>, r: Row, e: Naive.Entry)
    requires StandFor(rows, list) && Stands(r, e)
    ensures StandFor(Overwrite(rows, r), Naive.Overwrite(list, e.net, e.peer))
  {
    if rows != [] {
      assert Stands(rows[0], list[0]);
      SameKeyStands(rows[0], list[0], r, e);
      assert StandFor(rows[1..], list[1..]);
      if list[0].net == e.net {
        assert Stands(rows[0].(value := r.value), Naive.Entry(e.net, e.peer));
        hide Stands;
        StandCons(rows[0].(value := r.value), Naive.Entry(e.net, e.peer), rows[1..], list[1..]);
      } else {
        hide Stands;
        OverwriteStands(rows[1..], list[1..], r, e);
        StandCons(rows[0], list[0], Overwrite(rows[1..], r), Naive.Overwrite(list[1..], e.net, e.peer));
      }
    }
  }

  lemma CidrStands(r: Row, e: Naive.Entry)
    requires Stands(r, e)
    ensures MaskToCidr(r.mask) == |e.net.prefix|
  {
    MaskToCidrIs(|e.net.prefix|);
  }

  lemma {:induction false} PlaceStands(rows: seq<Row>, list: seq<Naive.Entry>, r: Row, e: Naive.Entry)
    requires StandFor(rows, list) && Stands(r, e)
    ensures StandFor(Place(rows, r), Naive.Place(list, e))
  {
    hide Stands, MaskToCidr;
    CidrStands(r, e);
    if rows == [] {
    } else {
      CidrStands(rows[0], list[0]);
      if |list[0].net.prefix| <= |e.net.prefix| {
        StandCons(r, e, rows, list);
      } else {
        PlaceStands(rows[1..], list[1..], r, e);
        StandCons(rows[0], list[0], Place(rows[1..], r), Naive.Place(list[1..], e));
      }
    }
  }

  lemma {:induction false} RemoveStands(rows: seq<Row>, list: seq<Naive.Entry>, value: Peer)
    requires StandFor(rows, list)
    ensures StandFor(RemoveValue(rows, value), Naive.RemovePeer(list, value))
  {
    if rows != [] {
      assert Stands(rows[0], list[0]) && rows[0].value == list[0].peer;
      hide Stands;
      RemoveStands(rows[1..], list[1..], value);
      if list[0].peer != value {
        StandCons(rows[0], list[0], RemoveValue(rows[1..], value), Naive.RemovePeer(list[1..], value));
      }
    }
  }

  /** The rows after the operations that the self-test applies to trie and list alike */
  ghost function Replay(ops: seq<AllowedIps.Op>, errs: seq<int>): seq<Row>
    requires |errs| == |ops| && forall i :: 0 <= i < |ops| ==> AllowedIps.OpOk(ops[i])
  {
    if ops == [] then []
    else
      var n := |ops| - 1;
      var rows := Replay(ops[..n], errs[..n]);
      assert AllowedIps.OpOk(ops[n]);
      match ops[n]
      case Insert(bits, ip, cidr, peer, _, _) =>
        if errs[n] == 0 && cidr <= bits && peer != null then Insert(rows, RowFor(bits, ip, cidr, peer)) else rows
      case RemovePeer(peer) => RemoveValue(rows, peer)
      case Free => []
      case Remove(_, _, _, _) => rows
  }

  lemma {:induction false} ReplayStands(ops: seq<AllowedIps.Op>, errs: seq<int>)
    requires |errs| == |ops| && forall i :: 0 <= i < |ops| ==> AllowedIps.OpOk(ops[i])
    ensures StandFor(Replay(ops, errs), Naive.Replay(ops, errs))
  {
    if ops != [] {
      var n := |ops| - 1;
      ReplayStands(ops[..n], errs[..n]);
      var rows, list := Replay(ops[..n], errs[..n]), Naive.Replay(ops[..n], errs[..n]);
      hide StandFor, RowFor, Overwrite, Place, Naive.Overwrite, Naive.Place, HasKey;
      match ops[n]
      case Insert(bits, ip, cidr, peer, _, _) =>
        if errs[n] == 0 && cidr <= bits && peer != null {
          var r, e := RowFor(bits, ip, cidr, peer), Naive.Entry(NetAt(BeBits(ip), cidr), peer);
          RowStands(bits, ip, cidr, peer);
          HasKeyStands(rows, list, r, e);
          OverwriteStands(rows, list, r, e);
          PlaceStands(rows, list, r, e);
        }
      case RemovePeer(peer) => RemoveStands(rows, list, peer);
      case Free => assert StandFor([], []) by { NoRows(); }
      case Remove(_, _, _, _) =>
    }
  }

  lemma NoRows()
    ensures StandFor([], [])
  {
  }

  /** The randomized self-test never fails: after any of its operations on an empty trie and an empty list, both
      give the same answer for every address, and once all peers are removed both roots are null. */
  method SelfTest(trie: AllowedIps.AllowedIps, ops: seq<AllowedIps.Op>, ghost peers: set<Peer>, bits: nat, ip: seq<byte>)
    returns (errs: seq<int>, peer: Peer?)
    requires trie.Valid() && trie.Table() == map[] && IsKey(ip, bits) && forall p :: p in peers ==> trie.Known(p)
    requires forall i :: 0 <= i < |ops| ==>
      AllowedIps.OpOk(ops[i]) && !ops[i].Remove? && (ops[i].Peer() != null ==> ops[i].Peer() in peers)
    modifies trie, trie.forest.recs.Keys, trie.lists.Keys`allowedIps, peers`allowedIps
    ensures |errs| == |ops| && StandFor(Replay(ops, errs), Naive.Replay(ops, errs))
    ensures forall r :: r in Replay(ops, errs) ==> |r.ip| == 16 == |r.mask|
    ensures peer == Lookup(Replay(ops, errs), bits, ip)
    ensures forall k :: Naive.AllRemoved(ops, k) ==> trie.root4 == null && trie.root6 == null
  {
    hide AllowedIps.AllowedIps.Valid, AllowedIps.Replay, Naive.AllRemoved, AllowedIps.AllowedIps.Table, Replay;
    hide Naive.Replay, Naive.Lookup, Lookup, LongestMatch, StandFor;
    errs := trie.Run(ops, peers);
    peer := trie.Lookup(bits, ip);
    ReplayStands(ops, errs);
    Naive.AnswersAgree(ops, errs, BeBits(ip));
    LookupStands(Replay(ops, errs), Naive.Replay(ops, errs), bits, ip);
    trie.NullRoots();
    forall k | Naive.AllRemoved(ops, k)
      ensures trie.root4 == null && trie.root6 == null
    {
      Naive.Emptied(ops, errs, k);
    }
  }
}
