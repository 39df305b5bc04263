/** struct wg_peer and struct allowedips_node, as far as allowedips.c uses them. */
module TrieNodes {
  import opened Words
  import opened Address

  /** The pointer slot named by parent_bit_packed: the root pointer of one width
      (packed bit 2), or bit[bit] of a parent node. */
  datatype Slot = RootSlot(bits: nat) | BitSlot(parent: Node, bit: nat)

  class Peer {
    var allowedIps: seq<Node>

    constructor ()
      ensures allowedIps == []
    {
      allowedIps := [];
    }
  }

  class Node {
    var peer: Peer?
    var bit: seq<Node?>
    /** set once, by copy_and_assign_cidr, when the node is made */
    const cidr: nat
    const bitAtA: nat
    const bitAtB: nat
    const bitlen: nat
    const bits: seq<byte>
    /** the address that bits stands for */
    ghost const key: seq<bool>
    var slot: Slot

    /** kmem_cache_zalloc, the initial peer, and copy_and_assign_cidr */
    constructor (src: seq<byte>, cidr: nat, bits: nat, peer: Peer?)
      requires IsKey(src, bits)
      ensures this.peer == peer && bit == [null, null]
      ensures this.cidr == cidr && bitlen == bits && this.bits == src
      ensures bitAtA == BitAtA(cidr, bits) && bitAtB == BitAtB(cidr) && key == KeyBits(src, bits)
    {
      this.peer, bit, slot := peer, [null, null], RootSlot(0);
      this.cidr := cidr;
      this.bitAtA := Xor(cidr / 8, (bits / 8 - 1) % 8);
      this.bitAtB := 7 - cidr % 8;
      this.bitlen := bits;
      this.bits := src;
      this.key := KeyBits(src, bits);
    }
  }
}

/** The nodes of both tries as a value: what each node holds, and the two roots.
    Everything structural about the trie is proved here, on values. */
module Forest {
  import opened Wrappers
  import opened TrieNodes
  import opened Address

  datatype Rec = Rec(key: seq<bool>, cidr: nat, peer: Peer?, bit: seq<Node?>, slot: Slot)

  datatype Forest = Forest(root4: Node?, root6: Node?, recs: map<Node, Rec>)

  /** A network: the first |prefix| bits of addresses of one width. */
  datatype Net = Net(bits: nat, prefix: seq<bool>)

  ghost predicate Agree(a: seq<bool>, b: seq<bool>, n: nat) {
    n <= |a| && n <= |b| && forall i :: 0 <= i < n ==> a[i] == b[i]
  }

  ghost function Root(f: Forest, bits: nat): Node? {
    if bits == 32 then f.root4 else f.root6
  }

  ghost predicate RecOk(r: Rec) {
    Width(|r.key|) && r.cidr <= |r.key| && |r.bit| == 2
  }

  /** The child in slot b of n, if any, points back at that slot and refines n's
      prefix by bit b. */
  ghost predicate LinkOk(f: Forest, n: Node, b: nat)
    requires n in f.recs && b < |f.recs[n].bit|
  {
    var r, c := f.recs[n], f.recs[n].bit[b];
    c != null ==>
      && c in f.recs
      && f.recs[c].slot == BitSlot(n, b)
      && |f.recs[c].key| == |r.key|
      && r.cidr < f.recs[c].cidr <= |f.recs[c].key|
      && Agree(f.recs[c].key, r.key, r.cidr)
      && f.recs[c].key[r.cidr] == (b == 1)
  }

  /** The slot recorded in n holds n. */
  ghost predicate SlotHolds(f: Forest, n: Node)
    requires n in f.recs
  {
    match f.recs[n].slot
    case RootSlot(bits) => bits == |f.recs[n].key| && Root(f, bits) == n
    case BitSlot(p, b) => p in f.recs && b < 2 && b < |f.recs[p].bit| && f.recs[p].bit[b] == n
  }

  ghost predicate RootOk(f: Forest, bits: nat) {
    Root(f, bits) != null ==> Root(f, bits) in f.recs && f.recs[Root(f, bits)].slot == RootSlot(bits)
  }

  ghost predicate NodeOk(f: Forest, n: Node) {
    && n in f.recs
    && RecOk(f.recs[n])
    && SlotHolds(f, n)
    && LinkOk(f, n, 0)
    && LinkOk(f, n, 1)
  }

  /** Every link is consistent in both directions; cidr strictly grows downward. */
  ghost predicate Linked(f: Forest) {
    && RootOk(f, 32) && RootOk(f, 128)
    && forall n {:trigger NodeOk(f, n)} :: n in f.recs ==> NodeOk(f, n)
  }

  /** A node without a peer is there to join two subtrees. */
  ghost predicate GlueOk(r: Rec) {
    r.peer == null && |r.bit| == 2 ==> r.bit[0] != null && r.bit[1] != null
  }

  ghost predicate WellFormed(f: Forest) {
    Linked(f) && forall n :: n in f.recs ==> GlueOk(f.recs[n])
  }

  ghost predicate Matches(r: Rec, key: seq<bool>) {
    |r.key| == |key| && Agree(r.key, key, r.cidr)
  }

  ghost function NetOf(r: Rec): Net
    requires r.cidr <= |r.key|
  {
    Net(|r.key|, r.key[..r.cidr])
  }

  // ---- ancestry ----

  /** m lies in the subtree of a. */
  ghost predicate Below(f: Forest, m: Node, a: Node)
    requires Linked(f) && m in f.recs
    decreases f.recs[m].cidr
  {
    m == a ||
    match f.recs[m].slot
    case RootSlot(_) => false
    case BitSlot(p, b) => ParentSmaller(f, m); Below(f, p, a)
  }

  lemma {:induction false} ParentSmaller(f: Forest, m: Node)
    requires Linked(f) && m in f.recs && f.recs[m].slot.BitSlot?
    ensures var p := f.recs[m].slot.parent; p in f.recs && f.recs[p].cidr < f.recs[m].cidr
  {
    Parent(f, m);
  }

  /** What a node and its parent know of each other. */
  lemma {:induction false} Parent(f: Forest, m: Node)
    requires Linked(f) && m in f.recs && f.recs[m].slot.BitSlot?
    ensures var p, b := f.recs[m].slot.parent, f.recs[m].slot.bit;
      && p in f.recs && RecOk(f.recs[m]) && RecOk(f.recs[p])
      && b < 2 && f.recs[p].bit[b] == m
      && |f.recs[p].key| == |f.recs[m].key| && f.recs[p].cidr < f.recs[m].cidr
      && Agree(f.recs[m].key, f.recs[p].key, f.recs[p].cidr)
      && f.recs[m].key[f.recs[p].cidr] == (b == 1)
  {
    assert NodeOk(f, m);
    var p, b := f.recs[m].slot.parent, f.recs[m].slot.bit;
    assert NodeOk(f, p);
    assert LinkOk(f, p, b);
  }

  lemma {:induction false} BelowRoot(f: Forest, m: Node)
    requires Linked(f) && m in f.recs
    ensures Root(f, |f.recs[m].key|) != null
    ensures Below(f, m, Root(f, |f.recs[m].key|))
    decreases f.recs[m].cidr
  {
    assert NodeOk(f, m);
    if f.recs[m].slot.BitSlot? {
      Parent(f, m);
      BelowRoot(f, f.recs[m].slot.parent);
    }
  }

  /** A subtree's nodes extend the prefix of its top. */
  lemma {:induction false} BelowExtends(f: Forest, m: Node, a: Node)
    requires Linked(f) && m in f.recs && a in f.recs && Below(f, m, a)
    ensures RecOk(f.recs[m]) && RecOk(f.recs[a]) && |f.recs[m].key| == |f.recs[a].key|
    ensures f.recs[a].cidr <= f.recs[m].cidr && (m != a ==> f.recs[a].cidr < f.recs[m].cidr)
    ensures Agree(f.recs[m].key, f.recs[a].key, f.recs[a].cidr)
    decreases f.recs[m].cidr
  {
    assert NodeOk(f, m);
    if m != a {
      Parent(f, m);
      BelowExtends(f, f.recs[m].slot.parent, a);
    }
  }

  /** Below a, the nodes matching a key are those below a's child on the key's side. */
  lemma {:induction false} BelowStep(f: Forest, m: Node, a: Node, key: seq<bool>)
    requires Linked(f) && m in f.recs && a in f.recs && Below(f, m, a) && m != a
    requires Matches(f.recs[m], key)
    ensures RecOk(f.recs[a]) && f.recs[a].cidr < |key|
    ensures var c := f.recs[a].bit[if key[f.recs[a].cidr] then 1 else 0];
      c != null && c in f.recs && Below(f, m, c)
    decreases f.recs[m].cidr
  {
    Parent(f, m);
    var p := f.recs[m].slot.parent;
    BelowExtends(f, p, a);
    if p != a {
      BelowStep(f, p, a, key);
    }
  }

  lemma {:induction false} BelowTransitive(f: Forest, m: Node, a: Node, b: Node)
    requires Linked(f) && m in f.recs && a in f.recs && Below(f, m, a) && Below(f, a, b)
    ensures Below(f, m, b)
    decreases f.recs[m].cidr
  {
    if m != a {
      ParentSmaller(f, m);
      BelowTransitive(f, f.recs[m].slot.parent, a, b);
    }
  }

  /** Of two nodes matching one key, one lies below the other. */
  lemma {:induction false} Comparable(f: Forest, m: Node, n: Node, a: Node, key: seq<bool>)
    requires Linked(f) && m in f.recs && n in f.recs && a in f.recs && f.recs[a].cidr <= |key|
    requires Below(f, m, a) && Below(f, n, a)
    requires Matches(f.recs[m], key) && Matches(f.recs[n], key)
    ensures Below(f, m, n) || Below(f, n, m)
    decreases |key| - f.recs[a].cidr
  {
    if m != a && n != a {
      BelowStep(f, m, a, key);
      BelowStep(f, n, a, key);
      var c := f.recs[a].bit[if key[f.recs[a].cidr] then 1 else 0];
      assert NodeOk(f, a);
      BelowExtends(f, m, c);
      Comparable(f, m, n, c, key);
    }
  }

  /** A network is held by at most one node. */
  lemma {:induction false} NetUnique(f: Forest, m: Node, n: Node)
    requires Linked(f) && m in f.recs && n in f.recs
    requires RecOk(f.recs[m]) && RecOk(f.recs[n]) && NetOf(f.recs[m]) == NetOf(f.recs[n])
    ensures m == n
  {
    var key := f.recs[m].key;
    BelowRoot(f, m);
    BelowRoot(f, n);
    NetMatches(f.recs[n], key, f.recs[m].cidr);
    assert NodeOk(f, m) && NodeOk(f, n);
    BelowExtends(f, m, Root(f, |key|));
    Comparable(f, m, n, Root(f, |key|), key);
    if Below(f, m, n) {
      BelowExtends(f, m, n);
    } else {
      BelowExtends(f, n, m);
    }
  }

  lemma {:induction false} NetMatches(r: Rec, key: seq<bool>, cidr: nat)
    requires r.cidr <= |r.key| && cidr <= |key|
    ensures NetOf(r) == Net(|key|, key[..cidr]) <==> r.cidr == cidr && Matches(r, key)
  {
    if r.cidr == cidr && Matches(r, key) {
      assert r.key[..cidr] == key[..cidr];
    }
    if NetOf(r) == Net(|key|, key[..cidr]) {
      assert |r.key[..r.cidr]| == |key[..cidr]|;
      forall i | 0 <= i < r.cidr
        ensures r.key[i] == key[i]
      {
        assert r.key[..r.cidr][i] == key[..cidr][i];
      }
    }
  }

  // ---- structural edits ----

  ghost predicate SlotExists(f: Forest, slot: Slot) {
    slot.BitSlot? ==> slot.parent in f.recs && slot.bit < 2 && |f.recs[slot.parent].bit| == 2
  }

  ghost function SlotValue(f: Forest, slot: Slot): Node?
    requires SlotExists(f, slot)
  {
    match slot
    case RootSlot(bits) => Root(f, bits)
    case BitSlot(p, b) => f.recs[p].bit[b]
  }

  /** The record r of m after *slot = target. */
  ghost function PointSlot(r: Rec, m: Node, slot: Slot, target: Node?): Rec {
    if slot.BitSlot? && slot.parent == m && slot.bit < |r.bit|
    then r.(bit := r.bit[slot.bit := target]) else r
  }

  ghost function PointRoot4(f: Forest, slot: Slot, target: Node?): Node? {
    if slot == RootSlot(32) then target else f.root4
  }

  ghost function PointRoot6(f: Forest, slot: Slot, target: Node?): Node? {
    if slot.RootSlot? && slot.bits != 32 then target else f.root6
  }

  /** *slot = target */
  ghost function SetSlot(f: Forest, slot: Slot, target: Node?): Forest {
    Forest(PointRoot4(f, slot, target), PointRoot6(f, slot, target),
           map m | m in f.recs :: PointSlot(f.recs[m], m, slot, target))
  }

  /** n->parent_bit_packed = slot */
  ghost function SetParent(f: Forest, n: Node, slot: Slot): Forest {
    f.(recs := map m | m in f.recs :: if m == n then f.recs[m].(slot := slot) else f.recs[m])
  }

  ghost function Include(f: Forest, n: Node, r: Rec): Forest {
    f.(recs := map m | m in f.recs.Keys + {n} :: if m == n then r else f.recs[m])
  }

  /** connect_node() */
  ghost function Connect(f: Forest, slot: Slot, n: Node): Forest {
    Forest(PointRoot4(f, slot, n), PointRoot6(f, slot, n),
           map m | m in f.recs :: ConnectRec(f.recs[m], m, slot, n))
  }

  ghost function ConnectRec(r: Rec, m: Node, slot: Slot, n: Node): Rec {
    PointSlot(if m == n then r.(slot := slot) else r, m, slot, n)
  }

  ghost predicate SameEnd(r: Rec, r': Rec) {
    r'.key == r.key && r'.cidr == r.cidr && r'.slot == r.slot
  }

  /** A link survives an edit that keeps it and both its ends' prefixes. */
  lemma {:induction false} LinkFrame(f: Forest, g: Forest, m: Node, b: nat)
    requires b < 2 && m in f.recs && m in g.recs && |f.recs[m].bit| == |g.recs[m].bit| == 2
    requires LinkOk(f, m, b) && g.recs[m].bit[b] == f.recs[m].bit[b]
    requires g.recs[m].key == f.recs[m].key && g.recs[m].cidr == f.recs[m].cidr
    requires var c := f.recs[m].bit[b]; c != null ==> c in g.recs && SameEnd(f.recs[c], g.recs[c])
    ensures LinkOk(g, m, b)
  {
  }

  /** A link to a node that fits the slot and records it is sound. */
  lemma {:induction false} LinkNew(f: Forest, g: Forest, m: Node, b: nat, c: Node)
    requires b < 2 && m in f.recs && m in g.recs && c in g.recs && |g.recs[m].bit| == 2
    requires SlotFits(f, BitSlot(m, b), g.recs[c].key, g.recs[c].cidr)
    requires g.recs[c].slot == BitSlot(m, b) && g.recs[m].bit[b] == c
    requires g.recs[m].key == f.recs[m].key && g.recs[m].cidr == f.recs[m].cidr
    ensures LinkOk(g, m, b)
  {
  }

  /** A node with this key and cidr may stand in the slot. */
  ghost predicate SlotFits(f: Forest, slot: Slot, key: seq<bool>, cidr: nat) {
    && SlotExists(f, slot)
    && match slot
       case RootSlot(bits) => bits == |key|
       case BitSlot(p, b) =>
         && |f.recs[p].key| == |key| && f.recs[p].cidr < cidr <= |key|
         && Agree(key, f.recs[p].key, f.recs[p].cidr)
         && key[f.recs[p].cidr] == (b == 1)
  }

  ghost predicate Insertable(f: Forest, slot: Slot, n: Node, key: seq<bool>, cidr: nat) {
    n !in f.recs && Width(|key|) && cidr <= |key| && SlotFits(f, slot, key, cidr)
  }

  /** Put the new childless node n into an empty slot. */
  ghost function Attach(f: Forest, slot: Slot, n: Node, key: seq<bool>, cidr: nat, peer: Peer?): Forest
    requires Insertable(f, slot, n, key, cidr)
  {
    Forest(PointRoot4(f, slot, n), PointRoot6(f, slot, n),
           map m | m in f.recs.Keys + {n} ::
             if m == n then Rec(key, cidr, peer, [null, null], slot)
             else PointSlot(f.recs[m], m, slot, n))
  }

  /** connect_node() of a new childless node. */
  lemma {:induction false} ConnectIsAttach(f: Forest, slot: Slot, n: Node, r: Rec)
    requires Insertable(f, slot, n, r.key, r.cidr) && r.bit == [null, null]
    ensures Connect(Include(f, n, r), slot, n) == Attach(f, slot, n, r.key, r.cidr, r.peer)
  {
    var g, h := Connect(Include(f, n, r), slot, n), Attach(f, slot, n, r.key, r.cidr, r.peer);
    assert g.recs.Keys == h.recs.Keys;
    forall m | m in g.recs
      ensures g.recs[m] == h.recs[m]
    {
    }
    assert g.recs == h.recs;
  }

  lemma {:induction false} AttachSlot(f: Forest, slot: Slot, n: Node, key: seq<bool>, cidr: nat, peer: Peer?, m: Node)
    requires Insertable(f, slot, n, key, cidr) && SlotValue(f, slot) == null
    requires m in f.recs && SlotHolds(f, m)
    ensures SlotHolds(Attach(f, slot, n, key, cidr, peer), m)
  {
  }

  lemma {:induction false} AttachLink(f: Forest, slot: Slot, n: Node, key: seq<bool>, cidr: nat, peer: Peer?, m: Node, b: nat)
    requires Insertable(f, slot, n, key, cidr) && SlotValue(f, slot) == null
    requires b < 2 && NodeOk(f, m)
    ensures LinkOk(Attach(f, slot, n, key, cidr, peer), m, b)
  {
    var g := Attach(f, slot, n, key, cidr, peer);
    if slot == BitSlot(m, b) {
      LinkNew(f, g, m, b, n);
    } else {
      LinkFrame(f, g, m, b);
    }
  }

  lemma {:induction false} AttachOld(f: Forest, slot: Slot, n: Node, key: seq<bool>, cidr: nat, peer: Peer?, m: Node)
    requires Insertable(f, slot, n, key, cidr) && SlotValue(f, slot) == null && NodeOk(f, m)
    ensures NodeOk(Attach(f, slot, n, key, cidr, peer), m)
  {
    AttachSlot(f, slot, n, key, cidr, peer, m);
    AttachLink(f, slot, n, key, cidr, peer, m, 0);
    AttachLink(f, slot, n, key, cidr, peer, m, 1);
  }

  lemma {:induction false} AttachNew(f: Forest, slot: Slot, n: Node, key: seq<bool>, cidr: nat, peer: Peer?)
    requires Insertable(f, slot, n, key, cidr)
    ensures NodeOk(Attach(f, slot, n, key, cidr, peer), n)
  {
  }

  lemma {:induction false} AttachRoots(f: Forest, slot: Slot, n: Node, key: seq<bool>, cidr: nat, peer: Peer?, bits: nat)
    requires Insertable(f, slot, n, key, cidr) && Width(bits) && RootOk(f, bits)
    ensures RootOk(Attach(f, slot, n, key, cidr, peer), bits)
  {
  }

  lemma {:induction false} AttachLinked(f: Forest, slot: Slot, n: Node, key: seq<bool>, cidr: nat, peer: Peer?)
    requires Linked(f) && Insertable(f, slot, n, key, cidr) && SlotValue(f, slot) == null
    ensures Linked(Attach(f, slot, n, key, cidr, peer))
  {
    var g := Attach(f, slot, n, key, cidr, peer);
    AttachRoots(f, slot, n, key, cidr, peer, 32);
    AttachRoots(f, slot, n, key, cidr, peer, 128);
    AttachNew(f, slot, n, key, cidr, peer);
    forall m | m in f.recs
      ensures NodeOk(g, m)
    {
      assert NodeOk(f, m);
      AttachOld(f, slot, n, key, cidr, peer, m);
    }
  }

  /** Put the new node n into the slot of d, with d as its only child. */
  ghost function InsertAbove(f: Forest, d: Node, n: Node, key: seq<bool>, cidr: nat, peer: Peer?): Forest
    requires d in f.recs && Insertable(f, f.recs[d].slot, n, key, cidr)
    requires cidr < |f.recs[d].key|
  {
    var slot := f.recs[d].slot;
    var b := if f.recs[d].key[cidr] then 1 else 0;
    Forest(PointRoot4(f, slot, n), PointRoot6(f, slot, n),
           map m | m in f.recs.Keys + {n} ::
             if m == n then Rec(key, cidr, peer, [null, null][b := d], slot)
             else if m == d then f.recs[d].(slot := BitSlot(n, b))
             else PointSlot(f.recs[m], m, slot, n))
  }

  /** choose_and_connect_node() of d below the new node, then of the new node where d was. */
  lemma {:induction false} ConnectIsInsertAbove(f: Forest, d: Node, n: Node, r: Rec, b: nat)
    requires NodeOk(f, d) && Insertable(f, f.recs[d].slot, n, r.key, r.cidr) && r.cidr < |f.recs[d].key|
    requires r.bit == [null, null] && b == if f.recs[d].key[r.cidr] then 1 else 0
    ensures var g := Connect(Include(f, n, r), BitSlot(n, b), d);
      Connect(g, f.recs[d].slot, n) == InsertAbove(f, d, n, r.key, r.cidr, r.peer)
  {
    var slot := f.recs[d].slot;
    var g0 := Connect(Include(f, n, r), BitSlot(n, b), d);
    var g, h := Connect(g0, slot, n), InsertAbove(f, d, n, r.key, r.cidr, r.peer);
    forall m | m in g.recs
      ensures g.recs[m] == h.recs[m]
    {
      ConnectAboveRec(f, d, n, r, b, m);
    }
    assert g.recs == h.recs;
  }

  lemma {:induction false} ConnectAboveRec(f: Forest, d: Node, n: Node, r: Rec, b: nat, m: Node)
    requires NodeOk(f, d) && Insertable(f, f.recs[d].slot, n, r.key, r.cidr) && r.cidr < |f.recs[d].key|
    requires r.bit == [null, null] && b == if f.recs[d].key[r.cidr] then 1 else 0
    requires m in f.recs || m == n
    ensures var before := if m == n then r else f.recs[m];
      ConnectRec(ConnectRec(before, m, BitSlot(n, b), d), m, f.recs[d].slot, n) ==
      InsertAbove(f, d, n, r.key, r.cidr, r.peer).recs[m]
  {
  }

  lemma {:induction false} InsertAboveSlot(f: Forest, d: Node, n: Node, key: seq<bool>, cidr: nat, peer: Peer?, m: Node)
    requires NodeOk(f, d) && Insertable(f, f.recs[d].slot, n, key, cidr) && cidr < |f.recs[d].key|
    requires NodeOk(f, m)
    ensures SlotHolds(InsertAbove(f, d, n, key, cidr, peer), m)
  {
    hide LinkOk;
    var g, slot := InsertAbove(f, d, n, key, cidr, peer), f.recs[d].slot;
    assert SlotHolds(f, d) && SlotHolds(f, m);
    if m != d {
      assert g.recs[m].slot == f.recs[m].slot && g.recs[m].key == f.recs[m].key;
      assert f.recs[m].slot != slot;
      if f.recs[m].slot.BitSlot? {
        assert g.recs[f.recs[m].slot.parent].bit[f.recs[m].slot.bit] == m;
      }
    }
  }

  lemma {:induction false} InsertAboveLink(f: Forest, d: Node, n: Node, key: seq<bool>, cidr: nat, peer: Peer?, m: Node, b: nat)
    requires NodeOk(f, d) && Insertable(f, f.recs[d].slot, n, key, cidr) && cidr < |f.recs[d].key|
    requires b < 2 && NodeOk(f, m)
    ensures LinkOk(InsertAbove(f, d, n, key, cidr, peer), m, b)
  {
    var g := InsertAbove(f, d, n, key, cidr, peer);
    if f.recs[d].slot == BitSlot(m, b) {
      LinkNew(f, g, m, b, n);
    } else {
      LinkFrame(f, g, m, b);
    }
  }

  lemma {:induction false} InsertAboveOld(f: Forest, d: Node, n: Node, key: seq<bool>, cidr: nat, peer: Peer?, m: Node)
    requires NodeOk(f, d) && Insertable(f, f.recs[d].slot, n, key, cidr) && cidr < |f.recs[d].key|
    requires NodeOk(f, m)
    ensures NodeOk(InsertAbove(f, d, n, key, cidr, peer), m)
  {
    InsertAboveSlot(f, d, n, key, cidr, peer, m);
    InsertAboveLink(f, d, n, key, cidr, peer, m, 0);
    InsertAboveLink(f, d, n, key, cidr, peer, m, 1);
  }

  /** The new network is strictly shorter than d's and holds its addresses. */
  ghost predicate Above(f: Forest, d: Node, n: Node, key: seq<bool>, cidr: nat) {
    && d in f.recs && Insertable(f, f.recs[d].slot, n, key, cidr)
    && |f.recs[d].key| == |key| && cidr < f.recs[d].cidr && cidr < |key| && Agree(f.recs[d].key, key, cidr)
  }

  lemma {:induction false} InsertAboveNew(f: Forest, d: Node, n: Node, key: seq<bool>, cidr: nat, peer: Peer?)
    requires NodeOk(f, d) && Above(f, d, n, key, cidr)
    ensures NodeOk(InsertAbove(f, d, n, key, cidr, peer), n)
  {
  }

  lemma {:induction false} InsertAboveRoots(f: Forest, d: Node, n: Node, key: seq<bool>, cidr: nat, peer: Peer?, bits: nat)
    requires NodeOk(f, d) && Above(f, d, n, key, cidr) && Width(bits) && RootOk(f, bits)
    ensures RootOk(InsertAbove(f, d, n, key, cidr, peer), bits)
  {
  }

  lemma {:induction false} InsertAboveLinked(f: Forest, d: Node, n: Node, key: seq<bool>, cidr: nat, peer: Peer?)
    requires Linked(f) && NodeOk(f, d) && Above(f, d, n, key, cidr)
    ensures Linked(InsertAbove(f, d, n, key, cidr, peer))
  {
    var g := InsertAbove(f, d, n, key, cidr, peer);
    InsertAboveRoots(f, d, n, key, cidr, peer, 32);
    InsertAboveRoots(f, d, n, key, cidr, peer, 128);
    InsertAboveNew(f, d, n, key, cidr, peer);
    forall m | m in f.recs
      ensures NodeOk(g, m)
    {
      assert NodeOk(f, m);
      InsertAboveOld(f, d, n, key, cidr, peer, m);
    }
  }

  ghost function OnlyChild(r: Rec): Node?
    requires |r.bit| == 2
  {
    if r.bit[0] != null then r.bit[0] else r.bit[1]
  }

  ghost predicate Removable(f: Forest, n: Node) {
    && n in f.recs && |f.recs[n].bit| == 2
    && (f.recs[n].bit[0] == null || f.recs[n].bit[1] == null)
    && (OnlyChild(f.recs[n]) != null ==> OnlyChild(f.recs[n]) in f.recs)
    && SlotExists(f, f.recs[n].slot)
  }

  /** Take out n, giving its slot to its only child, if it has one. */
  ghost function Splice(f: Forest, n: Node): (g: Forest)
    requires Removable(f, n)
  {
    var slot, c := f.recs[n].slot, OnlyChild(f.recs[n]);
    Forest(PointRoot4(f, slot, c), PointRoot6(f, slot, c),
           map m | m in f.recs.Keys - {n} ::
             if m == c then f.recs[m].(slot := slot)
             else PointSlot(f.recs[m], m, slot, c))
  }

  ghost function Exclude(f: Forest, n: Node): Forest {
    f.(recs := map m | m in f.recs.Keys - {n} :: f.recs[m])
  }

  /** Re-parent the only child, point the slot at it, free the node. */
  ghost function SpliceSteps(f: Forest, n: Node, slot: Slot, c: Node?): Forest {
    Exclude(SetSlot(if c == null then f else SetParent(f, c, slot), slot, c), n)
  }

  lemma {:induction false} SpliceStepsRec(f: Forest, n: Node, slot: Slot, c: Node?, m: Node)
    requires m in f.recs && m != n && (slot.BitSlot? ==> slot.parent != c)
    ensures m in SpliceSteps(f, n, slot, c).recs
    ensures SpliceSteps(f, n, slot, c).recs[m] ==
      if m == c then f.recs[m].(slot := slot) else PointSlot(f.recs[m], m, slot, c)
  {
  }

  lemma {:induction false} StepsAreSplice(f: Forest, n: Node)
    requires Removable(f, n) && (f.recs[n].slot.BitSlot? ==> f.recs[n].slot.parent != OnlyChild(f.recs[n]))
    ensures SpliceSteps(f, n, f.recs[n].slot, OnlyChild(f.recs[n])) == Splice(f, n)
  {
    var slot, c := f.recs[n].slot, OnlyChild(f.recs[n]);
    forall m | m in f.recs && m != n
      ensures SpliceSteps(f, n, slot, c).recs[m] == Splice(f, n).recs[m]
    {
      SpliceStepsRec(f, n, slot, c, m);
    }
    ForestEqual(SpliceSteps(f, n, slot, c), Splice(f, n));
  }

  /** A node's parent is not its child. */
  lemma {:induction false} ParentNotChild(f: Forest, n: Node)
    requires Linked(f) && NodeOk(f, n)
    ensures f.recs[n].slot.BitSlot? ==> f.recs[n].slot.parent != OnlyChild(f.recs[n])
  {
    if f.recs[n].slot.BitSlot? {
      Parent(f, n);
    }
  }

  lemma {:induction false} SpliceSlot(f: Forest, n: Node, m: Node)
    requires Removable(f, n) && NodeOk(f, n) && NodeOk(f, m) && m != n
    ensures SlotHolds(Splice(f, n), m)
  {
    SpliceRec(f, n, m);
    if m == OnlyChild(f.recs[n]) {
      SpliceSlotMoved(f, n, m);
    } else if f.recs[m].slot.RootSlot? {
      hide LinkOk;
      assert SlotHolds(f, n) && SlotHolds(f, m);
    } else {
      SpliceSlotKept(f, n, m);
    }
  }

  /** The only child takes over the slot. */
  lemma {:induction false} SpliceSlotMoved(f: Forest, n: Node, m: Node)
    requires Removable(f, n) && NodeOk(f, n) && NodeOk(f, m) && m != n && m == OnlyChild(f.recs[n])
    requires m in Splice(f, n).recs
    ensures SlotHolds(Splice(f, n), m)
  {
    var g, slot := Splice(f, n), f.recs[n].slot;
    assert SlotHolds(f, n) && |f.recs[m].key| == |f.recs[n].key|;
    hide LinkOk;
    assert g.recs[m].slot == slot && g.recs[m].key == f.recs[m].key;
    if slot.BitSlot? {
      assert slot.parent != n && slot.parent in g.recs;
    }
  }

  lemma {:induction false} SpliceSlotKept(f: Forest, n: Node, m: Node)
    requires Removable(f, n) && NodeOk(f, n) && NodeOk(f, m) && m != n && m != OnlyChild(f.recs[n])
    requires m in Splice(f, n).recs && f.recs[m].slot.BitSlot?
    ensures SlotHolds(Splice(f, n), m)
  {
    var g, slot := Splice(f, n), f.recs[m].slot;
    assert SlotHolds(f, n) && SlotHolds(f, m);
    hide LinkOk;
    assert slot.parent != n && slot.parent in g.recs;
    assert slot != f.recs[n].slot;
  }

  /** The only child of a node also fits the node's slot. */
  lemma {:induction false} SpliceFits(f: Forest, n: Node)
    requires Linked(f) && Removable(f, n) && OnlyChild(f.recs[n]) != null
    ensures var c := OnlyChild(f.recs[n]);
      c in f.recs && SlotFits(f, f.recs[n].slot, f.recs[c].key, f.recs[c].cidr)
  {
    assert NodeOk(f, n);
    if f.recs[n].slot.BitSlot? {
      Parent(f, n);
    }
  }

  lemma {:induction false} SpliceLinkMoved(f: Forest, n: Node, m: Node, b: nat)
    requires Linked(f) && Removable(f, n) && NodeOk(f, n) && NodeOk(f, m) && m != n && b < 2
    requires f.recs[n].slot == BitSlot(m, b)
    ensures LinkOk(Splice(f, n), m, b)
  {
    if OnlyChild(f.recs[n]) != null {
      SpliceFits(f, n);
      LinkNew(f, Splice(f, n), m, b, OnlyChild(f.recs[n]));
    }
  }

  lemma {:induction false} SpliceLinkKept(f: Forest, n: Node, m: Node, b: nat)
    requires Removable(f, n) && NodeOk(f, n) && NodeOk(f, m) && m != n && b < 2
    requires f.recs[n].slot != BitSlot(m, b)
    ensures LinkOk(Splice(f, n), m, b)
  {
    LinkFrame(f, Splice(f, n), m, b);
  }

  lemma {:induction false} SpliceRec(f: Forest, n: Node, m: Node)
    requires Removable(f, n) && NodeOk(f, m) && m != n
    ensures m in Splice(f, n).recs && RecOk(Splice(f, n).recs[m])
  {
  }

  lemma {:induction false} SpliceOld(f: Forest, n: Node, m: Node)
    requires Linked(f) && Removable(f, n) && NodeOk(f, n) && NodeOk(f, m) && m != n
    ensures NodeOk(Splice(f, n), m)
  {
    hide Linked, Splice, LinkOk, SlotHolds, RecOk;
    SpliceRec(f, n, m);
    SpliceSlot(f, n, m);
    if f.recs[n].slot == BitSlot(m, 0) {
      SpliceLinkMoved(f, n, m, 0);
    } else {
      SpliceLinkKept(f, n, m, 0);
    }
    if f.recs[n].slot == BitSlot(m, 1) {
      SpliceLinkMoved(f, n, m, 1);
    } else {
      SpliceLinkKept(f, n, m, 1);
    }
  }

  lemma {:induction false} SpliceRoots(f: Forest, n: Node, bits: nat)
    requires Removable(f, n) && NodeOk(f, n) && Width(bits) && RootOk(f, bits)
    ensures RootOk(Splice(f, n), bits)
  {
  }

  lemma {:induction false} SpliceLinked(f: Forest, n: Node)
    requires Linked(f) && Removable(f, n) && NodeOk(f, n)
    ensures Linked(Splice(f, n))
  {
    SpliceRoots(f, n, 32);
    SpliceRoots(f, n, 128);
    forall m | m in f.recs && m != n
      ensures NodeOk(Splice(f, n), m)
    {
      assert NodeOk(f, m);
      SpliceOld(f, n, m);
    }
  }

  lemma {:induction false} SetPeerLinked(f: Forest, n: Node, peer: Peer?)
    requires Linked(f) && n in f.recs
    ensures Linked(f.(recs := f.recs[n := f.recs[n].(peer := peer)]))
  {
    var g := f.(recs := f.recs[n := f.recs[n].(peer := peer)]);
    forall m | m in g.recs
      ensures NodeOk(g, m)
    {
      assert NodeOk(f, m);
    }
  }

  // ---- the table of networks a forest stands for ----

  ghost predicate Owns(f: Forest, n: Node, net: Net) {
    && n in f.recs && f.recs[n].cidr <= |f.recs[n].key|
    && f.recs[n].peer != null && NetOf(f.recs[n]) == net
  }

  ghost function Nets(f: Forest): set<Net> {
    set n | n in f.recs && f.recs[n].cidr <= |f.recs[n].key| && f.recs[n].peer != null :: NetOf(f.recs[n])
  }

  ghost function OwnerOf(f: Forest, net: Net): Peer
    requires net in Nets(f)
  {
    var n :| n in f.recs && Owns(f, n, net);
    f.recs[n].peer
  }

  ghost function Contents(f: Forest): map<Net, Peer> {
    map net | net in Nets(f) :: OwnerOf(f, net)
  }

  lemma {:induction false} OwnedInContents(f: Forest, n: Node, net: Net)
    requires Linked(f) && Owns(f, n, net)
    ensures net in Contents(f) && Contents(f)[net] == f.recs[n].peer
  {
    assert NetOf(f.recs[n]) in Nets(f);
    var m := ContentsOwned(f, net);
    assert NodeOk(f, m) && NodeOk(f, n);
    NetUnique(f, m, n);
  }

  lemma {:induction false} ContentsOwned(f: Forest, net: Net) returns (n: Node)
    requires Linked(f) && net in Contents(f)
    ensures Owns(f, n, net) && f.recs[n].peer == Contents(f)[net]
  {
    n :| n in f.recs && Owns(f, n, net) && OwnerOf(f, net) == f.recs[n].peer;
  }

  /** The owners of the networks other than net are the same in f and g. */
  ghost predicate SameOwners(f: Forest, g: Forest, net: Net) {
    && (forall m, x :: m in f.recs && Owns(f, m, x) && x != net ==> Owns(g, m, x) && g.recs[m].peer == f.recs[m].peer)
    && (forall m, x :: m in g.recs && Owns(g, m, x) && x != net ==> Owns(f, m, x))
  }

  lemma {:induction false} ContentsPut(f: Forest, g: Forest, n: Node, net: Net)
    requires Linked(f) && Linked(g) && SameOwners(f, g, net) && Owns(g, n, net)
    ensures Contents(g) == Contents(f)[net := g.recs[n].peer]
  {
    OwnedInContents(g, n, net);
    forall x | x != net
      ensures x in Contents(f) <==> x in Contents(g)
      ensures x in Contents(f) ==> Contents(g)[x] == Contents(f)[x]
    {
      if x in Contents(f) {
        var m := ContentsOwned(f, x);
        OwnedInContents(g, m, x);
      } else if x in Contents(g) {
        var m := ContentsOwned(g, x);
        OwnedInContents(f, m, x);
      }
    }
  }

  lemma {:induction false} ContentsDrop(f: Forest, g: Forest, net: Net)
    requires Linked(f) && Linked(g) && SameOwners(f, g, net)
    requires forall m :: !Owns(g, m, net)
    ensures Contents(g) == Contents(f) - {net}
  {
    hide Linked, Contents;
    if net in Contents(g) {
      var m := ContentsOwned(g, net);
    }
    forall x | x != net
      ensures x in Contents(f) <==> x in Contents(g)
      ensures x in Contents(f) ==> Contents(g)[x] == Contents(f)[x]
    {
      if x in Contents(f) {
        var m := ContentsOwned(f, x);
        OwnedInContents(g, m, x);
      } else if x in Contents(g) {
        var m := ContentsOwned(g, x);
        OwnedInContents(f, m, x);
      }
    }
  }

  ghost function NetAt(key: seq<bool>, cidr: nat): Net
    requires cidr <= |key|
  {
    Net(|key|, key[..cidr])
  }

  // ---- what the operations of allowedips.c do to the table ----

  /** add(), new node in an empty slot. */
  lemma {:induction false} AddLeaf(f: Forest, slot: Slot, n: Node, key: seq<bool>, cidr: nat, peer: Peer)
    requires WellFormed(f) && Insertable(f, slot, n, key, cidr) && SlotValue(f, slot) == null
    ensures WellFormed(Attach(f, slot, n, key, cidr, peer))
    ensures Contents(Attach(f, slot, n, key, cidr, peer)) == Contents(f)[NetAt(key, cidr) := peer]
  {
    var g := Attach(f, slot, n, key, cidr, peer);
    AttachLinked(f, slot, n, key, cidr, peer);
    KeptOwners(f, g, n, NetAt(key, cidr));
    ContentsPut(f, g, n, NetAt(key, cidr));
  }

  /** Old nodes keep prefix and peer. */
  ghost predicate KeepsNodes(f: Forest, g: Forest) {
    forall m :: m in f.recs ==> m in g.recs && SameNet(f.recs[m], g.recs[m])
  }

  ghost predicate SameNet(r: Rec, r': Rec) {
    r'.key == r.key && r'.cidr == r.cidr && r'.peer == r.peer
  }

  lemma {:induction false} KeptOwners(f: Forest, g: Forest, n: Node, net: Net)
    requires KeepsNodes(f, g)
    requires forall m, x :: m in g.recs && m !in f.recs && Owns(g, m, x) ==> x == net
    ensures SameOwners(f, g, net)
  {
    forall m, x | Owns(g, m, x) && x != net
      ensures Owns(f, m, x)
    {
      assert m in f.recs;
      assert SameNet(f.recs[m], g.recs[m]);
    }
    forall m, x | Owns(f, m, x)
      ensures Owns(g, m, x) && g.recs[m].peer == f.recs[m].peer
    {
      assert SameNet(f.recs[m], g.recs[m]);
    }
  }

  /** add(), new node between a node and its parent. */
  lemma {:induction false} AddAbove(f: Forest, d: Node, n: Node, key: seq<bool>, cidr: nat, peer: Peer)
    requires WellFormed(f) && Above(f, d, n, key, cidr)
    ensures WellFormed(InsertAbove(f, d, n, key, cidr, peer))
    ensures Contents(InsertAbove(f, d, n, key, cidr, peer)) == Contents(f)[NetAt(key, cidr) := peer]
  {
    var g := InsertAbove(f, d, n, key, cidr, peer);
    assert NodeOk(f, d);
    InsertAboveLinked(f, d, n, key, cidr, peer);
    hide Linked, LinkOk, SlotHolds;
    KeptOwners(f, g, n, NetAt(key, cidr));
    ContentsPut(f, g, n, NetAt(key, cidr));
  }

  /** The forest after add() with a glue node: glue above d, n beside d. */
  ghost function Glued(f: Forest, d: Node, glue: Node, at: nat, n: Node, key: seq<bool>, cidr: nat, peer: Peer): Forest
    requires NodeOk(f, d) && Above(f, d, glue, key, at) && n !in f.recs && n != glue
    requires at < cidr <= |key| && f.recs[d].key[at] != key[at]
  {
    var g := InsertAbove(f, d, glue, key, at, null);
    Attach(g, BitSlot(glue, if key[at] then 1 else 0), n, key, cidr, peer)
  }

  /** Where d, glue and n stand in ConnectIsGlued. */
  ghost predicate Gluing(f: Forest, d: Node, glue: Node, gr: Rec, n: Node, r: Rec) {
    && NodeOk(f, d) && Above(f, d, glue, r.key, gr.cidr) && n !in f.recs && n != glue
    && gr.cidr < r.cidr <= |r.key| && f.recs[d].key[gr.cidr] != r.key[gr.cidr]
    && gr.bit == [null, null] && gr.peer == null && gr.key == r.key && r.bit == [null, null] && r.peer != null
  }

  /** choose_and_connect_node() of d and of n below glue, then of glue where d was. */
  ghost function GluedSteps(f: Forest, slot: Slot, d: Node, glue: Node, gr: Rec, n: Node, r: Rec, b: nat): Forest
    requires b < 2
  {
    var g := Connect(Include(Include(f, n, r), glue, gr), BitSlot(glue, b), d);
    Connect(Connect(g, BitSlot(glue, 1 - b), n), slot, glue)
  }

  lemma {:induction false} GluedStepsRec(f: Forest, slot: Slot, d: Node, glue: Node, gr: Rec, n: Node, r: Rec, b: nat, m: Node)
    requires b < 2 && (m in f.recs || m == n || m == glue)
    ensures m in GluedSteps(f, slot, d, glue, gr, n, r, b).recs
    ensures var before := if m == glue then gr else if m == n then r else f.recs[m];
      GluedSteps(f, slot, d, glue, gr, n, r, b).recs[m] ==
      ConnectRec(ConnectRec(ConnectRec(before, m, BitSlot(glue, b), d), m, BitSlot(glue, 1 - b), n), m, slot, glue)
  {
  }

  lemma {:induction false} GluedStepsRoots(f: Forest, slot: Slot, d: Node, glue: Node, gr: Rec, n: Node, r: Rec, b: nat)
    requires b < 2
    ensures var g := GluedSteps(f, slot, d, glue, gr, n, r, b);
      && g.recs.Keys == f.recs.Keys + {n, glue}
      && g.root4 == PointRoot4(f, slot, glue) && g.root6 == PointRoot6(f, slot, glue)
  {
  }

  lemma {:induction false} GluedSlotExists(f: Forest, slot: Slot, d: Node, glue: Node, gr: Rec, n: Node, r: Rec, b: nat)
    requires b < 2 && SlotExists(f, slot) && n !in f.recs && glue !in f.recs
    ensures SlotExists(Connect(Connect(Include(Include(f, n, r), glue, gr), BitSlot(glue, b), d), BitSlot(glue, 1 - b), n), slot)
  {
  }

  lemma {:induction false} ForestEqual(g: Forest, h: Forest)
    requires g.root4 == h.root4 && g.root6 == h.root6 && g.recs.Keys == h.recs.Keys
    requires forall m :: m in g.recs ==> g.recs[m] == h.recs[m]
    ensures g == h
  {
    assert g.recs == h.recs;
  }

  lemma {:induction false} GluedAt(f: Forest, d: Node, glue: Node, gr: Rec, n: Node, r: Rec, b: nat, m: Node)
    requires Gluing(f, d, glue, gr, n, r) && b == if f.recs[d].key[gr.cidr] then 1 else 0
    requires m in f.recs.Keys + {n, glue}
    ensures m in GluedSteps(f, f.recs[d].slot, d, glue, gr, n, r, b).recs
    ensures m in Glued(f, d, glue, gr.cidr, n, r.key, r.cidr, r.peer).recs
    ensures GluedSteps(f, f.recs[d].slot, d, glue, gr, n, r, b).recs[m] ==
      Glued(f, d, glue, gr.cidr, n, r.key, r.cidr, r.peer).recs[m]
  {
    ConnectGluedRec(f, d, glue, gr, n, r, b, m);
    GluedStepsRec(f, f.recs[d].slot, d, glue, gr, n, r, b, m);
  }

  lemma {:induction false} ConnectIsGlued(f: Forest, d: Node, glue: Node, gr: Rec, n: Node, r: Rec, b: nat)
    requires Gluing(f, d, glue, gr, n, r) && b == if f.recs[d].key[gr.cidr] then 1 else 0
    ensures GluedSteps(f, f.recs[d].slot, d, glue, gr, n, r, b) == Glued(f, d, glue, gr.cidr, n, r.key, r.cidr, r.peer)
  {
    GluedKeys(f, d, glue, gr, n, r);
    GluedStepsRoots(f, f.recs[d].slot, d, glue, gr, n, r, b);
    forall m | m in f.recs.Keys + {n, glue}
      ensures GluedSteps(f, f.recs[d].slot, d, glue, gr, n, r, b).recs[m] ==
        Glued(f, d, glue, gr.cidr, n, r.key, r.cidr, r.peer).recs[m]
    {
      GluedAt(f, d, glue, gr, n, r, b, m);
    }
    ForestEqual(GluedSteps(f, f.recs[d].slot, d, glue, gr, n, r, b), Glued(f, d, glue, gr.cidr, n, r.key, r.cidr, r.peer));
  }

  lemma {:induction false} GluedKeys(f: Forest, d: Node, glue: Node, gr: Rec, n: Node, r: Rec)
    requires Gluing(f, d, glue, gr, n, r)
    ensures var h := Glued(f, d, glue, gr.cidr, n, r.key, r.cidr, r.peer);
      && h.recs.Keys == f.recs.Keys + {n, glue}
      && h.root4 == PointRoot4(f, f.recs[d].slot, glue) && h.root6 == PointRoot6(f, f.recs[d].slot, glue)
  {
  }

  /** Connecting keeps slots where they are. */
  lemma {:induction false} ConnectSlots(f: Forest, slot: Slot, n: Node, other: Slot)
    requires SlotExists(f, other)
    ensures SlotExists(Connect(f, slot, n), other)
  {
  }

  lemma {:induction false} IncludeSlots(f: Forest, n: Node, r: Rec, other: Slot)
    requires SlotExists(f, other) && n !in f.recs
    ensures SlotExists(Include(f, n, r), other)
  {
  }

  lemma {:induction false} ConnectGluedRec(f: Forest, d: Node, glue: Node, gr: Rec, n: Node, r: Rec, b: nat, m: Node)
    requires Gluing(f, d, glue, gr, n, r) && b == if f.recs[d].key[gr.cidr] then 1 else 0
    requires m in f.recs || m == n || m == glue
    ensures var before := if m == glue then gr else if m == n then r else f.recs[m];
      ConnectRec(ConnectRec(ConnectRec(before, m, BitSlot(glue, b), d), m, BitSlot(glue, 1 - b), n), m, f.recs[d].slot, glue) ==
      Glued(f, d, glue, gr.cidr, n, r.key, r.cidr, r.peer).recs[m]
  {
  }

  /** The two new nodes of Glued: glue, with both children, and n. */
  lemma {:induction false} GluedRecs(f: Forest, d: Node, glue: Node, at: nat, n: Node, key: seq<bool>, cidr: nat, peer: Peer)
    requires NodeOk(f, d) && Above(f, d, glue, key, at) && n !in f.recs && n != glue
    requires at < cidr <= |key| && f.recs[d].key[at] != key[at]
    ensures var h := Glued(f, d, glue, at, n, key, cidr, peer);
      && KeepsNodes(f, h) && h.recs.Keys == f.recs.Keys + {n, glue}
      && h.recs[glue].peer == null && GlueOk(h.recs[glue])
      && h.recs[n].peer == peer && h.recs[n].key == key && h.recs[n].cidr == cidr
  {
    var g := InsertAbove(f, d, glue, key, at, null);
    var b := if key[at] then 1 else 0;
    InsertAboveKeeps(f, d, glue, key, at, null);
    assert g.recs[glue].bit[1 - b] == d && |g.recs[glue].bit| == 2;
    hide InsertAbove;
    AttachKeeps(g, BitSlot(glue, b), n, key, cidr, peer);
    assert KeepsNodes(f, Attach(g, BitSlot(glue, b), n, key, cidr, peer));
  }

  lemma {:induction false} InsertAboveKeeps(f: Forest, d: Node, n: Node, key: seq<bool>, cidr: nat, peer: Peer?)
    requires d in f.recs && Insertable(f, f.recs[d].slot, n, key, cidr) && cidr < |f.recs[d].key|
    ensures var g := InsertAbove(f, d, n, key, cidr, peer);
      KeepsNodes(f, g) && g.recs.Keys == f.recs.Keys + {n} && SameNet(Rec(key, cidr, peer, [], RootSlot(0)), g.recs[n])
  {
  }

  lemma {:induction false} AttachKeeps(f: Forest, slot: Slot, n: Node, key: seq<bool>, cidr: nat, peer: Peer?)
    requires Insertable(f, slot, n, key, cidr)
    ensures var g := Attach(f, slot, n, key, cidr, peer);
      KeepsNodes(f, g) && g.recs.Keys == f.recs.Keys + {n} && SameNet(Rec(key, cidr, peer, [], RootSlot(0)), g.recs[n])
  {
  }

  lemma {:induction false} GluedGlueOk(f: Forest, d: Node, glue: Node, at: nat, n: Node, key: seq<bool>, cidr: nat, peer: Peer, m: Node)
    requires NodeOk(f, d) && Above(f, d, glue, key, at) && m in f.recs && n !in f.recs && n != glue
    requires at < cidr <= |key| && f.recs[d].key[at] != key[at] && GlueOk(f.recs[m])
    ensures m in Glued(f, d, glue, at, n, key, cidr, peer).recs
    ensures GlueOk(Glued(f, d, glue, at, n, key, cidr, peer).recs[m])
  {
  }

  lemma {:induction false} GluedLinked(f: Forest, d: Node, glue: Node, at: nat, n: Node, key: seq<bool>, cidr: nat, peer: Peer)
    requires Linked(f) && NodeOk(f, d) && Above(f, d, glue, key, at) && n !in f.recs && n != glue
    requires at < cidr <= |key| && f.recs[d].key[at] != key[at]
    ensures Linked(Glued(f, d, glue, at, n, key, cidr, peer))
  {
    hide Linked;
    InsertAboveLinked(f, d, glue, key, at, null);
    var g := InsertAbove(f, d, glue, key, at, null);
    AttachLinked(g, BitSlot(glue, if key[at] then 1 else 0), n, key, cidr, peer);
  }

  /** add(), a glue node above the new one and the old one. */
  lemma {:induction false} AddGlued(f: Forest, d: Node, glue: Node, at: nat, n: Node, key: seq<bool>, cidr: nat, peer: Peer)
    requires WellFormed(f) && NodeOk(f, d) && Above(f, d, glue, key, at) && n !in f.recs && n != glue
    requires at < cidr <= |key| && f.recs[d].key[at] != key[at]
    ensures WellFormed(Glued(f, d, glue, at, n, key, cidr, peer))
    ensures Contents(Glued(f, d, glue, at, n, key, cidr, peer)) == Contents(f)[NetAt(key, cidr) := peer]
  {
    hide Contents, Linked, Glued, KeepsNodes, GlueOk;
    var h := Glued(f, d, glue, at, n, key, cidr, peer);
    GluedLinked(f, d, glue, at, n, key, cidr, peer);
    GluedRecs(f, d, glue, at, n, key, cidr, peer);
    forall m | m in h.recs
      ensures GlueOk(h.recs[m])
    {
      if m in f.recs {
        GluedGlueOk(f, d, glue, at, n, key, cidr, peer, m);
      } else if m == n {
        OwnedGlueOk(h.recs[n]);
      }
    }
    KeptOwners(f, h, n, NetAt(key, cidr));
    ContentsPut(f, h, n, NetAt(key, cidr));
  }

  lemma OwnedGlueOk(r: Rec)
    requires r.peer != null
    ensures GlueOk(r)
  {
  }

  ghost function SetPeer(f: Forest, n: Node, peer: Peer?): Forest
    requires n in f.recs
  {
    f.(recs := f.recs[n := f.recs[n].(peer := peer)])
  }

  /** add(), the network is already in the trie. */
  lemma {:induction false} AddExact(f: Forest, n: Node, peer: Peer)
    requires WellFormed(f) && NodeOk(f, n)
    ensures WellFormed(SetPeer(f, n, peer))
    ensures Contents(SetPeer(f, n, peer)) == Contents(f)[NetOf(f.recs[n]) := peer]
  {
    var g := SetPeer(f, n, peer);
    SetPeerLinked(f, n, peer);
    ContentsPut(f, g, n, NetOf(f.recs[n]));
  }

  lemma {:induction false} SingleRemovable(f: Forest, n: Node)
    requires Linked(f) && NodeOk(f, n) && (f.recs[n].bit[0] == null || f.recs[n].bit[1] == null)
    ensures Removable(f, n)
  {
    if f.recs[n].slot.BitSlot? {
      Parent(f, n);
    }
  }

  /** remove_node() */
  ghost function Removed(f: Forest, n: Node): Forest
    requires Linked(f) && NodeOk(f, n)
  {
    var r := f.recs[n];
    if r.bit[0] != null && r.bit[1] != null then SetPeer(f, n, null)
    else
      SingleRemovable(f, n);
      var g := Splice(f, n);
      if r.bit[0] == null && r.bit[1] == null && r.slot.BitSlot? && f.recs[r.slot.parent].peer == null
      then Parent(f, n); SpliceLeafParent(f, n); Splice(g, r.slot.parent)
      else g
  }

  /** The parent of a node without children, when that node is gone */
  lemma {:induction false} ParentStays(f: Forest, n: Node)
    requires Linked(f) && NodeOk(f, n) && f.recs[n].slot.BitSlot? && Removable(f, n)
    requires f.recs[n].bit[0] == null && f.recs[n].bit[1] == null
    ensures var p, b := f.recs[n].slot.parent, f.recs[n].slot.bit;
      && p in f.recs && p in Splice(f, n).recs && b < 2 && |Splice(f, n).recs[p].bit| == 2
      && Splice(f, n).recs[p].bit[b] == null && Splice(f, n).recs[p].peer == f.recs[p].peer
      && Splice(f, n).recs.Keys <= f.recs.Keys
  {
    Parent(f, n);
  }

  lemma {:induction false} SpliceLeafParent(f: Forest, n: Node)
    requires Linked(f) && NodeOk(f, n) && f.recs[n].slot.BitSlot?
    requires f.recs[n].bit[0] == null && f.recs[n].bit[1] == null
    ensures Removable(f, n)
    ensures var p := f.recs[n].slot.parent; Removable(Splice(f, n), p) && NodeOk(Splice(f, n), p)
  {
    Parent(f, n);
    var p := f.recs[n].slot.parent;
    SingleRemovable(f, n);
    SpliceLinked(f, n);
    assert p in Splice(f, n).recs;
    assert NodeOk(Splice(f, n), p);
    SingleRemovable(Splice(f, n), p);
  }

  lemma {:induction false} RemovedSplit(f: Forest, n: Node)
    requires WellFormed(f) && NodeOk(f, n) && f.recs[n].bit[0] != null && f.recs[n].bit[1] != null
    ensures WellFormed(Removed(f, n))
    ensures Contents(Removed(f, n)) == Contents(f) - {NetOf(f.recs[n])}
  {
    var g, net := Removed(f, n), NetOf(f.recs[n]);
    SetPeerLinked(f, n, null);
    forall m | Owns(g, m, net)
      ensures false
    {
      assert NodeOk(f, m);
      NetUnique(f, m, n);
    }
    ContentsDrop(f, g, net);
  }

  /** Nodes other than those in gone keep prefix and peer, those in gone leave. */
  ghost predicate Drops(f: Forest, g: Forest, gone: set<Node>) {
    && g.recs.Keys == f.recs.Keys - gone
    && forall m :: m in g.recs ==> m in f.recs && SameNet(f.recs[m], g.recs[m])
  }

  /** Dropping the owner of net, and otherwise only glue, drops net. */
  lemma {:induction false} DropOwner(f: Forest, g: Forest, n: Node, gone: set<Node>)
    requires Linked(f) && Linked(g) && NodeOk(f, n) && n in gone && Drops(f, g, gone)
    requires forall m :: m in gone && m != n && m in f.recs ==> f.recs[m].peer == null
    ensures Contents(g) == Contents(f) - {NetOf(f.recs[n])}
  {
    var net := NetOf(f.recs[n]);
    forall m | Owns(g, m, net)
      ensures false
    {
      assert SameNet(f.recs[m], g.recs[m]);
      assert NodeOk(f, m);
      NetUnique(f, m, n);
    }
    forall m, x | Owns(f, m, x) && x != net
      ensures Owns(g, m, x) && g.recs[m].peer == f.recs[m].peer
    {
      assert m !in gone;
      assert m in g.recs && SameNet(f.recs[m], g.recs[m]);
    }
    forall m, x | Owns(g, m, x) && x != net
      ensures Owns(f, m, x)
    {
      assert SameNet(f.recs[m], g.recs[m]);
    }
    ContentsDrop(f, g, net);
  }

  lemma {:induction false} SpliceDrops(f: Forest, n: Node)
    requires Removable(f, n)
    ensures Drops(f, Splice(f, n), {n})
  {
  }

  lemma {:induction false} RemovedSpliced(f: Forest, n: Node)
    requires WellFormed(f) && NodeOk(f, n) && (f.recs[n].bit[0] == null || f.recs[n].bit[1] == null)
    requires OnlyChild(f.recs[n]) == null && f.recs[n].slot.BitSlot? ==>
      f.recs[n].slot.parent in f.recs && f.recs[f.recs[n].slot.parent].peer != null
    ensures WellFormed(Removed(f, n)) && Removable(f, n) && Removed(f, n) == Splice(f, n)
    ensures Contents(Removed(f, n)) == Contents(f) - {NetOf(f.recs[n])}
  {
    SingleRemovable(f, n);
    SpliceLinked(f, n);
    SpliceDrops(f, n);
    DropOwner(f, Splice(f, n), n, {n});
    SpliceGlue(f, n);
  }

  lemma {:induction false} SpliceGlue(f: Forest, n: Node)
    requires WellFormed(f) && Removable(f, n)
    requires OnlyChild(f.recs[n]) == null && f.recs[n].slot.BitSlot? ==> f.recs[f.recs[n].slot.parent].peer != null
    ensures forall m :: m in Splice(f, n).recs ==> GlueOk(Splice(f, n).recs[m])
  {
    forall m | m in Splice(f, n).recs
      ensures GlueOk(Splice(f, n).recs[m])
    {
      assert NodeOk(f, m) && GlueOk(f.recs[m]);
    }
  }

  lemma {:induction false} RemovedTwo(f: Forest, n: Node)
    requires WellFormed(f) && NodeOk(f, n) && f.recs[n].bit[0] == null && f.recs[n].bit[1] == null
    requires f.recs[n].slot.BitSlot? && f.recs[n].slot.parent in f.recs && f.recs[f.recs[n].slot.parent].peer == null
    ensures WellFormed(Removed(f, n))
    ensures Contents(Removed(f, n)) == Contents(f) - {NetOf(f.recs[n])}
  {
    var p := f.recs[n].slot.parent;
    Parent(f, n);
    SpliceLeafParent(f, n);
    var g := Splice(f, n);
    var h := Splice(g, p);
    SpliceLinked(f, n);
    SpliceLinked(g, p);
    SpliceDrops(f, n);
    SpliceDrops(g, p);
    assert Drops(f, h, {n, p});
    DropOwner(f, h, n, {n, p});
    TwoSpliceGlue(f, n);
  }

  lemma {:induction false} TwoSpliceGlue(f: Forest, n: Node)
    requires WellFormed(f) && NodeOk(f, n) && f.recs[n].bit[0] == null && f.recs[n].bit[1] == null
    requires f.recs[n].slot.BitSlot? && f.recs[n].slot.parent in f.recs && f.recs[f.recs[n].slot.parent].peer == null
    ensures forall m :: m in Removed(f, n).recs ==> GlueOk(Removed(f, n).recs[m])
  {
    var p := f.recs[n].slot.parent;
    Parent(f, n);
    SpliceLeafParent(f, n);
    var g := Splice(f, n);
    assert GlueOk(f.recs[p]);
    assert OnlyChild(g.recs[p]) != null;
    forall m | m in Splice(g, p).recs
      ensures GlueOk(Splice(g, p).recs[m])
    {
      assert NodeOk(f, m) && GlueOk(f.recs[m]);
    }
  }

  /** Splicing does not look at the peer of the node it takes out. */
  lemma {:induction false} SpliceSetPeer(f: Forest, n: Node)
    requires Removable(f, n)
    ensures Removable(SetPeer(f, n, null), n) && Splice(SetPeer(f, n, null), n) == Splice(f, n)
  {
    ForestEqual(Splice(SetPeer(f, n, null), n), Splice(f, n));
  }

  /** remove_node() may clear the peer first. */
  lemma {:induction false} RemovedSetPeer(f: Forest, n: Node)
    requires Linked(f) && NodeOk(f, n)
    ensures Linked(SetPeer(f, n, null)) && NodeOk(SetPeer(f, n, null), n)
    ensures Removed(SetPeer(f, n, null), n) == Removed(f, n)
  {
    var g, r := SetPeer(f, n, null), f.recs[n];
    SetPeerLinked(f, n, null);
    assert NodeOk(g, n);
    if r.bit[0] != null && r.bit[1] != null {
      ForestEqual(Removed(g, n), Removed(f, n));
    } else {
      SingleRemovable(f, n);
      SpliceSetPeer(f, n);
      if r.slot.BitSlot? {
        Parent(f, n);
      }
    }
  }

  /** Which nodes remove_node() takes out, and what it does to the others' peers. */
  lemma {:induction false} RemovedKeeps(f: Forest, n: Node)
    requires WellFormed(f) && NodeOk(f, n)
    ensures var g := Removed(f, n);
      && (n in g.recs ==> g.recs[n].peer == null)
      && (forall m :: m in g.recs && m != n ==> m in f.recs && g.recs[m].peer == f.recs[m].peer)
      && (forall m :: m in f.recs && m != n && f.recs[m].peer != null ==> m in g.recs)
      && g.recs.Keys <= f.recs.Keys
  {
    var g, r := Removed(f, n), f.recs[n];
    if r.bit[0] == null || r.bit[1] == null {
      SingleRemovable(f, n);
      hide Splice, SlotHolds, LinkOk;
      SpliceDrops(f, n);
      if r.bit[0] == null && r.bit[1] == null && r.slot.BitSlot? && f.recs[r.slot.parent].peer == null {
        SpliceLeafParent(f, n);
        SpliceDrops(Splice(f, n), r.slot.parent);
        DropsTwice(f, Splice(f, n), g, n, r.slot.parent);
      }
    }
  }

  lemma {:induction false} DropsTwice(f: Forest, g: Forest, h: Forest, n: Node, p: Node)
    requires Drops(f, g, {n}) && Drops(g, h, {p})
    ensures Drops(f, h, {n, p})
  {
  }

  lemma {:induction false} RemovedLists(f: Forest, n: Node, lists: map<Peer, seq<Node>>)
    requires WellFormed(f) && NodeOk(f, n) && ListsOk(f, lists)
    ensures Removed(f, n).recs.Keys <= f.recs.Keys
    ensures ListsOk(Removed(f, n), Unlisted(lists, f.recs[n].peer, n))
  {
    RemovedKeeps(f, n);
    if f.recs[n].peer != null {
      ListDrop(f, Removed(f, n), lists, n);
    } else {
      assert GlueOk(f.recs[n]);
      ForestEqual(Removed(f, n), f);
    }
  }

  /** remove_node() keeps the shape and removes the node's network, nothing else. */
  lemma {:induction false} RemovedEffect(f: Forest, n: Node)
    requires WellFormed(f) && NodeOk(f, n)
    ensures WellFormed(Removed(f, n))
    ensures Contents(Removed(f, n)) == Contents(f) - {NetOf(f.recs[n])}
  {
    var r := f.recs[n];
    if r.bit[0] != null && r.bit[1] != null {
      RemovedSplit(f, n);
    } else if r.bit[0] == null && r.bit[1] == null && r.slot.BitSlot? && f.recs[r.slot.parent].peer == null {
      RemovedTwo(f, n);
    } else {
      RemovedSpliced(f, n);
    }
  }

  // ---- walking down towards a key ----

  lemma {:induction false} RootNodeOk(f: Forest, bits: nat)
    requires Linked(f) && Width(bits) && Root(f, bits) != null
    ensures NodeOk(f, Root(f, bits)) && |f.recs[Root(f, bits)].key| == bits
  {
    assert NodeOk(f, Root(f, bits));
  }

  lemma {:induction false} ChildNodeOk(f: Forest, n: Node, b: nat)
    requires Linked(f) && NodeOk(f, n) && b < 2
    ensures var c := f.recs[n].bit[b]; c != null ==>
      NodeOk(f, c) && |f.recs[c].key| == |f.recs[n].key| && f.recs[n].cidr < f.recs[c].cidr
  {
    var c := f.recs[n].bit[b];
    if c != null {
      assert LinkOk(f, n, b);
      assert NodeOk(f, c);
    }
  }

  /** Every node matching the key lies below node, or is no better than found. */
  ghost predicate Pending(f: Forest, key: seq<bool>, node: Node?, found: Node?)
    requires Linked(f)
  {
    forall m :: m in f.recs && Matches(f.recs[m], key) ==>
      || (node != null && Below(f, m, node))
      || f.recs[m].peer == null
      || (found != null && found in f.recs && f.recs[m].cidr <= f.recs[found].cidr)
  }

  lemma {:induction false} PendingStart(f: Forest, key: seq<bool>)
    requires Linked(f)
    ensures Pending(f, key, Root(f, |key|), null)
  {
    forall m | m in f.recs && Matches(f.recs[m], key)
      ensures Root(f, |key|) != null && Below(f, m, Root(f, |key|))
    {
      BelowRoot(f, m);
    }
  }

  /** One step of find_node(): node matches and its child on the key's side is next. */
  lemma {:induction false} PendingStep(f: Forest, key: seq<bool>, node: Node, found: Node?)
    requires Linked(f) && Pending(f, key, node, found) && NodeOk(f, node)
    requires Matches(f.recs[node], key) && f.recs[node].cidr < |key|
    requires found != null ==> found in f.recs && f.recs[found].cidr < f.recs[node].cidr
    ensures Pending(f, key, Next(f, key, node), if f.recs[node].peer != null then node else found)
  {
    forall m | m in f.recs && Matches(f.recs[m], key) && Below(f, m, node) && m != node
      ensures var c := Next(f, key, node); c != null && Below(f, m, c)
    {
      BelowStep(f, m, node, key);
    }
  }

  /** node->bit[choose(node, key)] */
  ghost function Next(f: Forest, key: seq<bool>, node: Node): Node?
    requires NodeOk(f, node) && f.recs[node].cidr < |key|
  {
    f.recs[node].bit[if key[f.recs[node].cidr] then 1 else 0]
  }

  /** find_node() may stop at a node that does not match, or that has full length. */
  lemma {:induction false} PendingStop(f: Forest, key: seq<bool>, node: Node, found: Node?)
    requires Linked(f) && Pending(f, key, node, found) && NodeOk(f, node)
    requires Matches(f.recs[node], key) ==> f.recs[node].cidr == |key|
    ensures Pending(f, key, null, if Matches(f.recs[node], key) && f.recs[node].peer != null then node else found)
  {
    forall m | m in f.recs && Matches(f.recs[m], key) && Below(f, m, node)
      ensures m == node
    {
      BelowExtends(f, m, node);
    }
  }

  ghost predicate Found(f: Forest, key: seq<bool>, found: Node?) {
    found != null ==> found in f.recs && f.recs[found].peer != null && Matches(f.recs[found], key)
  }

  /** found matches the key and no matching node with a peer has a longer prefix. */
  ghost predicate Longest(f: Forest, key: seq<bool>, found: Node?)
    requires Linked(f)
  {
    Found(f, key, found) && Pending(f, key, null, found)
  }

  ghost predicate OnPath(f: Forest, key: seq<bool>, node: Node?) {
    node != null ==> node in f.recs && |f.recs[node].key| == |key|
  }

  /** The loop of find_node(), about to look at node. */
  ghost function FindFrom(f: Forest, key: seq<bool>, node: Node?, found: Node?): Node?
    requires Linked(f) && OnPath(f, key, node)
    decreases if node == null then 0 else |key| + 1 - f.recs[node].cidr
  {
    if node == null || !Matches(f.recs[node], key) then found
    else
      var found' := if f.recs[node].peer != null then node else found;
      if f.recs[node].cidr == |key| then found'
      else NextOnPath(f, key, node); FindFrom(f, key, Next(f, key, node), found')
  }

  lemma {:induction false} NextOnPath(f: Forest, key: seq<bool>, node: Node)
    requires Linked(f) && OnPath(f, key, node)
    ensures NodeOk(f, node)
    ensures f.recs[node].cidr < |key| ==>
      var c := Next(f, key, node); OnPath(f, key, c) && (c != null ==> f.recs[node].cidr < f.recs[c].cidr <= |key|)
  {
    assert NodeOk(f, node);
    if f.recs[node].cidr < |key| {
      ChildNodeOk(f, node, if key[f.recs[node].cidr] then 1 else 0);
    }
  }

  ghost function Find(f: Forest, key: seq<bool>): Node?
    requires Linked(f) && Width(|key|)
  {
    FindStart(f, key);
    FindFrom(f, key, Root(f, |key|), null)
  }

  lemma {:induction false} FindStart(f: Forest, key: seq<bool>)
    requires Linked(f) && Width(|key|)
    ensures OnPath(f, key, Root(f, |key|))
  {
    if Root(f, |key|) != null {
      RootNodeOk(f, |key|);
    }
  }

  lemma {:induction false} FindFromLongest(f: Forest, key: seq<bool>, node: Node?, found: Node?)
    requires Linked(f) && OnPath(f, key, node) && Pending(f, key, node, found) && Found(f, key, found)
    requires node != null && found != null ==> f.recs[found].cidr < f.recs[node].cidr
    ensures Longest(f, key, FindFrom(f, key, node, found))
    decreases if node == null then 0 else |key| + 1 - f.recs[node].cidr
  {
    if node != null {
      NextOnPath(f, key, node);
      if !Matches(f.recs[node], key) || f.recs[node].cidr == |key| {
        PendingStop(f, key, node, found);
      } else {
        PendingStep(f, key, node, found);
        FindFromLongest(f, key, Next(f, key, node), if f.recs[node].peer != null then node else found);
      }
    }
  }

  /** The reference lookup: try the first n, n-1, ... 0 bits of the address. */
  ghost function LongestMatch(table: map<Net, Peer>, key: seq<bool>, n: nat): Peer?
    requires n <= |key|
  {
    if NetAt(key, n) in table then table[NetAt(key, n)]
    else if n == 0 then null
    else LongestMatch(table, key, n - 1)
  }

  lemma {:induction false} LongestMatchSkip(table: map<Net, Peer>, key: seq<bool>, n: nat, k: nat)
    requires k <= n <= |key| && forall j {:trigger NetAt(key, j)} :: k < j <= n ==> NetAt(key, j) !in table
    ensures LongestMatch(table, key, n) == LongestMatch(table, key, k)
  {
    if k < n {
      LongestMatchSkip(table, key, n - 1, k);
    }
  }

  /** The node that find_node() returns owns the longest stored prefix of the address. */
  lemma {:induction false} FindIsLongest(f: Forest, key: seq<bool>)
    requires Linked(f) && Width(|key|)
    ensures var found := Find(f, key);
      && (found != null ==> found in f.recs)
      && LongestMatch(Contents(f), key, |key|) == if found == null then null else f.recs[found].peer
  {
    FindStart(f, key);
    PendingStart(f, key);
    FindFromLongest(f, key, Root(f, |key|), null);
    LongestIsMatch(f, key, Find(f, key));
  }

  lemma {:induction false} LongestIsMatch(f: Forest, key: seq<bool>, found: Node?)
    requires Linked(f) && Longest(f, key, found)
    ensures LongestMatch(Contents(f), key, |key|) == if found == null then null else f.recs[found].peer
  {
    var k: nat := if found == null then 0 else f.recs[found].cidr;
    forall j {:trigger NetAt(key, j)} | k < j <= |key|
      ensures NetAt(key, j) !in Contents(f)
    {
      NoLongerMatch(f, key, found, j);
    }
    LongestMatchSkip(Contents(f), key, |key|, k);
    if found == null {
      NoLongerMatch(f, key, found, 0);
    } else {
      NetMatches(f.recs[found], key, k);
      OwnedInContents(f, found, NetAt(key, k));
    }
  }

  lemma {:induction false} NoLongerMatch(f: Forest, key: seq<bool>, found: Node?, j: nat)
    requires Linked(f) && Pending(f, key, null, found) && Found(f, key, found) && j <= |key|
    requires found != null ==> f.recs[found].cidr < j
    ensures NetAt(key, j) !in Contents(f)
  {
    if NetAt(key, j) in Contents(f) {
      var m := ContentsOwned(f, NetAt(key, j));
      NetMatches(f.recs[m], key, j);
    }
  }

  /** Every node holding the network lies below node. */
  ghost predicate Placing(f: Forest, key: seq<bool>, cidr: nat, node: Node?)
    requires Linked(f)
  {
    forall m :: m in f.recs && Matches(f.recs[m], key) && f.recs[m].cidr == cidr ==> node != null && Below(f, m, node)
  }

  lemma {:induction false} PlacingStart(f: Forest, key: seq<bool>, cidr: nat)
    requires Linked(f)
    ensures Placing(f, key, cidr, Root(f, |key|))
  {
    forall m | m in f.recs && Matches(f.recs[m], key)
      ensures Root(f, |key|) != null && Below(f, m, Root(f, |key|))
    {
      BelowRoot(f, m);
    }
  }

  lemma {:induction false} PlacingStep(f: Forest, key: seq<bool>, cidr: nat, node: Node)
    requires Linked(f) && Placing(f, key, cidr, node) && NodeOk(f, node)
    requires Matches(f.recs[node], key) && f.recs[node].cidr < cidr <= |key|
    ensures Placing(f, key, cidr, Next(f, key, node))
  {
    forall m | m in f.recs && Matches(f.recs[m], key) && f.recs[m].cidr == cidr
      ensures var c := Next(f, key, node); c != null && Below(f, m, c)
    {
      BelowStep(f, m, node, key);
    }
  }

  lemma {:induction false} PlacingStop(f: Forest, key: seq<bool>, cidr: nat, node: Node)
    requires Linked(f) && Placing(f, key, cidr, node) && NodeOk(f, node)
    requires f.recs[node].cidr > cidr || !Matches(f.recs[node], key)
    ensures Placing(f, key, cidr, null)
  {
    forall m | m in f.recs && Matches(f.recs[m], key) && f.recs[m].cidr == cidr
      ensures false
    {
      BelowExtends(f, m, node);
    }
  }

  /** The slot in which a network starting with p's would be looked for. */
  ghost function SlotUnder(f: Forest, key: seq<bool>, p: Node?): Slot
    requires p != null ==> p in f.recs && f.recs[p].cidr < |key|
  {
    if p == null then RootSlot(|key|) else BitSlot(p, if key[f.recs[p].cidr] then 1 else 0)
  }

  /** p is null or a proper prefix of the network. */
  ghost predicate Prefixes(f: Forest, key: seq<bool>, cidr: nat, p: Node?) {
    p != null ==> NodeOk(f, p) && Matches(f.recs[p], key) && f.recs[p].cidr < cidr <= |key|
  }

  /** What node_placement() returns: the node holding the network, or else the
      longest proper prefix of it in the trie, nothing closer being below that. */
  ghost predicate Placed(f: Forest, key: seq<bool>, cidr: nat, exact: bool, p: Node?) {
    if exact then p != null && NodeOk(f, p) && Matches(f.recs[p], key) && f.recs[p].cidr == cidr
    else
      && Prefixes(f, key, cidr, p)
      && var d := SlotValue(f, SlotUnder(f, key, p));
         d != null ==> d in f.recs && !(f.recs[d].cidr <= cidr && Matches(f.recs[d], key))
  }

  /** The loop of node_placement(), about to look at node. */
  ghost function PlaceFrom(f: Forest, key: seq<bool>, cidr: nat, p: Node?, node: Node?): (bool, Node?)
    requires Linked(f) && OnPath(f, key, node) && cidr <= |key|
    decreases if node == null then 0 else |key| + 1 - f.recs[node].cidr
  {
    if node == null || f.recs[node].cidr > cidr || !Matches(f.recs[node], key) then (false, p)
    else if f.recs[node].cidr == cidr then (true, node)
    else NextOnPath(f, key, node); PlaceFrom(f, key, cidr, node, Next(f, key, node))
  }

  ghost function Place(f: Forest, key: seq<bool>, cidr: nat): (bool, Node?)
    requires Linked(f) && Width(|key|) && cidr <= |key|
  {
    FindStart(f, key);
    PlaceFrom(f, key, cidr, null, Root(f, |key|))
  }

  lemma {:induction false} PlaceFromPlaced(f: Forest, key: seq<bool>, cidr: nat, p: Node?, node: Node?)
    requires Linked(f) && OnPath(f, key, node) && cidr <= |key|
    requires Prefixes(f, key, cidr, p) && node == SlotValue(f, SlotUnder(f, key, p)) && Placing(f, key, cidr, node)
    ensures var (exact, q) := PlaceFrom(f, key, cidr, p, node);
      Placed(f, key, cidr, exact, q) && (!exact ==> Placing(f, key, cidr, null))
    decreases if node == null then 0 else |key| + 1 - f.recs[node].cidr
  {
    if node != null {
      NextOnPath(f, key, node);
      if f.recs[node].cidr > cidr || !Matches(f.recs[node], key) {
        PlacingStop(f, key, cidr, node);
      } else if f.recs[node].cidr < cidr {
        PlacingStep(f, key, cidr, node);
        PlaceFromPlaced(f, key, cidr, node, Next(f, key, node));
      }
    }
  }

  lemma {:induction false} PlacePlaced(f: Forest, key: seq<bool>, cidr: nat)
    requires Linked(f) && Width(|key|) && cidr <= |key|
    ensures var (exact, p) := Place(f, key, cidr); Placed(f, key, cidr, exact, p)
    ensures !Place(f, key, cidr).0 ==> NetAt(key, cidr) !in Contents(f)
  {
    FindStart(f, key);
    PlacingStart(f, key, cidr);
    PlaceFromPlaced(f, key, cidr, null, Root(f, |key|));
    if !Place(f, key, cidr).0 && NetAt(key, cidr) in Contents(f) {
      var m := ContentsOwned(f, NetAt(key, cidr));
      NetMatches(f.recs[m], key, cidr);
    }
  }

  lemma {:induction false} PlacedSlotFits(f: Forest, key: seq<bool>, cidr: nat, p: Node?)
    requires Linked(f) && Width(|key|) && cidr <= |key| && Placed(f, key, cidr, false, p)
    ensures SlotFits(f, SlotUnder(f, key, p), key, cidr)
  {
  }

  /** A new node with this key and length may be put above d. */
  ghost predicate Fits(f: Forest, d: Node, key: seq<bool>, cidr: nat) {
    && d in f.recs && Width(|key|) && SlotFits(f, f.recs[d].slot, key, cidr)
    && |f.recs[d].key| == |key| && cidr < f.recs[d].cidr && cidr < |key| && Agree(f.recs[d].key, key, cidr)
  }

  /** The node in the way, d, agrees with the key on common bits, at most cidr of
      them counting: a node of that length fits above d. */
  lemma {:induction false} BesideFacts(f: Forest, key: seq<bool>, cidr: nat, p: Node?, d: Node, common: nat)
    requires Linked(f) && Width(|key|) && cidr <= |key| && Placed(f, key, cidr, false, p)
    requires SlotValue(f, SlotUnder(f, key, p)) == d && |f.recs[d].key| == |key|
    requires IsCommonPrefix(f.recs[d].key, key, common)
    ensures var at := if cidr <= common then cidr else common;
      Fits(f, d, key, at) && (at < cidr ==> f.recs[d].key[at] != key[at])
  {
    assert NodeOk(f, d);
    AgreePrefix(f.recs[d].key, key, common);
  }

  lemma {:induction false} DownSameWidth(f: Forest, key: seq<bool>, cidr: nat, p: Node?, d: Node)
    requires Linked(f) && Width(|key|) && cidr <= |key| && Placed(f, key, cidr, false, p)
    requires SlotValue(f, SlotUnder(f, key, p)) == d
    ensures d in f.recs && |f.recs[d].key| == |key|
  {
    assert NodeOk(f, d);
  }

  lemma {:induction false} AgreePrefix(a: seq<bool>, b: seq<bool>, n: nat)
    requires n <= |a| && n <= |b| && a[..n] == b[..n]
    ensures Agree(a, b, n)
  {
    forall i | 0 <= i < n
      ensures a[i] == b[i]
    {
      assert a[..n][i] == b[..n][i];
    }
  }

  // ---- per-peer lists ----

  function Without<T(==)>(s: seq<T>, x: T): (r: seq<T>)
    ensures forall y :: y in r ==> y in s && y != x
    ensures forall y :: y in s && y != x ==> y in r
  {
    if s == [] then []
    else if s[0] == x then Without(s[1..], x)
    else [s[0]] + Without(s[1..], x)
  }

  lemma {:induction false} WithoutDistinct<T>(s: seq<T>, x: T)
    requires Distinct(s)
    ensures Distinct(Without(s, x))
  {
    if s != [] {
      WithoutDistinct(s[1..], x);
      var t := Without(s[1..], x);
      forall i | 0 <= i < |t|
        ensures t[i] != s[0]
      {
        assert t[i] in s[1..];
      }
    }
  }

  lemma {:induction false} WithoutLast<T>(s: seq<T>, x: T)
    requires x !in s
    ensures Without(s + [x], x) == s
  {
    if s == [] {
      assert s + [x] == [x];
    } else {
      assert (s + [x])[1..] == s[1..] + [x];
      WithoutLast(s[1..], x);
    }
  }

  /** Each peer's list holds exactly that peer's nodes, each once. */
  ghost predicate ListsOk(f: Forest, lists: map<Peer, seq<Node>>) {
    && (forall n :: n in f.recs && f.recs[n].peer != null ==> f.recs[n].peer in lists && n in lists[f.recs[n].peer])
    && (forall p, n :: p in lists && n in lists[p] ==> n in f.recs && f.recs[n].peer == p)
    && (forall p :: p in lists ==> Distinct(lists[p]))
  }

  ghost function ListOf(lists: map<Peer, seq<Node>>, p: Peer): seq<Node> {
    if p in lists then lists[p] else []
  }

  /** list_add_tail of a new node n of peer p; any other new node is glue. */
  lemma {:induction false} ListAdd(f: Forest, g: Forest, lists: map<Peer, seq<Node>>, p: Peer, n: Node)
    requires ListsOk(f, lists) && KeepsNodes(f, g)
    requires n in g.recs && n !in f.recs && g.recs[n].peer == p
    requires forall m :: m in g.recs && m !in f.recs && m != n ==> g.recs[m].peer == null
    ensures ListsOk(g, lists[p := ListOf(lists, p) + [n]])
  {
    var lists' := lists[p := ListOf(lists, p) + [n]];
    forall m | m in g.recs && g.recs[m].peer != null
      ensures g.recs[m].peer in lists' && m in lists'[g.recs[m].peer]
    {
      if m != n {
        assert SameNet(f.recs[m], g.recs[m]);
      }
    }
    forall q, m | q in lists' && m in lists'[q]
      ensures m in g.recs && g.recs[m].peer == q
    {
      if m != n {
        assert m in ListOf(lists, q);
        assert SameNet(f.recs[m], g.recs[m]);
      }
    }
  }

  /** list_del of n, then n has no peer or has left the trie. */
  lemma {:induction false} ListDrop(f: Forest, g: Forest, lists: map<Peer, seq<Node>>, n: Node)
    requires ListsOk(f, lists) && n in f.recs && f.recs[n].peer != null
    requires n in g.recs ==> g.recs[n].peer == null
    requires forall m :: m in g.recs && m != n ==> m in f.recs && g.recs[m].peer == f.recs[m].peer
    requires forall m :: m in f.recs && m != n && f.recs[m].peer != null ==> m in g.recs
    ensures ListsOk(g, lists[f.recs[n].peer := Without(lists[f.recs[n].peer], n)])
  {
    var p := f.recs[n].peer;
    WithoutDistinct(lists[p], n);
    forall q, m | q in lists && m in lists[q] && m != n
      ensures m in g.recs && g.recs[m].peer == q
    {
      assert f.recs[m].peer == q;
    }
  }

  /** list_del of n from the list of p, if it is on one */
  ghost function Unlisted(lists: map<Peer, seq<Node>>, p: Peer?, n: Node): map<Peer, seq<Node>> {
    if p == null then lists else lists[p := Without(ListOf(lists, p), n)]
  }

  /** list_move_tail of n from the list of p, if it is on one, to that of q */
  ghost function Moved(lists: map<Peer, seq<Node>>, p: Peer?, q: Peer, n: Node): map<Peer, seq<Node>> {
    var left := Unlisted(lists, p, n);
    left[q := ListOf(left, q) + [n]]
  }

  lemma {:induction false} ListMove(f: Forest, lists: map<Peer, seq<Node>>, n: Node, q: Peer)
    requires ListsOk(f, lists) && n in f.recs
    ensures ListsOk(SetPeer(f, n, q), Moved(lists, f.recs[n].peer, q, n))
  {
    var p, g := f.recs[n].peer, SetPeer(f, n, q);
    var left := Unlisted(lists, p, n);
    var lists' := Moved(lists, p, q, n);
    if p != null {
      WithoutDistinct(lists[p], n);
    }
    forall o, m | o in lists' && m in lists'[o]
      ensures m in g.recs && g.recs[m].peer == o
    {
      if m != n {
        assert m in ListOf(left, o);
        assert m in ListOf(lists, o);
      }
    }
    forall o | o in lists'
      ensures Distinct(lists'[o])
    {
      if o == q && q in left {
        assert n !in left[q];
      }
    }
  }

  // ---- add() as one step ----

  /** g is f with the network given to peer, held by the new node n; any other new node is glue. */
  ghost predicate GrewInto(f: Forest, g: Forest, n: Node, key: seq<bool>, cidr: nat, peer: Peer) {
    && WellFormed(g) && cidr <= |key| && Contents(g) == Contents(f)[NetAt(key, cidr) := peer]
    && KeepsNodes(f, g) && n !in f.recs && n in g.recs && g.recs[n].peer == peer
    && forall m :: m in g.recs && m !in f.recs && m != n ==> g.recs[m].peer == null
  }

  /** The same for use in contracts: the details come into play only where Unfold is mentioned. */
  ghost predicate Grew(f: Forest, g: Forest, n: Node, key: seq<bool>, cidr: nat, peer: Peer) {
    forall z {:trigger Unfold(z)} :: Unfold(z) ==> GrewInto(f, g, n, key, cidr, peer)
  }

  ghost predicate Unfold(z: int) { true }

  lemma {:induction false} GrewLeaf(f: Forest, n: Node, key: seq<bool>, cidr: nat, peer: Peer, p: Node?)
    requires WellFormed(f) && Width(|key|) && cidr <= |key| && Placed(f, key, cidr, false, p) && n !in f.recs
    requires SlotValue(f, SlotUnder(f, key, p)) == null
    ensures Insertable(f, SlotUnder(f, key, p), n, key, cidr)
    ensures Grew(f, Attach(f, SlotUnder(f, key, p), n, key, cidr, peer), n, key, cidr, peer)
  {
    PlacedSlotFits(f, key, cidr, p);
    AddLeaf(f, SlotUnder(f, key, p), n, key, cidr, peer);
  }

  lemma {:induction false} GrewAbove(f: Forest, n: Node, key: seq<bool>, cidr: nat, peer: Peer, d: Node)
    requires WellFormed(f) && Above(f, d, n, key, cidr)
    ensures Grew(f, InsertAbove(f, d, n, key, cidr, peer), n, key, cidr, peer)
  {
    AddAbove(f, d, n, key, cidr, peer);
  }

  lemma {:induction false} GrewGlued(f: Forest, n: Node, key: seq<bool>, cidr: nat, peer: Peer, d: Node, glue: Node, at: nat)
    requires WellFormed(f) && NodeOk(f, d) && Above(f, d, glue, key, at) && n !in f.recs && n != glue
    requires at < cidr <= |key| && f.recs[d].key[at] != key[at]
    ensures Grew(f, Glued(f, d, glue, at, n, key, cidr, peer), n, key, cidr, peer)
  {
    AddGlued(f, d, glue, at, n, key, cidr, peer);
  }

  /** What the node that holds a network says about its owner. */
  lemma {:induction false} ExactOwner(f: Forest, n: Node, key: seq<bool>, cidr: nat)
    requires Linked(f) && Placed(f, key, cidr, true, n) && cidr <= |key|
    ensures NetOf(f.recs[n]) == NetAt(key, cidr)
    ensures f.recs[n].peer != null ==> NetAt(key, cidr) in Contents(f) && Contents(f)[NetAt(key, cidr)] == f.recs[n].peer
    ensures f.recs[n].peer == null ==> NetAt(key, cidr) !in Contents(f)
  {
    NetMatches(f.recs[n], key, cidr);
    if f.recs[n].peer != null {
      OwnedInContents(f, n, NetAt(key, cidr));
    } else if NetAt(key, cidr) in Contents(f) {
      var m := ContentsOwned(f, NetAt(key, cidr));
      assert NodeOk(f, m);
      NetUnique(f, m, n);
    }
  }

  // ---- remove_by_peer ----

  /** The head of a peer's list, its owner, and the list without it. */
  lemma {:induction false} ListHead(f: Forest, lists: map<Peer, seq<Node>>, peer: Peer)
    requires Linked(f) && ListsOk(f, lists) && ListOf(lists, peer) != []
    ensures var n := lists[peer][0];
      && NodeOk(f, n) && f.recs[n].peer == peer
      && Without(lists[peer], n) == lists[peer][1..]
      && NetOf(f.recs[n]) in Contents(f) && Contents(f)[NetOf(f.recs[n])] == peer
  {
    var n := lists[peer][0];
    assert n in lists[peer];
    assert NodeOk(f, n);
    WithoutAbsent(lists[peer][1..], n);
    OwnedInContents(f, n, NetOf(f.recs[n]));
  }

  lemma {:induction false} WithoutAbsent<T>(s: seq<T>, x: T)
    requires x !in s
    ensures Without(s, x) == s
  {
    if s != [] {
      WithoutAbsent(s[1..], x);
    }
  }

  ghost function WithoutPeer(table: map<Net, Peer>, peer: Peer): map<Net, Peer> {
    map net | net in table && table[net] != peer :: table[net]
  }

  /** Some of peer's networks, and no others, are gone. */
  ghost predicate Shrunk(table: map<Net, Peer>, table': map<Net, Peer>, peer: Peer) {
    && (forall net :: net in table' ==> net in table && table'[net] == table[net])
    && (forall net :: net in table && table[net] != peer ==> net in table')
  }

  /** A peer with an empty list owns no network. */
  lemma {:induction false} ShrunkAll(f: Forest, lists: map<Peer, seq<Node>>, table: map<Net, Peer>, peer: Peer)
    requires Linked(f) && ListsOk(f, lists) && ListOf(lists, peer) == [] && Shrunk(table, Contents(f), peer)
    ensures Contents(f) == WithoutPeer(table, peer)
  {
    forall net | net in Contents(f)
      ensures Contents(f)[net] != peer
    {
      var n := ContentsOwned(f, net);
    }
    assert Contents(f).Keys == WithoutPeer(table, peer).Keys;
  }

  // ---- the stack walks ----

  /** The nodes of the subtree of n. */
  ghost function Subtree(f: Forest, n: Node): set<Node>
    requires Linked(f)
  {
    set m | m in f.recs && Below(f, m, n)
  }

  ghost function SubtreeOf(f: Forest, n: Node?): set<Node>
    requires Linked(f)
  {
    if n == null then {} else Subtree(f, n)
  }

  lemma {:induction false} SubtreeSplits(f: Forest, n: Node)
    requires Linked(f) && NodeOk(f, n)
    ensures var a, b := SubtreeOf(f, f.recs[n].bit[0]), SubtreeOf(f, f.recs[n].bit[1]);
      Subtree(f, n) == {n} + a + b && n !in a && n !in b && a !! b
  {
    var a, b := SubtreeOf(f, f.recs[n].bit[0]), SubtreeOf(f, f.recs[n].bit[1]);
    forall m | m in Subtree(f, n)
      ensures m in {n} + a + b
    {
      if m != n {
        assert NodeOk(f, m);
        BelowStep(f, m, n, f.recs[m].key);
      }
    }
    SubtreeChild(f, n, 0);
    SubtreeChild(f, n, 1);
  }

  lemma {:induction false} SubtreeChild(f: Forest, n: Node, b: nat)
    requires Linked(f) && NodeOk(f, n) && b < 2
    ensures forall m :: m in SubtreeOf(f, f.recs[n].bit[b]) ==>
      && m in f.recs && m != n && m in Subtree(f, n)
      && f.recs[n].cidr < |f.recs[m].key| && f.recs[m].key[f.recs[n].cidr] == (b == 1)
  {
    var c := f.recs[n].bit[b];
    forall m | m in SubtreeOf(f, c)
      ensures m in f.recs && m != n && m in Subtree(f, n)
      ensures f.recs[n].cidr < |f.recs[m].key| && f.recs[m].key[f.recs[n].cidr] == (b == 1)
    {
      ChildNodeOk(f, n, b);
      assert LinkOk(f, n, b);
      BelowExtends(f, m, c);
      BelowTransitive(f, m, c, n);
    }
  }

  ghost predicate InForest(f: Forest, stack: seq<Node>) {
    forall i :: 0 <= i < |stack| ==> stack[i] in f.recs
  }

  /** The nodes still to be visited. */
  ghost function Cover(f: Forest, stack: seq<Node>): set<Node>
    requires Linked(f)
  {
    if stack == [] then {} else Cover(f, stack[..|stack| - 1]) + Subtree(f, stack[|stack| - 1])
  }

  /** No node would be visited twice. */
  ghost predicate Apart(f: Forest, stack: seq<Node>)
    requires Linked(f)
  {
    stack == [] ||
    (Apart(f, stack[..|stack| - 1]) && Cover(f, stack[..|stack| - 1]) !! Subtree(f, stack[|stack| - 1]))
  }

  ghost function ParentCidr(f: Forest, n: Node): int
    requires Linked(f) && n in f.recs
  {
    match f.recs[n].slot
    case RootSlot(_) => -1
    case BitSlot(p, _) => ParentSmaller(f, n); f.recs[p].cidr
  }

  /** Parents lie ever deeper towards the top of the stack; only the top two entries may share one. */
  ghost predicate Deepening(f: Forest, stack: seq<Node>)
    requires Linked(f) && InForest(f, stack)
  {
    && (forall i :: 0 <= i < |stack| - 1 ==> ParentCidr(f, stack[i]) >= i)
    && (stack != [] ==> ParentCidr(f, stack[|stack| - 1]) >= |stack| - 2)
  }

  /** The state of a stack walk over the trie at root. */
  ghost predicate Walking(f: Forest, root: Node, done: set<Node>, stack: seq<Node>) {
    && Linked(f) && InForest(f, stack) && Deepening(f, stack) && Apart(f, stack)
    && done !! Cover(f, stack) && done + Cover(f, stack) == Subtree(f, root)
  }

  lemma {:induction false} WalkStart(f: Forest, bits: nat)
    requires Linked(f) && Width(bits) && Root(f, bits) != null
    ensures Walking(f, Root(f, bits), {}, [Root(f, bits)])
  {
    var root := Root(f, bits);
    assert NodeOk(f, root);
    assert [root][..0] == [];
    assert Cover(f, [root]) == Cover(f, []) + Subtree(f, root);
  }

  lemma {:induction false} WalkEnd(f: Forest, root: Node, done: set<Node>)
    requires Walking(f, root, done, [])
    ensures done == Subtree(f, root)
  {
  }

  ghost function Push(stack: seq<Node>, n: Node?): seq<Node> {
    if n == null then stack else stack + [n]
  }

  lemma {:induction false} CoverPush(f: Forest, stack: seq<Node>, n: Node?)
    requires Linked(f) && Apart(f, stack) && Cover(f, stack) !! SubtreeOf(f, n)
    ensures Apart(f, Push(stack, n)) && Cover(f, Push(stack, n)) == Cover(f, stack) + SubtreeOf(f, n)
  {
    if n != null {
      assert (stack + [n])[..|stack|] == stack;
    }
  }

  lemma {:induction false} CoverStep(f: Forest, rest: seq<Node>, n: Node)
    requires Linked(f) && NodeOk(f, n) && Apart(f, rest) && Cover(f, rest) !! Subtree(f, n)
    ensures var stack' := Push(Push(rest, f.recs[n].bit[0]), f.recs[n].bit[1]);
      Apart(f, stack') && n !in Cover(f, stack') && Cover(f, rest) + Subtree(f, n) == Cover(f, stack') + {n}
  {
    SubtreeSplits(f, n);
    CoverPush(f, rest, f.recs[n].bit[0]);
    CoverPush(f, Push(rest, f.recs[n].bit[0]), f.recs[n].bit[1]);
  }

  lemma {:induction false} MoveToDone<T>(done: set<T>, old': set<T>, new': set<T>, n: T)
    requires done !! old' && old' == new' + {n} && n !in new'
    ensures done + {n} !! new' && done + {n} + new' == done + old' && n !in done && n in done + old'
  {
  }

  /** One round: pop the top, push its children. The stack never holds more than bits + 1 nodes. */
  lemma {:induction false} WalkStep(f: Forest, root: Node, done: set<Node>, stack: seq<Node>)
    requires Walking(f, root, done, stack) && stack != []
    ensures var rest, n := stack[..|stack| - 1], stack[|stack| - 1];
      && NodeOk(f, n) && n !in done && n in Subtree(f, root)
      && var stack' := Push(Push(rest, f.recs[n].bit[0]), f.recs[n].bit[1]);
      Walking(f, root, done + {n}, stack') && |stack'| <= |f.recs[n].key| + 1
  {
    var rest, n := stack[..|stack| - 1], stack[|stack| - 1];
    DeepeningStep(f, stack);
    CoverStep(f, rest, n);
    MoveToDone(done, Cover(f, stack), Cover(f, Push(Push(rest, f.recs[n].bit[0]), f.recs[n].bit[1])), n);
  }

  lemma {:induction false} DeepeningStep(f: Forest, stack: seq<Node>)
    requires Linked(f) && InForest(f, stack) && Deepening(f, stack) && stack != []
    ensures var rest, n := stack[..|stack| - 1], stack[|stack| - 1];
      && NodeOk(f, n)
      && var stack' := Push(Push(rest, f.recs[n].bit[0]), f.recs[n].bit[1]);
      InForest(f, stack') && Deepening(f, stack') && |stack'| <= |f.recs[n].key| + 1
  {
    var rest, n := stack[..|stack| - 1], stack[|stack| - 1];
    assert NodeOk(f, n);
    if f.recs[n].slot.BitSlot? {
      ParentSmaller(f, n);
    }
    ChildDeeper(f, n, 0);
    ChildDeeper(f, n, 1);
    assert |rest| <= f.recs[n].cidr <= |f.recs[n].key|;
    hide NodeOk, Linked, ParentCidr;
    assert InForest(f, rest) && (forall i :: 0 <= i < |rest| ==> ParentCidr(f, rest[i]) >= i);
    DeepeningPush(f, rest, f.recs[n].bit[0], f.recs[n].bit[1]);
  }

  /** Up to two nodes whose parent is at least as deep as the stack is high */
  lemma {:induction false} DeepeningPush(f: Forest, rest: seq<Node>, a: Node?, b: Node?)
    requires Linked(f) && InForest(f, rest) && forall i :: 0 <= i < |rest| ==> ParentCidr(f, rest[i]) >= i
    requires a != null ==> a in f.recs && ParentCidr(f, a) >= |rest|
    requires b != null ==> b in f.recs && ParentCidr(f, b) >= |rest|
    ensures var stack := Push(Push(rest, a), b);
      InForest(f, stack) && Deepening(f, stack) && |stack| <= |rest| + 2
  {
    hide Linked, ParentCidr;
  }

  lemma {:induction false} ChildDeeper(f: Forest, n: Node, b: nat)
    requires Linked(f) && NodeOk(f, n) && b < 2
    ensures var c := f.recs[n].bit[b]; c != null ==>
      c in f.recs && ParentCidr(f, c) == f.recs[n].cidr
  {
    ChildNodeOk(f, n, b);
  }

  /** Every node is in one of the two tries. */
  lemma {:induction false} InSomeTrie(f: Forest, n: Node)
    requires Linked(f) && n in f.recs
    ensures n in SubtreeOf(f, f.root4) + SubtreeOf(f, f.root6)
  {
    assert NodeOk(f, n);
    BelowRoot(f, n);
  }

  lemma {:induction false} TrieWidth(f: Forest, n: Node, bits: nat)
    requires Linked(f) && Width(bits) && n in SubtreeOf(f, Root(f, bits))
    ensures n in f.recs && |f.recs[n].key| == bits
  {
    RootNodeOk(f, bits);
    BelowExtends(f, n, Root(f, bits));
  }

  ghost predicate TrimmedList(l0: seq<Node>, l: seq<Node>, done: set<Node>) {
    (forall n :: n in l ==> n in l0 && n !in done) && (forall n :: n in l0 && n !in done ==> n in l)
  }

  /** ls is what the walk over the nodes in done has left of the lists ls0. */
  ghost predicate Trimmed(ls0: map<Peer, seq<Node>>, ls: map<Peer, seq<Node>>, done: set<Node>) {
    ls.Keys == ls0.Keys && forall p :: p in ls ==> TrimmedList(ls0[p], ls[p], done)
  }

  lemma TrimmedNone(ls: map<Peer, seq<Node>>)
    ensures Trimmed(ls, ls, {})
  {
  }

  lemma {:induction false} TrimStep(f: Forest, ls0: map<Peer, seq<Node>>, ls: map<Peer, seq<Node>>, done: set<Node>, n: Node)
    requires ListsOk(f, ls0) && Trimmed(ls0, ls, done) && n in f.recs
    ensures f.recs[n].peer != null ==> f.recs[n].peer in ls
    ensures Trimmed(ls0, Unlisted(ls, f.recs[n].peer, n), done + {n})
  {
    var ls' := Unlisted(ls, f.recs[n].peer, n);
    forall p | p in ls'
      ensures TrimmedList(ls0[p], ls'[p], done + {n})
    {
      assert TrimmedList(ls0[p], ls[p], done);
      forall m | m in ls'[p]
        ensures m in ls0[p] && m !in done + {n}
      {
        assert m in ls[p];
        assert m in ls0[p];
      }
    }
  }

  lemma {:induction false} TrimmedEmpty(f: Forest, ls0: map<Peer, seq<Node>>, ls: map<Peer, seq<Node>>, done: set<Node>)
    requires Linked(f) && ListsOk(f, ls0) && Trimmed(ls0, ls, done)
    requires SubtreeOf(f, f.root4) + SubtreeOf(f, f.root6) <= done
    ensures forall p :: p in ls ==> ls[p] == []
  {
    forall p | p in ls
      ensures ls[p] == []
    {
      if ls[p] != [] {
        var n := ls[p][0];
        assert TrimmedList(ls0[p], ls[p], done) && n in ls[p];
        assert n in ls0[p];
        InSomeTrie(f, n);
      }
    }
  }

  lemma {:induction false} DistinctConcat<T>(a: seq<T>, b: seq<T>)
    requires Distinct(a) && Distinct(b) && forall x :: x in a ==> x !in b
    ensures Distinct(a + b)
  {
    forall i, j | 0 <= i < j < |a + b|
      ensures (a + b)[i] != (a + b)[j]
    {
      if i < |a| <= j {
        assert a[i] in a && b[j - |a|] in b;
      }
    }
  }
}
