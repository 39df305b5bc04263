/** The shape of the trie: which nodes there are is a matter of the table alone,
    and so is how many nodes an insertion has to allocate. */
module TrieShape {
  import opened TrieNodes
  import opened Address
  import opened Forest

  /** x is a proper part of net. */
  predicate Inside(x: Net, net: Net) {
    x.bits == net.bits && |net.prefix| < |x.prefix| && x.prefix[..|net.prefix|] == net.prefix
  }

  /** a and b are in different halves of net. */
  predicate Parts(a: Net, b: Net, net: Net) {
    Inside(a, net) && Inside(b, net) && a.prefix[|net.prefix|] != b.prefix[|net.prefix|]
  }

  ghost predicate Branches(table: map<Net, Peer>, net: Net) {
    exists a, b :: a in table && b in table && Parts(a, b, net)
  }

  /** The network is stored, or two stored ones are in different halves of it. */
  ghost predicate Noded(table: map<Net, Peer>, net: Net) {
    net in table || Branches(table, net)
  }

  /** A stored network branches off net at a point that has no node. */
  ghost predicate NeedsJoint(table: map<Net, Peer>, net: Net) {
    exists m, q :: m in table && Parts(net, m, q) && !Noded(table, q)
  }

  ghost predicate HeldBy(f: Forest, n: Node, net: Net) {
    n in f.recs && f.recs[n].cidr <= |f.recs[n].key| && NetOf(f.recs[n]) == net
  }

  // ---- bits of networks and of keys ----

  lemma {:induction false} InsideOf(a: seq<bool>, m: nat, b: seq<bool>, n: nat)
    requires m <= |a| && n <= |b| && |a| == |b| && n < m
    ensures Inside(NetAt(a, m), NetAt(b, n)) <==> Agree(a, b, n)
  {
    if Inside(NetAt(a, m), NetAt(b, n)) {
      forall i | 0 <= i < n
        ensures a[i] == b[i]
      {
        assert a[..m][..n][i] == b[..n][i];
      }
    }
    if Agree(a, b, n) {
      assert a[..m][..n] == b[..n];
    }
  }

  // ---- below a node ----

  lemma {:induction false} OwnerUnder(f: Forest, n: Node) returns (m: Node)
    requires WellFormed(f) && n in f.recs
    ensures m in f.recs && f.recs[m].peer != null && Below(f, m, n)
    decreases |f.recs[n].key| - f.recs[n].cidr
  {
    assert NodeOk(f, n) && GlueOk(f.recs[n]);
    if f.recs[n].peer != null {
      m := n;
    } else {
      ChildNodeOk(f, n, 0);
      m := OwnerUnderChild(f, n, 0);
    }
  }

  lemma {:induction false} OwnerUnderChild(f: Forest, n: Node, b: nat) returns (m: Node)
    requires WellFormed(f) && NodeOk(f, n) && b < 2 && f.recs[n].bit[b] != null
    ensures m in f.recs && f.recs[m].peer != null && Below(f, m, n)
    ensures RecOk(f.recs[m]) && |f.recs[m].key| == |f.recs[n].key| && f.recs[n].cidr < f.recs[m].cidr
    ensures Agree(f.recs[m].key, f.recs[n].key, f.recs[n].cidr) && f.recs[m].key[f.recs[n].cidr] == (b == 1)
    decreases |f.recs[n].key| - f.recs[n].cidr, 0
  {
    var c := f.recs[n].bit[b];
    ChildNodeOk(f, n, b);
    assert LinkOk(f, n, b);
    m := OwnerUnder(f, c);
    BelowExtends(f, m, c);
    ParentSmaller(f, c);
    assert Below(f, c, n);
    BelowTransitive(f, m, c, n);
  }

  /** Where two nodes part there is one. */
  lemma {:induction false} Joint(f: Forest, a: Node, b: Node, x: Node, l: nat) returns (n: Node)
    requires Linked(f) && a in f.recs && b in f.recs && x in f.recs && Below(f, a, x) && Below(f, b, x)
    requires |f.recs[a].key| == |f.recs[b].key| && l < f.recs[a].cidr <= |f.recs[a].key| && l < f.recs[b].cidr <= |f.recs[b].key|
    requires Agree(f.recs[a].key, f.recs[b].key, l) && f.recs[a].key[l] != f.recs[b].key[l]
    ensures n in f.recs && f.recs[n].cidr == l && Matches(f.recs[n], f.recs[a].key)
    decreases |f.recs[a].key| - f.recs[x].cidr
  {
    BelowExtends(f, a, x);
    BelowExtends(f, b, x);
    if f.recs[x].cidr == l {
      n := x;
    } else {
      BelowStep(f, a, x, f.recs[a].key);
      BelowStep(f, b, x, f.recs[b].key);
      assert NodeOk(f, x);
      var c := f.recs[x].bit[if f.recs[a].key[f.recs[x].cidr] then 1 else 0];
      n := Joint(f, a, b, c, l);
    }
  }

  lemma {:induction false} JointAt(f: Forest, a: Node, b: Node, l: nat) returns (n: Node)
    requires Linked(f) && a in f.recs && b in f.recs
    requires |f.recs[a].key| == |f.recs[b].key| && l < f.recs[a].cidr <= |f.recs[a].key| && l < f.recs[b].cidr <= |f.recs[b].key|
    requires Agree(f.recs[a].key, f.recs[b].key, l) && f.recs[a].key[l] != f.recs[b].key[l]
    ensures n in f.recs && f.recs[n].cidr == l && Matches(f.recs[n], f.recs[a].key)
  {
    BelowRoot(f, a);
    BelowRoot(f, b);
    assert NodeOk(f, a);
    RootNodeOk(f, |f.recs[a].key|);
    n := Joint(f, a, b, Root(f, |f.recs[a].key|), l);
  }

  // ---- the nodes of a table ----

  /** A node is for a stored network, or joins two of them. */
  lemma {:induction false} NodeIsNoded(f: Forest, n: Node)
    requires WellFormed(f) && n in f.recs
    ensures f.recs[n].cidr <= |f.recs[n].key| && Noded(Contents(f), NetOf(f.recs[n]))
  {
    assert NodeOk(f, n) && GlueOk(f.recs[n]);
    var r := f.recs[n];
    if r.peer != null {
      OwnedInContents(f, n, NetOf(r));
    } else {
      var a := OwnerUnderChild(f, n, 0);
      var b := OwnerUnderChild(f, n, 1);
      OwnedInContents(f, a, NetOf(f.recs[a]));
      OwnedInContents(f, b, NetOf(f.recs[b]));
      hide Contents, Linked;
      InsideOf(f.recs[a].key, f.recs[a].cidr, r.key, r.cidr);
      InsideOf(f.recs[b].key, f.recs[b].cidr, r.key, r.cidr);
      assert Parts(NetOf(f.recs[a]), NetOf(f.recs[b]), NetOf(r));
    }
  }

  lemma {:induction false} NodedHasNode(f: Forest, key: seq<bool>, l: nat) returns (n: Node)
    requires WellFormed(f) && l <= |key| && Noded(Contents(f), NetAt(key, l))
    ensures HeldBy(f, n, NetAt(key, l)) && f.recs[n].cidr == l && Matches(f.recs[n], key)
  {
    hide Linked, Contents;
    if NetAt(key, l) in Contents(f) {
      n := ContentsOwned(f, NetAt(key, l));
    } else {
      var x, y :| x in Contents(f) && y in Contents(f) && Parts(x, y, NetAt(key, l));
      var a := ContentsOwned(f, x);
      var b := ContentsOwned(f, y);
      InsideOf(f.recs[a].key, f.recs[a].cidr, key, l);
      InsideOf(f.recs[b].key, f.recs[b].cidr, key, l);
      n := JointAt(f, a, b, l);
      assert f.recs[n].key[..l] == key[..l];
    }
    NetMatches(f.recs[n], key, l);
  }

  /** The trie has a node for a network if and only if the network is stored or joins two stored ones. */
  lemma {:induction false} Shape(f: Forest, key: seq<bool>, l: nat)
    requires WellFormed(f) && l <= |key|
    ensures (exists n :: HeldBy(f, n, NetAt(key, l))) <==> Noded(Contents(f), NetAt(key, l))
  {
    if n :| HeldBy(f, n, NetAt(key, l)) {
      NodeIsNoded(f, n);
    }
    if Noded(Contents(f), NetAt(key, l)) {
      var n := NodedHasNode(f, key, l);
    }
  }

  /** When the last network is gone, so is the last node. */
  lemma {:induction false} EmptyTableEmptyTrie(f: Forest)
    requires WellFormed(f) && Contents(f) == map[]
    ensures f == Forest(null, null, map[])
  {
    if n :| n in f.recs {
      var m := OwnerUnder(f, n);
      assert NodeOk(f, m);
      OwnedInContents(f, m, NetOf(f.recs[m]));
    }
  }

  lemma {:induction false} NullRootsEmptyTable(f: Forest)
    requires WellFormed(f) && f.root4 == null && f.root6 == null
    ensures Contents(f) == map[]
  {
    if net :| net in Contents(f) {
      var n := ContentsOwned(f, net);
      BelowRoot(f, n);
    }
  }

  // ---- what an insertion allocates ----

  /** A stored network that branches off the key above the slot where the key belongs does so at a node; any other
      is in that slot. */
  lemma {:induction false} BranchOff(f: Forest, key: seq<bool>, cidr: nat, p: Node?, m: Node, l: nat)
    requires Linked(f) && Width(|key|) && cidr <= |key| && Placed(f, key, cidr, false, p)
    requires m in f.recs && |f.recs[m].key| == |key| && l < cidr && l < f.recs[m].cidr <= |key|
    requires Agree(f.recs[m].key, key, l) && f.recs[m].key[l] != key[l]
    ensures var d := SlotValue(f, SlotUnder(f, key, p));
      || (d != null && d in f.recs && Below(f, m, d))
      || exists n :: n in f.recs && f.recs[n].cidr == l && Matches(f.recs[n], key)
  {
    BelowRoot(f, m);
    if p != null {
      var mk := f.recs[m].key;
      if l < f.recs[p].cidr {
        var n := JointAt(f, m, p, l);
        assert Matches(f.recs[n], key);
      } else if l == f.recs[p].cidr {
        assert Matches(f.recs[p], key);
      } else {
        UnderParent(f, m, p, mk);
        BelowStep(f, m, p, mk);
      }
    } else {
      RootNodeOk(f, |key|);
    }
  }

  /** A node that matches more of a key than p is below p. */
  lemma {:induction false} UnderParent(f: Forest, m: Node, p: Node, key: seq<bool>)
    requires Linked(f) && m in f.recs && p in f.recs && Width(|key|) && Matches(f.recs[m], key) && Matches(f.recs[p], key)
    requires f.recs[p].cidr < f.recs[m].cidr <= |key|
    ensures Below(f, m, p) && m != p
  {
    BelowRoot(f, m);
    BelowRoot(f, p);
    RootNodeOk(f, |key|);
    Comparable(f, m, p, Root(f, |key|), key);
    if Below(f, p, m) {
      BelowExtends(f, p, m);
    }
  }

  /** No joint is needed where the slot is empty, or what is in it is part of the network. */
  lemma {:induction false} NoJoint(f: Forest, key: seq<bool>, cidr: nat, p: Node?)
    requires WellFormed(f) && Width(|key|) && cidr <= |key| && Placed(f, key, cidr, false, p)
    requires var d := SlotValue(f, SlotUnder(f, key, p)); d != null ==> Agree(f.recs[d].key, key, cidr)
    ensures !NeedsJoint(Contents(f), NetAt(key, cidr))
  {
    var net := NetAt(key, cidr);
    forall m, q | m in Contents(f) && Parts(net, m, q)
      ensures Noded(Contents(f), q)
    {
      var x := ContentsOwned(f, m);
      assert NodeOk(f, x);
      PartsAt(key, cidr, f.recs[x].key, f.recs[x].cidr, q);
      BranchAtNode(f, key, cidr, p, x, |q.prefix|);
    }
  }

  lemma {:induction false} PartsAt(a: seq<bool>, m: nat, b: seq<bool>, n: nat, q: Net)
    requires m <= |a| && n <= |b| && Parts(NetAt(a, m), NetAt(b, n), q)
    ensures var l := |q.prefix|;
      l < m && l < n && |a| == |b| && q == NetAt(a, l) && Agree(b, a, l) && b[l] != a[l]
  {
    var l := |q.prefix|;
    assert a[..m][..l] == a[..l] && b[..n][..l] == b[..l];
    forall i | 0 <= i < l
      ensures a[i] == b[i]
    {
      assert a[..l][i] == b[..l][i];
    }
  }

  lemma {:induction false} BranchAtNode(f: Forest, key: seq<bool>, cidr: nat, p: Node?, m: Node, l: nat)
    requires WellFormed(f) && Width(|key|) && cidr <= |key| && Placed(f, key, cidr, false, p)
    requires var d := SlotValue(f, SlotUnder(f, key, p)); d != null ==> Agree(f.recs[d].key, key, cidr)
    requires m in f.recs && |f.recs[m].key| == |key| && l < cidr && l < f.recs[m].cidr <= |key|
    requires Agree(f.recs[m].key, key, l) && f.recs[m].key[l] != key[l]
    ensures Noded(Contents(f), NetAt(key, l))
  {
    BranchOff(f, key, cidr, p, m, l);
    var d := SlotValue(f, SlotUnder(f, key, p));
    if d != null && d in f.recs && Below(f, m, d) {
      BelowExtends(f, m, d);
    } else {
      var n :| n in f.recs && f.recs[n].cidr == l && Matches(f.recs[n], key);
      NodeIsNoded(f, n);
      NetMatches(f.recs[n], key, l);
    }
  }

  /** Between the slot and what is in it there is no node. */
  lemma {:induction false} NotBetween(f: Forest, key: seq<bool>, cidr: nat, p: Node?, d: Node, n: Node)
    requires Linked(f) && Width(|key|) && cidr <= |key| && Placed(f, key, cidr, false, p)
    requires SlotValue(f, SlotUnder(f, key, p)) == d && d in f.recs
    requires n in f.recs && f.recs[n].cidr <= |key| && Matches(f.recs[n], key) && (p != null ==> f.recs[p].cidr < f.recs[n].cidr)
    ensures f.recs[d].cidr <= f.recs[n].cidr
  {
    BelowRoot(f, n);
    if p != null {
      UnderParent(f, n, p, key);
      BelowStep(f, n, p, key);
    }
    BelowExtends(f, n, d);
  }

  /** Nor at the point where what is in the slot parts from the network. */
  lemma {:induction false} NotAt(f: Forest, key: seq<bool>, cidr: nat, p: Node?, d: Node, l: nat)
    requires WellFormed(f) && Width(|key|) && cidr <= |key| && Placed(f, key, cidr, false, p)
    requires SlotValue(f, SlotUnder(f, key, p)) == d && d in f.recs && |f.recs[d].key| == |key|
    requires l < cidr && l < f.recs[d].cidr && Agree(f.recs[d].key, key, l) && f.recs[d].key[l] != key[l]
    ensures !Noded(Contents(f), NetAt(key, l))
  {
    if p != null {
      assert NodeOk(f, p) && LinkOk(f, p, if key[f.recs[p].cidr] then 1 else 0);
      assert f.recs[p].cidr < l;
    }
    hide Contents, SlotValue, Linked;
    if Noded(Contents(f), NetAt(key, l)) {
      var n := NodedHasNode(f, key, l);
      NotBetween(f, key, cidr, p, d, n);
    }
  }

  /** One is needed where what is in the slot parts from the network. */
  lemma {:induction false} OneJoint(f: Forest, key: seq<bool>, cidr: nat, p: Node?, d: Node, l: nat)
    requires WellFormed(f) && Width(|key|) && cidr <= |key| && Placed(f, key, cidr, false, p)
    requires SlotValue(f, SlotUnder(f, key, p)) == d && d in f.recs && |f.recs[d].key| == |key|
    requires l < cidr && Agree(f.recs[d].key, key, l) && f.recs[d].key[l] != key[l]
    ensures NeedsJoint(Contents(f), NetAt(key, cidr))
  {
    assert NodeOk(f, d);
    assert l < f.recs[d].cidr;
    NotAt(f, key, cidr, p, d, l);
    var m := OwnerUnder(f, d);
    BelowExtends(f, m, d);
    OwnedInContents(f, m, NetOf(f.recs[m]));
    hide Contents, SlotValue, Linked, Placed, Noded;
    var r, net, q := f.recs[m], NetAt(key, cidr), NetAt(key, l);
    InsideOf(key, cidr, key, l);
    InsideOf(r.key, r.cidr, key, l);
    assert Parts(net, NetOf(r), q);
  }

  /** A network is found exactly if it has a node. */
  lemma {:induction false} FoundIfNoded(f: Forest, key: seq<bool>, cidr: nat)
    requires WellFormed(f) && Width(|key|) && cidr <= |key|
    ensures Place(f, key, cidr).0 <==> Noded(Contents(f), NetAt(key, cidr))
  {
    FindStart(f, key);
    PlacingStart(f, key, cidr);
    PlaceFromPlaced(f, key, cidr, null, Root(f, |key|));
    var (exact, n) := Place(f, key, cidr);
    if exact {
      NodeIsNoded(f, n);
      NetMatches(f.recs[n], key, cidr);
    } else if Noded(Contents(f), NetAt(key, cidr)) {
      var m := NodedHasNode(f, key, cidr);
    }
  }
}
