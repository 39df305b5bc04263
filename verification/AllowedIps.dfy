/** struct allowedips: the two tries, edited in place. */
module AllowedIps {
  import opened Wrappers
  import opened Words
  import opened Address
  import opened TrieNodes
  import opened Forest
  import opened TrieShape

  const EINVAL := 22
  const ENOMEM := 12

  function PrefixMatches(bits: seq<byte>, cidr: nat, key: seq<byte>, width: nat): bool
    requires IsKey(bits, width) && IsKey(key, width)
  {
    CommonBits(bits, key, width) >= cidr
  }

  lemma {:induction false} PrefixMatchesIff(bits: seq<byte>, cidr: nat, key: seq<byte>, width: nat)
    requires IsKey(bits, width) && IsKey(key, width) && cidr <= width
    ensures PrefixMatches(bits, cidr, key, width) <==> Agree(KeyBits(bits, width), KeyBits(key, width), cidr)
  {
    CommonBitsIsCommonPrefix(bits, key, width);
    AgreePrefix(KeyBits(bits, width), KeyBits(key, width), CommonBits(bits, key, width));
  }

  /** The fields that copy_and_assign_cidr sets. */
  ghost predicate FieldsOk(n: Node) {
    && IsKey(n.bits, n.bitlen) && n.cidr <= n.bitlen
    && n.bitAtA == BitAtA(n.cidr, n.bitlen) && n.bitAtB == BitAtB(n.cidr)
    && n.key == KeyBits(n.bits, n.bitlen)
  }

  /** The same for use in contracts: FieldsOk(n) comes into play only where it is
      mentioned, the sizes always. */
  ghost predicate Made(n: Node) {
    && Width(n.bitlen) && |n.bits| == n.bitlen / 8 && |n.key| == n.bitlen && n.cidr <= n.bitlen
    && forall m {:trigger FieldsOk(m)} :: m == n ==> FieldsOk(m)
  }

  ghost predicate AllMade(nodes: set<Node>) {
    forall n {:trigger Made(n)} :: n in nodes ==> Made(n)
  }

  ghost predicate Holds(n: Node, r: Rec)
    reads n
  {
    r == Rec(n.key, n.cidr, n.peer, n.bit, n.slot)
  }

  /** The heap holds the nodes of f. */
  ghost predicate Mirrors(f: Forest)
    reads f.recs.Keys
  {
    forall n {:trigger f.recs[n]} :: n in f.recs ==> Holds(n, f.recs[n])
  }

  /** choose(), on a node whose cidr is not full length */
  function ChooseBit(n: Node, key: seq<byte>): (b: nat)
    requires FieldsOk(n) && IsKey(key, n.bitlen) && n.cidr < n.bitlen
    ensures b == if KeyBits(key, n.bitlen)[n.cidr] then 1 else 0
  {
    ChooseReadsBit(n.cidr, key, n.bitlen);
    Choose(n.bitAtA, n.bitAtB, key)
  }

  /** prefix_matches() */
  function NodeMatches(n: Node, key: seq<byte>): (r: bool)
    requires FieldsOk(n) && IsKey(key, n.bitlen)
    ensures r <==> Agree(n.key, KeyBits(key, n.bitlen), n.cidr)
  {
    PrefixMatchesIff(n.bits, n.cidr, key, n.bitlen);
    PrefixMatches(n.bits, n.cidr, key, n.bitlen)
  }

  /** What one step down from a node on the path to a key meets. */
  lemma {:induction false} Descend(f: Forest, node: Node, key: seq<byte>, bits: nat)
    requires Mirrors(f) && AllMade(f.recs.Keys) && Linked(f) && IsKey(key, bits) && OnPath(f, KeyBits(key, bits), node)
    ensures FieldsOk(node) && node.bitlen == bits && Holds(node, f.recs[node])
    ensures node.cidr < bits && |node.bit| == 2 ==>
      var c := node.bit[ChooseBit(node, key)];
      && NodeOk(f, node) && c == Next(f, KeyBits(key, bits), node)
      && OnPath(f, KeyBits(key, bits), c) && (c != null ==> node.cidr < f.recs[c].cidr <= bits)
    ensures |node.bit| == 2
  {
    assert Made(node) && FieldsOk(node) && Holds(node, f.recs[node]);
    NextOnPath(f, KeyBits(key, bits), node);
  }

  /** find_node */
  method FindNode(trie: Node?, bits: nat, key: seq<byte>, ghost f: Forest) returns (found: Node?)
    requires Mirrors(f) && AllMade(f.recs.Keys) && Linked(f) && IsKey(key, bits) && trie == Root(f, bits)
    ensures found != null ==> found in f.recs
    ensures LongestMatch(Contents(f), KeyBits(key, bits), bits) == if found == null then null else f.recs[found].peer
  {
    found := Walk(trie, bits, key, f);
    FindIsLongest(f, KeyBits(key, bits));
  }

  /** Its loop: the last node with a peer on the way down */
  method Walk(trie: Node?, bits: nat, key: seq<byte>, ghost f: Forest) returns (found: Node?)
    requires Mirrors(f) && AllMade(f.recs.Keys) && Linked(f) && IsKey(key, bits) && trie == Root(f, bits)
    ensures found == Find(f, KeyBits(key, bits))
  {
    ghost var k := KeyBits(key, bits);
    var node := trie;
    found := null;
    FindStart(f, k);
    if node != null {
      Descend(f, node, key, bits);
    }
    while node != null && NodeMatches(node, key)
      invariant OnPath(f, k, node) && FindFrom(f, k, node, found) == Find(f, k)
      invariant node != null ==> FieldsOk(node) && node.bitlen == bits && Holds(node, f.recs[node])
      decreases if node == null then 0 else bits + 1 - node.cidr
    {
      Descend(f, node, key, bits);
      if node.peer != null {
        found := node;
      }
      if node.cidr == bits {
        break;
      }
      node := node.bit[ChooseBit(node, key)];
      if node != null {
        Descend(f, node, key, bits);
      }
    }
  }

  /** node_placement */
  method NodePlacement(trie: Node?, key: seq<byte>, cidr: nat, bits: nat, ghost f: Forest)
    returns (exact: bool, parent: Node?)
    requires Mirrors(f) && AllMade(f.recs.Keys) && Linked(f) && IsKey(key, bits) && cidr <= bits && trie == Root(f, bits)
    ensures (exact, parent) == Place(f, KeyBits(key, bits), cidr)
  {
    ghost var k := KeyBits(key, bits);
    var node := trie;
    exact, parent := false, null;
    FindStart(f, k);
    if node != null {
      Descend(f, node, key, bits);
    }
    while node != null && node.cidr <= cidr && NodeMatches(node, key)
      invariant !exact && OnPath(f, k, node) && PlaceFrom(f, k, cidr, parent, node) == Place(f, k, cidr)
      invariant node != null ==> FieldsOk(node) && node.bitlen == bits && Holds(node, f.recs[node])
      decreases if node == null then 0 else bits + 1 - node.cidr
    {
      Descend(f, node, key, bits);
      parent := node;
      if node.cidr == cidr {
        exact := true;
        break;
      }
      node := node.bit[ChooseBit(node, key)];
      if node != null {
        Descend(f, node, key, bits);
      }
    }
  }

  lemma {:induction false} LeafDone(f: Forest, n: Node, peer: Peer, p: Node?)
    requires WellFormed(f) && Placed(f, n.key, n.cidr, false, p) && n !in f.recs
    requires SlotValue(f, SlotUnder(f, n.key, p)) == null && AllMade(f.recs.Keys) && Made(n)
    ensures Insertable(f, SlotUnder(f, n.key, p), n, n.key, n.cidr)
    ensures Grew(f, Attach(f, SlotUnder(f, n.key, p), n, n.key, n.cidr, peer), n, n.key, n.cidr, peer)
    ensures AllMade(Attach(f, SlotUnder(f, n.key, p), n, n.key, n.cidr, peer).recs.Keys)
    ensures Attach(f, SlotUnder(f, n.key, p), n, n.key, n.cidr, peer).recs.Keys == f.recs.Keys + {n}
  {
    GrewLeaf(f, n, n.key, n.cidr, peer, p);
  }

  lemma {:induction false} BetweenDone(f: Forest, n: Node, peer: Peer, d: Node)
    requires WellFormed(f) && Above(f, d, n, n.key, n.cidr) && AllMade(f.recs.Keys) && Made(n)
    ensures Grew(f, InsertAbove(f, d, n, n.key, n.cidr, peer), n, n.key, n.cidr, peer)
    ensures AllMade(InsertAbove(f, d, n, n.key, n.cidr, peer).recs.Keys)
    ensures InsertAbove(f, d, n, n.key, n.cidr, peer).recs.Keys == f.recs.Keys + {n}
  {
    GrewAbove(f, n, n.key, n.cidr, peer, d);
  }

  lemma {:induction false} SplitDone(f: Forest, n: Node, peer: Peer, d: Node, glue: Node, at: nat)
    requires WellFormed(f) && AllMade(f.recs.Keys) && Made(n) && Made(glue)
    requires NodeOk(f, d) && Above(f, d, glue, n.key, at) && n !in f.recs && n != glue
    requires at < n.cidr <= |n.key| && f.recs[d].key[at] != n.key[at]
    ensures Grew(f, Glued(f, d, glue, at, n, n.key, n.cidr, peer), n, n.key, n.cidr, peer)
    ensures AllMade(Glued(f, d, glue, at, n, n.key, n.cidr, peer).recs.Keys)
    ensures Glued(f, d, glue, at, n, n.key, n.cidr, peer).recs.Keys == f.recs.Keys + {n, glue}
  {
    GrewGlued(f, n, n.key, n.cidr, peer, d, glue, at);
  }

  /** ++table->seq, a 64-bit counter */
  function Next64(x: nat): nat {
    (x + 1) % 0x1_0000_0000_0000_0000
  }

  /** common_bits() of two nodes */
  method SharedBits(a: Node, b: Node) returns (common: nat)
    requires Made(a) && Made(b) && a.bitlen == b.bitlen
    ensures IsCommonPrefix(a.key, b.key, common)
  {
    assert FieldsOk(a) && FieldsOk(b);
    CommonBitsIsCommonPrefix(a.bits, b.bits, b.bitlen);
    common := CommonBits(a.bits, b.bits, b.bitlen);
  }

  ghost function Dropped(table: map<Net, Peer>, bits: nat, ip: seq<bool>, cidr: nat, peer: Peer?): map<Net, Peer>
    requires |ip| == bits
  {
    if cidr <= bits && NetAt(ip, cidr) in table && table[NetAt(ip, cidr)] == peer then table - {NetAt(ip, cidr)} else table
  }

  datatype Op =
    | Insert(bits: nat, ip: seq<byte>, cidr: nat, peer: Peer?, alloc1: bool, alloc2: bool)
    | Remove(bits: nat, ip: seq<byte>, cidr: nat, peer: Peer?)
    | RemovePeer(owner: Peer)
    | Free
  {
    ghost function Peer(): TrieNodes.Peer? {
      match this
      case Insert(_, _, _, p, _, _) => p
      case RemovePeer(p) => p
      case _ => null
    }
  }

  ghost predicate OpOk(op: Op) {
    op.Insert? || op.Remove? ==> IsKey(op.ip, op.bits)
  }

  /** The error of an insertion where a node has been made for the network: whether a second one is missing */
  ghost function JointError(table: map<Net, Peer>, net: Net, alloc2: bool): int {
    if NeedsJoint(table, net) && !alloc2 then -ENOMEM else 0
  }

  ghost function InsertError(table: map<Net, Peer>, net: Net, alloc1: bool, alloc2: bool): int {
    if Noded(table, net) then 0 else if !alloc1 then -ENOMEM else JointError(table, net, alloc2)
  }

  /** What an operation that returned err does to the table. */
  ghost function Effect(table: map<Net, Peer>, op: Op, err: int): map<Net, Peer>
    requires OpOk(op)
  {
    match op
    case Insert(bits, ip, cidr, peer, _, _) =>
      if err == 0 && cidr <= bits && peer != null then table[NetAt(BeBits(ip), cidr) := peer] else table
    case Remove(bits, ip, cidr, peer) => Dropped(table, bits, BeBits(ip), cidr, peer)
    case RemovePeer(peer) => WithoutPeer(table, peer)
    case Free => map[]
  }

  ghost function ErrorOf(table: map<Net, Peer>, op: Op): int
    requires OpOk(op)
  {
    match op
    case Insert(bits, ip, cidr, peer, alloc1, alloc2) =>
      if cidr > bits || peer == null then -EINVAL else InsertError(table, NetAt(BeBits(ip), cidr), alloc1, alloc2)
    case Remove(bits, _, cidr, _) => if cidr > bits then -EINVAL else 0
    case _ => 0
  }

  /** The errors of a run, each that of its operation on the table at that point */
  ghost predicate ErrorsOf(table: map<Net, Peer>, ops: seq<Op>, errs: seq<int>)
    requires |errs| == |ops| && forall i :: 0 <= i < |ops| ==> OpOk(ops[i])
  {
    ops != [] ==>
      var n := |ops| - 1;
      ErrorsOf(table, ops[..n], errs[..n]) && errs[n] == ErrorOf(Replay(table, ops[..n], errs[..n]), ops[n])
  }

  ghost function Replay(table: map<Net, Peer>, ops: seq<Op>, errs: seq<int>): map<Net, Peer>
    requires |errs| == |ops| && forall i :: 0 <= i < |ops| ==> OpOk(ops[i])
  {
    if ops == [] then table
    else Effect(Replay(table, ops[..|ops| - 1], errs[..|ops| - 1]), ops[|ops| - 1], errs[|ops| - 1])
  }

  const MAX_ALLOWEDIPS_DEPTH := 129

  ghost predicate StackHolds(stack: array<Node?>, len: nat, st: seq<Node>)
    reads stack
  {
    len == |st| <= stack.Length && forall i :: 0 <= i < len ==> stack[i] == st[i]
  }

  /** push_rcu */
  method PushRcu(stack: array<Node?>, p: Node?, len: nat, ghost st: seq<Node>) returns (len': nat)
    requires StackHolds(stack, len, st) && |Push(st, p)| <= stack.Length
    modifies stack
    ensures StackHolds(stack, len', Push(st, p))
  {
    len' := len;
    if p != null {
      stack[len'] := p;
      len' := len' + 1;
    }
  }

  /** The two pushes that follow a pop */
  method PushChildren(stack: array<Node?>, node: Node, len: nat, ghost st: seq<Node>) returns (len': nat)
    requires StackHolds(stack, len, st) && |node.bit| == 2
    requires |Push(Push(st, node.bit[0]), node.bit[1])| <= stack.Length
    modifies stack
    ensures StackHolds(stack, len', Push(Push(st, node.bit[0]), node.bit[1]))
  {
    len' := PushRcu(stack, node.bit[0], len, st);
    len' := PushRcu(stack, node.bit[1], len', Push(st, node.bit[0]));
  }

  /** One round of a stack walk: pop a node and push its children */
  method PopAndPush(stack: array<Node?>, len: nat, ghost f: Forest, ghost root: Node, ghost done: set<Node>, ghost st: seq<Node>)
    returns (node: Node, len': nat, ghost st': seq<Node>)
    requires Mirrors(f) && Walking(f, root, done, st)
    requires 0 < len && StackHolds(stack, len, st) && stack.Length == MAX_ALLOWEDIPS_DEPTH
    modifies stack
    ensures node in f.recs && node !in done && node in Subtree(f, root)
    ensures Walking(f, root, done + {node}, st') && StackHolds(stack, len', st')
  {
    WalkStep(f, root, done, st);
    node := stack[len - 1];
    assert Holds(node, f.recs[node]);
    st' := st[..|st| - 1];
    len' := PushChildren(stack, node, len - 1, st');
    st' := Push(Push(st', node.bit[0]), node.bit[1]);
  }

  /** root_free_rcu: each node of the trie is freed, once */
  method RootFree(root: Node, bits: nat, ghost f: Forest) returns (freed: seq<Node>)
    requires Mirrors(f) && Linked(f) && Width(bits) && Root(f, bits) == root
    ensures Distinct(freed) && (set n | n in freed) == Subtree(f, root)
  {
    hide Mirrors, Linked, Walking, Root;
    var stack := new Node?[MAX_ALLOWEDIPS_DEPTH];
    stack[0] := root;
    var len: nat := 1;
    freed := [];
    ghost var st, done: set<Node> := [root], {};
    WalkStart(f, bits);
    while len > 0
      invariant Mirrors(f) && StackHolds(stack, len, st) && stack.Length == MAX_ALLOWEDIPS_DEPTH && fresh(stack)
      invariant Walking(f, root, done, st) && Distinct(freed) && done == (set n | n in freed)
      decreases Subtree(f, root) - done
    {
      var node;
      node, len, st := PopAndPush(stack, len, f, root, done, st);
      done := done + {node};
      freed := freed + [node];
    }
    WalkEnd(f, root, done);
  }

  /** The two tries share no node and hold all of them. */
  lemma {:induction false} FreedAll(f: Forest, freed4: seq<Node>, freed6: seq<Node>)
    requires Linked(f) && Distinct(freed4) && Distinct(freed6)
    requires (set n | n in freed4) == SubtreeOf(f, f.root4) && (set n | n in freed6) == SubtreeOf(f, f.root6)
    ensures Distinct(freed4 + freed6) && (set n | n in freed4 + freed6) == f.recs.Keys
  {
    forall n | n in freed4
      ensures n in f.recs && |f.recs[n].key| == 32
    {
      assert n in (set m | m in freed4);
      TrieWidth(f, n, 32);
    }
    forall n | n in freed6
      ensures n in f.recs && |f.recs[n].key| == 128
    {
      assert n in (set m | m in freed6);
      TrieWidth(f, n, 128);
    }
    DistinctConcat(freed4, freed6);
    forall n | n in f.recs
      ensures n in freed4 + freed6
    {
      InSomeTrie(f, n);
      assert n in (set m | m in freed4) + (set m | m in freed6);
    }
  }

  /** The part of the table's invariant that does not look at the heap. */
  ghost predicate Sound(f: Forest, ls: map<Peer, seq<Node>>) {
    AllMade(f.recs.Keys) && WellFormed(f) && ListsOk(f, ls)
  }

  ghost function RecNet(r: Rec): Net {
    if r.cidr <= |r.key| then NetOf(r) else Net(0, [])
  }

  lemma SoundParts(f: Forest, ls: map<Peer, seq<Node>>)
    requires Sound(f, ls)
    ensures AllMade(f.recs.Keys) && WellFormed(f) && Linked(f) && ListsOk(f, ls)
  {
  }

  lemma {:induction false} TakenSound(f: Forest, ls: map<Peer, seq<Node>>, n: Node, q: Peer)
    requires Sound(f, ls) && n in f.recs
    ensures f.recs[n].peer != null ==> f.recs[n].peer in ls
    ensures Sound(SetPeer(f, n, q), Moved(ls, f.recs[n].peer, q, n))
    ensures Moved(ls, f.recs[n].peer, q, n).Keys == ls.Keys + {q}
    ensures Contents(SetPeer(f, n, q)) == Contents(f)[RecNet(f.recs[n]) := q]
  {
    assert NodeOk(f, n);
    AddExact(f, n, q);
    ListMove(f, ls, n, q);
  }

  lemma {:induction false} GrownSound(f: Forest, g: Forest, ls: map<Peer, seq<Node>>, peer: Peer, n: Node)
    requires Sound(f, ls) && AllMade(g.recs.Keys) && Grew(f, g, n, n.key, n.cidr, peer)
    ensures Sound(g, ls[peer := ListOf(ls, peer) + [n]])
    ensures n.cidr <= |n.key| && Contents(g) == Contents(f)[NetAt(n.key, n.cidr) := peer]
  {
    assert Unfold(0);
    ListAdd(f, g, ls, peer, n);
  }

  lemma {:induction false} RemovedSound(f: Forest, ls: map<Peer, seq<Node>>, n: Node)
    requires Sound(f, ls) && n in f.recs
    ensures f.recs[n].peer != null ==> f.recs[n].peer in ls
    ensures var h := SetPeer(f, n, null);
      && Linked(h) && NodeOk(h, n) && Removed(h, n).recs.Keys <= f.recs.Keys
      && Sound(Removed(h, n), Unlisted(ls, f.recs[n].peer, n))
      && Contents(Removed(h, n)) == Contents(f) - {RecNet(f.recs[n])}
  {
    assert NodeOk(f, n);
    RemovedSetPeer(f, n);
    RemovedLists(f, n, ls);
    RemovedEffect(f, n);
  }

  /** Where a network is placed, and what removing it from peer does to the table */
  lemma {:induction false} PlaceSound(f: Forest, ls: map<Peer, seq<Node>>, key: seq<bool>, cidr: nat, peer: Peer?)
    requires Sound(f, ls) && Width(|key|) && cidr <= |key|
    ensures Linked(f)
    ensures var (exact, p) := Place(f, key, cidr);
      && (exact ==> p != null && p in f.recs && RecNet(f.recs[p]) == NetAt(key, cidr))
      && (!exact ==> Placed(f, key, cidr, false, p))
      && Dropped(Contents(f), |key|, key, cidr, peer) ==
         if exact && f.recs[p].peer == peer then Contents(f) - {RecNet(f.recs[p])} else Contents(f)
  {
    PlacePlaced(f, key, cidr);
    var (exact, p) := Place(f, key, cidr);
    hide Place, AllMade, ListsOk, Linked, Contents;
    if exact {
      ExactOwner(f, p, key, cidr);
      if f.recs[p].peer == null {
        assert Contents(f) - {NetAt(key, cidr)} == Contents(f);
      }
    }
  }

  /** The head of a peer's list is a node of that peer; removing it takes one of the peer's networks. */
  lemma {:induction false} HeadSound(f: Forest, ls: map<Peer, seq<Node>>, table: map<Net, Peer>, peer: Peer)
    requires Sound(f, ls) && peer in ls && ls[peer] != [] && Shrunk(table, Contents(f), peer)
    ensures var n := ls[peer][0];
      && n in f.recs && f.recs[n].peer == peer
      && Unlisted(ls, peer, n) == ls[peer := ls[peer][1..]]
      && Shrunk(table, Contents(f) - {RecNet(f.recs[n])}, peer)
  {
    ListHead(f, ls, peer);
  }

  lemma {:induction false} NoneLeft(f: Forest, ls: map<Peer, seq<Node>>, table: map<Net, Peer>, peer: Peer)
    requires Sound(f, ls) && ListOf(ls, peer) == [] && Shrunk(table, Contents(f), peer)
    ensures Contents(f) == WithoutPeer(table, peer)
  {
    ShrunkAll(f, ls, table, peer);
  }

  lemma ShrunkRefl(table: map<Net, Peer>, peer: Peer)
    ensures Shrunk(table, table, peer)
  {
  }

  lemma {:induction false} EmptyForest(lists: map<Peer, seq<Node>>)
    requires forall p :: p in lists ==> lists[p] == []
    ensures var f := Forest(null, null, map[]);
      Sound(f, lists) && Contents(f) == map[]
  {
  }

  class AllowedIps {
    var root4: Node?
    var root6: Node?
    var sequence: nat
    /** what the nodes of both tries hold */
    ghost var forest: Forest
    /** what the peers' lists hold */
    ghost var lists: map<Peer, seq<Node>>

    ghost predicate Mirrored()
      reads `root4, `root6, `forest, forest.recs.Keys
    {
      Mirrors(forest) && root4 == forest.root4 && root6 == forest.root6
    }

    ghost predicate Valid()
      reads this, forest.recs.Keys, lists.Keys
    {
      Mirrored() && ListsMirrored() && Sound(forest, lists)
    }

    ghost predicate ListsMirrored()
      reads `lists, lists.Keys`allowedIps
    {
      forall p :: p in lists ==> p.allowedIps == lists[p]
    }

    lemma HoldsAt(n: Node)
      requires Mirrored() && n in forest.recs
      ensures Holds(n, forest.recs[n])
    {
    }

    lemma NothingHeld()
      requires forest == Forest(null, null, map[]) && root4 == null && root6 == null
      ensures Mirrored()
    {
    }

    lemma Roots()
      requires Mirrored()
      ensures root4 == forest.root4 && root6 == forest.root6 && Mirrors(forest)
    {
    }

    /** The table of networks the tries stand for. */
    ghost function Table(): map<Net, Peer>
      reads `forest
    {
      Contents(forest)
    }

    /** The root pointers tell whether the table is empty. */
    lemma NullRoots()
      requires Valid()
      ensures Table() == map[] <==> root4 == null && root6 == null
    {
      hide Contents, Mirrored, ListsMirrored;
      SoundParts(forest, lists);
      Roots();
      hide Sound, WellFormed;
      if Table() == map[] {
        EmptyTableEmptyTrie(forest);
      }
      if root4 == null && root6 == null {
        NullRootsEmptyTable(forest);
      }
    }

    /** wg_allowedips_init */
    constructor ()
      ensures Valid() && forest.recs == map[] && lists == map[] && Table() == map[]
      ensures root4 == null && root6 == null && sequence == 1
    {
      root4, root6, sequence := null, null, 1;
      forest, lists := Forest(null, null, map[]), map[];
    }

    /** *trie for the trie of one width */
    function RootOf(bits: nat): Node?
      reads this
    {
      if bits == 32 then root4 else root6
    }

    /** lookup(), without the reference count */
    method Lookup(bits: nat, ip: seq<byte>) returns (peer: Peer?)
      requires Valid() && IsKey(ip, bits)
      ensures peer == LongestMatch(Table(), BeBits(ip), bits)
    {
      SoundParts(forest, lists);
      var key := SwapEndian(ip, bits);
      KeyBitsOfSwapped(ip, bits);
      var node := FindNode(RootOf(bits), bits, key, forest);
      if node == null {
        return null;
      }
      assert Holds(node, forest.recs[node]);
      return node.peer;
    }

    /** *slot = target */
    method StoreSlot(slot: Slot, target: Node?)
      requires Mirrored() && SlotExists(forest, slot)
      modifies this`root4, this`root6, this`forest, (if slot.BitSlot? then {slot.parent} else {})`bit
      ensures Mirrored() && forest == SetSlot(old(forest), slot, target)
    {
      match slot {
        case RootSlot(bits) =>
          if bits == 32 {
            root4 := target;
          } else {
            root6 := target;
          }
        case BitSlot(p, b) =>
          assert Holds(p, forest.recs[p]);
          p.bit := p.bit[b := target];
      }
      ghost var f := forest;
      forest := SetSlot(f, slot, target);
      forall m | m in forest.recs
        ensures Holds(m, forest.recs[m])
      {
        assert old(Holds(m, forest.recs[m]));
      }
    }

    /** node->parent_bit_packed = slot */
    method StoreParent(n: Node, slot: Slot)
      requires Mirrored() && n in forest.recs
      modifies this`forest, n`slot
      ensures Mirrored() && forest == SetParent(old(forest), n, slot)
    {
      assert Holds(n, forest.recs[n]);
      n.slot := slot;
      forest := SetParent(forest, n, slot);
      forall m | m in forest.recs
        ensures Holds(m, forest.recs[m])
      {
        assert old(Holds(m, forest.recs[m]));
      }
    }

    /** connect_node */
    method ConnectNode(slot: Slot, n: Node)
      requires Mirrored() && SlotExists(forest, slot) && n in forest.recs
      modifies this`root4, this`root6, this`forest, n`slot, (if slot.BitSlot? then {slot.parent} else {})`bit
      ensures Mirrored() && forest == Connect(old(forest), slot, n)
    {
      hide Mirrored, Mirrors;
      StoreParent(n, slot);
      StoreSlot(slot, n);
    }

    /** choose_and_connect_node */
    method ChooseAndConnectNode(parent: Node, n: Node)
      requires Mirrored() && parent in forest.recs && |forest.recs[parent].bit| == 2 && n in forest.recs
      requires Made(parent) && Made(n) && parent.bitlen == n.bitlen && parent.cidr < parent.bitlen
      modifies this`root4, this`root6, this`forest, n`slot, parent`bit
      ensures Mirrored() && forest == Connect(old(forest), BitSlot(parent, if n.key[parent.cidr] then 1 else 0), n)
    {
      assert FieldsOk(parent) && FieldsOk(n);
      var bit := ChooseBit(parent, n.bits);
      ConnectNode(BitSlot(parent, bit), n);
    }

    ghost method IncludeNode(n: Node)
      requires Mirrored() && n !in forest.recs
      modifies this`forest
      ensures Mirrored() && forest == Include(old(forest), n, Rec(n.key, n.cidr, n.peer, n.bit, n.slot))
    {
      forest := Include(forest, n, Rec(n.key, n.cidr, n.peer, n.bit, n.slot));
      forall m | m in forest.recs
        ensures Holds(m, forest.recs[m])
      {
        assert m != n ==> old(Holds(m, forest.recs[m]));
      }
    }

    /** The new node n goes into an empty slot. */
    method LinkLeaf(slot: Slot, n: Node)
      requires Mirrored() && n.bit == [null, null]
      requires Insertable(forest, slot, n, n.key, n.cidr)
      modifies this`root4, this`root6, this`forest, n`slot, (if slot.BitSlot? then {slot.parent} else {})`bit
      ensures Mirrored() && forest == Attach(old(forest), slot, n, n.key, n.cidr, n.peer)
    {
      ConnectIsAttach(forest, slot, n, Rec(n.key, n.cidr, n.peer, n.bit, n.slot));
      IncludeNode(n);
      ConnectNode(slot, n);
    }

    /** The new node n goes where d is, d below it. */
    method LinkAbove(slot: Slot, d: Node, n: Node)
      requires Mirrored() && n.bit == [null, null] && Made(n) && Made(d)
      requires d.bitlen == n.bitlen && n.cidr < n.bitlen
      requires NodeOk(forest, d) && Insertable(forest, slot, n, n.key, n.cidr)
      requires forest.recs[d].slot == slot && forest.recs[d].key == d.key && n.cidr < |d.key|
      modifies this`root4, this`root6, this`forest, n`slot, n`bit, d`slot, (if slot.BitSlot? then {slot.parent} else {})`bit
      ensures Mirrored() && forest == InsertAbove(old(forest), d, n, n.key, n.cidr, n.peer)
    {
      ghost var f, r := forest, Rec(n.key, n.cidr, n.peer, n.bit, n.slot);
      ghost var b := if d.key[n.cidr] then 1 else 0;
      ConnectIsInsertAbove(f, d, n, r, b);
      IncludeNode(n);
      ChooseAndConnectNode(n, d);
      assert SlotExists(forest, slot) by {
        IncludeSlots(f, n, r, slot);
        ConnectSlots(Include(f, n, r), BitSlot(n, b), d, slot);
      }
      ConnectNode(slot, n);
    }

    /** choose_and_connect_node() of d and of n below glue */
    method ConnectBoth(glue: Node, d: Node, n: Node)
      requires Mirrored() && glue in forest.recs && |forest.recs[glue].bit| == 2 && d in forest.recs && n in forest.recs
      requires Made(glue) && Made(n) && Made(d) && d.bitlen == n.bitlen == glue.bitlen && glue.cidr < glue.bitlen
      modifies this`root4, this`root6, this`forest, n`slot, glue`bit, d`slot
      ensures Mirrored()
      ensures var b, b' := if d.key[glue.cidr] then 1 else 0, if n.key[glue.cidr] then 1 else 0;
        forest == Connect(Connect(old(forest), BitSlot(glue, b), d), BitSlot(glue, b'), n)
    {
      ChooseAndConnectNode(glue, d);
      ChooseAndConnectNode(glue, n);
    }

    /** The new node glue goes where d is, d and the new node n below it. */
    method LinkGlued(slot: Slot, d: Node, glue: Node, n: Node, ghost gr: Rec, ghost r: Rec)
      requires Mirrored() && Holds(glue, gr) && Holds(n, r) && glue !in forest.recs && n !in forest.recs && glue != n
      requires Made(glue) && Made(n) && Made(d) && d.bitlen == n.bitlen == glue.bitlen && glue.cidr < glue.bitlen
      requires d in forest.recs && SlotExists(forest, slot) && |gr.bit| == 2 && d.key[glue.cidr] != n.key[glue.cidr]
      modifies this`root4, this`root6, this`forest
      modifies n`slot, glue`slot, glue`bit, d`slot, (if slot.BitSlot? then {slot.parent} else {})`bit
      ensures Mirrored()
      ensures forest == GluedSteps(old(forest), slot, d, glue, gr, n, r, if d.key[glue.cidr] then 1 else 0)
    {
      ghost var f := forest;
      IncludeNode(n);
      IncludeNode(glue);
      ConnectBoth(glue, d, n);
      GluedSlotExists(f, slot, d, glue, gr, n, r, if d.key[glue.cidr] then 1 else 0);
      ConnectNode(slot, glue);
    }

    /** The part of add() for a slot already taken by down. */
    method LinkBeside(down: Node, n: Node, alloc: bool, ghost parent: Node?, ghost peer: Peer) returns (err: int)
      requires Mirrored() && AllMade(forest.recs.Keys) && WellFormed(forest)
      requires Made(n) && n !in forest.recs && n.peer == peer && n.bit == [null, null]
      requires Placed(forest, n.key, n.cidr, false, parent) && SlotValue(forest, SlotUnder(forest, n.key, parent)) == down
      modifies this`root4, this`root6, this`forest, n`slot, n`bit, forest.recs.Keys`slot, forest.recs.Keys`bit
      ensures Mirrored() && AllMade(forest.recs.Keys)
      ensures err == 0 ==> Grew(old(forest), forest, n, n.key, n.cidr, peer)
      ensures fresh(forest.recs.Keys - old(forest.recs.Keys) - {n})
      ensures err == JointError(old(Contents(forest)), NetAt(n.key, n.cidr), alloc) && (err != 0 ==> forest == old(forest))
    {
      hide FieldsOk, Contents, SlotValue, Placed, GlueOk, NeedsJoint;
      DownSameWidth(forest, n.key, n.cidr, parent, down);
      assert Made(down) && Holds(down, forest.recs[down]);
      var common := SharedBits(down, n);
      BesideFacts(forest, n.key, n.cidr, parent, down, common);
      var at := if n.cidr <= common then n.cidr else common;
      assert NodeOk(forest, down);
      if n.cidr == at {
        NoJoint(forest, n.key, n.cidr, parent);
        LinkBetween(down, n, peer);
        return 0;
      }
      OneJoint(forest, n.key, n.cidr, parent, down, at);
      if !alloc {
        return -ENOMEM;
      }
      LinkSplit(at, down, n, peer);
      return 0;
    }

    /** The new node n goes between down and its parent. */
    method LinkBetween(down: Node, n: Node, ghost peer: Peer)
      requires Mirrored() && AllMade(forest.recs.Keys) && WellFormed(forest) && NodeOk(forest, down)
      requires Made(n) && n.peer == peer && n.bit == [null, null]
      requires Above(forest, down, n, n.key, n.cidr)
      modifies this`root4, this`root6, this`forest, n`slot, n`bit, forest.recs.Keys`slot, forest.recs.Keys`bit
      ensures Mirrored() && AllMade(forest.recs.Keys) && forest.recs.Keys == old(forest.recs.Keys) + {n}
      ensures Grew(old(forest), forest, n, n.key, n.cidr, peer)
    {
      hide InsertAbove, FieldsOk, WellFormed;
      assert Holds(down, forest.recs[down]) && Made(down);
      BetweenDone(forest, n, peer, down);
      LinkAbove(down.slot, down, n);
    }

    /** A glue node of length at goes where down is, with down and the new node n below it. */
    method LinkSplit(at: nat, down: Node, n: Node, ghost peer: Peer)
      requires Mirrored() && AllMade(forest.recs.Keys) && WellFormed(forest) && NodeOk(forest, down)
      requires Made(n) && n.peer == peer && n.bit == [null, null] && n !in forest.recs
      requires at < n.cidr && Fits(forest, down, n.key, at) && forest.recs[down].key[at] != n.key[at]
      modifies this`root4, this`root6, this`forest, n`slot, n`bit, forest.recs.Keys`slot, forest.recs.Keys`bit
      ensures Mirrored() && AllMade(forest.recs.Keys) && fresh(forest.recs.Keys - old(forest.recs.Keys) - {n})
      ensures Grew(old(forest), forest, n, n.key, n.cidr, peer)
    {
      hide Glued, WellFormed, Linked, NodeOk;
      assert Made(down) && Holds(down, forest.recs[down]);
      var glue := NewGlue(n, at);
      SplitDone(forest, n, peer, down, glue, at);
      GlueIn(at, down, glue, n);
      assert forest.recs.Keys - old(forest.recs.Keys) - {n} <= {glue};
    }

    /** The three choose_and_connect_node() calls for a glue node */
    method GlueIn(at: nat, down: Node, glue: Node, n: Node)
      requires Mirrored() && Made(down) && NodeOk(forest, down) && down.bitlen == n.bitlen
      requires Made(n) && n.peer != null && n.bit == [null, null] && n !in forest.recs && n != glue
      requires Made(glue) && glue.key == n.key && glue.cidr == at && glue.bitlen == n.bitlen
      requires glue.peer == null && glue.bit == [null, null]
      requires at < n.cidr && Above(forest, down, glue, n.key, at) && forest.recs[down].key[at] != n.key[at]
      modifies this`root4, this`root6, this`forest, n`slot, n`bit, glue`slot, glue`bit
      modifies forest.recs.Keys`slot, forest.recs.Keys`bit
      ensures Mirrored() && forest == Glued(old(forest), down, glue, at, n, n.key, n.cidr, n.peer)
    {
      hide Glued, GluedSteps;
      ghost var f := forest;
      assert Holds(down, f.recs[down]);
      ghost var gr := Rec(glue.key, at, null, glue.bit, glue.slot);
      ghost var r := Rec(n.key, n.cidr, n.peer, n.bit, n.slot);
      ConnectIsGlued(f, down, glue, gr, n, r, if down.key[at] then 1 else 0);
      LinkGlued(down.slot, down, glue, n, gr, r);
    }

    /** The glue node, a copy of n cut to length at */
    method NewGlue(n: Node, at: nat) returns (glue: Node)
      requires Made(n) && at < n.cidr
      ensures fresh(glue) && Made(glue) && glue.key == n.key && glue.cidr == at && glue.bitlen == n.bitlen
      ensures glue.peer == null && glue.bit == [null, null]
    {
      assert FieldsOk(n);
      glue := new Node(n.bits, at, n.bitlen, null);
    }

    /** The slot below parent, or at the root, on the way to n, and what it holds */
    method SlotFor(parent: Node?, n: Node) returns (slot: Slot, down: Node?)
      requires Mirrored() && AllMade(forest.recs.Keys) && WellFormed(forest) && Made(n)
      requires Placed(forest, n.key, n.cidr, false, parent)
      ensures slot == SlotUnder(forest, n.key, parent) && down == SlotValue(forest, slot)
    {
      slot, down := RootSlot(n.bitlen), RootOf(n.bitlen);
      if parent != null {
        assert Made(parent) && FieldsOk(parent) && FieldsOk(n) && Holds(parent, forest.recs[parent]);
        var bit := ChooseBit(parent, n.bits);
        slot, down := BitSlot(parent, bit), parent.bit[bit];
      }
    }

    /** The part of add() that finds a place for the new node. */
    method LinkNew(parent: Node?, n: Node, alloc: bool, ghost peer: Peer) returns (err: int)
      requires Mirrored() && AllMade(forest.recs.Keys) && WellFormed(forest)
      requires Made(n) && n !in forest.recs && n.peer == peer && n.bit == [null, null]
      requires Placed(forest, n.key, n.cidr, false, parent)
      modifies this`root4, this`root6, this`forest, n`slot, n`bit, forest.recs.Keys`slot, forest.recs.Keys`bit
      ensures Mirrored() && AllMade(forest.recs.Keys)
      ensures err == 0 ==> Grew(old(forest), forest, n, n.key, n.cidr, peer)
      ensures fresh(forest.recs.Keys - old(forest.recs.Keys) - {n})
      ensures err == JointError(old(Contents(forest)), NetAt(n.key, n.cidr), alloc) && (err != 0 ==> forest == old(forest))
    {
      hide Placed, WellFormed, Contents, SlotUnder, SlotValue, Attach, NeedsJoint;
      var slot, down := SlotFor(parent, n);
      if down == null {
        NoJoint(forest, n.key, n.cidr, parent);
        LeafDone(forest, n, peer, parent);
        LinkLeaf(slot, n);
        assert forest.recs.Keys == old(forest.recs.Keys) + {n};
        return 0;
      }
      err := LinkBeside(down, n, alloc, parent, peer);
    }

    /** A peer this table may be given: one it knows, or one with an empty list. */
    ghost predicate Known(peer: Peer)
      reads this, peer
    {
      peer in lists || peer.allowedIps == []
    }

    /** node->peer = peer */
    method StorePeer(n: Node, peer: Peer?)
      requires Mirrored() && n in forest.recs
      modifies this`forest, n`peer
      ensures Mirrored() && forest == SetPeer(old(forest), n, peer)
    {
      assert Holds(n, forest.recs[n]);
      n.peer := peer;
      forest := SetPeer(forest, n, peer);
      forall m | m in forest.recs
        ensures Holds(m, forest.recs[m])
      {
        assert old(Holds(m, forest.recs[m]));
      }
    }

    /** list_add_tail(&n->peer_list, &peer->allowedips_list) */
    method ListAddTail(n: Node, peer: Peer)
      requires ListsMirrored() && Known(peer)
      modifies this`lists, peer`allowedIps
      ensures ListsMirrored() && lists == old(lists)[peer := ListOf(old(lists), peer) + [n]]
    {
      peer.allowedIps := peer.allowedIps + [n];
      lists := lists[peer := ListOf(lists, peer) + [n]];
    }

    /** list_del(&n->peer_list), n being on the list of peer */
    method ListDel(n: Node, peer: Peer)
      requires ListsMirrored() && peer in lists
      modifies this`lists, peer`allowedIps
      ensures ListsMirrored() && lists == old(lists)[peer := Without(old(lists)[peer], n)]
    {
      peer.allowedIps := Without(peer.allowedIps, n);
      lists := lists[peer := Without(lists[peer], n)];
    }

    /** list_move_tail(&n->peer_list, &to->allowedips_list), n being on the list of from, if any */
    method ListMoveTail(n: Node, from: Peer?, to: Peer)
      requires ListsMirrored() && Known(to) && (from != null ==> from in lists)
      modifies this`lists, to`allowedIps, (if from == null then {} else {from})`allowedIps
      ensures ListsMirrored() && lists == Moved(old(lists), from, to, n)
    {
      if from != null {
        ListDel(n, from);
      }
      ListAddTail(n, to);
    }

    /** add() for a network that node already holds: take the node over */
    method TakeOver(node: Node, peer: Peer)
      requires Valid() && node in forest.recs && Known(peer)
      modifies this`forest, this`lists, node`peer, lists.Keys`allowedIps, peer`allowedIps
      ensures Valid() && forest == SetPeer(old(forest), node, peer)
      ensures lists == Moved(old(lists), old(node.peer), peer, node) && lists.Keys == old(lists.Keys) + {peer}
      ensures Table() == old(Table())[RecNet(old(forest).recs[node]) := peer]
    {
      hide Sound, Contents, RecNet;
      assert Holds(node, forest.recs[node]);
      TakenSound(forest, lists, node, peer);
      ListMoveTail(node, node.peer, peer);
      StorePeer(node, peer);
    }

    /** Take a node that found no place off its peer's list again */
    method DropNew(n: Node, peer: Peer, ghost ls: map<Peer, seq<Node>>)
      requires ListsMirrored() && lists == ls[peer := ListOf(ls, peer) + [n]] && n !in ListOf(ls, peer)
      modifies this`lists, peer`allowedIps
      ensures ListsMirrored() && lists == ls && peer.allowedIps == ListOf(ls, peer)
    {
      WithoutLast(ListOf(ls, peer), n);
      ListDel(n, peer);
      lists := ls;
    }

    /** add() for a network that no node holds yet, with its new node */
    method AddNew(n: Node, peer: Peer, parent: Node?, alloc: bool) returns (err: int)
      requires Valid() && Known(peer) && Made(n) && n !in forest.recs && n.peer == peer && n.bit == [null, null]
      requires n !in peer.allowedIps && Placed(forest, n.key, n.cidr, false, parent)
      modifies this`root4, this`root6, this`forest, this`lists, peer`allowedIps
      modifies n`slot, n`bit, forest.recs.Keys`slot, forest.recs.Keys`bit
      ensures Valid()
      ensures fresh(forest.recs.Keys - old(forest.recs.Keys) - {n})
      ensures err == 0 ==> Table() == old(Table())[NetAt(n.key, n.cidr) := peer]
      ensures err == 0 ==> lists.Keys == old(lists.Keys) + {peer}
      ensures err == JointError(old(Table()), NetAt(n.key, n.cidr), alloc)
      ensures err != 0 ==> forest == old(forest) && lists == old(lists) && peer.allowedIps == old(peer.allowedIps)
    {
      hide Sound, AllMade, WellFormed, Contents, Placed, Made, JointError;
      ghost var f, ls := forest, lists;
      SoundParts(f, ls);
      ListAddTail(n, peer);
      err := LinkNew(parent, n, alloc, peer);
      if err == 0 {
        GrownSound(f, forest, ls, peer, n);
      } else {
        DropNew(n, peer, ls);
      }
    }

    /** add(); alloc1 and alloc2 say whether its first and second allocation succeed */
    method Add(bits: nat, key: seq<byte>, cidr: nat, peer: Peer?, alloc1: bool, alloc2: bool) returns (err: int)
      requires Valid() && IsKey(key, bits) && (peer != null ==> Known(peer))
      modifies this`root4, this`root6, this`forest, this`lists, forest.recs.Keys
      modifies lists.Keys`allowedIps, (if peer == null then {} else {peer})`allowedIps
      ensures Valid()
      ensures fresh(forest.recs.Keys - old(forest.recs.Keys))
      ensures err == if cidr > bits || peer == null then -EINVAL
                     else InsertError(old(Table()), NetAt(KeyBits(key, bits), cidr), alloc1, alloc2)
      ensures err == 0 ==> Table() == old(Table())[NetAt(KeyBits(key, bits), cidr) := peer]
      ensures err == 0 ==> lists.Keys == old(lists.Keys) + {peer}
      ensures err != 0 ==> forest == old(forest) && lists == old(lists)
      ensures err != 0 && peer != null ==> peer.allowedIps == old(peer.allowedIps)
    {
      hide Valid, Table, KeyBits, InsertError;
      if cidr > bits || peer == null {
        return -EINVAL;
      }
      err := AddFor(bits, key, cidr, peer, alloc1, alloc2);
    }

    /** add() with a peer and a prefix that is not too long */
    method AddFor(bits: nat, key: seq<byte>, cidr: nat, peer: Peer, alloc1: bool, alloc2: bool) returns (err: int)
      requires Valid() && IsKey(key, bits) && cidr <= bits && Known(peer)
      modifies this`root4, this`root6, this`forest, this`lists, forest.recs.Keys, lists.Keys`allowedIps, peer`allowedIps
      ensures Valid() && fresh(forest.recs.Keys - old(forest.recs.Keys))
      ensures err == 0 ==> Table() == old(Table())[NetAt(KeyBits(key, bits), cidr) := peer]
      ensures err == 0 ==> lists.Keys == old(lists.Keys) + {peer}
      ensures err == InsertError(old(Table()), NetAt(KeyBits(key, bits), cidr), alloc1, alloc2)
      ensures err != 0 ==> forest == old(forest) && lists == old(lists) && peer.allowedIps == old(peer.allowedIps)
    {
      hide Sound, AllMade, WellFormed, Linked, Contents, Placed, Place, RecNet, KeyBits, Dropped, Noded, JointError;
      hide Mirrored, Mirrors, ListsMirrored;
      SoundParts(forest, lists);
      Roots();
      PlaceSound(forest, lists, KeyBits(key, bits), cidr, null);
      FoundIfNoded(forest, KeyBits(key, bits), cidr);
      var exact, node := NodePlacement(RootOf(bits), key, cidr, bits, forest);
      if exact {
        TakeOver(node, peer);
        return 0;
      }
      err := AddFresh(bits, key, cidr, peer, node, alloc1, alloc2);
    }

    /** The allocation of the new node, and what follows */
    method AddFresh(bits: nat, key: seq<byte>, cidr: nat, peer: Peer, parent: Node?, alloc1: bool, alloc2: bool) returns (err: int)
      requires Valid() && Known(peer) && IsKey(key, bits) && cidr <= bits
      requires Placed(forest, KeyBits(key, bits), cidr, false, parent)
      modifies this`root4, this`root6, this`forest, this`lists, peer`allowedIps
      modifies forest.recs.Keys`slot, forest.recs.Keys`bit
      ensures Valid() && fresh(forest.recs.Keys - old(forest.recs.Keys))
      ensures err == 0 ==> Table() == old(Table())[NetAt(KeyBits(key, bits), cidr) := peer]
      ensures err == 0 ==> lists.Keys == old(lists.Keys) + {peer}
      ensures err == if !alloc1 then -ENOMEM else JointError(old(Table()), NetAt(KeyBits(key, bits), cidr), alloc2)
      ensures err != 0 ==> forest == old(forest) && lists == old(lists) && peer.allowedIps == old(peer.allowedIps)
    {
      if !alloc1 {
        return -ENOMEM;
      }
      ghost var f := forest;
      var newnode := new Node(key, cidr, bits, peer);
      err := AddNew(newnode, peer, parent, alloc2);
      assert fresh(forest.recs.Keys - f.recs.Keys - {newnode} + {newnode});
    }

    /** Give the slot of n to its only child, if any, and free n */
    method SpliceOut(n: Node, child: Node?)
      requires Mirrored() && Removable(forest, n) && child == OnlyChild(forest.recs[n])
      requires n.slot.BitSlot? ==> n.slot.parent != child
      modifies this`root4, this`root6, this`forest, forest.recs.Keys`slot, forest.recs.Keys`bit
      ensures Mirrored() && forest == Splice(old(forest), n)
    {
      assert Holds(n, forest.recs[n]);
      StepsAreSplice(forest, n);
      var slot := n.slot;
      if child != null {
        StoreParent(child, slot);
      }
      StoreSlot(slot, child);
      forest := Exclude(forest, n);
    }

    /** The pointer work of remove_node(), the peer already cleared */
    method Unlink(node: Node)
      requires Mirrored() && Linked(forest) && NodeOk(forest, node) && node.peer == null
      modifies this`root4, this`root6, this`forest, forest.recs.Keys`slot, forest.recs.Keys`bit
      ensures Mirrored() && forest == Removed(old(forest), node)
    {
      ghost var f := forest;
      HoldsAt(node);
      if node.bit[0] != null && node.bit[1] != null {
        ForestEqual(SetPeer(f, node, null), f);
        return;
      }
      hide Mirrored, Mirrors, Linked, LinkOk, SlotHolds, Removed;
      UnlinkSingle(node);
    }

    /** A node with one child at most, and its parent if that is left with nothing to join */
    method UnlinkSingle(node: Node)
      requires Mirrored() && Linked(forest) && NodeOk(forest, node)
      requires forest.recs[node].bit[0] == null || forest.recs[node].bit[1] == null
      modifies this`root4, this`root6, this`forest, forest.recs.Keys`slot, forest.recs.Keys`bit
      ensures Mirrored() && forest == Removed(old(forest), node)
    {
      hide Mirrored, Mirrors, Linked, LinkOk, SlotHolds, Splice;
      ghost var f := forest;
      HoldsAt(node);
      SingleRemovable(f, node);
      ParentNotChild(f, node);
      var child := node.bit[if node.bit[0] == null then 1 else 0];
      var leaf, slot := node.bit[0] == null && node.bit[1] == null, node.slot;
      SpliceOut(node, child);
      if leaf && slot.BitSlot? {
        ParentStays(f, node);
        HoldsAt(slot.parent);
        if slot.parent.peer == null {
          SpliceLeafParent(f, node);
          SpliceLinked(f, node);
          ParentNotChild(forest, slot.parent);
          SpliceOut(slot.parent, slot.parent.bit[1 - slot.bit]);
        }
      }
    }

    /** remove_node */
    method RemoveNode(node: Node)
      requires Valid() && node in forest.recs
      modifies this`root4, this`root6, this`forest, this`lists, forest.recs.Keys, lists.Keys`allowedIps
      ensures Valid() && forest.recs.Keys <= old(forest.recs.Keys)
      ensures lists == Unlisted(old(lists), old(forest).recs[node].peer, node) && lists.Keys == old(lists.Keys)
      ensures Table() == old(Table()) - {RecNet(old(forest).recs[node])}
    {
      hide Sound, Linked, NodeOk, Removed, Contents, RecNet, Mirrored, ListsMirrored;
      HoldsAt(node);
      RemovedSound(forest, lists, node);
      if node.peer != null {
        ListDel(node, node.peer);
      }
      StorePeer(node, null);
      HoldsAt(node);
      Unlink(node);
    }

    /** remove() */
    method Remove(bits: nat, key: seq<byte>, cidr: nat, peer: Peer?) returns (err: int)
      requires Valid() && IsKey(key, bits)
      modifies this`root4, this`root6, this`forest, this`lists, forest.recs.Keys, lists.Keys`allowedIps
      ensures Valid() && lists.Keys == old(lists.Keys) && forest.recs.Keys <= old(forest.recs.Keys)
      ensures err == if cidr > bits then -EINVAL else 0
      ensures Table() == Dropped(old(Table()), bits, KeyBits(key, bits), cidr, peer)
    {
      if cidr > bits {
        return -EINVAL;
      }
      hide Sound, AllMade, WellFormed, Linked, Contents, Placed, Place, RecNet, KeyBits, Dropped;
      hide Mirrored, Mirrors, ListsMirrored;
      SoundParts(forest, lists);
      Roots();
      PlaceSound(forest, lists, KeyBits(key, bits), cidr, peer);
      var exact, node := NodePlacement(RootOf(bits), key, cidr, bits, forest);
      if exact {
        assert Holds(node, forest.recs[node]);
        if peer == node.peer {
          RemoveNode(node);
        }
      }
      return 0;
    }

    /** Remove the node at the head of peer's list */
    method RemoveHead(node: Node, peer: Peer, ghost table: map<Net, Peer>)
      requires Valid() && peer in lists && lists[peer] != [] && node == lists[peer][0] && Shrunk(table, Table(), peer)
      modifies this`root4, this`root6, this`forest, this`lists, forest.recs.Keys, lists.Keys`allowedIps
      ensures Valid() && lists == old(lists)[peer := old(lists)[peer][1..]] && forest.recs.Keys <= old(forest.recs.Keys)
      ensures Shrunk(table, Table(), peer)
    {
      hide Sound, Contents, Unlisted, RecNet, Shrunk;
      HeadSound(forest, lists, table, peer);
      RemoveNode(node);
    }

    /** wg_allowedips_remove_by_peer, apart from the sequence number */
    method RemoveAll(peer: Peer)
      requires Valid() && Known(peer)
      modifies this`root4, this`root6, this`forest, this`lists, forest.recs.Keys, lists.Keys`allowedIps
      ensures Valid() && lists.Keys == old(lists.Keys) && peer.allowedIps == []
      ensures forest.recs.Keys <= old(forest.recs.Keys)
      ensures Table() == WithoutPeer(old(Table()), peer)
    {
      hide Sound, Contents, WithoutPeer, Shrunk;
      var list := peer.allowedIps;
      ShrunkRefl(Table(), peer);
      for i := 0 to |list|
        invariant Valid() && lists.Keys == old(lists.Keys) && forest.recs.Keys <= old(forest.recs.Keys)
        invariant peer.allowedIps == list[i..] && ListOf(lists, peer) == list[i..]
        invariant Shrunk(old(Table()), Table(), peer)
      {
        RemoveHead(list[i], peer, old(Table()));
        assert list[i..][1..] == list[i + 1..];
      }
      NoneLeft(forest, lists, old(Table()), peer);
    }

    /** The list_del of a stack walk, for a node that has a peer */
    method DropFromList(node: Node, ghost f: Forest, ghost ls0: map<Peer, seq<Node>>, ghost done: set<Node>)
      requires Mirrors(f) && ListsMirrored() && ListsOk(f, ls0) && Trimmed(ls0, lists, done) && node in f.recs
      modifies this`lists, lists.Keys`allowedIps
      ensures ListsMirrored() && Trimmed(ls0, lists, done + {node}) && lists.Keys == old(lists.Keys)
    {
      TrimStep(f, ls0, lists, done, node);
      assert Holds(node, f.recs[node]);
      if node.peer != null {
        ListDel(node, node.peer);
      }
    }

    /** One round of root_remove_peer_lists */
    method DropRound(stack: array<Node?>, len: nat, ghost f: Forest, ghost root: Node, ghost done: set<Node>,
                     ghost st: seq<Node>, ghost ls0: map<Peer, seq<Node>>, ghost gone: set<Node>)
      returns (len': nat, ghost st': seq<Node>, ghost done': set<Node>)
      requires Mirrors(f) && Walking(f, root, done, st)
      requires 0 < len && StackHolds(stack, len, st) && stack.Length == MAX_ALLOWEDIPS_DEPTH
      requires ListsMirrored() && ListsOk(f, ls0) && Trimmed(ls0, lists, gone + done)
      modifies stack, this`lists, lists.Keys`allowedIps
      ensures StackHolds(stack, len', st') && Walking(f, root, done', st') && done < done' <= Subtree(f, root)
      ensures ListsMirrored() && Trimmed(ls0, lists, gone + done') && lists.Keys == old(lists.Keys)
    {
      hide ListsMirrored, Trimmed, ListsOk, Walking;
      var node;
      node, len', st' := PopAndPush(stack, len, f, root, done, st);
      done' := done + {node};
      DropFromList(node, f, ls0, gone + done);
      assert gone + done + {node} == gone + done';
    }

    /** root_remove_peer_lists, on a trie already taken off its root pointer */
    method RootRemovePeerLists(root: Node, bits: nat, ghost f: Forest, ghost ls0: map<Peer, seq<Node>>, ghost gone: set<Node>)
      requires Mirrors(f) && Linked(f) && Width(bits) && Root(f, bits) == root
      requires ListsMirrored() && ListsOk(f, ls0) && Trimmed(ls0, lists, gone)
      modifies this`lists, lists.Keys`allowedIps
      ensures ListsMirrored() && Trimmed(ls0, lists, gone + Subtree(f, root)) && lists.Keys == old(lists.Keys)
    {
      hide Linked, ListsOk, Trimmed, Root, Walking, Mirrors, ListsMirrored;
      var stack := new Node?[MAX_ALLOWEDIPS_DEPTH];
      stack[0] := root;
      var len: nat := 1;
      ghost var st, done: set<Node> := [root], {};
      WalkStart(f, bits);
      assert gone + done == gone;
      while len > 0
        invariant Mirrors(f) && StackHolds(stack, len, st) && stack.Length == MAX_ALLOWEDIPS_DEPTH && fresh(stack)
        invariant Walking(f, root, done, st)
        invariant ListsMirrored() && Trimmed(ls0, lists, gone + done) && lists.Keys == old(lists.Keys)
        decreases Subtree(f, root) - done
      {
        len, st, done := DropRound(stack, len, f, root, done, st, ls0, gone);
      }
      WalkEnd(f, root, done);
    }

    /** What wg_allowedips_free does with one of the tries */
    method FreeTrie(root: Node?, bits: nat, ghost f: Forest, ghost ls0: map<Peer, seq<Node>>, ghost gone: set<Node>)
      returns (freed: seq<Node>)
      requires Mirrors(f) && Linked(f) && Width(bits) && Root(f, bits) == root
      requires ListsMirrored() && ListsOk(f, ls0) && Trimmed(ls0, lists, gone)
      modifies this`lists, lists.Keys`allowedIps
      ensures ListsMirrored() && Trimmed(ls0, lists, gone + SubtreeOf(f, root)) && lists.Keys == old(lists.Keys)
      ensures Distinct(freed) && (set n | n in freed) == SubtreeOf(f, root)
    {
      freed := [];
      if root == null {
        assert gone + SubtreeOf(f, root) == gone;
      } else {
        RootRemovePeerLists(root, bits, f, ls0, gone);
        freed := RootFree(root, bits, f);
      }
    }

    /** wg_allowedips_free; the nodes handed to root_free_rcu are freed at the end of a grace period */
    method Free() returns (freed4: seq<Node>, freed6: seq<Node>)
      requires Valid()
      modifies this, lists.Keys`allowedIps
      ensures Valid() && forest == Forest(null, null, map[]) && Table() == map[]
      ensures lists.Keys == old(lists.Keys) && forall p :: p in lists ==> lists[p] == []
      ensures sequence == Next64(old(sequence))
      ensures Distinct(freed4 + freed6) && (set n | n in freed4 + freed6) == old(forest.recs.Keys)
    {
      hide Sound, Contents, AllMade, WellFormed, Linked, ListsOk, Trimmed, SubtreeOf, Distinct;
      hide Mirrored, Mirrors, ListsMirrored;
      ghost var f, ls := forest, lists;
      SoundParts(f, ls);
      Roots();
      var old4, old6 := root4, root6;
      sequence := (sequence + 1) % 0x1_0000_0000_0000_0000;
      root4, root6 := null, null;
      TrimmedNone(ls);
      freed4 := FreeTrie(old4, 32, f, ls, {});
      freed6 := FreeTrie(old6, 128, f, ls, {} + SubtreeOf(f, old4));
      TrimmedEmpty(f, ls, lists, {} + SubtreeOf(f, old4) + SubtreeOf(f, old6));
      FreedAll(f, freed4, freed6);
      EmptyForest(lists);
      forest := Forest(null, null, map[]);
      NothingHeld();
    }

    /** wg_allowedips_insert_v4 and _v6 */
    method Insert(bits: nat, ip: seq<byte>, cidr: nat, peer: Peer?, alloc1: bool, alloc2: bool) returns (err: int)
      requires Valid() && IsKey(ip, bits) && (peer != null ==> Known(peer))
      modifies this, forest.recs.Keys, lists.Keys`allowedIps, (if peer == null then {} else {peer})`allowedIps
      ensures Valid() && fresh(forest.recs.Keys - old(forest.recs.Keys)) && sequence == Next64(old(sequence))
      ensures err == if cidr > bits || peer == null then -EINVAL
                     else InsertError(old(Table()), NetAt(BeBits(ip), cidr), alloc1, alloc2)
      ensures err == 0 ==> Table() == old(Table())[NetAt(BeBits(ip), cidr) := peer] && lists.Keys == old(lists.Keys) + {peer}
      ensures err != 0 ==> forest == old(forest) && lists == old(lists) && (peer != null ==> peer.allowedIps == old(peer.allowedIps))
    {
      hide Sound, Contents, SwapEndian, KeyBits, BeBits;
      sequence := (sequence + 1) % 0x1_0000_0000_0000_0000;
      var key := SwapEndian(ip, bits);
      KeyBitsOfSwapped(ip, bits);
      err := Add(bits, key, cidr, peer, alloc1, alloc2);
    }

    /** wg_allowedips_remove_v4 and _v6 */
    method RemoveNet(bits: nat, ip: seq<byte>, cidr: nat, peer: Peer?) returns (err: int)
      requires Valid() && IsKey(ip, bits)
      modifies this, forest.recs.Keys, lists.Keys`allowedIps
      ensures Valid() && lists.Keys == old(lists.Keys) && forest.recs.Keys <= old(forest.recs.Keys)
      ensures sequence == Next64(old(sequence)) && err == if cidr > bits then -EINVAL else 0
      ensures Table() == Dropped(old(Table()), bits, BeBits(ip), cidr, peer)
    {
      hide Sound, Contents, SwapEndian, KeyBits, BeBits;
      sequence := (sequence + 1) % 0x1_0000_0000_0000_0000;
      var key := SwapEndian(ip, bits);
      KeyBitsOfSwapped(ip, bits);
      err := Remove(bits, key, cidr, peer);
    }

    /** wg_allowedips_remove_by_peer */
    method RemoveByPeer(peer: Peer)
      requires Valid() && Known(peer)
      modifies this, forest.recs.Keys, lists.Keys`allowedIps
      ensures Valid() && lists.Keys == old(lists.Keys) && forest.recs.Keys <= old(forest.recs.Keys)
      ensures peer.allowedIps == [] && Table() == WithoutPeer(old(Table()), peer)
      ensures sequence == if old(peer.allowedIps) == [] then old(sequence) else Next64(old(sequence))
    {
      if peer.allowedIps == [] {
        ShrunkRefl(Table(), peer);
        NoneLeft(forest, lists, Table(), peer);
        return;
      }
      sequence := (sequence + 1) % 0x1_0000_0000_0000_0000;
      RemoveAll(peer);
    }

    /** One operation of the table's interface. */
    method Step(op: Op) returns (err: int)
      requires Valid() && OpOk(op) && (op.Peer() != null ==> Known(op.Peer()))
      modifies this, forest.recs.Keys, lists.Keys`allowedIps, (if op.Peer() == null then {} else {op.Peer()})`allowedIps
      ensures Valid() && fresh(forest.recs.Keys - old(forest.recs.Keys))
      ensures old(lists.Keys) <= lists.Keys <= old(lists.Keys) + (if op.Peer() == null then {} else {op.Peer()})
      ensures op.Peer() != null ==> Known(op.Peer())
      ensures err == ErrorOf(old(Table()), op) && Table() == Effect(old(Table()), op, err)
    {
      hide Valid, BeBits, Dropped, WithoutPeer, InsertError;
      match op {
        case Insert(bits, ip, cidr, peer, alloc1, alloc2) =>
          err := Insert(bits, ip, cidr, peer, alloc1, alloc2);
        case Remove(bits, ip, cidr, peer) =>
          err := RemoveNet(bits, ip, cidr, peer);
        case RemovePeer(peer) =>
          RemoveByPeer(peer);
          err := 0;
        case Free =>
          var freed4, freed6 := Free();
          err := 0;
      }
    }

    /** Any sequence of operations: the table is what replaying their effects on a map gives, and their errors are
        those the map gives. */
    method Run(ops: seq<Op>, ghost peers: set<Peer>) returns (errs: seq<int>)
      requires Valid() && forall p :: p in peers ==> Known(p)
      requires forall i :: 0 <= i < |ops| ==> OpOk(ops[i]) && (ops[i].Peer() != null ==> ops[i].Peer() in peers)
      modifies this, forest.recs.Keys, lists.Keys`allowedIps, peers`allowedIps
      ensures Valid() && fresh(forest.recs.Keys - old(forest.recs.Keys))
      ensures lists.Keys <= old(lists.Keys) + peers && forall p :: p in peers ==> Known(p)
      ensures |errs| == |ops| && Table() == Replay(old(Table()), ops, errs) && ErrorsOf(old(Table()), ops, errs)
    {
      hide Valid, Effect, Table, ErrorOf;
      errs := [];
      if ops != [] {
        errs := Run(ops[..|ops| - 1], peers);
        var err := Step(ops[|ops| - 1]);
        assert (errs + [err])[..|ops| - 1] == errs;
        errs := errs + [err];
      }
    }
  }
}
