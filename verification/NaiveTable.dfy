/** The trivial prefix table that the self-test checks the trie against: a list
    ordered by falling prefix length, searched from the front. */
module NaiveTable {
  import opened TrieNodes
  import opened Address
  import opened Forest
  import AllowedIps

  datatype Entry = Entry(net: Net, peer: Peer)

  /** horrible_match_v4 and _v6 */
  ghost predicate EntryMatches(e: Entry, key: seq<bool>) {
    |e.net.prefix| <= |key| && e.net == NetAt(key, |e.net.prefix|)
  }

  /** horrible_allowedips_lookup_v4 and _v6 */
  ghost function Lookup(list: seq<Entry>, key: seq<bool>): Peer? {
    if list == [] then null
    else if EntryMatches(list[0], key) then list[0].peer
    else Lookup(list[1..], key)
  }

  /** The first loop of horrible_insert_ordered: the network is in the list already. */
  ghost function Overwrite(list: seq<Entry>, net: Net, peer: Peer): seq<Entry> {
    if list == [] then []
    else if list[0].net == net then [Entry(net, peer)] + list[1..]
    else [list[0]] + Overwrite(list[1..], net, peer)
  }

  /** The second loop: before the first entry whose prefix is not longer. */
  ghost function Place(list: seq<Entry>, e: Entry): seq<Entry> {
    if list == [] then [e]
    else if |list[0].net.prefix| <= |e.net.prefix| then [e] + list
    else [list[0]] + Place(list[1..], e)
  }

  ghost function Insert(list: seq<Entry>, net: Net, peer: Peer): seq<Entry> {
    if net in Table(list) then Overwrite(list, net, peer) else Place(list, Entry(net, peer))
  }

  /** horrible_allowedips_remove_by_value */
  ghost function RemovePeer(list: seq<Entry>, peer: Peer): seq<Entry> {
    if list == [] then []
    else if list[0].peer == peer then RemovePeer(list[1..], peer)
    else [list[0]] + RemovePeer(list[1..], peer)
  }

  ghost function Table(list: seq<Entry>): map<Net, Peer> {
    if list == [] then map[] else Table(list[1..])[list[0].net := list[0].peer]
  }

  ghost predicate Ordered(list: seq<Entry>) {
    list != [] ==>
      && list[0].net !in Table(list[1..]) && Ordered(list[1..])
      && forall net :: net in Table(list[1..]) ==> |net.prefix| <= |list[0].net.prefix|
  }

  /** On an ordered list the first match is the longest one. */
  lemma {:induction false} LookupIsLongest(list: seq<Entry>, key: seq<bool>)
    requires Ordered(list)
    ensures Lookup(list, key) == LongestMatch(Table(list), key, |key|)
  {
    if list == [] {
      LongestMatchSkip(Table(list), key, |key|, 0);
    } else {
      var e, rest := list[0], list[1..];
      LookupIsLongest(rest, key);
      if EntryMatches(e, key) {
        forall j {:trigger NetAt(key, j)} | |e.net.prefix| < j <= |key|
          ensures NetAt(key, j) !in Table(list)
        {
          assert |NetAt(key, j).prefix| == j;
        }
        LongestMatchSkip(Table(list), key, |key|, |e.net.prefix|);
      } else {
        LongestMatchIgnores(Table(rest), e.net, e.peer, key, |key|);
      }
    }
  }

  lemma {:induction false} LongestMatchIgnores(table: map<Net, Peer>, net: Net, peer: Peer, key: seq<bool>, n: nat)
    requires n <= |key| && !EntryMatches(Entry(net, peer), key)
    ensures LongestMatch(table[net := peer], key, n) == LongestMatch(table, key, n)
  {
    assert NetAt(key, n) != net by {
      assert |NetAt(key, n).prefix| == n;
    }
    if n > 0 {
      LongestMatchIgnores(table, net, peer, key, n - 1);
    }
  }

  lemma {:induction false} InsertTable(list: seq<Entry>, net: Net, peer: Peer)
    requires Ordered(list)
    ensures Ordered(Insert(list, net, peer)) && Table(Insert(list, net, peer)) == Table(list)[net := peer]
  {
    if net in Table(list) {
      OverwriteTable(list, net, peer);
    } else {
      PlaceTable(list, Entry(net, peer));
    }
  }

  lemma {:induction false} OverwriteTable(list: seq<Entry>, net: Net, peer: Peer)
    requires Ordered(list) && net in Table(list)
    ensures Ordered(Overwrite(list, net, peer)) && Table(Overwrite(list, net, peer)) == Table(list)[net := peer]
  {
    var o := Overwrite(list, net, peer);
    if list[0].net == net {
      assert o[1..] == list[1..];
    } else {
      OverwriteTable(list[1..], net, peer);
      assert o[1..] == Overwrite(list[1..], net, peer);
    }
  }

  lemma {:induction false} PlaceTable(list: seq<Entry>, e: Entry)
    requires Ordered(list) && e.net !in Table(list)
    ensures Ordered(Place(list, e)) && Table(Place(list, e)) == Table(list)[e.net := e.peer]
  {
    var p := Place(list, e);
    if list != [] {
      if |list[0].net.prefix| <= |e.net.prefix| {
        assert p[1..] == list;
      } else {
        PlaceTable(list[1..], e);
        assert p[1..] == Place(list[1..], e);
      }
    } else {
      assert p[1..] == [];
    }
  }

  lemma {:induction false} RemovePeerTable(list: seq<Entry>, peer: Peer)
    requires Ordered(list)
    ensures Ordered(RemovePeer(list, peer)) && Table(RemovePeer(list, peer)) == WithoutPeer(Table(list), peer)
  {
    if list != [] {
      RemovePeerTable(list[1..], peer);
      var r := RemovePeer(list, peer);
      if list[0].peer != peer {
        assert r[1..] == RemovePeer(list[1..], peer);
      }
    }
  }

  /** The list after the operations that the self-test applies to trie and list alike. */
  ghost function Replay(ops: seq<AllowedIps.Op>, errs: seq<int>): seq<Entry>
    requires |errs| == |ops| && forall i :: 0 <= i < |ops| ==> AllowedIps.OpOk(ops[i])
  {
    if ops == [] then []
    else
      var n := |ops| - 1;
      var list := Replay(ops[..n], errs[..n]);
      assert AllowedIps.OpOk(ops[n]);
      match ops[n]
      case Insert(bits, ip, cidr, peer, _, _) =>
        if errs[n] == 0 && cidr <= bits && peer != null then Insert(list, NetAt(BeBits(ip), cidr), peer) else list
      case RemovePeer(peer) => RemovePeer(list, peer)
      case Free => []
      case Remove(_, _, _, _) => list
  }

  lemma {:induction false} ReplayTable(ops: seq<AllowedIps.Op>, errs: seq<int>)
    requires |errs| == |ops| && forall i :: 0 <= i < |ops| ==> AllowedIps.OpOk(ops[i]) && !ops[i].Remove?
    ensures Ordered(Replay(ops, errs)) && Table(Replay(ops, errs)) == AllowedIps.Replay(map[], ops, errs)
  {
    if ops != [] {
      var n := |ops| - 1;
      ReplayTable(ops[..n], errs[..n]);
      var list := Replay(ops[..n], errs[..n]);
      match ops[n]
      case Insert(bits, ip, cidr, peer, _, _) =>
        if errs[n] == 0 && cidr <= bits && peer != null {
          InsertTable(list, NetAt(BeBits(ip), cidr), peer);
        }
      case RemovePeer(peer) =>
        RemovePeerTable(list, peer);
      case Free =>
    }
  }

  /** The randomized self-test never fails: after any operations on an empty trie and an empty
      list, what the trie answers, the longest match in its table, is what the list answers. */
  lemma {:induction false} AnswersAgree(ops: seq<AllowedIps.Op>, errs: seq<int>, key: seq<bool>)
    requires |errs| == |ops| && forall i :: 0 <= i < |ops| ==> AllowedIps.OpOk(ops[i]) && !ops[i].Remove?
    ensures LongestMatch(AllowedIps.Replay(map[], ops, errs), key, |key|) == Lookup(Replay(ops, errs), key)
  {
    ReplayTable(ops, errs);
    LookupIsLongest(Replay(ops, errs), key);
  }

  /** After the first k operations every peer that was given a network is removed, and nothing else happens. */
  ghost predicate AllRemoved(ops: seq<AllowedIps.Op>, k: nat) {
    && k <= |ops| && (forall i :: k <= i < |ops| ==> ops[i].RemovePeer?)
    && forall i :: 0 <= i < k && ops[i].Insert? && ops[i].peer != null ==> AllowedIps.RemovePeer(ops[i].peer) in ops[k..]
  }

  lemma {:induction false} Inserted(ops: seq<AllowedIps.Op>, errs: seq<int>, net: Net) returns (i: nat)
    requires |errs| == |ops| && forall i :: 0 <= i < |ops| ==> AllowedIps.OpOk(ops[i])
    requires net in AllowedIps.Replay(map[], ops, errs)
    ensures i < |ops| && ops[i].Insert? && ops[i].peer == AllowedIps.Replay(map[], ops, errs)[net]
  {
    var n := |ops| - 1;
    var before := AllowedIps.Replay(map[], ops[..n], errs[..n]);
    if net in before && before[net] == AllowedIps.Replay(map[], ops, errs)[net] {
      i := Inserted(ops[..n], errs[..n], net);
    } else {
      i := n;
    }
  }

  lemma {:induction false} StillOwned(ops: seq<AllowedIps.Op>, errs: seq<int>, k: nat, net: Net)
    requires |errs| == |ops| && forall i :: 0 <= i < |ops| ==> AllowedIps.OpOk(ops[i])
    requires k <= |ops| && (forall i :: k <= i < |ops| ==> ops[i].RemovePeer?) && net in AllowedIps.Replay(map[], ops, errs)
    ensures var owner := AllowedIps.Replay(map[], ops, errs)[net]; var first := AllowedIps.Replay(map[], ops[..k], errs[..k]);
      net in first && first[net] == owner && AllowedIps.RemovePeer(owner) !in ops[k..]
  {
    if k == |ops| {
      assert ops[..k] == ops && errs[..k] == errs;
    } else {
      var n := |ops| - 1;
      StillOwned(ops[..n], errs[..n], k, net);
      assert ops[..n][..k] == ops[..k] && errs[..n][..k] == errs[..k] && ops[k..] == ops[..n][k..] + [ops[n]];
    }
  }

  /** Then nothing is left. */
  lemma {:induction false} Emptied(ops: seq<AllowedIps.Op>, errs: seq<int>, k: nat)
    requires |errs| == |ops| && (forall i :: 0 <= i < |ops| ==> AllowedIps.OpOk(ops[i])) && AllRemoved(ops, k)
    ensures AllowedIps.Replay(map[], ops, errs) == map[]
  {
    if net :| net in AllowedIps.Replay(map[], ops, errs) {
      StillOwned(ops, errs, k, net);
      var i := Inserted(ops[..k], errs[..k], net);
    }
  }
}
