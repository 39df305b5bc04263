/** peerlookup.c: the table from 32-bit indices to handshakes and keypairs.
    Every region under the table's lock is one method, and so is what an
    inserter does outside of it; inserters interleave between those. */
module IndexTable {
  import opened Words
  import opened Wrappers

  /** The entry of a peer's handshake or of a keypair */
  datatype Entry = Handshake(peer: nat) | Keypair(id: nat)

  datatype Mask = Mask(handshake: bool, keypair: bool) {
    predicate Allows(e: Entry) {
      match e
      case Handshake(_) => handshake
      case Keypair(_) => keypair
    }
  }

  const BUCKETS: nat := 8192

  function BucketOf(i: u32): nat {
    i as nat % BUCKETS
  }

  /** index_bucket masks with the size of the table less one. */
  lemma {:induction false} BucketIs(i: u32)
    ensures BucketOf(i) == And(i as nat, BUCKETS - 1)
  {
    assert Pow2(13) == BUCKETS by {
      SmallPowers();
      assert Pow2(13) == 2 * Pow2(12);
    }
    hide Pow2, And;
    AndOnes(i as nat, 13);
  }

  function Without(s: seq<Entry>, e: Entry): (r: seq<Entry>)
    ensures forall x :: x in r <==> x in s && x != e
  {
    if s == [] then [] else (if s[0] == e then [] else [s[0]]) + Without(s[1..], e)
  }

  function Replaced(s: seq<Entry>, old_: Entry, new_: Entry): (r: seq<Entry>)
    ensures |r| == |s|
    ensures forall k :: 0 <= k < |s| ==> r[k] == if s[k] == old_ then new_ else s[k]
  {
    if s == [] then [] else [if s[0] == old_ then new_ else s[0]] + Replaced(s[1..], old_, new_)
  }

  class IndexHashtable {
    /** the lists */
    const buckets: array<seq<Entry>>
    /** entry->index of every entry, hashed or not */
    var index: map<Entry, u32>
    /** the entries whose list node is linked */
    var hashed: set<Entry>

    ghost predicate InBucket(e: Entry, b: nat)
      requires b < buckets.Length
      reads buckets
    {
      e in buckets[b]
    }

    /** Every hashed entry is in the bucket of its index and in no other, and no two have the same index. */
    ghost predicate Valid()
      reads this, buckets
    {
      && buckets.Length == BUCKETS
      && (forall e :: e in hashed ==> e in index)
      && (forall e, b :: 0 <= b < BUCKETS ==> (InBucket(e, b) <==> e in hashed && BucketOf(index[e]) == b))
      && (forall e, f :: e in hashed && f in hashed && index[e] == index[f] ==> e == f)
    }

    lemma Indexed(e: Entry)
      requires Valid()
      ensures e in hashed ==> e in index
    {
    }

    /** A hashed entry has index i. */
    ghost predicate InUse(i: u32)
      reads this
    {
      exists e :: e in hashed && e in index && index[e] == i
    }

    /** wg_index_hashtable_alloc */
    constructor ()
      ensures Valid() && hashed == {} && index == map[] && fresh(buckets)
    {
      buckets := new seq<Entry>[BUCKETS](_ => []);
      index, hashed := map[], {};
    }

    /** hlist_del_init_rcu, under the lock */
    method Remove(e: Entry)
      requires Valid()
      modifies this`hashed, buckets
      ensures Valid() && hashed == old(hashed) - {e}
    {
      if e in hashed {
        var b := BucketOf(index[e]);
        hashed := hashed - {e};
        buckets[b] := Without(buckets[b], e);
        forall x, c | 0 <= c < BUCKETS
          ensures InBucket(x, c) <==> x in hashed && BucketOf(index[x]) == c
        {
          assert old(InBucket(x, c)) <==> x in old(hashed) && BucketOf(index[x]) == c;
        }
      }
    }

    /** entry->index = get_random_u32(), by an inserter whose entry is not hashed */
    method Pick(e: Entry, random: u32)
      requires Valid() && e !in hashed
      modifies this`index
      ensures Valid() && index == old(index)[e := random]
    {
      index := index[e := random];
    }

    /** Both searches of an inserter, the unlocked one and the one repeated under the lock */
    method Search(i: u32) returns (found: bool)
      requires Valid()
      ensures found <==> InUse(i)
    {
      var bucket := buckets[BucketOf(i)];
      assert forall j :: 0 <= j < |bucket| ==> InBucket(bucket[j], BucketOf(i));
      found := false;
      for k := 0 to |bucket|
        invariant forall j :: 0 <= j < |bucket| ==> bucket[j] in hashed
        invariant !found && forall j :: 0 <= j < k ==> index[bucket[j]] != i
      {
        if index[bucket[k]] == i {
          return true;
        }
      }
      assert forall e :: e in hashed && index[e] == i ==> InBucket(e, BucketOf(i));
    }

    /** The locked part of wg_index_hashtable_insert: look again, and insert */
    method TryInsert(e: Entry) returns (ok: bool)
      requires Valid() && e in index && e !in hashed
      modifies this`hashed, buckets
      ensures Valid() && (ok <==> !old(InUse(index[e])))
      ensures hashed == if ok then old(hashed) + {e} else old(hashed)
    {
      var stolen := Search(index[e]);
      ok := !stolen;
      if ok {
        var b := BucketOf(index[e]);
        hashed := hashed + {e};
        buckets[b] := [e] + buckets[b];
        forall x, c | 0 <= c < BUCKETS
          ensures InBucket(x, c) <==> x in hashed && BucketOf(index[x]) == c
        {
          assert old(InBucket(x, c)) <==> x in old(hashed) && BucketOf(index[x]) == c;
        }
      }
    }

    /** wg_index_hashtable_replace */
    method Replace(old_: Entry, new_: Entry) returns (ret: bool)
      requires Valid() && new_ !in hashed
      modifies this, buckets
      ensures Valid() && (ret <==> old_ in old(hashed))
      ensures ret ==> hashed == old(hashed) - {old_} + {new_} && index == old(index)[new_ := old(index)[old_]]
      ensures !ret ==> hashed == old(hashed) && index == old(index)
    {
      ret := old_ in hashed;
      if ret {
        var b := BucketOf(index[old_]);
        index := index[new_ := index[old_]];
        hashed := hashed - {old_} + {new_};
        buckets[b] := Replaced(buckets[b], old_, new_);
        ReplacedMembers(old(buckets[b]), old_, new_);
        forall x, c | 0 <= c < BUCKETS
          ensures InBucket(x, c) <==> x in hashed && BucketOf(index[x]) == c
        {
          assert old(InBucket(x, c)) <==> x in old(hashed) && BucketOf(old(index)[x]) == c;
          assert old(InBucket(old_, b));
        }
      }
    }

    /** wg_index_hashtable_lookup; refs counts the references to an entry's peer, and one with none left
        cannot be had. */
    method Lookup(mask: Mask, i: u32, refs: Entry -> nat) returns (r: Option<Entry>)
      requires Valid()
      ensures forall e :: r == Some(e) <==> e in hashed && index[e] == i && mask.Allows(e) && refs(e) > 0
    {
      var bucket := buckets[BucketOf(i)];
      assert forall j :: 0 <= j < |bucket| ==> InBucket(bucket[j], BucketOf(i));
      for k := 0 to |bucket|
        invariant forall j :: 0 <= j < |bucket| ==> bucket[j] in hashed
        invariant forall j :: 0 <= j < k ==> index[bucket[j]] != i
      {
        if index[bucket[k]] == i {
          var allowed := if bucket[k].Handshake? then mask.handshake else mask.keypair;
          return if allowed && refs(bucket[k]) > 0 then Some(bucket[k]) else None;
        }
      }
      assert forall e :: e in hashed && index[e] == i ==> InBucket(e, BucketOf(i));
      return None;
    }

    /** The same index before and after: only that of e may differ. */
    twostate predicate OnlyIndexOf(e: Entry)
      reads this
    {
      forall f :: f != e ==> (f in index <==> f in old(index)) && (f in index ==> index[f] == old(index)[f])
    }

    /** wg_index_hashtable_insert with the table to itself, for a sequence of random numbers that has an unused one */
    method Insert(e: Entry, randoms: seq<u32>) returns (i: u32)
      requires Valid() && exists k :: 0 <= k < |randoms| && forall f :: f in hashed && f != e ==> index[f] != randoms[k]
      modifies this, buckets
      ensures Valid() && hashed == old(hashed) + {e} && OnlyIndexOf(e) && index[e] == i && i in randoms
    {
      ghost var k :| 0 <= k < |randoms| && forall f :: f in hashed && f != e ==> index[f] != randoms[k];
      Remove(e);
      var tries := 0;
      var ok := false;
      while !ok
        invariant Valid() && tries <= |randoms| && (!ok ==> tries <= k) && OnlyIndexOf(e)
        invariant hashed == if ok then old(hashed) + {e} else old(hashed) - {e}
        invariant ok ==> index[e] in randoms
        decreases if ok then 0 else 1 + |randoms| - tries
      {
        Pick(e, randoms[tries]);
        var used := Search(randoms[tries]);
        if !used {
          ok := TryInsert(e);
        }
        tries := tries + 1;
      }
      i := index[e];
    }
  }

  lemma {:induction false} ReplacedMembers(s: seq<Entry>, old_: Entry, new_: Entry)
    ensures forall x :: x in Replaced(s, old_, new_) <==> (x in s && x != old_) || (x == new_ && old_ in s)
  {
    var r := Replaced(s, old_, new_);
    forall x | x in s && x != old_
      ensures x in r
    {
      var k :| 0 <= k < |s| && s[k] == x;
      assert r[k] == x;
    }
    if old_ in s {
      var k :| 0 <= k < |s| && s[k] == old_;
      assert r[k] == new_;
    }
  }

  // ---- many inserters at once ----

  /** Where an inserter is: about to draw a number, to search without the lock, or to take the lock */
  datatype Phase = Drawing | Looking | Locking

  /** One step of the inserter of an entry, or of whoever replaces or removes an entry */
  datatype Step =
    | Start(e: Entry)
    | Draw(e: Entry, random: u32)
    | Look(e: Entry)
    | Lock(e: Entry)
    | Swap(old_: Entry, new_: Entry)
    | Drop(e: Entry)

  /** An entry that is being inserted is not hashed. */
  ghost predicate Apart(phases: map<Entry, Phase>, table: IndexHashtable)
    reads table
  {
    forall e :: e in phases ==> e !in table.hashed && (!phases[e].Drawing? ==> e in table.index)
  }

  /** One step; at most one inserter works on an entry, and nobody else changes that entry meanwhile. */
  method Advance(table: IndexHashtable, phases: map<Entry, Phase>, step: Step) returns (next: map<Entry, Phase>)
    requires table.Valid() && Apart(phases, table)
    modifies table, table.buckets
    ensures table.Valid() && Apart(next, table)
    ensures forall e :: e in phases && e !in next ==>
      step == Lock(e) && e in table.hashed && e in old(table.index) && table.index[e] == old(table.index)[e]
    ensures forall e :: e in table.hashed && e !in old(table.hashed) ==> step == Lock(e) || (step.Swap? && step.new_ == e)
    ensures forall e :: e in old(table.hashed) && e in table.hashed ==> table.index[e] == old(table.index)[e]
  {
    hide IndexHashtable.Valid;
    next := phases;
    match step
    case Start(e) =>
      if e !in phases {
        table.Remove(e);
        next := phases[e := Drawing];
      }
    case Draw(e, random) =>
      if e in phases && phases[e].Drawing? {
        table.Pick(e, random);
        next := phases[e := Looking];
      }
    case Look(e) =>
      if e in phases && phases[e].Looking? {
        var used := table.Search(table.index[e]);
        next := phases[e := if used then Drawing else Locking];
      }
    case Lock(e) =>
      if e in phases && phases[e].Locking? {
        var ok := table.TryInsert(e);
        next := if ok then phases - {e} else phases[e := Drawing];
      }
    case Swap(old_, new_) =>
      if new_ !in phases && new_ !in table.hashed {
        var ret := table.Replace(old_, new_);
      }
    case Drop(e) =>
      table.Remove(e);
  }

  /** However the steps of any number of inserters interleave, hashed entries
      have distinct indices and are in the right bucket. */
  method Interleave(table: IndexHashtable, steps: seq<Step>) returns (phases: map<Entry, Phase>)
    requires table.Valid()
    modifies table, table.buckets
    ensures table.Valid() && Apart(phases, table)
    ensures forall e, f :: e in table.hashed && f in table.hashed && e != f ==> table.index[e] != table.index[f]
  {
    phases := map[];
    for i := 0 to |steps|
      invariant table.Valid() && Apart(phases, table)
    {
      phases := Advance(table, phases, steps[i]);
    }
  }
}
