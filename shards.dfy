/**
  The shard array as a value: a sequence of maps, one per shard. The
  placement invariant says where each entry may live; Flatten is the single
  map a ShardMap stands for, and TotalSize the sum of the shard sizes.
 */
module Shards {
  import opened Results
  import opened Keys
  import opened Routing

  /** Placement: every entry sits in the shard its key routes to. */
  ghost predicate Placed<V>(ss: seq<map<Key, V>>) {
    forall i, k | 0 <= i < |ss| && k in ss[i] :: Route(k) == Ok(i)
  }

  /** All entries of all shards, as one map. */
  ghost function Flatten<V>(ss: seq<map<Key, V>>): map<Key, V> {
    if ss == [] then map[] else Flatten(ss[..|ss| - 1]) + ss[|ss| - 1]
  }

  /** The sum of the shard sizes. */
  ghost function TotalSize<V>(ss: seq<map<Key, V>>): nat {
    if ss == [] then 0 else TotalSize(ss[..|ss| - 1]) + |ss[|ss| - 1]|
  }

  /**
    Under placement, a key is in the map exactly when it is in the shard it
    routes to, with the value that shard holds; no other shard is consulted.
   */
  lemma {:induction false} FlattenLookup<V>(ss: seq<map<Key, V>>, k: Key)
    requires Placed(ss)
    ensures k in Flatten(ss) <==> Route(k).Ok? && Route(k).value < |ss| && k in ss[Route(k).value]
    ensures k in Flatten(ss) ==> Flatten(ss)[k] == ss[Route(k).value][k]
    decreases |ss|
  {
    if ss != [] {
      var n := |ss| - 1;
      var p := ss[..n];
      PlacedPrefix(ss, n);
      FlattenLookup(p, k);
      assert Flatten(ss) == Flatten(p) + ss[n];
      if k in ss[n] {
        assert Route(k) == Ok(n);
      } else if Route(k).Ok? && Route(k).value < n {
        assert p[Route(k).value] == ss[Route(k).value];
      }
    }
  }

  /** A prefix of a placed shard sequence is placed. */
  lemma PlacedPrefix<V>(ss: seq<map<Key, V>>, n: nat)
    requires Placed(ss) && n <= |ss|
    ensures Placed(ss[..n])
  {
    forall j, x | 0 <= j < n && x in ss[..n][j] ensures Route(x) == Ok(j) {
      assert ss[..n][j] == ss[j];
    }
  }

  /**
    One step of a walk over the shards: the entries of the first i + 1 shards
    are those of the first i together with shard i, which shares no key with
    them.
   */
  lemma PrefixStep<V>(ss: seq<map<Key, V>>, i: nat)
    requires Placed(ss) && i < |ss|
    ensures Flatten(ss[..i + 1]) == Flatten(ss[..i]) + ss[i]
    ensures Flatten(ss[..i]).Keys !! ss[i].Keys
  {
    var p := ss[..i];
    assert ss[..i + 1][..i] == p;
    PlacedPrefix(ss, i);
    forall k | k in Flatten(p) ensures k !in ss[i] {
      FlattenLookup(p, k);
    }
  }

  /** Under placement the shards hold disjoint keys, so the map's size is the sum of theirs. */
  lemma {:induction false} FlattenSize<V>(ss: seq<map<Key, V>>)
    requires Placed(ss)
    ensures |Flatten(ss)| == TotalSize(ss)
    decreases |ss|
  {
    if ss != [] {
      var n := |ss| - 1;
      var p := ss[..n];
      PlacedPrefix(ss, n);
      PrefixStep(ss, n);
      FlattenSize(p);
      assert ss[..n + 1] == ss;
      var f := Flatten(p);
      assert (f + ss[n]).Keys == f.Keys + ss[n].Keys;
      assert |f.Keys + ss[n].Keys| == |f.Keys| + |ss[n].Keys|;
    }
  }

  /** Storing into the shard the key routes to stores into the whole map. */
  lemma FlattenStore<V>(ss: seq<map<Key, V>>, k: Key, v: V)
    requires Placed(ss) && Route(k).Ok? && Route(k).value < |ss|
    ensures Placed(ss[Route(k).value := ss[Route(k).value][k := v]])
    ensures Flatten(ss[Route(k).value := ss[Route(k).value][k := v]]) == Flatten(ss)[k := v]
  {
    var i := Route(k).value;
    var ts := ss[i := ss[i][k := v]];
    assert Placed(ts) by {
      forall j, x | 0 <= j < |ts| && x in ts[j] ensures Route(x) == Ok(j) {
        if j != i {
          assert ts[j] == ss[j];
        }
      }
    }
    var want := Flatten(ss)[k := v];
    forall x
      ensures x in Flatten(ts) <==> x in want
      ensures x in want ==> Flatten(ts)[x] == want[x]
    {
      FlattenLookup(ss, x);
      FlattenLookup(ts, x);
    }
  }

  /** Deleting from the shard the key routes to deletes from the whole map. */
  lemma FlattenDelete<V>(ss: seq<map<Key, V>>, k: Key)
    requires Placed(ss) && Route(k).Ok? && Route(k).value < |ss|
    ensures Placed(ss[Route(k).value := ss[Route(k).value] - {k}])
    ensures Flatten(ss[Route(k).value := ss[Route(k).value] - {k}]) == Flatten(ss) - {k}
  {
    var i := Route(k).value;
    var ts := ss[i := ss[i] - {k}];
    assert Placed(ts) by {
      forall j, x | 0 <= j < |ts| && x in ts[j] ensures Route(x) == Ok(j) {
        assert x in ss[j];
      }
    }
    var want := Flatten(ss) - {k};
    forall x
      ensures x in Flatten(ts) <==> x in want
      ensures x in want ==> Flatten(ts)[x] == want[x]
    {
      FlattenLookup(ss, x);
      FlattenLookup(ts, x);
    }
  }

  /** Removing entries from a shard keeps placement. */
  lemma PlacedShrink<V>(ss: seq<map<Key, V>>, i: nat, m: map<Key, V>)
    requires Placed(ss) && i < |ss| && m.Keys <= ss[i].Keys
    ensures Placed(ss[i := m])
  {
    forall j, x | 0 <= j < |ss| && x in ss[i := m][j] ensures Route(x) == Ok(j) {
      assert x in ss[j];
    }
  }

  /** Shards that are all empty stand for the empty map. */
  lemma FlattenEmpty<V>(ss: seq<map<Key, V>>)
    requires forall i | 0 <= i < |ss| :: ss[i] == map[]
    ensures Placed(ss) && Flatten(ss) == map[]
  {
    forall k ensures k !in Flatten(ss) {
      FlattenLookup(ss, k);
    }
  }
}
