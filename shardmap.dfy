/**
  ShardMap: a fixed array of ShardCount shards, each a map from typed keys to
  values. Single-key operations route to one shard; Len, Range and Clear walk
  all shards. The Go code runs the per-shard work of Len, Range and Clear in
  one goroutine per shard and waits for all of them; here the shards are
  walked in index order, which gives the same result when nothing else
  mutates the map meanwhile.
 */
module ShardMaps {
  import opened Results
  import opened Keys
  import opened Routing
  import opened Shards

  /** The keys of a sequence of visited pairs. */
  ghost function KeysOf<V>(visits: seq<(Key, V)>): set<Key> {
    set j | 0 <= j < |visits| :: visits[j].0
  }

  /** No key is visited twice. */
  ghost predicate Distinct<V>(visits: seq<(Key, V)>) {
    forall j, j' | 0 <= j < j' < |visits| :: visits[j].0 != visits[j'].0
  }

  /** A visit sequence without repeated keys visits as many keys as it has pairs. */
  lemma {:induction false} DistinctCount<V>(visits: seq<(Key, V)>)
    requires Distinct(visits)
    ensures |KeysOf(visits)| == |visits|
    decreases |visits|
  {
    if visits != [] {
      var n := |visits| - 1;
      var p := visits[..n];
      assert Distinct(p);
      DistinctCount(p);
      assert KeysOf(visits) == KeysOf(p) + {visits[n].0};
      assert visits[n].0 !in KeysOf(p);
    }
  }

  lemma KeysOfAppend<V>(visits: seq<(Key, V)>, pair: (Key, V))
    ensures KeysOf(visits + [pair]) == KeysOf(visits) + {pair.0}
  {
    var w := visits + [pair];
    forall x | x in KeysOf(w) ensures x in KeysOf(visits) + {pair.0} {
      var j :| 0 <= j < |w| && w[j].0 == x;
      if j < |visits| {
        assert visits[j].0 == x;
      }
    }
    forall x | x in KeysOf(visits) ensures x in KeysOf(w) {
      var j :| 0 <= j < |visits| && visits[j].0 == x;
      assert w[j].0 == x;
    }
    assert w[|visits|].0 == pair.0;
  }

  /** Every visited pair carries the value `m` binds its key to. */
  ghost predicate Agrees<V>(visits: seq<(Key, V)>, m: map<Key, V>) {
    forall j | 0 <= j < |visits| :: visits[j].0 in m && m[visits[j].0] == visits[j].1
  }

  /** One step of taking a snapshot of shard `m`: visiting a key not visited yet. */
  lemma SnapshotStep<V>(visits: seq<(Key, V)>, m: map<Key, V>, pending: set<Key>, k: Key)
    requires pending <= m.Keys && k in pending
    requires Distinct(visits) && KeysOf(visits) == m.Keys - pending && Agrees(visits, m)
    ensures Distinct(visits + [(k, m[k])])
    ensures KeysOf(visits + [(k, m[k])]) == m.Keys - (pending - {k})
    ensures Agrees(visits + [(k, m[k])], m)
  {
    KeysOfAppend(visits, (k, m[k]));
  }

  /** Two visit sequences over disjoint keys concatenate into one. */
  lemma DistinctConcat<V>(a: seq<(Key, V)>, b: seq<(Key, V)>)
    requires Distinct(a) && Distinct(b) && KeysOf(a) !! KeysOf(b)
    ensures Distinct(a + b)
    ensures KeysOf(a + b) == KeysOf(a) + KeysOf(b)
  {
    var w := a + b;
    forall j, j' | 0 <= j < j' < |w| ensures w[j].0 != w[j'].0 {
      if j < |a| && j' >= |a| {
        assert w[j].0 in KeysOf(a) && w[j'].0 == b[j' - |a|].0;
      } else if j >= |a| {
        assert w[j].0 == b[j - |a|].0 && w[j'].0 == b[j' - |a|].0;
      }
    }
    forall x | x in KeysOf(w) ensures x in KeysOf(a) + KeysOf(b) {
      var j :| 0 <= j < |w| && w[j].0 == x;
      if j >= |a| {
        assert b[j - |a|].0 == x;
      }
    }
    forall x | x in KeysOf(a) + KeysOf(b) ensures x in KeysOf(w) {
      if x in KeysOf(a) {
        var j :| 0 <= j < |a| && a[j].0 == x;
        assert w[j].0 == x;
      } else {
        var j :| 0 <= j < |b| && b[j].0 == x;
        assert w[|a| + j].0 == x;
      }
    }
  }

  /** `m` without the keys of `done` that satisfy `p`. */
  ghost function Without<V>(m: map<Key, V>, p: Key -> bool, done: set<Key>): map<Key, V> {
    map k | k in m && !(k in done && p(k)) :: m[k]
  }

  /** Visiting a key that satisfies `p` and deleting it. */
  lemma WithoutDelete<V>(m: map<Key, V>, p: Key -> bool, done: set<Key>, k: Key)
    requires p(k)
    ensures Without(m, p, done) - {k} == Without(m, p, done + {k})
  {
  }

  /** Visiting a key that does not satisfy `p` and keeping it. */
  lemma WithoutKeep<V>(m: map<Key, V>, p: Key -> bool, done: set<Key>, k: Key)
    requires !p(k)
    ensures Without(m, p, done) == Without(m, p, done + {k})
  {
  }

  /** Visiting one set of keys and then another is visiting their union. */
  lemma WithoutUnion<V>(m: map<Key, V>, p: Key -> bool, a: set<Key>, b: set<Key>)
    ensures Without(Without(m, p, a), p, b) == Without(m, p, a + b)
  {
  }

  /** Once every key has been visited, exactly the keys satisfying `p` are gone. */
  lemma WithoutAll<V>(m: map<Key, V>, p: Key -> bool)
    ensures Without(m, p, m.Keys) == map k | k in m && !p(k) :: m[k]
  {
  }

  class ShardMap<V> {
    /** The shards; shard i holds exactly the entries whose keys route to i. */
    const shards: array<map<Key, V>>

    ghost predicate Valid()
      reads this, shards
    {
      shards.Length == ShardCount && Placed(shards[..])
    }

    /** The one map the shards stand for. */
    ghost function Contents(): map<Key, V>
      reads this, shards
    {
      Flatten(shards[..])
    }

    /** New: exactly ShardCount shards, all empty. */
    constructor ()
      ensures Valid() && fresh(shards)
      ensures forall i | 0 <= i < ShardCount :: shards[i] == map[]
      ensures Contents() == map[]
    {
      var a := new map<Key, V>[ShardCount];
      var i := 0;
      while i < ShardCount
        invariant 0 <= i <= ShardCount
        invariant forall j | 0 <= j < i :: a[j] == map[]
      {
        a[i] := map[];
        i := i + 1;
      }
      shards := a;
      new;
      FlattenEmpty(shards[..]);
    }

    /** Load: the value stored under `k`, if any; panics on an unsupported key type. */
    method Load(k: Key) returns (r: Result<Option<V>>)
      requires Valid()
      ensures k.Unsupported? ==> r == Panic(UnsupportedKeyType)
      ensures !k.Unsupported? && k in Contents() ==> r == Ok(Some(Contents()[k]))
      ensures !k.Unsupported? && k !in Contents() ==> r == Ok(None)
    {
      var index := GetShard(k);
      match index
      case Panic(e) =>
        r := Panic(e);
      case Ok(i) =>
        FlattenLookup(shards[..], k);
        var shard := shards[i];
        r := Ok(if k in shard then Some(shard[k]) else None);
    }

    /**
      Store: binds `k` to `v`, overwriting any earlier binding of `k`; every
      other key keeps its binding, and only the shard of `k` changes.
     */
    method Store(k: Key, v: V) returns (r: Result<()>)
      requires Valid()
      modifies shards
      ensures Valid()
      ensures r.Panic? <==> k.Unsupported?
      ensures Contents() == if r.Ok? then old(Contents())[k := v] else old(Contents())
      ensures forall i | 0 <= i < ShardCount && Route(k) != Ok(i) :: shards[i] == old(shards[i])
    {
      var index := GetShard(k);
      match index
      case Panic(e) =>
        r := Panic(e);
      case Ok(i) =>
        FlattenStore(shards[..], k, v);
        shards[i] := shards[i][k := v];
        assert shards[..] == old(shards[..])[i := old(shards[i])[k := v]];
        r := Ok(());
    }

    /**
      Delete: removes any binding of `k` (deleting an absent key changes
      nothing); every other key keeps its binding.
     */
    method Delete(k: Key) returns (r: Result<()>)
      requires Valid()
      modifies shards
      ensures Valid()
      ensures r.Panic? <==> k.Unsupported?
      ensures Contents() == if r.Ok? then old(Contents()) - {k} else old(Contents())
      ensures forall i | 0 <= i < ShardCount && Route(k) != Ok(i) :: shards[i] == old(shards[i])
    {
      var index := GetShard(k);
      match index
      case Panic(e) =>
        r := Panic(e);
      case Ok(i) =>
        FlattenDelete(shards[..], k);
        shards[i] := shards[i] - {k};
        assert shards[..] == old(shards[..])[i := old(shards[i]) - {k}];
        r := Ok(());
    }

    /**
      Len: the number of entries, counted one by one into a uint32 that wraps
      around at 2^32.
     */
    method Len() returns (n: uint32)
      requires Valid()
      ensures n as int == |Contents()| % 0x1_0000_0000
    {
      var count: uint32 := 0;
      var i := 0;
      while i < ShardCount
        invariant 0 <= i <= ShardCount
        invariant count as int == TotalSize(shards[..i]) % 0x1_0000_0000
      {
        var pending := shards[i].Keys;
        while pending != {}
          invariant pending <= shards[i].Keys
          invariant count as int == (TotalSize(shards[..i]) + |shards[i]| - |pending|) % 0x1_0000_0000
          decreases |pending|
        {
          var k :| k in pending;
          pending := pending - {k};
          count := ((count as int + 1) % 0x1_0000_0000) as uint32;
        }
        assert shards[..i + 1][..i] == shards[..i];
        i := i + 1;
      }
      assert shards[..i] == shards[..];
      FlattenSize(shards[..]);
      n := count;
    }

    /**
      The per-shard step of Range and Clear: the shard's (key, value) pairs,
      taken while nothing changes the shard, each key once.
     */
    method Snapshot(i: nat) returns (pairs: seq<(Key, V)>)
      requires i < shards.Length
      ensures Distinct(pairs)
      ensures KeysOf(pairs) == shards[i].Keys
      ensures Agrees(pairs, shards[i])
    {
      var shard := shards[i];
      var pending := shard.Keys;
      pairs := [];
      while pending != {}
        invariant pending <= shard.Keys
        invariant Distinct(pairs)
        invariant KeysOf(pairs) == shard.Keys - pending
        invariant Agrees(pairs, shard)
        decreases |pending|
      {
        var k :| k in pending;
        SnapshotStep(pairs, shard, pending, k);
        pairs := pairs + [(k, shard[k])];
        pending := pending - {k};
      }
    }

    /**
      Range: the (key, value) pairs handed to the visitor, in visiting order.
      Each shard is visited from a snapshot of its pairs; every entry of the
      map is visited exactly once, with its value.
     */
    method Range() returns (visits: seq<(Key, V)>)
      requires Valid()
      ensures Distinct(visits)
      ensures KeysOf(visits) == Contents().Keys
      ensures forall j | 0 <= j < |visits| :: Contents()[visits[j].0] == visits[j].1
      ensures |visits| == |Contents()|
    {
      visits := [];
      var i := 0;
      while i < ShardCount
        invariant 0 <= i <= ShardCount
        invariant Distinct(visits)
        invariant KeysOf(visits) == Flatten(shards[..i]).Keys
        invariant forall j | 0 <= j < |visits| :: Flatten(shards[..i])[visits[j].0] == visits[j].1
      {
        PrefixStep(shards[..], i);
        var pairs := Snapshot(i);
        DistinctConcat(visits, pairs);
        ghost var f := Flatten(shards[..i + 1]);
        forall j | 0 <= j < |visits + pairs| ensures f[(visits + pairs)[j].0] == (visits + pairs)[j].1 {
          if j >= |visits| {
            assert (visits + pairs)[j] == pairs[j - |visits|];
          }
        }
        visits := visits + pairs;
        i := i + 1;
      }
      assert shards[..i] == shards[..];
      DistinctCount(visits);
    }

    /**
      The visitor of the repository's Range test, generalised, applied to one
      shard's snapshot: each visited key that satisfies `p` is deleted through
      the map.
     */
    method DeleteVisited(pairs: seq<(Key, V)>, p: Key -> bool, ghost i: nat)
      requires Valid() && i < ShardCount
      requires forall j | 0 <= j < |pairs| :: Route(pairs[j].0) == Ok(i)
      modifies shards
      ensures Valid()
      ensures Contents() == Without(old(Contents()), p, KeysOf(pairs))
      ensures forall j | 0 <= j < ShardCount && j != i :: shards[j] == old(shards[j])
    {
      var n := 0;
      while n < |pairs|
        invariant 0 <= n <= |pairs|
        invariant Valid()
        invariant Contents() == Without(old(Contents()), p, KeysOf(pairs[..n]))
        invariant forall j | 0 <= j < ShardCount && j != i :: shards[j] == old(shards[j])
      {
        var k := pairs[n].0;
        if p(k) {
          var _ := Delete(k);
          WithoutDelete(old(Contents()), p, KeysOf(pairs[..n]), k);
        } else {
          WithoutKeep(old(Contents()), p, KeysOf(pairs[..n]), k);
        }
        KeysOfAppend(pairs[..n], pairs[n]);
        assert pairs[..n + 1] == pairs[..n] + [pairs[n]];
        n := n + 1;
      }
      assert pairs[..n] == pairs;
    }

    /**
      Range with the visitor of the repository's Range test, generalised: it
      deletes each visited key that satisfies `p`. The deletions do not
      disturb the walk, since each shard is visited from a snapshot; when the
      walk ends exactly the entries whose keys satisfy `p` are gone.
     */
    method RangeDeleteWhere(p: Key -> bool)
      requires Valid()
      modifies shards
      ensures Valid()
      ensures Contents() == map k | k in old(Contents()) && !p(k) :: old(Contents())[k]
    {
      ghost var orig := shards[..];
      ghost var before := Contents();
      var i := 0;
      while i < ShardCount
        invariant 0 <= i <= ShardCount
        invariant Valid() && Placed(orig) && |orig| == ShardCount
        invariant before == Flatten(orig)
        invariant forall j | i <= j < ShardCount :: shards[j] == orig[j]
        invariant Contents() == Without(before, p, Flatten(orig[..i]).Keys)
      {
        PrefixStep(orig, i);
        var pairs := Snapshot(i);
        DeleteVisited(pairs, p, i);
        WithoutUnion(before, p, Flatten(orig[..i]).Keys, orig[i].Keys);
        i := i + 1;
      }
      assert orig[..i] == orig;
      WithoutAll(before, p);
    }

    /** The per-shard task of Clear: deletes each key of the shard's snapshot. */
    method ClearShard(i: nat)
      requires Valid() && i < ShardCount
      modifies shards
      ensures Valid()
      ensures shards[i] == map[]
      ensures forall j | 0 <= j < ShardCount && j != i :: shards[j] == old(shards[j])
    {
      var pending := shards[i].Keys;
      while pending != {}
        invariant Valid()
        invariant shards[i].Keys <= pending
        invariant forall j | 0 <= j < ShardCount && j != i :: shards[j] == old(shards[j])
        decreases |pending|
      {
        var k :| k in pending;
        PlacedShrink(shards[..], i, shards[i] - {k});
        shards[i] := shards[i] - {k};
        pending := pending - {k};
      }
    }

    /** Clear: deletes every entry, shard by shard; afterwards every shard is empty. */
    method Clear()
      requires Valid()
      modifies shards
      ensures Valid()
      ensures forall i | 0 <= i < ShardCount :: shards[i] == map[]
      ensures Contents() == map[]
    {
      var i := 0;
      while i < ShardCount
        invariant 0 <= i <= ShardCount
        invariant Valid()
        invariant forall j | 0 <= j < i :: shards[j] == map[]
      {
        ClearShard(i);
        i := i + 1;
      }
      FlattenEmpty(shards[..]);
    }
  }
}
