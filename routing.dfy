/**
  getShard: a key is routed to the shard numbered by its hash modulo the
  fixed shard count.
 */
module Routing {
  import opened Decimal
  import opened Results
  import opened Keys
  import opened Fnv

  /** The number of shards of every ShardMap. */
  const ShardCount: nat := 32

  /** `uint(hash) % uint(ShardCount)`: an unsigned remainder. */
  function ShardIndex(h: bv32): (i: nat)
    ensures i < ShardCount
    ensures i == (h & 31) as int
  {
    (h % 32) as int
  }

  /**
    The shard a key lives in: the hash of its canonical string modulo the
    shard count, or the UnsupportedKeyType panic for a key of any other type.
   */
  function Route(k: Key): (r: Result<nat>)
    ensures r.Panic? <==> k.Unsupported?
    ensures r.Ok? ==> r.value < ShardCount
  {
    match Canonical(k)
    case Ok(s) => Ok(ShardIndex(Hash(s)))
    case Panic(e) => Panic(e)
  }

  /** getShard: the index of the shard that holds `k`. */
  method GetShard(k: Key) returns (r: Result<nat>)
    ensures r == Route(k)
  {
    var hash := Fnv1a32(k);
    match hash
    case Panic(e) =>
      r := Panic(e);
    case Ok(h) =>
      r := Ok(ShardIndex(h));
  }

  /**
    Integer keys of any types that have the same value go to the same shard,
    and so does the string key holding their decimal digits, although all of
    them are distinct keys.
   */
  lemma EqualValuesShareShard(a: Key, b: Key)
    requires a.IsSigned() || a.IsUnsigned()
    requires b.IsSigned() || b.IsUnsigned()
    requires a.Value() == b.Value()
    ensures Route(a) == Route(b)
    ensures a.Value() >= 0 ==> Route(a) == Route(Str(FormatUint(a.Value())))
  {
    IntegerKeysCollide(a, b);
    if a.Value() >= 0 {
      assert Canonical(a) == Ok(FormatUint(a.Value()));
    }
  }

  /** The shards of the keys the repository's hash tests use. */
  lemma KnownRoutes()
    ensures Route(Str(TestString)) == Ok(15)
    ensures Route(Int(42)) == Ok(3)
  {
    KnownVectorString();
    KnownVectorInt();
  }
}
