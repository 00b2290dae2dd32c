/**
  The sequential scenarios of the repository's test suite, as clients that
  rely on the contracts of ShardMap alone.
 */
module ShardMapTests {
  import opened Results
  import opened Keys
  import opened Fnv
  import opened Routing
  import opened ShardMaps

  /** The string keys "key1" and "key2", as bytes. */
  const Key1: Key := Str([107, 101, 121, 49])
  const Key2: Key := Str([107, 101, 121, 50])

  /** A new map has ShardCount shards. */
  method TestNew() returns (shardCount: nat)
    ensures shardCount == 32
  {
    var s := new ShardMap<string>();
    shardCount := s.shards.Length;
  }

  /** A stored value loads back; after Delete the key is not found. */
  method TestLoadStoreDelete() returns (loaded: Result<Option<string>>, deleted: Result<Option<string>>)
    ensures loaded == Ok(Some("value1"))
    ensures deleted == Ok(None)
  {
    var s := new ShardMap<string>();
    var _ := s.Store(Key1, "value1");
    loaded := s.Load(Key1);
    var _ := s.Delete(Key1);
    deleted := s.Load(Key1);
  }

  /** A new map holding "key1" -> "value1" and "key2" -> "value2". */
  method NewWithTwoKeys() returns (s: ShardMap<string>)
    ensures fresh(s.shards) && s.Valid()
    ensures s.Contents() == map[Key1 := "value1", Key2 := "value2"]
  {
    s := new ShardMap<string>();
    var _ := s.Store(Key1, "value1");
    var _ := s.Store(Key2, "value2");
  }

  /** The two-key map without the keys the Range test's visitor deletes. */
  lemma KeepOthers(m: map<Key, string>, isKey1: Key -> bool)
    requires m == map[Key1 := "value1", Key2 := "value2"]
    requires forall k :: isKey1(k) <==> k == Key1
    ensures (map k | k in m && !isKey1(k) :: m[k]) == map[Key2 := "value2"]
  {
  }

  /** Two distinct stored keys give a length of 2. */
  method TestLen() returns (length: uint32)
    ensures length == 2
  {
    var s := NewWithTwoKeys();
    assert |s.Contents()| == 2;
    length := s.Len();
    assert length as int == 2 % 0x1_0000_0000;
  }

  /**
    A Range whose visitor deletes "key1" leaves "key1" absent, "key2"
    present and a length of 1.
   */
  method TestRange() returns (first: Result<Option<string>>, second: Result<Option<string>>, length: uint32)
    ensures first == Ok(None)
    ensures second == Ok(Some("value2"))
    ensures length == 1
  {
    var s := NewWithTwoKeys();
    ghost var stored := s.Contents();
    var isKey1 := k => k == Key1;
    s.RangeDeleteWhere(isKey1);
    KeepOthers(stored, isKey1);
    first := s.Load(Key1);
    second := s.Load(Key2);
    assert |s.Contents()| == 1;
    length := s.Len();
    assert length as int == 1 % 0x1_0000_0000;
  }

  /** After Clear neither key is found and the length is 0. */
  method TestClear() returns (first: Result<Option<string>>, second: Result<Option<string>>, length: uint32)
    ensures first == Ok(None)
    ensures second == Ok(None)
    ensures length == 0
  {
    var s := NewWithTwoKeys();
    s.Clear();
    first := s.Load(Key1);
    second := s.Load(Key2);
    assert |s.Contents()| == 0;
    length := s.Len();
    assert length as int == 0 % 0x1_0000_0000;
  }

  /** fnv1a32 of the string key "test_string" and of the integer key 42. */
  method TestFnv1a32() returns (stringHash: Result<bv32>, intHash: Result<bv32>)
    ensures stringHash == Ok(2101758991)
    ensures intHash == Ok(494316163)
  {
    stringHash := Fnv1a32(Str(TestString));
    intHash := Fnv1a32(Int(42));
    KnownVectorString();
    KnownVectorInt();
  }
}
