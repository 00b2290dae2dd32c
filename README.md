# shardmap in Dafny

A model of `shardmap`, a Go map split into 32 shards. It models two things:

- **Placement.** Each key is turned into a canonical byte string. String keys
  pass through unchanged. Integer keys of any width are written in decimal.
  The string is hashed with a 32-bit Fowler–Noll–Vo loop, and the key goes to
  the shard numbered `hash % 32`.
- **The map operations.** `New`, `Load`, `Store`, `Delete`, `Len`, `Range`
  and `Clear` act on the shard array.

Modules:

- `Results`: the result type. A Go panic on an unsupported key type becomes
  `Panic(UnsupportedKeyType)`.
- `Decimal`: `strconv.Itoa` and `strconv.FormatUint(_, 10)` on bytes, with
  parsers that are their inverses.
- `Keys`: the supported key types and the canonicalising type switch.
- `Fnv`: the hash, as a fold over bytes and as the loop that computes it.
- `Routing`: `getShard`.
- `Shards`: the shard array as a value.
  - `Placed` is the placement invariant.
  - `Flatten` is the single map the shards stand for.
- `ShardMaps`: the `ShardMap` class.
  - It holds an array of 32 maps.
  - `Valid()` is the placement invariant.
  - `Contents()` is the map it represents.
- `ShardMapTests`: the sequential scenarios of the repository's tests,
  stated as contracts of client methods.

Three points about the Go code shape the model:

- Entries are keyed by the original typed key. The canonical string is used
  only for routing. `"42"`, `int(42)` and `int64(42)` share a shard but are
  three distinct entries.
- The shard count is the constant 32.
- The hash multiplies first and then XORs. That is the order of FNV-1, even
  though the function is called `fnv1a32`.

## Model

| member | source | states |
|---|---|---|
| Decimal.FormatUint | shardmap.go:135-145 | Definition of `strconv.FormatUint(_, 10)` on bytes; its meaning is proved in Decimal.FormatUintRoundTrip, Decimal.ParseUintRoundTrip and Decimal.FormatUintInjective. |
| Decimal.Itoa | shardmap.go:125-133 | Definition of `strconv.Itoa` on bytes; its meaning is proved in Decimal.ItoaRoundTrip and Decimal.ParseIntRoundTrip. |
| Keys.Canonical | shardmap.go:121-149 | Definition of the type switch; its meaning is proved in Keys.CanonicalMeaning and Keys.IntegerKeysCollide. |
| Fnv.Step | shardmap.go:155-156 | Definition of one loop iteration, multiply then XOR; see Fnv.FoldAppend and Fnv.OrderMatters. |
| Fnv.Fold | shardmap.go:154-157 | Definition of the loop over the bytes; see Fnv.FoldAppend and Fnv.HashBytes. |
| Fnv.Hash | shardmap.go:152-158 | Definition of the hash from the offset basis; see Fnv.HashBytes, Fnv.KnownVectorString and Fnv.KnownVectorInt. |
| Decimal.FormatUintRoundTrip | shardmap.go:134-145 | The decimal text of an unsigned value is canonical: non-empty, digits only, no leading zero. It parses back to the value. |
| Decimal.ParseUintRoundTrip | shardmap.go:134-145 | Every canonical unsigned text is the decimal text of the value it parses to. Rendering is therefore onto the canonical texts. |
| Decimal.FormatUintInjective | shardmap.go:134-145 | Two unsigned values have the same decimal text exactly when they are equal. |
| Decimal.ItoaRoundTrip | shardmap.go:124-133 | The text of a signed value is canonical. It starts with '-' exactly when the value is negative, and it parses back to the value. |
| Decimal.ParseIntRoundTrip | shardmap.go:124-133 | Every canonical signed text is the text of the value it parses to. |
| Keys.CanonicalMeaning | shardmap.go:121-149 | The type switch panics exactly on unsupported key types. A string key gives its own bytes. A signed key gives canonical signed decimal text, with a minus exactly when negative, that parses to the key's value. An unsigned or uintptr key gives canonical unsigned decimal text of its value. |
| Keys.IntegerKeysCollide | shardmap.go:124-145 | Two integer keys of any types have the same canonical string exactly when their values are equal. |
| Fnv.FoldAppend | shardmap.go:152-158 | Hashing one more byte runs one more loop step, multiplying by the prime and then XORing the byte, on the hash of the prefix. |
| Fnv.HashBytes | shardmap.go:152-158 | The hash loop over the bytes, from the offset basis, computes the hash function of those bytes. |
| Fnv.Fnv1a32 | shardmap.go:117-159 | Panics exactly on unsupported key types. Otherwise it returns the hash of the key's canonical string. |
| Fnv.KnownVectorString | shardmap_test.go:91 | "test_string" hashes to 2101758991. |
| Fnv.KnownVectorInt | shardmap_test.go:92 | The canonical string "42" of the integer key 42 hashes to 494316163. |
| Fnv.OrderMatters | shardmap.go:155-156 | On "42", XOR-then-multiply (FNV-1a) gives a different value from the loop's multiply-then-XOR. The order is therefore essential to the tested hash values. |
| Routing.ShardIndex | shardmap.go:33 | The unsigned remainder of the hash by 32 is below 32 and equals the hash's low five bits. |
| Routing.Route | shardmap.go:32-35 | Routing panics exactly on unsupported key types. Otherwise the shard index is below the shard count. |
| Routing.GetShard | shardmap.go:32-35 | getShard, computed through the hash loop, returns the shard Route names for the key. |
| Routing.EqualValuesShareShard | shardmap.go:32-35 | Integer keys of different types with equal values route to the same shard. A non-negative one routes like the string key holding its digits. |
| Routing.KnownRoutes | shardmap.go:33 | "test_string" routes to shard 15 and the integer key 42 to shard 3. |
| Shards.FlattenLookup | shardmap.go:38-42 | Under placement, a key is in the map exactly when it is in the shard it routes to, and it has that shard's value. |
| Shards.PrefixStep | shardmap.go:63-72 | Under placement, walking one more shard adds that shard's entries, whose keys are disjoint from those already seen. |
| Shards.FlattenSize | shardmap.go:57-75 | Under placement, the number of entries is the sum of the shard sizes. |
| Shards.FlattenStore | shardmap.go:45-48 | Storing into the key's own shard keeps placement. It binds the key in the whole map and changes nothing else. |
| Shards.FlattenDelete | shardmap.go:51-54 | Deleting from the key's own shard keeps placement. It removes the key from the whole map and changes nothing else. |
| Shards.FlattenEmpty | shardmap.go:21-29 | Shards that are all empty are placed and stand for the empty map. |
| ShardMaps.DistinctCount | shardmap.go:78-94 | A visit sequence that repeats no key visits as many keys as it has pairs. |
| ShardMaps.ShardMap.constructor | shardmap.go:21-29 | New builds exactly 32 shards. All are empty, placement holds and the map is empty. |
| ShardMaps.ShardMap.Load | shardmap.go:38-42 | Panics on an unsupported key type. Otherwise it returns the stored value when the key is present and not-found when it is absent. |
| ShardMaps.ShardMap.Store | shardmap.go:45-48 | Keeps placement. The key is bound to the value, overwriting any earlier binding, and every other key keeps its binding. Only the key's shard changes. A panic changes nothing. |
| ShardMaps.ShardMap.Delete | shardmap.go:51-54 | Keeps placement. The key is removed, which changes nothing if it was absent, and every other key keeps its binding. Only the key's shard changes. A panic changes nothing. |
| ShardMaps.ShardMap.Len | shardmap.go:57-75 | Counting entries one by one into a wrapping uint32 gives the number of entries modulo 2^32. |
| ShardMaps.ShardMap.Snapshot | shardmap.go:85-89 | A shard's snapshot lists each of its keys exactly once, with its value. |
| ShardMaps.ShardMap.Range | shardmap.go:78-94 | Range visits every entry of the map exactly once, with its stored value, and visits nothing else. |
| ShardMaps.ShardMap.DeleteVisited | shardmap.go:85-89 | Running a deleting visitor over one shard's snapshot removes exactly the visited keys that satisfy the predicate. |
| ShardMaps.ShardMap.RangeDeleteWhere | shardmap.go:78-94 | A Range whose visitor deletes the keys satisfying a predicate keeps placement. Afterwards it leaves exactly the entries whose keys do not satisfy it. |
| ShardMaps.ShardMap.ClearShard | shardmap.go:103-110 | Deleting every key of a shard's snapshot empties that shard, keeps placement and leaves the other shards alone. |
| ShardMaps.ShardMap.Clear | shardmap.go:97-113 | Clear keeps placement and empties every shard, so the map is empty. |
| ShardMapTests.TestNew | shardmap_test.go:10-13 | A new map has 32 shards. |
| ShardMapTests.TestLoadStoreDelete | shardmap_test.go:15-28 | After storing "key1", loading it gives "value1". After deleting it, loading it finds nothing. |
| ShardMapTests.TestLen | shardmap_test.go:30-37 | Two distinct stored keys give a length of 2. |
| ShardMapTests.TestRange | shardmap_test.go:39-64 | A Range whose visitor deletes "key1" leaves "key1" absent, "key2" present and the length 1. |
| ShardMapTests.TestClear | shardmap_test.go:66-83 | After Clear neither key is found and the length is 0. |
| ShardMapTests.TestFnv1a32 | shardmap_test.go:85-99 | fnv1a32 gives 2101758991 for "test_string" and 494316163 for the integer 42. |

## Left out

- Goroutines, `sync.WaitGroup` and `atomic.AddUint32` are not modelled
  (shardmap.go:59-73, 79-93, 98-112). `Len`, `Range` and `Clear` walk the
  shards in index order. That gives the same result when nothing else changes
  the map during the walk. Behaviour under concurrent mutation is not
  modelled.
- `sync.Map` is not part of this model. Each shard is a `map<Key, V>`.
- ShardMaps.ShardMap.Range: it returns the sequence of visited pairs instead
  of calling an arbitrary Go function. Each shard is walked from a snapshot of
  its pairs. `sync.Map.Range` allows this behaviour but also allows others
  when the map is changed during the walk. Visitors that mutate the map in
  other ways are not modelled.
- ShardMaps.ShardMap.RangeDeleteWhere covers only the visitor that deletes
  keys.
  - The test's visitor asserts `key.(string)`. That assertion would panic on
    a non-string key.
  - The model takes any predicate on keys, so that panic is not modelled.
- The order in which keys are visited within a shard is left open: any order
  satisfies the contracts.
- A `ShardMap` that `New` did not build is not modelled, for example
  `&ShardMap{}` or `new(ShardMap)`, whose `shards` slice is nil. Every method
  here requires `Valid()`, which such a map does not satisfy.
  - On it, `Load`, `Store` and `Delete` panic with an index out of range at
    shardmap.go:34 for every supported key. An unsupported key panics first
    with "Unsupported key type" (shardmap.go:148).
  - `Len`, `Range` and `Clear` call `wg.Add(ShardCount)` (shardmap.go:60, 80,
    99). The `range` over the nil slice then starts no goroutine, so
    `wg.Wait()` (shardmap.go:73, 93, 112) blocks forever. When no other
    goroutine can run, the runtime instead aborts with a deadlock error.
- `int`, `uint` and `uintptr` are taken to be 64 bits wide. 32-bit platforms
  are not modelled.
- Go strings are modelled as their UTF-8 bytes. No validity of the encoding
  is assumed or checked.
- Fnv.HashBytes: the contract ties the loop to the hash function in `bv32`
  arithmetic, where multiplication wraps modulo 2^32 as Go's `uint32` does.
  No lemma restates that arithmetic over unbounded integers.
- Nothing is proved about how evenly keys spread over the shards.
- The concurrent tests (shardmap_test.go:101-226) are not modelled. They check
  only that no panics or races occur.
- The benchmarks and `example/main.go` are not part of this model. They are
  performance measurement and printing.
