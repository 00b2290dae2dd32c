/**
  The 32-bit hash of fnv1a32. It starts from the FNV offset basis and, for
  each byte, first multiplies by the FNV prime (wrapping at 2^32) and then
  XORs the byte in. Despite the function's name this is the FNV-1 order of
  the two steps, not FNV-1a; the hash values the repository's tests pin down
  depend on it, so it is modelled as written. A `bv32` is Go's `uint32`:
  its multiplication wraps modulo 2^32.
 */
module Fnv {
  import opened Decimal
  import opened Results
  import opened Keys

  const OffsetBasis: bv32 := 2166136261
  const Prime: bv32 := 16777619

  /** One iteration of the hash loop: `hash *= prime32` and then `hash ^= uint32(b)`. */
  function Step(h: bv32, b: byte): bv32 {
    (h * Prime) ^ (b as bv32)
  }

  /** The hash loop run from state `h` over the bytes `s`, first byte first. */
  function Fold(h: bv32, s: seq<byte>): bv32
    decreases |s|
  {
    if s == [] then h else Fold(Step(h, s[0]), s[1..])
  }

  /** The hash of a canonical key string. */
  function Hash(s: seq<byte>): bv32 {
    Fold(OffsetBasis, s)
  }

  /** Appending one byte runs one more step on the hash of the prefix. */
  lemma {:induction false} FoldAppend(h: bv32, s: seq<byte>, b: byte)
    ensures Fold(h, s + [b]) == Step(Fold(h, s), b)
    decreases |s|
  {
    if s != [] {
      assert (s + [b])[1..] == s[1..] + [b];
      FoldAppend(Step(h, s[0]), s[1..], b);
    }
  }

  /** The loop of fnv1a32, over the canonical bytes in index order. */
  method HashBytes(s: seq<byte>) returns (hash: bv32)
    ensures hash == Hash(s)
  {
    hash := OffsetBasis;
    var i := 0;
    while i < |s|
      invariant 0 <= i <= |s|
      invariant hash == Hash(s[..i])
    {
      FoldAppend(OffsetBasis, s[..i], s[i]);
      assert s[..i + 1] == s[..i] + [s[i]];
      hash := Step(hash, s[i]);
      i := i + 1;
    }
    assert s[..i] == s;
  }

  /** fnv1a32: the type switch that canonicalises the key, then the hash loop. */
  method Fnv1a32(k: Key) returns (r: Result<bv32>)
    ensures r.Panic? <==> k.Unsupported?
    ensures r.Ok? ==> r.value == Hash(Canonical(k).value)
  {
    match Canonical(k)
    case Panic(e) =>
      r := Panic(e);
    case Ok(s) =>
      var hash := HashBytes(s);
      r := Ok(hash);
  }

  /** The ASCII bytes of "test_string". */
  const TestString: seq<byte> := [116, 101, 115, 116, 95, 115, 116, 114, 105, 110, 103]

  /** The hash value the repository's tests pin down for the string key "test_string". */
  lemma KnownVectorString()
    ensures Hash(TestString) == 2101758991
  {
  }

  /** The hash value the repository's tests pin down for the integer key 42 (canonical "42"). */
  lemma KnownVectorInt()
    ensures Hash(Itoa(42)) == 494316163
  {
    assert Itoa(42) == [52, 50];
  }

  /** FNV-1a, the algorithm the name promises: XOR first, then multiply. */
  function Fnv1aFold(h: bv32, s: seq<byte>): bv32
    decreases |s|
  {
    if s == [] then h else Fnv1aFold((h ^ (s[0] as bv32)) * Prime, s[1..])
  }

  /**
    The order of the two steps matters: on the canonical string of the key 42
    FNV-1a gives a different value, so a port that reorders the steps to match
    the name would not reproduce the tested hash values.
   */
  lemma OrderMatters()
    ensures Hash(Itoa(42)) != Fnv1aFold(OffsetBasis, Itoa(42))
  {
    assert Itoa(42) == [52, 50];
  }
}
