/**
  The keys a ShardMap accepts and their canonical byte strings.

  A Go key is a dynamically typed `any`; the type switch of fnv1a32 accepts
  strings and every integer type and panics on anything else. Key has one
  variant per case of that switch, so `int(42)`, `int64(42)` and `"42"` are
  distinct keys (sync.Map compares the typed key), although they share a
  canonical string and therefore a shard. `int`, `uint` and `uintptr` are
  taken to be 64 bits wide.
 */
module Keys {
  import opened Decimal
  import opened Results

  newtype int8 = x: int | -0x80 <= x < 0x80
  newtype int16 = x: int | -0x8000 <= x < 0x8000
  newtype int32 = x: int | -0x8000_0000 <= x < 0x8000_0000
  newtype int64 = x: int | -0x8000_0000_0000_0000 <= x < 0x8000_0000_0000_0000
  newtype uint8 = x: int | 0 <= x < 0x100
  newtype uint16 = x: int | 0 <= x < 0x1_0000
  newtype uint32 = x: int | 0 <= x < 0x1_0000_0000
  newtype uint64 = x: int | 0 <= x < 0x1_0000_0000_0000_0000

  datatype Key =
    | Str(bytes: seq<byte>)
    | Int(i: int64)
    | Int8(i8: int8)
    | Int16(i16: int16)
    | Int32(i32: int32)
    | Int64(i64: int64)
    | Uint(u: uint64)
    | Uint8(u8: uint8)
    | Uint16(u16: uint16)
    | Uint32(u32: uint32)
    | Uint64(u64: uint64)
    | Uintptr(ptr: uint64)
      /** Any other dynamic type (a float, a struct, a pointer, ...), named by its type. */
    | Unsupported(typeName: string)
  {
    predicate IsSigned() {
      Int? || Int8? || Int16? || Int32? || Int64?
    }

    predicate IsUnsigned() {
      Uint? || Uint8? || Uint16? || Uint32? || Uint64? || Uintptr?
    }

    /** The mathematical value of an integer key. */
    function Value(): int
      requires IsSigned() || IsUnsigned()
    {
      match this
      case Int(v) => v as int
      case Int8(v) => v as int
      case Int16(v) => v as int
      case Int32(v) => v as int
      case Int64(v) => v as int
      case Uint(v) => v as int
      case Uint8(v) => v as int
      case Uint16(v) => v as int
      case Uint32(v) => v as int
      case Uint64(v) => v as int
      case Uintptr(v) => v as int
    }
  }

  /** The type switch of fnv1a32: the string that is hashed for a key. */
  function Canonical(k: Key): Result<seq<byte>> {
    match k
    case Str(s) => Ok(s)
    case Int(v) => Ok(Itoa(v as int))
    case Int8(v) => Ok(Itoa(v as int))
    case Int16(v) => Ok(Itoa(v as int))
    case Int32(v) => Ok(Itoa(v as int))
    case Int64(v) => Ok(Itoa(v as int))
    case Uint(v) => Ok(FormatUint(v as nat))
    case Uint8(v) => Ok(FormatUint(v as nat))
    case Uint16(v) => Ok(FormatUint(v as nat))
    case Uint32(v) => Ok(FormatUint(v as nat))
    case Uint64(v) => Ok(FormatUint(v as nat))
    case Uintptr(v) => Ok(FormatUint(v as nat))
    case Unsupported(_) => Panic(UnsupportedKeyType)
  }

  /**
    What the canonical string of each kind of key is: a string key is its own
    bytes; an integer key is the canonical decimal of its value (signed: with
    a minus exactly when negative; unsigned: digits only); every other key
    type is the UnsupportedKeyType error.
   */
  lemma CanonicalMeaning(k: Key)
    ensures Canonical(k).Panic? <==> k.Unsupported?
    ensures k.Str? ==> Canonical(k) == Ok(k.bytes)
    ensures k.IsSigned() ==>
      && Canonical(k).Ok?
      && IsCanonicalSigned(Canonical(k).value)
      && (Canonical(k).value[0] == Minus <==> k.Value() < 0)
      && ParseInt(Canonical(k).value) == k.Value()
    ensures k.IsUnsigned() ==>
      && Canonical(k).Ok?
      && IsCanonicalUnsigned(Canonical(k).value)
      && ParseUint(Canonical(k).value) == k.Value()
  {
    if k.IsSigned() {
      ItoaRoundTrip(k.Value());
    } else if k.IsUnsigned() {
      FormatUintRoundTrip(k.Value());
    }
  }

  /**
    Two integer keys, of whatever types, have the same canonical string
    exactly when they have the same value; so `int8(7)` and `uint64(7)` hash
    alike while `int(-1)` and `int(1)` do not.
   */
  lemma IntegerKeysCollide(a: Key, b: Key)
    requires a.IsSigned() || a.IsUnsigned()
    requires b.IsSigned() || b.IsUnsigned()
    ensures Canonical(a) == Canonical(b) <==> a.Value() == b.Value()
  {
    assert Canonical(a) == Ok(Itoa(a.Value()));
    assert Canonical(b) == Ok(Itoa(b.Value()));
    ItoaRoundTrip(a.Value());
    ItoaRoundTrip(b.Value());
  }
}
