/**
  Base-10 rendering of integers as ASCII bytes, as Go's strconv.Itoa and
  strconv.FormatUint(_, 10) produce it, together with the parser that
  inverts it. Keys are canonicalised with these before they are hashed.
 */
module Decimal {

  /** A byte of a Go string (strings are indexed by UTF-8 byte). */
  type byte = bv8

  const Zero: byte := 48   // '0'
  const Minus: byte := 45  // '-'

  predicate IsDigit(b: byte) {
    Zero <= b <= Zero + 9
  }

  predicate AllDigits(s: seq<byte>) {
    forall j :: 0 <= j < |s| ==> IsDigit(s[j])
  }

  /** A non-empty run of digits without a leading zero ("0" itself excepted). */
  predicate IsCanonicalUnsigned(s: seq<byte>) {
    |s| > 0 && AllDigits(s) && (s[0] == Zero ==> |s| == 1)
  }

  /** An optional leading minus followed by a canonical run of digits; no "-0". */
  predicate IsCanonicalSigned(s: seq<byte>) {
    if |s| > 0 && s[0] == Minus then IsCanonicalUnsigned(s[1..]) && s[1..] != [Zero]
    else IsCanonicalUnsigned(s)
  }

  function DigitByte(d: nat): (b: byte)
    requires d < 10
    ensures IsDigit(b) && (b == Zero <==> d == 0)
  {
    (48 + d) as byte
  }

  function DigitValue(b: byte): (d: nat)
    requires IsDigit(b)
    ensures d < 10 && (d == 0 <==> b == Zero)
  {
    (b - Zero) as int
  }

  lemma DigitInverse(d: nat, b: byte)
    requires d < 10 && IsDigit(b)
    ensures DigitByte(d) == b <==> DigitValue(b) == d
  {
  }

  /** strconv.FormatUint(n, 10). */
  function FormatUint(n: nat): seq<byte>
    decreases n
  {
    if n < 10 then [DigitByte(n)] else FormatUint(n / 10) + [DigitByte(n % 10)]
  }

  /** strconv.Itoa(n): a minus sign for negative values, then the magnitude. */
  function Itoa(n: int): seq<byte> {
    if n < 0 then [Minus] + FormatUint(-n) else FormatUint(n)
  }

  /** The value of a run of digits, most significant first. */
  function ParseUint(s: seq<byte>): nat
    requires AllDigits(s)
  {
    if s == [] then 0 else ParseUint(s[..|s| - 1]) * 10 + DigitValue(s[|s| - 1])
  }

  function ParseInt(s: seq<byte>): int
    requires IsCanonicalSigned(s)
  {
    if |s| > 0 && s[0] == Minus then -(ParseUint(s[1..]) as int) else ParseUint(s)
  }

  /** FormatUint yields a canonical digit string that parses back to its input. */
  lemma {:induction false} FormatUintRoundTrip(n: nat)
    ensures IsCanonicalUnsigned(FormatUint(n))
    ensures ParseUint(FormatUint(n)) == n
    decreases n
  {
    if n < 10 {
      DigitInverse(n, DigitByte(n));
    } else {
      FormatUintRoundTrip(n / 10);
      DigitInverse(n % 10, DigitByte(n % 10));
      var s := FormatUint(n);
      assert s[..|s| - 1] == FormatUint(n / 10);
      assert s[0] == FormatUint(n / 10)[0];
    }
  }

  /** A digit run that does not start with '0' has a positive value. */
  lemma {:induction false} LeadingDigitPositive(s: seq<byte>)
    requires |s| > 0 && AllDigits(s) && s[0] != Zero
    ensures ParseUint(s) > 0
    decreases |s|
  {
    if |s| > 1 {
      var p := s[..|s| - 1];
      assert p[0] == s[0];
      LeadingDigitPositive(p);
    }
  }

  /** Every canonical digit string is the rendering of its own value. */
  lemma {:induction false} ParseUintRoundTrip(s: seq<byte>)
    requires IsCanonicalUnsigned(s)
    ensures FormatUint(ParseUint(s)) == s
    decreases |s|
  {
    if |s| == 1 {
      DigitInverse(DigitValue(s[0]), s[0]);
      assert ParseUint(s) == DigitValue(s[0]);
    } else {
      var p := s[..|s| - 1];
      var d := DigitValue(s[|s| - 1]);
      assert p[0] == s[0];
      LeadingDigitPositive(p);
      ParseUintRoundTrip(p);
      DigitInverse(d, s[|s| - 1]);
      var n := ParseUint(s);
      assert n == ParseUint(p) * 10 + d;
      assert n / 10 == ParseUint(p) && n % 10 == d;
      assert s == p + [s[|s| - 1]];
    }
  }

  /** Distinct naturals render differently. */
  lemma FormatUintInjective(m: nat, n: nat)
    ensures FormatUint(m) == FormatUint(n) <==> m == n
  {
    FormatUintRoundTrip(m);
    FormatUintRoundTrip(n);
  }

  /**
    Itoa puts a minus sign in front exactly of negative values, yields a
    canonical signed decimal and parses back to its input.
   */
  lemma ItoaRoundTrip(n: int)
    ensures IsCanonicalSigned(Itoa(n))
    ensures Itoa(n)[0] == Minus <==> n < 0
    ensures ParseInt(Itoa(n)) == n
  {
    if n < 0 {
      FormatUintRoundTrip(-n);
      var s := Itoa(n);
      assert s[1..] == FormatUint(-n);
    } else {
      FormatUintRoundTrip(n);
      assert IsDigit(Itoa(n)[0]);
    }
  }

  /** Every canonical signed decimal is the Itoa rendering of its own value. */
  lemma ParseIntRoundTrip(s: seq<byte>)
    requires IsCanonicalSigned(s)
    ensures Itoa(ParseInt(s)) == s
  {
    if |s| > 0 && s[0] == Minus {
      ParseUintRoundTrip(s[1..]);
      LeadingDigitPositive(s[1..]);
      assert s == [Minus] + s[1..];
    } else {
      ParseUintRoundTrip(s);
    }
  }
}
