/** Decimal text of integers, as printf's `%u` and ArduinoJson's integer
    writer produce it, together with the parsers that read it back. */
module Decimal {
  import opened EspTypes

  const ZERO: int := '0' as int
  const MINUS: int := '-' as int

  predicate IsDigit(b: int) {
    ZERO <= b <= ZERO + 9
  }

  predicate AllDigits(s: seq<byte>) {
    forall i :: 0 <= i < |s| ==> IsDigit(s[i])
  }

  /** `%u` of n: at least one digit, no leading zero. */
  function Digits(n: nat): (s: seq<byte>)
    ensures 1 <= |s| && AllDigits(s)
    ensures s[0] == ZERO ==> n == 0
    decreases n
  {
    if n < 10 then [ZERO + n] else Digits(n / 10) + [ZERO + n % 10]
  }

  /** The number a run of decimal digits denotes. */
  function Value(s: seq<byte>): nat
    requires AllDigits(s)
  {
    if s == [] then 0 else 10 * Value(s[..|s| - 1]) + (s[|s| - 1] - ZERO)
  }

  lemma {:induction false} ValueOfDigits(n: nat)
    ensures Value(Digits(n)) == n
    decreases n
  {
    if n >= 10 {
      ValueOfDigits(n / 10);
      var s := Digits(n);
      assert s[..|s| - 1] == Digits(n / 10);
    }
  }

  function Pow10(k: nat): nat
  {
    if k == 0 then 1 else 10 * Pow10(k - 1)
  }

  /** A number below 10^k takes at most k digits. */
  lemma {:induction false} DigitsFit(n: nat, k: nat)
    requires 1 <= k && n < Pow10(k)
    ensures |Digits(n)| <= k
    decreases k
  {
    if n >= 10 {
      DigitsFit(n / 10, k - 1);
    }
  }

  /** Any 32-bit unsigned value prints in at most ten digits. */
  lemma DigitsOfU32(n: nat)
    requires n < 0x1_0000_0000
    ensures |Digits(n)| <= 10
  {
    assert Pow10(10) == 10_000_000_000;
    DigitsFit(n, 10);
  }

  /** Length of the longest run of digits at the front of t. */
  function DigitRun(t: seq<byte>): (k: nat)
    ensures k <= |t| && AllDigits(t[..k])
    ensures k < |t| ==> !IsDigit(t[k])
  {
    if t == [] || !IsDigit(t[0]) then 0 else 1 + DigitRun(t[1..])
  }

  /** The run of digits ends no later than the first non-digit. */
  lemma {:induction false} DigitRunStops(t: seq<byte>, j: nat)
    requires j < |t| && !IsDigit(t[j])
    ensures DigitRun(t) <= j
  {
    if j > 0 && IsDigit(t[0]) {
      DigitRunStops(t[1..], j - 1);
    }
  }

  /** Reads an unsigned decimal at the front of t: its value and the bytes consumed. */
  function ParseNat(t: seq<byte>): Option<(nat, nat)> {
    var k := DigitRun(t);
    if k == 0 then None else Some((Value(t[..k]), k))
  }

  /** `Digits` followed by anything that does not start with a digit reads back. */
  lemma NatRoundTrip(n: nat, rest: seq<byte>)
    requires rest == [] || !IsDigit(rest[0])
    ensures ParseNat(Digits(n) + rest) == Some((n, |Digits(n)|))
  {
    var s := Digits(n);
    var t := s + rest;
    var k := DigitRun(t);
    if rest != [] {
      DigitRunStops(t, |s|);
    }
    assert forall i :: 0 <= i < |s| ==> t[i] == s[i];
    assert t[..k] == s;
    ValueOfDigits(n);
  }

  /** An int as ArduinoJson writes it: a minus sign for negatives, then `Digits`. */
  function SignedDigits(n: int): (s: seq<byte>)
    ensures 1 <= |s|
  {
    if n < 0 then [MINUS] + Digits(-n) else Digits(n)
  }

  /** Reads an optionally negative decimal at the front of t. */
  function ParseInt(t: seq<byte>): Option<(int, nat)> {
    if t != [] && t[0] == MINUS then
      match ParseNat(t[1..])
      case Some((v, k)) => Some((0 - v as int, k + 1))
      case None => None
    else
      match ParseNat(t)
      case Some((v, k)) => Some((v, k))
      case None => None
  }

  /** A minus sign and `Digits(m)` read back as -m. */
  lemma NegativeRoundTrip(m: nat, rest: seq<byte>)
    requires rest == [] || !IsDigit(rest[0])
    ensures ParseInt([MINUS] + Digits(m) + rest) == Some((-(m as int), |Digits(m)| + 1))
  {
    var t := [MINUS] + Digits(m) + rest;
    assert t[1..] == Digits(m) + rest;
    NatRoundTrip(m, rest);
  }

  /** `Digits(n)` starts with a digit, so no minus sign is read. */
  lemma NonNegativeRoundTrip(n: nat, rest: seq<byte>)
    requires rest == [] || !IsDigit(rest[0])
    ensures ParseInt(Digits(n) + rest) == Some((n, |Digits(n)|))
  {
    NatRoundTrip(n, rest);
    assert (Digits(n) + rest)[0] == Digits(n)[0];
  }

  lemma IntRoundTrip(n: int, rest: seq<byte>)
    requires rest == [] || !IsDigit(rest[0])
    ensures ParseInt(SignedDigits(n) + rest) == Some((n, |SignedDigits(n)|))
  {
    if n < 0 {
      assert SignedDigits(n) == [MINUS] + Digits(-n);
      NegativeRoundTrip(-n, rest);
    } else {
      assert SignedDigits(n) == Digits(n);
      NonNegativeRoundTrip(n, rest);
    }
  }

  /** A 32-bit signed value prints in at most eleven bytes. */
  lemma SignedDigitsOfI32(n: int)
    requires -0x8000_0000 <= n < 0x8000_0000
    ensures |SignedDigits(n)| <= 11
  {
    if n < 0 {
      DigitsOfU32(-n);
    } else {
      DigitsOfU32(n);
    }
  }
}
