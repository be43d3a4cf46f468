/** Decimal numerals as strconv prints and parses them. */
module Numerals {
  import opened Wire

  predicate IsDigit(c: char) { '0' <= c <= '9' }

  function Digit(d: nat): char
    requires d < 10
  {
    '0' + d as char
  }

  function FormatNat(n: nat): (s: string)
    ensures s != ""
  {
    if n < 10 then [Digit(n)] else FormatNat(n / 10) + [Digit(n % 10)]
  }

  /** The value of a string of digits; none for an empty string or another character. */
  function ParseNat(s: string): Option<nat> {
    if s == "" then None
    else
      var c := s[|s| - 1];
      if !IsDigit(c) then None
      else if |s| == 1 then Some((c - '0') as nat)
      else match ParseNat(s[..|s| - 1])
        case None => None
        case Some(n) => Some(n * 10 + (c - '0') as nat)
  }

  lemma {:induction false} NatRoundTrip(n: nat)
    ensures ParseNat(FormatNat(n)) == Some(n)
    ensures forall i :: 0 <= i < |FormatNat(n)| ==> IsDigit(FormatNat(n)[i])
  {
    var s := FormatNat(n);
    if n >= 10 {
      NatRoundTrip(n / 10);
      assert s[..|s| - 1] == FormatNat(n / 10);
    }
  }

  function Pow10(n: nat): nat { if n == 0 then 1 else 10 * Pow10(n - 1) }

  predicate AllDigits(s: string) { s != "" && forall i :: 0 <= i < |s| ==> IsDigit(s[i]) }

  /** The value of digits by their places. */
  function PlaceValue(s: string): nat
    requires forall i :: 0 <= i < |s| ==> IsDigit(s[i])
  {
    if s == "" then 0
    else
      assert IsDigit(s[0]);
      (s[0] - '0') as nat * Pow10(|s| - 1) + PlaceValue(s[1..])
  }

  lemma {:induction false} PlaceValueLast(s: string)
    requires AllDigits(s)
    ensures PlaceValue(s) == PlaceValue(s[..|s| - 1]) * 10 + (s[|s| - 1] - '0') as nat
  {
    if |s| == 1 {
      assert s[1..] == "" && Pow10(0) == 1;
    } else {
      PlaceValueLast(s[1..]);
      var t := s[..|s| - 1];
      assert s[1..][..|s| - 2] == t[1..];
      assert (s[0] - '0') as nat * Pow10(|s| - 1) == 10 * ((s[0] - '0') as nat * Pow10(|s| - 2));
    }
  }

  /** Exactly the non-empty strings of digits are numbers, at their place value. */
  lemma {:induction false} ParseNatExact(s: string)
    ensures ParseNat(s) == if AllDigits(s) then Some(PlaceValue(s)) else None
  {
    if s != "" {
      var t := s[..|s| - 1];
      ParseNatExact(t);
      if AllDigits(s) {
        PlaceValueLast(s);
      } else if IsDigit(s[|s| - 1]) {
        var i :| 0 <= i < |s| && !IsDigit(s[i]);
        assert t[i] == s[i];
      }
    }
  }

  function FormatInt(n: int): (s: string)
    ensures s != ""
  {
    if n < 0 then "-" + FormatNat(-n) else FormatNat(n)
  }

  /** strconv.ParseInt(s, 10, 64): an optional sign, then digits, in range. */
  function ParseInt64(s: string): Option<int> {
    if s == "" then None
    else
      var signed := s[0] == '-' || s[0] == '+';
      match ParseNat(if signed then s[1..] else s)
      case None => None
      case Some(n) =>
        var k: int := n;
        var v := if s[0] == '-' then -k else k;
        if IsInt64(v) then Some(v) else None
  }

  /** Printed without a sign or leading zeros. */
  lemma {:induction false} FormatNatExact(n: nat)
    ensures AllDigits(FormatNat(n)) && PlaceValue(FormatNat(n)) == n
    ensures |FormatNat(n)| > 1 ==> FormatNat(n)[0] != '0'
  {
    NatRoundTrip(n);
    ParseNatExact(FormatNat(n));
    if n >= 10 {
      FormatNatExact(n / 10);
      if n / 10 < 10 {
        assert FormatNat(n / 10) == [Digit(n / 10)];
      }
    }
  }

  /** The string is this number: digits, after a sign or none. */
  predicate Denotes(s: string, n: int) {
    || (AllDigits(s) && n == PlaceValue(s))
    || (s != "" && s[0] == '+' && AllDigits(s[1..]) && n == PlaceValue(s[1..]))
    || (s != "" && s[0] == '-' && AllDigits(s[1..]) && n == 0 - PlaceValue(s[1..]))
  }

  /** What parses are exactly the numerals of 64-bit integers. */
  lemma ParseInt64Exact(s: string)
    ensures forall n :: ParseInt64(s) == Some(n) <==> IsInt64(n) && Denotes(s, n)
  {
    ParseNatExact(s);
    if s != "" {
      ParseNatExact(s[1..]);
      assert AllDigits(s) ==> IsDigit(s[0]);
    }
  }

  lemma NegativeRoundTrip(n: int)
    requires IsInt64(n) && n < 0
    ensures ParseInt64("-" + FormatNat(-n)) == Some(n)
  {
    var s := "-" + FormatNat(-n);
    NatRoundTrip(-n);
    assert s[1..] == FormatNat(-n) && s[0] == '-';
  }

  lemma PlainRoundTrip(n: nat)
    requires IsInt64(n)
    ensures ParseInt64(FormatNat(n)) == Some(n)
  {
    NatRoundTrip(n);
    assert IsDigit(FormatNat(n)[0]);
  }

  lemma Int64RoundTrip(n: int)
    requires IsInt64(n)
    ensures ParseInt64(FormatInt(n)) == Some(n)
  {
    if n < 0 {
      NegativeRoundTrip(n);
    } else {
      PlainRoundTrip(n);
    }
  }

  /** strconv.ParseUint(s, 10, bits) with `limit` == 2^bits: digits only, in range. */
  function ParseUint(s: string, limit: nat): Option<nat> {
    match ParseNat(s)
    case Some(n) => if n < limit then Some(n) else None
    case None => None
  }
}
