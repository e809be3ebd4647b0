/** Printing and parsing of sequence positions, and their bigint conversion. */
module Positions {
  import opened EventStore

  const UINT64_LIMIT: nat := 0x1_0000_0000_0000_0000
  const INT64_LIMIT: int := 0x8000_0000_0000_0000

  predicate IsDigit(c: char) {
    '0' <= c <= '9'
  }

  predicate AllDigits(s: string) {
    forall i :: 0 <= i < |s| ==> IsDigit(s[i])
  }

  function DigitChar(d: nat): char
    requires d < 10
  {
    '0' + d as char
  }

  function DigitValue(c: char): (d: nat)
    requires IsDigit(c)
    ensures d < 10 && DigitChar(d) == c
  {
    c as int - '0' as int
  }

  /** strconv.FormatUint in base ten. */
  function FormatUint(n: nat): string {
    if n < 10 then [DigitChar(n)] else FormatUint(n / 10) + [DigitChar(n % 10)]
  }

  function FormatInt(n: int): string {
    if n < 0 then "-" + FormatUint(-n) else FormatUint(n)
  }

  function DigitsValue(s: string): nat
    requires AllDigits(s)
  {
    if s == "" then 0
    else 10 * DigitsValue(s[..|s| - 1]) + DigitValue(s[|s| - 1])
  }

  /** strconv.ParseUint(s, 10, 64): digits only, leading zeros allowed, within 64 bits. */
  function ParseUint(s: string): Option<nat> {
    if s != "" && AllDigits(s) && DigitsValue(s) < UINT64_LIMIT then Some(DigitsValue(s)) else None
  }

  /** strconv.ParseInt(s, 10, 64): an optional sign, then digits, within int64. */
  function ParseInt(s: string): Option<int> {
    if s != "" && s[0] == '-' then
      if s[1..] != "" && AllDigits(s[1..]) && DigitsValue(s[1..]) <= INT64_LIMIT
      then Some(0 - DigitsValue(s[1..])) else None
    else
      var digits := if s != "" && s[0] == '+' then s[1..] else s;
      if digits != "" && AllDigits(digits) && DigitsValue(digits) < INT64_LIMIT
      then Some(DigitsValue(digits)) else None
  }

  function ParseSequencePosition(s: string): Option<nat> {
    match ParseUint(s)
    case Some(value) => if FormatUint(value) == s then Some(value) else None
    case None => None
  }

  function PositionToInt64(position: nat): Option<int> {
    ParseInt(FormatUint(position))
  }

  function Int64ToPosition(n: int): Option<nat> {
    ParseSequencePosition(FormatInt(n))
  }

  /** The canonical decimals: digits, and no leading zero on a longer string. */
  predicate Canonical(s: string) {
    s != "" && AllDigits(s) && (|s| > 1 ==> s[0] != '0')
  }

  lemma {:induction false} FormatCanonical(n: nat)
    ensures Canonical(FormatUint(n)) && DigitsValue(FormatUint(n)) == n
    ensures n > 0 ==> FormatUint(n)[0] != '0'
  {
    if n >= 10 {
      FormatCanonical(n / 10);
      var s := FormatUint(n);
      assert s[..|s| - 1] == FormatUint(n / 10);
      assert s[0] == FormatUint(n / 10)[0];
    } else {
      assert FormatUint(n)[..0] == "";
    }
  }

  /** The ten digits. */
  lemma DigitsPrinted(d: nat)
    requires d < 10
    ensures FormatUint(d) == [['0', '1', '2', '3', '4', '5', '6', '7', '8', '9'][d]]
  {}

  /** A longer number is printed as its tens, then its last digit. */
  lemma LongerPrinted(n: nat, d: nat)
    requires n > 0 && d < 10
    ensures FormatUint(10 * n + d) == FormatUint(n) + [['0', '1', '2', '3', '4', '5', '6', '7', '8', '9'][d]]
  {
    assert (10 * n + d) / 10 == n && (10 * n + d) % 10 == d;
    DigitsPrinted(d);
  }

  lemma {:induction false} CanonicalPositive(s: string)
    requires AllDigits(s) && s != "" && s[0] != '0'
    ensures DigitsValue(s) > 0
  {
    if |s| > 1 {
      CanonicalPositive(s[..|s| - 1]);
    } else {
      assert s[..0] == "";
    }
  }

  lemma {:induction false} FormatOfValue(s: string)
    requires Canonical(s)
    ensures FormatUint(DigitsValue(s)) == s
  {
    var init, d := s[..|s| - 1], DigitValue(s[|s| - 1]);
    if |s| == 1 {
      assert init == "";
    } else {
      FormatOfValue(init);
      CanonicalPositive(init);
      var v := DigitsValue(s);
      assert v / 10 == DigitsValue(init) && v % 10 == d;
      assert s == init + [s[|s| - 1]];
    }
  }

  /** Parse accepts exactly the canonical decimals below 2^64, and printing inverts it. */
  lemma ParseExactlyCanonical(s: string)
    ensures ParseSequencePosition(s).Some? <==> Canonical(s) && DigitsValue(s) < 0x1_0000_0000_0000_0000
    ensures ParseSequencePosition(s).Some? ==> FormatUint(ParseSequencePosition(s).value) == s
  {
    if Canonical(s) {
      FormatOfValue(s);
    }
    if ParseUint(s).Some? {
      FormatCanonical(ParseUint(s).value);
    }
  }

  /** Parse inverts print on exactly the 64-bit positions. */
  lemma ParseAfterPrint(n: nat)
    ensures ParseSequencePosition(FormatUint(n)) == if n < 0x1_0000_0000_0000_0000 then Some(n) else None
  {
    FormatCanonical(n);
  }

  /** A position reaches a bigint and comes back unchanged exactly when it is below 2^63. */
  lemma BigintRoundTrip(position: nat)
    ensures PositionToInt64(position) == if position < 0x8000_0000_0000_0000 then Some(position) else None
    ensures position < 0x8000_0000_0000_0000 ==> Int64ToPosition(PositionToInt64(position).value) == Some(position)
  {
    FormatCanonical(position);
    ParseAfterPrint(position);
    assert IsDigit(FormatUint(position)[0]);
  }

  /** A bigint becomes a position exactly when it is not negative, and comes back unchanged. */
  lemma PositionRoundTrip(n: int)
    requires -0x8000_0000_0000_0000 <= n < 0x8000_0000_0000_0000
    ensures Int64ToPosition(n) == if n >= 0 then Some(n) else None
    ensures n >= 0 ==> PositionToInt64(Int64ToPosition(n).value) == Some(n)
  {
    if n >= 0 {
      ParseAfterPrint(n);
      BigintRoundTrip(n);
    } else {
      assert FormatInt(n)[0] == '-';
    }
  }
}
