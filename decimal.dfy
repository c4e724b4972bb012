/**
 * Decimal text as Python's `str.isdigit`, `int(...)` and `str(...)` treat it,
 * restricted to the ASCII digits '0' to '9'.
 */
module Decimal {
  import opened Wrappers

  predicate IsDigit(c: char) {
    '0' <= c <= '9'
  }

  /** Every character is a digit (the empty string qualifies). */
  predicate AllDigits(s: string) {
    forall i :: 0 <= i < |s| ==> IsDigit(s[i])
  }

  /**
   * `s.isdigit()`: a non-empty string of digits. A sign or a space, which
   * `int(...)` would accept, is not a digit.
   */
  predicate IsDigits(s: string)
    ensures IsDigits(s) ==> s != "" && s[0] != '-' && s[0] != '+' && s[0] != ' '
    ensures IsDigits(s) ==> IsDigits(s[1..]) || |s| == 1
  {
    |s| > 0 && AllDigits(s)
  }

  function DigitValue(c: char): (d: nat)
    requires IsDigit(c)
    ensures d < 10
  {
    c as int - '0' as int
  }

  function DigitChar(d: nat): (c: char)
    requires d < 10
    ensures IsDigit(c) && DigitValue(c) == d
  {
    ('0' as int + d) as char
  }

  /** `int(s)` for a string of digits, most significant digit first; it is 0 exactly when every digit is '0'. */
  function DigitsValue(s: string): (n: nat)
    requires AllDigits(s)
    ensures n == 0 <==> forall i :: 0 <= i < |s| ==> s[i] == '0'
  {
    if s == [] then 0
    else
      var init := s[..|s| - 1];
      assert forall i :: 0 <= i < |init| ==> init[i] == s[i];
      DigitsValue(init) * 10 + DigitValue(s[|s| - 1])
  }

  /** `str(n)` for a natural number: its digits without leading zeros. */
  function NatToString(n: nat): (s: string)
    ensures IsDigits(s)
    ensures DigitsValue(s) == n
    ensures s[0] == '0' ==> s == "0"
  {
    if n < 10 then [DigitChar(n)]
    else
      var init := NatToString(n / 10);
      var s := init + [DigitChar(n % 10)];
      assert s[..|s| - 1] == init;
      s
  }

  /** `str(i)` for any integer: a minus sign before the digits of a negative number. */
  function IntToString(i: int): (s: string)
    ensures ParseInt(s) == Some(i)
    ensures s != "" && (s[0] == '-' <==> i < 0)
    ensures var digits := if i < 0 then s[1..] else s; digits != "" && (digits[0] == '0' ==> digits == "0")
  {
    if i < 0 then
      var digits := NatToString(-i);
      assert ("-" + digits)[1..] == digits;
      "-" + digits
    else NatToString(i)
  }

  /** The inverse of IntToString: an optional minus sign followed by digits. */
  function ParseInt(s: string): Option<int> {
    if |s| > 1 && s[0] == '-' && IsDigits(s[1..]) then
      var magnitude: int := DigitsValue(s[1..]);
      Some(-magnitude)
    else if IsDigits(s) then Some(DigitsValue(s))
    else None
  }

  /** `str(int(s)) == s` for digits without a leading zero: `int` and `str` are inverse on such text. */
  lemma {:induction false} DigitsRoundTrip(s: string)
    requires IsDigits(s) && (s[0] == '0' ==> s == "0")
    ensures NatToString(DigitsValue(s)) == s
  {
    if |s| > 1 {
      var init := s[..|s| - 1];
      var last := s[|s| - 1];
      assert init[0] == s[0] && IsDigits(init);
      assert s[0] != '0';
      var m := DigitsValue(init);
      var d := DigitValue(last);
      assert m != 0;
      DigitsRoundTrip(init);
      DivModDigit(m, d);
      assert DigitsValue(s) == m * 10 + d;
      assert DigitChar(d) == last;
      assert s == init + [last];
    }
  }

  lemma DivModDigit(m: nat, d: nat)
    requires m != 0 && d < 10
    ensures (m * 10 + d) / 10 == m && (m * 10 + d) % 10 == d && m * 10 + d >= 10
  {
  }

  /** Leading zeros do not change the value: `int("007") == 7`. */
  lemma {:induction false} LeadingZerosIgnored(zeros: string, s: string)
    requires forall i :: 0 <= i < |zeros| ==> zeros[i] == '0'
    requires AllDigits(s)
    ensures AllDigits(zeros + s)
    ensures DigitsValue(zeros + s) == DigitsValue(s)
  {
    if s == [] {
      assert zeros + s == zeros;
      AllZerosValue(zeros);
    } else {
      var init := s[..|s| - 1];
      assert (zeros + s)[..|zeros + s| - 1] == zeros + init;
      LeadingZerosIgnored(zeros, init);
    }
  }

  lemma {:induction false} AllZerosValue(zeros: string)
    requires forall i :: 0 <= i < |zeros| ==> zeros[i] == '0'
    ensures AllDigits(zeros) && DigitsValue(zeros) == 0
  {
    if zeros != [] {
      AllZerosValue(zeros[..|zeros| - 1]);
    }
  }
}
