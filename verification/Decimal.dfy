/** Decimal numerals: `strconv.FormatInt` and `strconv.ParseInt(s, 10, 32)`. */
module Decimal {
  import opened Wrappers

  predicate IsDigit(c: char) {
    '0' <= c <= '9'
  }

  predicate AllDigits(s: string) {
    forall i :: 0 <= i < |s| ==> IsDigit(s[i])
  }

  /** A non-empty run of digits. */
  predicate IsDigits(s: string) {
    s != "" && AllDigits(s)
  }

  /** A run of digits that starts with 1-9: the `[1-9]\d*` of the array flag's expressions. */
  predicate IsPositiveNumeral(s: string) {
    IsDigits(s) && s[0] != '0'
  }

  function DigitValue(c: char): (d: int)
    requires IsDigit(c)
    ensures 0 <= d <= 9
  {
    c as int - '0' as int
  }

  function DigitChar(d: int): (c: char)
    requires 0 <= d <= 9
    ensures IsDigit(c) && DigitValue(c) == d
  {
    ('0' as int + d) as char
  }

  /** The number a run of digits denotes. */
  function Value(s: string): nat
    requires AllDigits(s)
  {
    if s == "" then 0 else Value(s[..|s| - 1]) * 10 + DigitValue(s[|s| - 1])
  }

  function FormatNat(n: nat): (s: string)
    ensures IsDigits(s)
  {
    if n < 10 then [DigitChar(n)] else FormatNat(n / 10) + [DigitChar(n % 10)]
  }

  /** `strconv.FormatInt(n, 10)`. */
  function FormatInt(n: int): string {
    if n < 0 then "-" + FormatNat(-n) else FormatNat(n)
  }

  /** `strconv.ParseInt(s, 10, 32)`: an optional sign, digits, and a range check. */
  function ParseInt32(s: string): (r: Option<int>)
    ensures r.Some? ==> IsInt32(r.value)
  {
    var signed := s != "" && s[0] in {'+', '-'};
    var digits := if signed then s[1..] else s;
    if !IsDigits(digits) then None
    else
      var n: int := if signed && s[0] == '-' then 0 - Value(digits) else Value(digits);
      if IsInt32(n) then Some(n) else None
  }

  lemma ParseDigits(s: string)
    requires IsDigits(s)
    ensures ParseInt32(s) == if Value(s) <= MAX_INT32 then Some(Value(s)) else None
  {
  }

  lemma {:induction false} ValueOfFormat(n: nat)
    ensures Value(FormatNat(n)) == n
  {
    var s := FormatNat(n);
    if n >= 10 {
      ValueOfFormat(n / 10);
      assert s[..|s| - 1] == FormatNat(n / 10);
    } else {
      assert s[..0] == "";
    }
  }

  lemma {:induction false} FormatLeadingDigit(n: nat)
    ensures FormatNat(n)[0] == '0' <==> n == 0
  {
    if n >= 10 {
      FormatLeadingDigit(n / 10);
    }
  }

  /** Parsing undoes printing, for every non-negative int32. */
  lemma ParseFormat(n: nat)
    requires IsInt32(n)
    ensures ParseInt32(FormatInt(n)) == Some(n)
  {
    ValueOfFormat(n);
    ParseDigits(FormatNat(n));
  }

  lemma FormatInjective(m: nat, n: nat)
    requires FormatInt(m) == FormatInt(n)
    ensures m == n
  {
    ValueOfFormat(m);
    ValueOfFormat(n);
  }

  lemma {:induction false} ValuePositive(s: string)
    requires IsPositiveNumeral(s)
    ensures Value(s) > 0
  {
    var front := s[..|s| - 1];
    if front != "" {
      ValuePositive(front);
    }
  }

  /** Printing undoes parsing exactly for the numerals without a superfluous leading zero. */
  lemma {:induction false} FormatValue(s: string)
    requires IsDigits(s)
    ensures FormatNat(Value(s)) == s <==> s == "0" || s[0] != '0'
  {
    FormatLeadingDigit(Value(s));
    var front, last := s[..|s| - 1], s[|s| - 1];
    assert s == front + [last] && IsDigit(last);
    assert |FormatNat(0)| == 1;
    if front == "" {
      assert Value(s) == DigitValue(last);
    } else if s[0] != '0' {
      FormatValue(front);
      ValuePositive(front);
      assert Value(s) / 10 == Value(front) && Value(s) % 10 == DigitValue(last);
    }
  }

  /** Length of the digit run a text starts with. */
  function DigitRun(s: string): (n: nat)
    ensures n <= |s| && AllDigits(s[..n])
    ensures n < |s| ==> !IsDigit(s[n])
  {
    if s == "" || !IsDigit(s[0]) then 0
    else
      var n := DigitRun(s[1..]);
      assert s[..n + 1] == [s[0]] + s[1..][..n];
      n + 1
  }

  lemma {:induction false} DigitRunOf(digits: string, rest: string)
    requires AllDigits(digits) && (rest == "" || !IsDigit(rest[0]))
    ensures DigitRun(digits + rest) == |digits|
  {
    if digits == "" {
      assert digits + rest == rest;
    } else {
      assert (digits + rest)[1..] == digits[1..] + rest;
      DigitRunOf(digits[1..], rest);
    }
  }

  /** Numerals, character by character. */
  lemma NumeralsMean(s: string)
    ensures IsDigits(s) <==> s != "" && forall i :: 0 <= i < |s| ==> '0' <= s[i] <= '9'
    ensures IsPositiveNumeral(s) <==> s != "" && s[0] != '0' && forall i :: 0 <= i < |s| ==> '0' <= s[i] <= '9'
  {
  }
}
