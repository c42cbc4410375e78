/** Decimal notation, as strconv and fmt read and write natural numbers. */
module Decimal {

  predicate IsDigit(c: char) {
    '0' <= c <= '9'
  }

  function Digit(c: char): nat
    requires IsDigit(c)
  {
    c as int - '0' as int
  }

  /** A non-empty string of decimal digits. */
  predicate IsNumeral(s: string) {
    s != "" && forall i :: 0 <= i < |s| ==> IsDigit(s[i])
  }

  function Value(s: string): nat
    requires forall i :: 0 <= i < |s| ==> IsDigit(s[i])
  {
    if s == "" then 0 else 10 * Value(s[..|s| - 1]) + Digit(s[|s| - 1])
  }

  function Format(n: nat): (s: string)
    ensures IsNumeral(s) && Value(s) == n
    ensures |s| > 1 ==> s[0] != '0'
  {
    if n < 10 then
      ['0' + n as char]
    else
      var init := Format(n / 10);
      var s := init + ['0' + (n % 10) as char];
      assert s[..|s| - 1] == init;
      s
  }

  /** A value printed with a sign if it is negative. */
  function FormatInt(n: int): string {
    if n < 0 then "-" + Format(-n) else Format(n)
  }

  function ByValue(s: string): int {
    if IsNumeral(s) then Value(s) else 0
  }

  const MAX_INT64 := 0x7fff_ffff_ffff_ffff
  const MIN_INT64 := -MAX_INT64 - 1

  predicate Fits(s: string) {
    IsNumeral(s) ==> Value(s) <= MAX_INT64
  }

  /** A conversion to a 64-bit integer whose error result is ignored: what does not fit becomes some integer. */
  ghost predicate IsConversion(atoi: string -> int) {
    && (forall s :: MIN_INT64 <= atoi(s) <= MAX_INT64)
    && (forall s :: IsNumeral(s) && Fits(s) ==> atoi(s) == Value(s))
  }

  /** Without leading zeros a numeral is determined by its value. */
  lemma {:induction false} FormatOfValue(s: string)
    requires IsNumeral(s) && (|s| > 1 ==> s[0] != '0')
    ensures Format(Value(s)) == s
  {
    var init, last := s[..|s| - 1], s[|s| - 1];
    if |s| > 1 {
      FormatOfValue(init);
      PositiveValue(init);
      assert Value(s) / 10 == Value(init);
      assert s == init + [last];
    } else {
      assert init == "";
      assert s == [last];
    }
  }

  lemma {:induction false} PositiveValue(s: string)
    requires IsNumeral(s) && s[0] != '0'
    ensures Value(s) > 0
  {
    if |s| > 1 {
      PositiveValue(s[..|s| - 1]);
    } else {
      assert s[..0] == "";
    }
  }
}
