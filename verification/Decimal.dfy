/** Decimal numerals, as Python's str(n) and f-strings print them. */
module Decimal {
  const DIGITS := "0123456789"

  function Dec(n: nat): (s: string)
    ensures s != []
    ensures forall i :: 0 <= i < |s| ==> s[i] in DIGITS
  {
    if n < 10 then [DIGITS[n]] else Dec(n / 10) + [DIGITS[n % 10]]
  }

  /** What a numeral means. */
  function Value(s: string): int {
    if s == [] then 0 else 10 * Value(s[..|s| - 1]) + (s[|s| - 1] as int - '0' as int)
  }

  lemma {:induction false} DecValue(n: nat)
    ensures Value(Dec(n)) == n
  {
    assert DIGITS[n % 10] as int == '0' as int + n % 10;
    if n < 10 {
      assert Dec(n)[..0] == [];
    } else {
      DecValue(n / 10);
      assert Dec(n)[..|Dec(n)| - 1] == Dec(n / 10);
    }
  }

  lemma DecInjective(m: nat, n: nat)
    requires Dec(m) == Dec(n)
    ensures m == n
  {
    DecValue(m);
    DecValue(n);
  }

  /** Two texts that end in an underscore and a numeral are equal only if the numerals are,
      whatever stands before them. */
  lemma NumeralSuffix(a: string, m: nat, b: string, n: nat)
    requires a + "_" + Dec(m) == b + "_" + Dec(n)
    ensures m == n
  {
    if |Dec(m)| < |Dec(n)| {
      ShorterSuffix(a, m, b, n);
    } else if |Dec(n)| < |Dec(m)| {
      ShorterSuffix(b, n, a, m);
    } else {
      var s := a + "_" + Dec(m);
      assert |a| == |b|;
      assert s[|a| + 1..] == Dec(m) && s[|b| + 1..] == Dec(n);
      DecInjective(m, n);
    }
  }

  lemma ShorterSuffix(a: string, m: nat, b: string, n: nat)
    requires |Dec(m)| < |Dec(n)|
    ensures a + "_" + Dec(m) != b + "_" + Dec(n)
  {
    var s, t := a + "_" + Dec(m), b + "_" + Dec(n);
    if |s| == |t| {
      assert s[|a|] == '_';
      assert t[|a|] == Dec(n)[|a| - |b| - 1];
    }
  }
}
