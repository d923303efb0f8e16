/** Numerals: the digits of a number, and the number that digits denote. */
module Numerals {
  /** What a character is worth as a digit; -1 when it is none. */
  function DigitOf(c: char): int {
    if '0' <= c <= '9' then c as int - '0' as int
    else if 'a' <= c <= 'z' then c as int - 'a' as int + 10
    else if 'A' <= c <= 'Z' then c as int - 'A' as int + 10
    else -1
  }

  predicate IsDigit(c: char, base: nat) { 0 <= DigitOf(c) < base }

  predicate AllDigits(s: string, base: nat) { forall i :: 0 <= i < |s| ==> IsDigit(s[i], base) }

  /** The number a string of digits denotes. */
  function Value(s: string, base: nat): nat
    requires AllDigits(s, base)
  {
    if s == [] then 0 else Value(s[..|s| - 1], base) * base + DigitOf(s[|s| - 1])
  }

  /** How many digits a text starts with. */
  function Run(s: string, base: nat): (n: nat)
    ensures n <= |s| && AllDigits(s[..n], base) && (n < |s| ==> !IsDigit(s[n], base))
  {
    if s == [] || !IsDigit(s[0], base) then 0
    else
      var n := Run(s[1..], base);
      assert forall i :: 0 <= i < n ==> s[..n + 1][i + 1] == s[1..][..n][i];
      n + 1
  }

  /** Digits not followed by another digit are the whole run. */
  lemma {:induction false} RunOfDigits(s: string, n: nat, base: nat)
    requires n <= |s| && AllDigits(s[..n], base) && (n < |s| ==> !IsDigit(s[n], base))
    ensures Run(s, base) == n
  {
    if n > 0 {
      assert IsDigit(s[..n][0], base);
      assert s[1..][..n - 1] == s[..n][1..];
      RunOfDigits(s[1..], n - 1, base);
    }
  }

  lemma ValueNext(s: string, i: nat, base: nat)
    requires i < |s| && AllDigits(s[..i], base) && IsDigit(s[i], base)
    ensures AllDigits(s[..i + 1], base) && Value(s[..i + 1], base) == Value(s[..i], base) * base + DigitOf(s[i])
  {
    assert s[..i + 1][..i] == s[..i];
    assert forall j :: 0 <= j < i ==> s[..i + 1][j] == s[..i][j];
  }

  /** The overflow test by division is the test on the product. */
  lemma DivisionTest(acc: nat, digit: nat, base: nat, limit: nat)
    requires base > 0 && digit <= limit
    ensures acc > (limit - digit) / base <==> acc * base + digit > limit
  {
    var m := limit - digit;
    var q, r := m / base, m % base;
    assert m == q * base + r;
    assert acc > q ==> acc * base >= (q + 1) * base;
    assert acc <= q ==> acc * base <= q * base;
  }

  function DigitChar(d: nat): char
    requires d < 16
  {
    "0123456789abcdef"[d]
  }

  lemma DigitCharValue(d: nat)
    requires d < 16
    ensures DigitOf(DigitChar(d)) == d
  {
  }

  /** The digits of a number, most significant first. */
  function Numeral(v: nat, base: nat): (s: string)
    requires 2 <= base <= 16
    ensures |s| >= 1
    decreases v
  {
    if v < base then [DigitChar(v)] else Numeral(v / base, base) + [DigitChar(v % base)]
  }

  lemma {:induction false} NumeralValue(v: nat, base: nat)
    requires 2 <= base <= 16
    ensures AllDigits(Numeral(v, base), base) && Value(Numeral(v, base), base) == v
    ensures v > 0 ==> DigitOf(Numeral(v, base)[0]) > 0
    decreases v
  {
    if v < base {
      DigitCharValue(v);
      assert Numeral(v, base)[..0] == [];
    } else {
      Quotient(v, base);
      NumeralValue(v / base, base);
      SnocValue(Numeral(v / base, base), v % base, base);
    }
  }

  /** Division by each base in turn is division by a constant. */
  lemma Quotient(v: nat, base: nat)
    requires 2 <= base <= 16
    ensures v == (v / base) * base + v % base && v % base < base && 2 * (v / base) <= v
    ensures base >= 4 ==> 4 * (v / base) <= v
    ensures v >= base <==> v / base > 0
    ensures v < base ==> v % base == v
  {
    if base == 2 {
    } else if base == 3 {
    } else if base == 4 {
    } else if base == 5 {
    } else if base == 6 {
    } else if base == 7 {
    } else if base == 8 {
    } else if base == 9 {
    } else if base == 10 {
    } else if base == 11 {
    } else if base == 12 {
    } else if base == 13 {
    } else if base == 14 {
    } else if base == 15 {
    }
  }

  lemma SnocValue(s: string, d: nat, base: nat)
    requires d < base <= 16 && AllDigits(s, base)
    ensures AllDigits(s + [DigitChar(d)], base) && Value(s + [DigitChar(d)], base) == Value(s, base) * base + d
  {
    DigitCharValue(d);
    assert (s + [DigitChar(d)])[..|s|] == s;
  }
}
