/** strtol and strtoul: blanks, sign, base prefix, digits, range. */
module NumberParse {
  import opened Numerals
  import opened NumberText

  predicate IsSpace(c: char) { c == ' ' || c == '\t' || c == '\n' || c == '\r' || c == '\U{0c}' || c == '\U{0b}' }

  /** How many blanks a text starts with. */
  function Blanks(s: string): (n: nat)
    ensures n <= |s| && (forall i :: 0 <= i < n ==> IsSpace(s[i])) && (n < |s| ==> !IsSpace(s[n]))
  {
    if s == [] || !IsSpace(s[0]) then 0 else 1 + Blanks(s[1..])
  }

  /** What comes before the digits: where they start, the sign and the base. */
  datatype Intro = Intro(start: nat, negative: bool, base: nat)

  function AfterSign(s: string): (nat, bool) {
    var i := Blanks(s);
    if i < |s| && (s[i] == '+' || s[i] == '-') then (i + 1, s[i] == '-') else (i, false)
  }

  predicate HexPrefix(s: string, at: nat) { at + 1 < |s| && s[at] == '0' && (s[at + 1] == 'x' || s[at + 1] == 'X') }

  function IntroOf(s: string, base: nat): (r: Intro)
    ensures r.start <= |s| && (base != 0 ==> r.base == base) && (base == 0 ==> r.base in {8, 10, 16})
  {
    var (i, negative) := AfterSign(s);
    if (base == 0 || base == 16) && HexPrefix(s, i) then Intro(i + 2, negative, 16)
    else if base == 0 then Intro(i, negative, if i < |s| && s[i] == '0' then 8 else 10)
    else Intro(i, negative, base)
  }

  datatype Errno = Fine | Invalid | Range

  /** The number, how many characters it took, and the error if any. */
  datatype Parsed = Parsed(value: int, end: nat, errno: Errno)

  predicate GoodBase(base: int) { base == 0 || 2 <= base <= 36 }

  function DigitsAt(s: string, i: Intro): nat
    requires i.start <= |s|
  {
    Run(s[i.start..], i.base)
  }

  /** The number the digits denote, without its sign. */
  function Magnitude(s: string, i: Intro): nat
    requires i.start <= |s|
  {
    Value(s[i.start..][..DigitsAt(s, i)], i.base)
  }

  /** The signed number, clamped to a long; nothing is consumed without digits. */
  function Signed(s: string, i: Intro): Parsed
    requires i.start <= |s|
  {
    var n := DigitsAt(s, i);
    var v: int := if i.negative then 0 - Magnitude(s, i) else Magnitude(s, i);
    if n == 0 then Parsed(0, 0, Fine)
    else if v > LONG_MAX then Parsed(LONG_MAX, i.start + n, Range)
    else if v < LONG_MIN then Parsed(LONG_MIN, i.start + n, Range)
    else Parsed(v, i.start + n, Fine)
  }

  /** The unsigned number, clamped to a word; a minus sign negates it modulo the
      word size. */
  function Unsigned(s: string, i: Intro): Parsed
    requires i.start <= |s|
  {
    var n := DigitsAt(s, i);
    var v := Magnitude(s, i);
    if n == 0 then Parsed(0, 0, Fine)
    else if v > ULONG_MAX then Parsed(ULONG_MAX, i.start + n, Range)
    else Parsed(if i.negative then (ULONG_MAX + 1 - v) % (ULONG_MAX + 1) else v, i.start + n, Fine)
  }

  /** Accumulates digits; once the number passes the limit it stays past it. */
  method Accumulate(s: string, base: nat, limit: nat) returns (n: nat, acc: nat, overflow: bool)
    requires 2 <= base <= 36 && limit >= 36
    ensures n == Run(s, base)
    ensures overflow <==> Value(s[..n], base) > limit
    ensures !overflow ==> acc == Value(s[..n], base)
  {
    n, acc, overflow := 0, 0, false;
    assert s[..0] == [];
    ghost var v := 0;
    while n < |s| && IsDigit(s[n], base)
      invariant n <= |s| && AllDigits(s[..n], base) && v == Value(s[..n], base)
      invariant overflow <==> v > limit
      invariant !overflow ==> acc == v
    {
      var digit := DigitOf(s[n]);
      ValueNext(s, n, base);
      Grows(v, base);
      var over, next := AddDigit(acc, digit, base, limit);
      overflow, acc := overflow || over, next;
      v, n := Value(s[..n + 1], base), n + 1;
    }
    RunOfDigits(s, n, base);
  }

  /** One more digit, unless the number would pass the limit. */
  method AddDigit(acc: nat, digit: nat, base: nat, limit: nat) returns (over: bool, next: nat)
    requires base > 0 && digit <= limit
    ensures over <==> acc * base + digit > limit
    ensures next == if over then acc else acc * base + digit
  {
    DivisionTest(acc, digit, base, limit);
    over := acc > (limit - digit) / base;
    next := if over then acc else acc * base + digit;
  }

  lemma Grows(v: nat, base: nat)
    requires base > 0
    ensures v * base >= v
  {
  }

  method SkipBlanks(s: string) returns (i: nat)
    ensures i == Blanks(s)
  {
    i := 0;
    while i < |s| && IsSpace(s[i])
      invariant i <= |s| && forall j :: 0 <= j < i ==> IsSpace(s[j])
    {
      i := i + 1;
    }
    BlanksAre(s, i);
  }

  lemma {:induction false} BlanksAre(s: string, n: nat)
    requires n <= |s| && (forall i :: 0 <= i < n ==> IsSpace(s[i])) && (n < |s| ==> !IsSpace(s[n]))
    ensures Blanks(s) == n
  {
    if n > 0 { BlanksAre(s[1..], n - 1); }
  }

  method ReadIntro(s: string, base: nat) returns (i: Intro)
    ensures i == IntroOf(s, base)
  {
    var at := SkipBlanks(s);
    var negative := false;
    if at < |s| && (s[at] == '+' || s[at] == '-') {
      negative, at := s[at] == '-', at + 1;
    }
    if (base == 0 || base == 16) && HexPrefix(s, at) {
      i := Intro(at + 2, negative, 16);
    } else if base == 0 {
      i := Intro(at, negative, if at < |s| && s[at] == '0' then 8 else 10);
    } else {
      i := Intro(at, negative, base);
    }
  }

  method Strtol(s: string, base: int) returns (r: Parsed)
    ensures r == if GoodBase(base) then Signed(s, IntroOf(s, base)) else Parsed(0, 0, Invalid)
  {
    if !GoodBase(base) { return Parsed(0, 0, Invalid); }
    var i := ReadIntro(s, base);
    var limit := if i.negative then LONG_MAX + 1 else LONG_MAX;
    var n, acc, overflow := Accumulate(s[i.start..], i.base, limit);
    if n == 0 { return Parsed(0, 0, Fine); }
    if overflow { return Parsed(if i.negative then LONG_MIN else LONG_MAX, i.start + n, Range); }
    r := Parsed(if i.negative then -(acc as int) else acc, i.start + n, Fine);
  }

  method Strtoul(s: string, base: int) returns (r: Parsed)
    ensures r == if GoodBase(base) then Unsigned(s, IntroOf(s, base)) else Parsed(0, 0, Invalid)
  {
    if !GoodBase(base) { return Parsed(0, 0, Invalid); }
    var i := ReadIntro(s, base);
    var n, acc, overflow := Accumulate(s[i.start..], i.base, ULONG_MAX);
    if n == 0 { return Parsed(0, 0, Fine); }
    if overflow { return Parsed(ULONG_MAX, i.start + n, Range); }
    r := Parsed(if i.negative then (ULONG_MAX + 1 - acc) % (ULONG_MAX + 1) else acc, i.start + n, Fine);
  }

  /** Text made of blanks, an introduction and digits is read back whole. */
  lemma DigitsRead(s: string, i: Intro, digits: string)
    requires i.start <= |s| && s[i.start..] == digits && AllDigits(digits, i.base)
    ensures DigitsAt(s, i) == |digits| && Magnitude(s, i) == Value(digits, i.base)
  {
    assert digits[..|digits|] == digits;
    RunOfDigits(digits, |digits|, i.base);
  }

  lemma PaddedBlanks(text: string, width: int) returns (k: nat)
    requires text != [] && !IsSpace(text[0])
    ensures k + |text| == |Padded(text, width)| && Blanks(Padded(text, width)) == k && Padded(text, width)[k..] == text
  {
    var s := Padded(text, width);
    k := |s| - |text|;
    assert s[k] == text[0];
    BlanksAre(s, k);
  }

  /** Digits of a base up to 16 start neither a blank, a sign nor an x. */
  lemma DigitIsPlain(c: char)
    requires IsDigit(c, 16)
    ensures !IsSpace(c) && c != '+' && c != '-' && c != 'x' && c != 'X'
  {
  }

  lemma NumeralIsPlain(v: nat, base: nat, i: nat)
    requires 2 <= base <= 16 && i < |Numeral(v, base)|
    ensures IsDigit(Numeral(v, base)[i], 16)
  {
    NumeralValue(v, base);
    assert IsDigit(Numeral(v, base)[i], base);
  }

  lemma PlainIntro(s: string, k: nat, base: nat)
    requires Blanks(s) == k < |s| && IsDigit(s[k], 16) && (k + 1 < |s| ==> IsDigit(s[k + 1], 16)) && base > 0
    ensures IntroOf(s, base) == Intro(k, false, base)
  {
    DigitIsPlain(s[k]);
    if k + 1 < |s| { DigitIsPlain(s[k + 1]); }
  }

  lemma HexIntro(s: string, k: nat, base: nat)
    requires Blanks(s) == k && k + 1 < |s| && s[k] == '0' && s[k + 1] == 'x' && base in {0, 16}
    ensures IntroOf(s, base) == Intro(k + 2, false, 16)
  {
  }

  lemma MinusIntro(s: string, k: nat)
    requires Blanks(s) == k < |s| && s[k] == '-'
    ensures IntroOf(s, 10) == Intro(k + 1, true, 10)
  {
  }

  lemma UnsignedDigits(s: string, i: Intro, v: nat)
    requires 2 <= i.base <= 16 && i.start <= |s| && s[i.start..] == Numeral(v, i.base) && v <= ULONG_MAX && !i.negative
    ensures Unsigned(s, i) == Parsed(v, |s|, Fine)
  {
    NumeralValue(v, i.base);
    DigitsRead(s, i, Numeral(v, i.base));
  }

  lemma SignedDigits(s: string, i: Intro, v: int)
    requires LONG_MIN <= v <= LONG_MAX && i.base == 10 && i.start <= |s| && i.negative == (v < 0)
    requires s[i.start..] == Numeral(if v < 0 then -v else v, 10)
    ensures Signed(s, i) == Parsed(v, |s|, Fine)
  {
    var m := if v < 0 then -v else v;
    NumeralValue(m, 10);
    DigitsRead(s, i, Numeral(m, 10));
  }

  /** What `%lu` and `%lx` print, in any width, strtoul reads back. */
  lemma UnsignedRoundTrip(v: nat, base: nat, width: int)
    requires v <= ULONG_MAX && 4 <= base <= 16
    ensures var s := Padded(Numeral(v, base), width);
      Unsigned(s, IntroOf(s, base)) == Parsed(v, |s|, Fine)
  {
    var digits := Numeral(v, base);
    NumeralIsPlain(v, base, 0);
    DigitIsPlain(digits[0]);
    var s := Padded(digits, width);
    var k := PaddedBlanks(digits, width);
    assert s[k] == s[k..][0];
    if |digits| > 1 {
      NumeralIsPlain(v, base, 1);
      assert s[k + 1] == s[k..][1];
    }
    PlainIntro(s, k, base);
    UnsignedDigits(s, Intro(k, false, base), v);
  }

  /** The same with the prefix that `%p` prints, in base 16 or an open base. */
  lemma PrefixedRoundTrip(v: nat, base: nat, width: int)
    requires v <= ULONG_MAX && base in {0, 16}
    ensures var s := Padded("0x" + Numeral(v, 16), width);
      Unsigned(s, IntroOf(s, base)) == Parsed(v, |s|, Fine)
  {
    var text := "0x" + Numeral(v, 16);
    var s := Padded(text, width);
    var k := PaddedBlanks(text, width);
    assert s[k] == s[k..][0] && s[k + 1] == s[k..][1];
    assert s[k + 2..] == s[k..][2..] && text[2..] == Numeral(v, 16);
    HexIntro(s, k, base);
    UnsignedDigits(s, Intro(k + 2, false, 16), v);
  }

  /** What `%ld` prints, in any width, strtol reads back, the least value included. */
  lemma SignedRoundTrip(v: int, width: int)
    requires LONG_MIN <= v <= LONG_MAX
    ensures var s := Padded(if v < 0 then "-" + Numeral(-v, 10) else Numeral(v, 10), width);
      Signed(s, IntroOf(s, 10)) == Parsed(v, |s|, Fine)
  {
    if v < 0 {
      var text := "-" + Numeral(-v, 10);
      var s := Padded(text, width);
      var k := PaddedBlanks(text, width);
      assert s[k] == s[k..][0];
      assert s[k + 1..] == s[k..][1..] && text[1..] == Numeral(-v, 10);
      MinusIntro(s, k);
      SignedDigits(s, Intro(k + 1, true, 10), v);
    } else {
      PlainRead(v, width);
    }
  }

  lemma PlainRead(v: nat, width: int)
    requires v <= LONG_MAX
    ensures var s := Padded(Numeral(v, 10), width);
      Signed(s, IntroOf(s, 10)) == Parsed(v, |s|, Fine)
  {
    var digits := Numeral(v, 10);
    NumeralIsPlain(v, 10, 0);
    DigitIsPlain(digits[0]);
    var s := Padded(digits, width);
    var k := PaddedBlanks(digits, width);
    assert s[k] == s[k..][0];
    if |digits| > 1 {
      NumeralIsPlain(v, 10, 1);
      assert s[k + 1] == s[k..][1];
    }
    PlainIntro(s, k, 10);
    SignedDigits(s, Intro(k, false, 10), v);
  }

  /** The introduction as section 7.22.1.4 of ISO/IEC 9899:2018 has it: a hex
      prefix counts only in front of a hexadecimal digit. */
  function IsoIntro(s: string, base: nat): (r: Intro)
    ensures r.start <= |s|
  {
    var (i, negative) := AfterSign(s);
    if (base == 0 || base == 16) && HexPrefix(s, i) && i + 2 < |s|
      && IsDigit(s[i + 2], 16) then Intro(i + 2, negative, 16)
    else if base == 0 then Intro(i, negative, if i < |s| && s[i] == '0' then 8 else 10)
    else Intro(i, negative, base)
  }

  /** A hex prefix with no hexadecimal digit after it. */
  predicate BareHex(s: string, base: nat) {
    var i := AfterSign(s).0;
    (base == 0 || base == 16) && HexPrefix(s, i) && (i + 2 == |s| || !IsDigit(s[i + 2], 16))
  }

  /** On a bare hex prefix nothing is consumed where the standard consumes the
      zero; everywhere else the two agree. */
  lemma AgreesWithIsoIff(s: string, base: nat)
    requires GoodBase(base)
    ensures Signed(s, IntroOf(s, base)) == Signed(s, IsoIntro(s, base)) <==> !BareHex(s, base)
    ensures Unsigned(s, IntroOf(s, base)) == Unsigned(s, IsoIntro(s, base)) <==> !BareHex(s, base)
  {
    if BareHex(s, base) {
      var i := AfterSign(s).0;
      assert DigitsAt(s, IntroOf(s, base)) == 0 by { assert i + 2 < |s| ==> s[i + 2..][0] == s[i + 2]; }
      BareZero(s, i, IsoIntro(s, base));
    }
  }

  /** The shortest such text: the standard stops after the zero, the code before it. */
  lemma BareHexStops()
    ensures Signed("0x", IntroOf("0x", 0)) == Parsed(0, 0, Fine)
    ensures Signed("0x", IsoIntro("0x", 0)) == Parsed(0, 1, Fine)
  {
    assert AfterSign("0x") == (0, false);
    AgreesWithIsoIff("0x", 0);
    BareZero("0x", 0, IsoIntro("0x", 0));
  }

  lemma BareZero(s: string, i: nat, r: Intro)
    requires HexPrefix(s, i) && r.start == i && r.base in {8, 16}
    ensures DigitsAt(s, r) == 1 && Magnitude(s, r) == 0
  {
    var t := s[i..];
    assert t[0] == '0' && t[1] == s[i + 1] && t[..1] == ['0'] && t[..1][..0] == [];
    RunOfDigits(t, 1, r.base);
    assert Value(t[..1], r.base) == Value([], r.base) * r.base + 0;
  }
}
