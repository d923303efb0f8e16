/** Printing integers and reading them back, in 64-bit arithmetic. */
module NumberText {
  import opened Numerals

  /** The size of the buffer that digits are stored in. */
  const DIGITS := 32

  const ULONG_MAX := 0xffff_ffff_ffff_ffff
  const LONG_MAX := 0x7fff_ffff_ffff_ffff
  const LONG_MIN := -0x8000_0000_0000_0000

  function Reversed(s: string): (r: string)
    ensures |r| == |s| && forall i :: 0 <= i < |s| ==> r[i] == s[|s| - 1 - i]
  {
    seq(|s|, i requires 0 <= i < |s| => s[|s| - 1 - i])
  }

  method ReverseBuffer(buf: array<char>, len: nat)
    requires len <= buf.Length
    modifies buf
    ensures buf[..len] == Reversed(old(buf[..len])) && buf[len..] == old(buf[len..])
  {
    var i := 0;
    while i < len / 2
      invariant i <= len / 2
      invariant forall k :: 0 <= k < i ==> buf[k] == old(buf[len - 1 - k]) && buf[len - 1 - k] == old(buf[k])
      invariant forall k :: i <= k < len - i ==> buf[k] == old(buf[k])
      invariant buf[len..] == old(buf[len..])
    {
      buf[i], buf[len - 1 - i] := buf[len - 1 - i], buf[i];
      i := i + 1;
    }
    assert forall k :: 0 <= k < len ==> buf[k] == old(buf[len - 1 - k]);
  }

  function Pow4(n: nat): (p: nat)
    ensures p >= 1
  {
    if n == 0 then 1 else 4 * Pow4(n - 1)
  }

  lemma WordIsPow4()
    ensures Pow4(32) == ULONG_MAX + 1
  {
    assert Pow4(8) == 0x1_0000;
    assert Pow4(16) == 0x1_0000_0000;
    assert Pow4(24) == 0x1_0000_0000_0000;
  }

  lemma NumeralStep(v: nat, base: nat, q: nat, d: char, done: string, whole: string)
    requires 2 <= base <= 16 && v > 0 && whole == Numeral(v, base) + Reversed(done)
    requires q == v / base && d == DigitChar(v % base)
    ensures q < v && whole == if q == 0 then Reversed(done + [d]) else Numeral(q, base) + Reversed(done + [d])
    ensures |done| < |whole|
  {
    assert Reversed(done + [d]) == [d] + Reversed(done);
    Quotient(v, base);
    if v >= base {
      assert Numeral(q, base) + [d] + Reversed(done) == Numeral(q, base) + ([d] + Reversed(done));
    }
  }

  lemma {:induction false} NumeralFits(v: nat, base: nat, room: nat)
    requires 4 <= base <= 16 && room >= 1 && v < Pow4(room)
    ensures |Numeral(v, base)| <= room
    decreases v
  {
    if v >= base {
      Quotient(v, base);
      NumeralFits(v / base, base, room - 1);
    }
  }

  lemma WordFits(v: nat, base: nat)
    requires v <= ULONG_MAX && 4 <= base <= 16
    ensures |Numeral(v, base)| <= DIGITS
  {
    WordIsPow4();
    NumeralFits(v, base, DIGITS);
  }

  function Pow3(n: nat): (p: nat)
    ensures p >= 1
  {
    if n == 0 then 1 else 3 * Pow3(n - 1)
  }

  lemma {:induction false} NumeralIsLong(v: nat, base: nat, k: nat)
    requires 2 <= base <= 3 && v >= Pow3(k)
    ensures |Numeral(v, base)| > k
    decreases k
  {
    if k > 0 {
      Quotient(v, base);
      NumeralIsLong(v / base, base, k - 1);
    }
  }

  /** The buffer holds the digits of every word exactly from base 4 on; below, those
      of the largest word run past its end. */
  lemma WordsFitIff(base: nat)
    requires 2 <= base <= 16
    ensures (forall v: nat :: v <= ULONG_MAX ==> |Numeral(v, base)| <= DIGITS) <==> base >= 4
    ensures base < 4 ==> |Numeral(ULONG_MAX, base)| > DIGITS
  {
    if base >= 4 {
      forall v: nat | v <= ULONG_MAX ensures |Numeral(v, base)| <= DIGITS { WordFits(v, base); }
    } else {
      assert Pow3(8) == 6561;
      assert Pow3(16) == 43046721;
      assert Pow3(24) == 282429536481;
      assert Pow3(32) == 1853020188851841;
      NumeralIsLong(ULONG_MAX, base, DIGITS);
    }
  }

  /** Stores the digits of a word backwards in a buffer of 32 characters. */
  method StoreDigits(value: nat, base: nat, tmp: array<char>) returns (len: nat)
    requires 2 <= base <= 16 && |Numeral(value, base)| <= DIGITS && tmp.Length == DIGITS
    modifies tmp
    ensures len <= DIGITS && Reversed(tmp[..len]) == Numeral(value, base)
  {
    if value == 0 {
      tmp[0] := '0';
      assert tmp[..1] == ['0'];
      return 1;
    }
    len := 0;
    var v := value;
    ghost var whole, done := Numeral(value, base), [];
    assert whole + Reversed([]) == whole;
    while v != 0
      invariant 0 <= v && len <= DIGITS && done == tmp[..len]
      invariant whole == if v == 0 then Reversed(done) else Numeral(v, base) + Reversed(done)
      decreases v
    {
      var q, d := v / base, DigitChar(v % base);
      NumeralStep(v, base, q, d, done, whole);
      tmp[len] := d;
      done := done + [d];
      len, v := len + 1, q;
    }
  }

  method Digits(value: nat, base: nat) returns (s: string)
    requires 2 <= base <= 16 && |Numeral(value, base)| <= DIGITS
    ensures s == Numeral(value, base)
  {
    var tmp := new char[DIGITS];
    var len := StoreDigits(value, base, tmp);
    ReverseBuffer(tmp, len);
    s := tmp[..len];
  }

  function Spaces(n: nat): (s: string)
    ensures |s| == n && forall i :: 0 <= i < n ==> s[i] == ' '
  {
    seq(n, _ => ' ')
  }

  /** A field of at least `width` characters, blanks first. */
  function Padded(text: string, width: int): string {
    (if width > |text| then Spaces(width - |text|) else []) + text
  }

  /** Prints a word in any base for which its digits fit the buffer. */
  method FormatUnsigned(value: nat, base: nat, width: int, prefix: string) returns (s: string)
    requires 2 <= base <= 16 && |Numeral(value, base)| <= DIGITS
    ensures s == Padded(prefix + Numeral(value, base), width)
  {
    var digits := Digits(value, base);
    var len := |prefix| + |digits|;
    s := (if width > len then Spaces(width - len) else []) + (prefix + digits);
  }

  /** The magnitude is taken without negating the least value. */
  method FormatSigned(value: int, width: int) returns (s: string)
    requires LONG_MIN <= value <= LONG_MAX
    ensures s == Padded(if value < 0 then "-" + Numeral(-value, 10) else Numeral(value, 10), width)
  {
    var magnitude, prefix := value, "";
    if value < 0 {
      prefix, magnitude := "-", -(value + 1) + 1;
    }
    WordFits(magnitude, 10);
    s := FormatUnsigned(magnitude, 10, width, prefix);
    assert "" + Numeral(magnitude, 10) == Numeral(magnitude, 10);
  }
}
