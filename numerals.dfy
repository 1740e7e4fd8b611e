/** Unsigned numerals in base 10 and base 16: the digits an output stream
    prints in `std::dec` or `std::hex | std::uppercase` mode, and the value
    `strtol` reads back from a string of digits. */
module Numerals {

  /** The two radixes the generator switches its output stream between. */
  type Base = b: nat | b == 10 || b == 16 witness 10

  /** A character `strtol` accepts as a base-16 digit (either case). */
  predicate IsHexChar(c: char) {
    '0' <= c <= '9' || 'a' <= c <= 'f' || 'A' <= c <= 'F'
  }

  function DigitValue(c: char): (d: nat)
    requires IsHexChar(c)
    ensures d < 16
    ensures d < 10 <==> '0' <= c <= '9'
  {
    if '0' <= c <= '9' then c as int - '0' as int
    else if 'a' <= c <= 'f' then c as int - 'a' as int + 10
    else c as int - 'A' as int + 10
  }

  /** A digit of the given base. */
  predicate IsDigit(c: char, base: Base) {
    IsHexChar(c) && DigitValue(c) < base
  }

  predicate AllDigits(s: string, base: Base) {
    forall i :: 0 <= i < |s| ==> IsDigit(s[i], base)
  }

  /** The digit printed for `d` with `std::uppercase` in effect. */
  function DigitChar(d: nat): (c: char)
    requires d < 16
    ensures IsHexChar(c) && DigitValue(c) == d
    ensures !('a' <= c <= 'f')
  {
    if d < 10 then ('0' as int + d) as char else ('A' as int + d - 10) as char
  }

  /** The value of a digit string, most significant digit first; the empty
      string has value 0. */
  function ValueOf(s: string, base: Base): nat
    requires AllDigits(s, base)
    decreases |s|
  {
    if s == [] then 0 else ValueOf(s[..|s| - 1], base) * base + DigitValue(s[|s| - 1])
  }

  /** The form a stream prints: at least one digit, upper case, and no
      leading zero unless the numeral is "0" itself. */
  predicate IsCanonical(s: string, base: Base) {
    && |s| > 0
    && AllDigits(s, base)
    && (forall i :: 0 <= i < |s| ==> !('a' <= s[i] <= 'f'))
    && (s[0] == '0' ==> |s| == 1)
  }

  /** What `out << n` writes for an unsigned `n` in the given base. */
  function Numeral(n: nat, base: Base): (r: string)
    ensures IsCanonical(r, base)
    ensures r[0] == '0' ==> n == 0
    decreases n
  {
    if n < base then [DigitChar(n)] else Numeral(n / base, base) + [DigitChar(n % base)]
  }

  lemma DivMod(q: nat, d: nat, base: Base)
    requires d < base
    ensures (q * base + d) / base == q && (q * base + d) % base == d
  {
    if base == 10 {
      assert (q * 10 + d) / 10 == q;
    } else {
      assert (q * 16 + d) / 16 == q;
    }
  }

  /** Reading a printed numeral back gives the number that was printed. */
  lemma {:induction false} ValueOfNumeral(n: nat, base: Base)
    ensures ValueOf(Numeral(n, base), base) == n
    decreases n
  {
    var r := Numeral(n, base);
    if n < base {
      assert r[..|r| - 1] == [];
    } else {
      var p := Numeral(n / base, base);
      assert r[..|r| - 1] == p;
      ValueOfNumeral(n / base, base);
      DivMod(n / base, n % base, base);
    }
  }

  lemma DigitCharOfValue(c: char)
    requires IsHexChar(c) && !('a' <= c <= 'f')
    ensures DigitChar(DigitValue(c)) == c
  {
  }

  lemma {:induction false} ValuePositive(s: string, base: Base)
    requires |s| > 0 && AllDigits(s, base) && s[0] != '0'
    ensures ValueOf(s, base) > 0
    decreases |s|
  {
    if |s| > 1 {
      var p := s[..|s| - 1];
      assert p[0] == s[0];
      ValuePositive(p, base);
    }
  }

  /** A number with a nonzero leading part prints as that part followed by
      its last digit. */
  lemma NumeralStep(q: nat, d: nat, base: Base)
    requires 0 < q && d < base
    ensures Numeral(q * base + d, base) == Numeral(q, base) + [DigitChar(d)]
  {
    DivMod(q, d, base);
  }

  /** A canonical numeral of two or more digits is a canonical numeral of
      positive value followed by one more digit. */
  lemma CanonicalStep(s: string, base: Base)
    requires IsCanonical(s, base) && |s| > 1
    ensures var p := s[..|s| - 1];
            && IsCanonical(p, base)
            && ValueOf(p, base) > 0
            && ValueOf(s, base) == ValueOf(p, base) * base + DigitValue(s[|s| - 1])
            && s == p + [s[|s| - 1]]
  {
    var p := s[..|s| - 1];
    assert p[0] == s[0];
    ValuePositive(p, base);
  }

  /** Every canonical numeral is what the stream prints for its own value:
      together with ValueOfNumeral, printing is a bijection between numbers
      and canonical numerals. */
  lemma {:induction false} NumeralOfValue(s: string, base: Base)
    requires IsCanonical(s, base)
    ensures Numeral(ValueOf(s, base), base) == s
    decreases |s|
  {
    var c := s[|s| - 1];
    DigitCharOfValue(c);
    if |s| > 1 {
      var p := s[..|s| - 1];
      CanonicalStep(s, base);
      NumeralOfValue(p, base);
      NumeralStep(ValueOf(p, base), DigitValue(c), base);
    } else {
      assert s == [c];
    }
  }
}
