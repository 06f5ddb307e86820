/** Decimal rendering of natural numbers, as Python's `f"{i}"` writes a
    non-negative int: base ten, no sign, no leading zeros. The parser is the
    partner that shows the rendering is a bijection onto canonical digit
    strings, which is what makes chunk file names distinct. */
module Decimal {

  predicate IsDigit(c: char) {
    '0' <= c <= '9'
  }

  predicate IsDigitString(s: string) {
    forall i :: 0 <= i < |s| ==> IsDigit(s[i])
  }

  /** A digit string in the form Python prints: non-empty, and no leading zero
      unless the number is zero itself. */
  predicate IsCanonical(s: string) {
    |s| >= 1 && IsDigitString(s) && (|s| > 1 ==> s[0] != '0')
  }

  function DigitValue(c: char): (d: nat)
    requires IsDigit(c)
    ensures d < 10
  {
    (c as int) - ('0' as int)
  }

  function DigitChar(d: nat): (c: char)
    requires d < 10
    ensures IsDigit(c) && DigitValue(c) == d
  {
    (('0' as int) + d) as char
  }

  /** The decimal rendering of `n`. */
  function Digits(n: nat): (s: string)
    ensures IsCanonical(s)
    decreases n
  {
    if n < 10 then [DigitChar(n)] else Digits(n / 10) + [DigitChar(n % 10)]
  }

  /** The number a digit string denotes (most significant digit first). */
  function Value(s: string): nat
    requires IsDigitString(s)
  {
    if |s| == 0 then 0 else Value(s[..|s| - 1]) * 10 + DigitValue(s[|s| - 1])
  }

  /** Reading back a rendering gives the number that was rendered. */
  lemma {:induction false} ValueOfDigits(n: nat)
    ensures Value(Digits(n)) == n
    decreases n
  {
    if n >= 10 {
      var s := Digits(n);
      ValueOfDigits(n / 10);
      assert s[..|s| - 1] == Digits(n / 10);
    }
  }

  /** A number is never worth less than its leading digit. */
  lemma {:induction false} ValueAtLeastLeadingDigit(s: string)
    requires |s| >= 1 && IsDigitString(s)
    ensures Value(s) >= DigitValue(s[0])
    decreases |s|
  {
    if |s| > 1 {
      var p := s[..|s| - 1];
      ValueAtLeastLeadingDigit(p);
      assert p[0] == s[0];
    }
  }

  /** Rendering the value of a canonical digit string gives that string back. */
  lemma {:induction false} DigitsOfValue(s: string)
    requires IsCanonical(s)
    ensures Digits(Value(s)) == s
    decreases |s|
  {
    if |s| > 1 {
      var p := s[..|s| - 1];
      var d := DigitValue(s[|s| - 1]);
      assert IsCanonical(p) by {
        assert p[0] == s[0];
      }
      ValueAtLeastLeadingDigit(p);
      assert p[0] != '0';
      assert Value(p) >= 1;
      assert Value(s) == Value(p) * 10 + d;
      assert Value(s) / 10 == Value(p);
      assert Value(s) % 10 == d;
      DigitsOfValue(p);
      assert DigitChar(d) == s[|s| - 1];
      assert s == p + [s[|s| - 1]];
    }
  }

  /** Distinct numbers have distinct renderings. */
  lemma DigitsInjective(a: nat, b: nat)
    ensures Digits(a) == Digits(b) ==> a == b
  {
    ValueOfDigits(a);
    ValueOfDigits(b);
  }
}
