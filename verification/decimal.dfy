/** Decimal rendering of process identifiers, as `strconv.Itoa` does for a
    non-negative `int`, together with the parser that inverts it. */
module Decimal {

  /** The character for a single decimal digit. */
  function DigitChar(d: nat): (c: char)
    requires d < 10
    ensures '0' <= c <= '9'
  {
    (('0' as int) + d) as char
  }

  /** The value of a decimal digit character. */
  function DigitValue(c: char): (d: nat)
    requires '0' <= c <= '9'
    ensures d < 10
  {
    (c as int) - ('0' as int)
  }

  predicate IsDigits(s: string)
  {
    forall i :: 0 <= i < |s| ==> '0' <= s[i] <= '9'
  }

  /** A canonical decimal numeral: non-empty, digits only, and no leading zero
      unless the numeral is "0" itself. */
  predicate IsCanonical(s: string)
  {
    |s| >= 1 && IsDigits(s) && (|s| > 1 ==> s[0] != '0')
  }

  /** Base-10 rendering of `n` without sign or padding. */
  function Itoa(n: nat): (s: string)
    ensures IsCanonical(s)
    ensures n < 10 <==> |s| == 1
    decreases n
  {
    if n < 10 then [DigitChar(n)] else Itoa(n / 10) + [DigitChar(n % 10)]
  }

  /** Value of a string of decimal digits (most significant first). */
  function Atoi(s: string): (n: nat)
    requires IsDigits(s)
    decreases |s|
  {
    if s == [] then 0 else 10 * Atoi(s[..|s| - 1]) + DigitValue(s[|s| - 1])
  }

  /** Parsing the rendering of `n` gives back `n`. */
  lemma {:induction false} AtoiItoa(n: nat)
    ensures Atoi(Itoa(n)) == n
    decreases n
  {
    if n >= 10 {
      var s := Itoa(n);
      assert s[..|s| - 1] == Itoa(n / 10);
      AtoiItoa(n / 10);
    }
  }

  /** Rendering the value of a canonical numeral gives back the numeral. */
  lemma {:induction false} ItoaAtoi(s: string)
    requires IsCanonical(s)
    ensures Itoa(Atoi(s)) == s
    decreases |s|
  {
    if |s| == 1 {
      assert Atoi(s) == DigitValue(s[0]) by { assert s[..0] == []; }
    } else {
      var p := s[..|s| - 1];
      assert IsCanonical(p);
      ItoaAtoi(p);
      LeadingDigitBound(p);
      var n := Atoi(s);
      assert n / 10 == Atoi(p) && n % 10 == DigitValue(s[|s| - 1]);
      assert s == p + [s[|s| - 1]];
    }
  }

  /** A canonical numeral of two or more digits has value at least 10^(k-1) >= 1. */
  lemma {:induction false} LeadingDigitBound(s: string)
    requires IsCanonical(s)
    ensures |s| > 1 ==> Atoi(s) >= 10
    ensures Atoi(s) >= 1 || s == "0"
    decreases |s|
  {
    if |s| > 1 {
      var p := s[..|s| - 1];
      assert IsCanonical(p);
      LeadingDigitBound(p);
      if |p| == 1 {
        assert p[..0] == [];
        assert Atoi(p) == DigitValue(p[0]) >= 1;
      }
    } else {
      assert s[..0] == [];
    }
  }

  /** Distinct numbers render to distinct strings. */
  lemma ItoaInjective(m: nat, n: nat)
    ensures Itoa(m) == Itoa(n) <==> m == n
  {
    AtoiItoa(m);
    AtoiItoa(n);
  }
}
