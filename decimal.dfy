/**
 * Decimal rendering of natural numbers, as a JavaScript template literal
 * `${n}` renders an integral, non-negative number below 10^21.
 */
module Decimal {

  predicate IsDigit(c: char)
  {
    '0' <= c <= '9'
  }

  predicate IsDigitString(s: string)
  {
    forall i :: 0 <= i < |s| ==> IsDigit(s[i])
  }

  function DigitChar(d: nat): (c: char)
    requires d < 10
    ensures IsDigit(c)
  {
    ('0' as int + d) as char
  }

  function DigitValue(c: char): (d: nat)
    requires IsDigit(c)
    ensures d < 10
  {
    c as int - '0' as int
  }

  /** The decimal digits of `n`, most significant first, without leading zeros. */
  function NatToString(n: nat): (s: string)
    ensures |s| > 0 && IsDigitString(s)
  {
    if n < 10 then [DigitChar(n)] else NatToString(n / 10) + [DigitChar(n % 10)]
  }

  /** Reads a string of decimal digits back as a number (the inverse of NatToString). */
  function StringToNat(s: string): nat
    requires IsDigitString(s)
  {
    if s == [] then 0 else 10 * StringToNat(s[..|s| - 1]) + DigitValue(s[|s| - 1])
  }

  lemma {:induction false} StringToNatOfNatToString(n: nat)
    ensures StringToNat(NatToString(n)) == n
  {
    var s := NatToString(n);
    if n < 10 {
      assert s[..|s| - 1] == [];
    } else {
      assert s[..|s| - 1] == NatToString(n / 10);
      StringToNatOfNatToString(n / 10);
    }
  }

  /** Decimal rendering is injective: two numbers render alike exactly when they are equal. */
  lemma NatToStringInjective(a: nat, b: nat)
    ensures NatToString(a) == NatToString(b) <==> a == b
  {
    if NatToString(a) == NatToString(b) {
      StringToNatOfNatToString(a);
      StringToNatOfNatToString(b);
    }
  }

  /**
   * A dash never occurs inside a digit string, so `p + "-" + x` splits at
   * its first dash in exactly one way.
   */
  lemma SplitAtDash(p: string, x: string, q: string, y: string)
    requires IsDigitString(p) && IsDigitString(q)
    requires p + "-" + x == q + "-" + y
    ensures p == q && x == y
  {
    var s, t := p + "-" + x, q + "-" + y;
    assert |p| < |q| ==> s[|p|] == '-' && t[|p|] == q[|p|] && IsDigit(q[|p|]);
    assert |q| < |p| ==> t[|q|] == '-' && s[|q|] == p[|q|] && IsDigit(p[|q|]);
    assert |p| == |q|;
    assert p == s[..|p|] && q == t[..|q|];
    assert x == s[|p| + 1..] && y == t[|q| + 1..];
  }
}
