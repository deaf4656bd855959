/** Decimal numerals, as printf writes them. */
module Decimals {
  function DigitChar(d: nat): (c: char)
    requires d < 10
    ensures '0' <= c <= '9' && (c - '0') as nat == d
  {
    '0' + d as char
  }

  predicate IsDigit(c: char) { '0' <= c <= '9' }

  function DigitValue(c: char): nat requires IsDigit(c) { (c - '0') as nat }

  function Numeral(n: nat): (s: string)
    ensures |s| > 0 && forall i :: 0 <= i < |s| ==> IsDigit(s[i])
  {
    if n < 10 then [DigitChar(n)] else Numeral(n / 10) + [DigitChar(n % 10)]
  }

  /** %lld. */
  function Integer(n: int): (s: string)
    ensures |s| > 0 && (s[0] == '-' || IsDigit(s[0])) && forall i :: 1 <= i < |s| ==> IsDigit(s[i])
  {
    if n < 0 then "-" + Numeral(-n) else Numeral(n)
  }

  function Pow10(k: nat): (p: nat)
    ensures p > 0
  {
    if k == 0 then 1 else 10 * Pow10(k - 1)
  }

  lemma {:induction false} NumeralLength(n: nat, k: nat)
    requires k > 0 && n < Pow10(k)
    ensures |Numeral(n)| <= k
    decreases k
  {
    if n >= 10 {
      assert n < 10 * Pow10(k - 1);
      NumeralLength(n / 10, k - 1);
    }
  }

  /** The value of a string of digits. */
  function ValueOf(s: string): nat
    requires forall i :: 0 <= i < |s| ==> IsDigit(s[i])
  {
    if s == [] then 0 else 10 * ValueOf(s[..|s| - 1]) + DigitValue(s[|s| - 1])
  }

  /** The value of digits after an optional minus. */
  function SignedValue(s: string): int
    requires s != [] && (s[0] == '-' || IsDigit(s[0])) && forall i :: 1 <= i < |s| ==> IsDigit(s[i])
  {
    if s[0] == '-' then 0 - ValueOf(s[1..]) else ValueOf(s)
  }

  /** Printed integers spell their number. */
  lemma {:induction false} IntegerSpells(n: int)
    ensures SignedValue(Integer(n)) == n
  {
    if n < 0 {
      assert Integer(n)[1..] == Numeral(-n);
      ValueOfNumeral(-n);
    } else {
      ValueOfNumeral(n);
    }
  }

  lemma {:induction false} ValueOfNumeral(n: nat)
    ensures ValueOf(Numeral(n)) == n
  {
    var s := Numeral(n);
    if n >= 10 {
      ValueOfNumeral(n / 10);
      assert s[..|s| - 1] == Numeral(n / 10);
    } else {
      assert s[..|s| - 1] == [];
    }
  }
}
