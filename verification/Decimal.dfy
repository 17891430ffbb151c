// Decimal rendering of integers, and that different integers render differently.
module Decimal {

  function Digit(d: nat): char
    requires d < 10
  {
    '0' + d as char
  }

  function OfNat(n: nat): (s: string)
    ensures s != "" && s[0] != '-'
  {
    if n < 10 then [Digit(n)] else OfNat(n / 10) + [Digit(n % 10)]
  }

  function OfInt(n: int): string {
    if n < 0 then "-" + OfNat(-n) else OfNat(n)
  }

  lemma {:induction false} OfNatInjective(m: nat, n: nat)
    requires OfNat(m) == OfNat(n)
    ensures m == n
  {
    var s, t := OfNat(m), OfNat(n);
    assert s[|s| - 1] == Digit(m % 10) && t[|t| - 1] == Digit(n % 10);
    if m >= 10 && n >= 10 {
      assert s[..|s| - 1] == OfNat(m / 10) && t[..|t| - 1] == OfNat(n / 10);
      OfNatInjective(m / 10, n / 10);
    }
  }

  lemma OfIntInjective(m: int, n: int)
    requires OfInt(m) == OfInt(n)
    ensures m == n
  {
    if m < 0 && n < 0 {
      assert OfInt(m)[1..] == OfNat(-m) && OfInt(n)[1..] == OfNat(-n);
      OfNatInjective(-m, -n);
    } else if m >= 0 && n >= 0 {
      OfNatInjective(m, n);
    }
  }

  // The number that a string of digits denotes.
  function Value(s: string): int {
    if s == "" then 0 else 10 * Value(s[..|s| - 1]) + (s[|s| - 1] as int - '0' as int)
  }

  // The digits denote the number, and begin with 0 only for zero.
  lemma {:induction false} OfNatDenotes(n: nat)
    ensures Value(OfNat(n)) == n && forall i | 0 <= i < |OfNat(n)| :: '0' <= OfNat(n)[i] <= '9'
    ensures OfNat(n)[0] == '0' ==> n == 0
    ensures n < 10 ==> |OfNat(n)| == 1
  {
    if n < 10 {
      assert OfNat(n)[..0] == "";
    } else {
      OfNatDenotes(n / 10);
      var s := OfNat(n);
      assert s[..|s| - 1] == OfNat(n / 10);
    }
  }
}
