/** Decimal numerals of natural numbers, as `String(n)` writes them. */
module Numerals {
  import opened Wrappers

  /** The decimal numeral of a natural number. */
  function Decimal(n: nat): (s: string)
    ensures |s| > 0 && forall i :: 0 <= i < |s| ==> '0' <= s[i] <= '9'
    ensures n > 0 ==> s[0] != '0'
  {
    if n < 10 then [('0' as int + n) as char] else Decimal(n / 10) + [('0' as int + n % 10) as char]
  }

  lemma {:induction false} DecimalInjective(m: nat, n: nat)
    requires Decimal(m) == Decimal(n)
    ensures m == n
  {
    var s := Decimal(m);
    if m >= 10 && n >= 10 {
      assert Decimal(m / 10) == s[..|s| - 1] == Decimal(n / 10);
      DecimalInjective(m / 10, n / 10);
    }
  }

  /** The number a numeral without leading zeros stands for. */
  function Parse(s: string): (r: Option<nat>)
  {
    if s == [] || !('1' <= s[0] <= '9') then None else Digits(s)
  }

  function Digits(s: string): Option<nat>
  {
    if s == [] then Some(0)
    else
      var rest := Digits(s[..|s| - 1]);
      var last := s[|s| - 1];
      if rest.Some? && '0' <= last <= '9' then Some(10 * rest.value + (last as int - '0' as int)) else None
  }

  lemma {:induction false} DigitsOfDecimal(n: nat)
    ensures Digits(Decimal(n)) == Some(n)
  {
    var s := Decimal(n);
    if n < 10 {
      assert s[..0] == [];
    } else {
      DigitsOfDecimal(n / 10);
      assert s[..|s| - 1] == Decimal(n / 10);
    }
  }

  /** Reading back a written positive number gives the number. */
  lemma ParseOfDecimal(n: nat)
    requires n > 0
    ensures Parse(Decimal(n)) == Some(n)
  {
    DigitsOfDecimal(n);
  }
}
