/** Decimal numerals: what `format!("{n}")` prints and what a run of digits is worth. */
module Decimal {
  type Digit = c: int | 0x30 <= c <= 0x39 witness 0x30

  function DigitOf(c: int): int {
    c - 0x30
  }

  /** The number a run of decimal digits spells. */
  function DecimalValue(s: seq<int>): int {
    if s == [] then 0 else DecimalValue(s[..|s| - 1]) * 10 + DigitOf(s[|s| - 1])
  }

  /** The numeral of `n`, without leading zeros. */
  function Show(n: nat): (s: seq<Digit>)
    ensures s != []
    ensures n < 10 <==> |s| == 1
    ensures n > 0 ==> s[0] != 0x30
    ensures n == 0 ==> s == [0x30]
  {
    if n < 10 then [0x30 + n] else Show(n / 10) + [0x30 + n % 10]
  }

  /** Reading a printed numeral gives the number back. */
  lemma {:induction false} ValueOfShow(n: nat)
    ensures DecimalValue(Show(n)) == n
  {
    var s := Show(n);
    if n < 10 {
      assert s[..|s| - 1] == [];
    } else {
      ValueOfShow(n / 10);
      assert s[..|s| - 1] == Show(n / 10);
    }
  }
}
