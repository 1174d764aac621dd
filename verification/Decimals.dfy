/** Decimal rendering of natural numbers, as f-strings produce it. */
module Decimals {
  import opened DocumentRecord

  function Digit(n: nat): (c: char)
    requires n < 10
    ensures '0' <= c <= '9' && c as int == '0' as int + n
  {
    ('0' as int + n) as char
  }

  function Decimal(n: nat): (s: string)
    ensures s != "" && forall i :: 0 <= i < |s| ==> '0' <= s[i] <= '9'
  {
    if n < 10 then [Digit(n)] else Decimal(n / 10) + [Digit(n % 10)]
  }

  function DigitValue(c: char): nat {
    if '0' <= c <= '9' then c as int - '0' as int else 0
  }

  /** The number a digit string denotes. */
  function Value(s: string): nat {
    if s == "" then 0 else 10 * Value(s[..|s| - 1]) + DigitValue(Last(s))
  }

  lemma {:induction false} ValueOfDecimal(n: nat)
    ensures Value(Decimal(n)) == n
  {
    if n >= 10 {
      ValueOfDecimal(n / 10);
      assert Decimal(n)[..|Decimal(n)| - 1] == Decimal(n / 10);
    } else {
      assert Decimal(n)[..0] == "";
    }
  }

  /** The most significant digit comes first, and there is no other leading zero than that of zero itself. */
  lemma {:induction false} DecimalIsCanonical(n: nat)
    ensures n >= 10 ==> Decimal(n)[0] == Decimal(n / 10)[0] && |Decimal(n)| == |Decimal(n / 10)| + 1
    ensures n < 10 ==> |Decimal(n)| == 1 && Decimal(n)[0] as int == '0' as int + n
    ensures n > 0 ==> Decimal(n)[0] != '0'
  {
    if n >= 10 {
      DecimalIsCanonical(n / 10);
    }
  }
}
