/** Decimal text: `String(n)` for whole numbers, `padStart` with zeros, and reading it back. */
module Decimals {
  function Pow10(k: nat): (r: nat)
    ensures r >= 1
  {
    if k == 0 then 1 else 10 * Pow10(k - 1)
  }

  predicate IsDigit(c: char) {
    '0' <= c <= '9'
  }

  predicate AllDigits(s: string) {
    forall i :: 0 <= i < |s| ==> IsDigit(s[i])
  }

  function DigitChar(d: nat): char
    requires d < 10
  {
    '0' + d as char
  }

  function Decimal(n: nat): (r: string)
    ensures r != "" && AllDigits(r)
  {
    if n < 10 then [DigitChar(n)] else Decimal(n / 10) + [DigitChar(n % 10)]
  }

  function PadStart(s: string, width: nat): string
    decreases width - |s|
  {
    if |s| >= width then s else PadStart(['0'] + s, width)
  }

  function DecimalValue(s: string): nat
    requires AllDigits(s)
  {
    if s == "" then 0 else 10 * DecimalValue(s[..|s| - 1]) + (s[|s| - 1] - '0') as int
  }

  lemma {:induction false} DecimalFits(n: nat, width: nat)
    requires width >= 1 && n < Pow10(width)
    ensures |Decimal(n)| <= width && DecimalValue(Decimal(n)) == n
  {
    if n >= 10 {
      assert width >= 2;
      DecimalFits(n / 10, width - 1);
      assert Decimal(n)[..|Decimal(n)| - 1] == Decimal(n / 10);
    } else {
      assert Decimal(n)[..0] == "";
    }
  }

  lemma {:induction false} LeadingZero(s: string)
    requires AllDigits(s)
    ensures AllDigits(['0'] + s) && DecimalValue(['0'] + s) == DecimalValue(s)
  {
    if s == "" {
      assert (['0'] + s)[..0] == "";
    } else {
      LeadingZero(s[..|s| - 1]);
      assert (['0'] + s)[..|s|] == ['0'] + s[..|s| - 1];
    }
  }

  lemma {:induction false} PadKeepsValue(s: string, width: nat)
    requires AllDigits(s)
    ensures var p := PadStart(s, width);
            AllDigits(p) && DecimalValue(p) == DecimalValue(s) && |p| == if |s| >= width then |s| else width
    decreases width - |s|
  {
    if |s| < width {
      LeadingZero(s);
      PadKeepsValue(['0'] + s, width);
    }
  }
}
