// Decimal digits, written and read.

module Decimals {

  function DigitOf(d: nat): char
    requires d < 10
  {
    "0123456789"[d]
  }

  predicate IsDigit(c: char) {
    '0' <= c <= '9'
  }

  predicate AllDigits(s: string) {
    forall i :: 0 <= i < |s| ==> IsDigit(s[i])
  }

  function Decimal(n: nat): string {
    if n < 10 then [DigitOf(n)] else Decimal(n / 10) + [DigitOf(n % 10)]
  }

  function ValueOf(digits: string): (n: int)
    ensures AllDigits(digits) ==> 0 <= n
  {
    if digits == "" then 0 else 10 * ValueOf(digits[..|digits| - 1]) + (digits[|digits| - 1] as int - 48)
  }

  lemma DigitExactly(c: char)
    ensures IsDigit(c) <==> exists d: nat :: d < 10 && c == DigitOf(d)
  {
    if IsDigit(c) {
      DigitCode(c as int - 48);
      assert c == DigitOf(c as int - 48);
    }
    forall d: nat | d < 10 ensures IsDigit(DigitOf(d)) {
      DigitCode(d);
    }
  }

  lemma DigitCode(d: nat)
    requires d < 10
    ensures DigitOf(d) as int == 48 + d && IsDigit(DigitOf(d))
  {
    assert "0123456789"[d] as int == 48 + d;
  }

  lemma {:induction false} DecimalReads(n: nat)
    ensures Decimal(n) != "" && AllDigits(Decimal(n)) && ValueOf(Decimal(n)) == n
  {
    hide DigitOf;
    DigitCode(n % 10);
    if n < 10 {
      assert [DigitOf(n)][..0] == "";
    } else {
      DecimalReads(n / 10);
      assert (Decimal(n / 10) + [DigitOf(n % 10)])[..|Decimal(n / 10)|] == Decimal(n / 10);
    }
  }
}
