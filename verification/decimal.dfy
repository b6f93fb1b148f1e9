/** Whole numbers as Go's strconv and JavaScript print them. */
module Decimal {
  function Digits(n: nat): (r: string)
    ensures r != "" && forall i :: 0 <= i < |r| ==> '0' <= r[i] <= '9'
  {
    if n < 10 then ["0123456789"[n]] else Digits(n / 10) + ["0123456789"[n % 10]]
  }

  function Itoa(n: int): string { if n < 0 then "-" + Digits(-n) else Digits(n) }

  /** Only zero is printed with a zero in front. */
  lemma {:induction false} LeadingZero(n: nat)
    ensures Digits(n)[0] == '0' <==> n == 0
  {
    if n >= 10 {
      LeadingZero(n / 10);
    }
  }

  // ---- reading them back

  predicate IsDigit(c: char) { '0' <= c <= '9' }

  predicate AllDigits(s: string) { s != "" && forall i :: 0 <= i < |s| ==> IsDigit(s[i]) }

  function DigitsValue(s: string): nat
    requires forall i :: 0 <= i < |s| ==> IsDigit(s[i])
  {
    if s == "" then 0 else 10 * DigitsValue(s[..|s| - 1]) + DigitValue(s[|s| - 1])
  }

  function DigitValue(c: char): nat
    requires IsDigit(c)
  {
    c as int - '0' as int
  }

  lemma {:induction false} DigitsReadBack(n: nat)
    ensures DigitsValue(Digits(n)) == n
  {
    var s := Digits(n);
    if n >= 10 {
      DigitsReadBack(n / 10);
      DigitIsValue(n % 10);
      assert s[..|s| - 1] == Digits(n / 10) && s[|s| - 1] == "0123456789"[n % 10];
    } else {
      DigitIsValue(n);
      assert s == ["0123456789"[n]] && s[..|s| - 1] == "";
    }
  }

  lemma DigitIsValue(n: nat)
    requires n < 10
    ensures IsDigit("0123456789"[n]) && DigitValue("0123456789"[n]) == n
  {}
}
