/** Decimal notation of natural numbers. */
module Decimals {

  predicate Digit(c: char)
  {
    '0' <= c <= '9'
  }

  predicate AllDigits(s: string)
  {
    forall i :: 0 <= i < |s| ==> Digit(s[i])
  }

  function Digits(n: nat): (s: string)
    ensures |s| >= 1 && AllDigits(s)
    ensures n > 0 ==> s[0] != '0'
  {
    if n < 10 then [(48 + n) as char] else Digits(n / 10) + [(48 + n % 10) as char]
  }

  function DigitsValue(s: string): nat
    requires AllDigits(s)
  {
    if s == "" then 0
    else
      assert Digit(s[|s| - 1]);
      10 * DigitsValue(s[..|s| - 1]) + s[|s| - 1] as int - 48
  }

  lemma {:induction false} DigitsReadBack(n: nat)
    ensures DigitsValue(Digits(n)) == n
  {
    var s := Digits(n);
    if n >= 10 {
      assert s[..|s| - 1] == Digits(n / 10);
      DigitsReadBack(n / 10);
    } else {
      assert s[..|s| - 1] == "";
    }
  }

  /** Digits with no superfluous zero in front are the digits of their value. */
  lemma {:induction false} ReadDigits(s: string)
    requires s != "" && AllDigits(s) && s[0] != '0'
    ensures Digits(DigitsValue(s)) == s && DigitsValue(s) > 0
    decreases |s|
  {
    var front, last := s[..|s| - 1], s[|s| - 1];
    assert Digit(last) && Digit(s[0]);
    if front == "" {
      assert s == [last];
      assert DigitsValue(front) == 0;
    } else {
      ReadDigits(front);
      assert s == front + [last];
      LastDigit(DigitsValue(front), last as int - 48);
    }
  }

  lemma LastDigit(front: nat, d: nat)
    requires front > 0 && d < 10
    ensures (10 * front + d) / 10 == front && (10 * front + d) % 10 == d && 10 * front + d >= 10
  {
  }

  function Pow10(n: nat): nat
  {
    if n == 0 then 1 else 10 * Pow10(n - 1)
  }

  lemma {:induction false} DigitsLength(n: nat, k: nat)
    requires n < Pow10(k) && k > 0
    ensures |Digits(n)| <= k
  {
    if n >= 10 {
      assert Pow10(1) == 10 * Pow10(0);
      DigitsLength(n / 10, k - 1);
    }
  }

  /** No 64-bit quantity needs more than nineteen digits. */
  lemma NineteenDigits(n: nat)
    requires n <= 0x8000_0000_0000_0000
    ensures |Digits(n)| <= 19
  {
    assert Pow10(5) == 10_0000;
    assert Pow10(10) == 10_0000_00000;
    assert Pow10(15) == 10_0000_00000_00000;
    assert Pow10(19) == 1000_0000_0000_0000_0000;
    DigitsLength(n, 19);
  }
}
