/** JavaScript's `String(n)` and `Number(s)` on non-negative decimal integers. */
module Decimal {

  predicate IsDigit(c: char) {
    '0' <= c <= '9'
  }

  predicate AllDigits(s: string) {
    forall i :: 0 <= i < |s| ==> IsDigit(s[i])
  }

  function Digit(d: nat): (c: char)
    requires d < 10
    ensures IsDigit(c) && DigitValue(c) == d
  {
    ('0' as int + d) as char
  }

  function DigitValue(c: char): (d: nat)
    requires IsDigit(c)
    ensures d < 10
  {
    c as int - '0' as int
  }

  /** `String(n)`: most significant digit first, no leading zero. */
  function Render(n: nat): (s: string)
    ensures AllDigits(s) && |s| > 0
  {
    if n < 10 then [Digit(n)] else Render(n / 10) + [Digit(n % 10)]
  }

  /** `Number(s)` on a string of digits. */
  function Value(s: string): nat
    requires AllDigits(s)
  {
    if |s| == 0 then 0 else 10 * Value(s[..|s| - 1]) + DigitValue(s[|s| - 1])
  }

  function Pow10(k: nat): (p: nat)
    ensures p > 0
  {
    if k == 0 then 1 else 10 * Pow10(k - 1)
  }

  lemma {:induction false} ValueOfRender(n: nat)
    ensures Value(Render(n)) == n
  {
    if n >= 10 {
      ValueOfRender(n / 10);
      var s := Render(n);
      assert s[..|s| - 1] == Render(n / 10);
    }
  }

  /** Rendering undoes reading exactly when the digits carry no leading zero. */
  lemma {:induction false} RenderOfValue(s: string)
    requires AllDigits(s) && |s| > 0
    ensures Render(Value(s)) == s <==> (|s| == 1 || s[0] != '0')
    ensures Value(s) == 0 <==> forall i :: 0 <= i < |s| ==> s[i] == '0'
  {
    if |s| == 1 {
      assert Value(s[..0]) == 0;
      assert s == [s[0]];
    } else {
      var front := s[..|s| - 1];
      RenderOfValue(front);
      assert front[0] == s[0];
      assert s == front + [s[|s| - 1]];
      assert Value(s) / 10 == Value(front);
      if Value(front) == 0 {
        assert |Render(Value(s))| == 1;
      }
    }
  }

  /** A rendering fits in `k` digits exactly when the number is below 10^k. */
  lemma {:induction false} RenderWidth(n: nat, k: nat)
    requires k > 0
    ensures |Render(n)| <= k <==> n < Pow10(k)
  {
    if k == 1 {
      assert Pow10(1) == 10 * Pow10(0) == 10;
      if n >= 10 {
        assert |Render(n / 10)| > 0;
      }
    } else if n < 10 {
      assert Pow10(k) == 10 * Pow10(k - 1);
    } else {
      RenderWidth(n / 10, k - 1);
    }
  }
}
