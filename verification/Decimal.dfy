/** Printing natural numbers in decimal (`String(n)`) and reading them back. */
module Decimal {
  predicate IsDigit(c: char) {
    '0' <= c <= '9'
  }

  function Digit(d: nat): (c: char)
    requires d < 10
    ensures IsDigit(c)
  {
    '0' + d as char
  }

  function Print(n: nat): (s: string)
    ensures s != "" && AllDigits(s)
  {
    if n < 10 then [Digit(n)] else Print(n / 10) + [Digit(n % 10)]
  }

  predicate AllDigits(s: string) {
    forall i :: 0 <= i < |s| ==> IsDigit(s[i])
  }

  function DigitValue(c: char): nat
    requires IsDigit(c)
  {
    (c - '0') as nat
  }

  function Value(s: string): nat
    requires AllDigits(s)
  {
    if s == "" then 0 else 10 * Value(s[..|s| - 1]) + DigitValue(s[|s| - 1])
  }

  lemma {:induction false} ValueOfPrint(n: nat)
    ensures Value(Print(n)) == n
  {
    var s := Print(n);
    if n >= 10 {
      ValueOfPrint(n / 10);
      assert s[..|s| - 1] == Print(n / 10);
    }
  }

  lemma {:induction false} PrintInjective(m: nat, n: nat)
    requires Print(m) == Print(n)
    ensures m == n
  {
    ValueOfPrint(m);
    ValueOfPrint(n);
  }

  function Pow10(k: nat): nat {
    if k == 0 then 1 else 10 * Pow10(k - 1)
  }

  lemma {:induction false} PrintLength(n: nat, k: nat)
    requires k > 0 && n < Pow10(k)
    ensures |Print(n)| <= k
  {
    if n >= 10 {
      assert k > 1;
      PrintLength(n / 10, k - 1);
    }
  }

  function Zeros(k: nat): (s: string)
    ensures |s| == k && AllDigits(s)
  {
    seq(k, i => '0')
  }

  // Padded with zeros on the left, never cut.
  function Pad(n: nat, width: nat): (s: string)
    ensures AllDigits(s)
  {
    var s := Print(n);
    if |s| < width then Zeros(width - |s|) + s else s
  }

  lemma {:induction false} ValueOfZeros(k: nat, s: string)
    requires AllDigits(s)
    ensures AllDigits(Zeros(k) + s) && Value(Zeros(k) + s) == Value(s)
  {
    var t := Zeros(k) + s;
    if s != "" {
      ValueOfZeros(k, s[..|s| - 1]);
      assert t[..|t| - 1] == Zeros(k) + s[..|s| - 1];
    } else if k > 0 {
      ValueOfZeros(k - 1, s);
      assert t[..|t| - 1] == Zeros(k - 1) + s;
    }
  }

  lemma {:induction false} PadIsFixedWidth(n: nat, width: nat)
    requires width > 0 && n < Pow10(width)
    ensures |Pad(n, width)| == width && Value(Pad(n, width)) == n
  {
    PrintLength(n, width);
    ValueOfPrint(n);
    ValueOfZeros(width - |Print(n)|, Print(n));
    if |Print(n)| == width { assert Zeros(0) + Print(n) == Print(n); }
  }

  // The number of digits at the end of a text.
  function TrailingDigits(s: string): (n: nat)
    ensures n <= |s| && AllDigits(s[|s| - n..])
  {
    if s == "" || !IsDigit(s[|s| - 1]) then 0 else 1 + TrailingDigits(s[..|s| - 1])
  }

  lemma {:induction false} TrailingDigitsOf(s: string, digits: string)
    requires AllDigits(digits) && s != "" && !IsDigit(s[|s| - 1])
    ensures TrailingDigits(s + digits) == |digits|
  {
    if digits == "" {
      assert s + digits == s;
    } else {
      TrailingDigitsOf(s, digits[..|digits| - 1]);
      assert (s + digits)[..|s + digits| - 1] == s + digits[..|digits| - 1];
    }
  }
}
