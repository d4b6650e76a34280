/** Fixed-width decimal digit strings: the `%Y`, `%m` and `%d` fields of a
    date, read and written with leading zeros. */
module Decimal {
  import Lex

  predicate IsDigit(c: char) {
    '0' <= c <= '9'
  }

  predicate AllDigits(s: string) {
    forall i :: 0 <= i < |s| ==> IsDigit(s[i])
  }

  function DigitValue(c: char): (n: nat)
    requires IsDigit(c)
    ensures n < 10
  {
    c as int - '0' as int
  }

  function DigitChar(n: nat): (c: char)
    requires n < 10
    ensures IsDigit(c) && DigitValue(c) == n
  {
    ('0' as int + n) as char
  }

  function Pow10(n: nat): (p: nat)
    ensures p >= 1
  {
    if n == 0 then 1 else 10 * Pow10(n - 1)
  }

  /** The number a digit string denotes (most significant digit first). */
  function Value(s: string): (n: nat)
    requires AllDigits(s)
    ensures n < Pow10(|s|)
    decreases |s|
  {
    if |s| == 0 then 0
    else 10 * Value(s[..|s| - 1]) + DigitValue(s[|s| - 1])
  }

  /** n written with exactly w digits, padded with leading zeros. */
  function Pad(n: nat, w: nat): (s: string)
    requires n < Pow10(w)
    ensures |s| == w && AllDigits(s)
    ensures Value(s) == n
    decreases w
  {
    if w == 0 then []
    else
      var s := Pad(n / 10, w - 1) + [DigitChar(n % 10)];
      assert s[..|s| - 1] == Pad(n / 10, w - 1);
      s
  }

  /** Reading then writing at the same width gives back the digit string. */
  lemma {:induction false} PadValue(s: string)
    requires AllDigits(s)
    ensures Pad(Value(s), |s|) == s
    decreases |s|
  {
    if |s| > 0 {
      var init, last := s[..|s| - 1], s[|s| - 1];
      var v, d := Value(init), DigitValue(last);
      assert Value(s) == 10 * v + d;
      assert Value(s) / 10 == v && Value(s) % 10 == d;
      assert DigitChar(d) == last;
      PadValue(init);
      assert s == init + [last];
    }
  }

  /** Equal-width digit strings with equal values are equal. */
  lemma ValueInjective(a: string, b: string)
    requires |a| == |b| && AllDigits(a) && AllDigits(b)
    requires Value(a) == Value(b)
    ensures a == b
  {
    PadValue(a);
    PadValue(b);
  }

  /** Between digit strings of equal width, string order is numeric order. */
  lemma {:induction false} LeIsNumeric(a: string, b: string)
    requires |a| == |b| && AllDigits(a) && AllDigits(b)
    ensures Lex.Le(a, b) <==> Value(a) <= Value(b)
    decreases |a|
  {
    if |a| == 0 {
    } else {
      var a', b' := a[..|a| - 1], b[..|b| - 1];
      var x, y := a[|a| - 1], b[|b| - 1];
      assert a == a' + [x] && b == b' + [y];
      Lex.AppendSameLength(a', [x], b', [y]);
      LeIsNumeric(a', b');
      if Value(a') == Value(b') {
        ValueInjective(a', b');
      }
      assert Lex.Le([x], [y]) <==> x <= y;
    }
  }

  /** The strict form of LeIsNumeric. */
  lemma LtIsNumeric(a: string, b: string)
    requires |a| == |b| && AllDigits(a) && AllDigits(b)
    ensures Lex.Lt(a, b) <==> Value(a) < Value(b)
  {
    LeIsNumeric(a, b);
    if Value(a) == Value(b) {
      ValueInjective(a, b);
    }
  }
}
