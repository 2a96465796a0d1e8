/** ASCII decimal digit strings: what `int(...)` reads and what `str(n)` and `{n:02d}` write. */
module Decimal {

  predicate IsDigit(c: char) {
    '0' <= c <= '9'
  }

  predicate AllDigits(s: string) {
    forall i :: 0 <= i < |s| ==> IsDigit(s[i])
  }

  function DigitValue(c: char): nat
    requires IsDigit(c)
  {
    c as int - '0' as int
  }

  function DigitChar(d: nat): (c: char)
    requires d < 10
    ensures IsDigit(c) && DigitValue(c) == d
  {
    ('0' as int + d) as char
  }

  function Pow10(n: nat): (r: nat)
    ensures r >= 1
  {
    if n == 0 then 1 else 10 * Pow10(n - 1)
  }

  /** The number a digit string denotes, as `int(s)` computes it. */
  function Value(s: string): (r: nat)
    requires AllDigits(s)
    ensures r < Pow10(|s|)
  {
    if s == [] then 0
    else
      var p := Value(s[..|s| - 1]);
      assert p <= Pow10(|s| - 1) - 1;
      p * 10 + DigitValue(s[|s| - 1])
  }

  /** `str(n)`: the shortest decimal spelling of n. */
  function Show(n: nat): (s: string)
    ensures 1 <= |s| && AllDigits(s)
    ensures |s| > 1 ==> s[0] != '0'
  {
    if n < 10 then [DigitChar(n)] else Show(n / 10) + [DigitChar(n % 10)]
  }

  /** `format(n, "0<width>d")` for n below 10^width: exactly `width` digits, zeros in front. */
  function Padded(n: nat, width: nat): (s: string)
    ensures |s| == width && AllDigits(s)
  {
    if width == 0 then [] else Padded(n / 10, width - 1) + [DigitChar(n % 10)]
  }

  lemma {:induction false} ValueOfShow(n: nat)
    ensures Value(Show(n)) == n
  {
    if n >= 10 {
      var s := Show(n);
      assert s[..|s| - 1] == Show(n / 10);
      ValueOfShow(n / 10);
    }
  }

  /** Appending a digit multiplies the value by ten and adds the digit. */
  lemma ValueSnoc(a: string, c: char)
    requires AllDigits(a) && IsDigit(c)
    ensures AllDigits(a + [c]) && Value(a + [c]) == Value(a) * 10 + DigitValue(c)
  {
    assert (a + [c])[..|a|] == a;
  }

  lemma {:induction false} ValueOfPadded(n: nat, width: nat)
    requires n < Pow10(width)
    ensures Value(Padded(n, width)) == n
  {
    if width > 0 {
      var q, d := n / 10, n % 10;
      var p := Pow10(width - 1);
      assert n < 10 * p;
      assert q < p by {
        assert n == 10 * q + d;
      }
      var a := Padded(q, width - 1);
      ValueSnoc(a, DigitChar(d));
      ValueOfPadded(q, width - 1);
    }
  }

  /** Years 1000..9999 print with exactly four digits. */
  lemma {:induction false} ShowFourDigits(n: nat)
    requires 1000 <= n <= 9999
    ensures |Show(n)| == 4 && Show(n) == Padded(n, 4)
  {
    var q1 := n / 10;
    var q2 := q1 / 10;
    var q3 := q2 / 10;
    assert 100 <= q1 <= 999 && 10 <= q2 <= 99 && 1 <= q3 <= 9;
    assert Show(q2) == [DigitChar(q3)] + [DigitChar(q2 % 10)];
    assert Padded(q2, 2) == Padded(q3, 1) + [DigitChar(q2 % 10)];
    assert Padded(q3, 1) == [DigitChar(q3)];
    assert Show(q1) == Show(q2) + [DigitChar(q1 % 10)];
    assert Padded(q1, 3) == Padded(q2, 2) + [DigitChar(q1 % 10)];
  }

  lemma ShowInjective(a: nat, b: nat)
    requires Show(a) == Show(b)
    ensures a == b
  {
    ValueOfShow(a);
    ValueOfShow(b);
  }
}
