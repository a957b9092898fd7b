/** Integers as texts. */
module Numerals {
  import opened Arithmetic

  function Pow(b: nat, m: nat): (p: nat)
    ensures b > 0 ==> p > 0
  {
    if m == 0 then 1 else b * Pow(b, m - 1)
  }

  const DIGITS := "0123456789ABCDEF"

  function DigitChar(d: nat): char
    requires d < 16
  {
    DIGITS[d]
  }

  /** The value of a digit; the printer writes upper-case letters only. */
  function DigitValue(c: char): nat {
    if '0' <= c <= '9' then c as nat - '0' as nat
    else if 'A' <= c <= 'F' then c as nat - 'A' as nat + 10
    else if 'a' <= c <= 'f' then c as nat - 'a' as nat + 10
    else 99
  }

  type Base = b: nat | 2 <= b <= 16 witness 10

  predicate IsNumeral(b: Base, t: string) {
    forall k | 0 <= k < |t| :: DigitValue(t[k]) < b
  }

  /** What a text of digits is worth. */
  function Eval(b: Base, t: string): nat {
    if t == [] then 0 else b * Eval(b, t[..|t| - 1]) + DigitValue(t[|t| - 1])
  }

  /** The `m` last digits of `v`. */
  function Digits(b: Base, v: nat, m: nat): (t: string)
    requires v < Pow(b, m)
    ensures |t| == m
  {
    if m == 0 then []
    else
      var x := Pow(b, m - 1);
      Quotient(v, x, b);
      [DigitChar(v / x)] + Digits(b, v % x, m - 1)
  }

  lemma Quotient(v: nat, x: nat, b: nat)
    requires x > 0 && v < b * x
    ensures 0 <= v / x < b
  {
    if v / x >= b {
      Times(b, v / x, x);
    }
  }

  lemma DigitBack(d: nat)
    requires d < 16
    ensures DigitValue(DigitChar(d)) == d
  {
  }

  lemma {:induction false} EvalFront(b: Base, c: char, t: string)
    ensures Eval(b, [c] + t) == DigitValue(c) * Pow(b, |t|) + Eval(b, t)
  {
    if t == [] {
      assert [c] + t == [c];
    } else {
      var n := |t|;
      var init := t[..n - 1];
      EvalFront(b, c, init);
      assert ([c] + t)[..n] == [c] + init;
      Distribute(b, DigitValue(c), Pow(b, n - 1), Eval(b, init));
    }
  }

  lemma Distribute(b: nat, d: nat, p: nat, e: nat)
    ensures b * (d * p + e) == d * (b * p) + b * e
  {
    assert b * (d * p) == d * (b * p);
  }

  /** The digits of `v` are digits, and worth `v`. */
  lemma {:induction false} DigitsValue(b: Base, v: nat, m: nat)
    requires v < Pow(b, m)
    ensures IsNumeral(b, Digits(b, v, m)) && Eval(b, Digits(b, v, m)) == v
    decreases m
  {
    hide Eval, Pow, DigitValue;
    if m > 0 {
      var x := Pow(b, m - 1);
      FirstDigit(b, v, m);
      DigitsValue(b, v % x, m - 1);
      EvalFront(b, DigitChar(v / x), Digits(b, v % x, m - 1));
    } else {
      NoDigits(b);
    }
  }

  lemma NoDigits(b: Base)
    ensures Eval(b, []) == 0 && Pow(b, 0) == 1
  {
  }

  lemma FirstDigit(b: Base, v: nat, m: nat)
    requires m > 0 && v < Pow(b, m)
    ensures var x := Pow(b, m - 1);
            && v / x < b && DigitValue(DigitChar(v / x)) == v / x
            && (v / x) * x + v % x == v
  {
    var x := Pow(b, m - 1);
    Quotient(v, x, b);
    DigitBack(v / x);
  }

  /** The number of digits of `v`, one at least. */
  function Length(b: Base, v: nat): (m: nat)
    ensures m > 0
  {
    if v < b then 1 else 1 + Length(b, v / b)
  }

  lemma {:induction false} LengthBounds(b: Base, v: nat)
    ensures v < Pow(b, Length(b, v)) && (v > 0 ==> Pow(b, Length(b, v) - 1) <= v)
    decreases v
  {
    hide Pow;
    PowUp(b, 0);
    if v >= b {
      var m := Length(b, v / b);
      LengthBounds(b, v / b);
      PowUp(b, m);
      PowUp(b, m - 1);
      Scale(v, b, Pow(b, m));
      Scale(v, b, Pow(b, m - 1));
    }
  }

  lemma PowUp(b: nat, m: nat)
    ensures Pow(b, 0) == 1 && Pow(b, m + 1) == b * Pow(b, m)
  {
  }

  lemma Scale(v: nat, b: nat, p: nat)
    requires b > 0
    ensures v / b < p ==> v < b * p
    ensures p <= v / b ==> b * p <= v
  {
    var q := v / b;
    assert v == b * q + v % b;
    if q < p {
      assert b * (q + 1) <= b * p;
    } else {
      assert b * p <= b * q;
    }
  }

  /** The numeral of `v`: as many digits as it takes. */
  function Numeral(b: Base, v: nat): (t: string) {
    LengthBounds(b, v);
    Digits(b, v, Length(b, v))
  }

  /** No leading zero, but for zero itself. */
  predicate Canonical(b: Base, t: string) {
    t != [] && IsNumeral(b, t) && (t[0] == '0' ==> |t| == 1)
  }

  /** The numeral reads back as the value, and has no leading zero. */
  lemma NumeralReadsBack(b: Base, v: nat)
    ensures Eval(b, Numeral(b, v)) == v && Canonical(b, Numeral(b, v))
  {
    var m := Length(b, v);
    LengthBounds(b, v);
    DigitsValue(b, v, m);
    if m > 1 {
      var x := Pow(b, m - 1);
      Quotient(v, x, b);
      DigitBack(v / x);
      assert v >= b;
      assert v / x >= 1 by { AtLeastOnce(v, x); }
    }
  }

  lemma AtLeastOnce(v: nat, x: nat)
    requires 0 < x <= v
    ensures v / x >= 1
  {
  }

  lemma {:induction false} PositiveValue(b: Base, t: string)
    requires t != [] && DigitValue(t[0]) > 0
    ensures Eval(b, t) > 0
    decreases |t|
  {
    hide DigitValue;
    if |t| > 1 {
      PositiveValue(b, t[..|t| - 1]);
    } else {
      Single(b, t);
    }
  }

  lemma LongValue(b: Base, t: string)
    requires Canonical(b, t) && |t| > 1
    ensures Eval(b, t) >= b
  {
    var init := t[..|t| - 1];
    assert DigitValue(t[0]) > 0;
    PositiveValue(b, init);
    Times(1, Eval(b, init), b);
  }

  /** A digit in front: quotient and remainder. */
  lemma Divide(b: nat, q: nat, r: nat, q': nat, r': nat)
    requires r < b && r' < b && b * q + r == b * q' + r'
    ensures q == q' && r == r'
  {
    if q < q' {
      Times(q + 1, q', b);
    } else if q' < q {
      Times(q' + 1, q, b);
    }
  }

  /** Digits that the printer may write. */
  predicate UpperDigits(t: string) {
    forall k | 0 <= k < |t| :: t[k] in DIGITS
  }

  lemma EvalLast(b: Base, t: string)
    requires t != []
    ensures Eval(b, t) == b * Eval(b, t[..|t| - 1]) + DigitValue(t[|t| - 1])
  {
  }

  /** Equal values have equal last digits, and equal values in front of them. */
  lemma Peel(b: Base, t: string, u: string)
    requires t != [] && u != [] && IsNumeral(b, t) && IsNumeral(b, u) && Eval(b, t) == Eval(b, u)
    ensures Eval(b, t[..|t| - 1]) == Eval(b, u[..|u| - 1])
    ensures DigitValue(t[|t| - 1]) == DigitValue(u[|u| - 1])
  {
    hide Eval, DigitValue;
    EvalLast(b, t);
    EvalLast(b, u);
    Divide(b, Eval(b, t[..|t| - 1]), DigitValue(t[|t| - 1]), Eval(b, u[..|u| - 1]), DigitValue(u[|u| - 1]));
  }

  lemma ShortValue(b: Base, t: string)
    requires Canonical(b, t)
    ensures |t| == 1 <==> Eval(b, t) < b
  {
    hide Eval, DigitValue;
    if |t| == 1 {
      Single(b, t);
    } else {
      LongValue(b, t);
    }
  }

  lemma CanonicalFront(b: Base, t: string)
    requires Canonical(b, t) && |t| > 1
    ensures Canonical(b, t[..|t| - 1])
  {
    hide DigitValue;
  }

  /** There is only one numeral for a value. */
  lemma {:induction false} NumeralsAreUnique(b: Base, t: string, u: string)
    requires Canonical(b, t) && Canonical(b, u) && UpperDigits(t) && UpperDigits(u)
    requires Eval(b, t) == Eval(b, u)
    ensures t == u
    decreases |t|
  {
    hide Eval, DigitValue, Canonical;
    var n, m := |t| - 1, |u| - 1;
    assert t != [] && u != [] && IsNumeral(b, t) && IsNumeral(b, u) by { IsDigits(b, t); IsDigits(b, u); }
    ShortValue(b, t);
    ShortValue(b, u);
    Peel(b, t, u);
    SameDigit(t[n], u[m]);
    if n > 0 {
      CanonicalFront(b, t);
      CanonicalFront(b, u);
      NumeralsAreUnique(b, t[..n], u[..m]);
    }
    assert t == t[..n] + [t[n]] && u == u[..m] + [u[m]];
  }

  lemma IsDigits(b: Base, t: string)
    requires Canonical(b, t)
    ensures t != [] && IsNumeral(b, t)
  {
  }

  lemma SameDigit(a: char, c: char)
    requires a in DIGITS && c in DIGITS && DigitValue(a) == DigitValue(c)
    ensures a == c
  {
  }

  lemma Single(b: Base, t: string)
    requires |t| == 1
    ensures Eval(b, t) == DigitValue(t[0]) && t == [t[0]]
  {
    assert t[..0] == [];
  }
}
