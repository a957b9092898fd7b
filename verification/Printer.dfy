/** The integer printers for 32 and 64 bits. */
module Printer {
  import opened Arithmetic
  import opened Numerals

  datatype Width = W32 | W64

  function Modulus(w: Width): nat {
    if w.W32? then 0x1_0000_0000 else 0x1_0000_0000_0000_0000
  }

  /** The base that is used: anything but 2, 8 and 16 means 10. */
  function BaseOf(base: int): Base {
    if base == 2 || base == 8 || base == 16 then base else 10
  }

  /** The largest power of the base that the printer starts from, and its exponent. */
  function Top(w: Width, b: Base): nat {
    match w
    case W32 => if b == 2 then 0x8000_0000 else if b == 8 then 0x4000_0000 else if b == 16 then 0x1000_0000 else 1000000000
    case W64 => if b == 2 || b == 8 then 0x8000_0000_0000_0000
                else if b == 16 then 0x1000_0000_0000_0000 else 10000000000000000000
  }

  function TopExponent(w: Width, b: Base): nat {
    match w
    case W32 => if b == 2 then 31 else if b == 8 then 10 else if b == 16 then 7 else 9
    case W64 => if b == 2 then 63 else if b == 8 then 21 else if b == 16 then 15 else 19
  }

  lemma PowersOfTwo()
    ensures Pow(2, 31) == 0x8000_0000 && Pow(2, 63) == 0x8000_0000_0000_0000
  {
    DoublePower(1, 2);
    DoublePower(3, 8);
    DoublePower(7, 128);
    DoublePower(15, 0x8000);
    DoublePower(31, 0x8000_0000);
  }

  /** From one exponent to the next but double. */
  lemma DoublePower(m: nat, p: nat)
    requires Pow(2, m) == p
    ensures Pow(2, 2 * m + 1) == 2 * p * p
  {
    hide Pow;
    PowSum(2, m, m);
    PowUp(2, 2 * m);
    assert 2 * (p * p) == 2 * p * p;
  }

  lemma {:induction false} PowSum(b: nat, m: nat, n: nat)
    ensures Pow(b, m + n) == Pow(b, m) * Pow(b, n)
  {
    if m > 0 {
      PowSum(b, m - 1, n);
      PowUp(b, m - 1);
      PowUp(b, m + n - 1);
      var p, q := Pow(b, m - 1), Pow(b, n);
      assert b * (p * q) == (b * p) * q;
    }
  }

  lemma TopIsPower(w: Width, b: Base)
    requires b == 2 || b == 8 || b == 10 || b == 16
    ensures Top(w, b) == Pow(b, TopExponent(w, b))
    ensures Modulus(w) <= b * Top(w, b)
  {
    if b == 2 {
      PowersOfTwo();
    } else if b == 8 {
      assert Pow(8, 10) == 0x4000_0000 && Pow(8, 21) == 0x8000_0000_0000_0000;
    } else if b == 10 {
      assert Pow(10, 9) == 1000000000 && Pow(10, 19) == 10000000000000000000;
    } else {
      assert Pow(16, 7) == 0x1000_0000 && Pow(16, 15) == 0x1000_0000_0000_0000;
    }
  }

  /** The number that is written out, and whether a minus sign goes before it. */
  predicate Negative(w: Width, val: nat, base: int, sign: bool) {
    sign && 2 * val >= Modulus(w) && BaseOf(base) == 10
  }

  function Magnitude(w: Width, val: nat, base: int, sign: bool): nat
    requires val < Modulus(w)
  {
    if Negative(w, val, base, sign) then Modulus(w) - val else val
  }

  /** The whole text of a value. */
  function Written(w: Width, val: nat, base: int, sign: bool): string
    requires val < Modulus(w)
  {
    (if Negative(w, val, base, sign) then "-" else "") + Numeral(BaseOf(base), Magnitude(w, val, base, sign))
  }

  /** The machine word of a signed value. */
  function WordOf(w: Width, v: int): nat
    requires 0 <= 2 * v + Modulus(w) && 2 * v < Modulus(w)
  {
    if v < 0 then v + Modulus(w) else v
  }

  /** Signed decimal text is a minus sign where it is due, and the numeral of the magnitude; the least value included. */
  lemma SignedText(w: Width, v: int)
    requires 0 <= 2 * v + Modulus(w) && 2 * v < Modulus(w)
    ensures Written(w, WordOf(w, v), 10, true) == if v < 0 then "-" + Numeral(10, -v) else Numeral(10, v)
  {
    hide Numeral;
    assert "" + Numeral(10, WordOf(w, v)) == Numeral(10, WordOf(w, v));
  }

  lemma UnsignedText(w: Width, v: nat, base: int)
    requires v < Modulus(w)
    ensures Written(w, v, base, false) == Numeral(BaseOf(base), v)
  {
    hide Numeral;
    assert "" + Numeral(BaseOf(base), v) == Numeral(BaseOf(base), v);
  }

  /** As much of `t` as fits into `len` characters has been written. */
  ghost predicate Printed(str: seq<char>, len: nat, pos: nat, t: string) {
    pos == Min(len, |t|) && pos <= |str| && str[..pos] == t[..pos]
  }

  method AddChar(str: array<char>, len: nat, pos: nat, c: char, ghost t: string) returns (next: nat)
    requires len <= str.Length && Printed(str[..], len, pos, t)
    modifies str
    ensures Printed(str[..], len, next, t + [c]) && pos <= next <= len
    ensures str[next..] == old(str[next..])
  {
    next := pos;
    if next < len {
      str[next] := c;
      next := next + 1;
      assert str[..next] == str[..pos] + [c] == (t + [c])[..next];
    } else {
      assert (t + [c])[..pos] == t[..pos];
    }
  }

  lemma NextPower(b: Base, m: nat)
    requires m > 0
    ensures Pow(b, m) / b == Pow(b, m - 1)
  {
    hide Pow;
    PowUp(b, m - 1);
    var p, x := Pow(b, m - 1), Pow(b, m);
    Divide(b, x / b, x % b, p, 0);
  }

  /** Start from the first power of the base that is not too large. */
  method SkipLeadingZeros(b: Base, v: nat, top: nat, ghost m: nat) returns (x: nat)
    requires v > 0 && top == Pow(b, m) && v < Pow(b, m + 1)
    ensures x == Pow(b, Length(b, v) - 1)
  {
    hide Pow;
    x := top;
    ghost var k := m;
    PowUp(b, 0);
    while v / x == 0
      invariant x == Pow(b, k) && v < Pow(b, k + 1)
      decreases k
    {
      assert v < x;
      assert k > 0;
      NextPower(b, k);
      x := x / b;
      k := k - 1;
    }
    assert x <= v;
    LengthIs(b, v, k + 1);
  }

  lemma {:induction false} PowMonotone(b: Base, m: nat, n: nat)
    requires m <= n
    ensures Pow(b, m) <= Pow(b, n)
    decreases n
  {
    if m < n {
      PowMonotone(b, m, n - 1);
      Times(1, b, Pow(b, n - 1));
    }
  }

  lemma LengthIs(b: Base, v: nat, m: nat)
    requires m > 0 && Pow(b, m - 1) <= v < Pow(b, m) && v > 0
    ensures Length(b, v) == m
  {
    hide Pow, Length;
    LengthBounds(b, v);
    if Length(b, v) < m {
      PowMonotone(b, Length(b, v), m - 1);
    } else if m < Length(b, v) {
      PowMonotone(b, m, Length(b, v) - 1);
    }
  }

  /** The digit at the front of the last `k + 1` digits of `v`. */
  lemma OneDigit(b: Base, v: nat, k: nat)
    requires v < Pow(b, k + 1)
    ensures var x := Pow(b, k);
            && v / x < b && v - (v / x) * x == v % x
            && Digits(b, v, k + 1) == [DigitChar(v / x)] + Digits(b, v % x, k)
  {
    FirstDigit(b, v, k + 1);
  }

  /** Whatever the rest of a text is, it does not show once the buffer is full. */
  lemma FullAlready(str: seq<char>, len: nat, pos: nat, t: string, rest: string)
    requires Printed(str, len, pos, t) && (pos >= len || rest == [])
    ensures Printed(str, len, pos, t + rest)
  {
    if rest == [] {
      assert t + rest == t;
    } else {
      assert (t + rest)[..pos] == t[..pos];
    }
  }

  /** Write the digits of `v` from the power `top` down, until they end or the buffer is full. */
  method PrintDigits(str: array<char>, len: nat, start: nat, b: Base, v: nat, top: nat, ghost m: nat, ghost t: string)
    returns (pos: nat)
    requires start <= len <= str.Length && Printed(str[..], len, start, t)
    requires top == Pow(b, m) && v < Pow(b, m + 1)
    modifies str
    ensures start <= pos <= len && Printed(str[..], len, pos, t + Digits(b, v, m + 1))
    ensures str[pos..] == old(str[pos..])
  {
    hide Pow, Digits, Printed, DigitChar;
    pos := start;
    var uval: nat, x := v, top;
    ghost var done, k: int := t, m;
    assert t + Digits(b, v, m + 1) == done + Digits(b, uval, (k + 1) as nat);
    while true
      invariant k >= 0 && x == Pow(b, k) && uval < Pow(b, k + 1)
      invariant Printed(str[..], len, pos, done) && start <= pos <= len
      invariant t + Digits(b, v, m + 1) == done + Digits(b, uval, k + 1)
      invariant str[pos..] == old(str[pos..])
      decreases k
    {
      OneDigit(b, uval, k);
      var digit := uval / x;
      ghost var before, here, later := str[..], pos, Digits(b, uval % x, k);
      pos := AddChar(str, len, pos, DigitChar(digit), done);
      Behind(before, str[..], old(str[..]), here, pos);
      assert done + ([DigitChar(digit)] + later) == (done + [DigitChar(digit)]) + later;
      done := done + [DigitChar(digit)];
      uval := uval - digit * x;
      if k > 0 {
        NextPower(b, k);
      } else {
        OnePower(b);
      }
      x := x / b;
      k := k - 1;
      if x == 0 || pos >= len {
        FullAlready(str[..], len, pos, done, later);
        break;
      }
    }
  }

  lemma OnePower(b: Base)
    ensures Pow(b, 0) / b == 0
    ensures forall m: nat :: Pow(b, m) > 0
  {
  }

  lemma Behind(before: seq<char>, after: seq<char>, first: seq<char>, here: nat, next: nat)
    requires here <= next <= |before| == |after| == |first|
    requires before[here..] == first[here..] && after[next..] == before[next..]
    ensures after[next..] == first[next..]
  {
    assert before[next..] == before[here..][next - here..];
    assert first[next..] == first[here..][next - here..];
  }

  /**
   Write `val` in the given base, with a sign if asked for, into the first `len`
   characters of `str`: as much of the text as fits, and a terminator if there is room.
   */
  method ToStrBaseSign(w: Width, val: nat, str: array<char>, len: nat, base: int, sign: bool) returns (pos: nat)
    requires val < Modulus(w) && len <= str.Length
    modifies str
    ensures pos == Min(len, |Written(w, val, base, sign)|) && str[..pos] == Written(w, val, base, sign)[..pos]
    ensures pos < len ==> str[pos] == '\0'
    ensures var e := if pos < len then pos + 1 else pos; str[e..] == old(str[e..])
  {
    hide Pow, Digits, DigitChar, Top, TopExponent, Length;
    ghost var was := str[..];
    pos := 0;
    if val == 0 {
      ZeroText(w, base, sign);
      pos := AddChar(str, len, pos, '0', "");
    } else {
      var b: Base := BaseOf(base);
      var uval := val;
      ghost var t := "";
      if sign && 2 * val >= Modulus(w) && b == 10 {
        uval := Modulus(w) - val;
        pos := AddChar(str, len, pos, '-', t);
        t := t + ['-'];
      }
      assert t == if Negative(w, val, base, sign) then "-" else "";
      assert uval == Magnitude(w, val, base, sign);
      TopIsPower(w, b);
      PowUp(b, TopExponent(w, b));
      var x := SkipLeadingZeros(b, uval, Top(w, b), TopExponent(w, b));
      LengthBounds(b, uval);
      label middle:
      ghost var here := pos;
      pos := PrintDigits(str, len, pos, b, uval, x, Length(b, uval) - 1, t);
      Behind(old@middle(str[..]), str[..], was, here, pos);
    }
    if pos < len {
      str[pos] := '\0';
    }
  }

  lemma ZeroText(w: Width, base: int, sign: bool)
    ensures Written(w, 0, base, sign) == "" + ['0']
  {
    var b := BaseOf(base);
    assert Length(b, 0) == 1 && Pow(b, 1) == b * Pow(b, 0) && Pow(b, 0) == 1;
    assert Numeral(b, 0) == [DigitChar(0)] + Digits(b, 0, 0);
  }
}
