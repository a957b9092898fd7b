/** The converse of `DataTokens`: whatever is recognised as a parameter is the text of one. */
module DataWritten {
  import opened LexSpec
  import opened HeaderTokens
  import opened DataTokens
  import N = Numerals
  import RoundTrip

  lemma BasedWritten(s: seq<char>, w: nat) returns (x: DataText)
    requires w <= |s| && NondecimalEnd(s, w) > w
    ensures var e := NondecimalEnd(s, w);
            x.BasedText? && DataFormed(x) && s[w..e] == Written(x) && NondecimalDatum(s, w) == BareOf(w, e, e, x)
  {
    hide SkipWhile;
    var e := NondecimalEnd(s, w);
    x := BasedText(s[w + 1], s[w + 2..e]);
    assert s[w..e] == [s[w]] + [s[w + 1]] + s[w + 2..e];
  }

  lemma WordWritten(s: seq<char>, w: nat) returns (x: DataText)
    requires w <= |s| && MnemonicEnd(s, w) > w
    ensures var e := MnemonicEnd(s, w);
            x.WordText? && DataFormed(x) && s[w..e] == Written(x) && MnemonicDatum(s, w) == BareOf(w, e, e, x)
  {
    hide MnemonicEnd, Mnemonic;
    MnemonicWritten(s, w);
    x := WordText(s[w..MnemonicEnd(s, w)]);
  }

  lemma ExpressionWritten(s: seq<char>, w: nat) returns (x: DataText)
    requires w <= |s| && ExpressionEnd(s, w) > w
    ensures var e := ExpressionEnd(s, w);
            x.ExpressionText? && DataFormed(x) && s[w..e] == Written(x) && ExpressionDatum(s, w) == BareOf(w, e, e, x)
  {
    hide SkipWhile;
    var e := ExpressionEnd(s, w);
    x := ExpressionText(s[w + 1..e - 1]);
    assert s[w..e] == [s[w]] + s[w + 1..e - 1] + [s[e - 1]];
  }

  lemma {:induction false} ContentWritten(s: seq<char>, i: nat, q: char) returns (t: string)
    requires i <= |s| && IsQuote(q)
    ensures s[i..QuoteStop(s, i, q)] == Twice(t, q) && forall k | 0 <= k < |t| :: t[k] as nat <= 0x7F
    decreases |s| - i
  {
    hide Twice;
    if i == |s| || (s[i] == q && !(i + 1 < |s| && s[i + 1] == q)) || (s[i] != q && !IsAscii7(s[i])) {
      t := [];
      NothingTwice(q);
    } else {
      var n := if s[i] == q then i + 2 else i + 1;
      var later := ContentWritten(s, n, q);
      t := [s[i]] + later;
      FrontTwice(s[i], later, q);
      assert s[i..n] == if s[i] == q then [q, q] else [s[i]];
      assert s[i..QuoteStop(s, n, q)] == s[i..n] + s[n..QuoteStop(s, n, q)];
    }
  }

  lemma NothingTwice(q: char)
    ensures Twice("", q) == ""
  {
  }

  lemma FrontTwice(c: char, t: string, q: char)
    ensures Twice([c] + t, q) == (if c == q then [q, q] else [c]) + Twice(t, q)
  {
    assert ([c] + t)[1..] == t;
  }

  lemma QuotedWritten(s: seq<char>, w: nat) returns (x: DataText)
    requires w <= |s| && StringEnd(s, w) > w
    ensures var e := StringEnd(s, w);
            x.QuotedText? && DataFormed(x) && s[w..e] == Written(x) && StringDatum(s, w) == BareOf(w, e, e, x)
  {
    hide QuoteStop, Twice;
    var e := StringEnd(s, w);
    var t := ContentWritten(s, w + 1, s[w]);
    x := QuotedText(s[w], t);
    assert s[w..e] == [s[w]] + s[w + 1..e - 1] + [s[e - 1]];
  }

  lemma LengthWritten(s: seq<char>, i: nat, k: nat)
    requires i <= |s| && LengthDigits(s, i, k, 0).1 == 0
    ensures i + k <= |s| && LengthDigits(s, i, k, 0).0 == i + k
    ensures Digits(s[i..i + k]) && N.Eval(10, s[i..i + k]) == LengthDigits(s, i, k, 0).2
  {
    hide N.Eval, LengthDigits;
    LengthMoves(s, i, k, 0);
    LengthAreDigits(s, i, k, 0);
    DigitsNumeral(s[i..i + k]);
    RoundTrip.LengthRun(s, i, k, 0);
  }

  lemma {:induction false} LengthAreDigits(s: seq<char>, i: nat, k: nat, value: nat)
    requires i <= |s| && LengthDigits(s, i, k, value).1 == 0
    ensures i + k <= |s| && Digits(s[i..i + k])
    decreases k
  {
    if k > 0 {
      LengthAreDigits(s, i + 1, k - 1, 10 * value + (s[i] as nat - '0' as nat));
      var t, u := s[i..i + k], s[i + 1..i + k];
      assert forall j | 0 < j < k :: t[j] == u[j - 1];
    }
  }

  lemma DigitsNumeral(t: string)
    requires Digits(t)
    ensures N.IsNumeral(10, t)
  {
  }

  lemma BlockWritten(s: seq<char>, w: nat) returns (x: DataText, e: nat)
    requires w <= |s| && BlockAt(s, w).BlockData?
    ensures x.BlockText? && DataFormed(x) && w + Skipped(x) <= e <= |s|
    ensures s[w..e] == Written(x) && BlockDatum(s, w) == BareOf(w, e, e, x)
  {
    hide LengthDigits, N.Eval;
    var k := s[w + 1] as nat - '0' as nat;
    LengthWritten(s, w + 2, k);
    var start, len := BlockAt(s, w).start, BlockAt(s, w).len;
    e := start + len;
    x := BlockText(s[w + 2..start], s[start..e]);
    assert s[w..e] == [s[w]] + [s[w + 1]] + s[w + 2..start] + s[start..e];
    CountChar(s[w + 1]);
  }

  lemma CountChar(c: char)
    requires '1' <= c <= '9'
    ensures var k := c as nat - '0' as nat; 0 < k <= 9 && ['1', '2', '3', '4', '5', '6', '7', '8', '9'][k - 1] == c
  {
  }

  /** A mantissa with digits; its exponent, if any, is added later. */
  lemma MantissaWritten(s: seq<char>, i: nat) returns (d: Decimal)
    requires i <= |s| && Mantissa(s, i).0 > 0
    ensures d.power.NoPower? && DecimalFormed(d) && s[i..Mantissa(s, i).1] == MantissaText(d)
  {
    hide SkipWhile;
    var p := SkipPlusMinus(s, i);
    var a := SkipWhile(s, p, Digit);
    var f := SkipChr(s, a, '.');
    var e := Mantissa(s, i).1;
    d := Decimal(s[i..p], s[p..a], f > a, s[f..e], NoPower);
    SignWritten(s, i);
    RunWritten(s, p);
    RunWritten(s, f);
    assert s[i..e] == s[i..p] + s[p..a] + s[a..f] + s[f..e];
    assert s[a..f] == if f > a then "." else "";
  }

  lemma SignWritten(s: seq<char>, i: nat)
    requires i <= |s|
    ensures Sign(s[i..SkipPlusMinus(s, i)])
  {
  }

  lemma RunWritten(s: seq<char>, p: nat)
    requires p <= |s|
    ensures Digits(s[p..SkipWhile(s, p, Digit)])
  {
  }

  lemma BlanksWritten(s: seq<char>, p: nat)
    requires p <= |s|
    ensures Blanks(s[p..SkipWhile(s, p, Ws)])
  {
  }

  /** The exponent behind `m`. */
  lemma PowerWritten(s: seq<char>, m: nat) returns (x: Power)
    requires m <= |s| && Exponent(s, SkipWhile(s, m, Ws)).0 > 0
    ensures x.Power? && PowerFormed(x) && s[m..Exponent(s, SkipWhile(s, m, Ws)).1] == x.gap + ExponentText(x)
  {
    hide SkipWhile, Digits, Blanks, Sign;
    var i := SkipWhile(s, m, Ws);
    var g := SkipWhile(s, i + 1, Ws);
    var p := SkipPlusMinus(s, g);
    var e := Exponent(s, i).1;
    x := Power(s[m..i], s[i], s[i + 1..g], s[g..p], s[p..e]);
    BlanksWritten(s, m);
    BlanksWritten(s, i + 1);
    SignWritten(s, g);
    RunWritten(s, p);
    Five(s, m, i, g, p, e);
  }

  lemma Five(s: seq<char>, m: nat, i: nat, g: nat, p: nat, e: nat)
    requires m <= i < g <= p <= e <= |s|
    ensures s[m..e] == s[m..i] + ([s[i]] + s[i + 1..g] + s[g..p] + s[p..e])
  {
  }

  lemma NumberWritten(s: seq<char>, i: nat) returns (d: Decimal)
    requires i <= |s| && DecimalEnd(s, i) > i
    ensures DecimalFormed(d) && s[i..DecimalEnd(s, i)] == NumberText(d)
    ensures d.power.NoPower? ==> Exponent(s, SkipWhile(s, DecimalEnd(s, i), Ws)).0 == 0
  {
    hide SkipWhile, Mantissa, Exponent, MantissaText, ExponentText, PowerFormed;
    d := MantissaWritten(s, i);
    var m, e := Mantissa(s, i).1, DecimalEnd(s, i);
    if Exponent(s, SkipWhile(s, m, Ws)).0 > 0 {
      var x := PowerWritten(s, m);
      assert s[i..e] == s[i..m] + s[m..e];
      d := Powered(d, x);
    } else {
      assert MantissaText(d) + "" == MantissaText(d);
    }
  }

  function Powered(d: Decimal, x: Power): (r: Decimal)
    ensures MantissaText(r) == MantissaText(d) && r.power == x
    ensures DecimalFormed(d) && PowerFormed(x) ==> DecimalFormed(r)
  {
    d.(power := x)
  }

  lemma PartWritten(s: seq<char>, i: nat) returns (p: Part)
    requires i <= |s|
    ensures PartFormed(p) && s[i..SuffixPart(s, i)] == PartText(p) && i + |p.letters| == SkipWhile(s, i, Alpha)
    ensures i + |p.letters| <= |s| && s[i..i + |p.letters|] == p.letters
  {
    hide SkipWhile;
    var a := SkipWhile(s, i, Alpha);
    var m := SkipChr(s, a, '-');
    var e := SuffixPart(s, i);
    p := Part(s[i..a], m > a, s[m..e]);
    assert s[i..e] == s[i..a] + s[a..m] + s[m..e];
    assert s[a..m] == if m > a then "-" else "";
    LettersWritten(s, i);
  }

  lemma LettersWritten(s: seq<char>, i: nat)
    requires i <= |s|
    ensures Letters(s[i..SkipWhile(s, i, Alpha)])
  {
  }

  lemma {:induction false} TailWritten(s: seq<char>, i: nat) returns (rest: seq<(char, Part)>)
    requires i <= |s|
    ensures s[i..SuffixTail(s, i)] == RestText(rest)
    ensures forall k | 0 <= k < |rest| :: (rest[k].0 == '/' || rest[k].0 == '.') && PartFormed(rest[k].1)
    decreases |s| - i
  {
    hide SuffixPart, PartText, PartFormed;
    var e := SuffixTail(s, i);
    if i < |s| && (s[i] == '/' || s[i] == '.') {
      var n := SuffixPart(s, i + 1);
      var p := PartWritten(s, i + 1);
      var later := TailWritten(s, n);
      rest := [(s[i], p)] + later;
      assert rest[1..] == later;
      assert s[i..e] == [s[i]] + s[i + 1..n] + s[n..e];
    } else {
      rest := [];
    }
  }

  /** A single letter E that begins no exponent has no digit behind it. */
  lemma DigitMissing(s: seq<char>, a: nat, b: nat, p: Part)
    requires a <= b <= |s| && s[a..b] == PartText(p) && PartFormed(p) && (p.letters == "e" || p.letters == "E")
    requires Exponent(s, a).0 == 0
    ensures p.digit == ""
  {
    hide SkipWhile;
    if p.digit != "" {
      var minus := if p.minus then "-" else "";
      Together(p.letters, minus, p.digit);
      ThreeParts(s, a, b, p.letters, minus, p.digit);
      DigitIs(p);
      assert s[a] == s[a..a + 1][0] && (p.minus ==> s[a + 1] == s[a + 1..a + 2][0]);
      SkipTo(s, a + 1, Ws, a + 1);
    }
  }

  lemma SuffixWritten(s: seq<char>, a: nat) returns (u: Suffix)
    requires a <= |s| && SuffixEnd(s, a) > a
    ensures SuffixFormed(u) && s[a..SuffixEnd(s, a)] == SuffixText(u)
    ensures Exponent(s, a).0 == 0 && !u.slash && (u.first.letters == "e" || u.first.letters == "E") ==> u.first.digit == ""
  {
    hide SkipWhile, SuffixPart, SuffixTail, PartText, RestText, Exponent, PartFormed;
    var p, b := SkipChr(s, a, '/'), SuffixEnd(s, a);
    if SkipWhile(s, p, Alpha) > p {
      var first := PartWritten(s, p);
      var c := SuffixPart(s, p);
      var rest := TailWritten(s, c);
      u := Suffix(p > a, first, rest);
      assert s[a..b] == s[a..p] + s[p..c] + s[c..b];
      assert s[a..p] == if p > a then "/" else "";
      if Exponent(s, a).0 == 0 && p == a && (first.letters == "e" || first.letters == "E") {
        DigitMissing(s, a, c, first);
      }
    } else {
      u := Suffix(true, Part("", false, ""), []);
      SlashAlone();
      assert s[a..b] == "/";
    }
  }

  lemma SlashAlone()
    ensures var u := Suffix(true, Part("", false, ""), []); SuffixFormed(u) && SuffixText(u) == "/"
  {
  }

  lemma DecimalWritten(s: seq<char>, w: nat) returns (x: DataText, e: nat)
    requires w <= |s| && DecimalEnd(s, w) > w
    ensures w <= e <= |s| && Skipped(x) == 0 && DataFormed(x) && s[w..e] == Written(x)
    ensures DecimalDatum(s, w) == BareOf(w, e, SkipWhile(s, e, Ws), x)
  {
    hide SkipWhile, DecimalEnd, SuffixEnd, DecimalFormed, SuffixFormed, NumberText, SuffixText, Blanks, Exponent;
    var n := DecimalEnd(s, w);
    var a := SkipWhile(s, n, Ws);
    var d := NumberWritten(s, w);
    if SuffixEnd(s, a) > a {
      var u := SuffixWritten(s, a);
      BlanksWritten(s, n);
      e := SuffixEnd(s, a);
      x := SuffixedText(d, s[n..a], u);
      assert s[w..e] == s[w..n] + s[n..a] + s[a..e];
    } else {
      e := n;
      x := DecimalText(d);
    }
  }

  /** Whatever is recognised as a parameter is the text of one, and is recognised as that. */
  lemma DataIsText(s: seq<char>, w: nat) returns (x: DataText, e: nat)
    requires w <= |s| && BareDatum(s, w).count > 0
    ensures w + Skipped(x) <= e <= |s| && DataFormed(x) && s[w..e] == Written(x)
    ensures BareDatum(s, w) == BareOf(w, e, SkipWhile(s, e, Ws), x)
  {
    hide NondecimalEnd, MnemonicEnd, DecimalDatum, StringEnd, BlockAt, ExpressionEnd, SkipWhile, DataFormed, Written;
    if NondecimalDatum(s, w).count > 0 {
      x := BasedWritten(s, w);
      e := NondecimalEnd(s, w);
    } else if MnemonicDatum(s, w).count > 0 {
      x := WordWritten(s, w);
      e := MnemonicEnd(s, w);
    } else if DecimalDatum(s, w).count > 0 {
      NumberThere(s, w);
      x, e := DecimalWritten(s, w);
    } else if StringDatum(s, w).count > 0 {
      x := QuotedWritten(s, w);
      e := StringEnd(s, w);
    } else if BlockDatum(s, w).count > 0 {
      x, e := BlockWritten(s, w);
    } else {
      ExpressionThere(s, w);
      x := ExpressionWritten(s, w);
      e := ExpressionEnd(s, w);
    }
  }

  lemma NumberThere(s: seq<char>, w: nat)
    requires w <= |s| && DecimalDatum(s, w).count > 0
    ensures DecimalEnd(s, w) > w
  {
  }

  /** Behind an incomplete block nothing is left to be an expression. */
  lemma ExpressionThere(s: seq<char>, w: nat)
    requires w <= |s| && BlockDatum(s, w).count == 0 && ExpressionDatum(s, BlockDatum(s, w).next).count > 0
    ensures BlockDatum(s, w).next == w && ExpressionEnd(s, w) > w
  {
    hide BlockAt;
  }
}
