/** What the parser's loop over the units of a line can rely on. */
module UnitLaws {
  import opened LexSpec
  import Framing

  /** The stretches of the line that successive units take. */
  function Stretches(line: seq<char>, t: nat): seq<seq<char>>
    requires t <= |line|
    decreases |line| - t
  {
    var u := UnitAt(line, t);
    [line[t..u.next]] + if u.next < |line| then Stretches(line, u.next) else []
  }

  /** Successive units take the whole line, each a character at least. */
  lemma {:induction false} UnitsPartition(line: seq<char>, t: nat)
    requires t < |line|
    ensures Framing.Flatten(Stretches(line, t)) == line[t..]
    ensures forall k | 0 <= k < |Stretches(line, t)| :: Stretches(line, t)[k] != []
    decreases |line| - t
  {
    hide UnitAt;
    var u := UnitAt(line, t);
    if u.next < |line| {
      UnitsPartition(line, u.next);
      assert Stretches(line, t)[1..] == Stretches(line, u.next);
    } else {
      assert Stretches(line, t)[1..] == [];
    }
  }

  /** White space after a bare number: read, but not counted. */
  function Trailing(s: seq<char>, d: Datum): nat
    requires 0 <= d.token.ptr + d.token.len <= |s|
  {
    var e := d.token.ptr + d.token.len;
    if d.token.kind == TokDecimal then SkipWhile(s, e, Ws) - e else 0
  }

  function Uncounted(s: seq<char>, i: nat): nat
    requires i <= |s|
    decreases |s| - i
  {
    var d := DatumAt(s, i);
    Trailing(s, d)
    + if !d.token.kind.TokUnknown? && d.next < |s| && s[d.next] == ',' then Uncounted(s, d.next + 1) else 0
  }

  lemma BareCount(s: seq<char>, w: nat)
    requires w <= |s| && BareDatum(s, w).count > 0
    ensures var d := BareDatum(s, w);
            && d.next == w + d.count + Trailing(s, d)
            && (d.token.kind == TokDecimal ==> d.next == SkipWhile(s, d.token.ptr + d.token.len, Ws))
  {
    hide NondecimalEnd, MnemonicEnd, DecimalEnd, SuffixEnd, StringEnd, ExpressionEnd, SkipWhile, LengthDigits;
    assert forall c :: BaseOf(c).0 != TokDecimal;
  }

  lemma DatumCount(s: seq<char>, i: nat)
    requires i <= |s| && !DatumAt(s, i).token.kind.TokUnknown?
    ensures DatumAt(s, i).next == i + DatumAt(s, i).count + Trailing(s, DatumAt(s, i))
  {
    hide BareDatum, SkipWhile;
    BareCount(s, SkipWhile(s, i, Ws));
  }

  /**
   The reported length of a parameter list falls short of what was read by exactly
   the white space that follows bare numbers.
   */
  lemma {:induction false} CountFallsShort(s: seq<char>, i: nat)
    requires i <= |s| && DataAt(s, i).ok
    ensures DataAt(s, i).next == i + DataAt(s, i).count + Uncounted(s, i)
    decreases |s| - i
  {
    hide DatumAt, Trailing;
    var d := DatumAt(s, i);
    DatumCount(s, i);
    if d.next < |s| && s[d.next] == ',' {
      CountFallsShort(s, d.next + 1);
    }
  }

  lemma NumberEnd(s: seq<char>, i: nat, e: nat, w: nat)
    requires i < e <= w <= |s| && (forall j | i <= j < e :: IsDigit(s[j])) && (forall j | e <= j < w :: In(Ws, s[j]))
    requires w == |s| || s[w] == ','
    ensures DecimalEnd(s, i) == e && SkipWhile(s, e, Ws) == w && SuffixEnd(s, w) == w
  {
    hide SkipWhile;
    SkipTo(s, i, Digit, e);
    SkipTo(s, e, Ws, w);
    SkipTo(s, w, Ws, w);
    SkipTo(s, w, Alpha, w);
    assert Mantissa(s, i) == (e - i, e);
    assert Exponent(s, w).0 == 0;
  }

  /** Digits up to `e`, white space up to `w`, and then a comma or nothing. */
  lemma OneNumber(s: seq<char>, i: nat, e: nat, w: nat)
    requires i < e <= w <= |s| && (forall j | i <= j < e :: IsDigit(s[j])) && (forall j | e <= j < w :: In(Ws, s[j]))
    requires w == |s| || s[w] == ','
    ensures DatumAt(s, i) == Datum(Token(TokDecimal, i, e - i), e - i, w)
  {
    hide StringDatum, BlockDatum, ExpressionDatum, SkipWhile, DecimalEnd, SuffixEnd;
    NumberEnd(s, i, e, w);
    SkipTo(s, i, Ws, i);
    SkipTo(s, w, Ws, w);
  }

  /** A number with white space up to the comma at `c`, and another number. */
  lemma TwoNumbers(s: seq<char>, e: nat, c: nat)
    requires 0 < e <= c && c + 1 < |s| && s[c] == ','
    requires (forall j | 0 <= j < e || c < j < |s| :: IsDigit(s[j])) && (forall j | e <= j < c :: In(Ws, s[j]))
    ensures DatumAt(s, 0) == Datum(Token(TokDecimal, 0, e), e, c)
    ensures DatumAt(s, c + 1) == Datum(Token(TokDecimal, c + 1, |s| - c - 1), |s| - c - 1, |s|)
    ensures DataAt(s, 0) == DataList(true, |s| - (c - e), 2, |s|)
  {
    hide DatumAt;
    OneNumber(s, 0, e, c);
    OneNumber(s, c + 1, |s|, |s|);
    assert DataAt(s, c + 1) == DataList(true, |s| - c - 1, 1, |s|);
  }

  /** `1 ,2` is reported one character short: the parameters are then read from `1 ,` alone. */
  lemma ShortOfOne()
    ensures DataAt("1 ,2", 0) == DataList(true, 3, 2, 4)
  {
    TwoNumbers("1 ,2", 1, 2);
  }
}
