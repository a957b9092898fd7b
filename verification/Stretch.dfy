/** Parameters are read from the stretch that the parser reports, which white space behind numbers makes too short. */
module Stretch {
  import opened LexSpec
  import opened LexCut
  import opened DataCut
  import opened LexShift
  import opened UnitLaws
  import P = Parameters

  /** The tokens of successive parameters, and what ends them. */
  function Read(s: seq<char>, i: nat, count: nat): (seq<Token>, P.Reading)
    requires i <= |s|
    decreases |s| - i
  {
    var r := P.ParameterAt(s, i, count);
    if r.Param? then
      var rest := Read(s, r.next, count + 1);
      ([r.token] + rest.0, rest.1)
    else ([], r)
  }

  /** Where the last parameter of the list at `i` ends, white space behind it excluded. */
  function LastEnd(s: seq<char>, i: nat): (e: nat)
    requires i <= |s|
    ensures i <= e <= |s|
    decreases |s| - i
  {
    var d := DatumAt(s, i);
    if !d.token.kind.TokUnknown? && d.next < |s| && s[d.next] == ',' then LastEnd(s, d.next + 1)
    else d.token.ptr + d.token.len
  }

  /** A token ends where reading goes on, but for white space behind a number. */
  lemma TokenEnd(s: seq<char>, w: nat)
    requires w <= |s| && BareDatum(s, w).count > 0
    ensures var d := BareDatum(s, w);
            var e := d.token.ptr + d.token.len;
            && w < e && (d.token.kind != TokDecimal ==> d.next == e)
            && (d.token.kind == TokDecimal ==>
                  d == DecimalDatum(s, w) && d.next == SkipWhile(s, e, Ws) && e == DecimalEnd(s, w))
  {
    hide NondecimalEnd, MnemonicEnd, DecimalEnd, SuffixEnd, StringEnd, ExpressionEnd, SkipWhile, BlockAt;
    assert forall c :: BaseOf(c).0 != TokDecimal;
  }

  lemma NumberCut(s: seq<char>, n: nat, w: nat)
    requires w < n <= |s| && BareDatum(s, w).count > 0 && BareDatum(s, w).token.kind == TokDecimal
    requires BareDatum(s, w).next == |s| && Before(s, DecimalEnd(s, w), n)
    ensures BareDatum(s[..n], w).token == BareDatum(s, w).token && BareDatum(s[..n], w).next == n
  {
    hide DecimalEnd, SuffixEnd, SkipWhile, NondecimalDatum, MnemonicDatum, StringDatum, BlockDatum, ExpressionDatum;
    var e := DecimalEnd(s, w);
    TokenEnd(s, w);
    FirstCharacters(s, w);
    FirstCharacters(s[..n], w);
    DecimalCut(s, n, w);
    SkipCut(s, n, e, Ws);
    NoSuffix(s[..n]);
  }

  lemma NoSuffix(s: seq<char>)
    ensures SuffixEnd(s, |s|) == |s|
  {
  }

  /** The last parameter, cut in the white space behind it. */
  lemma LastCut(s: seq<char>, n: nat, i: nat)
    requires i <= |s| && !DatumAt(s, i).token.kind.TokUnknown? && DatumAt(s, i).next == |s|
    requires DatumAt(s, i).token.ptr + DatumAt(s, i).token.len <= n <= |s|
    ensures i < n && DatumAt(s[..n], i).token == DatumAt(s, i).token && DatumAt(s[..n], i).next == n
  {
    hide BareDatum, SkipWhile, DecimalEnd;
    var w := SkipWhile(s, i, Ws);
    var b := BareDatum(s, w);
    var e := b.token.ptr + b.token.len;
    TokenEnd(s, w);
    if n == |s| {
      assert s[..n] == s;
    } else {
      assert In(Ws, s[n]);
      SkipCut(s, n, i, Ws);
      if b.token.kind == TokDecimal {
        SkipsAll(s, e);
        NumberCut(s, n, w);
        SkipsAll(s[..n], n);
      } else {
        BareCut(s, n, w);
        SkipCut(s, n, e, Ws);
      }
    }
  }

  lemma SkipsAll(s: seq<char>, e: nat)
    requires e <= |s|
    ensures SkipWhile(s, SkipWhile(s, e, Ws), Ws) == SkipWhile(s, e, Ws)
  {
    SkipTwice(s, e);
  }

  /** Without the last white space the same parameters are read. */
  lemma {:induction false} ReadCut(s: seq<char>, n: nat, i: nat, count: nat)
    requires i < |s| && (count > 0 ==> s[i] == ',')
    requires var j := if count > 0 then i + 1 else i;
             DataAt(s, j).ok && DataAt(s, j).next == |s| && LastEnd(s, j) <= n <= |s|
    ensures i < n && Read(s[..n], i, count) == Read(s, i, count)
    decreases |s| - i
  {
    hide DatumAt;
    var j := if count > 0 then i + 1 else i;
    var d := DatumAt(s, j);
    if d.next < |s| && s[d.next] == ',' {
      DatumSame(s, n, j);
      ReadCut(s, n, d.next, count + 1);
    } else {
      LastCut(s, n, j);
      assert P.ParameterAt(s[..n], i, count) == P.Param(d.token, n);
      assert Read(s[..n], n, count + 1) == Read(s, |s|, count + 1) == ([], P.Missing);
    }
  }

  /** All parameters of a list are read from the whole text, and the last one ends where it ends. */
  lemma {:induction false} ReadAll(s: seq<char>, i: nat, count: nat)
    requires i < |s| && (count > 0 ==> s[i] == ',')
    requires var j := if count > 0 then i + 1 else i; DataAt(s, j).ok && DataAt(s, j).next == |s|
    ensures var (tokens, end) := Read(s, i, count);
            var j := if count > 0 then i + 1 else i;
            && end == P.Missing && |tokens| == DataAt(s, j).params > 0
            && tokens[|tokens| - 1].ptr + tokens[|tokens| - 1].len == LastEnd(s, j)
    decreases |s| - i
  {
    hide DatumAt;
    var j := if count > 0 then i + 1 else i;
    var d := DatumAt(s, j);
    if d.next < |s| && s[d.next] == ',' {
      ReadAll(s, d.next, count + 1);
    } else {
      assert Read(s, |s|, count + 1) == ([], P.Missing);
    }
  }

  /** Behind the last parameter there is only white space. */
  lemma {:induction false} BlankBehind(s: seq<char>, i: nat)
    requires i <= |s| && DataAt(s, i).ok && DataAt(s, i).next == |s|
    ensures forall q | LastEnd(s, i) <= q < |s| :: In(Ws, s[q])
    decreases |s| - i
  {
    hide DatumAt;
    var d := DatumAt(s, i);
    if d.next < |s| && s[d.next] == ',' {
      BlankBehind(s, d.next + 1);
    } else {
      BlankDatum(s, i);
    }
  }

  lemma BlankDatum(s: seq<char>, i: nat)
    requires i <= |s| && !DatumAt(s, i).token.kind.TokUnknown?
    ensures var d := DatumAt(s, i); forall q | d.token.ptr + d.token.len <= q < d.next :: In(Ws, s[q])
  {
    hide BareDatum, SkipWhile, DecimalEnd;
    TokenEnd(s, SkipWhile(s, i, Ws));
  }

  lemma {:induction false} ReadInside(s: seq<char>, i: nat, count: nat)
    requires i <= |s|
    ensures forall t | t in Read(s, i, count).0 :: t.ptr + t.len <= |s|
    decreases |s| - i
  {
    hide P.ParameterAt;
    var r := P.ParameterAt(s, i, count);
    if r.Param? {
      ReadInside(s, r.next, count + 1);
    }
  }

  /**
   From the reported stretch of a parameter list the same parameters are read as from all of it,
   if and only if the white space left out is not more than what stands behind the last parameter.
   */
  lemma StretchExact(s: seq<char>)
    requires DataAt(s, 0).ok && DataAt(s, 0).next == |s|
    ensures DataAt(s, 0).count == |s| - Uncounted(s, 0)
    ensures Read(s, 0, 0).1 == P.Missing && |Read(s, 0, 0).0| == DataAt(s, 0).params
    ensures forall q | LastEnd(s, 0) <= q < |s| :: In(Ws, s[q])
    ensures Read(s[..DataAt(s, 0).count], 0, 0) == Read(s, 0, 0) <==> Uncounted(s, 0) <= |s| - LastEnd(s, 0)
  {
    hide DatumAt, DataAt, Uncounted, LastEnd, Read;
    var n := DataAt(s, 0).count;
    CountFallsShort(s, 0);
    SomeText(s);
    ReadAll(s, 0, 0);
    BlankBehind(s, 0);
    if LastEnd(s, 0) <= n {
      ReadCut(s, n, 0, 0);
    } else {
      var tokens := Read(s, 0, 0).0;
      ReadInside(s[..n], 0, 0);
      assert tokens[|tokens| - 1] in tokens;
    }
  }

  lemma SomeText(s: seq<char>)
    requires DataAt(s, 0).ok
    ensures s != []
  {
    hide BareDatum;
  }

  /** The parameters of a unit are such a list. */
  lemma ListOfUnit(s: seq<char>, v: nat)
    requires v <= |s| && DataAt(s, v).ok && Ends(s, DataAt(s, v).next)
    ensures var l := DataAt(s, v); DataAt(s[v..l.next], 0) == DataList(true, l.count, l.params, l.next - v)
  {
    hide DataAt;
    var n := DataAt(s, v).next;
    DataSame(s, n, v);
    DataShift(s[..n], v, 0);
    assert s[..n][v..] == s[v..n];
  }

  lemma ReadTwo(s: seq<char>, e: nat, c: nat)
    requires 0 < e <= c && c + 1 < |s| && s[c] == ','
    requires DatumAt(s, 0) == Datum(Token(TokDecimal, 0, e), e, c)
    requires DatumAt(s, c + 1) == Datum(Token(TokDecimal, c + 1, |s| - c - 1), |s| - c - 1, |s|)
    ensures Read(s, 0, 0) == ([Token(TokDecimal, 0, e), Token(TokDecimal, c + 1, |s| - c - 1)], P.Missing)
  {
    hide DatumAt, Read;
    var first, second := Token(TokDecimal, 0, e), Token(TokDecimal, c + 1, |s| - c - 1);
    ReadOnce(s, |s|, 2);
    assert P.ParameterAt(s, |s|, 2) == P.Missing;
    ReadOnce(s, c, 1);
    assert P.ParameterAt(s, c, 1) == P.Param(second, |s|);
    ReadOnce(s, 0, 0);
    assert P.ParameterAt(s, 0, 0) == P.Param(first, c);
    assert [first] + ([second] + []) == [first, second];
  }

  lemma ReadOnce(s: seq<char>, i: nat, count: nat)
    requires i <= |s|
    ensures var r := P.ParameterAt(s, i, count);
            Read(s, i, count) == if r.Param? then ([r.token] + Read(s, r.next, count + 1).0, Read(s, r.next, count + 1).1)
                                 else ([], r)
  {
    hide P.ParameterAt;
  }

  /** `1 ,222` is read as 1 and 22. */
  lemma ReadShort()
    ensures DataAt("1 ,222", 0) == DataList(true, 5, 2, 6) && "1 ,222"[..5] == "1 ,22"
    ensures Read("1 ,222", 0, 0) == ([Token(TokDecimal, 0, 1), Token(TokDecimal, 3, 3)], P.Missing)
    ensures Read("1 ,22", 0, 0) == ([Token(TokDecimal, 0, 1), Token(TokDecimal, 3, 2)], P.Missing)
  {
    hide DatumAt, DataAt, Read;
    TwoNumbers("1 ,222", 1, 2);
    ReadTwo("1 ,222", 1, 2);
    TwoNumbers("1 ,22", 1, 2);
    ReadTwo("1 ,22", 1, 2);
  }
}
