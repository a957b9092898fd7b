/**
 Parameters and message units on a text that is cut short: what ends before the
 cut is unchanged, and what does not leaves no end-of-line character behind that
 the scan could take for the end of the line, blocks with newlines included.
 */
module DataCut {
  import opened Arithmetic
  import opened LexSpec
  import opened LexCut

  lemma DecimalDatumCut(s: seq<char>, n: nat, w: nat)
    requires w <= n <= |s| && DecimalDatum(s, w).count > 0 && Before(s, DecimalDatum(s, w).next, n)
    ensures DecimalDatum(s[..n], w) == DecimalDatum(s, w)
  {
    hide DecimalEnd, SkipWhile, SuffixEnd;
    var e := DecimalEnd(s, w);
    DecimalCut(s, n, w);
    SkipCut(s, n, e, Ws);
    SuffixCut(s, n, SkipWhile(s, e, Ws));
  }

  lemma BlockDatumCut(s: seq<char>, n: nat, w: nat)
    requires w < n <= |s| && BlockAt(s, w).BlockData?
    ensures var d := BlockDatum(s, w);
            BlockDatum(s[..n], w) == if d.next <= n then d else NoDatum(n)
  {
    hide BlockAt;
    BlockCut(s, n, w);
  }

  lemma NondecimalDatumCut(s: seq<char>, n: nat, w: nat)
    requires w <= n <= |s| && NondecimalDatum(s, w).count > 0 && Before(s, NondecimalDatum(s, w).next, n)
    ensures NondecimalDatum(s[..n], w) == NondecimalDatum(s, w)
  {
    hide NondecimalEnd;
    NondecimalCut(s, n, w);
  }

  lemma MnemonicDatumCut(s: seq<char>, n: nat, w: nat)
    requires w <= n <= |s| && Before(s, MnemonicDatum(s, w).next, n)
    ensures MnemonicDatum(s[..n], w) == MnemonicDatum(s, w)
  {
    hide MnemonicEnd;
    MnemonicCut(s, n, w);
  }

  lemma StringDatumCut(s: seq<char>, n: nat, w: nat)
    requires w <= n <= |s| && StringDatum(s, w).count > 0 && Before(s, StringDatum(s, w).next, n)
    ensures StringDatum(s[..n], w) == StringDatum(s, w)
  {
    hide StringEnd;
    StringCut(s, n, w);
  }

  lemma ExpressionDatumCut(s: seq<char>, n: nat, w: nat)
    requires w <= n <= |s| && ExpressionDatum(s, w).count > 0 && Before(s, ExpressionDatum(s, w).next, n)
    ensures ExpressionDatum(s[..n], w) == ExpressionDatum(s, w)
  {
    hide ExpressionEnd;
    ExpressionCut(s, n, w);
  }

  /** No two recognisers accept data with the same first characters. */
  lemma FirstCharacters(s: seq<char>, w: nat)
    requires w < |s|
    ensures NondecimalDatum(s, w).count > 0 ==> s[w] == '#' && w + 1 < |s| && !IsDigit(s[w + 1])
    ensures MnemonicDatum(s, w).count > 0 <==> IsAlpha(s[w])
    ensures DecimalDatum(s, w).count > 0 ==> IsDigit(s[w]) || IsPlusMinus(s[w]) || s[w] == '.'
    ensures StringDatum(s, w).count > 0 ==> IsQuote(s[w])
    ensures s[w] != '#' ==> BlockDatum(s, w) == NoDatum(w)
    ensures ExpressionDatum(s, w).count > 0 ==> s[w] == '('
  {
    hide SkipWhile, DecimalEnd, SuffixEnd, StringEnd, ExpressionEnd, LengthDigits, NondecimalEnd;
  }

  lemma BlockOutcomes(s: seq<char>, w: nat)
    requires w <= |s|
    ensures BlockDatum(s, w).count > 0 <==> BlockAt(s, w).BlockData?
    ensures BlockDatum(s, w).count == 0 ==> BlockDatum(s, w) == NoDatum(w) || BlockDatum(s, w) == NoDatum(|s|)
    ensures ExpressionDatum(s, |s|) == NoDatum(|s|)
  {
    hide BlockAt;
  }

  /** A block is no other kind of datum. */
  lemma OnlyBlock(s: seq<char>, w: nat)
    requires w < |s| && BlockDatum(s, w) != NoDatum(w)
    ensures BareDatum(s, w) == BlockDatum(s, w)
  {
    hide NondecimalDatum, MnemonicDatum, DecimalDatum, StringDatum, LengthDigits;
    FirstCharacters(s, w);
    BlockOutcomes(s, w);
  }

  lemma BareCut(s: seq<char>, n: nat, w: nat)
    requires w < n <= |s| && BareDatum(s, w).count > 0 && Before(s, BareDatum(s, w).next, n)
    ensures BareDatum(s[..n], w) == BareDatum(s, w)
  {
    hide NondecimalDatum, MnemonicDatum, DecimalDatum, StringDatum, BlockDatum, ExpressionDatum;
    FirstCharacters(s, w);
    FirstCharacters(s[..n], w);
    BlockOutcomes(s, w);
    if NondecimalDatum(s, w).count > 0 {
      NondecimalDatumCut(s, n, w);
    } else if MnemonicDatum(s, w).count > 0 {
      MnemonicDatumCut(s, n, w);
    } else if DecimalDatum(s, w).count > 0 {
      DecimalDatumCut(s, n, w);
    } else if StringDatum(s, w).count > 0 {
      StringDatumCut(s, n, w);
    } else if BlockDatum(s, w).count > 0 {
      BlockDatumCut(s, n, w);
      OnlyBlock(s[..n], w);
    } else {
      ExpressionDatumCut(s, n, w);
    }
  }

  lemma DecimalDatumFree(s: seq<char>, w: nat)
    requires w <= |s|
    ensures EolFree(s, w, DecimalDatum(s, w).next)
  {
    hide DecimalEnd, SkipWhile, SuffixEnd;
    var e := DecimalEnd(s, w);
    DecimalFree(s, w);
    SkipFree(s, e, Ws);
    SuffixFree(s, SkipWhile(s, e, Ws));
  }

  /** Only strings and blocks can hold an end-of-line character. */
  lemma BareFree(s: seq<char>, w: nat)
    requires w <= |s|
    requires var d := BareDatum(s, w);
             d.count > 0 && d.token.kind != TokBlock && (IsString(d.token.kind) ==> EolFree(s, w, d.next))
    ensures EolFree(s, w, BareDatum(s, w).next)
  {
    hide DecimalDatum, MnemonicEnd, NondecimalEnd, ExpressionEnd, StringEnd, BlockAt;
    if NondecimalDatum(s, w).count > 0 {
      NondecimalFree(s, w);
    } else if MnemonicDatum(s, w).count > 0 {
      MnemonicFree(s, w);
    } else if DecimalDatum(s, w).count > 0 {
      DecimalDatumFree(s, w);
    } else if StringDatum(s, w).count > 0 {
      assert IsString(StringDatum(s, w).token.kind);
    } else {
      BlockOutcomes(s, w);
      ExpressionFree(s, w);
    }
  }

  /** The characters that end a message unit. */
  predicate Ends(s: seq<char>, p: nat) {
    p < |s| && (IsEol(s[p]) || s[p] == ';')
  }

  /** No string among the parameters at `i` holds an end-of-line character. */
  ghost predicate CleanData(s: seq<char>, i: nat)
    requires i <= |s|
    decreases |s| - i
  {
    var d := DatumAt(s, i);
    && CleanDatum(s, i)
    && (!d.token.kind.TokUnknown? && d.next < |s| && s[d.next] == ',' ==> CleanData(s, d.next + 1))
  }

  ghost predicate CleanDatum(s: seq<char>, i: nat)
    requires i <= |s|
  {
    var w := SkipWhile(s, i, Ws);
    IsString(BareDatum(s, w).token.kind) ==> EolFree(s, w, BareDatum(s, w).next)
  }

  lemma DatumSame(s: seq<char>, n: nat, i: nat)
    requires i <= n <= |s| && Before(s, DatumAt(s, i).next, n) && !DatumAt(s, i).token.kind.TokUnknown?
    ensures DatumAt(s[..n], i) == DatumAt(s, i)
  {
    hide SkipWhile, BareDatum;
    var w := SkipWhile(s, i, Ws);
    SkipCut(s, n, i, Ws);
    BareCut(s, n, w);
    SkipCut(s, n, BareDatum(s, w).next, Ws);
  }

  /** Nothing is recognised at the character that ends a unit. */
  lemma NoDatumAtEnd(s: seq<char>, w: nat)
    requires w < |s| && Ends(s, w)
    ensures BareDatum(s, w) == NoDatum(w)
  {
    hide NondecimalDatum, MnemonicDatum, DecimalDatum, StringDatum, BlockDatum, ExpressionDatum;
    FirstCharacters(s, w);
    MissedExpression(s, w);
  }

  /** Nor at the end of the text. */
  lemma NothingLeft(s: seq<char>)
    ensures BareDatum(s, |s|) == NoDatum(|s|)
  {
  }

  lemma MissedExpression(s: seq<char>, w: nat)
    requires w <= |s| && ExpressionDatum(s, w).count == 0
    ensures ExpressionDatum(s, w) == NoDatum(w)
  {
  }

  lemma MissedDatum(s: seq<char>, w: nat)
    requires w <= |s| && BareDatum(s, w).token.kind.TokUnknown?
    ensures BareDatum(s, w) == NoDatum(w) || BareDatum(s, w) == NoDatum(|s|)
  {
    hide NondecimalDatum, MnemonicDatum, DecimalDatum, StringDatum, BlockDatum, ExpressionDatum;
    BlockOutcomes(s, w);
    MissedExpression(s, BlockDatum(s, w).next);
  }

  /** A datum that is missing before the end of the unit. */
  lemma MissingDatum(s: seq<char>, i: nat)
    requires i <= |s| && DatumAt(s, i).token.kind.TokUnknown? && Ends(s, DatumAt(s, i).next)
    ensures DatumAt(s, i) == Datum(Token(TokUnknown, SkipWhile(s, i, Ws), 0), SkipWhile(s, i, Ws) - i, SkipWhile(s, i, Ws))
  {
    hide BareDatum, SkipWhile, Ends, DatumAt;
    var w, d := SkipWhile(s, i, Ws), DatumAt(s, i);
    DatumParts(s, i);
    MissedDatum(s, w);
    SkipTwice(s, i);
    EndsInside(s, d.next);
  }

  lemma DatumParts(s: seq<char>, i: nat)
    requires i <= |s|
    ensures var w := SkipWhile(s, i, Ws);
            var b := BareDatum(s, w);
            var f := SkipWhile(s, b.next, Ws);
            DatumAt(s, i) == Datum(b.token, (w - i) + b.count + (f - b.next), f)
  {
    hide BareDatum, SkipWhile;
  }

  lemma SkipTwice(s: seq<char>, i: nat)
    requires i <= |s|
    ensures var w := SkipWhile(s, i, Ws); SkipWhile(s, w, Ws) == w
    ensures SkipWhile(s, |s|, Ws) == |s|
  {
    hide SkipWhile;
  }

  lemma EndsInside(s: seq<char>, p: nat)
    requires Ends(s, p)
    ensures p < |s|
  {
  }

  lemma DatumFails(s: seq<char>, n: nat, i: nat)
    requires i <= n <= |s| && DatumAt(s, i).token.kind.TokUnknown? && Ends(s, DatumAt(s, i).next)
    requires Before(s, DatumAt(s, i).next, n)
    ensures DatumAt(s[..n], i) == DatumAt(s, i)
  {
    hide BareDatum, SkipWhile;
    var w := SkipWhile(s, i, Ws);
    MissingDatum(s, i);
    SkipCut(s, n, i, Ws);
    if w < n {
      NoDatumAtEnd(s[..n], w);
    } else {
      NothingLeft(s[..n]);
    }
  }

  /** Where a datum that reaches the cut leaves off on the shorter text. */
  lemma DatumLate(s: seq<char>, n: nat, i: nat)
    requires i <= n <= |s| && n <= DatumAt(s, i).next && CleanDatum(s, i)
    requires DatumAt(s, i).token.kind.TokUnknown? ==> Ends(s, DatumAt(s, i).next)
    ensures EolFree(s, DatumAt(s[..n], i).next, n)
  {
    hide BareDatum, SkipWhile;
    var w := SkipWhile(s, i, Ws);
    var d := BareDatum(s, w);
    SkipFree(s, i, Ws);
    SkipFree(s, d.next, Ws);
    if d.token.kind.TokUnknown? {
      MissingDatum(s, i);
    } else if d.token.kind != TokBlock {
      BareFree(s, w);
    } else if w < n {
      BlockLate(s, n, w);
      SkipCut(s, n, i, Ws);
    }
  }

  lemma BlockLate(s: seq<char>, n: nat, w: nat)
    requires w < n <= |s| && BareDatum(s, w).token.kind == TokBlock
    ensures BareDatum(s[..n], w).next >= Min(BareDatum(s, w).next, n)
  {
    hide BlockAt;
    BlockIsBlock(s, w);
    BlockOutcomes(s, w);
    BlockDatumCut(s, n, w);
    OnlyBlock(s[..n], w);
  }

  lemma BlockIsBlock(s: seq<char>, w: nat)
    requires w < |s| && BareDatum(s, w).token.kind == TokBlock
    ensures BareDatum(s, w) == BlockDatum(s, w) && BlockDatum(s, w).count > 0
  {
    hide BlockAt, SkipWhile, DecimalEnd, SuffixEnd, StringEnd, ExpressionEnd, NondecimalEnd, MnemonicEnd;
  }

  lemma {:induction false} DataSame(s: seq<char>, n: nat, i: nat)
    requires i <= n <= |s| && Ends(s, DataAt(s, i).next) && Before(s, DataAt(s, i).next, n)
    ensures DataAt(s[..n], i) == DataAt(s, i)
    decreases |s| - i
  {
    hide DatumAt;
    var d := DatumAt(s, i);
    if d.token.kind.TokUnknown? {
      DatumFails(s, n, i);
    } else {
      DatumSame(s, n, i);
      if d.next < |s| && s[d.next] == ',' {
        DataSame(s, n, d.next + 1);
      }
    }
  }

  lemma {:induction false} DataLate(s: seq<char>, n: nat, i: nat)
    requires i <= n <= |s| && n <= DataAt(s, i).next && Ends(s, DataAt(s, i).next) && CleanData(s, i)
    ensures EolFree(s, DataAt(s[..n], i).next, n)
    decreases |s| - i
  {
    hide DatumAt, CleanDatum;
    var d := DatumAt(s, i);
    if n <= d.next {
      DatumLate(s, n, i);
    } else {
      DatumSame(s, n, i);
      DataLate(s, n, d.next + 1);
    }
  }

  /** A unit body that ends properly and has clean strings. */
  ghost predicate GoodBody(s: seq<char>, i: nat)
    requires i <= |s|
  {
    && Ends(s, BodyAt(s, i).end)
    && (BodyAt(s, i).params != 0 ==> CleanData(s, DataStart(s, i)))
  }

  /** Where the parameters of the unit at `i` would begin. */
  function DataStart(s: seq<char>, i: nat): (v: nat)
    requires i <= |s|
    ensures i <= v <= |s|
  {
    var h := HeaderAt(s, SkipWhile(s, i, Ws));
    SkipWhile(s, h.ptr + h.len, Ws)
  }

  lemma BodySame(s: seq<char>, n: nat, i: nat)
    requires i <= n <= |s| && GoodBody(s, i) && Before(s, BodyAt(s, i).end, n)
    ensures BodyAt(s[..n], i) == BodyAt(s, i)
  {
    hide HeaderAt, SkipWhile, DataAt, CleanData;
    var w := SkipWhile(s, i, Ws);
    var e := w + HeaderAt(s, w).len;
    var v := SkipWhile(s, e, Ws);
    SkipCut(s, n, i, Ws);
    HeaderCut(s, n, w);
    SkipCut(s, n, e, Ws);
    if v != e {
      DataSame(s, n, v);
    }
  }

  lemma BodyLate(s: seq<char>, n: nat, i: nat)
    requires i <= n <= |s| && n <= BodyAt(s, i).end && GoodBody(s, i)
    ensures EolFree(s, BodyAt(s[..n], i).end, n)
  {
    hide HeaderAt, SkipWhile, DataAt, CleanData;
    var w := SkipWhile(s, i, Ws);
    var e := w + HeaderAt(s, w).len;
    var v := SkipWhile(s, e, Ws);
    SkipFree(s, i, Ws);
    HeaderFree(s, w);
    SkipFree(s, e, Ws);
    SkipCut(s, n, i, Ws);
    if e < n {
      HeaderCut(s, n, w);
      SkipCut(s, n, e, Ws);
      if v < n {
        DataLate(s, n, v);
      }
    }
  }
}
