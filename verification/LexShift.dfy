/**
 Recognition does not look back: on the rest of a text the recognisers find what they
 find on the whole text, counted from the start of the rest. The parser relies on
 this when it moves its pointer from unit to unit.
 */
module LexShift {
  import opened LexSpec

  lemma {:induction false} SkipShift(s: seq<char>, p: nat, i: nat, k: CharClass)
    requires p + i <= |s|
    ensures SkipWhile(s, p + i, k) == p + SkipWhile(s[p..], i, k)
    decreases |s| - p - i
  {
    if p + i < |s| && In(k, s[p + i]) {
      SkipShift(s, p, i + 1, k);
    }
  }

  lemma ChrShift(s: seq<char>, p: nat, i: nat, c: char)
    requires p + i <= |s|
    ensures SkipChr(s, p + i, c) == p + SkipChr(s[p..], i, c)
  {
  }

  lemma MnemonicShift(s: seq<char>, p: nat, i: nat)
    requires p + i <= |s|
    ensures MnemonicEnd(s, p + i) == p + MnemonicEnd(s[p..], i)
  {
    hide SkipWhile;
    if p + i < |s| {
      SkipShift(s, p, i + 1, Word);
    }
  }

  lemma {:induction false} CompoundTailShift(s: seq<char>, p: nat, i: nat)
    requires p + i <= |s|
    ensures CompoundTail(s, p + i) == var r := CompoundTail(s[p..], i); (r.0, p + r.1)
    decreases |s| - p - i
  {
    hide MnemonicEnd;
    if p + i < |s| && s[p + i] == ':' {
      MnemonicShift(s, p, i + 1);
      var j := MnemonicEnd(s[p..], i + 1);
      if j != i + 1 && p + j < |s| {
        CompoundTailShift(s, p, j);
      }
    }
  }

  lemma CompoundShift(s: seq<char>, p: nat, i: nat)
    requires p + i <= |s|
    ensures Compound(s, p + i) == var r := Compound(s[p..], i); (r.0, p + r.1)
  {
    hide MnemonicEnd, CompoundTail, SkipChr;
    ChrShift(s, p, i, ':');
    var c := SkipChr(s[p..], i, ':');
    MnemonicShift(s, p, c);
    CompoundTailShift(s, p, MnemonicEnd(s[p..], c));
  }

  lemma CommonShift(s: seq<char>, p: nat, i: nat)
    requires p + i <= |s|
    ensures Common(s, p + i) == var r := Common(s[p..], i); (r.0, p + r.1)
  {
    hide MnemonicEnd;
    if p + i < |s| {
      MnemonicShift(s, p, i + 1);
    }
  }

  function Moved(t: Token, p: nat): Token { Token(t.kind, p + t.ptr, t.len) }

  lemma HeaderShift(s: seq<char>, p: nat, i: nat)
    requires p + i <= |s|
    ensures HeaderAt(s, p + i) == Moved(HeaderAt(s[p..], i), p)
  {
    hide Compound, Common, SkipChr;
    CommonShift(s, p, i);
    CompoundShift(s, p, i);
    var common := Common(s[p..], i);
    ChrShift(s, p, if common.0.SkipNone? then Compound(s[p..], i).1 else common.1, '?');
  }

  lemma SignShift(s: seq<char>, p: nat, i: nat)
    requires p + i <= |s|
    ensures SkipPlusMinus(s, p + i) == p + SkipPlusMinus(s[p..], i)
  {
  }

  lemma MantissaShift(s: seq<char>, p: nat, i: nat)
    requires p + i <= |s|
    ensures Mantissa(s, p + i) == var r := Mantissa(s[p..], i); (r.0, p + r.1)
  {
    hide SkipWhile, SkipPlusMinus, SkipChr;
    SignShift(s, p, i);
    var q := SkipPlusMinus(s[p..], i);
    SkipShift(s, p, q, Digit);
    var a := SkipWhile(s[p..], q, Digit);
    ChrShift(s, p, a, '.');
    SkipShift(s, p, SkipChr(s[p..], a, '.'), Digit);
  }

  lemma ExponentShift(s: seq<char>, p: nat, i: nat)
    requires p + i <= |s|
    ensures Exponent(s, p + i) == var r := Exponent(s[p..], i); (r.0, p + r.1)
  {
    hide SkipWhile, SkipPlusMinus;
    if p + i < |s| {
      SkipShift(s, p, i + 1, Ws);
      var w := SkipWhile(s[p..], i + 1, Ws);
      SignShift(s, p, w);
      SkipShift(s, p, SkipPlusMinus(s[p..], w), Digit);
    }
  }

  lemma DecimalShift(s: seq<char>, p: nat, i: nat)
    requires p + i <= |s|
    ensures DecimalEnd(s, p + i) == p + DecimalEnd(s[p..], i)
  {
    hide SkipWhile, Mantissa, Exponent;
    MantissaShift(s, p, i);
    var m := Mantissa(s[p..], i);
    SkipShift(s, p, m.1, Ws);
    ExponentShift(s, p, SkipWhile(s[p..], m.1, Ws));
  }

  lemma SuffixPartShift(s: seq<char>, p: nat, i: nat)
    requires p + i <= |s|
    ensures SuffixPart(s, p + i) == p + SuffixPart(s[p..], i)
  {
    hide SkipWhile, SkipChr;
    SkipShift(s, p, i, Alpha);
    ChrShift(s, p, SkipWhile(s[p..], i, Alpha), '-');
  }

  lemma {:induction false} SuffixTailShift(s: seq<char>, p: nat, i: nat)
    requires p + i <= |s|
    ensures SuffixTail(s, p + i) == p + SuffixTail(s[p..], i)
    decreases |s| - p - i
  {
    hide SuffixPart;
    if p + i < |s| && (s[p + i] == '/' || s[p + i] == '.') {
      SuffixPartShift(s, p, i + 1);
      SuffixTailShift(s, p, SuffixPart(s[p..], i + 1));
    }
  }

  lemma SuffixShift(s: seq<char>, p: nat, i: nat)
    requires p + i <= |s|
    ensures SuffixEnd(s, p + i) == p + SuffixEnd(s[p..], i)
  {
    hide SkipWhile, SkipChr, SuffixPart, SuffixTail;
    ChrShift(s, p, i, '/');
    var q := SkipChr(s[p..], i, '/');
    SkipShift(s, p, q, Alpha);
    SuffixPartShift(s, p, q);
    SuffixTailShift(s, p, SuffixPart(s[p..], q));
  }

  lemma NondecimalShift(s: seq<char>, p: nat, i: nat)
    requires p + i <= |s|
    ensures NondecimalEnd(s, p + i) == p + NondecimalEnd(s[p..], i)
  {
    hide SkipWhile;
    if p + i + 1 < |s| {
      SkipShift(s, p, i + 2, BaseOf(s[p + i + 1]).1);
    }
  }

  lemma {:induction false} QuoteStopShift(s: seq<char>, p: nat, i: nat, q: char)
    requires p + i <= |s|
    ensures QuoteStop(s, p + i, q) == p + QuoteStop(s[p..], i, q)
    decreases |s| - p - i
  {
    if p + i < |s| {
      if s[p + i] == q {
        if p + i + 1 < |s| && s[p + i + 1] == q {
          QuoteStopShift(s, p, i + 2, q);
        }
      } else {
        QuoteStopShift(s, p, i + 1, q);
      }
    }
  }

  lemma StringShift(s: seq<char>, p: nat, i: nat)
    requires p + i <= |s|
    ensures StringEnd(s, p + i) == p + StringEnd(s[p..], i)
  {
    hide QuoteStop;
    if p + i < |s| {
      QuoteStopShift(s, p, i + 1, s[p + i]);
    }
  }

  lemma {:induction false} LengthShift(s: seq<char>, p: nat, i: nat, k: nat, value: nat)
    requires p + i <= |s|
    ensures LengthDigits(s, p + i, k, value) == var r := LengthDigits(s[p..], i, k, value); (p + r.0, r.1, r.2)
    decreases k
  {
    if k > 0 && p + i < |s| && IsDigit(s[p + i]) {
      LengthShift(s, p, i + 1, k - 1, 10 * value + (s[p + i] as nat - '0' as nat));
    }
  }

  function MovedBlock(b: Block, p: nat): Block {
    if b.BlockData? then BlockData(p + b.start, b.len) else b
  }

  lemma BlockShift(s: seq<char>, p: nat, i: nat)
    requires p + i <= |s|
    ensures BlockAt(s, p + i) == MovedBlock(BlockAt(s[p..], i), p)
  {
    hide LengthDigits;
    if p + i + 1 < |s| && IsDigit(s[p + i + 1]) {
      LengthShift(s, p, i + 2, s[p + i + 1] as nat - '0' as nat, 0);
    }
  }

  lemma ExpressionShift(s: seq<char>, p: nat, i: nat)
    requires p + i <= |s|
    ensures ExpressionEnd(s, p + i) == p + ExpressionEnd(s[p..], i)
  {
    hide SkipWhile;
    if p + i < |s| {
      SkipShift(s, p, i + 1, ExpressionChar);
    }
  }

  function MovedDatum(d: Datum, p: nat): Datum { Datum(Moved(d.token, p), d.count, p + d.next) }

  lemma DecimalDatumShift(s: seq<char>, p: nat, w: nat)
    requires p + w <= |s|
    ensures DecimalDatum(s, p + w) == MovedDatum(DecimalDatum(s[p..], w), p)
  {
    hide DecimalEnd, SkipWhile, SuffixEnd;
    DecimalShift(s, p, w);
    var e := DecimalEnd(s[p..], w);
    SkipShift(s, p, e, Ws);
    SuffixShift(s, p, SkipWhile(s[p..], e, Ws));
  }

  lemma NondecimalDatumShift(s: seq<char>, p: nat, w: nat)
    requires p + w <= |s|
    ensures NondecimalDatum(s, p + w) == MovedDatum(NondecimalDatum(s[p..], w), p)
  {
    hide NondecimalEnd;
    NondecimalShift(s, p, w);
  }

  lemma MnemonicDatumShift(s: seq<char>, p: nat, w: nat)
    requires p + w <= |s|
    ensures MnemonicDatum(s, p + w) == MovedDatum(MnemonicDatum(s[p..], w), p)
  {
    hide MnemonicEnd;
    MnemonicShift(s, p, w);
  }

  lemma StringDatumShift(s: seq<char>, p: nat, w: nat)
    requires p + w <= |s|
    ensures StringDatum(s, p + w) == MovedDatum(StringDatum(s[p..], w), p)
  {
    hide StringEnd;
    StringShift(s, p, w);
  }

  lemma BlockDatumShift(s: seq<char>, p: nat, w: nat)
    requires p + w <= |s|
    ensures BlockDatum(s, p + w) == MovedDatum(BlockDatum(s[p..], w), p)
  {
    hide BlockAt;
    BlockShift(s, p, w);
  }

  lemma ExpressionDatumShift(s: seq<char>, p: nat, w: nat)
    requires p + w <= |s|
    ensures ExpressionDatum(s, p + w) == MovedDatum(ExpressionDatum(s[p..], w), p)
  {
    hide ExpressionEnd;
    ExpressionShift(s, p, w);
  }

  lemma BareShift(s: seq<char>, p: nat, w: nat)
    requires p + w <= |s|
    ensures BareDatum(s, p + w) == MovedDatum(BareDatum(s[p..], w), p)
  {
    hide NondecimalDatum, MnemonicDatum, DecimalDatum, StringDatum, BlockDatum, ExpressionDatum;
    NondecimalDatumShift(s, p, w);
    MnemonicDatumShift(s, p, w);
    DecimalDatumShift(s, p, w);
    StringDatumShift(s, p, w);
    BlockDatumShift(s, p, w);
    ExpressionDatumShift(s, p, BlockDatum(s[p..], w).next);
  }

  lemma DatumShift(s: seq<char>, p: nat, i: nat)
    requires p + i <= |s|
    ensures DatumAt(s, p + i) == MovedDatum(DatumAt(s[p..], i), p)
  {
    hide BareDatum, SkipWhile;
    SkipShift(s, p, i, Ws);
    var w := SkipWhile(s[p..], i, Ws);
    BareShift(s, p, w);
    SkipShift(s, p, BareDatum(s[p..], w).next, Ws);
  }

  lemma {:induction false} DataShift(s: seq<char>, p: nat, i: nat)
    requires p + i <= |s|
    ensures DataAt(s, p + i) == var l := DataAt(s[p..], i); DataList(l.ok, l.count, l.params, p + l.next)
    decreases |s| - p - i
  {
    hide DatumAt;
    DatumShift(s, p, i);
    var d := DatumAt(s[p..], i);
    if !d.token.kind.TokUnknown? && p + d.next < |s| && s[p + d.next] == ',' {
      DataShift(s, p, d.next + 1);
    }
  }

  lemma BodyShift(s: seq<char>, p: nat, i: nat)
    requires p + i <= |s|
    ensures BodyAt(s, p + i) == var b := BodyAt(s[p..], i); Body(Moved(b.header, p), Moved(b.data, p), b.params, p + b.end)
  {
    hide HeaderAt, SkipWhile, DataAt;
    SkipShift(s, p, i, Ws);
    var w := SkipWhile(s[p..], i, Ws);
    HeaderShift(s, p, w);
    var e := w + HeaderAt(s[p..], w).len;
    SkipShift(s, p, e, Ws);
    DataShift(s, p, SkipWhile(s[p..], e, Ws));
  }

  /** The unit at `p + i` is the unit that the parser finds at `i` behind its pointer `p`. */
  lemma UnitShift(s: seq<char>, p: nat, i: nat)
    requires p + i <= |s|
    ensures UnitAt(s, p + i) == var u := UnitAt(s[p..], i);
                                Unit(Moved(u.header, p), Moved(u.data, p), u.params, u.term, p + u.next)
  {
    hide BodyAt, SkipChr;
    BodyShift(s, p, i);
    var e := BodyAt(s[p..], i).end;
    ChrShift(s, p, e, '\r');
    ChrShift(s, p, SkipChr(s[p..], e, '\r'), '\n');
    ChrShift(s, p, e, ';');
  }
}
