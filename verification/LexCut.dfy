/**
 Recognition on a text that is cut short. A recogniser that stops before the cut, or right
 there in front of white space or the end of a unit, stops there on the shorter text too; one
 that does not leaves nothing behind that could be taken for the end of a line.
 */
module LexCut {
  import opened Arithmetic
  import opened LexSpec

  /** No end-of-line character from `a` up to `b`. */
  ghost predicate EolFree(s: seq<char>, a: nat, b: nat) {
    forall q | a <= q < b && q < |s| :: !IsEol(s[q])
  }

  /** Characters that go on with nothing. */
  predicate Delimits(c: char) { IsEol(c) || In(Ws, c) || c == ';' }

  /** `e` lies before the cut at `n`, or the cut is there, in front of such a character. */
  predicate Before(s: seq<char>, e: nat, n: nat) {
    e < n || (e == n && n < |s| && Delimits(s[n]))
  }

  lemma {:induction false} SkipCut(s: seq<char>, n: nat, i: nat, k: CharClass)
    requires i <= n <= |s|
    ensures SkipWhile(s[..n], i, k) == Min(SkipWhile(s, i, k), n)
    decreases n - i
  {
    if i < n && In(k, s[i]) {
      SkipCut(s, n, i + 1, k);
    }
  }

  lemma ChrCut(s: seq<char>, n: nat, i: nat, c: char)
    requires i <= n <= |s|
    ensures SkipChr(s[..n], i, c) == if i < n then SkipChr(s, i, c) else i
  {
  }

  lemma MnemonicCut(s: seq<char>, n: nat, i: nat)
    requires i <= n <= |s|
    ensures MnemonicEnd(s[..n], i) == Min(MnemonicEnd(s, i), n)
  {
    if i < n && IsAlpha(s[i]) {
      SkipCut(s, n, i + 1, Word);
    }
  }

  lemma {:induction false} CompoundTailCut(s: seq<char>, n: nat, i: nat)
    requires i <= n <= |s| && Before(s, CompoundTail(s, i).1, n)
    ensures CompoundTail(s[..n], i) == CompoundTail(s, i)
    decreases n - i
  {
    if s[i] == ':' {
      MnemonicCut(s, n, i + 1);
      var j := MnemonicEnd(s, i + 1);
      if j != i + 1 {
        CompoundTailCut(s, n, j);
      }
    }
  }

  lemma CompoundCut(s: seq<char>, n: nat, i: nat)
    requires i <= n <= |s| && Before(s, Compound(s, i).1, n)
    ensures Compound(s[..n], i) == Compound(s, i)
  {
    hide SkipWhile;
    var c := SkipChr(s, i, ':');
    var j := MnemonicEnd(s, c);
    ChrCut(s, n, i, ':');
    MnemonicCut(s, n, c);
    if j != c {
      CompoundTailCut(s, n, j);
    }
  }

  lemma CommonCut(s: seq<char>, n: nat, i: nat)
    requires i <= n <= |s| && Before(s, Common(s, i).1, n)
    ensures Common(s[..n], i) == Common(s, i)
  {
    hide SkipWhile;
    if s[i] == '*' {
      MnemonicCut(s, n, i + 1);
    }
  }

  lemma HeaderCut(s: seq<char>, n: nat, i: nat)
    requires i <= n <= |s| && Before(s, i + HeaderAt(s, i).len, n)
    ensures HeaderAt(s[..n], i) == HeaderAt(s, i)
  {
    hide Compound, Common;
    CommonCut(s, n, i);
    var common := Common(s, i);
    if common.0.SkipNone? {
      CompoundCut(s, n, i);
    }
    var (status, e) := if common.0.SkipNone? then Compound(s, i) else common;
    ChrCut(s, n, e, '?');
  }

  lemma SignCut(s: seq<char>, n: nat, i: nat)
    requires i <= n <= |s|
    ensures SkipPlusMinus(s[..n], i) == if i < n then SkipPlusMinus(s, i) else i
  {
  }

  lemma MantissaCut(s: seq<char>, n: nat, i: nat)
    requires i <= n <= |s| && Before(s, Mantissa(s, i).1, n)
    ensures Mantissa(s[..n], i) == Mantissa(s, i)
  {
    hide SkipWhile;
    var p := SkipPlusMinus(s, i);
    var a := SkipWhile(s, p, Digit);
    SignCut(s, n, i);
    SkipCut(s, n, p, Digit);
    ChrCut(s, n, a, '.');
    var dot := SkipChr(s, a, '.');
    if dot > a {
      SkipCut(s, n, dot, Digit);
    }
  }

  /** An exponent that ends before the cut stays; one without digits gains none. */
  lemma ExponentCut(s: seq<char>, n: nat, i: nat)
    requires i <= n <= |s|
    ensures Exponent(s, i).0 == 0 ==> Exponent(s[..n], i).0 == 0
    ensures Exponent(s, i).0 > 0 && Before(s, Exponent(s, i).1, n) ==> Exponent(s[..n], i) == Exponent(s, i)
  {
    hide SkipWhile;
    if i < n && (s[i] == 'e' || s[i] == 'E') {
      var w := SkipWhile(s, i + 1, Ws);
      SkipCut(s, n, i + 1, Ws);
      if w < n {
        var p := SkipPlusMinus(s, w);
        SignCut(s, n, w);
        SkipCut(s, n, p, Digit);
      } else {
        SkipCut(s, n, n, Digit);
      }
    }
  }

  lemma DecimalCut(s: seq<char>, n: nat, i: nat)
    requires i <= n <= |s| && i < DecimalEnd(s, i) && Before(s, DecimalEnd(s, i), n)
    ensures DecimalEnd(s[..n], i) == DecimalEnd(s, i)
  {
    hide SkipWhile, Mantissa, Exponent;
    var m := Mantissa(s, i);
    MantissaCut(s, n, i);
    var w := SkipWhile(s, m.1, Ws);
    SkipCut(s, n, m.1, Ws);
    if w < n {
      ExponentCut(s, n, w);
    } else {
      ExponentCut(s, n, n);
      NothingAt(s[..n]);
    }
  }

  lemma NothingAt(s: seq<char>)
    ensures Exponent(s, |s|).0 == 0
  {
  }

  lemma SuffixPartCut(s: seq<char>, n: nat, i: nat)
    requires i <= n <= |s| && Before(s, SuffixPart(s, i), n)
    ensures SuffixPart(s[..n], i) == SuffixPart(s, i)
  {
    hide SkipWhile;
    SkipCut(s, n, i, Alpha);
  }

  lemma {:induction false} SuffixTailCut(s: seq<char>, n: nat, i: nat)
    requires i <= n <= |s| && Before(s, SuffixTail(s, i), n)
    ensures SuffixTail(s[..n], i) == SuffixTail(s, i)
    decreases n - i
  {
    hide SuffixPart;
    if s[i] == '/' || s[i] == '.' {
      SuffixPartCut(s, n, i + 1);
      SuffixTailCut(s, n, SuffixPart(s, i + 1));
    }
  }

  lemma SuffixCut(s: seq<char>, n: nat, i: nat)
    requires i <= n <= |s| && Before(s, SuffixEnd(s, i), n)
    ensures SuffixEnd(s[..n], i) == SuffixEnd(s, i)
  {
    hide SkipWhile, SuffixPart, SuffixTail;
    var p := SkipChr(s, i, '/');
    ChrCut(s, n, i, '/');
    SkipCut(s, n, p, Alpha);
    if SkipWhile(s, p, Alpha) > p {
      SuffixPartCut(s, n, p);
      SuffixTailCut(s, n, SuffixPart(s, p));
    }
  }

  lemma NondecimalCut(s: seq<char>, n: nat, i: nat)
    requires i <= n <= |s| && i < NondecimalEnd(s, i) && Before(s, NondecimalEnd(s, i), n)
    ensures NondecimalEnd(s[..n], i) == NondecimalEnd(s, i)
  {
    hide SkipWhile;
    SkipCut(s, n, i + 2, BaseOf(s[i + 1]).1);
  }

  lemma {:induction false} QuoteStopCut(s: seq<char>, n: nat, i: nat, q: char)
    requires i <= n <= |s| && IsQuote(q) && Before(s, QuoteStop(s, i, q) + 1, n)
    ensures QuoteStop(s[..n], i, q) == QuoteStop(s, i, q)
    decreases n - i
  {
    if s[i] == q {
      if s[i + 1] == q {
        QuoteStopCut(s, n, i + 2, q);
      }
    } else if IsAscii7(s[i]) {
      QuoteStopCut(s, n, i + 1, q);
    }
  }

  lemma StringCut(s: seq<char>, n: nat, i: nat)
    requires i <= n <= |s| && i < StringEnd(s, i) && Before(s, StringEnd(s, i), n)
    ensures StringEnd(s[..n], i) == StringEnd(s, i)
  {
    hide QuoteStop;
    QuoteStopCut(s, n, i + 1, s[i]);
  }

  lemma ExpressionCut(s: seq<char>, n: nat, i: nat)
    requires i <= n <= |s| && i < ExpressionEnd(s, i) && Before(s, ExpressionEnd(s, i), n)
    ensures ExpressionEnd(s[..n], i) == ExpressionEnd(s, i)
  {
    hide SkipWhile;
    SkipCut(s, n, i + 1, ExpressionChar);
  }

  /** The length digits of a block either lie before the cut or run into it. */
  lemma {:induction false} LengthCut(s: seq<char>, n: nat, i: nat, k: nat, value: nat)
    requires i <= n <= |s|
    ensures var full := LengthDigits(s, i, k, value);
            var cut := LengthDigits(s[..n], i, k, value);
            if full.0 <= n then cut == full else cut.0 == n && cut.1 > 0
    decreases k
  {
    if k > 0 && i < n && IsDigit(s[i]) {
      LengthCut(s, n, i + 1, k - 1, 10 * value + (s[i] as nat - '0' as nat));
    }
  }

  /** A block cut short is an incomplete block, whatever its content. */
  lemma BlockCut(s: seq<char>, n: nat, i: nat)
    requires i < n <= |s| && BlockAt(s, i).BlockData?
    ensures var b := BlockAt(s, i);
            BlockAt(s[..n], i) == if b.start + b.len <= n then b else BlockIncomplete
  {
    hide LengthDigits;
    if i + 1 < n {
      LengthCut(s, n, i + 2, s[i + 1] as nat - '0' as nat, 0);
      LengthMoves(s, i + 2, s[i + 1] as nat - '0' as nat, 0);
    }
  }

  lemma SkipFree(s: seq<char>, i: nat, k: CharClass)
    requires i <= |s|
    ensures EolFree(s, i, SkipWhile(s, i, k))
  {
    hide SkipWhile;
  }

  lemma MnemonicFree(s: seq<char>, i: nat)
    requires i <= |s|
    ensures EolFree(s, i, MnemonicEnd(s, i))
  {
    hide SkipWhile;
    if i < |s| {
      SkipFree(s, i + 1, Word);
    }
  }

  lemma NondecimalFree(s: seq<char>, i: nat)
    requires i <= |s|
    ensures EolFree(s, i, NondecimalEnd(s, i))
  {
    hide SkipWhile;
    if i < NondecimalEnd(s, i) {
      SkipFree(s, i + 2, BaseOf(s[i + 1]).1);
    }
  }

  lemma MantissaFree(s: seq<char>, i: nat)
    requires i <= |s|
    ensures EolFree(s, i, Mantissa(s, i).1)
  {
    hide SkipWhile;
    var p := SkipPlusMinus(s, i);
    var a := SkipWhile(s, p, Digit);
    SkipFree(s, p, Digit);
    SkipFree(s, SkipChr(s, a, '.'), Digit);
  }

  lemma ExponentFree(s: seq<char>, i: nat)
    requires i <= |s|
    ensures EolFree(s, i, Exponent(s, i).1)
  {
    hide SkipWhile;
    if i < |s| {
      var w := SkipWhile(s, i + 1, Ws);
      SkipFree(s, i + 1, Ws);
      SkipFree(s, SkipPlusMinus(s, w), Digit);
    }
  }

  lemma DecimalFree(s: seq<char>, i: nat)
    requires i <= |s|
    ensures EolFree(s, i, DecimalEnd(s, i))
  {
    hide SkipWhile, Mantissa, Exponent;
    var m := Mantissa(s, i);
    MantissaFree(s, i);
    SkipFree(s, m.1, Ws);
    ExponentFree(s, SkipWhile(s, m.1, Ws));
  }

  lemma SuffixPartFree(s: seq<char>, i: nat)
    requires i <= |s|
    ensures EolFree(s, i, SuffixPart(s, i))
  {
    hide SkipWhile;
    SkipFree(s, i, Alpha);
  }

  lemma {:induction false} SuffixTailFree(s: seq<char>, i: nat)
    requires i <= |s|
    ensures EolFree(s, i, SuffixTail(s, i))
    decreases |s| - i
  {
    hide SuffixPart;
    if i < |s| && (s[i] == '/' || s[i] == '.') {
      SuffixPartFree(s, i + 1);
      SuffixTailFree(s, SuffixPart(s, i + 1));
    }
  }

  lemma SuffixFree(s: seq<char>, i: nat)
    requires i <= |s|
    ensures EolFree(s, i, SuffixEnd(s, i))
  {
    hide SkipWhile, SuffixPart, SuffixTail;
    var p := SkipChr(s, i, '/');
    SuffixPartFree(s, p);
    SuffixTailFree(s, SuffixPart(s, p));
  }

  lemma ExpressionFree(s: seq<char>, i: nat)
    requires i <= |s|
    ensures EolFree(s, i, ExpressionEnd(s, i))
  {
    hide SkipWhile;
    if i < ExpressionEnd(s, i) {
      SkipFree(s, i + 1, ExpressionChar);
    }
  }

  lemma {:induction false} CompoundTailFree(s: seq<char>, i: nat)
    requires i <= |s|
    ensures EolFree(s, i, CompoundTail(s, i).1)
    decreases |s| - i
  {
    if i < |s| && s[i] == ':' {
      MnemonicFree(s, i + 1);
      var j := MnemonicEnd(s, i + 1);
      if j != i + 1 {
        CompoundTailFree(s, j);
      }
    }
  }

  lemma HeaderFree(s: seq<char>, i: nat)
    requires i <= |s|
    ensures EolFree(s, i, i + HeaderAt(s, i).len)
  {
    hide SkipWhile, CompoundTail, MnemonicEnd;
    var c := SkipChr(s, i, ':');
    MnemonicFree(s, c);
    CompoundTailFree(s, MnemonicEnd(s, c));
    if i < |s| {
      MnemonicFree(s, i + 1);
    }
  }
}
