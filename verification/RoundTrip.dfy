/** What the result writers print, the parameter readers read back. */
module RoundTrip {
  import opened LexSpec
  import opened Numerals
  import Printer
  import opened Results
  import P = Parameters
  import C = DataCut

  /** What a parameter can hold: seven-bit texts, and blocks whose whole length is below the limit. */
  predicate Readable(x: Item) {
    match x
    case Text(t) => SevenBit(t)
    case Block(data) => |data| < BLOCK_LIMIT
    case _ => true
  }

  predicate SevenBit(t: string) {
    forall k | 0 <= k < |t| :: IsAscii7(t[k])
  }

  predicate AllReadable(xs: seq<Item>) {
    forall k | 0 <= k < |xs| :: Readable(xs[k])
  }

  /** A result ends with the text or in front of a comma. */
  predicate Stop(s: seq<char>, e: nat) {
    e == |s| || (e < |s| && s[e] == ',')
  }

  lemma {:induction false} DigitRun(b: Base, s: seq<char>, i: nat, e: nat)
    requires i <= e <= |s| && Stop(s, e) && IsNumeral(b, s[i..e])
    ensures P.DigitsEnd(b, s, i) == e
    decreases e - i
  {
    if i < e {
      assert s[i..e][0] == s[i] && s[i..e][1..] == s[i + 1..e];
      DigitRun(b, s, i + 1, e);
    }
  }

  lemma DigitClasses(c: char)
    ensures DigitValue(c) < 10 ==> IsDigit(c)
    ensures DigitValue(c) < 16 ==> In(HexDigit, c)
    ensures DigitValue(c) < 8 ==> In(OctDigit, c)
    ensures DigitValue(c) < 2 ==> In(BinDigit, c)
  {
  }

  /** No white space around: the datum is the bare one. */
  lemma Surrounded(s: seq<char>, i: nat, e: nat)
    requires i < e <= |s| && Stop(s, e) && !In(Ws, s[i]) && BareDatum(s, i).next == e
    ensures DatumAt(s, i) == BareDatum(s, i)
  {
    hide BareDatum;
    SkipTo(s, i, Ws, i);
    SkipTo(s, e, Ws, e);
  }

  /** No white space in front: the token is the bare one. */
  lemma NotSurrounded(s: seq<char>, i: nat)
    requires i < |s| && !In(Ws, s[i])
    ensures DatumAt(s, i).token == BareDatum(s, i).token
  {
    hide BareDatum;
    SkipTo(s, i, Ws, i);
  }

  lemma DecimalRun(s: seq<char>, i: nat, p: nat, e: nat)
    requires i <= p < e <= |s| && Stop(s, e) && p <= i + 1 && (p > i ==> s[i] == '-')
    requires forall j | p <= j < e :: IsDigit(s[j])
    ensures DecimalDatum(s, i) == Datum(Token(TokDecimal, i, e - i), e - i, e)
  {
    hide SkipWhile;
    SkipTo(s, p, Digit, e);
    SkipTo(s, e, Ws, e);
    SkipTo(s, e, Alpha, e);
    assert Mantissa(s, i) == (e - p, e);
    assert Exponent(s, e).0 == 0;
    assert SuffixEnd(s, e) == e;
  }

  lemma NumberDatum(s: seq<char>, i: nat, p: nat, e: nat)
    requires i <= p < e <= |s| && Stop(s, e) && p <= i + 1 && (p > i ==> s[i] == '-')
    requires forall j | p <= j < e :: IsDigit(s[j])
    ensures DatumAt(s, i) == Datum(Token(TokDecimal, i, e - i), e - i, e)
  {
    hide DecimalDatum, DatumAt, NondecimalDatum, MnemonicDatum;
    DecimalRun(s, i, p, e);
    C.FirstCharacters(s, i);
    Surrounded(s, i, e);
  }

  lemma BasedDatum(s: seq<char>, i: nat, e: nat, kind: TokenKind, k: CharClass)
    requires i + 2 < e <= |s| && Stop(s, e) && s[i] == '#' && BaseOf(s[i + 1]) == (kind, k)
    requires k == HexDigit || k == OctDigit || k == BinDigit
    requires forall j | i + 2 <= j < e :: In(k, s[j])
    ensures DatumAt(s, i) == Datum(Token(kind, i + 2, e - i - 2), e - i, e)
  {
    hide SkipWhile, DatumAt;
    SkipTo(s, i + 2, k, e);
    assert NondecimalEnd(s, i) == e;
    assert BareDatum(s, i) == NondecimalDatum(s, i);
    Surrounded(s, i, e);
  }

  lemma SevenBitFront(t: string)
    requires t != []
    ensures SevenBit(t) <==> IsAscii7(t[0]) && SevenBit(t[1..])
  {
    if IsAscii7(t[0]) && SevenBit(t[1..]) {
      forall k | 0 <= k < |t| ensures IsAscii7(t[k]) {
        assert k > 0 ==> t[k] == t[1..][k - 1];
      }
    }
  }

  /** In a quoted text the lexer stops at the closing quote, or at the first character of eight bits. */
  lemma {:induction false} QuoteRun(s: seq<char>, i: nat, t: string)
    requires i + |Doubled(t)| < |s| && s[i..i + |Doubled(t)|] == Doubled(t)
    requires s[i + |Doubled(t)|] == '"' && Stop(s, i + |Doubled(t)| + 1)
    ensures SevenBit(t) ==> QuoteStop(s, i, '"') == i + |Doubled(t)|
    ensures !SevenBit(t) ==> var e := QuoteStop(s, i, '"'); e < |s| && s[e] != '"'
    decreases |t|
  {
    if t != [] {
      var n := |Doubled(t)|;
      var m := if t[0] == '"' then 2 else 1;
      var head := s[i..i + n];
      assert head[..m] == if t[0] == '"' then "\"\"" else [t[0]];
      assert s[i] == head[0] && (m == 2 ==> s[i + 1] == head[1]);
      assert s[i + m..i + n] == head[m..] == Doubled(t[1..]);
      QuoteRun(s, i + m, t[1..]);
      SevenBitFront(t);
    }
  }

  lemma {:induction false} UndoubledBack(t: string)
    ensures P.Undoubled(Doubled(t), '"') == t
    decreases |t|
  {
    if t != [] {
      UndoubledBack(t[1..]);
      var d := Doubled(t);
      if t[0] == '"' {
        assert d[0] == '"' && d[2..] == Doubled(t[1..]);
      } else {
        assert d[0] == t[0] && d[1..] == Doubled(t[1..]);
      }
    }
  }

  lemma TextDatum(s: seq<char>, i: nat, t: string)
    requires var e := i + 1 + |Doubled(t)| + 1;
             e <= |s| && Stop(s, e) && s[i] == '"' && s[i + 1..e - 1] == Doubled(t) && s[e - 1] == '"'
    ensures var e := i + 1 + |Doubled(t)| + 1;
            SevenBit(t) ==> DatumAt(s, i) == Datum(Token(TokDoubleQuote, i, e - i), e - i, e)
    ensures !SevenBit(t) ==> DatumAt(s, i).token.kind.TokUnknown?
  {
    hide Doubled, QuoteStop, DatumAt, NondecimalDatum, MnemonicDatum, DecimalDatum, SkipWhile;
    QuoteRun(s, i + 1, t);
    var e := i + 1 + |Doubled(t)| + 1;
    C.FirstCharacters(s, i);
    if SevenBit(t) {
      assert StringEnd(s, i) == e;
      Surrounded(s, i, e);
    } else {
      assert StringEnd(s, i) == i;
      NotSurrounded(s, i);
    }
  }

  lemma {:induction false} LengthRun(s: seq<char>, i: nat, n: nat, value: nat)
    requires i + n <= |s| && IsNumeral(10, s[i..i + n])
    ensures LengthDigits(s, i, n, value) == (i + n, 0, value * Pow(10, n) + Eval(10, s[i..i + n]))
    decreases n
  {
    hide Eval;
    var t := s[i..i + n];
    if n > 0 {
      var d := DigitValue(t[0]);
      DigitClasses(t[0]);
      assert s[i + 1..i + n] == t[1..] && t == [t[0]] + t[1..];
      LengthRun(s, i + 1, n - 1, 10 * value + d);
      EvalFront(10, t[0], t[1..]);
      Shift(value, d, Pow(10, n - 1));
    } else {
      NoDigits(10);
    }
  }

  lemma Shift(value: nat, d: nat, p: nat)
    ensures (10 * value + d) * p == value * (10 * p) + d * p
  {
  }

  lemma BlockRead(s: seq<char>, i: nat, num: string, len: nat)
    requires 0 < |num| <= 9 && IsNumeral(10, num) && Eval(10, num) == len
    requires i + 2 + |num| + len <= |s| && s[i] == '#' && s[i + 1] == DigitChar(|num|)
    requires s[i + 2..i + 2 + |num|] == num
    ensures BlockAt(s, i) == BlockData(i + 2 + |num|, len)
  {
    hide LengthDigits, Pow, Eval, IsNumeral, DigitChar;
    LengthRun(s, i + 2, |num|, 0);
    OneDigitChar(|num|);
  }

  lemma OneDigitChar(n: nat)
    requires 0 < n <= 9
    ensures DigitChar(n) as nat - '0' as nat == n && IsDigit(DigitChar(n)) && DigitChar(n) != '0'
  {
  }

  lemma BlockDatumRead(s: seq<char>, i: nat, start: nat, len: nat)
    requires i < |s| && BlockAt(s, i) == BlockData(start, len)
    ensures DatumAt(s, i).token == Token(TokBlock, start, len)
    ensures Stop(s, start + len) ==>
              DatumAt(s, i) == Datum(Token(TokBlock, start, len), start + len - i, start + len)
  {
    hide BlockAt, DatumAt;
    C.OnlyBlock(s, i);
    NotSurrounded(s, i);
    if Stop(s, start + len) {
      Surrounded(s, i, start + len);
    }
  }

  /** A result of kind `x` is read as what it is. */
  ghost predicate ReadsAs(s: seq<char>, r: P.Reading, x: Item)
    requires r.Param? ==> 0 <= r.token.len && r.token.ptr + r.token.len <= |s|
  {
    && r.Param?
    && match x
       case Signed(w, v) => forall long :: P.NumberOf(long, P.IntType(w, true), s, r) == P.Value(v)
       case Unsigned(w, u, _) => forall long :: P.NumberOf(long, P.IntType(w, false), s, r) == P.Value(u)
       case Text(t) =>
         && r.token.kind == TokDoubleQuote && r.token.len >= 2
         && forall room: nat | r.token.len - 1 <= room :: P.Undoubled(P.Content(s, r.token, room), '"') == t
       case Block(data) => r.token.kind == TokBlock && s[r.token.ptr..r.token.ptr + r.token.len] == data
  }

  /** The datum at `i`, which the result `x` ends at `e`. */
  ghost predicate Reads(s: seq<char>, i: nat, e: nat, x: Item)
    requires i <= |s|
  {
    var d := DatumAt(s, i);
    d.next == e && d.count == e - i && !d.token.kind.TokUnknown? && ReadsAs(s, P.Param(d.token, d.next), x)
  }

  lemma NumeralDigits(b: Base, v: nat, s: seq<char>, i: nat, e: nat)
    requires i <= e <= |s| && s[i..e] == Numeral(b, v)
    ensures i < e && forall j | i <= j < e :: DigitValue(s[j]) < b
    ensures IsNumeral(b, s[i..e]) && Eval(b, s[i..e]) == v
  {
    hide Numeral, Eval, DigitValue;
    NumeralReadsBack(b, v);
    assert forall j | i <= j < e :: s[j] == s[i..e][j - i];
  }

  lemma DecimalNumber(s: seq<char>, i: nat, p: nat, e: nat)
    requires i <= p < e <= |s| && Stop(s, e) && p <= i + 1 && (p > i ==> s[i] == '-') && IsNumeral(10, s[p..e])
    requires IsDigit(s[p])
    ensures P.StrTo(10, s, i) == (e - i, if p > i then 0 - Eval(10, s[p..e]) else Eval(10, s[p..e]))
  {
    hide Eval, DigitValue;
    DigitRun(10, s, p, e);
  }

  lemma ReadDecimal(s: seq<char>, i: nat, p: nat, e: nat, v: nat, x: Item)
    requires i <= p <= e <= |s| && Stop(s, e) && p <= i + 1 && (p > i ==> s[i] == '-') && s[p..e] == Numeral(10, v)
    requires Writable(x)
    requires match x case Signed(_, u) => u == if p > i then 0 - v else v
                     case Unsigned(_, u, _) => u == v && p == i
                     case _ => false
    ensures Reads(s, i, e, x)
  {
    hide Numeral, Eval, DatumAt, DigitValue, P.StrTo, P.Converted, IsNumeral;
    NumeralDigits(10, v, s, p, e);
    forall j | p <= j < e ensures IsDigit(s[j]) {
      DigitClasses(s[j]);
    }
    NumberDatum(s, i, p, e);
    DecimalNumber(s, i, p, e);
    Kept(x);
  }

  /** Conversions keep what was written. */
  lemma Kept(x: Item)
    requires Writable(x)
    ensures match x
            case Signed(w, v) => forall long :: P.Converted(long, P.IntType(w, true), true, v) == v
            case Unsigned(w, u, _) => forall long, decimal :: P.Converted(long, P.IntType(w, false), decimal, u) == u
            case _ => true
  {
    hide P.Converted;
    match x
    case Signed(w, v) =>
      forall long ensures P.Converted(long, P.IntType(w, true), true, v) == v {
        P.ConvertedExact(long, P.IntType(w, true), true, v);
      }
    case Unsigned(w, u, _) =>
      forall long, decimal ensures P.Converted(long, P.IntType(w, false), decimal, u) == u {
        P.ConvertedExact(long, P.IntType(w, false), decimal, u);
      }
    case _ =>
  }

  /** A numeral without a sign is read to its end. */
  lemma PlainNumber(b: Base, s: seq<char>, i: nat, e: nat)
    requires i < e <= |s| && Stop(s, e) && IsNumeral(b, s[i..e])
    ensures P.StrTo(b, s, i) == (e - i, Eval(b, s[i..e]))
  {
    hide Eval;
    assert DigitValue(s[i..e][0]) < b;
    assert i + 1 < e ==> DigitValue(s[i..e][1]) < b;
    DigitRun(b, s, i, e);
  }

  lemma ReadBased(s: seq<char>, i: nat, e: nat, w: Printer.Width, u: nat, base: int)
    requires (base == 2 || base == 8 || base == 16) && Writable(Unsigned(w, u, base))
    requires i + 2 <= e <= |s| && Stop(s, e) && s[i..i + 2] == Prefix(base) && s[i + 2..e] == Numeral(base, u)
    ensures Reads(s, i, e, Unsigned(w, u, base))
  {
    hide Numeral, Eval, DatumAt, DigitValue, P.StrTo, IsNumeral;
    NumeralDigits(base, u, s, i + 2, e);
    assert s[i] == Prefix(base)[0] && s[i + 1] == Prefix(base)[1];
    var (kind, k) := BaseOf(s[i + 1]);
    forall j | i + 2 <= j < e ensures In(k, s[j]) {
      DigitClasses(s[j]);
    }
    BasedDatum(s, i, e, kind, k);
    PlainNumber(base, s, i + 2, e);
    Kept(Unsigned(w, u, base));
  }

  lemma SliceOfSlice(s: seq<char>, i: nat, e: nat, a: nat, b: nat)
    requires i <= e <= |s| && a <= b <= e - i
    ensures s[i..e][a..b] == s[i + a..i + b]
  {
    assert forall k | 0 <= k < b - a :: s[i..e][a..b][k] == s[i + a..i + b][k];
  }

  lemma BetweenQuotes(s: seq<char>, i: nat, e: nat, d: string)
    requires i <= e <= |s| && s[i..e] == "\"" + d + "\""
    ensures e == i + 1 + |d| + 1 && s[i] == '"' && s[e - 1] == '"' && s[i + 1..e - 1] == d
  {
    var q := s[i..e];
    assert |q| == |d| + 2 && s[i] == q[0] && s[e - 1] == q[e - 1 - i];
    assert q[1..e - 1 - i] == d;
    SliceOfSlice(s, i, e, 1, e - 1 - i);
  }

  lemma ReadText(s: seq<char>, i: nat, e: nat, t: string)
    requires i <= e <= |s| && Stop(s, e) && s[i..e] == "\"" + Doubled(t) + "\""
    ensures Reads(s, i, e, Text(t)) <==> SevenBit(t)
    ensures !SevenBit(t) ==> DatumAt(s, i).token.kind.TokUnknown?
  {
    hide Doubled, DatumAt, P.Undoubled;
    BetweenQuotes(s, i, e, Doubled(t));
    TextDatum(s, i, t);
    UndoubledBack(t);
    var token := Token(TokDoubleQuote, i, e - i);
    forall room: nat | token.len - 1 <= room ensures P.Undoubled(P.Content(s, token, room), '"') == t {
      assert P.Content(s, token, room) == s[i + 1..e - 1];
    }
  }

  /** The parts of a block where it stands. */
  lemma BlockParts(s: seq<char>, i: nat, e: nat, c: char, num: string, data: seq<char>)
    requires i <= e <= |s| && s[i..e] == ("#" + [c] + num) + data
    ensures var m := i + 2 + |num|;
            && i + 2 <= m <= e && e == m + |data| && s[i] == '#' && s[i + 1] == c
            && s[i + 2..m] == num && s[m..e] == data
  {
    var q, m := s[i..e], 2 + |num|;
    assert s[i] == q[0] && s[i + 1] == q[1];
    assert q[2..m] == num && q[m..e - i] == data;
    SliceOfSlice(s, i, e, 2, m);
    SliceOfSlice(s, i, e, m, e - i);
  }

  lemma ReadBlock(s: seq<char>, i: nat, e: nat, data: seq<char>)
    requires i <= e <= |s| && Stop(s, e) && Shown(|data|) < BLOCK_LIMIT
    requires s[i..e] == BlockHeader(Shown(|data|)) + data
    ensures |data| < BLOCK_LIMIT ==> Reads(s, i, e, Block(data))
    ensures DatumAt(s, i).token.kind == TokBlock && DatumAt(s, i).token.len == Shown(|data|)
  {
    hide Numeral, DatumAt, BlockAt, Eval, Shown, DigitChar, IsNumeral, Canonical;
    var len := Shown(|data|);
    var num := Numeral(10, len);
    ShownSmall(|data|);
    NumeralShape(len);
    BlockParts(s, i, e, DigitChar(|num|), num, data);
    BlockRead(s, i, num, len);
    BlockDatumRead(s, i, i + 2 + |num|, len);
  }

  lemma ShownSmall(n: nat)
    ensures Shown(n) <= n && (n < BLOCK_LIMIT ==> Shown(n) == n)
  {
  }

  lemma NumeralShape(n: nat)
    requires n < BLOCK_LIMIT
    ensures var num := Numeral(10, n); 0 < |num| <= 9 && IsNumeral(10, num) && Eval(10, num) == n
  {
    hide Numeral, Eval;
    ShortLengths(n);
    NumeralReadsBack(10, n);
  }

  /** What a parameter cannot hold is refused, or read as something else. */
  lemma NotRead(s: seq<char>, i: nat, e: nat, x: Item)
    requires Writable(x) && !Readable(x) && i <= e <= |s| && Stop(s, e) && s[i..e] == Encode(x)
    ensures var d := DatumAt(s, i); d.token.kind.TokUnknown? || !ReadsAs(s, P.Param(d.token, d.next), x)
  {
    hide Numeral, Doubled, BlockHeader, DatumAt;
    match x
    case Text(t) => ReadText(s, i, e, t);
    case Block(data) =>
      ReadBlock(s, i, e, data);
      var token := DatumAt(s, i).token;
      assert |s[token.ptr..token.ptr + token.len]| == Shown(|data|) < |data|;
    case _ =>
  }

  /** Any other result is read back where it stands. */
  lemma ReadItem(s: seq<char>, i: nat, e: nat, x: Item)
    requires Writable(x) && Readable(x) && i <= e <= |s| && Stop(s, e) && s[i..e] == Encode(x)
    ensures Reads(s, i, e, x)
  {
    hide Reads, Numeral, Doubled, BlockHeader;
    match x
    case Signed(w, v) =>
      if v < 0 {
        assert s[i] == s[i..e][0] && s[i + 1..e] == s[i..e][1..];
        ReadDecimal(s, i, i + 1, e, -v, x);
      } else {
        ReadDecimal(s, i, i, e, v, x);
      }
    case Unsigned(w, u, base) =>
      if base == 2 || base == 8 || base == 16 {
        assert s[i..i + 2] == s[i..e][..2] && s[i + 2..e] == s[i..e][2..];
        ReadBased(s, i, e, w, u, base);
      } else {
        assert "" + Numeral(10, u) == Numeral(10, u);
        ReadDecimal(s, i, i, e, u, x);
      }
    case Text(t) => ReadText(s, i, e, t);
    case Block(data) => ReadBlock(s, i, e, data);
  }

  /** From `i` on, successive parameters are the results `xs`, and nothing else follows. */
  ghost predicate AllRead(s: seq<char>, i: nat, count: nat, xs: seq<Item>)
    requires i <= |s|
    decreases |xs|
  {
    if xs == [] then P.ParameterAt(s, i, count) == P.Missing
    else
      var r := P.ParameterAt(s, i, count);
      ReadsAs(s, r, xs[0]) && AllRead(s, r.next, count + 1, xs[1..])
  }

  lemma {:induction false} ReadAll(s: seq<char>, i: nat, count: nat, xs: seq<Item>)
    requires AllValid(xs) && i <= |s| && s[i..] == EncodeAll(xs, count == 0)
    ensures AllRead(s, i, count, xs) <==> AllReadable(xs)
    decreases |xs|
  {
    hide Encode, DatumAt, ReadsAs, Writable, Readable;
    if xs != [] {
      var j := if count > 0 then i + 1 else i;
      var e := j + |Encode(xs[0])|;
      var later := EncodeAll(xs[1..], false);
      Split(s, i, j, e, Encode(xs[0]), later);
      assert Stop(s, e);
      NotEmpty(xs[0]);
      if Readable(xs[0]) {
        ReadItem(s, j, e, xs[0]);
        assert P.ParameterAt(s, i, count) == P.Param(DatumAt(s, j).token, e);
        ReadAll(s, e, count + 1, xs[1..]);
        ReadableFront(xs);
      } else {
        NotRead(s, j, e, xs[0]);
        OnlyParameters(s, P.ParameterAt(s, i, count), xs[0]);
      }
    }
  }

  lemma ReadableFront(xs: seq<Item>)
    requires xs != [] && Readable(xs[0])
    ensures AllReadable(xs) <==> AllReadable(xs[1..])
  {
    hide Readable;
    if AllReadable(xs[1..]) {
      forall k | 0 <= k < |xs| ensures Readable(xs[k]) {
        assert k > 0 ==> xs[k] == xs[1..][k - 1];
      }
    }
  }

  lemma OnlyParameters(s: seq<char>, r: P.Reading, x: Item)
    requires r.Param? ==> 0 <= r.token.len && r.token.ptr + r.token.len <= |s|
    ensures ReadsAs(s, r, x) ==> r.Param?
  {
  }

  lemma NotEmpty(x: Item)
    requires Writable(x)
    ensures Encode(x) != []
  {
    match x
    case Signed(_, v) => NumeralReadsBack(10, if v < 0 then -v else v);
    case Unsigned(_, u, base) => NumeralReadsBack(Printer.BaseOf(base), u);
    case Text(_) =>
    case Block(_) =>
  }

  lemma Split(s: seq<char>, i: nat, j: nat, e: nat, first: string, later: string)
    requires i <= j <= i + 1 && i <= |s| && e == j + |first|
    requires s[i..] == (if j == i then "" else ",") + first + later
    ensures e <= |s| && s[j..e] == first && s[e..] == later && (j > i ==> s[i] == ',')
    ensures later == [] ==> e == |s|
    ensures later != [] ==> s[e] == later[0]
  {
    var t, n := s[i..], |s|;
    assert |t| == (j - i) + |first| + |later|;
    assert t[j - i..e - i] == first && t[e - i..] == later;
    assert s[i..n] == t && s[e..] == s[e..n];
    SliceOfSlice(s, i, n, j - i, e - i);
    SliceOfSlice(s, i, n, e - i, n - i);
  }

  /**
   Any results written one after the other are read back value for value, and nothing
   follows, exactly when a parameter can hold each of them.
   */
  lemma WrittenIsRead(xs: seq<Item>)
    requires AllValid(xs)
    ensures AllRead(EncodeAll(xs, true), 0, 0, xs) <==> AllReadable(xs)
  {
    var s := EncodeAll(xs, true);
    assert s[0..] == s;
    ReadAll(s, 0, 0, xs);
  }

  /** The parser reports the whole length of what was written: nothing of it is left unread. */
  lemma {:induction false} ReportedWhole(s: seq<char>, i: nat, xs: seq<Item>)
    requires AllValid(xs) && AllReadable(xs) && xs != [] && i <= |s| && s[i..] == EncodeAll(xs, true)
    ensures DataAt(s, i) == DataList(true, |s| - i, |xs|, |s|)
    decreases |xs|
  {
    hide Encode, DatumAt, ReadsAs, Writable, Readable, EncodeAll;
    var e := i + |Encode(xs[0])|;
    var later := EncodeAll(xs[1..], false);
    EncodeOnce(xs);
    Split(s, i, i, e, Encode(xs[0]), later);
    LaterStarts(xs[1..]);
    ReadItem(s, i, e, xs[0]);
    if |xs| > 1 {
      assert s[e..][1..] == s[e + 1..];
      ReportedWhole(s, e + 1, xs[1..]);
    }
  }

  lemma EncodeOnce(xs: seq<Item>)
    requires AllValid(xs) && xs != []
    ensures EncodeAll(xs, true) == "" + Encode(xs[0]) + EncodeAll(xs[1..], false)
  {
    hide Encode;
  }

  /** The results behind the first one. */
  lemma LaterStarts(xs: seq<Item>)
    requires AllValid(xs)
    ensures xs == [] ==> EncodeAll(xs, false) == []
    ensures xs != [] ==> EncodeAll(xs, false) != [] && EncodeAll(xs, false)[0] == ','
                         && EncodeAll(xs, false)[1..] == EncodeAll(xs, true)
  {
    hide Encode;
    if xs != [] {
      assert EncodeAll(xs, false) == "," + Encode(xs[0]) + EncodeAll(xs[1..], false);
      assert EncodeAll(xs, true) == "" + Encode(xs[0]) + EncodeAll(xs[1..], false);
    }
  }
}
