/**
 What the token recognisers find, as functions of the text and a position in it.
 Section numbers in comments are those of IEEE 488.2.
 */
module LexSpec {
  datatype TokenKind =
    | TokComma | TokSemicolon | TokColon | TokSpecific | TokNl
    | TokHex | TokOct | TokBin | TokMnemonic | TokDecimal | TokDecimalSuffix | TokSuffix
    | TokBlock | TokSingleQuote | TokDoubleQuote | TokExpression
    | TokCompound | TokIncompleteCompound | TokCommon | TokIncompleteCommon
    | TokCompoundQuery | TokCommonQuery
    | TokWs | TokAllData | TokInvalid | TokUnknown

  predicate IsString(k: TokenKind) { k == TokDoubleQuote || k == TokSingleQuote }

  /** `ptr` is an index of the text. */
  datatype Token = Token(kind: TokenKind, ptr: nat, len: int)

  datatype CharClass = Ws | Digit | Alpha | Word | HexDigit | OctDigit | BinDigit | ExpressionChar

  predicate IsDigit(c: char) { '0' <= c <= '9' }
  predicate IsAlpha(c: char) { 'a' <= c <= 'z' || 'A' <= c <= 'Z' }
  predicate IsAscii7(c: char) { c as int <= 0x7F }
  predicate IsPlusMinus(c: char) { c == '+' || c == '-' }
  predicate IsEol(c: char) { c == '\r' || c == '\n' }

  predicate In(k: CharClass, c: char) {
    match k
    case Ws => c == ' ' || c == '\t'
    case Digit => IsDigit(c)
    case Alpha => IsAlpha(c)
    case Word => IsAlpha(c) || IsDigit(c) || c == '_'
    case HexDigit => IsDigit(c) || 'a' <= c <= 'f' || 'A' <= c <= 'F'
    case OctDigit => '0' <= c <= '7'
    case BinDigit => c == '0' || c == '1'
    case ExpressionChar =>
      ' ' <= c <= '~' && c != '"' && c != '#' && c != '\'' && c != '(' && c != ')' && c != ';'
  }

  /** The end of the run of `k` characters at `i`. */
  function SkipWhile(s: seq<char>, i: nat, k: CharClass): (e: nat)
    requires i <= |s|
    ensures i <= e <= |s|
    ensures forall j | i <= j < e :: In(k, s[j])
    ensures e < |s| ==> !In(k, s[e])
    decreases |s| - i
  {
    if i < |s| && In(k, s[i]) then SkipWhile(s, i + 1, k) else i
  }

  /** Where a run ends. */
  lemma {:induction false} SkipTo(s: seq<char>, i: nat, k: CharClass, e: nat)
    requires i <= e <= |s| && (forall j | i <= j < e :: In(k, s[j])) && (e == |s| || !In(k, s[e]))
    ensures SkipWhile(s, i, k) == e
    decreases e - i
  {
    if i < e {
      SkipTo(s, i + 1, k, e);
    }
  }

  function SkipChr(s: seq<char>, i: nat, c: char): (e: nat)
    requires i <= |s|
    ensures i <= e <= |s|
  {
    if i < |s| && s[i] == c then i + 1 else i
  }

  /** 7.6.1.2: a letter, then letters, digits and underscores. */
  function MnemonicEnd(s: seq<char>, i: nat): (e: nat)
    requires i <= |s|
    ensures i <= e <= |s|
  {
    if i < |s| && IsAlpha(s[i]) then SkipWhile(s, i + 1, Word) else i
  }

  datatype Skip = SkipNone | SkipOk | SkipIncomplete

  /** `:MNEMONIC` over and over. */
  function CompoundTail(s: seq<char>, i: nat): (r: (Skip, nat))
    requires i <= |s|
    ensures i <= r.1 <= |s| && !r.0.SkipNone?
    decreases |s| - i
  {
    if i < |s| && s[i] == ':' then
      var j := MnemonicEnd(s, i + 1);
      if j == i + 1 then (SkipIncomplete, j)
      else if j == |s| then (SkipOk, j)
      else CompoundTail(s, j)
    else (SkipOk, i)
  }

  function Compound(s: seq<char>, i: nat): (r: (Skip, nat))
    requires i <= |s|
    ensures i <= r.1 <= |s|
    ensures r.0.SkipNone? ==> r.1 == i
  {
    var c := SkipChr(s, i, ':');
    var j := MnemonicEnd(s, c);
    if j == c then (if c > i then SkipIncomplete else SkipNone, c)
    else if j == |s| then (SkipOk, j)
    else CompoundTail(s, j)
  }

  function Common(s: seq<char>, i: nat): (r: (Skip, nat))
    requires i <= |s|
    ensures i <= r.1 <= |s|
    ensures r.0.SkipNone? ==> r.1 == i
  {
    if i < |s| && s[i] == '*' then
      var j := MnemonicEnd(s, i + 1);
      (if j == i + 1 then SkipIncomplete else SkipOk, j)
    else (SkipNone, i)
  }

  /** 7.6.1: the header at `i`, if any. */
  function HeaderAt(s: seq<char>, i: nat): (t: Token)
    requires i <= |s|
    ensures t.ptr == i && 0 <= t.len && i + t.len <= |s|
    ensures t.kind.TokUnknown? ==> t.len == 0
  {
    var common := Common(s, i);
    var (status, e) := if common.0.SkipNone? then Compound(s, i) else common;
    var q := if status.SkipOk? then SkipChr(s, e, '?') else e;
    var kind :=
      match status
      case SkipNone => TokUnknown
      case SkipIncomplete => if common.0.SkipNone? then TokIncompleteCompound else TokIncompleteCommon
      case SkipOk =>
        if common.0.SkipNone? then (if q > e then TokCompoundQuery else TokCompound)
        else (if q > e then TokCommonQuery else TokCommon);
    Token(kind, i, q - i)
  }

  function SkipPlusMinus(s: seq<char>, i: nat): (e: nat)
    requires i <= |s|
    ensures i <= e <= |s|
  {
    if i < |s| && IsPlusMinus(s[i]) then i + 1 else i
  }

  /** 7.7.2: the number of digits in the mantissa at `i`, and its end. */
  function Mantissa(s: seq<char>, i: nat): (r: (nat, nat))
    requires i <= |s|
    ensures i <= r.1 <= |s|
  {
    var p := SkipPlusMinus(s, i);
    var a := SkipWhile(s, p, Digit);
    var dot := SkipChr(s, a, '.');
    if dot > a then
      var b := SkipWhile(s, dot, Digit);
      ((a - p) + (b - dot), b)
    else (a - p, a)
  }

  /** The number of digits in the exponent at `i`, and its end. */
  function Exponent(s: seq<char>, i: nat): (r: (nat, nat))
    requires i <= |s|
    ensures i <= r.1 <= |s|
    ensures r.0 > 0 ==> i < |s|
  {
    if i < |s| && (s[i] == 'e' || s[i] == 'E') then
      var p := SkipPlusMinus(s, SkipWhile(s, i + 1, Ws));
      var d := SkipWhile(s, p, Digit);
      (d - p, d)
    else (0, i)
  }

  /** The end of the decimal number at `i`; `i` itself when there is none. */
  function DecimalEnd(s: seq<char>, i: nat): (e: nat)
    requires i <= |s|
    ensures i <= e <= |s|
    ensures e > i ==> IsDigit(s[i]) || IsPlusMinus(s[i]) || s[i] == '.'
  {
    var m := Mantissa(s, i);
    if m.0 == 0 then i
    else
      var x := Exponent(s, SkipWhile(s, m.1, Ws));
      if x.0 > 0 then x.1 else m.1
  }

  function OneDigit(s: seq<char>, i: nat): (e: nat)
    requires i <= |s|
    ensures i <= e <= |s|
  {
    if i < |s| && IsDigit(s[i]) then i + 1 else i
  }

  /** Letters, then an optional minus, then an optional digit. */
  function SuffixPart(s: seq<char>, i: nat): (e: nat)
    requires i <= |s|
    ensures i <= e <= |s|
  {
    OneDigit(s, SkipChr(s, SkipWhile(s, i, Alpha), '-'))
  }

  function SuffixTail(s: seq<char>, i: nat): (e: nat)
    requires i <= |s|
    ensures i <= e <= |s|
    decreases |s| - i
  {
    if i < |s| && (s[i] == '/' || s[i] == '.') then SuffixTail(s, SuffixPart(s, i + 1)) else i
  }

  /** 7.7.3: the end of the unit suffix at `i`. */
  function SuffixEnd(s: seq<char>, i: nat): (e: nat)
    requires i <= |s|
    ensures i <= e <= |s|
  {
    var p := SkipChr(s, i, '/');
    if SkipWhile(s, p, Alpha) > p then SuffixTail(s, SuffixPart(s, p)) else p
  }

  /** 7.7.4: the kind and digits that a base letter announces. */
  function BaseOf(c: char): (r: (TokenKind, CharClass)) {
    if c == 'h' || c == 'H' then (TokHex, HexDigit)
    else if c == 'q' || c == 'Q' then (TokOct, OctDigit)
    else if c == 'b' || c == 'B' then (TokBin, BinDigit)
    else (TokUnknown, Digit)
  }

  /** The end of the nondecimal number at `i`; `i` itself when there is none. */
  function NondecimalEnd(s: seq<char>, i: nat): (e: nat)
    requires i <= |s|
    ensures i <= e <= |s|
    ensures e > i ==> i + 2 < e && s[i] == '#' && !BaseOf(s[i + 1]).0.TokUnknown?
  {
    if i + 1 < |s| && s[i] == '#' && !BaseOf(s[i + 1]).0.TokUnknown? then
      var e := SkipWhile(s, i + 2, BaseOf(s[i + 1]).1);
      if e > i + 2 then e else i
    else i
  }

  /** 7.7.5: where the content of a string quoted by `q` stops. */
  function QuoteStop(s: seq<char>, i: nat, q: char): (e: nat)
    requires i <= |s|
    ensures i <= e <= |s|
    decreases |s| - i
  {
    if i == |s| then i
    else if s[i] == q then
      if i + 1 < |s| && s[i + 1] == q then QuoteStop(s, i + 2, q) else i
    else if IsAscii7(s[i]) then QuoteStop(s, i + 1, q)
    else i
  }

  predicate IsQuote(c: char) { c == '"' || c == '\'' }

  /** The end of the string at `i`; `i` itself when there is none. */
  function StringEnd(s: seq<char>, i: nat): (e: nat)
    requires i <= |s|
    ensures i <= e <= |s|
    ensures e > i ==> i + 1 < e && IsQuote(s[i])
  {
    if i < |s| && IsQuote(s[i]) then
      var j := QuoteStop(s, i + 1, s[i]);
      if j < |s| && s[j] == s[i] then j + 1 else i
    else i
  }

  /** Up to `k` decimal digits at `i`: where they end, how many were missing, their value. */
  function LengthDigits(s: seq<char>, i: nat, k: nat, value: nat): (r: (nat, nat, nat))
    requires i <= |s|
    ensures i <= r.0 <= |s| && r.1 <= k
    decreases k
  {
    if k > 0 && i < |s| && IsDigit(s[i]) then
      LengthDigits(s, i + 1, k - 1, 10 * value + (s[i] as nat - '0' as nat))
    else (i, k, value)
  }

  datatype Block = BlockInvalid | BlockIncomplete | BlockData(start: nat, len: nat)

  /** 7.7.6: the definite length block at `i`. */
  function BlockAt(s: seq<char>, i: nat): (b: Block)
    requires i <= |s|
    ensures b.BlockData? ==> i + 2 < b.start && b.start + b.len <= |s| && s[i] == '#'
  {
    if i == |s| || s[i] != '#' then BlockInvalid
    else if i + 1 == |s| then BlockIncomplete
    else if !IsDigit(s[i + 1]) || s[i + 1] == '0' then BlockInvalid
    else
      var (e, missing, value) := LengthDigits(s, i + 2, s[i + 1] as nat - '0' as nat, 0);
      if missing == 0 then
        LengthMoves(s, i + 2, s[i + 1] as nat - '0' as nat, 0);
        if e + value <= |s| then BlockData(e, value) else BlockIncomplete
      else if e == |s| then BlockIncomplete
      else BlockInvalid
  }

  lemma LengthMoves(s: seq<char>, i: nat, k: nat, value: nat)
    requires i <= |s|
    ensures var r := LengthDigits(s, i, k, value); r.0 + r.1 == i + k
    decreases k
  {
  }

  /** 7.7.7: the end of the expression at `i`; `i` itself when there is none. */
  function ExpressionEnd(s: seq<char>, i: nat): (e: nat)
    requires i <= |s|
    ensures i <= e <= |s|
    ensures e > i ==> i + 1 < e && s[i] == '('
  {
    if i < |s| && s[i] == '(' then
      var j := SkipWhile(s, i + 1, ExpressionChar);
      if j < |s| && s[j] == ')' then j + 1 else i
    else i
  }

  /** A parameter: its token, the length the parser reports for it, and where reading goes on. */
  datatype Datum = Datum(token: Token, count: nat, next: nat)

  function NoDatum(w: nat): Datum {
    Datum(Token(TokUnknown, w, 0), 0, w)
  }

  function NondecimalDatum(s: seq<char>, w: nat): (d: Datum)
    requires w <= |s|
    ensures Sound(s, w, d)
  {
    var e := NondecimalEnd(s, w);
    if e > w then Datum(Token(BaseOf(s[w + 1]).0, w + 2, e - w - 2), e - w, e) else NoDatum(w)
  }

  function MnemonicDatum(s: seq<char>, w: nat): (d: Datum)
    requires w <= |s|
    ensures Sound(s, w, d)
  {
    var e := MnemonicEnd(s, w);
    if e > w then Datum(Token(TokMnemonic, w, e - w), e - w, e) else NoDatum(w)
  }

  /** White space after a bare number is read but not counted. */
  function DecimalDatum(s: seq<char>, w: nat): (d: Datum)
    requires w <= |s|
    ensures Sound(s, w, d)
  {
    var e := DecimalEnd(s, w);
    if e == w then NoDatum(w)
    else
      var ws := SkipWhile(s, e, Ws);
      var suffix := SuffixEnd(s, ws);
      if suffix > ws then Datum(Token(TokDecimalSuffix, w, suffix - w), suffix - w, suffix)
      else Datum(Token(TokDecimal, w, e - w), e - w, ws)
  }

  function StringDatum(s: seq<char>, w: nat): (d: Datum)
    requires w <= |s|
    ensures Sound(s, w, d)
  {
    var e := StringEnd(s, w);
    if e > w then Datum(Token(if s[w] == '"' then TokDoubleQuote else TokSingleQuote, w, e - w), e - w, e)
    else NoDatum(w)
  }

  /** An incomplete block takes the rest of the text. */
  function BlockDatum(s: seq<char>, w: nat): (d: Datum)
    requires w <= |s|
    ensures Sound(s, w, d)
  {
    match BlockAt(s, w)
    case BlockData(start, len) => Datum(Token(TokBlock, start, len), start + len - w, start + len)
    case BlockIncomplete => NoDatum(|s|)
    case BlockInvalid => NoDatum(w)
  }

  function ExpressionDatum(s: seq<char>, w: nat): (d: Datum)
    requires w <= |s|
    ensures Sound(s, w, d)
  {
    var e := ExpressionEnd(s, w);
    if e > w then Datum(Token(TokExpression, w, e - w), e - w, e) else NoDatum(w)
  }

  /** A datum lies in the text from `w` on, and takes some of it exactly when it is one. */
  predicate Sound(s: seq<char>, w: nat, d: Datum) {
    && w <= d.next <= |s|
    && (d.count == 0 <==> d.token.kind.TokUnknown?)
    && (d.count > 0 ==> w < d.next)
    && 0 <= d.token.len && w <= d.token.ptr && d.token.ptr + d.token.len <= |s|
  }

  /** 7.7: the parameter that begins at `w`, white space excluded. */
  function BareDatum(s: seq<char>, w: nat): (d: Datum)
    requires w <= |s|
    ensures Sound(s, w, d)
  {
    if NondecimalDatum(s, w).count > 0 then NondecimalDatum(s, w)
    else if MnemonicDatum(s, w).count > 0 then MnemonicDatum(s, w)
    else if DecimalDatum(s, w).count > 0 then DecimalDatum(s, w)
    else if StringDatum(s, w).count > 0 then StringDatum(s, w)
    else
      var block := BlockDatum(s, w);
      if block.count > 0 then block else ExpressionDatum(s, block.next)
  }

  /** The parameter at `i` with the white space around it. */
  function DatumAt(s: seq<char>, i: nat): (d: Datum)
    requires i <= |s|
    ensures i <= d.next <= |s|
    ensures !d.token.kind.TokUnknown? ==> i < d.next
    ensures 0 <= d.token.len && i <= d.token.ptr && d.token.ptr + d.token.len <= |s|
  {
    var w := SkipWhile(s, i, Ws);
    var d := BareDatum(s, w);
    var f := SkipWhile(s, d.next, Ws);
    Datum(d.token, (w - i) + d.count + (f - d.next), f)
  }

  /** A list of parameters: whether all were read, their reported length, their number, the end. */
  datatype DataList = DataList(ok: bool, count: nat, params: nat, next: nat)

  function DataAt(s: seq<char>, i: nat): (l: DataList)
    requires i <= |s|
    ensures i <= l.next <= |s|
    ensures l.ok ==> l.params > 0
    decreases |s| - i
  {
    var d := DatumAt(s, i);
    if d.token.kind.TokUnknown? then DataList(false, 0, 0, d.next)
    else if d.next < |s| && s[d.next] == ',' then
      var rest := DataAt(s, d.next + 1);
      if rest.ok then DataList(true, d.count + 1 + rest.count, 1 + rest.params, rest.next)
      else DataList(false, 0, 0, rest.next)
    else DataList(true, d.count, 1, d.next)
  }

  datatype Termination = TermNone | TermNl | TermSemicolon

  /** A program message unit: header, parameters as one token, and how it ended. */
  datatype Unit = Unit(header: Token, data: Token, params: int, term: Termination, next: nat)

  function EolEnd(s: seq<char>, i: nat): (e: nat)
    requires i <= |s|
    ensures i <= e <= |s|
    ensures e > i <==> i < |s| && IsEol(s[i])
    ensures e > i ==> IsEol(s[e - 1])
  {
    SkipChr(s, SkipChr(s, i, '\r'), '\n')
  }

  /** A unit but for its terminator. */
  datatype Body = Body(header: Token, data: Token, params: int, end: nat)

  function BodyAt(s: seq<char>, i: nat): (b: Body)
    requires i <= |s|
    ensures i <= b.end <= |s|
    ensures !b.header.kind.TokInvalid?
  {
    var h := HeaderAt(s, SkipWhile(s, i, Ws));
    var e := h.ptr + h.len;
    var v := SkipWhile(s, e, Ws);
    if v == e then Body(h, Token(TokUnknown, v, 0), 0, v)
    else
      var l := DataAt(s, v);
      if l.ok then Body(h, Token(TokAllData, v, l.count), l.params, l.next)
      else Body(h, Token(TokUnknown, v, 0), -1, l.next)
  }

  /** The message unit at `i`. */
  function UnitAt(s: seq<char>, i: nat): (u: Unit)
    requires i <= |s|
    ensures i <= u.next <= |s|
    ensures i < |s| || u.term.TermNl? ==> i < u.next
  {
    var b := BodyAt(s, i);
    var eol := EolEnd(s, b.end);
    if eol > b.end then Unit(b.header, b.data, b.params, TermNl, eol)
    else if SkipChr(s, b.end, ';') > b.end then Unit(b.header, b.data, b.params, TermSemicolon, b.end + 1)
    else if b.end < |s| then
      Unit(Token(TokInvalid, b.header.ptr, 1), Token(TokUnknown, i, 0), b.params, TermNone, b.end + 1)
    else Unit(b.header, b.data, b.params, TermNone, b.end)
  }

  /** A unit ends in an end-of-line character, a semicolon, an invalid character, or with the text. */
  lemma UnitEnds(s: seq<char>, i: nat)
    requires i <= |s|
    ensures var u := UnitAt(s, i);
            && (u.term.TermNl? ==> i < u.next && IsEol(s[u.next - 1]))
            && (u.term.TermSemicolon? ==> i < u.next && s[u.next - 1] == ';')
            && (u.term.TermNone? ==> u.header.kind.TokInvalid? || u.next == |s|)
  {
    hide BodyAt, IsEol;
  }
}
