/**
 Which texts are program data; IEEE 488.2, section 7.7. Parameters are put together here
 from their characters, and found again by the recognisers.
 */
module DataTokens {
  import opened LexSpec
  import opened HeaderTokens
  import C = DataCut
  import N = Numerals
  import RoundTrip

  predicate Digits(t: string) { forall k | 0 <= k < |t| :: '0' <= t[k] <= '9' }
  predicate Letters(t: string) { forall k | 0 <= k < |t| :: Letter(t[k]) }
  predicate Blanks(t: string) { forall k | 0 <= k < |t| :: t[k] == ' ' || t[k] == '\t' }
  predicate Sign(t: string) { t == "" || t == "+" || t == "-" }

  datatype Power = NoPower | Power(gap: string, letter: char, inner: string, sign: string, digits: string)

  datatype Decimal = Decimal(sign: string, whole: string, point: bool, fraction: string, power: Power)

  /** Letters, then maybe a minus sign and one digit. */
  datatype Part = Part(letters: string, minus: bool, digit: string)

  datatype Suffix = Suffix(slash: bool, first: Part, rest: seq<(char, Part)>)

  datatype DataText =
    | DecimalText(d: Decimal)
    | SuffixedText(d: Decimal, gap: string, suffix: Suffix)
    | BasedText(letter: char, digits: string)
    | QuotedText(quote: char, content: string)
    | WordText(word: string)
    | ExpressionText(content: string)
    | BlockText(length: string, data: seq<char>)

  predicate PowerFormed(x: Power) {
    x.NoPower? || (Blanks(x.gap) && (x.letter == 'e' || x.letter == 'E') && Blanks(x.inner) && Sign(x.sign)
                   && x.digits != "" && Digits(x.digits))
  }

  predicate DecimalFormed(d: Decimal) {
    && Sign(d.sign) && Digits(d.whole) && Digits(d.fraction) && (d.fraction != "" ==> d.point)
    && (d.whole != "" || d.fraction != "") && PowerFormed(d.power)
  }

  predicate PartFormed(p: Part) {
    Letters(p.letters) && |p.digit| <= 1 && Digits(p.digit)
  }

  /** A slash may stand alone. */
  predicate SuffixFormed(u: Suffix) {
    && PartFormed(u.first) && (u.first.letters != "" || u == Suffix(true, Part("", false, ""), []))
    && forall k | 0 <= k < |u.rest| :: (u.rest[k].0 == '/' || u.rest[k].0 == '.') && PartFormed(u.rest[k].1)
  }

  /** A single letter E and a digit behind a number would be an exponent. */
  predicate NoExponent(d: Decimal, u: Suffix) {
    d.power.NoPower? ==> u.slash || (u.first.letters != "e" && u.first.letters != "E") || u.first.digit == ""
  }

  predicate DigitOf(letter: char, c: char) {
    if letter == 'h' || letter == 'H' then '0' <= c <= '9' || 'a' <= c <= 'f' || 'A' <= c <= 'F'
    else if letter == 'q' || letter == 'Q' then '0' <= c <= '7'
    else (letter == 'b' || letter == 'B') && (c == '0' || c == '1')
  }

  predicate ExpressionCharacter(c: char) {
    ' ' <= c <= '~' && c !in {'"', '#', '\'', '(', ')', ';'}
  }

  predicate DataFormed(x: DataText) {
    match x
    case DecimalText(d) => DecimalFormed(d)
    case SuffixedText(d, gap, u) => DecimalFormed(d) && Blanks(gap) && SuffixFormed(u) && NoExponent(d, u)
    case BasedText(letter, digits) => digits != "" && forall k | 0 <= k < |digits| :: DigitOf(letter, digits[k])
    case QuotedText(quote, content) => (quote == '"' || quote == '\'') && forall k | 0 <= k < |content| :: content[k] as nat <= 0x7F
    case WordText(word) => Mnemonic(word)
    case ExpressionText(content) => forall k | 0 <= k < |content| :: ExpressionCharacter(content[k])
    case BlockText(length, data) => 0 < |length| <= 9 && Digits(length) && N.Eval(10, length) == |data|
  }

  function MantissaText(d: Decimal): string {
    d.sign + d.whole + (if d.point then "." else "") + d.fraction
  }

  function ExponentText(x: Power): string
    requires x.Power?
  {
    [x.letter] + x.inner + x.sign + x.digits
  }

  function NumberText(d: Decimal): string {
    MantissaText(d) + if d.power.NoPower? then "" else d.power.gap + ExponentText(d.power)
  }

  function PartText(p: Part): string {
    p.letters + (if p.minus then "-" else "") + p.digit
  }

  function RestText(rest: seq<(char, Part)>): string {
    if rest == [] then "" else [rest[0].0] + PartText(rest[0].1) + RestText(rest[1..])
  }

  function SuffixText(u: Suffix): string {
    (if u.slash then "/" else "") + PartText(u.first) + RestText(u.rest)
  }

  /** Every quote in the content is written twice. */
  function Twice(t: string, quote: char): string {
    if t == [] then [] else (if t[0] == quote then [quote, quote] else [t[0]]) + Twice(t[1..], quote)
  }

  function Written(x: DataText): string
    requires DataFormed(x)
  {
    match x
    case DecimalText(d) => NumberText(d)
    case SuffixedText(d, gap, u) => NumberText(d) + gap + SuffixText(u)
    case BasedText(letter, digits) => "#" + [letter] + digits
    case QuotedText(quote, content) => [quote] + Twice(content, quote) + [quote]
    case WordText(word) => word
    case ExpressionText(content) => "(" + content + ")"
    case BlockText(length, data) => "#" + [['1', '2', '3', '4', '5', '6', '7', '8', '9'][|length| - 1]] + length + data
  }

  /** The kind of the parameter, and what of its text is the token. */
  function DataKind(x: DataText): TokenKind {
    match x
    case DecimalText(_) => TokDecimal
    case SuffixedText(_, _, _) => TokDecimalSuffix
    case BasedText(letter, _) =>
      if letter == 'h' || letter == 'H' then TokHex else if letter == 'q' || letter == 'Q' then TokOct else TokBin
    case QuotedText(quote, _) => if quote == '"' then TokDoubleQuote else TokSingleQuote
    case WordText(_) => TokMnemonic
    case ExpressionText(_) => TokExpression
    case BlockText(_, _) => TokBlock
  }

  function Skipped(x: DataText): nat {
    if x.BasedText? then 2 else if x.BlockText? then 2 + |x.length| else 0
  }

  /** A parameter ends in front of a comma, a semicolon or a newline, or with the text. */
  predicate Closed(s: seq<char>, e: nat) {
    e == |s| || (e < |s| && (s[e] == ',' || s[e] == ';' || s[e] == '\r' || s[e] == '\n'))
  }

  lemma RunRead(s: seq<char>, a: nat, t: string, k: CharClass)
    requires a + |t| <= |s| && s[a..a + |t|] == t && (forall j | 0 <= j < |t| :: In(k, t[j]))
    requires a + |t| == |s| || !In(k, s[a + |t|])
    ensures SkipWhile(s, a, k) == a + |t|
  {
    assert forall j | a <= j < a + |t| :: s[j] == t[j - a];
    SkipTo(s, a, k, a + |t|);
  }

  lemma DigitsRead(s: seq<char>, a: nat, t: string)
    requires a + |t| <= |s| && s[a..a + |t|] == t && Digits(t) && (a + |t| == |s| || !IsDigit(s[a + |t|]))
    ensures SkipWhile(s, a, Digit) == a + |t| && (t != "" ==> IsDigit(s[a]))
  {
    assert t != "" ==> s[a] == t[0];
    RunRead(s, a, t, Digit);
  }

  lemma BlanksRead(s: seq<char>, a: nat, t: string)
    requires a + |t| <= |s| && s[a..a + |t|] == t && Blanks(t) && (a + |t| == |s| || !In(Ws, s[a + |t|]))
    ensures SkipWhile(s, a, Ws) == a + |t| && (t != "" ==> In(Ws, s[a]))
  {
    assert t != "" ==> s[a] == t[0];
    RunRead(s, a, t, Ws);
  }

  lemma LettersRead(s: seq<char>, a: nat, t: string)
    requires a + |t| <= |s| && s[a..a + |t|] == t && Letters(t) && (a + |t| == |s| || !IsAlpha(s[a + |t|]))
    ensures SkipWhile(s, a, Alpha) == a + |t| && (t != "" ==> IsAlpha(s[a]))
  {
    assert t != "" ==> s[a] == t[0];
    RunRead(s, a, t, Alpha);
  }

  lemma Regrouped(a: string, b: string, c: string, d: string)
    ensures a + b + c + d == a + (b + (c + d))
  {
  }

  /** `t` stands in the text from `i` to `e`. */
  predicate Reads(s: seq<char>, i: nat, e: nat, t: string) {
    i + |t| == e <= |s| && s[i..e] == t
  }

  lemma ReadsIs(s: seq<char>, i: nat, e: nat, t: string)
    requires Reads(s, i, e, t)
    ensures i + |t| == e <= |s| && s[i..e] == t && (t != "" ==> s[i] == t[0])
  {
    assert t != "" ==> s[i] == s[i..e][0];
  }

  lemma ReadsParts(s: seq<char>, i: nat, e: nat, a: string, b: string)
    requires Reads(s, i, e, a + b)
    ensures Reads(s, i, i + |a|, a) && Reads(s, i + |a|, e, b)
  {
    Parts(s, i, e, a, b);
  }

  lemma ReadsThree(s: seq<char>, i: nat, e: nat, a: string, b: string, c: string)
    requires Reads(s, i, e, a + (b + c))
    ensures var p, q := i + |a|, i + |a| + |b|; Reads(s, i, p, a) && Reads(s, p, q, b) && Reads(s, q, e, c)
  {
    hide Reads;
    ReadsParts(s, i, e, a, b + c);
    ReadsParts(s, i + |a|, e, b, c);
  }

  lemma ThreeParts(s: seq<char>, i: nat, e: nat, a: string, b: string, c: string)
    requires i <= e <= |s| && s[i..e] == a + (b + c)
    ensures var p, q := i + |a|, i + |a| + |b|;
            q + |c| == e && s[i..p] == a && s[p..q] == b && s[q..e] == c && (c != [] ==> s[q] == c[0])
  {
    ReadsThree(s, i, e, a, b, c);
    if c != [] {
      assert s[e - |c|] == s[e - |c|..e][0];
    }
  }

  /** The four parts of a text. */
  lemma FourParts(s: seq<char>, i: nat, e: nat, a: string, b: string, c: string, d: string)
    requires i <= e <= |s| && s[i..e] == a + b + c + d
    ensures var p, q, r := i + |a|, i + |a| + |b|, i + |a| + |b| + |c|;
            && r + |d| == e && s[i..p] == a && s[p..q] == b && s[q..r] == c && s[r..e] == d
            && (c != [] ==> s[q] == c[0]) && (d != [] ==> s[r] == d[0])
  {
    var y := c + d;
    Regrouped(a, b, c, d);
    ThreeParts(s, i, e, a, b, y);
    Parts(s, i + |a| + |b|, e, c, d);
  }

  lemma SignRead(s: seq<char>, i: nat, sign: string)
    requires Sign(sign) && i + |sign| <= |s| && s[i..i + |sign|] == sign
    requires sign == "" ==> i == |s| || !IsPlusMinus(s[i])
    ensures SkipPlusMinus(s, i) == i + |sign|
  {
    if sign != "" {
      assert s[i] == s[i..i + |sign|][0];
    }
  }

  /** Digits, a point and digits. */
  lemma PointRead(s: seq<char>, p: nat, whole: string, point: bool, fraction: string)
    requires var a := p + |whole|;
             var f := if point then a + 1 else a;
             var e := f + |fraction|;
             && e <= |s| && s[p..a] == whole && s[f..e] == fraction && Digits(whole) && Digits(fraction)
             && (fraction != "" ==> point) && (point ==> s[a] == '.')
             && (e == |s| || (!IsDigit(s[e]) && s[e] != '.'))
    ensures var a := p + |whole|;
            && SkipWhile(s, p, Digit) == a && SkipChr(s, a, '.') == (if point then a + 1 else a)
            && (point ==> SkipWhile(s, a + 1, Digit) == a + 1 + |fraction|)
  {
    hide SkipWhile, Digits;
    DigitsRead(s, p, whole);
    if point {
      DigitsRead(s, p + |whole| + 1, fraction);
    }
  }

  lemma MantissaParts(s: seq<char>, i: nat, e: nat, d: Decimal)
    requires i <= e <= |s| && s[i..e] == MantissaText(d)
    ensures var p := i + |d.sign|;
            var a := p + |d.whole|;
            var f := if d.point then a + 1 else a;
            && f + |d.fraction| == e && s[i..p] == d.sign && s[p..a] == d.whole && s[f..e] == d.fraction
            && (d.point ==> s[a] == '.')
  {
    FourParts(s, i, e, d.sign, d.whole, if d.point then "." else "", d.fraction);
  }

  lemma MantissaRead(s: seq<char>, i: nat, e: nat, d: Decimal)
    requires i <= e <= |s| && s[i..e] == MantissaText(d) && DecimalFormed(d)
    requires e == |s| || (!IsDigit(s[e]) && s[e] != '.')
    ensures Mantissa(s, i) == (|d.whole| + |d.fraction|, e)
  {
    hide Mantissa, DecimalFormed, MantissaText;
    MantissaParts(s, i, e, d);
    MantissaFrom(s, i, i + |d.sign|, e, d);
  }

  lemma MantissaFrom(s: seq<char>, i: nat, p: nat, e: nat, d: Decimal)
    requires DecimalFormed(d) && i <= p <= e <= |s| && s[i..p] == d.sign
    requires var a := p + |d.whole|;
             var f := if d.point then a + 1 else a;
             f + |d.fraction| == e && s[p..a] == d.whole && s[f..e] == d.fraction && (d.point ==> s[a] == '.')
    requires e == |s| || (!IsDigit(s[e]) && s[e] != '.')
    ensures Mantissa(s, i) == (|d.whole| + |d.fraction|, e)
  {
    hide SkipWhile, PowerFormed, Digits, Sign, SkipPlusMinus, SkipChr;
    PointRead(s, p, d.whole, d.point, d.fraction);
    NumberStarts(s, p, d);
    SignRead(s, i, d.sign);
  }

  lemma NumberStarts(s: seq<char>, p: nat, d: Decimal)
    requires DecimalFormed(d) && p + |d.whole| + (if d.point then 1 else 0) + |d.fraction| <= |s|
    requires s[p..p + |d.whole|] == d.whole && (d.point ==> s[p + |d.whole|] == '.')
    ensures p < |s| && (IsDigit(s[p]) || s[p] == '.')
  {
    hide PowerFormed;
    if d.whole != "" {
      assert s[p] == s[p..p + |d.whole|][0];
    }
  }

  lemma ExponentAt(s: seq<char>, i: nat, inner: string, sign: string, digits: string)
    requires var p := i + 1 + |inner|;
             var q := p + |sign|;
             && q + |digits| <= |s| && s[i + 1..p] == inner && s[p..q] == sign && s[q..q + |digits|] == digits
             && (q + |digits| == |s| || !IsDigit(s[q + |digits|]))
    requires Blanks(inner) && Sign(sign) && Digits(digits) && digits != "" && (s[i] == 'e' || s[i] == 'E')
    ensures Exponent(s, i) == (|digits|, i + 1 + |inner| + |sign| + |digits|)
  {
    hide SkipWhile, Digits, Blanks, Sign, SkipPlusMinus, IsDigit, In;
    var p := i + 1 + |inner|;
    DigitsRead(s, p + |sign|, digits);
    SignStarts(s, p, sign);
    BlanksRead(s, i + 1, inner);
    SignRead(s, p, sign);
  }

  lemma ExponentRead(s: seq<char>, i: nat, e: nat, x: Power)
    requires x.Power? && PowerFormed(x) && i <= e <= |s| && s[i..e] == ExponentText(x) && (e == |s| || !IsDigit(s[e]))
    ensures Exponent(s, i) == (|x.digits|, e)
  {
    hide Digits, Blanks, Sign, IsDigit, Exponent;
    FourParts(s, i, e, [x.letter], x.inner, x.sign, x.digits);
    assert s[i] == s[i..i + 1][0];
    ExponentAt(s, i, x.inner, x.sign, x.digits);
  }

  /** A sign or a digit is no white space. */
  lemma SignStarts(s: seq<char>, p: nat, sign: string)
    requires Sign(sign) && p + |sign| < |s| && s[p..p + |sign|] == sign && IsDigit(s[p + |sign|])
    ensures !In(Ws, s[p]) && (sign == "" ==> !IsPlusMinus(s[p]))
  {
    if sign != "" {
      assert s[p] == s[p..p + |sign|][0];
    }
  }

  /** A number in front of something that is no exponent. */
  lemma NumberRead(s: seq<char>, i: nat, e: nat, d: Decimal)
    requires i <= e <= |s| && s[i..e] == NumberText(d) && DecimalFormed(d)
    requires e == |s| || (!IsDigit(s[e]) && s[e] != '.')
    requires d.power.NoPower? ==> Exponent(s, SkipWhile(s, e, Ws)).0 == 0
    ensures i < e && DecimalEnd(s, i) == e
  {
    hide SkipWhile, Mantissa, Exponent, MantissaText, ExponentText, Digits, Sign, In;
    MantissaNotEmpty(d);
    if d.power.NoPower? {
      assert MantissaText(d) + "" == MantissaText(d);
      MantissaRead(s, i, e, d);
    } else {
      PoweredRead(s, i, e, d);
    }
  }

  lemma PoweredRead(s: seq<char>, i: nat, e: nat, d: Decimal)
    requires d.power.Power? && DecimalFormed(d) && i <= e <= |s|
    requires s[i..e] == MantissaText(d) + (d.power.gap + ExponentText(d.power)) && (e == |s| || !IsDigit(s[e]))
    ensures var m := i + |MantissaText(d)|;
            && Mantissa(s, i) == (|d.whole| + |d.fraction|, m)
            && m <= |s| && Exponent(s, SkipWhile(s, m, Ws)) == (|d.power.digits|, e) && |d.power.digits| > 0
  {
    hide SkipWhile, Mantissa, Exponent, MantissaText, ExponentText, Digits, Sign, IsDigit, Blanks, In;
    var x, m := d.power, i + |MantissaText(d)|;
    var power := x.gap + ExponentText(x);
    Parts(s, i, e, MantissaText(d), power);
    PowerAt(s, m, e, x);
    MantissaRead(s, i, m, d);
  }

  lemma PowerAt(s: seq<char>, m: nat, e: nat, x: Power)
    requires x.Power? && PowerFormed(x) && m <= e <= |s| && s[m..e] == x.gap + ExponentText(x) && (e == |s| || !IsDigit(s[e]))
    ensures Exponent(s, SkipWhile(s, m, Ws)) == (|x.digits|, e) && |x.digits| > 0
    ensures m < e && !IsDigit(s[m]) && s[m] != '.'
  {
    hide ExponentText, PowerFormed, Exponent, SkipWhile, IsDigit;
    PowerNotEmpty(x);
    Parts(s, m, e, x.gap, ExponentText(x));
    PowerFrom(s, m, m + |x.gap|, e, x);
  }

  lemma PowerFrom(s: seq<char>, m: nat, w: nat, e: nat, x: Power)
    requires x.Power? && PowerFormed(x) && m <= w < e <= |s| && w == m + |x.gap| && s[m..w] == x.gap
    requires s[w..e] == ExponentText(x) && s[w] == ExponentText(x)[0] && (e == |s| || !IsDigit(s[e]))
    ensures Exponent(s, SkipWhile(s, m, Ws)) == (|x.digits|, e) && |x.digits| > 0
    ensures !IsDigit(s[m]) && s[m] != '.'
  {
    hide SkipWhile, Exponent, ExponentText, Digits, Sign, Blanks, In;
    PowerStarts(s, m, x);
    BlanksRead(s, m, x.gap);
    ExponentRead(s, w, e, x);
  }

  lemma PowerNotEmpty(x: Power)
    requires x.Power?
    ensures ExponentText(x) != []
  {
  }

  lemma MantissaNotEmpty(d: Decimal)
    requires DecimalFormed(d)
    ensures MantissaText(d) != [] && |d.whole| + |d.fraction| > 0
    ensures var c := MantissaText(d)[0]; IsDigit(c) || IsPlusMinus(c) || c == '.'
  {
    hide PowerFormed;
    assert d.sign == "" && d.whole == "" ==> MantissaText(d)[0] == '.';
    assert d.sign == "" && d.whole != "" ==> MantissaText(d)[0] == d.whole[0];
    assert d.sign != "" ==> MantissaText(d)[0] == d.sign[0];
  }

  /** The exponent begins with its letter, or with white space in front of it. */
  lemma PowerStarts(s: seq<char>, m: nat, x: Power)
    requires x.Power? && PowerFormed(x)
    requires var w := m + |x.gap|; w < |s| && s[m..w] == x.gap && s[w] == ExponentText(x)[0]
    ensures var w := m + |x.gap|; !In(Ws, s[w]) && !IsDigit(s[m]) && s[m] != '.'
  {
    if x.gap != "" {
      assert s[m] == s[m..m + |x.gap|][0];
    }
  }

  /** What can stand behind a suffix or one of its parts. */
  predicate PartEnded(s: seq<char>, e: nat) {
    e == |s| || (e < |s| && !IsAlpha(s[e]) && s[e] != '-' && !IsDigit(s[e]))
  }

  lemma PartRead(s: seq<char>, a: nat, b: nat, p: Part)
    requires a <= b <= |s| && s[a..b] == PartText(p) && PartFormed(p) && PartEnded(s, b)
    ensures SuffixPart(s, a) == b && SkipWhile(s, a, Alpha) == a + |p.letters|
  {
    hide SkipWhile, Letters, Digits;
    var minus := if p.minus then "-" else "";
    assert p.letters + minus + p.digit == p.letters + (minus + p.digit);
    ThreeParts(s, a, b, p.letters, minus, p.digit);
    if p.digit != "" {
      DigitIs(p);
    }
    LettersRead(s, a, p.letters);
  }

  lemma DigitIs(p: Part)
    requires PartFormed(p) && p.digit != ""
    ensures IsDigit(p.digit[0]) && p.digit == [p.digit[0]] && !IsAlpha(p.digit[0]) && p.digit[0] != '-'
  {
  }

  lemma {:induction false} RestRead(s: seq<char>, a: nat, b: nat, rest: seq<(char, Part)>)
    requires a <= b <= |s| && s[a..b] == RestText(rest) && PartEnded(s, b) && (b < |s| ==> s[b] != '/' && s[b] != '.')
    requires forall k | 0 <= k < |rest| :: (rest[k].0 == '/' || rest[k].0 == '.') && PartFormed(rest[k].1)
    ensures SuffixTail(s, a) == b
    decreases |rest|
  {
    hide SuffixPart, PartText;
    if rest != [] {
      var p, later := rest[0].1, RestText(rest[1..]);
      assert RestText(rest) == [rest[0].0] + (PartText(p) + later);
      ThreeParts(s, a, b, [rest[0].0], PartText(p), later);
      assert s[a] == s[a..a + 1][0];
      var c := a + 1 + |PartText(p)|;
      RestStarts(s, c, b, rest[1..]);
      PartRead(s, a + 1, c, p);
      RestRead(s, c, b, rest[1..]);
    }
  }

  lemma RestStarts(s: seq<char>, a: nat, b: nat, rest: seq<(char, Part)>)
    requires a <= b <= |s| && s[a..b] == RestText(rest) && PartEnded(s, b)
    requires forall k | 0 <= k < |rest| :: rest[k].0 == '/' || rest[k].0 == '.'
    ensures PartEnded(s, a)
  {
    hide RestText;
    FirstOfRest(rest);
    if rest != [] {
      assert s[a] == s[a..b][0];
    } else {
      assert a == b;
    }
  }

  lemma FirstOfRest(rest: seq<(char, Part)>)
    ensures rest == [] ==> RestText(rest) == ""
    ensures rest != [] ==> RestText(rest) != "" && RestText(rest)[0] == rest[0].0
  {
    hide PartText;
  }

  lemma SuffixParts(s: seq<char>, a: nat, b: nat, u: Suffix)
    requires a <= b <= |s| && s[a..b] == SuffixText(u)
    ensures var p := a + if u.slash then 1 else 0;
            var c := p + |PartText(u.first)|;
            c <= b && s[p..c] == PartText(u.first) && s[c..b] == RestText(u.rest) && (u.slash ==> s[a] == '/')
  {
    hide PartText, RestText;
    var slash := if u.slash then "/" else "";
    Together(slash, PartText(u.first), RestText(u.rest));
    ThreeParts(s, a, b, slash, PartText(u.first), RestText(u.rest));
    if u.slash {
      assert s[a] == s[a..a + 1][0];
    }
  }

  lemma SuffixRead(s: seq<char>, a: nat, b: nat, u: Suffix)
    requires a <= b <= |s| && s[a..b] == SuffixText(u) && SuffixFormed(u)
    requires PartEnded(s, b) && (b < |s| ==> s[b] != '/' && s[b] != '.')
    ensures a < b && SuffixEnd(s, a) == b
    ensures if u.slash then s[a] == '/'
            else IsAlpha(s[a]) && a + |u.first.letters| <= b && s[a..a + |u.first.letters|] == u.first.letters
  {
    hide SkipWhile, SuffixPart, SuffixTail, PartText, RestText, SuffixText;
    SuffixParts(s, a, b, u);
    var p := a + if u.slash then 1 else 0;
    var c := p + |PartText(u.first)|;
    RestStarts(s, c, b, u.rest);
    PartRead(s, p, c, u.first);
    if u.first.letters == "" {
      LoneSlash(u);
    } else {
      RestRead(s, c, b, u.rest);
      FirstLetters(s, p, c, u.first);
    }
  }

  lemma LoneSlash(u: Suffix)
    requires SuffixFormed(u) && u.first.letters == ""
    ensures u.slash && PartText(u.first) == "" && RestText(u.rest) == ""
  {
  }

  lemma FirstLetters(s: seq<char>, p: nat, c: nat, part: Part)
    requires p <= c <= |s| && s[p..c] == PartText(part) && PartFormed(part) && part.letters != ""
    ensures p + |part.letters| <= c && s[p..p + |part.letters|] == part.letters && IsAlpha(s[p]) && s[p] != '/'
  {
    var minus := if part.minus then "-" else "";
    assert part.letters + minus + part.digit == part.letters + (minus + part.digit);
    Parts(s, p, c, part.letters, minus + part.digit);
  }

  /** A suffix does not begin an exponent: not with a slash or other letters. */
  lemma OtherLetters(s: seq<char>, w: nat, u: Suffix)
    requires w < |s| && SuffixFormed(u) && (u.slash || (u.first.letters != "e" && u.first.letters != "E"))
    requires if u.slash then s[w] == '/'
             else w + |u.first.letters| <= |s| && s[w..w + |u.first.letters|] == u.first.letters
    ensures Exponent(s, w).0 == 0
  {
    hide PartFormed, SkipWhile;
    if !u.slash {
      var t := u.first.letters;
      assert s[w] == t[0];
      if |t| > 1 {
        assert s[w + 1] == t[1];
        SecondLetter(u.first);
        SkipTo(s, w + 1, Ws, w + 1);
        SkipTo(s, w + 1, Digit, w + 1);
      } else {
        assert t == [t[0]];
      }
    }
  }

  /** Not with a single letter E without a digit either. */
  lemma NoDigit(s: seq<char>, a: nat, b: nat, f: nat, u: Suffix)
    requires a < b <= f <= |s| && s[a..b] == SuffixText(u) && SuffixFormed(u) && !u.slash
    requires |u.first.letters| == 1 && u.first.digit == "" && Blanks(s[b..f]) && Closed(s, f)
    ensures Exponent(s, a).0 == 0
  {
    hide SkipWhile, RestText, PartText, SuffixText, Blanks, Closed, PartFormed, Exponent;
    SuffixParts(s, a, b, u);
    LetterAndMinus(s, a, a + |PartText(u.first)|, u.first);
    var q := a + |PartText(u.first)|;
    FirstOfRest(u.rest);
    AfterNumber(s, b, f);
    if u.rest != [] {
      assert s[q] == s[q..b][0];
    }
    if u.first.minus || u.rest != [] {
      SkipTo(s, a + 1, Ws, a + 1);
      ExponentEmpty(s, a, a + 1);
    } else {
      ClosedHere(s, f);
      Gap(s, b, f, s[b..f]);
      AfterNumber(s, f, f);
      NoSign(s, f);
      ExponentEmpty(s, a, f);
    }
  }

  lemma NoSign(s: seq<char>, f: nat)
    requires Closed(s, f)
    ensures f == |s| || (f < |s| && !IsPlusMinus(s[f]) && !IsDigit(s[f]))
  {
  }

  lemma ExponentEmpty(s: seq<char>, a: nat, p: nat)
    requires a < |s| && SkipWhile(s, a + 1, Ws) == p
    requires || p == |s|
             || (!IsPlusMinus(s[p]) && !IsDigit(s[p]))
             || (IsPlusMinus(s[p]) && (p + 1 == |s| || !IsDigit(s[p + 1])))
    ensures Exponent(s, a).0 == 0
  {
    hide SkipWhile;
    var q := SkipPlusMinus(s, p);
    SkipTo(s, q, Digit, q);
  }

  lemma LetterAndMinus(s: seq<char>, a: nat, q: nat, p: Part)
    requires a <= q <= |s| && s[a..q] == PartText(p) && |p.letters| == 1 && p.digit == ""
    ensures q == a + 1 + (if p.minus then 1 else 0) && (p.minus ==> s[a + 1] == '-')
  {
    var t := s[a..q];
    assert p.minus ==> t[1] == '-';
  }

  lemma SecondLetter(p: Part)
    requires PartFormed(p) && |p.letters| > 1
    ensures Letter(p.letters[1])
  {
  }

  /** White space that has been passed. */
  lemma Gap(s: seq<char>, e: nat, f: nat, gap: string)
    requires e <= f <= |s| && s[e..f] == gap && Blanks(gap) && (f == |s| || !In(Ws, s[f]))
    ensures SkipWhile(s, e, Ws) == f && SkipWhile(s, f, Ws) == f
    ensures e < f ==> s[e] == ' ' || s[e] == '\t'
  {
    assert e < f ==> s[e] == gap[0];
    BlanksRead(s, e, gap);
    SkipTo(s, f, Ws, f);
  }

  lemma ClosedHere(s: seq<char>, f: nat)
    requires Closed(s, f)
    ensures f == |s| || !In(Ws, s[f])
    ensures f <= |s| && Exponent(s, f).0 == 0 && SuffixEnd(s, f) == f
  {
    SkipTo(s, f, Alpha, f);
  }

  /** `x` stands from `w` to `e`, and white space from there to `f`, where the parameter is closed. */
  predicate Stands(s: seq<char>, w: nat, e: nat, f: nat, x: DataText) {
    && w <= e <= f <= |s| && DataFormed(x) && s[w..e] == Written(x)
    && Blanks(s[e..f]) && Closed(s, f)
  }

  /** Where the recogniser of `x` leaves off: it passes the white space behind a bare number. */
  function BareOf(w: nat, e: nat, f: nat, x: DataText): Datum
    requires w + Skipped(x) <= e
  {
    Datum(Token(DataKind(x), w + Skipped(x), e - w - Skipped(x)), e - w, if x.DecimalText? then f else e)
  }

  lemma DecimalBare(s: seq<char>, w: nat, e: nat, f: nat, d: Decimal)
    requires Stands(s, w, e, f, DecimalText(d))
    ensures BareDatum(s, w) == BareOf(w, e, f, DecimalText(d))
  {
    hide DecimalEnd, SkipWhile, SuffixEnd, NumberText, Exponent, StringDatum, BlockDatum, ExpressionDatum, MnemonicDatum,
         NondecimalDatum, Closed, Blanks, DecimalFormed;
    ClosedHere(s, f);
    Gap(s, e, f, s[e..f]);
    AfterNumber(s, e, f);
    NumberRead(s, w, e, d);
    C.FirstCharacters(s, w);
  }

  lemma AfterNumber(s: seq<char>, e: nat, f: nat)
    requires e <= f <= |s| && Blanks(s[e..f]) && Closed(s, f)
    ensures e == |s| || (!IsDigit(s[e]) && s[e] != '.' && !WordCharacter(s[e]) && s[e] != '-' && s[e] != '/'
                         && s[e] != '"' && s[e] != '\'')
  {
    if e < f {
      assert s[e] == s[e..f][0];
    }
  }

  /** A number, white space and a unit suffix. */
  lemma SuffixedRead(s: seq<char>, w: nat, e: nat, f: nat, d: Decimal, gap: string, u: Suffix)
    requires Reads(s, w, e, NumberText(d) + (gap + SuffixText(u)))
    requires DecimalFormed(d) && Blanks(gap) && SuffixFormed(u) && NoExponent(d, u)
    requires e <= f <= |s| && Blanks(s[e..f]) && Closed(s, f)
    ensures var n, a := w + |NumberText(d)|, w + |NumberText(d)| + |gap|;
            w < n <= a < e && DecimalEnd(s, w) == n && SkipWhile(s, n, Ws) == a && SuffixEnd(s, a) == e
  {
    hide *;
    ReadsThree(s, w, e, NumberText(d), gap, SuffixText(u));
    SuffixedFrom(s, w, w + |NumberText(d)|, w + |NumberText(d)| + |gap|, e, f, d, gap, u);
  }

  lemma SuffixedFrom(s: seq<char>, w: nat, n: nat, a: nat, e: nat, f: nat, d: Decimal, gap: string, u: Suffix)
    requires Reads(s, w, n, NumberText(d)) && Reads(s, n, a, gap) && Reads(s, a, e, SuffixText(u))
    requires DecimalFormed(d) && Blanks(gap) && SuffixFormed(u) && NoExponent(d, u)
    requires e <= f <= |s| && Blanks(s[e..f]) && Closed(s, f)
    ensures w < n <= a < e && DecimalEnd(s, w) == n && SkipWhile(s, n, Ws) == a && SuffixEnd(s, a) == e
  {
    hide DecimalEnd, SkipWhile, SuffixEnd, NumberText, SuffixText, Exponent, Blanks, DecimalFormed, SuffixFormed, NoExponent,
         IsDigit, IsAlpha, In, Closed;
    SuffixEnded(s, e, f);
    SuffixRead(s, a, e, u);
    GapBefore(s, n, a, gap, u);
    if d.power.NoPower? {
      NotExponent(s, a, e, f, d, u);
    }
    NumberRead(s, w, n, d);
  }

  lemma SuffixEnded(s: seq<char>, e: nat, f: nat)
    requires e <= f <= |s| && Blanks(s[e..f]) && Closed(s, f)
    ensures PartEnded(s, e) && (e < |s| ==> s[e] != '/' && s[e] != '.')
  {
    AfterNumber(s, e, f);
  }

  lemma GapBefore(s: seq<char>, n: nat, a: nat, gap: string, u: Suffix)
    requires n <= a < |s| && s[n..a] == gap && Blanks(gap) && (if u.slash then s[a] == '/' else IsAlpha(s[a]))
    ensures SkipWhile(s, n, Ws) == a && !IsDigit(s[n]) && s[n] != '.'
  {
    Gap(s, n, a, gap);
  }

  lemma NotExponent(s: seq<char>, a: nat, e: nat, f: nat, d: Decimal, u: Suffix)
    requires a < e <= f <= |s| && s[a..e] == SuffixText(u) && SuffixFormed(u) && NoExponent(d, u) && d.power.NoPower?
    requires if u.slash then s[a] == '/'
             else a + |u.first.letters| <= |s| && s[a..a + |u.first.letters|] == u.first.letters
    requires Blanks(s[e..f]) && Closed(s, f)
    ensures Exponent(s, a).0 == 0
  {
    hide Exponent, SuffixFormed, SuffixText, Blanks, Closed;
    if u.slash || (u.first.letters != "e" && u.first.letters != "E") {
      OtherLetters(s, a, u);
    } else {
      NoDigit(s, a, e, f, u);
    }
  }

  lemma SuffixedBare(s: seq<char>, w: nat, e: nat, f: nat, x: DataText)
    requires x.SuffixedText? && Stands(s, w, e, f, x)
    ensures BareDatum(s, w) == BareOf(w, e, f, x)
  {
    hide DecimalEnd, SkipWhile, SuffixEnd, NumberText, SuffixText, Exponent, StringDatum, BlockDatum, ExpressionDatum,
         MnemonicDatum, NondecimalDatum, Closed, Blanks, DecimalFormed, SuffixFormed, NoExponent, PartFormed;
    Together(NumberText(x.d), x.gap, SuffixText(x.suffix));
    SuffixedRead(s, w, e, f, x.d, x.gap, x.suffix);
    C.FirstCharacters(s, w);
  }

  lemma Together(a: string, b: string, c: string)
    ensures a + b + c == a + (b + c)
  {
  }

  lemma BasedBare(s: seq<char>, w: nat, e: nat, f: nat, x: DataText)
    requires x.BasedText? && Stands(s, w, e, f, x)
    ensures w + 2 <= e && BareDatum(s, w) == BareOf(w, e, f, x)
  {
    hide SkipWhile, StringDatum, BlockDatum, ExpressionDatum, MnemonicDatum, DecimalDatum, Closed, Blanks, WordCharacter;
    assert "#" + [x.letter] + x.digits == "#" + ([x.letter] + x.digits);
    ThreeParts(s, w, e, "#", [x.letter], x.digits);
    assert s[w] == s[w..w + 1][0] && s[w + 1] == s[w + 1..w + 2][0];
    AfterNumber(s, e, f);
    BaseLetter(x, s, e);
    RunRead(s, w + 2, x.digits, BaseOf(x.letter).1);
  }

  lemma BaseLetter(x: DataText, s: seq<char>, e: nat)
    requires x.BasedText? && DataFormed(x) && e <= |s| && (e == |s| || !WordCharacter(s[e]))
    ensures var (kind, k) := BaseOf(x.letter);
            && kind == DataKind(x) && !kind.TokUnknown? && (forall j | 0 <= j < |x.digits| :: In(k, x.digits[j]))
            && (e < |s| ==> !In(k, s[e]))
  {
    assert DigitOf(x.letter, x.digits[0]);
  }

  lemma {:induction false} TwiceRead(s: seq<char>, a: nat, b: nat, t: string, q: char)
    requires a <= b < |s| && s[a..b] == Twice(t, q) && s[b] == q && (b + 1 == |s| || s[b + 1] != q)
    requires forall k | 0 <= k < |t| :: t[k] as nat <= 0x7F
    ensures QuoteStop(s, a, q) == b
    decreases |t|
  {
    if t != [] {
      var head, later := if t[0] == q then [q, q] else [t[0]], Twice(t[1..], q);
      Parts(s, a, b, head, later);
      assert s[a] == head[0] && (|head| == 2 ==> s[a + 1] == s[a..a + 2][1] == head[1]);
      TwiceRead(s, a + |head|, b, t[1..], q);
    }
  }

  lemma QuotedBare(s: seq<char>, w: nat, e: nat, f: nat, x: DataText)
    requires x.QuotedText? && Stands(s, w, e, f, x)
    ensures BareDatum(s, w) == BareOf(w, e, f, x)
  {
    hide QuoteStop, Twice, BlockDatum, ExpressionDatum, MnemonicDatum, DecimalDatum, NondecimalDatum, Closed, Blanks;
    var q, t := x.quote, Twice(x.content, x.quote);
    assert [q] + t + [q] == [q] + (t + [q]);
    ThreeParts(s, w, e, [q], t, [q]);
    assert s[w] == s[w..w + 1][0];
    AfterNumber(s, e, f);
    TwiceRead(s, w + 1, e - 1, x.content, q);
    C.FirstCharacters(s, w);
  }

  lemma WordBare(s: seq<char>, w: nat, e: nat, f: nat, x: DataText)
    requires x.WordText? && Stands(s, w, e, f, x)
    ensures BareDatum(s, w) == BareOf(w, e, f, x)
  {
    hide MnemonicEnd, BlockDatum, ExpressionDatum, StringDatum, DecimalDatum, NondecimalDatum, Closed, Blanks;
    AfterNumber(s, e, f);
    MnemonicRead(s, w, x.word);
    WordNotEmpty(x.word);
    assert s[w] == s[w..e][0];
    C.FirstCharacters(s, w);
  }

  lemma ExpressionBare(s: seq<char>, w: nat, e: nat, f: nat, x: DataText)
    requires x.ExpressionText? && Stands(s, w, e, f, x)
    ensures BareDatum(s, w) == BareOf(w, e, f, x)
  {
    hide SkipWhile, MnemonicDatum, BlockDatum, StringDatum, DecimalDatum, NondecimalDatum, Closed, Blanks;
    assert "(" + x.content + ")" == "(" + (x.content + ")");
    ThreeParts(s, w, e, "(", x.content, ")");
    assert s[w] == s[w..w + 1][0];
    RunRead(s, w + 1, x.content, ExpressionChar);
    C.FirstCharacters(s, w);
  }

  lemma BlockBare(s: seq<char>, w: nat, e: nat, f: nat, x: DataText)
    requires x.BlockText? && Stands(s, w, e, f, x)
    ensures w + Skipped(x) <= e && BareDatum(s, w) == BareOf(w, e, f, x)
  {
    hide BlockAt, MnemonicDatum, StringDatum, DecimalDatum, NondecimalDatum, ExpressionDatum, Closed, Blanks, N.Eval;
    var count := ['1', '2', '3', '4', '5', '6', '7', '8', '9'][|x.length| - 1];
    FourParts(s, w, e, "#", [count], x.length, x.data);
    assert s[w] == s[w..w + 1][0] && s[w + 1] == s[w + 1..w + 2][0];
    LengthDigitsAre(x.length);
    RoundTrip.BlockRead(s, w, x.length, |x.data|);
    C.OnlyBlock(s, w);
  }

  lemma LengthDigitsAre(t: string)
    requires Digits(t) && 0 < |t| <= 9
    ensures N.IsNumeral(10, t)
    ensures N.DigitChar(|t|) == ['1', '2', '3', '4', '5', '6', '7', '8', '9'][|t| - 1]
  {
  }

  /** Every parameter is recognised as what it is. */
  lemma BareRead(s: seq<char>, w: nat, e: nat, f: nat, x: DataText)
    requires Stands(s, w, e, f, x)
    ensures w + Skipped(x) <= e && BareDatum(s, w) == BareOf(w, e, f, x)
  {
    hide Stands, BareDatum;
    match x
    case DecimalText(d) =>
      DecimalBare(s, w, e, f, d);
      StandsIn(s, w, e, f, x);
    case SuffixedText(_, _, _) =>
      SuffixedBare(s, w, e, f, x);
      StandsIn(s, w, e, f, x);
    case BasedText(_, _) => BasedBare(s, w, e, f, x);
    case QuotedText(_, _) =>
      QuotedBare(s, w, e, f, x);
      StandsIn(s, w, e, f, x);
    case WordText(_) =>
      WordBare(s, w, e, f, x);
      StandsIn(s, w, e, f, x);
    case ExpressionText(_) =>
      ExpressionBare(s, w, e, f, x);
      StandsIn(s, w, e, f, x);
    case BlockText(_, _) => BlockBare(s, w, e, f, x);
  }

  lemma StandsIn(s: seq<char>, w: nat, e: nat, f: nat, x: DataText)
    requires Stands(s, w, e, f, x)
    ensures w <= e <= f <= |s|
  {
  }
}
