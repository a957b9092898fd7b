/** Parameters of every kind, read one after the other from the text of their list, and taken as integers. */
module ParameterTexts {
  import opened Arithmetic
  import opened LexSpec
  import opened HeaderTokens
  import opened DataTokens
  import opened UnitTexts
  import opened Parameters
  import N = Numerals
  import Printer

  /** The token of a parameter whose text with its white space begins at `j`. */
  function TokenOf(m: Item, j: nat): Token
    requires ItemFormed(m)
  {
    Token(DataKind(m.data), j + |m.lead| + Skipped(m.data), |Written(m.data)| - Skipped(m.data))
  }

  /** What successive calls for parameters give, up to the first that gives none. */
  function ReadingsFrom(s: seq<char>, i: nat, count: nat): seq<Reading>
    requires i <= |s|
    decreases |s| - i
  {
    var r := ParameterAt(s, i, count);
    [r] + if r.Param? then ReadingsFrom(s, r.next, count + 1) else []
  }

  /** A comma goes before every parameter but the first. */
  function Comma(count: nat): string { if count > 0 then "," else "" }

  /** What they should give: the parameters as they are written, from `i` on, and then none. */
  function Readings(ms: seq<Item>, i: nat, count: nat): seq<Reading>
    requires ItemsFormed(ms)
  {
    if ms == [] then [Missing]
    else
      var j := i + |Comma(count)|;
      [Param(TokenOf(ms[0], j), j + |ItemText(ms[0])|)] + Readings(ms[1..], j + |ItemText(ms[0])|, count + 1)
  }

  /** Where the next parameter stands. */
  lemma NextStands(s: seq<char>, i: nat, count: nat, ms: seq<Item>)
    requires ms != [] && ItemsFormed(ms) && Reads(s, i, |s|, Comma(count) + ListText(ms))
    ensures var j := i + |Comma(count)|;
            var f := j + |ItemText(ms[0])|;
            && j <= f <= |s| && s[j..f] == ItemText(ms[0]) && Closed(s, f) && (count > 0 ==> s[i] == ',')
            && if |ms| == 1 then f == |s| else f < |s| && Reads(s, f, |s|, "," + ListText(ms[1..]))
  {
    hide ItemText, ItemFormed, ListText, Reads;
    ReadsParts(s, i, |s|, Comma(count), ListText(ms));
    ReadsIs(s, i, i + |Comma(count)|, Comma(count));
    ReadsIs(s, i + |Comma(count)|, |s|, ListText(ms));
    ListFront(s, i + |Comma(count)|, |s|, ms);
    if |ms| > 1 {
      CommaReads(s, i + |Comma(count)| + |ItemText(ms[0])|, ListText(ms[1..]));
    }
  }

  lemma CommaReads(s: seq<char>, f: nat, t: string)
    requires f < |s| && s[f] == ',' && s[f + 1..|s|] == t
    ensures Reads(s, f, |s|, "," + t)
  {
    assert s[f..|s|] == [s[f]] + s[f + 1..|s|];
  }

  lemma NextRead(s: seq<char>, i: nat, count: nat, ms: seq<Item>)
    requires ms != [] && ItemsFormed(ms) && Reads(s, i, |s|, Comma(count) + ListText(ms))
    ensures var j := i + |Comma(count)|;
            var f := j + |ItemText(ms[0])|;
            && f <= |s| && ParameterAt(s, i, count) == Param(TokenOf(ms[0], j), f)
            && if |ms| == 1 then f == |s| else f < |s| && Reads(s, f, |s|, "," + ListText(ms[1..]))
  {
    hide ItemText, ItemFormed, DatumAt, ListText, Skipped, Written, DataKind, Closed, Reads;
    NextStands(s, i, count, ms);
    var j := i + |Comma(count)|;
    DatumRead(s, j, j + |ItemText(ms[0])|, ms[0]);
    KindKnown(ms[0].data);
    ItemNotEmpty(ms[0]);
  }

  lemma ItemNotEmpty(m: Item)
    requires ItemFormed(m)
    ensures ItemText(m) != ""
  {
    hide Written;
    WrittenStarts(m.data);
  }

  /** A list of parameters of any kinds is read parameter by parameter, and then there is none. */
  lemma {:induction false} ListIsRead(s: seq<char>, i: nat, count: nat, ms: seq<Item>)
    requires ms != [] && ItemsFormed(ms) && Reads(s, i, |s|, Comma(count) + ListText(ms))
    ensures ReadingsFrom(s, i, count) == Readings(ms, i, count)
    decreases |ms|
  {
    hide ItemText, ItemFormed, ListText, TokenOf, ParameterAt, Reads;
    NextRead(s, i, count, ms);
    var f := i + |Comma(count)| + |ItemText(ms[0])|;
    if |ms| > 1 {
      ListIsRead(s, f, count + 1, ms[1..]);
    } else {
      NothingLeft(s, count + 1);
      assert ms[1..] == [];
    }
  }

  lemma NothingLeft(s: seq<char>, count: nat)
    ensures ParameterAt(s, |s|, count) == Missing && ReadingsFrom(s, |s|, count) == [Missing]
  {
  }

  /** A comma with nothing but white space behind it, and anything but a comma behind a parameter. */
  lemma BrokenList(s: seq<char>, i: nat, count: nat)
    requires i < |s| && count > 0
    ensures s[i] != ',' ==> ParameterAt(s, i, count) == InvalidSeparator
    ensures s[i] == ',' && Blanks(s[i + 1..]) ==> ParameterAt(s, i, count) == InvalidData
  {
    hide SkipWhile;
    if s[i] == ',' && Blanks(s[i + 1..]) {
      assert s[i + 1..|s|] == s[i + 1..];
      BlanksRead(s, i + 1, s[i + 1..]);
      SkipTo(s, |s|, Ws, |s|);
      assert BareDatum(s, |s|) == NoDatum(|s|) by { NothingThere(s); }
    }
  }

  lemma NothingThere(s: seq<char>)
    ensures BareDatum(s, |s|) == NoDatum(|s|)
  {
    SkipTo(s, |s|, Digit, |s|);
  }

  /** The digits of a base are read up to something that is none. */
  lemma {:induction false} DigitsTo(b: N.Base, s: seq<char>, p: nat, e: nat)
    requires p <= e <= |s| && (forall k | p <= k < e :: N.DigitValue(s[k]) < b) && (e == |s| || N.DigitValue(s[e]) >= b)
    ensures DigitsEnd(b, s, p) == e
    decreases e - p
  {
    hide N.DigitValue;
    if p < e {
      DigitsTo(b, s, p + 1, e);
    }
  }

  function NumberBase(letter: char): N.Base {
    if letter == 'h' || letter == 'H' then 16 else if letter == 'q' || letter == 'Q' then 8 else 2
  }

  /**
   A parameter taken as an integer: nondecimal numbers by their base, decimal ones by sign and whole part only;
   suffixes are not allowed, and other kinds are of the wrong type.
   */
  function Taken(long: Printer.Width, t: IntType, x: DataText): Number
    requires DataFormed(x)
  {
    match x
    case DecimalText(d) =>
      if d.whole == "" then NoDigits
      else Value(Converted(long, t, true, if d.sign == "-" then 0 - N.Eval(10, d.whole) else N.Eval(10, d.whole)))
    case SuffixedText(_, _, _) => SuffixNotAllowed
    case BasedText(letter, digits) => Value(Converted(long, t, false, N.Eval(NumberBase(letter), digits)))
    case _ => DataTypeError
  }

  /** The characters of a decimal number that decide its integer. */
  lemma WholeStands(s: seq<char>, w: nat, e: nat, d: Decimal)
    requires w <= e <= |s| && s[w..e] == NumberText(d) && DecimalFormed(d)
    requires e == |s| || !IsDigit(s[e])
    ensures var p, a := w + |d.sign|, w + |d.sign| + |d.whole|;
            && w < e && a <= e && s[w..p] == d.sign && s[p..a] == d.whole && (a == |s| || !IsDigit(s[a]))
            && (d.sign == "" ==> !IsPlusMinus(s[w]))
  {
    hide MantissaText, ExponentText, PowerFormed, Digits;
    var m := w + |MantissaText(d)|;
    if d.power.NoPower? {
      assert MantissaText(d) + "" == MantissaText(d);
    } else {
      Parts(s, w, e, MantissaText(d), d.power.gap + ExponentText(d.power));
      PowerApart(s, m, e, d.power);
    }
    MantissaNotEmpty(d);
    WholeIn(s, w, m, d);
  }

  lemma PowerApart(s: seq<char>, m: nat, e: nat, x: Power)
    requires x.Power? && PowerFormed(x) && m <= e <= |s| && s[m..e] == x.gap + ExponentText(x)
    ensures m < e && !IsDigit(s[m])
  {
    var t := x.gap + ExponentText(x);
    assert s[m] == s[m..e][0];
    assert t[0] == if x.gap == "" then x.letter else x.gap[0];
  }

  lemma WholeIn(s: seq<char>, w: nat, m: nat, d: Decimal)
    requires w < m <= |s| && s[w..m] == MantissaText(d) && DecimalFormed(d) && (m == |s| || !IsDigit(s[m]))
    ensures var p, a := w + |d.sign|, w + |d.sign| + |d.whole|;
            && a <= m && s[w..p] == d.sign && s[p..a] == d.whole && (a == |s| || !IsDigit(s[a]))
            && (d.sign == "" ==> !IsPlusMinus(s[w]))
  {
    hide MantissaText, PowerFormed, Digits;
    MantissaParts(s, w, m, d);
    if d.sign == "" {
      FirstWhole(s, w, d);
    }
  }

  lemma FirstWhole(s: seq<char>, w: nat, d: Decimal)
    requires DecimalFormed(d) && w + |d.whole| <= |s| && s[w..w + |d.whole|] == d.whole && w < |s|
    requires d.point ==> w + |d.whole| < |s| && s[w + |d.whole|] == '.'
    ensures !IsPlusMinus(s[w])
  {
    hide PowerFormed;
    if d.whole != "" {
      assert s[w] == s[w..w + |d.whole|][0];
    }
  }

  lemma DecimalTaken(s: seq<char>, w: nat, e: nat, d: Decimal)
    requires w <= e <= |s| && s[w..e] == NumberText(d) && DecimalFormed(d)
    requires e == |s| || !IsDigit(s[e])
    ensures var (used, v) := StrTo(10, s, w);
            && (used == 0 <==> d.whole == "")
            && (d.whole != "" ==> v == if d.sign == "-" then 0 - N.Eval(10, d.whole) else N.Eval(10, d.whole))
  {
    hide NumberText, N.Eval, PowerFormed, N.DigitValue;
    WholeStands(s, w, e, d);
    var p, a := w + |d.sign|, w + |d.sign| + |d.whole|;
    WholeDigits(s, p, a, d.whole);
    DigitsTo(10, s, p, a);
    if d.sign != "" {
      assert s[w] == s[w..p][0];
    }
  }

  lemma WholeDigits(s: seq<char>, p: nat, a: nat, t: string)
    requires p <= a <= |s| && s[p..a] == t && Digits(t) && (a == |s| || !IsDigit(s[a]))
    ensures (forall k | p <= k < a :: N.DigitValue(s[k]) < 10) && (a == |s| || N.DigitValue(s[a]) >= 10)
  {
    assert forall k | p <= k < a :: s[k] == t[k - p];
  }

  lemma BasedTaken(s: seq<char>, w: nat, e: nat, x: DataText)
    requires x.BasedText? && DataFormed(x) && w + 2 <= e <= |s| && s[w + 2..e] == x.digits
    requires e == |s| || !WordCharacter(s[e])
    ensures StrTo(NumberBase(x.letter), s, w + 2) == (|x.digits|, N.Eval(NumberBase(x.letter), x.digits))
  {
    hide N.Eval;
    var b, t := NumberBase(x.letter), x.digits;
    forall k | w + 2 <= k < e ensures N.DigitValue(s[k]) < b && !IsPlusMinus(s[k]) && s[k] != 'x' && s[k] != 'X' {
      assert s[k] == t[k - w - 2] && DigitOf(x.letter, t[k - w - 2]);
    }
    assert DigitOf(x.letter, t[0]) && s[w + 2] == t[0];
    DigitsTo(b, s, w + 2, e);
  }

  /** Every parameter of a list, taken as an integer where it stands. */
  lemma ItemTaken(long: Printer.Width, t: IntType, s: seq<char>, j: nat, f: nat, m: Item)
    requires ItemFormed(m) && j <= f <= |s| && s[j..f] == ItemText(m) && Closed(s, f)
    ensures var k := TokenOf(m, j);
            && 0 <= k.len && k.ptr + k.len <= |s|
            && NumberOf(long, t, s, Param(k, f)) == Taken(long, t, m.data)
  {
    hide NumberOf, Taken, Closed, Written, DataFormed, Skipped, DataKind;
    ItemStands(s, j, f, m);
    var w, e := j + |m.lead|, j + |m.lead| + |Written(m.data)|;
    EndsApart(s, w, e, f, m.data);
    TextTaken(long, t, s, w, e, f, m.data);
  }

  lemma TextTaken(long: Printer.Width, t: IntType, s: seq<char>, w: nat, e: nat, f: nat, x: DataText)
    requires DataFormed(x) && w <= e <= |s| && s[w..e] == Written(x) && w + Skipped(x) <= e
    requires e == |s| || (!IsDigit(s[e]) && !WordCharacter(s[e]))
    ensures NumberOf(long, t, s, Param(Token(DataKind(x), w + Skipped(x), e - w - Skipped(x)), f)) == Taken(long, t, x)
  {
    hide StrTo, Converted, N.Eval, DecimalFormed, WordCharacter, IsDigit, SuffixFormed, NumberText, SuffixText, Twice, Mnemonic,
         Digits, DigitOf;
    match x
    case DecimalText(d) => DecimalTaken(s, w, e, d);
    case BasedText(letter, digits) =>
      BasedParts(s, w, e, x);
      BasedTaken(s, w, e, x);
    case _ =>
  }

  lemma EndsApart(s: seq<char>, w: nat, e: nat, f: nat, x: DataText)
    requires Stands(s, w, e, f, x)
    ensures w + Skipped(x) <= e <= |s|
    ensures e == |s| || (!IsDigit(s[e]) && !WordCharacter(s[e]))
  {
    hide BareDatum;
    AfterNumber(s, e, f);
    BareRead(s, w, e, f, x);
  }

  lemma BasedParts(s: seq<char>, w: nat, e: nat, x: DataText)
    requires x.BasedText? && DataFormed(x) && w <= e <= |s| && s[w..e] == Written(x)
    ensures w + 2 <= e && s[w + 2..e] == x.digits
  {
    Together("#", [x.letter], x.digits);
    ThreeParts(s, w, e, "#", [x.letter], x.digits);
  }

  /**
   Numbers that a type does not have. A signed decimal conversion of the library's own width stops at the largest and
   the least number; cut to 32 bits, those of 64 bits become -1 and 0. Unsigned conversions become all ones.
   */
  lemma OutOfRange(long: Printer.Width, v: int)
    ensures v > 0x7FFF_FFFF ==> Converted(Printer.W32, IntType(Printer.W32, true), true, v) == 0x7FFF_FFFF
    ensures v < -0x8000_0000 ==> Converted(Printer.W32, IntType(Printer.W32, true), true, v) == -0x8000_0000
    ensures v > 0x7FFF_FFFF_FFFF_FFFF ==>
              && Converted(long, IntType(Printer.W64, true), true, v) == 0x7FFF_FFFF_FFFF_FFFF
              && Converted(Printer.W64, IntType(Printer.W32, true), true, v) == -1
    ensures v < -0x8000_0000_0000_0000 ==>
              && Converted(long, IntType(Printer.W64, true), true, v) == -0x8000_0000_0000_0000
              && Converted(Printer.W64, IntType(Printer.W32, true), true, v) == 0
    ensures v > 0xFFFF_FFFF ==> Converted(Printer.W32, IntType(Printer.W32, false), true, v) == 0xFFFF_FFFF
    ensures v > 0xFFFF_FFFF_FFFF_FFFF ==> Converted(long, IntType(Printer.W64, false), true, v) == 0xFFFF_FFFF_FFFF_FFFF
  {
  }

  /** Within the library's width, what is held differs from what was written by a multiple of the type's modulus. */
  lemma LowBits(long: Printer.Width, t: IntType, decimal: bool, v: int)
    requires var half := if t.w.W32? && long.W32? then 0x8000_0000 else 0x8000_0000_0000_0000; 0 - half <= v < half
    ensures (Converted(long, t, decimal, v) - v) % Printer.Modulus(t.w) == 0
  {
    hide Clamped, Wrapped, Converted;
    var lib := if t.w.W32? then long else Printer.W64;
    var l, m := Printer.Modulus(lib), Printer.Modulus(t.w);
    var u, c := ConvertedFrom(long, t, decimal, v);
    Quotient(v, l);
    Quotient(u, m);
    Multiple(v, l, m, if t.sign && decimal then 0 else v / l, u / m, c);
  }

  lemma ConvertedFrom(long: Printer.Width, t: IntType, decimal: bool, v: int) returns (u: int, c: int)
    requires var half := if t.w.W32? && long.W32? then 0x8000_0000 else 0x8000_0000_0000_0000; 0 - half <= v < half
    ensures u == if t.sign && decimal then v else v % Printer.Modulus(if t.w.W32? then long else Printer.W64)
    ensures Converted(long, t, decimal, v) == u % Printer.Modulus(t.w) - c * Printer.Modulus(t.w)
  {
    var lib := if t.w.W32? then long else Printer.W64;
    u := if t.sign && decimal then Clamped(lib, v) else Wrapped(lib, v);
    c := if t.sign && 2 * (u % Printer.Modulus(t.w)) >= Printer.Modulus(t.w) then 1 else 0;
  }

  lemma Quotient(v: int, l: nat)
    requires l > 0
    ensures v % l == v - l * (v / l)
  {
  }

  lemma Multiple(v: int, l: nat, m: nat, n: int, q: int, c: int)
    requires m > 0 && (l == m || l == 0x1_0000_0000 * m)
    ensures (v - l * n - m * q - c * m - v) % m == 0
  {
    var k := if l == m then 1 else 0x1_0000_0000;
    assert l * n == m * (k * n) by { Regroup(m, k, n, l); }
    var z := 0 - k * n - q - c;
    assert v - l * n - m * q - c * m - v == m * z by { Collect(m, k * n, q, c); }
    NoRest(m, z);
  }

  lemma Regroup(m: nat, k: nat, n: int, l: nat)
    requires l == k * m
    ensures l * n == m * (k * n)
  {
  }

  lemma Collect(m: nat, a: int, q: int, c: int)
    ensures 0 - m * a - m * q - c * m == m * (0 - a - q - c)
  {
  }

  lemma NoRest(m: nat, z: int)
    requires m > 0
    ensures (m * z) % m == 0
  {
    var q := (m * z) / m;
    Quotient(m * z, m);
    assert m * z - m * q == (z - q) * m;
    if z > q {
      Times(1, z - q, m);
    } else if z < q {
      Times(z - q, -1, m);
    }
  }
}
