/** Lists of parameters and whole message units, put together from their texts and found again. */
module UnitTexts {
  import opened LexSpec
  import opened HeaderTokens
  import opened DataTokens

  /** A parameter and the white space around it. */
  datatype Item = Item(lead: string, data: DataText, trail: string)

  predicate ItemFormed(m: Item) { Blanks(m.lead) && DataFormed(m.data) && Blanks(m.trail) }

  predicate ItemsFormed(ms: seq<Item>) { forall k | 0 <= k < |ms| :: ItemFormed(ms[k]) }

  function ItemText(m: Item): string
    requires ItemFormed(m)
  {
    m.lead + (Written(m.data) + m.trail)
  }

  /** Parameters with commas between them. */
  function ListText(ms: seq<Item>): string
    requires ms != [] && ItemsFormed(ms)
  {
    ItemText(ms[0]) + if |ms| == 1 then "" else "," + ListText(ms[1..])
  }

  /** What the parser counts of a parameter: not the white space behind a bare number. */
  function Counted(m: Item): nat
    requires ItemFormed(m)
  {
    |m.lead| + |Written(m.data)| + if m.data.DecimalText? then 0 else |m.trail|
  }

  function CountedAll(ms: seq<Item>): nat
    requires ms != [] && ItemsFormed(ms)
  {
    Counted(ms[0]) + if |ms| == 1 then 0 else 1 + CountedAll(ms[1..])
  }

  lemma WrittenStarts(x: DataText)
    requires DataFormed(x)
    ensures Written(x) != "" && !In(Ws, Written(x)[0])
  {
    hide NumberText, SuffixText, Twice;
    match x
    case DecimalText(d) => NumberStarts(d);
    case SuffixedText(d, gap, u) =>
      NumberStarts(d);
      Together(NumberText(d), gap, SuffixText(u));
      assert Written(x)[0] == NumberText(d)[0];
    case BasedText(letter, digits) => assert Written(x)[0] == '#';
    case QuotedText(quote, content) => assert Written(x)[0] == quote;
    case WordText(word) => WordNotEmpty(word);
    case ExpressionText(content) => assert Written(x)[0] == '(';
    case BlockText(length, data) => assert Written(x)[0] == '#';
  }

  lemma NumberStarts(d: Decimal)
    requires DecimalFormed(d)
    ensures NumberText(d) != "" && !In(Ws, NumberText(d)[0])
  {
    hide MantissaText, DecimalFormed;
    MantissaNotEmpty(d);
    assert NumberText(d)[0] == MantissaText(d)[0];
  }

  /** Where a parameter with its white space stands. */
  lemma ItemStands(s: seq<char>, i: nat, f: nat, m: Item)
    requires ItemFormed(m) && i <= f <= |s| && s[i..f] == ItemText(m) && Closed(s, f)
    ensures var w, e := i + |m.lead|, i + |m.lead| + |Written(m.data)|;
            && Stands(s, w, e, f, m.data) && f - e == |m.trail|
            && w < |s| && s[i..w] == m.lead && !In(Ws, s[w])
  {
    hide Written, DataFormed, Closed, Blanks;
    WrittenStarts(m.data);
    ThreeParts(s, i, f, m.lead, Written(m.data), m.trail);
    var w, e := i + |m.lead|, i + |m.lead| + |Written(m.data)|;
    assert s[w] == s[w..e][0];
  }

  /** A parameter is found where it stands, as what it is. */
  lemma DatumRead(s: seq<char>, i: nat, f: nat, m: Item)
    requires ItemFormed(m) && i <= f <= |s| && s[i..f] == ItemText(m) && Closed(s, f)
    ensures var w, k := i + |m.lead|, Skipped(m.data);
            && k <= |Written(m.data)|
            && DatumAt(s, i) == Datum(Token(DataKind(m.data), w + k, |Written(m.data)| - k), Counted(m), f)
  {
    hide Written, DataFormed, Closed, BareDatum, SkipWhile, ItemText, Stands, DataKind, Blanks;
    ItemStands(s, i, f, m);
    var w, e := i + |m.lead|, i + |m.lead| + |Written(m.data)|;
    BareRead(s, w, e, f, m.data);
    Gap(s, i, w, m.lead);
    TrailRead(s, w, e, f, m.data);
  }

  lemma TrailRead(s: seq<char>, w: nat, e: nat, f: nat, x: DataText)
    requires Stands(s, w, e, f, x)
    ensures w <= e <= f <= |s| && SkipWhile(s, e, Ws) == f && SkipWhile(s, f, Ws) == f
  {
    hide Written, DataFormed, Blanks, SkipWhile;
    ClosedHere(s, f);
    Gap(s, e, f, s[e..f]);
  }

  lemma FrontEnded(s: seq<char>, n: nat)
    requires UnitEnded(s, n)
    ensures Closed(s, n)
  {
  }

  lemma ListFront(s: seq<char>, i: nat, n: nat, ms: seq<Item>)
    requires ms != [] && ItemsFormed(ms) && i <= n <= |s| && s[i..n] == ListText(ms) && UnitEnded(s, n)
    ensures var f := i + |ItemText(ms[0])|;
            && f <= n && s[i..f] == ItemText(ms[0]) && Closed(s, f)
            && if |ms| == 1 then f == n else f < n && s[f] == ',' && s[f + 1..n] == ListText(ms[1..])
  {
    hide ItemText, ItemFormed, UnitEnded;
    FrontEnded(s, n);
    var t := ItemText(ms[0]);
    if |ms| == 1 {
      assert t + "" == t;
    } else {
      ThreeParts(s, i, n, t, ",", ListText(ms[1..]));
      assert s[i + |t|] == s[i + |t|..i + |t| + 1][0];
    }
  }

  /** A list of parameters is found to its end; what the parser counts of it. */
  lemma {:induction false} ListRead(s: seq<char>, i: nat, n: nat, ms: seq<Item>)
    requires ms != [] && ItemsFormed(ms) && i <= n <= |s| && s[i..n] == ListText(ms) && UnitEnded(s, n)
    ensures DataAt(s, i) == DataList(true, CountedAll(ms), |ms|, n)
    decreases |ms|
  {
    hide ItemText, ItemFormed, DatumAt, Counted, ListText, Skipped, Written;
    ListFront(s, i, n, ms);
    var f := i + |ItemText(ms[0])|;
    DatumRead(s, i, f, ms[0]);
    KindKnown(ms[0].data);
    if |ms| > 1 {
      ListRead(s, f + 1, n, ms[1..]);
    }
  }

  lemma KindKnown(x: DataText)
    ensures !DataKind(x).TokUnknown?
  {
  }

  /** A header alone, or with white space and parameters; white space may stand in front. */
  datatype UnitText = UnitText(lead: string, header: Header, gap: string, items: seq<Item>)

  predicate UnitFormed(u: UnitText) {
    && Blanks(u.lead) && Formed(u.header) && Blanks(u.gap) && (u.gap == "" <==> u.items == [])
    && ItemsFormed(u.items) && (u.items != [] ==> u.items[0].lead == "")
  }

  function ParametersText(u: UnitText): string
    requires UnitFormed(u)
  {
    if u.items == [] then "" else u.gap + ListText(u.items)
  }

  function CommandText(u: UnitText): string
    requires UnitFormed(u)
  {
    TextOf(u.header) + ParametersText(u)
  }

  function CountedIn(u: UnitText): nat
    requires UnitFormed(u)
  {
    if u.items == [] then 0 else CountedAll(u.items)
  }

  /** The parameters of the unit as one token, from `v` on. */
  function DataToken(u: UnitText, v: nat): Token
    requires UnitFormed(u)
  {
    Token(if u.items == [] then TokUnknown else TokAllData, v, CountedIn(u))
  }

  lemma ListStarts(ms: seq<Item>)
    requires ms != [] && ItemsFormed(ms) && ms[0].lead == ""
    ensures ListText(ms) != "" && !In(Ws, ListText(ms)[0])
  {
    hide Written, In;
    WrittenStarts(ms[0].data);
    assert ItemText(ms[0]) == Written(ms[0].data) + ms[0].trail;
    assert ListText(ms)[0] == ItemText(ms[0])[0];
  }

  /** Where header and parameters of a unit stand. */
  lemma UnitParts(s: seq<char>, i: nat, n: nat, u: UnitText)
    requires UnitFormed(u) && i <= n <= |s| && s[i..n] == u.lead + CommandText(u) && UnitEnded(s, n)
    ensures var h := i + |u.lead|;
            var e := h + |TextOf(u.header)|;
            var v := e + |u.gap|;
            && h < e <= v <= n && SkipWhile(s, i, Ws) == h && s[h..e] == TextOf(u.header) && Ended(s, e)
            && SkipWhile(s, e, Ws) == v && s[e..v] == u.gap
            && if u.items == [] then v == n else e < v && s[v..n] == ListText(u.items)
  {
    hide TextOf, ListText, Formed, ItemsFormed, SkipWhile;
    HeaderPart(s, i, n, u.lead, u.header, ParametersText(u));
    var e := i + |u.lead| + |TextOf(u.header)|;
    if u.items == [] {
      assert s[e..e] == u.gap;
      BlanksRead(s, e, u.gap);
    } else {
      GapParts(s, e, n, u.gap, u.items);
    }
  }

  lemma HeaderPart(s: seq<char>, i: nat, n: nat, lead: string, header: Header, rest: string)
    requires Blanks(lead) && Formed(header) && i <= n <= |s| && s[i..n] == lead + (TextOf(header) + rest)
    ensures var h := i + |lead|;
            var e := h + |TextOf(header)|;
            h < e <= n && SkipWhile(s, i, Ws) == h && s[h..e] == TextOf(header) && s[e..n] == rest
  {
    hide TextOf, Formed, SkipWhile;
    HeaderStarts(header);
    ThreeParts(s, i, n, lead, TextOf(header), rest);
    var h := i + |lead|;
    assert s[h] == s[h..h + |TextOf(header)|][0];
    BlanksRead(s, i, lead);
  }

  lemma GapParts(s: seq<char>, e: nat, n: nat, gap: string, ms: seq<Item>)
    requires Blanks(gap) && gap != "" && ms != [] && ItemsFormed(ms) && ms[0].lead == ""
    requires e <= n <= |s| && s[e..n] == gap + ListText(ms)
    ensures var v := e + |gap|;
            e < v < n && SkipWhile(s, e, Ws) == v && s[e..v] == gap && s[v..n] == ListText(ms)
    ensures s[e] == ' ' || s[e] == '\t'
  {
    hide ListText, ItemsFormed, SkipWhile;
    ListStarts(ms);
    Parts(s, e, n, gap, ListText(ms));
    BlanksRead(s, e, gap);
  }

  lemma UnitBody(s: seq<char>, i: nat, n: nat, u: UnitText)
    requires UnitFormed(u) && i <= n <= |s| && s[i..n] == u.lead + CommandText(u) && UnitEnded(s, n)
    ensures var h := i + |u.lead|;
            BodyAt(s, i) == Body(Token(KindOf(u.header), h, |TextOf(u.header)|),
                                 DataToken(u, h + |TextOf(u.header)| + |u.gap|), |u.items|, n)
  {
    hide TextOf, ListText, Formed, ItemsFormed, SkipWhile, HeaderAt, DataAt, CommandText, CountedAll, Blanks;
    UnitParts(s, i, n, u);
    HeaderRead(s, i + |u.lead|, u.header);
    if u.items != [] {
      ListRead(s, i + |u.lead| + |TextOf(u.header)| + |u.gap|, n, u.items);
    }
  }

  /** A unit in front of a newline, a semicolon or the end is found whole: header, parameters, their number and the end. */
  lemma UnitRead(s: seq<char>, i: nat, n: nat, u: UnitText)
    requires UnitFormed(u) && i <= n <= |s| && s[i..n] == u.lead + CommandText(u) && UnitEnded(s, n)
    ensures var h, (term, k) := i + |u.lead|, EndOf(s, n);
            UnitAt(s, i) == Unit(Token(KindOf(u.header), h, |TextOf(u.header)|),
                                 DataToken(u, h + |TextOf(u.header)| + |u.gap|), |u.items|, term, n + k)
  {
    hide TextOf, CommandText, Blanks, BodyAt, UnitFormed;
    UnitBody(s, i, n, u);
    UnitFrom(s, i, n);
  }
}
