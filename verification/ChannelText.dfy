/** Well-formed channel lists: every entry is found under its index. */
module ChannelText {
  import opened LexSpec
  import opened ChannelList
  import N = Numerals
  import P = Parameters
  import opened Printer
  import RoundTrip

  /** An optional sign, then digits. */
  predicate IsCoordinate(c: string) {
    var d := DigitsOf(c);
    d != [] && forall k | 0 <= k < |d| :: IsDigit(d[k])
  }

  function DigitsOf(c: string): string {
    if c != [] && IsPlusMinus(c[0]) then c[1..] else c
  }

  /** The coordinate as written. */
  function CoordinateValue(c: string): int {
    var n := N.Eval(10, DigitsOf(c));
    if c != [] && c[0] == '-' then 0 - n else n
  }

  /** Coordinates are kept in 32 bits. */
  const COORDINATE := P.IntType(W32, true)

  function StoredValue(long: Width, c: string): int {
    P.Converted(long, COORDINATE, true, CoordinateValue(c))
  }

  function Values(long: Width, cs: seq<string>): (vs: seq<int>)
    ensures |vs| == |cs|
    ensures forall k | 0 <= k < |cs| :: vs[k] == StoredValue(long, cs[k])
  {
    if cs == [] then [] else [StoredValue(long, cs[0])] + Values(long, cs[1..])
  }

  /** An entry as written: a channel, or a range when `to` is not empty. */
  datatype EntryText = EntryText(from: seq<string>, to: seq<string>)

  predicate Coordinates(cs: seq<string>) {
    forall k | 0 <= k < |cs| :: IsCoordinate(cs[k])
  }

  predicate Formed(t: EntryText) {
    t.from != [] && Coordinates(t.from) && Coordinates(t.to) && (t.to == [] || |t.to| == |t.from|)
  }

  predicate AllFormed(ts: seq<EntryText>) {
    forall k | 0 <= k < |ts| :: Formed(ts[k])
  }

  function EntryOf(long: Width, t: EntryText): Entry {
    Entry(t.to != [], Values(long, t.from), Values(long, t.to))
  }

  function EntriesOf(long: Width, ts: seq<EntryText>): (es: seq<Entry>)
    ensures |es| == |ts|
    ensures forall k | 0 <= k < |ts| :: es[k] == EntryOf(long, ts[k])
  {
    if ts == [] then [] else [EntryOf(long, ts[0])] + EntriesOf(long, ts[1..])
  }

  function SpecText(cs: seq<string>): string {
    if cs == [] then "" else cs[0] + if |cs| == 1 then "" else "!" + SpecText(cs[1..])
  }

  function TextOf(t: EntryText): string {
    SpecText(t.from) + if t.to == [] then "" else ":" + SpecText(t.to)
  }

  function ListText(ts: seq<EntryText>): string
    requires ts != []
  {
    TextOf(ts[0]) + if |ts| == 1 then "" else "," + ListText(ts[1..])
  }

  /** A coordinate ends with the text, or in front of a separator. */
  predicate Separated(s: seq<char>, e: nat) {
    e == |s| || (e < |s| && (s[e] == '!' || s[e] == ':' || s[e] == ','))
  }

  lemma {:induction false} DigitRun(s: seq<char>, i: nat, e: nat)
    requires i <= e <= |s| && Separated(s, e) && forall j | i <= j < e :: IsDigit(s[j])
    ensures P.DigitsEnd(10, s, i) == e
    decreases e - i
  {
    if i < e {
      DigitRun(s, i + 1, e);
    }
  }

  lemma NumberEnd(s: seq<char>, i: nat, p: nat, e: nat)
    requires i <= p < e <= |s| && Separated(s, e) && p == (if IsPlusMinus(s[i]) then i + 1 else i)
    requires forall j | p <= j < e :: IsDigit(s[j])
    ensures DecimalEnd(s, i) == e
  {
    hide SkipWhile;
    SkipTo(s, p, Digit, e);
    SkipTo(s, e, Ws, e);
    assert Mantissa(s, i) == (e - p, e);
    assert Exponent(s, e).0 == 0;
  }

  lemma CoordinateRead(long: Width, s: seq<char>, i: nat, e: nat, c: string)
    requires i <= e <= |s| && s[i..e] == c && IsCoordinate(c) && Separated(s, e)
    ensures i < e && DecimalEnd(s, i) == e && Int32At(long, s, i) == StoredValue(long, c)
  {
    hide DecimalEnd, N.Eval, P.Converted;
    assert s[i] == c[0];
    var p := if IsPlusMinus(c[0]) then i + 1 else i;
    assert s[p..e] == DigitsOf(c);
    forall j | p <= j < e ensures IsDigit(s[j]) {
      assert s[j] == s[p..e][j - p];
    }
    NumberEnd(s, i, p, e);
    DigitRun(s, p, e);
  }

  /** Cut a text at a separator. */
  lemma Cut(s: seq<char>, i: nat, e: nat, first: string, later: string)
    requires i <= e <= |s| && s[i..e] == first + later
    ensures i + |first| <= e && s[i..i + |first|] == first && s[i + |first|..e] == later
    ensures later != [] ==> i + |first| < e && s[i + |first|] == later[0] && s[i + |first| + 1..e] == later[1..]
    ensures later == [] ==> i + |first| == e
  {
    var m := |first|;
    RoundTrip.SliceOfSlice(s, i, e, 0, m);
    RoundTrip.SliceOfSlice(s, i, e, m, e - i);
    if later != [] {
      assert s[i + m] == s[i + m..e][0];
      RoundTrip.SliceOfSlice(s, i, e, m + 1, e - i);
      assert (first + later)[m + 1..] == later[1..];
    }
  }

  lemma {:induction false} SpecRead(long: Width, s: seq<char>, i: nat, e: nat, cs: seq<string>, first: bool)
    requires i <= e <= |s| && cs != [] && Coordinates(cs) && s[i..e] == SpecText(cs)
    requires e == |s| || (e < |s| && (s[e] == ':' || s[e] == ','))
    ensures SpecAt(long, s, i, first) == SpecOk(Values(long, cs), e)
    decreases |cs|
  {
    hide DecimalEnd, Int32At, StoredValue, IsCoordinate;
    if |cs| == 1 {
      assert cs[0] + "" == cs[0];
      CoordinateRead(long, s, i, e, cs[0]);
      assert Values(long, cs) == [StoredValue(long, cs[0])];
    } else {
      Cut(s, i, e, cs[0], "!" + SpecText(cs[1..]));
      var m := i + |cs[0]|;
      CoordinateRead(long, s, i, m, cs[0]);
      assert ("!" + SpecText(cs[1..]))[1..] == SpecText(cs[1..]);
      SpecRead(long, s, m + 1, e, cs[1..], false);
    }
  }

  lemma RangeRead(long: Width, s: seq<char>, i: nat, e: nat, t: EntryText)
    requires i <= e <= |s| && Formed(t) && s[i..e] == TextOf(t)
    requires e == |s| || (e < |s| && s[e] == ',')
    ensures RangeAt(long, s, i) == RangeOk(EntryOf(long, t), e)
  {
    hide SpecAt, SpecText;
    if t.to == [] {
      assert SpecText(t.from) + "" == SpecText(t.from);
      SpecRead(long, s, i, e, t.from, true);
    } else {
      Cut(s, i, e, SpecText(t.from), ":" + SpecText(t.to));
      var m := i + |SpecText(t.from)|;
      assert (":" + SpecText(t.to))[1..] == SpecText(t.to);
      SpecRead(long, s, i, m, t.from, true);
      SpecRead(long, s, m + 1, e, t.to, true);
    }
  }

  lemma PassOnce(long: Width, s: seq<char>, i: nat, entry: Entry, m: nat)
    requires i <= |s| && RangeAt(long, s, i) == RangeOk(entry, m)
    ensures m == |s| ==> Pass(long, s, i) == ([entry], NoMore)
    ensures m < |s| && s[m] == ',' ==> Pass(long, s, i) == ([entry] + Pass(long, s, m + 1).0, Pass(long, s, m + 1).1)
  {
    hide RangeAt;
  }

  lemma ListOnce(long: Width, ts: seq<EntryText>)
    requires ts != [] && AllFormed(ts)
    ensures Formed(ts[0])
    ensures |ts| == 1 ==> ListText(ts) == TextOf(ts[0]) && EntriesOf(long, ts) == [EntryOf(long, ts[0])]
    ensures |ts| > 1 ==> AllFormed(ts[1..])
    ensures |ts| > 1 ==> ListText(ts) == TextOf(ts[0]) + ("," + ListText(ts[1..]))
                         && EntriesOf(long, ts) == [EntryOf(long, ts[0])] + EntriesOf(long, ts[1..])
  {
    hide Formed, TextOf, EntryOf;
    assert Formed(ts[0]);
    if |ts| == 1 {
      assert TextOf(ts[0]) + "" == TextOf(ts[0]);
      assert EntriesOf(long, ts[1..]) == [];
    }
  }

  lemma {:induction false} PassReads(long: Width, s: seq<char>, i: nat, ts: seq<EntryText>)
    requires i <= |s| && ts != [] && AllFormed(ts) && s[i..] == ListText(ts)
    ensures Pass(long, s, i) == (EntriesOf(long, ts), NoMore)
    decreases |ts|
  {
    hide RangeAt, TextOf, EntryOf, Pass, ListText, EntriesOf, Formed, AllFormed;
    var e := |s|;
    assert s[i..e] == s[i..];
    ListOnce(long, ts);
    if |ts| == 1 {
      RangeRead(long, s, i, e, ts[0]);
      PassOnce(long, s, i, EntryOf(long, ts[0]), e);
    } else {
      var later := "," + ListText(ts[1..]);
      Cut(s, i, e, TextOf(ts[0]), later);
      var m := i + |TextOf(ts[0])|;
      RangeRead(long, s, i, m, ts[0]);
      PassOnce(long, s, i, EntryOf(long, ts[0]), m);
      assert later[1..] == ListText(ts[1..]);
      assert s[m + 1..] == s[m + 1..e];
      PassReads(long, s, m + 1, ts[1..]);
    }
  }

  /** The entries of any channel list under their indices, and then no more for every larger index. */
  lemma EveryEntry(long: Width, ts: seq<EntryText>, index: nat)
    requires ts != [] && AllFormed(ts)
    ensures ListOutcome(long, "@" + ListText(ts), index)
            == if index < |ts| then Ok(EntryOf(long, ts[index])) else NoMore
  {
    hide ListText, Pass, EntryAt, EntryOf;
    var s := "@" + ListText(ts);
    assert s[1..] == ListText(ts);
    PassReads(long, s, 1, ts);
    RescanIsPass(long, s, 1, index);
  }

  /** The values of an entry are the numbers written there. */
  predicate AsWritten(e: Entry, t: EntryText) {
    && e.isRange == (t.to != []) && |e.from| == |t.from| && |e.to| == |t.to|
    && (forall k | 0 <= k < |t.from| :: e.from[k] == CoordinateValue(t.from[k]))
    && (forall k | 0 <= k < |t.to| :: e.to[k] == CoordinateValue(t.to[k]))
  }

  /** Every coordinate is in the range of its variable. */
  predicate AllInRange(cs: seq<string>) {
    forall k | 0 <= k < |cs| :: P.InRange(COORDINATE, CoordinateValue(cs[k]))
  }

  /** An entry has the numbers as written exactly when 32 bits hold each of them. */
  lemma EntryAsWritten(long: Width, t: EntryText)
    ensures AsWritten(EntryOf(long, t), t) <==> AllInRange(t.from) && AllInRange(t.to)
  {
    hide CoordinateValue, P.InRange, P.Converted;
    var e := EntryOf(long, t);
    forall k | 0 <= k < |t.from|
      ensures e.from[k] == CoordinateValue(t.from[k]) <==> P.InRange(COORDINATE, CoordinateValue(t.from[k]))
    {
      P.ConvertedExact(long, COORDINATE, true, CoordinateValue(t.from[k]));
    }
    forall k | 0 <= k < |t.to|
      ensures e.to[k] == CoordinateValue(t.to[k]) <==> P.InRange(COORDINATE, CoordinateValue(t.to[k]))
    {
      P.ConvertedExact(long, COORDINATE, true, CoordinateValue(t.to[k]));
    }
  }
}
