/** Patterns as texts: what their brackets and colons mean, and exactly which headers each stands for. */
module PatternTexts {
  import opened HeaderForms
  import opened HeaderNumbers
  import opened HeaderSpec
  import opened HeaderText
  import opened LetterCase
  import opened PatternLanguage
  import opened Printer
  import HeaderTokens
  import M = MatchCommand

  /** From the first name on: names, closing brackets, and the next node in its brackets. */
  function Body(es: seq<Element>): string
    requires es != []
    decreases |es|, 0
  {
    NameOf(es[0]) + ((if es[0].optional then "]" else "") + Next(es[1..]))
  }

  function Next(es: seq<Element>): string
    decreases |es|, 1
  {
    if es == [] then "" else (if es[0].optional then "[:" else ":") + Body(es)
  }

  /** The pattern, with or without a leading colon. */
  function PatternText(es: seq<Element>, colon: bool, query: bool): string
    requires es != []
  {
    (if es[0].optional then "[" else "") + (if colon then ":" else "") + Body(es) + (if query then "?" else "")
  }

  lemma {:induction false} NameStops(p: string, i: nat, e: nat, end: nat)
    requires i <= e <= end <= |p| && (forall k | i <= k < e :: !IsSeparator(p[k])) && (e < end ==> IsSeparator(p[e]))
    ensures NameEnd(p, i, end) == e
    decreases e - i
  {
    if i < e {
      NameStops(p, i + 1, e, end);
    }
  }

  lemma NamePlain(e: Element)
    requires Formed(e)
    ensures NameOf(e) != [] && M.Plain(NameOf(e))
  {
  }

  lemma NameRead(p: string, i: nat, end: nat, name: string)
    requires i + |name| <= end <= |p| && p[i..i + |name|] == name && M.Plain(name)
    requires i + |name| < end ==> IsSeparator(p[i + |name|])
    ensures NameEnd(p, i, end) == i + |name|
  {
    assert forall k | i <= k < i + |name| :: p[k] == name[k - i];
    NameStops(p, i, i + |name|, end);
  }

  lemma NextStarts(p: string, a: nat, end: nat, es: seq<Element>)
    requires a <= end <= |p| && p[a..end] == Next(es)
    ensures Boundary(p, a, end) && (a == end <==> es == []) && (a < end ==> IsSeparator(p[a]))
    ensures es != [] ==> var k := if es[0].optional then 2 else 1; a + k <= end && p[a + k..end] == Body(es)
    ensures es != [] ==> (es[0].optional <==> p[a] == '[') && (!es[0].optional <==> p[a] == ':')
  {
    hide Body;
    if es != [] {
      var open := if es[0].optional then "[:" else ":";
      HeaderTokens.Parts(p, a, end, open, Body(es));
      assert p[a..a + |open|] == open;
      if es[0].optional {
        assert p[a + 1] == p[a..a + 2][1];
      }
    }
  }

  /** The front node of a text that begins with a name. */
  lemma FrontRead(p: string, i: nat, end: nat, es: seq<Element>)
    requires es != [] && Formed(es[0]) && i <= end <= |p| && p[i..end] == Body(es)
    ensures NodeFormed(p, i, es[0].optional, end)
    ensures p[i..NameEnd(p, i, end)] == NameOf(es[0])
    ensures var a := NodeEnd(p, i, es[0].optional, end); a <= end && p[a..end] == Next(es[1..])
  {
    hide Formed, NameOf, Next, Boundary;
    var name, close, later := NameOf(es[0]), if es[0].optional then "]" else "", Next(es[1..]);
    NamePlain(es[0]);
    HeaderTokens.Parts(p, i, end, name, close + later);
    HeaderTokens.Parts(p, i + |name|, end, close, later);
    NextStarts(p, i + |name| + |close|, end, es[1..]);
    NameRead(p, i, end, name);
  }

  lemma {:induction false} BodyRead(p: string, i: nat, end: nat, es: seq<Element>)
    requires es != [] && AllFormed(es) && i <= end <= |p| && p[i..end] == Body(es)
    ensures WellFormed(p, i, es[0].optional, end) && NodesAt(p, i, es[0].optional, end) == NodesOf(es)
    decreases |es|
  {
    hide Formed, NameOf, Next, Body, AllFormed, NodeFormed;
    FormedTail(es);
    FrontRead(p, i, end, es);
    var a := NodeEnd(p, i, es[0].optional, end);
    NextStarts(p, a, end, es[1..]);
    if |es| > 1 {
      BodyRead(p, a + if es[1].optional then 2 else 1, end, es[1..]);
    }
  }

  lemma {:induction false} BodyEnds(es: seq<Element>)
    requires es != [] && AllFormed(es)
    ensures Body(es) != [] && Body(es)[|Body(es)| - 1] != '?' && Body(es)[0] == es[0].word[0]
    decreases |es|
  {
    hide Formed, NameOf, AllFormed;
    FormedTail(es);
    NamePlain(es[0]);
    NameStarts(es[0]);
    var name, close := NameOf(es[0]), if es[0].optional then "]" else "";
    assert !IsSeparator(name[|name| - 1]);
    if |es| > 1 {
      BodyEnds(es[1..]);
      var b := Body(es[1..]);
      assert Next(es[1..])[|Next(es[1..])| - 1] == b[|b| - 1];
      assert Body(es)[|Body(es)| - 1] == b[|b| - 1];
    } else {
      assert Body(es) == name + close;
    }
  }

  lemma NameStarts(e: Element)
    requires Formed(e)
    ensures NameOf(e) != [] && NameOf(e)[0] == e.word[0]
    ensures e.word[0] != ':' && e.word[0] != '[' && e.word[0] != '?' && e.word != ""
  {
  }

  /** A pattern's text stands for its nodes. */
  lemma PatternRead(es: seq<Element>, colon: bool, query: bool)
    requires es != [] && AllFormed(es)
    ensures var p := PatternText(es, colon, query); Pattern(p) && PatternNodes(p) == NodesOf(es) && IsQuery(p) == query
  {
    hide Formed, Body, AllFormed, WellFormed, NodesAt, NodesOf;
    FormedTail(es);
    NameStarts(es[0]);
    BodyEnds(es);
    var open, b, p := if es[0].optional then "[" else "", Body(es), PatternText(es, colon, query);
    var lead := open + if colon then ":" else "";
    Middle(lead, b, if query then "?" else "");
    BodyRead(p, |lead|, |lead| + |b|, es);
  }

  lemma Middle(lead: string, b: string, mark: string)
    requires b != ""
    ensures var p := lead + b + mark;
            && p != "" && p[|lead|..|lead| + |b|] == b && p[|lead|] == b[0] && p[..|lead|] == lead
            && (lead != "" ==> p[0] == lead[0]) && (|lead| > 1 ==> p[1] == lead[1])
            && p[|p| - 1] == if mark == "" then b[|b| - 1] else mark[|mark| - 1]
  {
  }

  /** A header: the forms that are written with colons between them, behind a colon or not. */
  function HeaderLine(ss: seq<string>, colon: bool, query: bool): string
    requires ss != []
  {
    (if colon then ":" else "") + Joined(ss) + (if query then "?" else "")
  }

  /** Some node is written, and no colon comes before an asterisk. */
  predicate Writes(es: seq<Element>, xs: seq<Choice>, colon: bool) {
    && |xs| == |es| && Chosen(es, xs) && FormTexts(es, xs) != []
    && (colon && FormTexts(es, xs)[0] != "" ==> FormTexts(es, xs)[0][0] != '*')
  }

  lemma FormPlain(e: Element, x: Choice)
    requires Formed(e) && x.Written? && Suits(e, x)
    ensures M.Plain(FormText(e, x)) && FormText(e, x) != []
  {
    CapitalsAre(e.word);
    CapitalsFirst(e);
  }

  lemma {:induction false} FormsPlain(es: seq<Element>, xs: seq<Choice>)
    requires AllFormed(es) && Chosen(es, xs)
    ensures AllPlain(FormTexts(es, xs))
    decreases |es|
  {
    hide Formed, FormText, Chosen, AllFormed, M.Plain, Suits;
    assert |xs| == |es| by { SameCount(es, xs); }
    if es != [] {
      ChosenTail(es, xs);
      FormsPlain(es[1..], xs[1..]);
      if xs[0].Written? {
        FormPlain(es[0], xs[0]);
      }
    }
  }

  /** Where the names of such a header are. */
  lemma LineRead(ss: seq<string>, colon: bool, query: bool)
    requires ss != [] && AllPlain(ss) && (colon ==> ss[0][0] != '*')
    ensures var c := HeaderLine(ss, colon, query);
            && c != [] && (query ==> IsQuery(c))
            && var end, j := BodyEnd(c, query), if colon then 1 else 0;
               HeaderStart(c, end) == At(j) && Segments(c, j, end) == ss
  {
    hide Segments, Joined;
    assert M.Plain(ss[0]) && ss[0] != [];
    var lead, b, c := if colon then ":" else "", Joined(ss), HeaderLine(ss, colon, query);
    JoinedFirst(ss);
    var j, end := |lead|, |lead| + |b|;
    assert c[j..end] == b && c[j] == ss[0][0];
    SegmentsJoined(c, j, end, ss);
  }

  lemma JoinedFirst(ss: seq<string>)
    requires ss != [] && ss[0] != []
    ensures Joined(ss) != [] && Joined(ss)[0] == ss[0][0]
  {
  }

  lemma {:induction false} SegmentsMakeUp(c: string, j: nat, end: nat)
    requires j <= end <= |c|
    ensures Joined(Segments(c, j, end)) == c[j..end]
    decreases end - j
  {
    hide ColonEnd, Joined;
    var e := ColonEnd(c, j, end);
    if e < end {
      SegmentsMakeUp(c, e + 1, end);
      JoinedFront(c[j..e], Segments(c, e + 1, end));
      AtColon(c, j, e, end);
    } else {
      JoinedOne(c[j..e]);
    }
  }

  lemma JoinedFront(t: string, ss: seq<string>)
    requires ss != []
    ensures Joined([t] + ss) == t + (":" + Joined(ss))
  {
    assert ([t] + ss)[1..] == ss;
  }

  lemma JoinedOne(t: string)
    ensures Joined([t] + []) == t
  {
    assert t + "" == t;
  }

  lemma AtColon(c: string, j: nat, e: nat, end: nat)
    requires j <= e < end <= |c| && c[e] == ':'
    ensures c[j..end] == c[j..e] + (":" + c[e + 1..end])
  {
  }

  lemma {:induction false} JoinedAlike(a: seq<string>, b: seq<string>)
    requires a != [] && AllAlike(a, b)
    ensures b != [] && CaseAlike(Joined(a), Joined(b))
    decreases |a|
  {
    hide CaseAlike;
    AlikeTails(a, b);
    if |a| > 1 {
      JoinedAlike(a[1..], b[1..]);
      CaseSame(":");
      CaseJoin(":", ":", Joined(a[1..]), Joined(b[1..]));
      CaseJoin(a[0], b[0], ":" + Joined(a[1..]), ":" + Joined(b[1..]));
    } else {
      assert a[0] + "" == a[0] && b[0] + "" == b[0];
    }
  }

  lemma WritesRead(es: seq<Element>, xs: seq<Choice>, colon: bool, query: bool)
    requires es != [] && AllFormed(es) && Writes(es, xs, colon)
    ensures var ss, c := FormTexts(es, xs), HeaderLine(FormTexts(es, xs), colon, query);
            && c != [] && (query ==> IsQuery(c))
            && var end, j := BodyEnd(c, query), if colon then 1 else 0;
               HeaderStart(c, end) == At(j) && Segments(c, j, end) == ss
  {
    hide Formed, Chosen, M.Plain, HeaderLine, HeaderStart, Segments;
    FormsPlain(es, xs);
    LineRead(FormTexts(es, xs), colon, query);
  }

  /** Every header that writes the nodes in some of their forms is in the pattern's language. */
  lemma LineInLanguage(es: seq<Element>, lead: bool, query: bool, xs: seq<Choice>, colon: bool, c: string)
    requires es != [] && AllFormed(es) && Writes(es, xs, colon) && CaseAlike(c, HeaderLine(FormTexts(es, xs), colon, query))
    ensures var p := PatternText(es, lead, query); Pattern(p) && c != [] && Language(p, c)
  {
    hide Formed, Chosen, AllFormed, HeaderLine, PatternText, Pattern, PatternNodes, Segments, Spells, CaseAlike, HeaderStart,
         FormTexts;
    var line := HeaderLine(FormTexts(es, xs), colon, query);
    PatternRead(es, lead, query);
    WritesRead(es, xs, colon, query);
    TextsSpell(es, xs);
    CaseBack(c, line);
    LanguageAlike(PatternText(es, lead, query), line, c);
  }

  /** Every header of the language is one of them. */
  lemma LanguageIsLine(es: seq<Element>, lead: bool, query: bool, c: string) returns (xs: seq<Choice>, colon: bool)
    requires es != [] && AllFormed(es) && c != []
    requires var p := PatternText(es, lead, query); Pattern(p) && Language(p, c)
    ensures Writes(es, xs, colon) && CaseAlike(c, HeaderLine(FormTexts(es, xs), colon, query))
  {
    hide Formed, Chosen, AllFormed, PatternText, Pattern, PatternNodes, Segments, Spells, CaseAlike, FormTexts, Joined, AllAlike;
    PatternRead(es, lead, query);
    var end := BodyEnd(c, query);
    var j := HeaderStart(c, end).j;
    var ss := Segments(c, j, end);
    xs := SpellsAsTexts(es, ss);
    colon := j == 1;
    FormsPlain(es, xs);
    JoinedAlike(ss, FormTexts(es, xs));
    SegmentsMakeUp(c, j, end);
    LineAlike(c, j, end, query, FormTexts(es, xs));
    FirstAlike(c, j, end, FormTexts(es, xs));
  }

  lemma LineAlike(c: string, j: nat, end: nat, query: bool, ss: seq<string>)
    requires ss != [] && j <= 1 && j <= end <= |c| && CaseAlike(c[j..end], Joined(ss))
    requires j == 1 ==> c[0] == ':'
    requires if query then end == |c| - 1 && c[end] == '?' else end == |c|
    ensures CaseAlike(c, HeaderLine(ss, j == 1, query))
  {
    hide Joined, CaseAlike;
    var lead, mark := if j == 1 then ":" else "", if query then "?" else "";
    assert c[..j] == lead && c[end..] == mark;
    assert c == lead + c[j..end] + mark;
    CaseSame(lead);
    CaseSame(mark);
    CaseJoin(lead, lead, c[j..end], Joined(ss));
    CaseJoin(lead + c[j..end], lead + Joined(ss), mark, mark);
  }

  lemma FirstAlike(c: string, j: nat, end: nat, ss: seq<string>)
    requires j <= end <= |c| && AllAlike(Segments(c, j, end), ss) && AllPlain(ss)
    ensures ss != [] && ss[0] != [] && j < end && (ss[0][0] == '*' ==> c[j] == '*')
  {
    hide ColonEnd, M.Plain, Alike;
    var first := Segments(c, j, end)[0];
    assert CaseAlike(first, ss[0]);
    NoLetter(first[0], ss[0][0]);
  }

  /**
   A header is in the language of a pattern if and only if, but for case, it writes every node in its
   short or long form, with digits only behind numbered nodes, and leaves out only optional ones.
   */
  lemma LanguageExact(es: seq<Element>, lead: bool, query: bool, c: string)
    requires es != [] && AllFormed(es) && c != []
    ensures var p := PatternText(es, lead, query);
            && Pattern(p)
            && (Language(p, c)
                <==> exists xs, colon ::
                       Writes(es, xs, colon) && CaseAlike(c, HeaderLine(FormTexts(es, xs), colon, query)))
  {
    hide Formed, Chosen, AllFormed, PatternText, Pattern, Language, CaseAlike, FormTexts, HeaderLine;
    PatternRead(es, lead, query);
    var p := PatternText(es, lead, query);
    if Language(p, c) {
      var xs, colon := LanguageIsLine(es, lead, query, c);
    }
    forall xs, colon | Writes(es, xs, colon) && CaseAlike(c, HeaderLine(FormTexts(es, xs), colon, query))
      ensures Language(p, c)
    {
      LineInLanguage(es, lead, query, xs, colon, c);
    }
  }

  /** Such a header is accepted if no node left out is spelled by what comes next, and reports the numbers written. */
  lemma LineAccepted(long: Width, es: seq<Element>, lead: bool, query: bool, xs: seq<Choice>, colon: bool, c: string,
                     default: int)
    requires es != [] && AllFormed(es) && Writes(es, xs, colon) && Clear(es, xs)
    requires CaseAlike(c, HeaderLine(FormTexts(es, xs), colon, query))
    ensures var p := PatternText(es, lead, query);
            && Pattern(p) && c != [] && Accepts(p, c)
            && M.CommandNumbers(long, p, c, default) == NumbersOf(long, es, xs, default)
  {
    hide Formed, Chosen, AllFormed, HeaderLine, PatternText, Pattern, PatternNodes, Segments, Greedy, Reported, CaseAlike,
         HeaderStart, FormTexts, NumbersOf, AllAlike, Clear;
    var line := HeaderLine(FormTexts(es, xs), colon, query);
    var p := PatternText(es, lead, query);
    PatternRead(es, lead, query);
    WritesRead(es, xs, colon, query);
    FormsAccepted(long, es, xs, default);
    CaseBack(c, line);
    AcceptsAlike(p, line, c);
    StartAlike(p, line, c);
    var j, end := if colon then 1 else 0, BodyEnd(line, query);
    SegmentsAlike(line, c, j, end);
    GreedyAlike(long, PatternNodes(p), Segments(line, j, end), Segments(c, j, end), default);
  }
}
