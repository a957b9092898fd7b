/**
 Patterns put together from their nodes, and the headers that each stands for, put together from
 the forms of those nodes; SCPI-99, section 6.2.1.
 */
module HeaderForms {
  import opened HeaderNumbers
  import opened HeaderSpec
  import opened LetterCase
  import opened Printer
  import LexSpec

  /** A node of a pattern; `numbered` nodes end in a number sign. */
  datatype Element = Element(word: string, numbered: bool, optional: bool)

  predicate Small(c: char) { 'a' <= c <= 'z' }

  /** A word has a short form and none of the characters that separate words. */
  predicate Formed(e: Element) {
    && e.word != "" && !Small(e.word[0])
    && (forall k | 0 <= k < |e.word| :: e.word[k] !in {'?', ':', '[', ']'})
    && (e.numbered || e.word[|e.word| - 1] != '#')
  }

  predicate AllFormed(es: seq<Element>) { forall k | 0 <= k < |es| :: Formed(es[k]) }

  function NameOf(e: Element): string { e.word + if e.numbered then "#" else "" }

  function NodesOf(es: seq<Element>): (ns: seq<Node>)
    ensures |ns| == |es|
  {
    if es == [] then [] else [Node(NameOf(es[0]), es[0].optional)] + NodesOf(es[1..])
  }

  /** The characters before the first small letter. */
  function Capitals(t: string): string {
    if t == "" || Small(t[0]) then "" else [t[0]] + Capitals(t[1..])
  }

  /** How a header writes a node: not at all, or in its short or long form with digits behind it. */
  datatype Choice = LeftOut | Written(short: bool, digits: string)

  predicate Digits(t: string) { forall k | 0 <= k < |t| :: '0' <= t[k] <= '9' }

  predicate Suits(e: Element, x: Choice) {
    match x
    case LeftOut => e.optional
    case Written(_, digits) => Digits(digits) && (digits != "" ==> e.numbered)
  }

  predicate Chosen(es: seq<Element>, xs: seq<Choice>) {
    |xs| == |es| && forall k | 0 <= k < |es| :: Suits(es[k], xs[k])
  }

  function FormText(e: Element, x: Choice): string
    requires x.Written?
  {
    (if x.short then Capitals(e.word) else e.word) + x.digits
  }

  /** What the header writes, node by node. */
  function FormTexts(es: seq<Element>, xs: seq<Choice>): seq<string>
    requires |xs| == |es|
  {
    if es == [] then []
    else (if xs[0].LeftOut? then [] else [FormText(es[0], xs[0])]) + FormTexts(es[1..], xs[1..])
  }

  lemma {:induction false} CapitalsAre(t: string)
    ensures Capitals(t) == t[..ShortLength(t)]
  {
    if t != "" && !Small(t[0]) {
      CapitalsAre(t[1..]);
      assert t[..ShortLength(t)] == [t[0]] + t[1..][..ShortLength(t[1..])];
    }
  }

  lemma CapitalsFirst(e: Element)
    requires Formed(e)
    ensures Capitals(e.word) != "" && Capitals(e.word)[0] == e.word[0]
  {
  }

  lemma NameParts(e: Element)
    requires Formed(e)
    ensures IsNumeric(NameOf(e)) == e.numbered && Word(NameOf(e)) == e.word
    ensures e.numbered ==> NameOf(e)[..|NameOf(e)| - 1] == e.word
    ensures !e.numbered ==> NameOf(e) == e.word
  {
    if e.numbered {
      assert NameOf(e)[..|NameOf(e)| - 1] == e.word;
    }
  }

  lemma DigitsAre(t: string)
    ensures Digits(t) <==> AllDigits(t)
  {
  }

  /** Every form spells its node. */
  lemma FormSpells(e: Element, x: Choice)
    requires Formed(e) && x.Written? && Suits(e, x)
    ensures Spelled(NameOf(e), FormText(e, x))
  {
    hide ShortLength, Capitals, IsNumeric, Digits;
    NameParts(e);
    CapitalsAre(e.word);
    DigitsAre(x.digits);
    var form, t := if x.short then Capitals(e.word) else e.word, FormText(e, x);
    assert t[..|form|] == form && t[|form|..] == x.digits;
    assert SameText(form, form);
    if !e.numbered {
      assert t == form;
    }
  }

  /** Every spelling of a node is one of its forms, but for case. */
  lemma SpelledAsForm(e: Element, t: string) returns (x: Choice)
    requires Formed(e) && Spelled(NameOf(e), t)
    ensures x.Written? && Suits(e, x) && CaseAlike(t, FormText(e, x))
  {
    hide ShortLength, Capitals, IsNumeric, Digits;
    NameParts(e);
    CapitalsAre(e.word);
    if e.numbered {
      var form := if WithNumber(e.word, t) then e.word else Capitals(e.word);
      x := Written(!WithNumber(e.word, t), t[|form|..]);
      DigitsAre(x.digits);
      SplitAlike(form, t);
    } else {
      x := Written(!SameText(e.word, t), "");
      DigitsAre("");
      var form := if x.short then Capitals(e.word) else e.word;
      assert FormText(e, x) == form;
      SameTextExact(form, t);
      CaseBack(form, t);
    }
  }

  lemma SplitAlike(form: string, t: string)
    requires WithNumber(form, t)
    ensures CaseAlike(t, form + t[|form|..])
  {
    hide SameText, Alike;
    SameTextExact(form, t[..|form|]);
    CaseBack(form, t[..|form|]);
    forall k | 0 <= k < |t| ensures Alike(t[k], (form + t[|form|..])[k]) {
      if k < |form| {
        assert t[..|form|][k] == t[k];
      } else {
        Itself(t[k]);
      }
    }
  }

  lemma Itself(c: char)
    ensures Alike(c, c)
  {
  }

  /** Digits behind the short form are not taken for letters of the long one. */
  lemma ShortAndDigits(word: string, short: bool, digits: string)
    requires AllDigits(digits)
    ensures var n := ShortLength(word);
            var t := (if short then word[..n] else word) + digits;
            if WithNumber(word, t) then t[|word|..] == digits else n <= |t| && t[n..] == digits
  {
    hide AllDigits;
    var n := ShortLength(word);
    var t := (if short then word[..n] else word) + digits;
    if short && n < |word| {
      if WithNumber(word, t) {
        assert Fold(word[n]) == Fold(t[..|word|][n]);
        assert t[..|word|][n] == t[n] == digits[0];
        FirstDigit(digits);
        assert false;
      }
    } else {
      assert word[..n] == word || !short;
      assert t[..|word|] == word && t[|word|..] == digits;
      assert SameText(word, word);
    }
  }

  lemma FirstDigit(digits: string)
    requires AllDigits(digits) && digits != ""
    ensures LexSpec.IsDigit(digits[0])
  {
  }

  /** The digits behind a form. */
  lemma FormDigits(e: Element, x: Choice)
    requires Formed(e) && x.Written? && Suits(e, x) && e.numbered
    ensures IsNumeric(NameOf(e)) && Spelled(NameOf(e), FormText(e, x))
    ensures DigitsBehind(NameOf(e), FormText(e, x)) == x.digits
  {
    hide Capitals, IsNumeric, Spelled, Digits, WithNumber, ShortLength;
    NameParts(e);
    FormSpells(e, x);
    CapitalsAre(e.word);
    DigitsAre(x.digits);
    ShortAndDigits(e.word, x.short, x.digits);
  }

  lemma ChosenTail(es: seq<Element>, xs: seq<Choice>)
    requires es != [] && AllFormed(es) && Chosen(es, xs)
    ensures Formed(es[0]) && AllFormed(es[1..]) && Suits(es[0], xs[0]) && Chosen(es[1..], xs[1..])
  {
    hide Formed, Suits;
  }

  /** What is written spells the nodes. */
  lemma {:induction false} TextsSpell(es: seq<Element>, xs: seq<Choice>)
    requires AllFormed(es) && Chosen(es, xs)
    ensures Spells(NodesOf(es), FormTexts(es, xs))
    decreases |es|
  {
    hide Formed, Spelled, FormText, Chosen, AllFormed, NameOf;
    assert |xs| == |es| by { SameCount(es, xs); }
    if es != [] {
      ChosenTail(es, xs);
      TextsSpell(es[1..], xs[1..]);
      assert NodesOf(es)[1..] == NodesOf(es[1..]);
      if xs[0].LeftOut? {
        assert FormTexts(es, xs) == FormTexts(es[1..], xs[1..]);
      } else {
        FormSpells(es[0], xs[0]);
        assert FormTexts(es, xs)[1..] == FormTexts(es[1..], xs[1..]);
      }
    }
  }

  lemma SameCount(es: seq<Element>, xs: seq<Choice>)
    requires Chosen(es, xs)
    ensures |xs| == |es|
  {
  }

  lemma ChosenFront(e: Element, x: Choice, es: seq<Element>, xs: seq<Choice>)
    requires Suits(e, x) && Chosen(es, xs)
    ensures |xs| == |es| && Chosen([e] + es, [x] + xs)
  {
    hide Suits;
  }

  /** What spells the nodes is so written, but for case. */
  lemma {:induction false} SpellsAsTexts(es: seq<Element>, ss: seq<string>) returns (xs: seq<Choice>)
    requires AllFormed(es) && Spells(NodesOf(es), ss)
    ensures |xs| == |es| && Chosen(es, xs) && AllAlike(ss, FormTexts(es, xs))
    decreases |es|
  {
    hide Formed, Spelled, FormText, Chosen, AllFormed, NameOf, CaseAlike, AllAlike, Suits;
    if es == [] {
      xs := [];
      assert Chosen(es, xs) by { NoneChosen(); }
      NoneAlike();
    } else {
      var nodes, later := NodesOf(es), es[1..];
      assert Formed(es[0]) && AllFormed(later) by { FormedTail(es); }
      assert nodes[1..] == NodesOf(later) && [es[0]] + later == es;
      if ss != [] && Spelled(nodes[0].name, ss[0]) && Spells(nodes[1..], ss[1..]) {
        var x := SpelledAsForm(es[0], ss[0]);
        var rest := SpellsAsTexts(later, ss[1..]);
        ChosenFront(es[0], x, later, rest);
        xs := [x] + rest;
        assert xs[1..] == rest && FormTexts(es, xs) == [FormText(es[0], x)] + FormTexts(later, rest);
        FrontAlike(ss[0], FormText(es[0], x), ss[1..], FormTexts(later, rest));
        assert ss == [ss[0]] + ss[1..];
      } else {
        var rest := SpellsAsTexts(later, ss);
        assert Suits(es[0], LeftOut) by { OptionalSuits(es[0]); }
        ChosenFront(es[0], LeftOut, later, rest);
        xs := [LeftOut] + rest;
        assert xs[1..] == rest && FormTexts(es, xs) == FormTexts(later, rest);
      }
    }
  }

  lemma NoneChosen()
    ensures Chosen([], [])
  {
  }

  lemma OptionalSuits(e: Element)
    requires e.optional
    ensures Suits(e, LeftOut)
  {
  }

  lemma FormedTail(es: seq<Element>)
    requires es != [] && AllFormed(es)
    ensures Formed(es[0]) && AllFormed(es[1..])
  {
    hide Formed;
  }

  /** No node that is left out is spelled by what is written next. */
  predicate Clear(es: seq<Element>, xs: seq<Choice>)
    requires |xs| == |es|
  {
    if es == [] then true
    else
      var later := FormTexts(es[1..], xs[1..]);
      && (xs[0].LeftOut? && later != [] ==> !Spelled(NameOf(es[0]), later[0]))
      && Clear(es[1..], xs[1..])
  }

  /** The numbers up to the last node that is written: the default where there are no digits, or no node. */
  function NumbersOf(long: Width, es: seq<Element>, xs: seq<Choice>, default: int): seq<int>
    requires |xs| == |es|
  {
    if FormTexts(es, xs) == [] then []
    else
      (if !es[0].numbered then []
       else [if xs[0].LeftOut? || xs[0].digits == "" then default else Number(long, xs[0].digits)])
      + NumbersOf(long, es[1..], xs[1..], default)
  }

  lemma {:induction false} NothingWritten(es: seq<Element>, xs: seq<Choice>)
    requires Chosen(es, xs) && |xs| == |es| && FormTexts(es, xs) == []
    ensures AllOptional(NodesOf(es))
  {
    hide NameOf, FormText;
    if es != [] {
      assert Suits(es[0], xs[0]) && Chosen(es[1..], xs[1..]);
      NothingWritten(es[1..], xs[1..]);
      assert forall k | 0 < k < |es| :: NodesOf(es)[k] == NodesOf(es[1..])[k - 1];
    }
  }

  /**
   A header that writes nodes in whatever forms, and leaves out optional ones that what comes next does not
   spell, is accepted, and its numbers are reported in order.
   */
  lemma {:induction false} FormsAccepted(long: Width, es: seq<Element>, xs: seq<Choice>, default: int)
    requires |xs| == |es| && AllFormed(es) && Chosen(es, xs) && Clear(es, xs) && FormTexts(es, xs) != []
    ensures es != [] && Greedy(NodesOf(es), FormTexts(es, xs))
    ensures Reported(long, NodesOf(es), FormTexts(es, xs), default) == NumbersOf(long, es, xs, default)
    decreases |es|
  {
    hide Formed, Spelled, FormText, Chosen, AllFormed, NameOf, Own, Number, AllOptional, Suits;
    ChosenTail(es, xs);
    OwnIs(long, es[0], xs[0], FormTexts(es, xs)[0], default);
    var ts, rest, nodes := FormTexts(es, xs), FormTexts(es[1..], xs[1..]), NodesOf(es);
    assert nodes[1..] == NodesOf(es[1..]);
    if xs[0].Written? {
      FormSpells(es[0], xs[0]);
      assert ts == [FormText(es[0], xs[0])] + rest && ts[1..] == rest;
      if rest == [] {
        NothingWritten(es[1..], xs[1..]);
      } else {
        FormsAccepted(long, es[1..], xs[1..], default);
      }
    } else {
      OptionalIs(es[0], xs[0]);
      assert ts == rest;
      FormsAccepted(long, es[1..], xs[1..], default);
    }
  }

  lemma OptionalIs(e: Element, x: Choice)
    requires Suits(e, x) && x.LeftOut?
    ensures e.optional
  {
  }

  /** What a node reports of the segment that the walk is at. */
  lemma OwnIs(long: Width, e: Element, x: Choice, t: string, default: int)
    requires Formed(e) && Suits(e, x)
    requires if x.Written? then t == FormText(e, x) else !Spelled(NameOf(e), t)
    ensures Own(long, NameOf(e), t, default)
            == if !e.numbered then [] else [if x.LeftOut? || x.digits == "" then default else Number(long, x.digits)]
  {
    hide Formed, Spelled, DigitsBehind, Number, IsNumeric;
    NameParts(e);
    if x.Written? {
      FormSpells(e, x);
      if e.numbered {
        FormDigits(e, x);
      }
    }
  }
}
