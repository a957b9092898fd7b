/** Headers in upper and lower case; IEEE 488.2, section 7.6.1.5. */
module LetterCase {
  import opened HeaderNumbers
  import opened HeaderSpec
  import opened HeaderText
  import opened Printer
  import LexSpec

  /** One of the characters is a capital letter, the other one the same letter, 32 codes behind it. */
  predicate CasePair(c: char, d: char) {
    || ('A' <= c <= 'Z' && d as int == c as int + 32)
    || ('A' <= d <= 'Z' && c as int == d as int + 32)
  }

  predicate Alike(c: char, d: char) { c == d || CasePair(c, d) }

  /** Equal but for letters in the other case. */
  predicate CaseAlike(a: string, b: string) {
    |a| == |b| && forall k | 0 <= k < |a| :: Alike(a[k], b[k])
  }

  lemma FoldExact(c: char, d: char)
    ensures Fold(c) == Fold(d) <==> Alike(c, d)
  {
  }

  /** Two texts are the same text exactly when every character is the same or the same letter in the other case. */
  lemma SameTextExact(a: string, b: string)
    ensures SameText(a, b) <==> CaseAlike(a, b)
  {
    hide Fold, Alike;
    forall k | 0 <= k < |a| && |a| == |b| ensures Fold(a[k]) == Fold(b[k]) <==> Alike(a[k], b[k]) {
      FoldExact(a[k], b[k]);
    }
  }

  /** Besides letters, characters stand for themselves only. */
  lemma NoLetter(c: char, d: char)
    requires Alike(c, d)
    ensures IsSeparator(c) || c == '*' || LexSpec.IsDigit(c) ==> c == d
    ensures IsSeparator(d) || d == '*' || LexSpec.IsDigit(d) ==> c == d
  {
  }

  lemma SameTextAlike(form: string, a: string, b: string)
    requires CaseAlike(a, b)
    ensures SameText(form, a) <==> SameText(form, b)
  {
    hide Alike;
    SameTextExact(a, b);
  }

  lemma DigitsAlike(a: string, b: string)
    requires CaseAlike(a, b) && AllDigits(a)
    ensures a == b
  {
    hide Alike;
    forall k | 0 <= k < |a| ensures a[k] == b[k] {
      NoLetter(a[k], b[k]);
    }
  }

  lemma AlikeBack(c: char, d: char)
    requires Alike(c, d)
    ensures Alike(d, c)
  {
  }

  lemma CaseBack(a: string, b: string)
    requires CaseAlike(a, b)
    ensures CaseAlike(b, a)
  {
    hide Alike;
    forall k | 0 <= k < |a| ensures Alike(b[k], a[k]) {
      AlikeBack(a[k], b[k]);
    }
  }

  lemma CaseSlice(a: string, b: string, i: nat, e: nat)
    requires CaseAlike(a, b) && i <= e <= |a|
    ensures CaseAlike(a[i..e], b[i..e])
  {
    hide Alike;
    assert forall k | 0 <= k < e - i :: a[i..e][k] == a[i + k] && b[i..e][k] == b[i + k];
  }

  lemma WithNumberAlike(form: string, a: string, b: string)
    requires CaseAlike(a, b) && WithNumber(form, a)
    ensures WithNumber(form, b) && a[|form|..] == b[|form|..]
  {
    hide SameText, AllDigits;
    var n := |form|;
    CaseSlice(a, b, 0, n);
    CaseSlice(a, b, n, |a|);
    assert a[0..n] == a[..n] && b[0..n] == b[..n] && a[n..|a|] == a[n..] && b[n..|b|] == b[n..];
    SameTextAlike(form, a[..n], b[..n]);
    DigitsAlike(a[n..], b[n..]);
  }

  lemma SpelledAlike(name: string, a: string, b: string)
    requires CaseAlike(a, b) && Spelled(name, a)
    ensures Spelled(name, b) && (IsNumeric(name) ==> DigitsBehind(name, a) == DigitsBehind(name, b))
  {
    hide WithNumber, SameText, CaseAlike, ShortLength;
    CaseBack(a, b);
    if IsNumeric(name) {
      var base := name[..|name| - 1];
      if WithNumber(base, a) {
        WithNumberAlike(base, a, b);
      } else {
        WithNumberAlike(base[..ShortLength(base)], a, b);
        if WithNumber(base, b) {
          WithNumberAlike(base, b, a);
        }
      }
    } else {
      SameTextAlike(name, a, b);
      SameTextAlike(name[..ShortLength(name)], a, b);
    }
  }

  predicate AllAlike(a: seq<string>, b: seq<string>) {
    |a| == |b| && forall k | 0 <= k < |a| :: CaseAlike(a[k], b[k])
  }

  lemma SpelledBoth(name: string, a: string, b: string)
    requires CaseAlike(a, b)
    ensures Spelled(name, a) <==> Spelled(name, b)
    ensures IsNumeric(name) && Spelled(name, a) ==> DigitsBehind(name, a) == DigitsBehind(name, b)
  {
    hide Spelled, CaseAlike, DigitsBehind;
    CaseBack(a, b);
    if Spelled(name, a) {
      SpelledAlike(name, a, b);
    }
    if Spelled(name, b) {
      SpelledAlike(name, b, a);
    }
  }

  lemma OwnAlike(long: Width, name: string, a: string, b: string, default: int)
    requires CaseAlike(a, b)
    ensures Own(long, name, a, default) == Own(long, name, b, default)
  {
    hide Spelled, CaseAlike, DigitsBehind, Number;
    SpelledBoth(name, a, b);
  }

  lemma AlikeTails(a: seq<string>, b: seq<string>)
    requires a != [] && AllAlike(a, b)
    ensures CaseAlike(a[0], b[0]) && AllAlike(a[1..], b[1..])
  {
    hide CaseAlike;
  }

  /** The walk takes no notice of case, and reports the same numbers. */
  lemma {:induction false} GreedyAlike(long: Width, nodes: seq<Node>, a: seq<string>, b: seq<string>, default: int)
    requires nodes != [] && a != [] && AllAlike(a, b)
    ensures Greedy(nodes, a) <==> Greedy(nodes, b)
    ensures Reported(long, nodes, a, default) == Reported(long, nodes, b, default)
    decreases |nodes|
  {
    hide Spelled, AllAlike, CaseAlike, Own, AllOptional;
    assert |a| == |b| by { assert AllAlike(a, b); LengthsAlike(a, b); }
    AlikeTails(a, b);
    SpelledBoth(nodes[0].name, a[0], b[0]);
    OwnAlike(long, nodes[0].name, a[0], b[0], default);
    if |nodes| > 1 {
      if Spelled(nodes[0].name, a[0]) {
        if |a| > 1 {
          GreedyAlike(long, nodes[1..], a[1..], b[1..], default);
        }
      } else {
        GreedyAlike(long, nodes[1..], a, b, default);
      }
    }
  }

  lemma LengthsAlike(a: seq<string>, b: seq<string>)
    requires AllAlike(a, b)
    ensures |a| == |b|
  {
  }

  lemma {:induction false} ColonsAlike(a: string, b: string, j: nat, end: nat)
    requires CaseAlike(a, b) && j <= end <= |a|
    ensures ColonEnd(a, j, end) == ColonEnd(b, j, end)
    decreases end - j
  {
    hide Alike;
    if j < end {
      NoLetter(a[j], b[j]);
      ColonsAlike(a, b, j + 1, end);
    }
  }

  lemma {:induction false} SegmentsAlike(a: string, b: string, j: nat, end: nat)
    requires CaseAlike(a, b) && j <= end <= |a|
    ensures AllAlike(Segments(a, j, end), Segments(b, j, end))
    decreases end - j
  {
    hide ColonEnd, CaseAlike, AllAlike;
    assert |a| == |b| by { SameLength(a, b); }
    var e := ColonEnd(a, j, end);
    ColonsAlike(a, b, j, end);
    CaseSlice(a, b, j, e);
    NoneAlike();
    if e < end {
      SegmentsAlike(a, b, e + 1, end);
      FrontAlike(a[j..e], b[j..e], Segments(a, e + 1, end), Segments(b, e + 1, end));
    } else {
      FrontAlike(a[j..e], b[j..e], [], []);
    }
  }

  lemma NoneAlike()
    ensures AllAlike([], [])
  {
  }

  lemma FrontAlike(s: string, t: string, ss: seq<string>, ts: seq<string>)
    requires CaseAlike(s, t) && AllAlike(ss, ts)
    ensures AllAlike([s] + ss, [t] + ts)
  {
    hide CaseAlike;
  }

  lemma SameLength(a: string, b: string)
    requires CaseAlike(a, b)
    ensures |a| == |b|
  {
  }

  lemma StartAlike(p: string, a: string, b: string)
    requires CaseAlike(a, b) && a != []
    ensures |a| == |b| && IsQuery(a) == IsQuery(b) && BodyEnd(a, IsQuery(p)) == BodyEnd(b, IsQuery(p))
    ensures HeaderStart(a, BodyEnd(a, IsQuery(p))) == HeaderStart(b, BodyEnd(b, IsQuery(p)))
  {
    hide Alike, IsSeparator;
    assert IsSeparator('?') && IsSeparator(':') by { Separators(); }
    NoLetter(a[|a| - 1], b[|b| - 1]);
    NoLetter(a[0], b[0]);
    if |a| > 1 {
      NoLetter(a[1], b[1]);
    }
  }

  lemma Separators()
    ensures IsSeparator('?') && IsSeparator(':')
  {
  }

  /** Headers that differ in case only are accepted alike, by every pattern. */
  lemma AcceptsAlike(p: string, a: string, b: string)
    requires Pattern(p) && a != [] && CaseAlike(a, b)
    ensures b != [] && (Accepts(p, a) <==> Accepts(p, b))
  {
    hide Pattern, PatternNodes, Segments, Greedy, CaseAlike, HeaderStart, AllAlike;
    StartAlike(p, a, b);
    var end := BodyEnd(a, IsQuery(p));
    if HeaderStart(a, end).At? {
      var j := HeaderStart(a, end).j;
      SegmentsAlike(a, b, j, end);
      GreedyAlike(W32, PatternNodes(p), Segments(a, j, end), Segments(b, j, end), 0);
    }
  }

  lemma {:induction false} SpellsAlike(nodes: seq<Node>, a: seq<string>, b: seq<string>)
    requires AllAlike(a, b)
    ensures Spells(nodes, a) <==> Spells(nodes, b)
    decreases |nodes|
  {
    hide Spelled, CaseAlike;
    if nodes != [] {
      SpellsAlike(nodes[1..], a, b);
      if a != [] {
        AlikeTails(a, b);
        SpelledBoth(nodes[0].name, a[0], b[0]);
        SpellsAlike(nodes[1..], a[1..], b[1..]);
      }
    }
  }

  /** The same for the language that the pattern stands for. */
  lemma LanguageAlike(p: string, a: string, b: string)
    requires Pattern(p) && a != [] && CaseAlike(a, b)
    ensures b != [] && (Language(p, a) <==> Language(p, b))
  {
    hide Pattern, PatternNodes, Segments, Spells, CaseAlike, HeaderStart, AllAlike;
    StartAlike(p, a, b);
    var end := BodyEnd(a, IsQuery(p));
    if HeaderStart(a, end).At? {
      var j := HeaderStart(a, end).j;
      SegmentsAlike(a, b, j, end);
      SpellsAlike(PatternNodes(p), Segments(a, j, end), Segments(b, j, end));
    }
  }

  lemma CaseJoin(a: string, b: string, c: string, d: string)
    requires CaseAlike(a, b) && CaseAlike(c, d)
    ensures CaseAlike(a + c, b + d)
  {
    hide Alike;
  }

  lemma CaseSame(a: string)
    ensures CaseAlike(a, a)
  {
  }
}
