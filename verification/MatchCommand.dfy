/** The pointer walk that matches a header against a pattern. */
module MatchCommand {
  import opened Arithmetic
  import opened Wrappers

  import opened HeaderNumbers
  import opened HeaderSpec
  import opened HeaderText
  import opened Printer
  import LexSpec
  import N = Numerals
  import P = Parameters

  /** The character at `k`, and the terminator behind the text. */
  function CharAt(s: string, k: nat): char {
    if k < |s| then s[k] else '\0'
  }

  /** Find the first separator. */
  method PatternSeparatorPos(p: string, i: nat, end: nat) returns (n: nat)
    requires i <= end <= |p|
    ensures i + n == NameEnd(p, i, end)
  {
    n := 0;
    while i + n < end && !IsSeparator(p[i + n])
      invariant i + n <= end && NameEnd(p, i, end) == NameEnd(p, i + n, end)
    {
      n := n + 1;
    }
  }

  /** Where the current segment of the header ends. */
  function SegmentEnd(c: string, j: nat, end: nat): (e: nat)
    requires j <= end <= |c|
    ensures j <= e <= end
    ensures e < end ==> c[e] == ':' || c[e] == '?'
    ensures forall k | j <= k < e :: c[k] != ':' && c[k] != '?'
    decreases end - j
  {
    if j == end || c[j] == ':' || c[j] == '?' then j else SegmentEnd(c, j + 1, end)
  }

  method CmdSeparatorPos(c: string, j: nat, end: nat) returns (n: nat)
    requires j <= end <= |c|
    ensures j + n == SegmentEnd(c, j, end)
  {
    n := 0;
    while j + n < end && c[j + n] != ':' && c[j + n] != '?'
      invariant j + n <= end && SegmentEnd(c, j, end) == SegmentEnd(c, j + n, end)
    {
      n := n + 1;
    }
  }

  method PatternSeparatorShortPos(name: string) returns (n: nat)
    ensures n == ShortLength(name)
  {
    n := 0;
    while n < |name| && !IsLower(name[n])
      invariant n <= |name| && ShortLength(name) == n + ShortLength(name[n..])
    {
      assert name[n..][1..] == name[n + 1..];
      n := n + 1;
    }
  }

  /** The library's comparison of two texts of the same length, ignoring case. */
  method EqualIgnoringCase(a: string, b: string) returns (r: bool)
    requires |a| == |b|
    ensures r == SameText(a, b)
  {
    var k := 0;
    while k < |a|
      invariant k <= |a| && forall i | 0 <= i < k :: Fold(a[i]) == Fold(b[i])
    {
      if Fold(a[k]) != Fold(b[k]) {
        return false;
      }
      k := k + 1;
    }
    r := true;
  }

  method CompareStr(a: string, b: string) returns (r: bool)
    ensures r == SameText(a, b)
  {
    if |a| != |b| {
      return false;
    }
    r := EqualIgnoringCase(a, b);
  }

  /** Nothing that the library's conversion would skip or take for a sign. */
  predicate Clean(t: string) {
    forall k | 0 <= k < |t| :: !LexSpec.IsPlusMinus(t[k]) && t[k] != ' ' && !('\t' <= t[k] <= '\r')
  }

  /** The segment of the header `c` from `j` to `e`, as numbers are read from it: in the header they end with the segment. */
  predicate Readable(c: string, j: nat, e: nat) {
    j <= e <= |c| && Clean(c[j..e]) && (e < |c| ==> c[e] == ':' || c[e] == '?')
  }

  lemma {:induction false} DigitRun(c: string, i: nat, e: nat)
    requires i <= e <= |c| && (e < |c| ==> c[e] == ':' || c[e] == '?')
    ensures P.DigitsEnd(10, c, i) <= e
    ensures P.DigitsEnd(10, c, i) == e <==> AllDigits(c[i..e])
    decreases e - i
  {
    if i < e {
      DigitRun(c, i + 1, e);
      assert c[i..e][1..] == c[i + 1..e] && c[i..e][0] == c[i];
      assert forall k | 0 < k < e - i :: c[i..e][k] == c[i..e][1..][k - 1];
    }
  }

  /** The conversion uses the whole segment exactly when only digits are left there. */
  lemma NumberRead(c: string, i: nat, e: nat)
    requires i < e && Readable(c, i, e)
    ensures i + P.StrTo(10, c, i).0 == e <==> AllDigits(c[i..e])
    ensures AllDigits(c[i..e]) ==> P.StrTo(10, c, i).1 == N.Eval(10, c[i..e])
  {
    hide N.Eval;
    DigitRun(c, i, e);
    assert c[i] == c[i..e][0];
  }

  /**
   Compare the form `a` with the segment of `c` from `j` to `e`, behind which digits may
   follow. Where a number is wanted it is converted, and stored if there is one.
   */
  method CompareStrAndNum(long: Width, a: string, c: string, j: nat, e: nat, wanted: bool)
    returns (r: bool, num: Option<int>)
    requires j <= e <= |c| && (wanted ==> Readable(c, j, e))
    ensures r == WithNumber(a, c[j..e])
    ensures num == if wanted && r && |a| < e - j then Some(Number(long, c[j + |a|..e])) else None
  {
    hide P.StrTo, P.Converted, AllDigits;
    num := None;
    if e - j < |a| {
      return false, None;
    }
    var i := j + |a|;
    assert c[j..e][..|a|] == c[j..i] && c[j..e][|a|..] == c[i..e];
    r := EqualIgnoringCase(a, c[j..i]);
    if r && wanted {
      if i < e {
        assert Readable(c, i, e);
        NumberRead(c, i, e);
        var (used, v) := P.StrTo(10, c, i);
        if i + used != e {
          r := false;
        } else {
          num := Some(P.Converted(long, P.IntType(W32, true), true, v));
        }
      } else {
        NoDigitsLeft();
        assert c[i..e] == [];
      }
    } else if r {
      r := OnlyDigits(c[i..e]);
    }
  }

  lemma NoDigitsLeft()
    ensures AllDigits([])
  {
  }

  method OnlyDigits(t: string) returns (r: bool)
    ensures r == AllDigits(t)
  {
    var i := 0;
    while i < |t|
      invariant i <= |t| && forall k | 0 <= k < i :: LexSpec.IsDigit(t[k])
    {
      if !LexSpec.IsDigit(t[i]) {
        return false;
      }
      i := i + 1;
    }
    r := true;
  }

  /** What a `#` node stores: nothing when it is not spelled, or without a number. */
  function StoredNumber(long: Width, name: string, t: string): Option<int> {
    if IsNumeric(name) && Spelled(name, t) && DigitsBehind(name, t) != [] then Some(Number(long, DigitsBehind(name, t)))
    else None
  }

  /** The segment of `c` from `j` to `e` against a node, and the number where one is wanted. */
  method MatchPattern(long: Width, name: string, c: string, j: nat, e: nat, wanted: bool)
    returns (r: bool, num: Option<int>)
    requires j <= e <= |c| && (wanted ==> IsNumeric(name) && Readable(c, j, e))
    ensures r == Spelled(name, c[j..e])
    ensures num == if wanted then StoredNumber(long, name, c[j..e]) else None
  {
    hide SameText, ShortLength, AllDigits, Number;
    num := None;
    if |name| > 0 && name[|name| - 1] == '#' {
      var base := name[..|name| - 1];
      var short := PatternSeparatorShortPos(base);
      SliceBehind(c, j, e, |base|);
      SliceBehind(c, j, e, short);
      r, num := CompareStrAndNum(long, base, c, j, e, wanted);
      if !r {
        r, num := CompareStrAndNum(long, base[..short], c, j, e, wanted);
      }
    } else {
      var short := PatternSeparatorShortPos(name);
      r := CompareStr(name, c[j..e]);
      if !r {
        r := CompareStr(name[..short], c[j..e]);
      }
    }
  }

  lemma SliceBehind(c: string, j: nat, e: nat, n: nat)
    requires j <= e <= |c|
    ensures n <= e - j ==> c[j..e][n..] == c[j + n..e]
  {
  }

  /** From `a` on only optional nodes follow. */
  predicate OptionalBehind(p: string, a: nat, end: nat)
    requires end <= |p| && Boundary(p, a, end) && RestFormed(p, a, end)
  {
    AllOptional(NodesBehind(p, a, end))
  }

  /** Inside a bracket that closes at `close`. */
  ghost predicate Inside(p: string, a: nat, close: nat, end: nat)
    requires end <= |p|
  {
    && a <= close < end && p[close] == ']'
    && (forall k | a <= k < close :: p[k] == ':' || !IsSeparator(p[k]))
    && Boundary(p, close + 1, end) && RestFormed(p, close + 1, end)
  }

  /** An optional node at the boundary `a`: its bracket, and what follows. */
  lemma OpenBracket(p: string, a: nat, end: nat) returns (close: nat)
    requires end <= |p| && a < end && Boundary(p, a, end) && RestFormed(p, a, end) && p[a] == '['
    ensures Inside(p, a + 1, close, end)
    ensures OptionalBehind(p, a, end) <==> OptionalBehind(p, close + 1, end)
  {
    hide NameEnd, AllOptional;
    close := NameEnd(p, a + 2, end);
    var ns, rest := NodesBehind(p, a, end), NodesBehind(p, close + 1, end);
    assert ns == NodesAt(p, a + 2, true, end);
    assert ns == [Node(p[a + 2..close], true)] + rest;
    OptionalFirst(Node(p[a + 2..close], true), rest);
  }

  lemma OptionalFirst(n: Node, rest: seq<Node>)
    requires n.optional
    ensures AllOptional([n] + rest) <==> AllOptional(rest)
  {
    var ns := [n] + rest;
    assert forall k | 0 <= k < |rest| :: rest[k] == ns[k + 1];
    assert forall k | 0 < k < |ns| :: ns[k] == rest[k - 1];
  }

  lemma Mandatory(p: string, a: nat, end: nat)
    requires end <= |p| && a < end && Boundary(p, a, end) && RestFormed(p, a, end) && p[a] == ':'
    ensures !OptionalBehind(p, a, end) && a + 1 < end && !IsSeparator(p[a + 1]) && NameEnd(p, a, end) == a
  {
    assert !NodesBehind(p, a, end)[0].optional;
  }

  lemma NothingBehind(p: string, end: nat)
    requires end <= |p|
    ensures Boundary(p, end, end) && RestFormed(p, end, end) && OptionalBehind(p, end, end)
  {
  }

  /**
   The scan over the rest of the pattern once the header is complete. It counts
   brackets and goes on as long as one optional part follows another.
   */
  method SkipOptionalTail(p: string, start: nat, end: nat, open: bool) returns (r: bool)
    requires end <= |p| && start < end
    requires open ==> Inside(p, start, start, end)
    requires !open ==> Boundary(p, start, end) && RestFormed(p, start, end)
    ensures r == OptionalBehind(p, if open then start + 1 else start, end)
  {
    hide NameEnd, RestFormed, NodesBehind, OptionalBehind;
    var a, brackets := start, if open then 1 else 0;
    ghost var close := start;
    ghost var goal := OptionalBehind(p, if open then start + 1 else start, end);
    while a < end
      invariant a <= end && (brackets == 0 || brackets == 1)
      invariant brackets == 1 ==> Inside(p, a, close, end) && OptionalBehind(p, close + 1, end) == goal
      invariant brackets == 0 ==> Boundary(p, a, end) && RestFormed(p, a, end) && OptionalBehind(p, a, end) == goal
      invariant brackets == 0 && a > start ==> a == end || p[a] == '['
      decreases end - a
    {
      var sep := PatternSeparatorPos(p, a, end);
      var c := CharAt(p, a + sep);
      if c == '[' {
        brackets := brackets + 1;
        close := OpenBracket(p, a, end);
      } else if c == ']' {
        brackets := brackets - 1;
      } else if brackets == 0 {
        Mandatory(p, a, end);
      }
      a := a + sep + 1;
      if brackets == 0 {
        if !(a < end && p[a] == '[') {
          if c == ']' && a < end {
            Mandatory(p, a, end);
          }
          break;
        }
      }
    }
    NothingBehind(p, end);
    r := a == end;
  }

  /** No separator in `t`. */
  predicate Plain(t: string) {
    forall k | 0 <= k < |t| :: !IsSeparator(t[k])
  }

  lemma PlainSpelling(name: string, t: string)
    requires Plain(name) && Spelled(name, t)
    ensures Plain(t)
  {
    hide ShortLength;
    var base := if IsNumeric(name) then name[..|name| - 1] else name;
    assert Plain(base) && Plain(base[..ShortLength(base)]);
    forall k | 0 <= k < |t| ensures !IsSeparator(t[k]) {
      if IsNumeric(name) {
        var form := if WithNumber(base, t) then base else base[..ShortLength(base)];
        NumberSpelling(form, t, k);
      } else {
        var form := if SameText(name, t) then name else name[..ShortLength(name)];
        FoldPlain(form[k], t[k]);
      }
    }
  }

  lemma NumberSpelling(form: string, t: string, k: nat)
    requires Plain(form) && WithNumber(form, t) && k < |t|
    ensures !IsSeparator(t[k])
  {
    if k < |form| {
      FoldPlain(form[k], t[..|form|][k]);
    } else {
      assert LexSpec.IsDigit(t[|form|..][k - |form|]);
    }
  }

  lemma FoldPlain(a: char, b: char)
    requires Fold(a) == Fold(b) && !IsSeparator(a)
    ensures !IsSeparator(b)
  {
  }

  lemma PlainName(p: string, i: nat, end: nat)
    requires i <= end <= |p|
    ensures Plain(p[i..NameEnd(p, i, end)])
  {
    hide NameEnd;
  }

  lemma {:induction false} NamesPlain(p: string, i: nat, optional: bool, end: nat)
    requires i <= end <= |p| && WellFormed(p, i, optional, end)
    ensures forall k | 0 <= k < |NodesAt(p, i, optional, end)| :: Plain(NodesAt(p, i, optional, end)[k].name)
    decreases end - i
  {
    hide NameEnd;
    var a := NodeEnd(p, i, optional, end);
    var ns, rest := NodesAt(p, i, optional, end), NodesBehind(p, a, end);
    FirstNode(p, i, optional, end);
    if a < end && p[a] == ':' {
      NamesPlain(p, a + 1, false, end);
    } else if a < end {
      NamesPlain(p, a + 2, true, end);
    }
    forall k | 0 <= k < |ns| ensures Plain(ns[k].name) {
      if k > 0 {
        assert ns[k] == ns[1..][k - 1];
      } else {
        PlainName(p, i, end);
      }
    }
  }

  /** A segment that no node spells is never accepted. */
  lemma {:induction false} NoTaker(nodes: seq<Node>, segments: seq<string>)
    requires nodes != [] && segments != []
    requires forall k | 0 <= k < |nodes| :: !Spelled(nodes[k].name, segments[0])
    ensures !Greedy(nodes, segments)
    decreases |nodes|
  {
    hide Spelled;
    if |nodes| > 1 {
      NoTaker(nodes[1..], segments);
    }
  }

  lemma {:induction false} SameSegment(c: string, j: nat, end: nat)
    requires j <= end <= |c|
    ensures var e := SegmentEnd(c, j, end); e == end || c[e] == ':' ==> ColonEnd(c, j, end) == e
    ensures var e := SegmentEnd(c, j, end);
            e < end && c[e] == '?' ==> e - j < |Segments(c, j, end)[0]| && Segments(c, j, end)[0][e - j] == '?'
    decreases end - j
  {
    if j < end && c[j] != ':' && c[j] != '?' {
      SameSegment(c, j + 1, end);
    }
  }

  /** A question mark inside a header is never accepted. */
  lemma StrayQuestionMark(p: string, i: nat, optional: bool, end: nat, segments: seq<string>, k: nat)
    requires i <= end <= |p| && WellFormed(p, i, optional, end)
    requires segments != [] && k < |segments[0]| && segments[0][k] == '?'
    ensures !Greedy(NodesAt(p, i, optional, end), segments)
    ensures !Spelled(p[i..NameEnd(p, i, end)], segments[0])
  {
    hide Spelled, NodesAt, Greedy;
    var ns := NodesAt(p, i, optional, end);
    NamesPlain(p, i, optional, end);
    forall m | 0 <= m < |ns| ensures !Spelled(ns[m].name, segments[0]) {
      if Spelled(ns[m].name, segments[0]) {
        PlainSpelling(ns[m].name, segments[0]);
      }
    }
    NoTaker(ns, segments);
    FirstNode(p, i, optional, end);
  }

  lemma FirstNode(p: string, i: nat, optional: bool, end: nat)
    requires i <= end <= |p| && WellFormed(p, i, optional, end)
    ensures var ns := NodesAt(p, i, optional, end);
            && ns[0] == Node(p[i..NameEnd(p, i, end)], optional)
            && ns[1..] == NodesBehind(p, NodeEnd(p, i, optional, end), end)
  {
    hide NameEnd;
  }

  /** The outcome of the walk from the name at `i` and the segment at `j`. */
  predicate Goal(p: string, i: nat, optional: bool, pend: nat, c: string, j: nat, cend: nat)
    requires i <= pend <= |p| && WellFormed(p, i, optional, pend) && j <= cend <= |c|
  {
    Greedy(NodesAt(p, i, optional, pend), Segments(c, j, cend))
  }

  /** The same from the boundary `a`, where another node must follow. */
  predicate GoalBehind(p: string, a: nat, pend: nat, c: string, j: nat, cend: nat)
    requires pend <= |p| && Boundary(p, a, pend) && RestFormed(p, a, pend) && j <= cend <= |c|
  {
    a < pend && if p[a] == ':' then Goal(p, a + 1, false, pend, c, j, cend) else Goal(p, a + 2, true, pend, c, j, cend)
  }

  lemma Behind(p: string, a: nat, pend: nat, c: string, j: nat, cend: nat)
    requires pend <= |p| && Boundary(p, a, pend) && RestFormed(p, a, pend) && j <= cend <= |c|
    ensures GoalBehind(p, a, pend, c, j, cend)
            <==> NodesBehind(p, a, pend) != [] && Greedy(NodesBehind(p, a, pend), Segments(c, j, cend))
  {
    hide Greedy, Segments, NodesAt;
  }

  /** One step of the walk. */
  lemma WalkStep(p: string, i: nat, optional: bool, pend: nat, c: string, j: nat, cend: nat)
    requires i <= pend <= |p| && WellFormed(p, i, optional, pend) && j <= cend <= |c|
    ensures var a, e := NodeEnd(p, i, optional, pend), SegmentEnd(c, j, cend);
            Goal(p, i, optional, pend, c, j, cend) ==
              if Spelled(p[i..NameEnd(p, i, pend)], c[j..e]) then
                if e == cend then OptionalBehind(p, a, pend)
                else c[e] == ':' && GoalBehind(p, a, pend, c, e + 1, cend)
              else optional && GoalBehind(p, a, pend, c, j, cend)
  {
    hide Spelled, NodesAt, NodesBehind, NameEnd, RestFormed, GoalBehind, AllOptional, Greedy, Segments, ColonEnd;
    var a, e := NodeEnd(p, i, optional, pend), SegmentEnd(c, j, cend);
    var ns, ss := NodesAt(p, i, optional, pend), Segments(c, j, cend);
    FirstNode(p, i, optional, pend);
    GreedyOnce(ns, ss);
    SegmentsOnce(c, j, cend);
    SameSegment(c, j, cend);
    Behind(p, a, pend, c, j, cend);
    if e < cend && c[e] == ':' {
      Behind(p, a, pend, c, e + 1, cend);
    } else if e < cend {
      StrayQuestionMark(p, i, optional, pend, ss, e - j);
    }
  }

  lemma GreedyOnce(nodes: seq<Node>, segments: seq<string>)
    requires nodes != [] && segments != []
    ensures Greedy(nodes, segments) ==
            if Spelled(nodes[0].name, segments[0]) then
              if segments[1..] == [] then AllOptional(nodes[1..])
              else nodes[1..] != [] && Greedy(nodes[1..], segments[1..])
            else nodes[0].optional && nodes[1..] != [] && Greedy(nodes[1..], segments)
  {
    hide Spelled, AllOptional;
  }

  lemma SegmentsOnce(c: string, j: nat, end: nat)
    requires j <= end <= |c|
    ensures var e, ss := ColonEnd(c, j, end), Segments(c, j, end);
            ss[0] == c[j..e] && ss[1..] == if e < end then Segments(c, e + 1, end) else []
  {
    hide ColonEnd;
  }

  /** What a well-formed pattern can hold behind the name at `i`. */
  lemma BehindName(p: string, i: nat, optional: bool, end: nat)
    requires i <= end <= |p| && WellFormed(p, i, optional, end)
    ensures var e := NameEnd(p, i, end);
            && i < e
            && (optional ==> e < end && p[e] == ']' && Inside(p, e, e, end))
            && (!optional && e < end ==> p[e] == ':' || p[e] == '[')
            && Boundary(p, NodeEnd(p, i, optional, end), end) && RestFormed(p, NodeEnd(p, i, optional, end), end)
  {
    hide NameEnd;
  }

  lemma NextNode(p: string, a: nat, end: nat)
    requires end <= |p| && a < end && Boundary(p, a, end) && RestFormed(p, a, end)
    ensures p[a] == ':' ==> a + 1 <= end && WellFormed(p, a + 1, false, end)
    ensures p[a] != ':' ==> a + 2 <= end && p[a] == '[' && p[a + 1] == ':' && WellFormed(p, a + 2, true, end)
  {
    hide WellFormed;
  }

  /** What the walk reports from the name at `i` and the segment at `j`. */
  function ReportedFrom(long: Width, p: string, i: nat, optional: bool, pend: nat, c: string, j: nat, cend: nat,
                        default: int): seq<int>
    requires i <= pend <= |p| && WellFormed(p, i, optional, pend) && j <= cend <= |c|
  {
    Reported(long, NodesAt(p, i, optional, pend), Segments(c, j, cend), default)
  }

  /** The same from the boundary `a`. */
  function ReportedBehind(long: Width, p: string, a: nat, pend: nat, c: string, j: nat, cend: nat, default: int): seq<int>
    requires pend <= |p| && Boundary(p, a, pend) && RestFormed(p, a, pend) && j <= cend <= |c|
  {
    if a == pend then []
    else if p[a] == ':' then ReportedFrom(long, p, a + 1, false, pend, c, j, cend, default)
    else ReportedFrom(long, p, a + 2, true, pend, c, j, cend, default)
  }

  lemma ReportedOnce(long: Width, nodes: seq<Node>, segments: seq<string>, default: int)
    requires nodes != [] && segments != []
    ensures Reported(long, nodes, segments, default) ==
            Own(long, nodes[0].name, segments[0], default) +
            if Spelled(nodes[0].name, segments[0]) then
              if segments[1..] != [] && nodes[1..] != [] then Reported(long, nodes[1..], segments[1..], default) else []
            else if nodes[0].optional && nodes[1..] != [] then Reported(long, nodes[1..], segments, default) else []
  {
    hide Spelled, Own;
  }

  lemma BehindReport(long: Width, p: string, a: nat, pend: nat, c: string, j: nat, cend: nat, default: int)
    requires pend <= |p| && a < pend && Boundary(p, a, pend) && RestFormed(p, a, pend) && j <= cend <= |c|
    ensures NodesBehind(p, a, pend) != []
    ensures ReportedBehind(long, p, a, pend, c, j, cend, default)
            == Reported(long, NodesBehind(p, a, pend), Segments(c, j, cend), default)
  {
    hide Reported, Segments, NodesAt;
  }

  /** What is reported behind the name at `i` and the segment at `j`. */
  function ReportedNext(long: Width, p: string, i: nat, optional: bool, pend: nat, c: string, j: nat, cend: nat,
                        default: int): seq<int>
    requires i <= pend <= |p| && WellFormed(p, i, optional, pend) && j <= cend <= |c|
  {
    var a, e := NodeEnd(p, i, optional, pend), SegmentEnd(c, j, cend);
    if Spelled(p[i..NameEnd(p, i, pend)], c[j..e]) then
      if e == cend then [] else ReportedBehind(long, p, a, pend, c, e + 1, cend, default)
    else ReportedBehind(long, p, a, pend, c, j, cend, default)
  }

  lemma Onward(done: seq<int>, own: seq<int>, next: seq<int>)
    ensures done + (own + next) == (done + own) + next
    ensures next == [] ==> done + (own + next) == done + own
  {
  }

  /** One step of the walk to an accepted header. */
  lemma ReportStep(long: Width, p: string, i: nat, optional: bool, pend: nat, c: string, j: nat, cend: nat, default: int)
    requires i <= pend <= |p| && WellFormed(p, i, optional, pend) && j <= cend <= |c|
    requires Goal(p, i, optional, pend, c, j, cend)
    ensures ReportedFrom(long, p, i, optional, pend, c, j, cend, default)
            == Own(long, p[i..NameEnd(p, i, pend)], c[j..SegmentEnd(c, j, cend)], default)
               + ReportedNext(long, p, i, optional, pend, c, j, cend, default)
  {
    hide Spelled, NodesAt, NodesBehind, NameEnd, RestFormed, GoalBehind, AllOptional, Greedy, Segments, ColonEnd,
         Reported, ReportedBehind, Own;
    var a, e := NodeEnd(p, i, optional, pend), SegmentEnd(c, j, cend);
    var ns, ss := NodesAt(p, i, optional, pend), Segments(c, j, cend);
    WalkStep(p, i, optional, pend, c, j, cend);
    FirstNode(p, i, optional, pend);
    GreedyOnce(ns, ss);
    SegmentsOnce(c, j, cend);
    SameSegment(c, j, cend);
    ReportedOnce(long, ns, ss, default);
    if e < cend && c[e] == '?' {
      StrayQuestionMark(p, i, optional, pend, ss, e - j);
    }
    GoesOn(p, a, pend, c, j, cend);
    if e < cend {
      GoesOn(p, a, pend, c, e + 1, cend);
    }
    if a < pend {
      BehindReport(long, p, a, pend, c, j, cend, default);
      if e < cend {
        BehindReport(long, p, a, pend, c, e + 1, cend, default);
      }
    }
  }

  lemma GoesOn(p: string, a: nat, pend: nat, c: string, j: nat, cend: nat)
    requires pend <= |p| && Boundary(p, a, pend) && RestFormed(p, a, pend) && j <= cend <= |c|
    ensures GoalBehind(p, a, pend, c, j, cend) ==> a < pend
  {
    hide Goal;
  }

  /** The first values of an array replaced, as many as there is room for. */
  function Filled(before: seq<int>, values: seq<int>): seq<int> {
    var n := Min(|values|, |before|);
    values[..n] + before[n..]
  }

  lemma FilledNext(before: seq<int>, values: seq<int>, v: int)
    ensures Filled(before, values + [v]) ==
            if |values| < |before| then Filled(before, values)[|values| := v] else Filled(before, values)
  {
  }

  lemma FilledNone(before: seq<int>)
    ensures Filled(before, []) == before
  {
  }

  /** One node against one segment, and what it reports: the default first, then a number that is there. */
  method MatchNode(long: Width, name: string, c: string, j: nat, e: nat, numbers: array<int>, index: nat, default: int,
                   ghost before: seq<int>, ghost done: seq<int>)
    returns (matched: bool, next: nat)
    requires j <= e <= |c| && (numbers.Length > 0 ==> Readable(c, j, e))
    requires index == |done| && |before| == numbers.Length && numbers[..] == Filled(before, done)
    modifies numbers
    ensures matched == Spelled(name, c[j..e])
    ensures next == |done + Own(long, name, c[j..e], default)|
    ensures numbers[..] == Filled(before, done + Own(long, name, c[j..e], default))
  {
    hide Spelled, WithNumber, Number, Filled;
    next := index;
    var wanted := false;
    if |name| > 0 && name[|name| - 1] == '#' {
      if next < numbers.Length {
        wanted := true;
        numbers[next] := default;
      }
      next := next + 1;
    }
    var num;
    matched, num := MatchPattern(long, name, c, j, e, wanted);
    if num.Some? {
      numbers[index] := num.value;
    }
    if IsNumeric(name) {
      FilledNext(before, done, Own(long, name, c[j..e], default)[0]);
    } else {
      assert done + [] == done;
    }
  }

  /**
   The header `c` against the pattern `p`, with an array for numbers, which may be empty:
   always in the language of `p` when accepted, and accepted when in its language unless
   an optional node shares a spelling with a mandatory node that it can be skipped to.
   An accepted header leaves in the array what the walk reports.
   */
  method MatchNumbers(long: Width, p: string, c: string, numbers: array<int>, default: int) returns (r: bool)
    requires Pattern(p) && c != [] && (numbers.Length > 0 ==> Clean(c))
    modifies numbers
    ensures r == Accepts(p, c)
    ensures r ==> numbers[..] == Filled(old(numbers[..]), CommandNumbers(long, p, c, default))
  {
    hide WellFormed, RestFormed, Greedy, NodesAt, Segments, NameEnd, SegmentEnd, Reported, Filled;
    var pend, cend := |p|, |c|;
    if p[pend - 1] == '?' {
      if c[cend - 1] == '?' {
        pend, cend := pend - 1, cend - 1;
      } else {
        return false;
      }
    }
    var i: nat, j: nat, brackets: nat := 0, 0, 0;
    if p[0] == '[' {
      i, brackets := 1, 1;
    }
    if CharAt(p, i) == ':' {
      i := i + 1;
    }
    if c[0] == ':' {
      if cend >= 2 {
        if c[1] != '*' {
          j := 1;
        } else {
          return false;
        }
      }
    }
    r := Walk(long, p, i, brackets, pend, c, j, cend, numbers, default);
  }

  /** The numbers that the header reports. */
  function CommandNumbers(long: Width, p: string, c: string, default: int): seq<int>
    requires Pattern(p) && c != [] && Accepts(p, c)
  {
    var end := BodyEnd(c, IsQuery(p));
    Reported(long, PatternNodes(p), Segments(c, HeaderStart(c, end).j, end), default)
  }

  /** The match without numbers, by which commands are looked up: the greedy walk. */
  method MatchCommand(long: Width, p: string, c: string) returns (r: bool)
    requires Pattern(p) && c != []
    ensures r == Accepts(p, c)
    ensures r ==> Language(p, c)
    ensures Unambiguous(PatternNodes(p)) && Language(p, c) ==> r
  {
    hide Pattern, Accepts, Language, Unambiguous, PatternNodes, CommandNumbers;
    AcceptsLanguage(p, c);
    var none := new int[0];
    r := MatchNumbers(long, p, c, none, 0);
  }

  /** The loop of the walk, from the name at `start` and the segment at `first`. */
  method Walk(long: Width, p: string, start: nat, open: nat, pend: nat, c: string, first: nat, cend: nat,
              numbers: array<int>, default: int)
    returns (r: bool)
    requires start <= pend <= |p| && first <= cend <= |c| && open <= 1 && WellFormed(p, start, open == 1, pend)
    requires CharAt(p, pend) == '?' || CharAt(p, pend) == '\0'
    requires CharAt(c, cend) == '?' || cend == |c|
    requires numbers.Length > 0 ==> Clean(c)
    modifies numbers
    ensures r == Goal(p, start, open == 1, pend, c, first, cend)
    ensures r ==> numbers[..] == Filled(old(numbers[..]),
                                        ReportedFrom(long, p, start, open == 1, pend, c, first, cend, default))
  {
    hide WellFormed, RestFormed, NameEnd, SegmentEnd, Goal, OptionalBehind, ReportedFrom, Own, Filled, Clean, Spelled;
    var i: nat, j: nat, brackets: nat, index: nat := start, first, open, 0;
    ghost var before, done: seq<int> := numbers[..], [];
    FilledNone(before);
    r := false;
    while true
      invariant i <= pend && j <= cend && brackets <= 1 && WellFormed(p, i, brackets == 1, pend)
      invariant Goal(p, i, brackets == 1, pend, c, j, cend) == Goal(p, start, open == 1, pend, c, first, cend)
      invariant index == |done| && numbers[..] == Filled(before, done)
      invariant Goal(p, i, brackets == 1, pend, c, j, cend) ==>
                  ReportedFrom(long, p, start, open == 1, pend, c, first, cend, default)
                  == done + ReportedFrom(long, p, i, brackets == 1, pend, c, j, cend, default)
      decreases pend - i
    {
      WalkStep(p, i, brackets == 1, pend, c, j, cend);
      BehindName(p, i, brackets == 1, pend);
      ghost var a := NodeEnd(p, i, brackets == 1, pend);
      if a < pend {
        NextNode(p, a, pend);
      }
      if Goal(p, i, brackets == 1, pend, c, j, cend) {
        ReportStep(long, p, i, brackets == 1, pend, c, j, cend, default);
        Onward(done, Own(long, p[i..NameEnd(p, i, pend)], c[j..SegmentEnd(c, j, cend)], default),
               ReportedNext(long, p, i, brackets == 1, pend, c, j, cend, default));
      }
      var psep := PatternSeparatorPos(p, i, pend);
      var csep := CmdSeparatorPos(c, j, cend);
      ghost var own := Own(long, p[i..i + psep], c[j..j + csep], default);
      if numbers.Length > 0 {
        CleanSegment(c, j, j + csep, cend);
      }
      var matched;
      matched, index := MatchNode(long, p[i..i + psep], c, j, j + csep, numbers, index, default, before, done);
      done := done + own;
      i := i + psep;
      if matched {
        j := j + csep;
        if i == pend && j == cend {
          NothingBehind(p, pend);
          return true;
        }
        if i == pend && j < cend {
          return false;
        }
        if j == cend {
          r := SkipOptionalTail(p, i, pend, brackets == 1);
          return;
        }
        if p[i] == c[j] && p[i] == ':' {
          i, j := i + 1, j + 1;
        } else if pend - i > 1 && p[i + 1] == c[j] && p[i] == '[' && p[i + 1] == ':' {
          i, j, brackets := i + 2, j + 1, brackets + 1;
        } else if pend - i > 1 && p[i + 1] == c[j] && p[i] == ']' && p[i + 1] == ':' {
          i, j, brackets := i + 2, j + 1, brackets - 1;
        } else if pend - i > 2 && p[i + 2] == c[j] && p[i] == ']' && p[i + 1] == '[' && p[i + 2] == ':' {
          i, j := i + 3, j + 1;
        } else {
          return false;
        }
      } else if CharAt(p, i) == ']' && CharAt(p, i + 1) == ':' {
        i, brackets := i + 2, brackets - 1;
      } else if pend - i > 2 && p[i] == ']' && p[i + 1] == '[' && p[i + 2] == ':' {
        i := i + 3;
      } else {
        return false;
      }
    }
  }

  lemma CleanSegment(c: string, j: nat, e: nat, cend: nat)
    requires j <= e <= cend <= |c| && Clean(c) && (CharAt(c, cend) == '?' || cend == |c|)
    requires e < cend ==> c[e] == ':' || c[e] == '?'
    ensures Readable(c, j, e)
  {
  }

  /** Whether a list of commands has an entry that the walk accepts for the header. */
  predicate Listed(patterns: seq<string>, header: string)
    requires header != [] && forall k | 0 <= k < |patterns| :: Pattern(patterns[k])
  {
    exists k | 0 <= k < |patterns| :: Accepts(patterns[k], header)
  }

  /** The first entry of the command list whose pattern the header matches. */
  method FindCommandHeader(long: Width, patterns: seq<string>, header: string) returns (r: Option<nat>)
    requires header != [] && forall k | 0 <= k < |patterns| :: Pattern(patterns[k])
    ensures r.Some? <==> Listed(patterns, header)
    ensures r.Some? ==> r.value < |patterns| && Accepts(patterns[r.value], header) && Language(patterns[r.value], header)
    ensures forall k | 0 <= k < if r.Some? then r.value else |patterns| :: !Accepts(patterns[k], header)
    ensures forall k | 0 <= k < if r.Some? then r.value else |patterns| ::
              Unambiguous(PatternNodes(patterns[k])) ==> !Language(patterns[k], header)
  {
    hide Pattern, Language, Unambiguous, PatternNodes, Accepts;
    for i := 0 to |patterns|
      invariant forall k | 0 <= k < i :: !Accepts(patterns[k], header)
      invariant forall k | 0 <= k < i :: Unambiguous(PatternNodes(patterns[k])) ==> !Language(patterns[k], header)
    {
      var matched := MatchCommand(long, patterns[i], header);
      if matched {
        return Some(i);
      }
    }
    r := None;
  }
}
