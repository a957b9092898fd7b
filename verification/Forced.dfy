/**
 Chunks without characters. Such a chunk hands the parser whatever waits in the buffer,
 as if it were a line, and the stream goes on behind it.
 */
module Forced {
  import opened Wrappers
  import opened LexSpec
  import opened DataCut
  import opened LexShift
  import opened Framing
  import opened Streams

  /** Nothing but white space and semicolons from `a` up to `b`. */
  ghost predicate Blank(s: seq<char>, a: nat, b: nat) {
    forall q | a <= q < b && q < |s| :: In(Ws, s[q]) || s[q] == ';'
  }

  /** A unit without a header. */
  lemma BareUnit(s: seq<char>, i: nat)
    requires i <= |s|
    ensures var w := SkipWhile(s, i, Ws);
            w == |s| || s[w] == ';' || IsEol(s[w]) ==>
              BodyAt(s, i) == Body(Token(TokUnknown, w, 0), Token(TokUnknown, w, 0), 0, w)
              && UnitAt(s, i) == Unit(Token(TokUnknown, w, 0), Token(TokUnknown, w, 0), 0,
                                      if w == |s| then TermNone else if s[w] == ';' then TermSemicolon else TermNl,
                                      if w == |s| then w else if s[w] == ';' then w + 1 else EolEnd(s, w))
  {
    hide SkipWhile, DataAt;
    var w := SkipWhile(s, i, Ws);
    if w == |s| || s[w] == ';' || IsEol(s[w]) {
      assert HeaderAt(s, w) == Token(TokUnknown, w, 0);
      SkipAgain(s, i, w);
    }
  }

  /** White space that has been begun. */
  lemma {:induction false} SkipAgain(s: seq<char>, i: nat, p: nat)
    requires i <= p <= |s| && p <= SkipWhile(s, i, Ws)
    ensures SkipWhile(s, p, Ws) == SkipWhile(s, i, Ws)
    decreases p - i
  {
    if i < p {
      SkipAgain(s, i + 1, p);
    }
  }

  /** Leading white space does not matter to a unit. */
  lemma SameUnit(s: seq<char>, i: nat, p: nat)
    requires i <= p <= |s| && p <= SkipWhile(s, i, Ws)
    ensures BodyAt(s, p) == BodyAt(s, i) && (GoodBody(s, i) ==> GoodBody(s, p))
    ensures var u, v := UnitAt(s, i), UnitAt(s, p); v.header == u.header && v.term == u.term && v.next == u.next
  {
    hide SkipWhile, HeaderAt, DataAt, CleanData;
    SkipAgain(s, i, p);
  }

  /** Blank text in front of a line does not matter to it. */
  lemma {:induction false} BlankFront(s: seq<char>, i: nat, p: nat)
    requires i <= p <= |s| && Blank(s, i, p)
    ensures Scan(s, p) == Scan(s, i) && TextEnd(s, p) == TextEnd(s, i)
    ensures GoodLine(s, i) ==> GoodLine(s, p)
    ensures Commands(s, p) == [] <==> Commands(s, i) == []
    decreases p - i
  {
    hide SkipWhile, Scan, TextEnd, GoodLine, Commands;
    var w := SkipWhile(s, i, Ws);
    if p <= w {
      FrontUnit(s, i, p);
    } else {
      EmptyUnit(s, i);
      if w + 1 < |s| {
        BlankFront(s, w + 1, p);
      } else {
        AtEnd(s);
      }
    }
  }

  /** In front of a semicolon. */
  lemma EmptyUnit(s: seq<char>, i: nat)
    requires i <= |s| && SkipWhile(s, i, Ws) < |s| && s[SkipWhile(s, i, Ws)] == ';'
    ensures var w := SkipWhile(s, i, Ws);
            && Scan(s, i) == (if w + 1 < |s| then Scan(s, w + 1) else None)
            && TextEnd(s, i) == (if w + 1 < |s| then TextEnd(s, w + 1) else |s|)
            && (GoodLine(s, i) ==> GoodLine(s, w + 1))
            && (Commands(s, i) == [] <==> w + 1 == |s| || Commands(s, w + 1) == [])
  {
    hide SkipWhile, BodyAt, UnitAt, GoodBody;
    BareUnit(s, i);
  }

  /** Behind all of a text. */
  lemma AtEnd(s: seq<char>)
    ensures Scan(s, |s|).None? && TextEnd(s, |s|) == |s| && !GoodLine(s, |s|) && Commands(s, |s|) == []
  {
    hide BodyAt, GoodBody;
    BareUnit(s, |s|);
    assert SkipWhile(s, |s|, Ws) == |s|;
    if GoodBody(s, |s|) {
      SomethingLeft(s, |s|);
    }
  }

  lemma FrontUnit(s: seq<char>, i: nat, p: nat)
    requires i <= p <= |s| && p <= SkipWhile(s, i, Ws)
    ensures Scan(s, p) == Scan(s, i) && TextEnd(s, p) == TextEnd(s, i)
    ensures GoodLine(s, i) ==> GoodLine(s, p)
    ensures Commands(s, p) == [] <==> Commands(s, i) == []
  {
    hide SkipWhile, BodyAt, UnitAt, GoodBody;
    SameUnit(s, i, p);
    FrontCommands(s, i, p);
  }

  lemma FrontCommands(s: seq<char>, i: nat, p: nat)
    requires i <= |s| && p <= |s| && BodyAt(s, p) == BodyAt(s, i)
    requires var u, v := UnitAt(s, i), UnitAt(s, p); v.header == u.header && v.term == u.term && v.next == u.next
    ensures Commands(s, p) == [] <==> Commands(s, i) == []
    ensures TextEnd(s, p) == TextEnd(s, i) && Scan(s, p) == Scan(s, i)
  {
    hide BodyAt, UnitAt;
  }

  /** A text without commands, before its newline, is blank. */
  lemma {:induction false} NoHeaders(s: seq<char>, i: nat)
    requires i <= |s| && Commands(s, i) == [] && (Scan(s, i).None? || Scan(s, i) == Some(|s|))
    ensures Blank(s, i, TextEnd(s, i)) && (Scan(s, i).None? ==> TextEnd(s, i) == |s|)
    decreases |s| - i
  {
    hide BodyAt, UnitAt, EolEnd, SkipWhile;
    var u, w := UnitAt(s, i), SkipWhile(s, i, Ws);
    NoHeader(s, i);
    if u.term.TermSemicolon? && u.next < |s| {
      NoHeaders(s, u.next);
    }
  }

  lemma NoHeader(s: seq<char>, i: nat)
    requires i <= |s| && CommandAt(s, i) == []
    ensures var u, w := UnitAt(s, i), SkipWhile(s, i, Ws);
            && BodyAt(s, i).end == w && !u.header.kind.TokInvalid?
            && (u.term.TermSemicolon? ==> s[w] == ';' && u.next == w + 1)
            && (u.term.TermNone? ==> w == |s| && u.next == w)
  {
    hide SkipWhile, DataAt, EolEnd, Compound, Common;
    var w := SkipWhile(s, i, Ws);
    SkipAgain(s, i, w);
  }

  /** How a line ends. */
  lemma {:induction false} LineTail(s: seq<char>, i: nat, e: nat)
    requires i <= |s| && GoodLine(s, i) && Scan(s, i) == Some(e)
    ensures var t := TextEnd(s[..e], i); i <= t < e && IsEol(s[t]) && EolEnd(s, t) == e
    decreases |s| - i
  {
    hide UnitAt, BodyAt, GoodBody, EolEnd;
    var u := UnitAt(s, i);
    ScanBound(s, i);
    UnitSame(s, e, i);
    if u.term.TermNl? {
      NewlineUnit(s, i);
      BodyBefore(s, i);
      BodySame(s, e, i);
    } else {
      ScanBoundNext(s, u.next);
      LineTail(s, u.next, e);
    }
  }

  lemma NewlineUnit(s: seq<char>, i: nat)
    requires i <= |s| && UnitAt(s, i).term.TermNl?
    ensures var p := BodyAt(s, i).end; p < |s| && IsEol(s[p]) && EolEnd(s, p) == UnitAt(s, i).next
  {
    hide BodyAt, EolEnd;
  }

  /** The beginning of a line that is not yet taken for one lies within its text. */
  lemma PartOfLine(s: seq<char>, n: nat, e: nat)
    requires GoodLine(s, 0) && Scan(s, 0) == Some(e) && n < e && Scan(s[..n], 0).None?
    ensures n <= TextEnd(s[..e], 0)
  {
    hide GoodLine, Scan, TextEnd, EolEnd;
    var t := TextEnd(s[..e], 0);
    LineTail(s, 0, e);
    EolShort(s, t);
    if n > t {
      ScanSplit(s, 0, n);
    }
  }

  lemma {:induction false} CleanShift(s: seq<char>, p: nat, i: nat)
    requires p + i <= |s| && CleanData(s, p + i)
    ensures CleanData(s[p..], i)
    decreases |s| - p - i
  {
    hide DatumAt, CleanDatum;
    DatumShift(s, p, i);
    CleanDatumShift(s, p, i);
    var d := DatumAt(s[p..], i);
    if !d.token.kind.TokUnknown? && p + d.next < |s| && s[p + d.next] == ',' {
      CleanShift(s, p, d.next + 1);
    }
  }

  lemma CleanDatumShift(s: seq<char>, p: nat, i: nat)
    requires p + i <= |s| && CleanDatum(s, p + i)
    ensures CleanDatum(s[p..], i)
  {
    hide BareDatum, SkipWhile;
    SkipShift(s, p, i, Ws);
    BareShift(s, p, SkipWhile(s[p..], i, Ws));
  }

  lemma GoodBodyShift(s: seq<char>, p: nat, i: nat)
    requires p + i <= |s| && GoodBody(s, p + i)
    ensures GoodBody(s[p..], i)
  {
    hide BodyAt, SkipWhile, HeaderAt, CleanData;
    BodyShift(s, p, i);
    SkipShift(s, p, i, Ws);
    var w := SkipWhile(s[p..], i, Ws);
    HeaderShift(s, p, w);
    SkipShift(s, p, w + HeaderAt(s[p..], w).len, Ws);
    if BodyAt(s, p + i).params != 0 {
      CleanShift(s, p, DataStart(s[p..], i));
    }
  }

  lemma SomethingLeft(s: seq<char>, i: nat)
    requires i <= |s| && GoodBody(s, i)
    ensures i < |s|
  {
    hide BodyAt, DataStart;
  }

  lemma {:induction false} GoodShift(s: seq<char>, p: nat, i: nat)
    requires p + i <= |s| && GoodLine(s, p + i)
    ensures GoodLine(s[p..], i)
    decreases |s| - p - i
  {
    hide UnitAt, GoodBody;
    UnitShift(s, p, i);
    GoodBodyShift(s, p, i);
    SomethingLeft(s, p + i);
    if !UnitAt(s[p..], i).term.TermNl? {
      GoodShift(s, p, UnitAt(s[p..], i).next);
    }
  }

  /** What the rest of a text from `p` on holds. */
  lemma {:induction false} LineShift(s: seq<char>, p: nat, i: nat)
    requires p + i <= |s|
    ensures Scan(s, p + i) == match Scan(s[p..], i) { case None => None case Some(e) => Some(p + e) }
    ensures TextEnd(s, p + i) == p + TextEnd(s[p..], i)
    ensures Commands(s, p + i) == [] <==> Commands(s[p..], i) == []
    decreases |s| - p - i
  {
    hide UnitAt, BodyAt;
    UnitShift(s, p, i);
    BodyShift(s, p, i);
    var u := UnitAt(s[p..], i);
    if p + u.next < |s| {
      LineShift(s, p, u.next);
    }
  }

  lemma GoodAgain(r: seq<char>, e: nat)
    requires e <= |r| && GoodLine(r, 0) && Scan(r, 0) == Some(e) && GoodStream(r[e..])
    ensures GoodStream(r)
  {
    hide Scan, GoodLine;
  }

  /** The stream goes on good behind `p` when the rest of its first line is good. */
  lemma Restart(s: seq<char>, p: nat, e: nat)
    requires s != [] && GoodStream(s) && Scan(s, 0) == Some(e)
    requires p <= |s| && GoodLine(s, p) && Scan(s, p) == Some(e)
    ensures p < e && GoodStream(s[p..]) && Scan(s[p..], 0) == Some(e - p)
    ensures s[p..][..e - p] == s[p..e] && s[p..][e - p..] == s[e..]
    ensures Jobs(Drain(s[p..]).0) == JobOf(s[p..e]) + Jobs(Drain(s[e..]).0)
  {
    hide Scan, GoodLine, GoodStream, Drain, Jobs, JobOf, TextEnd, Commands;
    var r := s[p..];
    ScanBoundNext(s, p);
    LineShift(s, p, 0);
    GoodShift(s, p, 0);
    GoodRest(s, e);
    assert r[e - p..] == s[e..];
    assert r[..e - p] == s[p..e];
    GoodAgain(r, e - p);
    DrainStep(r, e - p);
    JobsOne(s[p..e], Drain(s[e..]).0);
  }

  /** The rest of a line: its text and whether it has commands. */
  lemma RestOfLine(s: seq<char>, p: nat, e: nat)
    requires p <= e <= |s|
    ensures TextEnd(s[..e], p) == p + TextEnd(s[p..e], 0)
    ensures Commands(s[..e], p) == [] <==> Commands(s[p..e], 0) == []
  {
    hide TextEnd, Commands;
    LineShift(s[..e], p, 0);
    assert s[..e][p..] == s[p..e];
  }

  /** A blank beginning of a line has no commands, and leaves the others to the rest. */
  lemma BlankBeginning(s: seq<char>, p: nat, e: nat)
    requires s != [] && GoodStream(s) && Scan(s, 0) == Some(e) && p < e && Blank(s, 0, p)
    ensures GoodStream(s[p..]) && Scan(s[p..], 0) == Some(e - p)
    ensures s[p..][..e - p] == s[p..e] && s[p..][e - p..] == s[e..]
    ensures JobOf(s[..p]) == []
    ensures Jobs(Drain(s[p..]).0) == JobOf(s[p..e]) + Jobs(Drain(s[e..]).0)
    ensures TextEnd(s[..e], 0) == p + TextEnd(s[p..e], 0)
    ensures Commands(s[..e], 0) == [] <==> Commands(s[p..e], 0) == []
  {
    hide Scan, GoodLine, Drain, Jobs, TextEnd, Commands;
    GoodRest(s, e);
    BlankFront(s, 0, p);
    Restart(s, p, e);
    BlankFront(s[..e], 0, p);
    RestOfLine(s, p, e);
    BlankFront(s[..p], 0, p);
    NothingBehind(s[..p]);
  }

  lemma NothingBehind(b: seq<char>)
    ensures Commands(b, |b|) == []
  {
    BareUnit(b, |b|);
    assert SkipWhile(b, |b|, Ws) == |b|;
  }

  /** The text of a line without its newline has the commands of the line. */
  lemma {:induction false} TextCommands(s: seq<char>, i: nat, e: nat, n: nat)
    requires i <= |s| && GoodLine(s, i) && Scan(s, i) == Some(e) && n == TextEnd(s[..e], i) && i <= n
    ensures Commands(s[..n], i) == Commands(s[..e], i) && TextEnd(s[..n], i) == n
    decreases |s| - i
  {
    hide UnitAt, BodyAt, GoodBody, EolEnd, CommandAt;
    var u := UnitAt(s, i);
    ScanBound(s, i);
    UnitSame(s, e, i);
    LineTail(s, i, e);
    if u.term.TermNl? {
      LastCommand(s, i, e, n);
    } else {
      ScanBoundNext(s, u.next);
      TextEndBehind(s[..e], u.next);
      UnitSame(s, n, i);
      SameCommandAt(s, i, e, n);
      TextCommands(s, u.next, e, n);
      NothingBehind(s[..n]);
      assert u.next == n ==> Commands(s[..n], i) == CommandAt(s[..n], i) + Commands(s[..n], u.next);
    }
  }

  lemma SameCommandAt(s: seq<char>, i: nat, e: nat, n: nat)
    requires i <= |s| && e <= |s| && n <= |s| && i <= e && i <= n
    requires UnitAt(s[..n], i) == UnitAt(s[..e], i) && !UnitAt(s[..n], i).term.TermNl?
    ensures CommandAt(s[..n], i) == CommandAt(s[..e], i)
  {
    hide UnitAt;
  }

  /** The last unit of a line, with its newline and without. */
  lemma LastCommand(s: seq<char>, i: nat, e: nat, n: nat)
    requires i <= n < e <= |s| && GoodLine(s, i) && UnitAt(s, i).term.TermNl? && UnitAt(s, i).next == e
    requires n == TextEnd(s[..e], i) && UnitAt(s[..e], i) == UnitAt(s, i)
    ensures Commands(s[..n], i) == Commands(s[..e], i) && TextEnd(s[..n], i) == n
  {
    hide BodyAt, GoodBody;
    BodyBefore(s, i);
    BodySame(s, e, i);
    NewlineUnit(s, i);
    BodySame(s, n, i);
  }

  /** At the newline of a line. */
  lemma AtNewline(s: seq<char>, n: nat, e: nat)
    requires n < |s| && IsEol(s[n]) && EolEnd(s, n) == e
    ensures Scan(s, n) == Some(e) && GoodLine(s, n) && Commands(s[..e], n) == []
  {
    hide EolEnd;
    assert SkipWhile(s, n, Ws) == n && SkipWhile(s[..e], n, Ws) == n;
    BareUnit(s, n);
    BareUnit(s[..e], n);
    NewlineCut(s, n, e);
  }

  lemma NewlineCut(s: seq<char>, n: nat, e: nat)
    requires n < |s| && IsEol(s[n]) && EolEnd(s, n) == e
    ensures n < e && EolEnd(s[..e], n) == e
  {
  }

  /** The text of a line without its newline does the job of the line, and the newline does none. */
  lemma WholeText(s: seq<char>, n: nat, e: nat)
    requires s != [] && GoodStream(s) && Scan(s, 0) == Some(e) && n == TextEnd(s[..e], 0)
    ensures n < e && GoodStream(s[n..]) && JobOf(s[..n]) == JobOf(s[..e])
    ensures Scan(s[n..], 0) == Some(e - n) && s[n..][e - n..] == s[e..]
    ensures Jobs(Drain(s[n..]).0) == Jobs(Drain(s[e..]).0)
  {
    hide Scan, GoodLine, Drain, Jobs, TextEnd, Commands, EolEnd;
    GoodRest(s, e);
    LineTail(s, 0, e);
    TextCommands(s, 0, e, n);
    assert s[..n][..n] == s[..e][..n];
    AtNewline(s, n, e);
    Restart(s, n, e);
    RestOfLine(s, n, e);
    assert JobOf(s[n..e]) == [];
  }

  /** The buffer holds a non-empty part of the text, not the whole, of a line that has commands. */
  predicate Breaks(b: seq<char>, s: seq<char>) {
    && b != [] && Scan(s, 0).Some?
    && var line := s[..Scan(s, 0).value];
       |b| < TextEnd(line, 0) && Commands(line, 0) != []
  }

  /** No chunk without characters arrives while the buffer `b` holds such a part. */
  predicate Harmless(b: seq<char>, chunks: seq<seq<char>>)
    decreases |chunks|
  {
    chunks == []
    || ((chunks[0] == [] ==> !Breaks(b, b + Flatten(chunks))) && Harmless(FeedOne(b, chunks[0]).1, chunks[1..]))
  }

  /** What waits in the buffer of a good stream, when it is forced. */
  lemma Waiting(b: seq<char>, r: seq<char>) returns (e: nat)
    requires GoodStream(b + r) && Scan(b, 0).None? && b != []
    ensures Scan(b + r, 0) == Some(e) && |b| < e <= |b + r| && |b| <= TextEnd((b + r)[..e], 0)
    ensures (b + r)[..|b|] == b && (b + r)[|b|..] == r
  {
    hide Scan, GoodLine, TextEnd;
    var s := b + r;
    e := Scan(s, 0).value;
    GoodRest(s, e);
    assert s[..|b|] == b && s[|b|..] == r;
    if e <= |b| {
      ScanSame(s, |b|, 0, e);
    }
    PartOfLine(s, |b|, e);
  }

  lemma BlankText(b: seq<char>)
    requires Scan(b, 0).None? && JobOf(b) == []
    ensures Blank(b, 0, |b|)
  {
    hide Scan, TextEnd, Commands;
    NoHeaders(b, 0);
  }

  /** The beginning of a line without commands is blank. */
  lemma BlankLine(s: seq<char>, n: nat, e: nat)
    requires GoodLine(s, 0) && Scan(s, 0) == Some(e) && Commands(s[..e], 0) == [] && n <= TextEnd(s[..e], 0)
    ensures Blank(s, 0, n)
  {
    hide GoodLine, Scan, TextEnd, Commands;
    ScanSame(s, e, 0, e);
    NoHeaders(s[..e], 0);
    assert forall q | 0 <= q < n :: s[..e][q] == s[q];
  }

  /** Forcing the parser does no harm when no line is broken. */
  lemma ForcedJobs(b: seq<char>, r: seq<char>)
    requires GoodStream(b + r) && Scan(b, 0).None? && !Breaks(b, b + r)
    ensures GoodStream(r) && JobOf(b) + Jobs(Drain(r).0) == Jobs(Drain(b + r).0)
    ensures b != [] ==>
              && Scan(b + r, 0).Some? && |b| < Scan(b + r, 0).value
              && var k := Scan(b + r, 0).value - |b|;
                 Scan(r, 0) == Some(k) && r[k..] == (b + r)[k + |b|..]
  {
    hide Scan, GoodLine, GoodStream, Drain, Jobs, TextEnd, Commands;
    var s := b + r;
    if b == [] {
      assert s == r;
      NoJob();
    } else {
      var e := Waiting(b, r);
      GoodRest(s, e);
      DrainStep(s, e);
      JobsOne(s[..e], Drain(s[e..]).0);
      if Commands(s[..e], 0) == [] {
        BlankLine(s, |b|, e);
        BlankBeginning(s, |b|, e);
        assert JobOf(s[..e]) == [] && JobOf(s[|b|..e]) == [];
      } else {
        WholeText(s, |b|, e);
      }
    }
  }

  lemma NoJob()
    ensures JobOf([]) == []
  {
    NothingBehind([]);
  }

  /** A first job whose text has at most `m` characters. */
  ghost predicate ShortFirstJob(jobs: seq<Job>, m: nat) {
    jobs != [] && |jobs[0].text| <= m
  }

  lemma ShortJoin(a: seq<Job>, b: seq<Job>, m: nat)
    requires ShortFirstJob(a, m) || (a == [] && ShortFirstJob(b, m))
    ensures ShortFirstJob(a + b, m)
  {
  }

  lemma JobText(line: seq<char>)
    ensures JobOf(line) != [] ==> ShortFirstJob(JobOf(line), |line|)
    ensures JobOf(line) != [] ==> |JobOf(line)[0].text| == TextEnd(line, 0)
    ensures JobOf(line) == [] <==> Commands(line, 0) == []
  {
    hide TextEnd, Commands;
  }

  /** Forced on a part of a line with commands, the parser does a job on that part, or leaves the rest of the line. */
  lemma BrokenJob(b: seq<char>, r: seq<char>, e: nat)
    requires GoodStream(b + r) && Scan(b, 0).None? && b != [] && Scan(b + r, 0) == Some(e)
    requires Commands((b + r)[..e], 0) != []
    ensures |b| <= TextEnd((b + r)[..e], 0)
    ensures JobOf(b) != [] ==> ShortFirstJob(JobOf(b), |b|)
    ensures JobOf(b) == [] ==>
              && GoodStream(r) && |b| < e && Scan(r, 0) == Some(e - |b|) && Commands(r[..e - |b|], 0) != []
              && TextEnd((b + r)[..e], 0) == |b| + TextEnd(r[..e - |b|], 0)
  {
    hide Scan, GoodLine, GoodStream, Drain, Jobs, TextEnd, Commands, JobOf;
    var s := b + r;
    var f := Waiting(b, r);
    JobText(b);
    if JobOf(b) == [] {
      BlankText(b);
      assert forall q | 0 <= q < |b| :: s[q] == b[q];
      BlankBeginning(s, |b|, e);
    }
  }

  /** The first line that is parsed, with its newline or without the line feed. */
  lemma FirstParsed(s: seq<char>, n: nat, e: nat)
    requires s != [] && GoodStream(s) && n <= |s| && Scan(s, 0) == Some(e) && Commands(s[..e], 0) != []
    requires Scan(s[..n], 0).Some?
    ensures ShortFirstJob(Jobs(Drain(s[..n]).0), TextEnd(s[..e], 0))
  {
    hide Scan, GoodLine, GoodStream, Drain, Jobs, TextEnd, Commands, JobOf, ShortFirstJob;
    GoodRest(s, e);
    var m := if e <= n then e else n;
    if e <= n {
      ScanSame(s, n, 0, e);
    } else {
      ScanLate(s, n, 0, e);
      JobSame(s, e, n);
    }
    DrainStep(s[..n], m);
    assert s[..n][..m] == s[..m];
    JobsOne(s[..m], Drain(s[..n][m..]).0);
    TextBound(s[..e]);
    ShortJoin(JobOf(s[..m]), Jobs(Drain(s[..n][m..]).0), TextEnd(s[..e], 0));
  }

  lemma TextBound(line: seq<char>)
    requires Commands(line, 0) != []
    ensures ShortFirstJob(JobOf(line), TextEnd(line, 0))
  {
    hide TextEnd, Commands;
  }

  lemma ShortMore(jobs: seq<Job>, k: nat, m: nat)
    requires ShortFirstJob(jobs, k) && k <= m
    ensures ShortFirstJob(jobs, m)
  {
  }

  /** One forced line in front. */
  lemma ForcedFirst(b: seq<char>, chunks: seq<seq<char>>)
    requires chunks != [] && chunks[0] == []
    ensures b + Flatten(chunks) == b + Flatten(chunks[1..])
    ensures FeedAll(b, chunks) == ([b] + FeedAll([], chunks[1..]).0, FeedAll([], chunks[1..]).1)
    ensures Jobs(FeedAll(b, chunks).0) == JobOf(b) + Jobs(FeedAll([], chunks[1..]).0)
    ensures [] + Flatten(chunks[1..]) == Flatten(chunks[1..])
  {
    hide JobOf, Jobs, FeedAll;
    ForcedOnce(b, chunks);
    JobsOne(b, FeedAll([], chunks[1..]).0);
  }

  /** However a good line with commands is fed, the first job's text is not longer than that of the line. */
  lemma {:induction false} FirstJob(b: seq<char>, chunks: seq<seq<char>>, e: nat)
    requires GoodStream(b + Flatten(chunks)) && Scan(b, 0).None?
    requires Scan(b + Flatten(chunks), 0) == Some(e) && Commands((b + Flatten(chunks))[..e], 0) != []
    ensures ShortFirstJob(Jobs(FeedAll(b, chunks).0), TextEnd((b + Flatten(chunks))[..e], 0))
    decreases |chunks|
  {
    hide Scan, GoodLine, GoodStream, Drain, Jobs, TextEnd, Commands, JobOf, FeedOne, FeedAll, ShortFirstJob, Pending;
    var s := b + Flatten(chunks);
    EmptyBuffer();
    if chunks == [] {
      NothingFed(b);
      assert false;
    } else if chunks[0] == [] {
      ForcedFirst(b, chunks);
      var r, t := Flatten(chunks[1..]), TextEnd(s[..e], 0);
      var later := Jobs(FeedAll([], chunks[1..]).0);
      if b == [] {
        NoJob();
        assert s == [] + r;
        FirstJob([], chunks[1..], e);
      } else {
        BrokenJob(b, r, e);
        if JobOf(b) == [] {
          FirstJob([], chunks[1..], e - |b|);
          ShortMore(later, TextEnd(r[..e - |b|], 0), t);
        } else {
          ShortMore(JobOf(b), |b|, t);
        }
      }
      ShortJoin(JobOf(b), later, t);
    } else {
      var n := |b| + |chunks[0]|;
      FirstChunk(b, chunks);
      var rest := Drain(s[..n]).1;
      JobsJoin(Drain(s[..n]).0, FeedAll(rest, chunks[1..]).0);
      if Scan(s[..n], 0).Some? {
        FirstParsed(s, n, e);
      } else {
        NothingParsed(s, n);
        DrainNone(s[..n]);
        NoJobs();
        assert rest + Flatten(chunks[1..]) == s;
        FirstJob(rest, chunks[1..], e);
      }
      ShortJoin(Jobs(Drain(s[..n]).0), Jobs(FeedAll(rest, chunks[1..]).0), TextEnd(s[..e], 0));
    }
  }

  /** A broken line cannot be made good: its first job is too short. */
  lemma BrokenJobs(b: seq<char>, chunks: seq<seq<char>>)
    requires chunks != [] && chunks[0] == [] && GoodStream(b + Flatten(chunks)) && Scan(b, 0).None?
    requires Breaks(b, b + Flatten(chunks))
    ensures Jobs(FeedAll(b, chunks).0) != Jobs(Drain(b + Flatten(chunks)).0)
  {
    hide Scan, GoodLine, GoodStream, Drain, Jobs, TextEnd, Commands, JobOf, FeedAll, ShortFirstJob;
    ForcedFirst(b, chunks);
    var s, r := b + Flatten(chunks), Flatten(chunks[1..]);
    var e := Waiting(b, r);
    BrokenJob(b, r, e);
    var t, later := TextEnd(s[..e], 0), Jobs(FeedAll([], chunks[1..]).0);
    EmptyBuffer();
    if JobOf(b) == [] {
      FirstJob([], chunks[1..], e - |b|);
      ShortMore(later, TextEnd(r[..e - |b|], 0), t - 1);
    } else {
      ShortMore(JobOf(b), |b|, t - 1);
    }
    ShortJoin(JobOf(b), later, t - 1);
    DrainStep(s, e);
    JobsOne(s[..e], Drain(s[e..]).0);
    WholeFirst(s[..e], Jobs(Drain(s[e..]).0));
  }

  lemma WholeFirst(line: seq<char>, later: seq<Job>)
    requires Commands(line, 0) != []
    ensures TextEnd(line, 0) > 0 ==> !ShortFirstJob(JobOf(line) + later, TextEnd(line, 0) - 1)
  {
    hide TextEnd, Commands;
  }

  lemma Cancel(a: seq<Job>, x: seq<Job>, y: seq<Job>)
    ensures a + x == a + y <==> x == y
  {
    if a + x == a + y {
      assert x == (a + x)[|a|..] && y == (a + y)[|a|..];
    }
  }

  /**
   From a buffer `b` on: the jobs of the stream are done if and only if no line is broken, and
   then nothing stays in the buffer.
   */
  lemma {:induction false} FeedJobs(b: seq<char>, chunks: seq<seq<char>>)
    requires GoodStream(b + Flatten(chunks)) && Scan(b, 0).None?
    ensures Jobs(FeedAll(b, chunks).0) == Jobs(Drain(b + Flatten(chunks)).0) <==> Harmless(b, chunks)
    ensures Harmless(b, chunks) ==> FeedAll(b, chunks).1 == []
    decreases |chunks|
  {
    hide Scan, GoodLine, GoodStream, JobOf, Jobs, Drain, FeedAll, FeedOne, Pending, Breaks, CutsNewline;
    var s := b + Flatten(chunks);
    EmptyBuffer();
    if chunks == [] {
      NothingFed(b);
      DrainWhole(b);
      DrainNone(b);
    } else if chunks[0] == [] {
      ForcedFirst(b, chunks);
      ForcedBuffer(b);
      var r := Flatten(chunks[1..]);
      if Breaks(b, s) {
        BrokenJobs(b, chunks);
      } else {
        ForcedJobs(b, r);
        FeedJobs([], chunks[1..]);
        Cancel(JobOf(b), Jobs(FeedAll([], chunks[1..]).0), Jobs(Drain(r).0));
      }
    } else {
      var n := |b| + |chunks[0]|;
      FirstChunk(b, chunks);
      DrainCut(s, n);
      DrainKeeps(s[..n]);
      var early, rest := Drain(s[..n]).0, Drain(s[..n]).1;
      FeedJobs(rest, chunks[1..]);
      JobsJoin(early, FeedAll(rest, chunks[1..]).0);
      Cancel(Jobs(early), Jobs(FeedAll(rest, chunks[1..]).0), Jobs(Drain(Pending(s, n)).0));
    }
  }

  lemma ForcedBuffer(b: seq<char>)
    ensures FeedOne(b, []) == ([b], [])
  {
  }

  /**
   In any chunking a well-formed stream has the jobs that it has when it arrives whole, if and
   only if no chunk without characters arrives while the buffer holds a part of the text of a
   line with commands. Nothing stays in the buffer then.
   */
  lemma ChunksDoNotMatter(chunks: seq<seq<char>>)
    requires GoodStream(Flatten(chunks))
    ensures Jobs(FeedAll([], chunks).0) == Jobs(Drain(Flatten(chunks)).0) <==> Harmless([], chunks)
    ensures Harmless([], chunks) ==> FeedAll([], chunks).1 == []
  {
    hide Harmless, Scan, GoodStream, FeedAll, Drain, Jobs, Flatten;
    assert [] + Flatten(chunks) == Flatten(chunks);
    EmptyBuffer();
    FeedJobs([], chunks);
  }

  /** Without such chunks there is nothing to break. */
  lemma {:induction false} NonEmptyHarmless(b: seq<char>, chunks: seq<seq<char>>)
    requires NonEmpty(chunks)
    ensures Harmless(b, chunks)
    decreases |chunks|
  {
    hide FeedOne, Breaks;
    if chunks != [] {
      assert forall k | 0 <= k < |chunks[1..]| :: chunks[1..][k] == chunks[k + 1];
      NonEmptyHarmless(FeedOne(b, chunks[0]).1, chunks[1..]);
    }
  }

  /** An empty chunk does matter: it forces the parser on `A` before `B` has arrived. */
  lemma EmptyChunkMatters()
    ensures FeedAll([], ["A", [], "B\n"]).0 != Drain(Flatten(["A", [], "B\n"])).0
  {
    hide Scan;
    NoLine("A", 0);
    assert [] + "A" == "A" && FeedOne([], "A") == ([], "A");
    assert ["A", [], "B\n"][1..] == [[], "B\n"] && [[], "B\n"][1..] == ["B\n"];
    assert Flatten(["B\n"]) == "B\n" && Flatten([[], "B\n"]) == "B\n" && Flatten(["A", [], "B\n"]) == "AB\n";
    var late := FeedAll([], ["B\n"]).0;
    assert FeedAll([], ["A", [], "B\n"]).0 == [] + (["A"] + late);
    var b := "AB\n";
    if Scan(b, 0).Some? {
      var e := Scan(b, 0).value;
      LineEnds(b, 0);
      DrainStep(b, e);
      assert Drain(b).0[0] == b[..e] != "A";
    } else {
      DrainNone(b);
    }
  }

  lemma ShortOnce(s: seq<char>, m: nat)
    requires s != []
    ensures ShortLines(s, m) <==> Scan(s, 0).Some? && Scan(s, 0).value <= m && ShortLines(s[Scan(s, 0).value..], m)
  {
    hide Scan;
  }

  lemma ShortForced(b: seq<char>, r: seq<char>, m: nat)
    requires GoodStream(b + r) && Scan(b, 0).None? && !Breaks(b, b + r) && ShortLines(b + r, m)
    ensures GoodStream(r) && ShortLines(r, m)
  {
    hide Scan, GoodLine, GoodStream, Breaks, Drain, Jobs, JobOf, Harmless, ShortLines;
    var s := b + r;
    ForcedJobs(b, r);
    if b == [] {
      assert s == r;
    } else {
      var e := Scan(s, 0).value;
      ShortOnce(s, m);
      assert r[e - |b|..] == s[e..];
      ShortOnce(r, m);
    }
  }

  /** Room for the longest line and the longest chunk is enough. */
  lemma {:induction false} NeverOverruns(b: seq<char>, chunks: seq<seq<char>>, m: nat, k: nat, room: nat)
    requires GoodStream(b + Flatten(chunks)) && ShortLines(b + Flatten(chunks), m) && Harmless(b, chunks)
    requires Scan(b, 0).None? && |b| <= m && 0 < m && m + k < room
    requires ShortChunks(chunks, k)
    ensures Fits(b, chunks, room)
    decreases |chunks|
  {
    hide GoodStream, Drain, ShortLines, Pending, FeedAll, FeedOne, ShortChunks, Jobs, CutsNewline, Breaks, Scan;
    if chunks != [] {
      ShortFirst(chunks, k);
      if chunks[0] == [] {
        var r := Flatten(chunks[1..]);
        ForcedBuffer(b);
        EmptyBuffer();
        assert b + Flatten(chunks) == b + r && [] + r == r;
        ShortForced(b, r, m);
        NeverOverruns([], chunks[1..], m, k, room);
      } else {
        var s, n := b + Flatten(chunks), |b| + |chunks[0]|;
        FirstChunk(b, chunks);
        ShortRest(s, n, m);
        DrainCut(s, n);
        DrainKeeps(s[..n]);
        NeverOverruns(Drain(s[..n]).1, chunks[1..], m, k, room);
      }
    }
  }
}
