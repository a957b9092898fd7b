/** Cutting a stream into chunks: what it changes, and what it does not. */
module Streams {
  import opened Wrappers
  import opened LexSpec
  import opened Framing

  lemma JobSame(s: seq<char>, e: nat, m: nat)
    requires m <= e <= |s| && GoodLine(s, 0) && Scan(s, 0) == Some(e) && SameLine(s, 0, e, m)
    ensures JobOf(s[..m]) == JobOf(s[..e])
  {
    hide GoodLine, Scan, Commands, TextEnd;
    CommandsSame(s, 0, e, m);
    var x := TextEnd(s[..m], 0);
    assert s[..m][..x] == s[..e][..x];
  }

  /** A line feed alone is a line without commands. */
  lemma LineFeed(t: seq<char>)
    requires t != [] && t[0] == '\n'
    ensures UnitAt(t, 0) == Unit(Token(TokUnknown, 0, 0), Token(TokUnknown, 0, 0), 0, TermNl, 1)
    ensures Scan(t, 0) == Some(1) && GoodLine(t, 0) && JobOf(t[..1]) == []
  {
    hide DataAt, CompoundTail;
    LineFeedUnit(t);
    LineFeedUnit(t[..1]);
  }

  lemma LineFeedUnit(t: seq<char>)
    requires t != [] && t[0] == '\n'
    ensures BodyAt(t, 0) == Body(Token(TokUnknown, 0, 0), Token(TokUnknown, 0, 0), 0, 0)
    ensures UnitAt(t, 0) == Unit(Token(TokUnknown, 0, 0), Token(TokUnknown, 0, 0), 0, TermNl, 1)
  {
    hide DataAt, CompoundTail;
  }

  lemma DrainStep(b: seq<char>, e: nat)
    requires Scan(b, 0) == Some(e)
    ensures Drain(b) == ([b[..e]] + Drain(b[e..]).0, Drain(b[e..]).1)
  {
    hide Scan;
  }

  /** A well-formed stream that arrives whole is parsed whole. */
  lemma {:induction false} DrainWhole(s: seq<char>)
    requires GoodStream(s)
    ensures Drain(s).1 == []
    decreases |s|
  {
    hide Scan, GoodLine;
    if s == [] {
      EmptyBuffer();
    } else {
      DrainWhole(s[Scan(s, 0).value..]);
    }
  }

  lemma EmptyBuffer()
    ensures Scan([], 0).None? && Drain([]) == ([], [])
  {
    NoLine([], 0);
  }

  /** The stream still to be parsed once the first `n` characters have arrived. */
  function Pending(s: seq<char>, n: nat): seq<char>
    requires n <= |s|
  {
    Drain(s[..n]).1 + s[n..]
  }

  lemma JobsOne(line: seq<char>, rest: seq<seq<char>>)
    ensures Jobs([line] + rest) == JobOf(line) + Jobs(rest)
    ensures Jobs([line]) == JobOf(line)
  {
    hide JobOf;
    assert ([line] + rest)[1..] == rest;
  }

  lemma AfterSplit(s: seq<char>, n: nat)
    requires Splits(s, n) && Scan(s[..n], 0) == Some(n)
    ensures Drain(s[..n]) == ([s[..n]], []) && Pending(s, n) == s[n..]
  {
    hide Scan, Drain;
    EmptyBuffer();
    DrainStep(s[..n], n);
    assert s[..n][..n] == s[..n] && s[..n][n..] == [];
    assert [s[..n]] + [] == [s[..n]];
  }

  /** The line feed that is left over is a line of its own. */
  lemma SplitPending(s: seq<char>, n: nat)
    requires Splits(s, n) && GoodStream(s[n + 1..])
    ensures GoodStream(s[n..]) && JobOf(s[n..][..1]) == []
    ensures Drain(s[n..]).0 == [s[n..][..1]] + Drain(s[n + 1..]).0
  {
    hide Scan, GoodLine, JobOf;
    var t := s[n..];
    LineFeed(t);
    DrainStep(t, 1);
    assert t[1..] == s[n + 1..];
  }

  lemma GoodRest(s: seq<char>, e: nat)
    requires s != [] && GoodStream(s) && Scan(s, 0) == Some(e)
    ensures GoodLine(s, 0) && GoodStream(s[e..])
  {
    hide Scan, GoodLine;
  }

  lemma CutInNewline(s: seq<char>, n: nat, e: nat)
    requires s != [] && GoodStream(s) && n <= |s| && Scan(s, 0) == Some(e)
    requires e == n + 1 && Splits(s, n) && Scan(s[..n], 0) == Some(n)
    ensures GoodStream(Pending(s, n))
    ensures Jobs(Drain(s[..n]).0) + Jobs(Drain(Pending(s, n)).0) == Jobs(Drain(s).0)
    ensures |Drain(s[..n]).0| + |Drain(Pending(s, n)).0| == |Drain(s).0| + 1
  {
    hide Scan, GoodLine, JobOf, Jobs, Drain, GoodStream, Pending;
    GoodRest(s, e);
    AfterSplit(s, n);
    SplitPending(s, n);
    DrainStep(s, e);
    JobSame(s, e, n);
    JobsOne(s[..n], []);
    JobsOne(s[n..][..1], Drain(s[e..]).0);
    JobsOne(s[..e], Drain(s[e..]).0);
  }

  /** The cut falls between the carriage return and the line feed that end a line. */
  predicate CutsNewline(s: seq<char>, n: nat)
    requires n <= |s|
    decreases |s|
  {
    && s != [] && Scan(s, 0).Some?
    && var e := Scan(s, 0).value;
       if e <= n then CutsNewline(s[e..], n - e) else e == n + 1 && TextEnd(s[..e], 0) + 1 == n
  }

  lemma CutsOnce(s: seq<char>, n: nat, e: nat)
    requires n <= |s| && Scan(s, 0) == Some(e)
    ensures CutsNewline(s, n) == if e <= n then CutsNewline(s[e..], n - e) else e == n + 1 && TextEnd(s[..e], 0) + 1 == n
  {
    hide Scan, TextEnd;
  }

  /**
   One cut loses nothing: the lines parsed before it and the lines still to come do the same jobs.
   They are the same lines, but for a newline that the cut falls into: that one gives a line more.
   */
  lemma {:induction false} DrainCut(s: seq<char>, n: nat)
    requires GoodStream(s) && n <= |s|
    ensures GoodStream(Pending(s, n))
    ensures Jobs(Drain(s[..n]).0) + Jobs(Drain(Pending(s, n)).0) == Jobs(Drain(s).0)
    ensures CutsNewline(s, n) ==> |Drain(s[..n]).0| + |Drain(Pending(s, n)).0| == |Drain(s).0| + 1
    ensures !CutsNewline(s, n) ==> Drain(s[..n]).0 + Drain(Pending(s, n)).0 == Drain(s).0
    decreases |s|
  {
    hide Scan, GoodLine, JobOf, CutsNewline;
    if s == [] {
      EmptyBuffer();
      NoNewline(n);
    } else {
      var e := Scan(s, 0).value;
      CutsOnce(s, n, e);
      if e <= n {
        CutBehindLine(s, n, e);
      } else {
        ScanLate(s, n, 0, e);
        if e == n + 1 {
          ScanSplit(s, 0, n);
        }
        if Scan(s[..n], 0).None? {
          assert Pending(s, n) == s;
        } else {
          CutInNewline(s, n, e);
        }
      }
    }
  }

  lemma NoNewline(n: nat)
    requires n == 0
    ensures !CutsNewline([], n)
  {
  }

  lemma BehindLine(s: seq<char>, n: nat, e: nat)
    requires n <= |s| && Scan(s[..n], 0) == Some(e) && e <= n
    ensures Drain(s[..n]).0 == [s[..e]] + Drain(s[e..][..n - e]).0
    ensures Pending(s, n) == Pending(s[e..], n - e)
  {
    hide Scan, Drain;
    DrainStep(s[..n], e);
    assert s[..n][e..] == s[e..][..n - e];
    assert s[..n][..e] == s[..e];
    assert s[e..][n - e..] == s[n..];
  }

  lemma CutBehindLine(s: seq<char>, n: nat, e: nat)
    requires s != [] && GoodStream(s) && n <= |s| && Scan(s, 0) == Some(e) && e <= n
    ensures GoodStream(Pending(s, n))
    ensures Jobs(Drain(s[..n]).0) + Jobs(Drain(Pending(s, n)).0) == Jobs(Drain(s).0)
    ensures CutsNewline(s[e..], n - e) ==> |Drain(s[..n]).0| + |Drain(Pending(s, n)).0| == |Drain(s).0| + 1
    ensures !CutsNewline(s[e..], n - e) ==> Drain(s[..n]).0 + Drain(Pending(s, n)).0 == Drain(s).0
    decreases |s|, 0
  {
    hide Scan, GoodLine, JobOf, Jobs, Drain, GoodStream, Pending, CutsNewline;
    GoodRest(s, e);
    ScanSame(s, n, 0, e);
    BehindLine(s, n, e);
    DrainStep(s, e);
    DrainCut(s[e..], n - e);
    var early, late := Drain(s[e..][..n - e]).0, Drain(Pending(s, n)).0;
    JobsOne(s[..e], early);
    JobsOne(s[..e], Drain(s[e..]).0);
    assert ([s[..e]] + early) + late == [s[..e]] + (early + late);
    assert JobOf(s[..e]) + (Jobs(early) + Jobs(late)) == (JobOf(s[..e]) + Jobs(early)) + Jobs(late);
  }

  /** No chunk is empty. */
  predicate NonEmpty(chunks: seq<seq<char>>) {
    forall k | 0 <= k < |chunks| :: chunks[k] != []
  }

  /** The chunks of a pending stream: the first, and those of the stream pending after it. */
  lemma FirstChunk(b: seq<char>, chunks: seq<seq<char>>)
    requires chunks != [] && chunks[0] != []
    ensures var s, n := b + Flatten(chunks), |b| + |chunks[0]|;
            && s[..n] == b + chunks[0] && s[n..] == Flatten(chunks[1..])
            && (NonEmpty(chunks) ==> NonEmpty(chunks[1..]))
            && FeedOne(b, chunks[0]) == Drain(s[..n])
            && FeedAll(b, chunks).0 == Drain(s[..n]).0 + FeedAll(Drain(s[..n]).1, chunks[1..]).0
            && FeedAll(b, chunks).1 == FeedAll(Drain(s[..n]).1, chunks[1..]).1
            && (chunks[1..] == [] ==> s[..n] == s)
            && Pending(s, n) == Drain(s[..n]).1 + Flatten(chunks[1..])
  {
    hide Drain;
    var s, n := b + Flatten(chunks), |b| + |chunks[0]|;
    assert s[..n] == b + chunks[0];
    assert s[n..] == Flatten(chunks[1..]);
    assert forall k | 0 <= k < |chunks[1..]| :: chunks[1..][k] == chunks[k + 1];
  }

  lemma NothingFed(b: seq<char>)
    ensures FeedAll(b, []) == ([], b) && b + Flatten([]) == b
  {
  }

  /** A line ends in an end-of-line character. */
  lemma {:induction false} LineEnds(b: seq<char>, t: nat)
    requires t <= |b| && Scan(b, t).Some?
    ensures IsEol(b[Scan(b, t).value - 1])
    decreases |b| - t
  {
    hide UnitAt;
    UnitEnds(b, t);
    if !UnitAt(b, t).term.TermNl? {
      LineEnds(b, UnitAt(b, t).next);
    }
  }

  /** After one of the chunks a cut falls into a newline; `n` characters came before them. */
  predicate AnyCut(s: seq<char>, n: nat, chunks: seq<seq<char>>)
    requires n + |Flatten(chunks)| == |s|
    decreases |chunks|
  {
    chunks != [] && (CutsNewline(s, n + |chunks[0]|) || AnyCut(s, n + |chunks[0]|, chunks[1..]))
  }

  /** Later cuts fall into the same newlines of the pending stream. */
  lemma {:induction false} LaterCut(s: seq<char>, n: nat, m: nat)
    requires GoodStream(s) && n < m <= |s|
    ensures var c := |s| - |Pending(s, n)|; 0 <= c <= n && CutsNewline(Pending(s, n), m - c) == CutsNewline(s, m)
    decreases |s|
  {
    hide Scan, GoodLine, Drain, Pending, CutsNewline, TextEnd;
    var e := Scan(s, 0).value;
    CutsOnce(s, m, e);
    if e <= n {
      ScanSame(s, n, 0, e);
      BehindLine(s, n, e);
      LaterCut(s[e..], n - e, m - e);
    } else {
      ScanLate(s, n, 0, e);
      if Scan(s[..n], 0).None? {
        NothingParsed(s, n);
      } else {
        AfterSplit(s, n);
        LaterThanSplit(s, n, m);
      }
    }
  }

  lemma NothingParsed(s: seq<char>, n: nat)
    requires n <= |s| && Scan(s[..n], 0).None?
    ensures Pending(s, n) == s
  {
    hide Scan, Drain;
    DrainNone(s[..n]);
    PendingOf(s, n);
    assert s[..n] + s[n..] == s;
  }

  lemma LaterThanSplit(s: seq<char>, n: nat, m: nat)
    requires n < m <= |s| && s[n] == '\n'
    ensures CutsNewline(s[n..], m - n) == CutsNewline(s[n + 1..], m - n - 1)
  {
    hide Scan, CutsNewline, TextEnd;
    LineFeed(s[n..]);
    CutsOnce(s[n..], m - n, 1);
    assert s[n..][1..] == s[n + 1..];
  }

  lemma {:induction false} LaterCuts(s: seq<char>, n: nat, m: nat, chunks: seq<seq<char>>)
    requires GoodStream(s) && n <= m && m + |Flatten(chunks)| == |s| && NonEmpty(chunks)
    ensures var c := |s| - |Pending(s, n)|; 0 <= c <= n && AnyCut(Pending(s, n), m - c, chunks) == AnyCut(s, m, chunks)
    decreases |chunks|
  {
    hide Pending, CutsNewline, GoodStream;
    PendingLength(s, n);
    if chunks != [] {
      assert forall k | 0 <= k < |chunks[1..]| :: chunks[1..][k] == chunks[k + 1];
      LaterCut(s, n, m + |chunks[0]|);
      LaterCuts(s, n, m + |chunks[0]|, chunks[1..]);
    }
  }

  lemma PendingLength(s: seq<char>, n: nat)
    requires n <= |s|
    ensures |s| - n <= |Pending(s, n)| <= |s|
  {
    hide Drain;
    DrainShrinks(s[..n]);
  }

  lemma {:induction false} DrainShrinks(b: seq<char>)
    ensures |Drain(b).1| <= |b|
    decreases |b|
  {
    hide Scan;
    if Scan(b, 0).Some? {
      DrainShrinks(b[Scan(b, 0).value..]);
    }
  }

  /** A cut in a newline changes a line. */
  lemma {:induction false} CutShows(s: seq<char>, n: nat)
    requires GoodStream(s) && n <= |s| && CutsNewline(s, n)
    ensures var early, all := Drain(s[..n]).0, Drain(s).0;
            early != [] && |early| <= |all| && early[|early| - 1] != all[|early| - 1]
    decreases |s|
  {
    hide Scan, GoodLine, CutsNewline, Drain, TextEnd;
    LineCut(s, n);
    var e := Scan(s, 0).value;
    CutsOnce(s, n, e);
    DrainStep(s, e);
    if e <= n {
      ScanSame(s, n, 0, e);
      BehindLine(s, n, e);
      CutShows(s[e..], n - e);
    } else {
      ScanSplit(s, 0, n);
      ScanLate(s, n, 0, e);
      AfterSplit(s, n);
    }
  }

  lemma LineCut(s: seq<char>, n: nat)
    requires n <= |s| && CutsNewline(s, n)
    ensures s != [] && Scan(s, 0).Some?
  {
  }

  /** The lines of a first chunk, and those of the later ones. */
  lemma Diverges(early: seq<seq<char>>, fed: seq<seq<char>>, late: seq<seq<char>>, all: seq<seq<char>>, cut: bool)
    requires if cut then early != [] && |early| <= |all| && early[|early| - 1] != all[|early| - 1] else all == early + late
    ensures early + fed == all <==> !cut && fed == late
  {
    assert early != [] ==> (early + fed)[|early| - 1] == early[|early| - 1];
    assert fed == (early + fed)[|early|..] && late == (early + late)[|early|..];
  }

  lemma AnyCutOnce(s: seq<char>, n: nat, chunks: seq<seq<char>>)
    requires chunks != [] && n + |Flatten(chunks)| == |s|
    ensures n + |chunks[0]| + |Flatten(chunks[1..])| == |s| && n + |chunks[0]| <= |s|
    ensures AnyCut(s, n, chunks) <==> CutsNewline(s, n + |chunks[0]|) || AnyCut(s, n + |chunks[0]|, chunks[1..])
  {
    hide CutsNewline;
  }

  /** An empty chunk gives the parser something that is no line. */
  lemma ForcedShows(b: seq<char>, s: seq<char>, later: seq<seq<char>>)
    requires GoodStream(s) && Scan(b, 0).None? && |b| <= |s| && b == s[..|b|]
    ensures [b] + later != Drain(s).0
  {
    hide Scan, GoodLine, Drain;
    if s == [] {
      EmptyBuffer();
    } else {
      var e := Scan(s, 0).value;
      DrainStep(s, e);
      if [b] + later == Drain(s).0 {
        assert b == ([b] + later)[0] == s[..e];
        ScanSame(s, e, 0, e);
      }
    }
  }

  lemma NonEmptyOnce(chunks: seq<seq<char>>)
    requires chunks != []
    ensures NonEmpty(chunks) <==> chunks[0] != [] && NonEmpty(chunks[1..])
  {
    assert forall k | 0 <= k < |chunks[1..]| :: chunks[1..][k] == chunks[k + 1];
    assert forall k | 0 < k < |chunks| :: chunks[k] == chunks[1..][k - 1];
  }

  /** From a buffer `b` on: the same lines without an empty chunk or a cut newline, and only then. */
  lemma {:induction false} FeedLines(b: seq<char>, chunks: seq<seq<char>>)
    requires GoodStream(b + Flatten(chunks)) && Scan(b, 0).None?
    ensures FeedAll(b, chunks).0 == Drain(b + Flatten(chunks)).0
            <==> NonEmpty(chunks) && !AnyCut(b + Flatten(chunks), |b|, chunks)
    decreases |chunks|
  {
    hide GoodStream, Drain, FeedAll, Pending, CutsNewline, AnyCut, NonEmpty, Jobs, Scan;
    var s := b + Flatten(chunks);
    if chunks == [] {
      NothingFed(b);
      NoChunks(b);
      DrainNone(b);
    } else {
      NonEmptyOnce(chunks);
      if chunks[0] == [] {
        ForcedOnce(b, chunks);
        ForcedShows(b, s, FeedAll([], chunks[1..]).0);
      } else {
        FeedLinesOn(b, chunks);
      }
    }
  }

  lemma ForcedOnce(b: seq<char>, chunks: seq<seq<char>>)
    requires chunks != [] && chunks[0] == []
    ensures FeedAll(b, chunks) == ([b] + FeedAll([], chunks[1..]).0, FeedAll([], chunks[1..]).1)
  {
  }

  lemma FeedLinesOn(b: seq<char>, chunks: seq<seq<char>>)
    requires GoodStream(b + Flatten(chunks)) && Scan(b, 0).None? && chunks != [] && chunks[0] != []
    ensures FeedAll(b, chunks).0 == Drain(b + Flatten(chunks)).0
            <==> NonEmpty(chunks[1..]) && !AnyCut(b + Flatten(chunks), |b|, chunks)
    decreases |chunks|, 0
  {
    hide GoodStream, Drain, FeedAll, Pending, CutsNewline, AnyCut, NonEmpty, Jobs, Scan;
    var s, n := b + Flatten(chunks), |b| + |chunks[0]|;
    AnyCutOnce(s, |b|, chunks);
    FirstChunk(b, chunks);
    DrainCut(s, n);
    DrainKeeps(s[..n]);
    var early, rest := Drain(s[..n]).0, Drain(s[..n]).1;
    FeedLines(rest, chunks[1..]);
    if CutsNewline(s, n) {
      CutShows(s, n);
    }
    if NonEmpty(chunks[1..]) {
      LaterCuts(s, n, n, chunks[1..]);
    }
    Diverges(early, FeedAll(rest, chunks[1..]).0, Drain(Pending(s, n)).0, Drain(s).0, CutsNewline(s, n));
  }

  lemma NoChunks(b: seq<char>)
    ensures !AnyCut(b + Flatten([]), |b|, []) && NonEmpty([])
  {
  }

  /** The very same lines are parsed if and only if no chunk is empty and no cut falls into the newline that ends a line. */
  lemma SameLines(chunks: seq<seq<char>>)
    requires GoodStream(Flatten(chunks))
    ensures FeedAll([], chunks).0 == Drain(Flatten(chunks)).0
            <==> NonEmpty(chunks) && !AnyCut(Flatten(chunks), 0, chunks)
  {
    assert [] + Flatten(chunks) == Flatten(chunks);
    EmptyBuffer();
    FeedLines([], chunks);
  }

  /** Nothing is lost or added between the buffer and the parser. */
  lemma {:induction false} DrainKeeps(b: seq<char>)
    ensures Flatten(Drain(b).0) + Drain(b).1 == b
    ensures Scan(Drain(b).1, 0).None?
    decreases |b|
  {
    hide Scan;
    if Scan(b, 0).Some? {
      var e := Scan(b, 0).value;
      DrainKeeps(b[e..]);
      assert Drain(b).0[1..] == Drain(b[e..]).0;
    }
  }

  /** No line of the stream is longer than `m`. */
  ghost predicate ShortLines(s: seq<char>, m: nat)
    decreases |s|
  {
    s == [] || (Scan(s, 0).Some? && Scan(s, 0).value <= m && ShortLines(s[Scan(s, 0).value..], m))
  }

  /** What waits in the buffer is never longer than a line. */
  lemma {:induction false} ShortRest(s: seq<char>, n: nat, m: nat)
    requires GoodStream(s) && n <= |s| && ShortLines(s, m) && 0 < m
    ensures |Drain(s[..n]).1| <= m && ShortLines(Pending(s, n), m)
    decreases |s|
  {
    hide Scan, GoodLine, Drain, Pending;
    if s == [] {
      EmptyBuffer();
      assert s[..n] == [];
      PendingOf(s, n);
    } else {
      var e := Scan(s, 0).value;
      if e <= n {
        ScanSame(s, n, 0, e);
        BehindLine(s, n, e);
        ShortRest(s[e..], n - e, m);
        RestBehind(s, n, e);
      } else {
        ScanLate(s, n, 0, e);
        if Scan(s[..n], 0).None? {
          DrainNone(s[..n]);
          PendingOf(s, n);
          assert s[..n] + s[n..] == s;
        } else {
          AfterSplit(s, n);
          LineFeed(s[n..]);
          assert s[n..][1..] == s[e..];
        }
      }
    }
  }

  lemma PendingOf(s: seq<char>, n: nat)
    requires n <= |s|
    ensures Pending(s, n) == Drain(s[..n]).1 + s[n..]
  {
    hide Drain;
  }

  lemma DrainNone(b: seq<char>)
    requires Scan(b, 0).None?
    ensures Drain(b) == ([], b)
  {
    hide Scan;
  }

  lemma RestBehind(s: seq<char>, n: nat, e: nat)
    requires n <= |s| && Scan(s[..n], 0) == Some(e) && e <= n
    ensures Drain(s[..n]).1 == Drain(s[e..][..n - e]).1
  {
    hide Scan, Drain;
    DrainStep(s[..n], e);
    assert s[..n][e..] == s[e..][..n - e];
  }

  /** No chunk finds the buffer of `room` characters too full. */
  ghost predicate Fits(b: seq<char>, chunks: seq<seq<char>>, room: nat)
    decreases |chunks|
  {
    chunks == [] || ((chunks[0] == [] || |b| + |chunks[0]| < room) && Fits(FeedOne(b, chunks[0]).1, chunks[1..], room))
  }

  predicate ShortChunks(chunks: seq<seq<char>>, k: nat) {
    forall i | 0 <= i < |chunks| :: |chunks[i]| <= k
  }

  lemma ShortFirst(chunks: seq<seq<char>>, k: nat)
    requires chunks != [] && ShortChunks(chunks, k)
    ensures |chunks[0]| <= k && ShortChunks(chunks[1..], k)
  {
    assert forall i | 0 <= i < |chunks[1..]| :: chunks[1..][i] == chunks[i + 1];
  }
}
