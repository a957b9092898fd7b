/**
 Cutting a byte stream into command lines. The stream arrives in chunks of any
 size; each chunk is appended to the input buffer, complete lines at the front of
 the buffer are handed to the parser and the rest waits for the next chunk.
 */
module Framing {
  import opened Wrappers
  import opened LexSpec
  import opened LexCut
  import opened DataCut

  /** The end of the first complete line of `b`, scanning message units from `t`. */
  function Scan(b: seq<char>, t: nat): (r: Option<nat>)
    requires t <= |b|
    ensures r.Some? ==> t < r.value <= |b|
    decreases |b| - t
  {
    var u := UnitAt(b, t);
    if u.term.TermNl? then Some(u.next)
    else if (u.header.kind.TokUnknown? && u.term.TermNone?) || u.next >= |b| then None
    else Scan(b, u.next)
  }

  /** The complete lines of `b` and what is left. */
  function Drain(b: seq<char>): (r: (seq<seq<char>>, seq<char>))
    decreases |b|
  {
    match Scan(b, 0)
    case None => ([], b)
    case Some(e) => var rest := Drain(b[e..]); ([b[..e]] + rest.0, rest.1)
  }

  /** The lines parsed when a chunk arrives on a buffer holding `b`; an empty one forces the parser on all of it. */
  function FeedOne(b: seq<char>, chunk: seq<char>): (seq<seq<char>>, seq<char>) {
    if chunk == [] then ([b], []) else Drain(b + chunk)
  }

  /** The same when `chunks` arrive one after the other. */
  function FeedAll(b: seq<char>, chunks: seq<seq<char>>): (r: (seq<seq<char>>, seq<char>))
    decreases |chunks|
  {
    if chunks == [] then ([], b)
    else
      var first := FeedOne(b, chunks[0]);
      var rest := FeedAll(first.1, chunks[1..]);
      (first.0 + rest.0, rest.1)
  }

  function Flatten(chunks: seq<seq<char>>): seq<char> {
    if chunks == [] then [] else chunks[0] + Flatten(chunks[1..])
  }

  /** Every unit of the line at `i` ends in a semicolon or the line's newline, and no string holds one. */
  ghost predicate GoodLine(s: seq<char>, i: nat)
    requires i <= |s|
    decreases |s| - i
  {
    GoodBody(s, i) && (UnitAt(s, i).term.TermNl? || GoodLine(s, UnitAt(s, i).next))
  }

  ghost predicate GoodStream(s: seq<char>)
    decreases |s|
  {
    s == [] || (GoodLine(s, 0) && Scan(s, 0).Some? && GoodStream(s[Scan(s, 0).value..]))
  }

  lemma EolCut(s: seq<char>, n: nat, p: nat)
    requires p < n <= |s|
    ensures EolEnd(s, p) <= n ==> EolEnd(s[..n], p) == EolEnd(s, p)
    ensures EolEnd(s, p) > n ==> n == p + 1 && n < |s| && s[p] == '\r' && s[n] == '\n' && EolEnd(s[..n], p) == n
  {
  }

  /** A unit that ends before the cut is the same unit on the shorter text. */
  lemma UnitSame(s: seq<char>, n: nat, i: nat)
    requires i <= n <= |s| && GoodBody(s, i) && UnitAt(s, i).next <= n
    ensures UnitAt(s[..n], i) == UnitAt(s, i)
  {
    hide BodyAt, EolEnd;
    BodySame(s, n, i);
    EolCut(s, n, BodyAt(s, i).end);
  }

  /** The cut falls between a carriage return and a line feed. */
  predicate Splits(s: seq<char>, n: nat) {
    0 < n < |s| && s[n - 1] == '\r' && s[n] == '\n'
  }

  /** A unit that the cut reaches either loses the line feed of its terminator, or more. */
  lemma UnitLate(s: seq<char>, n: nat, i: nat)
    requires i <= n <= |s| && GoodBody(s, i) && n < UnitAt(s, i).next
    ensures var u := UnitAt(s, i);
            || (Splits(s, n) && u.term.TermNl? && u.next == n + 1 && BodyAt(s[..n], i) == BodyAt(s, i)
                && UnitAt(s[..n], i) == Unit(u.header, u.data, u.params, TermNl, n))
            || EolFree(s, BodyAt(s[..n], i).end, n)
  {
    hide BodyAt, EolEnd;
    var p := BodyAt(s, i).end;
    if p < n {
      BodySame(s, n, i);
      EolCut(s, n, p);
      EolShort(s, p);
    } else {
      BodyLate(s, n, i);
    }
  }

  /** A unit whose body ends before the cut, and whose newline does not, loses the line feed. */
  lemma UnitSplit(s: seq<char>, n: nat, i: nat)
    requires i <= n <= |s| && GoodBody(s, i) && BodyAt(s, i).end < n < UnitAt(s, i).next
    ensures var u := UnitAt(s, i);
            && Splits(s, n) && u.term.TermNl? && BodyAt(s, i).end == n - 1 && u.next == n + 1
            && UnitAt(s[..n], i).term.TermNl? && UnitAt(s[..n], i).next == n
  {
    hide BodyAt, EolEnd;
    BodySame(s, n, i);
    EolCut(s, n, BodyAt(s, i).end);
    EolShort(s, BodyAt(s, i).end);
  }

  lemma EolShort(s: seq<char>, p: nat)
    requires p <= |s|
    ensures EolEnd(s, p) <= p + 2
  {
  }

  /** Without an end-of-line character there is no line. */
  lemma {:induction false} NoLine(b: seq<char>, t: nat)
    requires t <= |b| && EolFree(b, t, |b|)
    ensures Scan(b, t).None?
    decreases |b| - t
  {
    hide UnitAt;
    var u := UnitAt(b, t);
    UnitEnds(b, t);
    if u.next < |b| {
      if !u.term.TermNl? {
        NoLine(b, u.next);
      }
    }
  }

  /** The same when only the part behind the current unit is free of them. */
  lemma NoLineBehind(b: seq<char>, t: nat)
    requires t <= |b| && EolFree(b, BodyAt(b, t).end, |b|)
    ensures Scan(b, t).None?
  {
    hide BodyAt, Scan;
    var u := UnitAt(b, t);
    assert !u.term.TermNl?;
    NoLine(b, u.next);
    ScanOnce(b, t);
  }

  lemma ScanOnce(b: seq<char>, t: nat)
    requires t <= |b| && !UnitAt(b, t).term.TermNl? && Scan(b, UnitAt(b, t).next).None?
    ensures Scan(b, t).None?
  {
    hide UnitAt;
  }

  lemma {:induction false} GoodScan(s: seq<char>, i: nat)
    requires i <= |s| && GoodLine(s, i)
    ensures Scan(s, i).Some?
    decreases |s| - i
  {
    hide BodyAt;
    if !UnitAt(s, i).term.TermNl? {
      GoodScan(s, UnitAt(s, i).next);
    }
  }

  /** A line that ends before the cut is found on the shorter text. */
  lemma {:induction false} ScanSame(s: seq<char>, n: nat, i: nat, e: nat)
    requires i <= n <= |s| && GoodLine(s, i) && Scan(s, i) == Some(e) && e <= n
    ensures Scan(s[..n], i) == Some(e)
    decreases |s| - i
  {
    hide UnitAt, GoodBody;
    var u := UnitAt(s, i);
    ScanBound(s, i);
    UnitSame(s, n, i);
    if !u.term.TermNl? {
      ScanSame(s, n, u.next, e);
    }
  }

  lemma ScanBound(s: seq<char>, i: nat)
    requires i <= |s| && Scan(s, i).Some?
    ensures UnitAt(s, i).next <= Scan(s, i).value
  {
    hide UnitAt;
  }

  /** A line that the cut reaches is not found, unless only its line feed is cut off. */
  lemma {:induction false} ScanLate(s: seq<char>, n: nat, i: nat, e: nat)
    requires i <= n <= |s| && GoodLine(s, i) && Scan(s, i) == Some(e) && n < e
    ensures Scan(s[..n], i).None? || (Splits(s, n) && e == n + 1 && Scan(s[..n], i) == Some(n))
    decreases |s| - i
  {
    hide UnitAt, BodyAt, GoodBody;
    var u := UnitAt(s, i);
    if n < u.next {
      UnitLate(s, n, i);
      if EolFree(s, BodyAt(s[..n], i).end, n) {
        NoLineBehind(s[..n], i);
      }
    } else {
      UnitSame(s, n, i);
      ScanLate(s, n, u.next, e);
    }
  }

  /**
   A cut that takes only the last character of a line leaves a line exactly when that
   character is the line feed of a terminator that begins with a carriage return.
   */
  lemma {:induction false} ScanSplit(s: seq<char>, i: nat, n: nat)
    requires i <= n < |s| && GoodLine(s, i) && Scan(s, i) == Some(n + 1)
    ensures Scan(s[..n], i) == Some(n) <==> TextEnd(s[..n + 1], i) + 1 == n
    decreases |s| - i
  {
    hide UnitAt, BodyAt, GoodBody;
    var u := UnitAt(s, i);
    ScanBound(s, i);
    UnitSame(s, n + 1, i);
    if u.term.TermNl? {
      BodyBefore(s, i);
      BodySame(s, n + 1, i);
      if BodyAt(s, i).end < n {
        UnitSplit(s, n, i);
      } else {
        BodyLate(s, n, i);
        NoLineBehind(s[..n], i);
      }
    } else {
      ScanBound(s, u.next);
      ScanBoundNext(s, u.next);
      UnitSame(s, n, i);
      ScanSplit(s, u.next, n);
    }
  }

  /** A line is not empty. */
  lemma ScanBoundNext(s: seq<char>, i: nat)
    requires i <= |s| && Scan(s, i).Some?
    ensures i < Scan(s, i).value
  {
  }

  /** What the parser does for one unit: where it starts, its tokens, where it ends before the newline. */
  datatype Command = Command(start: nat, header: Token, data: Token, params: int, end: nat)

  /** Units without a header are passed over. */
  function CommandAt(line: seq<char>, t: nat): seq<Command>
    requires t <= |line|
  {
    var u := UnitAt(line, t);
    if u.header.len <= 0 then []
    else [Command(t, u.header, u.data, u.params, if u.term.TermNl? then BodyAt(line, t).end else u.next)]
  }

  /** The parser's loop over the units of a line. */
  function Commands(line: seq<char>, t: nat): seq<Command>
    requires t <= |line|
    decreases |line| - t
  {
    var u := UnitAt(line, t);
    CommandAt(line, t) + if u.next < |line| then Commands(line, u.next) else []
  }

  /** The end of the last unit, its newline excluded. */
  function TextEnd(line: seq<char>, t: nat): (e: nat)
    requires t <= |line|
    ensures e <= |line|
    decreases |line| - t
  {
    var u := UnitAt(line, t);
    if u.next < |line| then TextEnd(line, u.next) else if u.term.TermNl? then BodyAt(line, t).end else u.next
  }

  /** The end of the line's text is behind each of its units. */
  lemma {:induction false} TextEndBehind(line: seq<char>, t: nat)
    requires t <= |line|
    ensures t <= TextEnd(line, t)
    ensures var u := UnitAt(line, t); (if u.term.TermNl? then BodyAt(line, t).end else u.next) <= TextEnd(line, t)
    decreases |line| - t
  {
    hide UnitAt, BodyAt;
    var u := UnitAt(line, t);
    BodyInside(line, t);
    if u.next < |line| {
      TextEndBehind(line, u.next);
    }
  }

  lemma BodyInside(line: seq<char>, t: nat)
    requires t <= |line|
    ensures BodyAt(line, t).end <= UnitAt(line, t).next
  {
    hide BodyAt, EolEnd;
  }

  /** All that the parser sees of a line: its text up to the terminator, and its commands. */
  datatype Job = Job(text: seq<char>, commands: seq<Command>)

  /** A line without commands is no job. */
  function JobOf(line: seq<char>): seq<Job> {
    if Commands(line, 0) == [] then [] else [Job(line[..TextEnd(line, 0)], Commands(line, 0))]
  }

  function Jobs(lines: seq<seq<char>>): seq<Job> {
    if lines == [] then [] else JobOf(lines[0]) + Jobs(lines[1..])
  }

  lemma NoJobs()
    ensures Jobs([]) == []
  {
  }

  lemma JobsOnce(lines: seq<seq<char>>)
    requires lines != []
    ensures Jobs(lines) == JobOf(lines[0]) + Jobs(lines[1..])
  {
  }

  lemma {:induction false} JobsJoin(a: seq<seq<char>>, b: seq<seq<char>>)
    ensures Jobs(a + b) == Jobs(a) + Jobs(b)
  {
    hide JobOf, Jobs;
    NoJobs();
    if a == [] {
      assert a + b == b && [] + Jobs(b) == Jobs(b);
    } else {
      JobsJoin(a[1..], b);
      assert (a + b)[1..] == a[1..] + b;
      JobsOnce(a);
      JobsOnce(a + b);
      var first, later, more := JobOf(a[0]), Jobs(a[1..]), Jobs(b);
      assert first + (later + more) == (first + later) + more;
    }
  }

  /** The line that ends at `e`, with and without the line feed of its terminator. */
  ghost predicate SameLine(s: seq<char>, i: nat, e: nat, m: nat)
    requires i <= m <= e <= |s|
  {
    Splits(s, m) && e == m + 1 && Scan(s[..m], i) == Some(m)
  }

  lemma CommandSame(s: seq<char>, i: nat, e: nat, m: nat)
    requires i <= m <= e <= |s| && GoodLine(s, i) && Scan(s, i) == Some(e) && SameLine(s, i, e, m)
    ensures CommandAt(s[..m], i) == CommandAt(s[..e], i)
    ensures UnitAt(s, i).term.TermNl? ==>
              UnitAt(s[..m], i).next == m && UnitAt(s[..e], i).next == e
              && UnitAt(s[..m], i).term.TermNl? && UnitAt(s[..e], i).term.TermNl?
              && BodyAt(s[..m], i) == BodyAt(s[..e], i)
    ensures !UnitAt(s, i).term.TermNl? ==>
              UnitAt(s[..m], i) == UnitAt(s[..e], i) == UnitAt(s, i) && UnitAt(s, i).next < m
  {
    hide UnitAt, BodyAt, GoodBody;
    var u := UnitAt(s, i);
    ScanBound(s, i);
    UnitSame(s, e, i);
    if u.term.TermNl? {
      BodyBefore(s, i);
      BodySame(s, e, i);
      UnitLate(s, m, i);
      if EolFree(s, BodyAt(s[..m], i).end, m) {
        NoLineBehind(s[..m], i);
      }
    } else {
      ScanBound(s, u.next);
      UnitSame(s, m, i);
    }
  }

  lemma BodyBefore(s: seq<char>, i: nat)
    requires i <= |s| && UnitAt(s, i).term.TermNl?
    ensures BodyAt(s, i).end < UnitAt(s, i).next
  {
    hide BodyAt, EolEnd;
  }

  /** Losing the line feed of a terminator does not change what the parser does. */
  lemma {:induction false} CommandsSame(s: seq<char>, i: nat, e: nat, m: nat)
    requires i <= m <= e <= |s| && GoodLine(s, i) && Scan(s, i) == Some(e) && SameLine(s, i, e, m)
    ensures Commands(s[..m], i) == Commands(s[..e], i) && TextEnd(s[..m], i) == TextEnd(s[..e], i)
    decreases |s| - i
  {
    hide UnitAt, BodyAt, GoodBody, CommandAt, Splits;
    CommandSame(s, i, e, m);
    if !UnitAt(s, i).term.TermNl? {
      CommandsSame(s, UnitAt(s, i).next, e, m);
    }
  }
}
