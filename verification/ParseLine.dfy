/** The parser's loop over a line that it completes headers in. */
module ParseLine {
  import opened Wrappers
  import opened LexSpec
  import opened LexShift
  import opened Framing
  import opened Compose
  import opened ParseSpec
  import MessageUnit

  predicate HasHeader(u: Unit) {
    !u.header.kind.TokInvalid? && u.header.len > 0
  }

  lemma InvalidLength(s: seq<char>, t: nat)
    requires t <= |s| && UnitAt(s, t).header.kind.TokInvalid?
    ensures UnitAt(s, t).header.len == 1
  {
    hide BodyAt, EolEnd;
  }

  /** The unit at `t` lies in its order: white space, header, the rest, the newline. */
  lemma UnitOrder(s: seq<char>, t: nat)
    requires t <= |s| && HasHeader(UnitAt(s, t))
    ensures var u := UnitAt(s, t);
            && t <= u.header.ptr && u.header.ptr + u.header.len <= BodyAt(s, t).end <= u.next
            && (u.term.TermNl? ==> forall k | BodyAt(s, t).end <= k < u.next :: IsEol(s[k]))
  {
    hide HeaderAt, DataAt, SkipWhile;
  }

  /** The command of the unit at `t`, if it has a header. */
  lemma CommandOf(s: seq<char>, t: nat)
    requires t <= |s|
    ensures var u, cs := UnitAt(s, t), CommandAt(s, t);
            if u.header.kind.TokInvalid? then |cs| == 1 && cs[0].header == u.header
            else if u.header.len > 0 then
              && |cs| == 1 && cs[0].start == t && cs[0].header == u.header && HasHeader(u)
              && t <= u.header.ptr && u.header.ptr + u.header.len <= cs[0].end <= u.next <= |s|
              && forall k | cs[0].end <= k < u.next :: IsEol(s[k])
            else cs == []
  {
    hide UnitAt, BodyAt;
    if UnitAt(s, t).header.kind.TokInvalid? {
      InvalidLength(s, t);
    } else if UnitAt(s, t).header.len > 0 {
      UnitOrder(s, t);
    }
  }

  /** Where the previous header ends. */
  function EndOf(s: Option<Span>): nat {
    if s.None? then 0 else s.value.ptr + s.value.len
  }

  /** The header of a command in the line. */
  function SpanOf(c: Command): Span
    requires c.header.len >= 0
  {
    Span(c.header.ptr, c.header.len)
  }

  lemma {:induction false} TrimMore(t: seq<char>, eols: seq<char>)
    requires forall k | 0 <= k < |eols| :: IsEol(eols[k])
    ensures Trimmed(t + eols) == Trimmed(t)
    decreases |eols|
  {
    if eols == [] {
      assert t + eols == t;
    } else {
      var init := eols[..|eols| - 1];
      assert (t + eols)[..|t + eols| - 1] == t + init;
      TrimMore(t, init);
    }
  }

  lemma Slices(s: seq<char>, a: nat, b: nat, c: nat)
    requires a <= b <= c <= |s|
    ensures s[a..b] + s[b..c] == s[a..c]
    ensures s[a..][b - a..c - a] == s[b..c]
  {
    assert forall k | 0 <= k < c - b :: s[a..][b - a..c - a][k] == s[b..c][k];
  }

  /** Equal rests have equal parts. */
  lemma SamePart(s: seq<char>, t: seq<char>, p: nat, a: nat, e: nat)
    requires p <= a <= e <= |s| && e <= |t| && p <= |t| && s[p..] == t[p..]
    ensures s[a..e] == t[a..e]
  {
    Slices(s, p, a, e);
    Slices(t, p, a, e);
  }

  lemma FrontSlice(s: seq<char>, n: nat, a: nat, e: nat)
    requires a <= e <= n <= |s|
    ensures s[..n][a..e] == s[a..e]
  {
    assert forall k | 0 <= k < e - a :: s[a..e][k] == s[..n][a..e][k];
  }

  lemma FirstPart(s: seq<char>, a: nat, b: nat, e: nat)
    requires a <= b <= e <= |s|
    ensures s[a..e][..b - a] == s[a..b]
  {
    assert forall k | 0 <= k < b - a :: s[a..e][..b - a][k] == s[a..b][k];
  }

  /** What completing the header at `ptr` makes of the previous header. */
  lemma HeldAfter(line: seq<char>, prev: Option<Span>, current: Span)
    requires current.ptr + current.len <= |line| && Before(prev, current.ptr)
    ensures var path := Path(line, prev, current);
            |path| <= |TextOf(line, prev)|
            && TextOf(Composed(line, prev, current), prev)
               == Overwritten(TextOf(line, prev), |path|, Gap(EndOf(prev), current.ptr))
  {
    hide Borrowed;
    if prev.Some? {
      var path := Path(line, prev, current);
      HeldPart(line, path, prev.value.ptr, prev.value.ptr + prev.value.len, current.ptr);
    }
  }

  /** What stands from `a` to `e` once its first part has been written in front of `ptr`. */
  lemma HeldPart(line: seq<char>, path: string, a: nat, e: nat, ptr: nat)
    requires a <= e <= ptr <= |line| && a + |path| <= e && path == line[a..e][..|path|]
    ensures var now := line[..ptr - |path|] + path + line[ptr..];
            |now| == |line| && now[a..e] == Overwritten(line[a..e], |path|, ptr - e)
  {
    var n, now := |path|, line[..ptr - |path|] + path + line[ptr..];
    var held, over := line[a..e], Overwritten(line[a..e], n, ptr - e);
    forall k | 0 <= k < e - a ensures now[a..e][k] == over[k] {
      assert now[a..e][k] == now[a + k] && held[k] == line[a + k];
      if a + k >= ptr - n {
        assert now[a + k] == path[a + k - (ptr - n)] == held[a + k - (ptr - n)];
      }
    }
  }

  /** The bytes from the start of the unit to its header, once the path has been written. */
  lemma LeadAfter(line: seq<char>, prev: Option<Span>, current: Span, p: nat)
    requires current.ptr + current.len <= |line| && Before(prev, p) && p <= current.ptr
    ensures |Composed(line, prev, current)| == |line|
    ensures Composed(line, prev, current)[p..current.ptr]
            == Overlaid(line[p..current.ptr], Path(line, prev, current))
  {
    hide Borrowed;
    var path, now := Path(line, prev, current), Composed(line, prev, current);
    var w := current.ptr - |path|;
    assert now[w..current.ptr] == path && now[..w] == line[..w];
    if p <= w {
      FrontSlice(now, w, p, w);
      FrontSlice(line, w, p, w);
      Slices(now, p, w, current.ptr);
      assert line[p..w] == line[p..current.ptr][..w - p];
    } else {
      assert now[p..current.ptr] == path[p - w..];
    }
  }

  /** The text of the unit, trimmed, is what is reported. */
  lemma ReportAfter(s: seq<char>, line: seq<char>, prev: Option<Span>, p: nat, c: Command, next: nat)
    requires p <= |s| <= |line| && line[..|s|][p..] == s[p..] && Before(prev, p)
    requires c.start == p <= c.header.ptr && 0 <= c.header.len && c.header.ptr + c.header.len <= c.end <= next <= |s|
    requires forall k | c.end <= k < next :: IsEol(s[k])
    ensures var now, path := Composed(line, prev, SpanOf(c)), Path(line, prev, SpanOf(c));
            |now| == |line| && Trimmed(now[p..next]) == ReportOf(s, c, path)
  {
    hide Borrowed, Path, Composed, Trimmed;
    var cur := SpanOf(c);
    var now, path := Composed(line, prev, cur), Path(line, prev, cur);
    ComposedText(line, prev, cur);
    LeadAfter(line, prev, cur, p);
    var a, e := c.header.ptr, c.end;
    SameInLine(s, line, p, p, a);
    SameInLine(s, line, p, a, e);
    SameInLine(s, line, p, e, next);
    SamePart(now, line, a, a, e);
    SamePart(now, line, a, e, next);
    Slices(now, p, a, e);
    Slices(now, p, e, next);
    var eols := now[e..next];
    assert forall k | 0 <= k < |eols| :: eols[k] == s[e..next][k] == s[e + k];
    TrimMore(now[p..e], eols);
  }

  /** From `p` on the line still reads as it did. */
  lemma SameInLine(s: seq<char>, line: seq<char>, p: nat, a: nat, e: nat)
    requires p <= a <= e <= |s| <= |line| && line[..|s|][p..] == s[p..]
    ensures line[a..e] == s[a..e]
  {
    SamePart(line[..|s|], s, p, a, e);
    FrontSlice(line, |s|, a, e);
  }

  /** The line from `p` on still reads as the original `s`. */
  predicate SameFrom(line: seq<char>, s: seq<char>, p: nat) {
    p <= |s| <= |line| && line[..|s|][p..] == s[p..]
  }

  /** The outcome of looking up a command's header, and the header that later ones go by. */
  ghost predicate LookedUp(s: seq<char>, was: seq<char>, now: seq<char>, c: Command, prev: Option<Span>,
                           known: string -> bool, event: Event, path: Option<Span>)
    requires 0 <= c.header.len && c.header.ptr + c.header.len <= |was| && Before(prev, c.header.ptr)
  {
    var held := TextOf(was, prev);
    var lent := Lent(held, HeaderOf(s, c));
    && |now| == |was|
    && Before(path, c.header.ptr + c.header.len)
    && event == EventOf(s, c, lent, known)
    && TextOf(now, path) == NextHeld(s, c, lent, held, EndOf(prev), known)
    && EndOf(path) == NextEnd(s, c, lent, EndOf(prev), known)
  }

  /** The header as completed, the path it borrows, and what is left of the previous one. */
  lemma LookUpFacts(s: seq<char>, was: seq<char>, p: nat, c: Command, prev: Option<Span>, next: nat)
    requires SameFrom(was, s, p) && Before(prev, p)
    requires c.start == p <= c.header.ptr && 0 < c.header.len && c.header.ptr + c.header.len <= c.end <= next <= |s|
    requires forall k | c.end <= k < next :: IsEol(s[k])
    ensures var cur := SpanOf(c);
            var now, r, lent := Composed(was, prev, cur), Found(was, prev, cur), Lent(TextOf(was, prev), HeaderOf(s, c));
            && |now| == |was| && now[c.header.ptr..] == was[c.header.ptr..]
            && TextOf(now, Some(r)) == lent + HeaderOf(s, c)
            && |HeaderOf(s, c)| == c.header.len
            && TextOf(now, prev) == Overwritten(TextOf(was, prev), |lent|, Gap(EndOf(prev), c.header.ptr))
            && Trimmed(now[p..next]) == ReportOf(s, c, lent)
  {
    hide Borrowed, Composed, Trimmed, ReportOf, Overwritten, PathIn;
    var cur := SpanOf(c);
    ComposedText(was, prev, cur);
    HeldAfter(was, prev, cur);
    ReportAfter(s, was, prev, p, c, next);
    SameInLine(s, was, p, c.header.ptr, c.header.ptr + c.header.len);
    assert TextOf(was, Some(cur)) == HeaderOf(s, c);
  }

  /** The length of a unit without the end-of-line characters at its end. */
  method TrimLength(line: array<char>, p: nat, r: nat) returns (n: nat)
    requires p + r <= line.Length
    ensures n <= r && line[p..p + n] == Trimmed(line[p..p + r])
  {
    n := r;
    while n > 0 && (line[p + n - 1] == '\r' || line[p + n - 1] == '\n')
      invariant n <= r && Trimmed(line[p..p + r]) == Trimmed(line[p..p + n])
    {
      assert line[p..p + n][..n - 1] == line[p..p + n - 1];
      n := n - 1;
    }
  }

  /** Look the completed header up. */
  method LookUp(line: array<char>, ghost s: seq<char>, ghost c: Command, p: nat, r: nat, cur: Span, prev: Option<Span>,
                known: string -> bool)
    returns (event: Event, path: Option<Span>)
    requires |s| <= line.Length && SameFrom(line[..], s, p) && Before(prev, p)
    requires 0 <= c.header.len && cur == SpanOf(c)
    requires c.start == p <= c.header.ptr && 0 < c.header.len && c.header.ptr + c.header.len <= c.end <= p + r <= |s|
    requires forall k | c.end <= k < p + r :: IsEol(s[k])
    modifies line
    ensures line[c.header.ptr..] == old(line[c.header.ptr..])
    ensures LookedUp(s, old(line[..]), line[..], c, prev, known, event, path)
  {
    hide Lent, Composed, Found, Trimmed, ReportOf, Overwritten, HeaderOf, SameFrom;
    ghost var was := line[..];
    LookUpFacts(s, was, p, c, prev, p + r);
    var full := ComposeCompoundCommand(line, prev, cur);
    var header := line[full.ptr..full.ptr + full.len];
    assert header == TextOf(line[..], Some(full));
    if known(header) {
      event, path := Invoked(header), Some(full);
    } else {
      var n := TrimLength(line, p, r);
      assert line[..][p..p + r] == line[p..p + r];
      event, path := Undefined(header, line[p..p + n]), prev;
    }
  }

  /** What the loop still has to do from the unit at `p` on. */
  lemma LookedOnce(s: seq<char>, p: nat, held: string, end: nat, known: string -> bool)
    requires p <= |s|
    ensures var cs, u := CommandAt(s, p), UnitAt(s, p);
            var rest := if u.next < |s| then Commands(s, u.next) else [];
            && Commands(s, p) == cs + rest
            && (cs == [] ==> Looked(s, Commands(s, p), held, end, known) == Looked(s, rest, held, end, known))
            && (|cs| == 1 && cs[0].header.kind.TokInvalid? ==>
                  Looked(s, Commands(s, p), held, end, known) == [BadCharacter] + Looked(s, rest, held, end, known))
            && (|cs| == 1 && !cs[0].header.kind.TokInvalid? ==>
                  var lent := Lent(held, HeaderOf(s, cs[0]));
                  Looked(s, Commands(s, p), held, end, known)
                  == [EventOf(s, cs[0], lent, known)]
                     + Looked(s, rest, NextHeld(s, cs[0], lent, held, end, known), NextEnd(s, cs[0], lent, end, known), known))
  {
    hide UnitAt, CommandAt, Lent, EventOf, NextHeld, NextEnd;
    var cs, u := CommandAt(s, p), UnitAt(s, p);
    var rest := if u.next < |s| then Commands(s, u.next) else [];
    assert cs == [] ==> cs + rest == rest;
    assert |cs| == 1 ==> (cs + rest)[0] == cs[0] && (cs + rest)[1..] == rest;
  }

  /** One round of the parser's loop. */
  method DoUnit(line: array<char>, ghost s: seq<char>, p: nat, n: nat, path: Option<Span>, known: string -> bool)
    returns (done: seq<Event>, newPath: Option<Span>, next: nat)
    requires n == |s| <= line.Length && SameFrom(line[..], s, p) && Before(path, p)
    modifies line
    ensures next == UnitAt(s, p).next <= n && p <= next && Before(newPath, next)
    ensures line[next..] == old(line[next..])
    ensures Looked(s, Commands(s, p), old(TextOf(line[..], path)), EndOf(path), known)
            == done + if next < n then Looked(s, Commands(s, next), TextOf(line[..], newPath), EndOf(newPath), known) else []
  {
    hide UnitAt, CommandAt, Looked, Commands, Lent, EventOf, NextHeld, NextEnd;
    ghost var was := line[..];
    assert line[p..n] == s[p..];
    var unit := MessageUnit.DetectProgramMessageUnit(line[p..n], 0);
    UnitShift(s, p, 0);
    CommandOf(s, p);
    LookedOnce(s, p, TextOf(was, path), EndOf(path), known);
    done, newPath, next := [], path, p + unit.next;
    if unit.header.kind.TokInvalid? {
      done := [BadCharacter];
    } else if unit.header.len > 0 {
      var event;
      event, newPath := LookUp(line, s, CommandAt(s, p)[0], p, unit.next,
                               Span(p + unit.header.ptr, unit.header.len), path, known);
      done := [event];
    }
    LookedNone(s, TextOf(line[..], newPath), EndOf(newPath), known);
  }

  lemma LookedNone(s: seq<char>, held: string, end: nat, known: string -> bool)
    ensures Looked(s, [], held, end, known) == []
  {
  }

  /**
   The parser on the first `n` bytes of the buffer: what it looks up, and what it reports, is
   determined by the original text, although it overwrites that text as it goes; and it writes
   nothing behind the line.
   */
  method ParseLine(line: array<char>, n: nat, known: string -> bool) returns (events: seq<Event>)
    requires n <= line.Length
    modifies line
    ensures line[n..] == old(line[n..])
    ensures var s := old(line[..n]); events == Looked(s, Commands(s, 0), [], 0, known)
  {
    hide UnitAt, Looked, Commands;
    events := [];
    var p: nat, path: Option<Span> := 0, None;
    ghost var s, was := line[..n], line[..];
    assert s[0..] == s;
    while true
      invariant p <= n && line[p..] == was[p..] && Before(path, p)
      invariant Looked(s, Commands(s, 0), [], 0, known)
                == events + Looked(s, Commands(s, p), TextOf(line[..], path), EndOf(path), known)
      decreases n - p
    {
      ghost var here := line[..];
      StillSame(was, here, s, p, n);
      var done, next;
      done, path, next := DoUnit(line, s, p, n, path, known);
      Unchanged(was, here, line[..], p, next, n);
      events := events + done;
      if next < n {
        p := next;
      } else {
        break;
      }
    }
  }

  lemma StillSame(was: seq<char>, line: seq<char>, s: seq<char>, p: nat, n: nat)
    requires p <= n <= |was| == |line| && line[p..] == was[p..] && s == was[..n]
    ensures SameFrom(line, s, p)
  {
    SamePart(line, was, p, p, n);
    assert line[..n][p..] == line[p..n] && s[p..] == was[p..n];
  }

  lemma Unchanged(was: seq<char>, here: seq<char>, now: seq<char>, p: nat, next: nat, n: nat)
    requires p <= next <= n <= |was| == |here| == |now| && here[p..] == was[p..] && now[next..] == here[next..]
    ensures now[next..] == was[next..] && now[n..] == was[n..]
  {
    SamePart(here, was, p, next, |was|);
    SamePart(now, was, next, n, |was|);
  }
}
