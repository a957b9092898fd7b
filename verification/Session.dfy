/**
 From bytes to looked-up headers: whatever the chunks, the same commands are looked
 up in the same order, with the same outcome and the same reports.
 */
module Session {
  import opened LexSpec
  import opened Framing
  import opened Forced
  import opened Compose
  import opened ParseSpec
  import opened ParseLine

  /** What the parser does with the line. */
  function LineLooks(line: seq<char>, known: string -> bool): seq<Event> {
    Looked(line, Commands(line, 0), [], 0, known)
  }

  /** What it should do: look up the headers as the original text resolves them. */
  function LineResolves(line: seq<char>, known: string -> bool): seq<Event> {
    Events(line, Commands(line, 0), [], known)
  }

  /** Lines are parsed one after the other, each from the root. */
  function Looks(lines: seq<seq<char>>, known: string -> bool): seq<Event> {
    if lines == [] then [] else LineLooks(lines[0], known) + Looks(lines[1..], known)
  }

  function Resolves(lines: seq<seq<char>>, known: string -> bool): seq<Event> {
    if lines == [] then [] else LineResolves(lines[0], known) + Resolves(lines[1..], known)
  }

  /** A command that lies within the first `x` characters. */
  predicate Within(c: Command, x: nat) {
    c.header.kind.TokInvalid?
    || (0 <= c.header.len && c.start <= c.header.ptr && c.header.ptr + c.header.len <= c.end <= x)
  }

  lemma FrontSlices(line: seq<char>, x: nat, a: nat, e: nat)
    requires a <= e <= x <= |line|
    ensures line[..x][a..e] == line[a..e]
  {
    assert forall k | 0 <= k < e - a :: line[..x][a..e][k] == line[a..e][k];
  }

  /** A command's header and report are in the text that holds it. */
  lemma SameCommand(line: seq<char>, x: nat, c: Command, path: string, known: string -> bool)
    requires x <= |line| && Within(c, x) && !c.header.kind.TokInvalid?
    ensures HeaderOf(line[..x], c) == HeaderOf(line, c) && EventOf(line[..x], c, path, known) == EventOf(line, c, path, known)
  {
    hide Trimmed, Overlaid;
    FrontSlices(line, x, c.header.ptr, c.header.ptr + c.header.len);
    FrontSlices(line, x, c.start, c.header.ptr);
    FrontSlices(line, x, c.header.ptr, c.end);
  }

  predicate AllWithin(cs: seq<Command>, x: nat) {
    forall k | 0 <= k < |cs| :: Within(cs[k], x)
  }

  lemma WithinTail(cs: seq<Command>, x: nat)
    requires cs != [] && AllWithin(cs, x)
    ensures Within(cs[0], x) && AllWithin(cs[1..], x)
  {
  }

  lemma SameNext(line: seq<char>, x: nat, c: Command, path: string, held: string, end: nat, known: string -> bool)
    requires x <= |line| && Within(c, x) && !c.header.kind.TokInvalid? && |path| <= |held|
    ensures HeaderOf(line[..x], c) == HeaderOf(line, c) && EventOf(line[..x], c, path, known) == EventOf(line, c, path, known)
    ensures NextHeld(line[..x], c, path, held, end, known) == NextHeld(line, c, path, held, end, known)
    ensures NextEnd(line[..x], c, path, end, known) == NextEnd(line, c, path, end, known)
  {
    hide HeaderOf, EventOf, Overwritten, Within;
    SameCommand(line, x, c, path, known);
  }

  /** What the parser does is in the text that holds the commands. */
  lemma {:induction false} SameLooks(line: seq<char>, x: nat, cs: seq<Command>, held: string, end: nat, known: string -> bool)
    requires x <= |line| && AllWithin(cs, x)
    ensures Looked(line[..x], cs, held, end, known) == Looked(line, cs, held, end, known)
    decreases |cs|
  {
    hide HeaderOf, EventOf, Lent, NextHeld, NextEnd, Within, AllWithin;
    if cs != [] {
      var c := cs[0];
      WithinTail(cs, x);
      if c.header.kind.TokInvalid? {
        SameLooks(line, x, cs[1..], held, end, known);
      } else {
        var lent := Lent(held, HeaderOf(line, c));
        SameNext(line, x, c, lent, held, end, known);
        SameLooks(line, x, cs[1..], NextHeld(line, c, lent, held, end, known), NextEnd(line, c, lent, end, known), known);
      }
    }
  }

  lemma {:induction false} SameResolves(line: seq<char>, x: nat, cs: seq<Command>, prev: string, known: string -> bool)
    requires x <= |line| && AllWithin(cs, x)
    ensures Events(line[..x], cs, prev, known) == Events(line, cs, prev, known)
    decreases |cs|
  {
    hide HeaderOf, EventOf, Lent, Within, AllWithin;
    if cs != [] {
      var c := cs[0];
      WithinTail(cs, x);
      if c.header.kind.TokInvalid? {
        SameResolves(line, x, cs[1..], prev, known);
      } else {
        var lent := Lent(prev, HeaderOf(line, c));
        SameCommand(line, x, c, lent, known);
        SameResolves(line, x, cs[1..], NextFound(line, c, lent, prev, known), known);
      }
    }
  }

  /** The commands of a line lie within its text. */
  lemma {:induction false} CommandsWithin(line: seq<char>, t: nat, x: nat)
    requires t <= |line| && TextEnd(line, t) <= x
    ensures AllWithin(Commands(line, t), x)
    decreases |line| - t
  {
    hide UnitAt, BodyAt, CommandAt, Within;
    var u, cs := UnitAt(line, t), CommandAt(line, t);
    TextEndBehind(line, t);
    FrontWithin(line, t, x);
    var later := if u.next < |line| then Commands(line, u.next) else [];
    if u.next < |line| {
      CommandsWithin(line, u.next, x);
    }
    assert Commands(line, t) == cs + later;
    forall k | 0 <= k < |cs + later| ensures Within((cs + later)[k], x) {
      if k >= |cs| {
        assert (cs + later)[k] == later[k - |cs|];
      }
    }
  }

  lemma FrontWithin(line: seq<char>, t: nat, x: nat)
    requires t <= |line|
    requires var u := UnitAt(line, t); (if u.term.TermNl? then BodyAt(line, t).end else u.next) <= x
    ensures AllWithin(CommandAt(line, t), x)
  {
    hide UnitAt, BodyAt;
    CommandOf(line, t);
  }

  /** The events of a line are those of its job. */
  lemma LineIsJob(line: seq<char>, known: string -> bool)
    ensures var x := TextEnd(line, 0);
            && LineLooks(line, known) == Looked(line[..x], Commands(line, 0), [], 0, known)
            && LineResolves(line, known) == Events(line[..x], Commands(line, 0), [], known)
  {
    hide TextEnd, Commands, Looked, Events;
    CommandsWithin(line, 0, TextEnd(line, 0));
    SameLooks(line, TextEnd(line, 0), Commands(line, 0), [], 0, known);
    SameResolves(line, TextEnd(line, 0), Commands(line, 0), [], known);
  }

  function JobLooks(jobs: seq<Job>, known: string -> bool): seq<Event> {
    if jobs == [] then [] else Looked(jobs[0].text, jobs[0].commands, [], 0, known) + JobLooks(jobs[1..], known)
  }

  function JobResolves(jobs: seq<Job>, known: string -> bool): seq<Event> {
    if jobs == [] then [] else Events(jobs[0].text, jobs[0].commands, [], known) + JobResolves(jobs[1..], known)
  }

  lemma {:induction false} LinesAreJobs(lines: seq<seq<char>>, known: string -> bool)
    ensures Looks(lines, known) == JobLooks(Jobs(lines), known) && Resolves(lines, known) == JobResolves(Jobs(lines), known)
  {
    hide LineLooks, LineResolves, Looked, Events, Commands, TextEnd;
    if lines != [] {
      var line, rest := lines[0], Jobs(lines[1..]);
      LinesAreJobs(lines[1..], known);
      LineIsJob(line, known);
      NoCommands(line[..TextEnd(line, 0)], known);
      assert Jobs(lines) == JobOf(line) + rest;
      if JobOf(line) == [] {
        assert JobOf(line) + rest == rest;
      } else {
        assert (JobOf(line) + rest)[1..] == rest;
      }
    }
  }

  lemma NoCommands(text: seq<char>, known: string -> bool)
    ensures Looked(text, [], [], 0, known) == [] && Events(text, [], [], known) == []
  {
  }

  /** Whatever the chunks, the parser does the same with a well-formed stream in which none breaks a line. */
  lemma SameHeaders(chunks: seq<seq<char>>, known: string -> bool)
    requires GoodStream(Flatten(chunks)) && Harmless([], chunks)
    ensures Looks(FeedAll([], chunks).0, known) == Looks(Drain(Flatten(chunks)).0, known)
    ensures Resolves(FeedAll([], chunks).0, known) == Resolves(Drain(Flatten(chunks)).0, known)
  {
    hide Looks, Resolves, Jobs, FeedAll, Drain, Harmless;
    ChunksDoNotMatter(chunks);
    LinesAreJobs(FeedAll([], chunks).0, known);
    LinesAreJobs(Drain(Flatten(chunks)).0, known);
  }

  /** On every one of the lines the path stays intact where it is used. */
  predicate AllIntact(lines: seq<seq<char>>, known: string -> bool) {
    forall i | 0 <= i < |lines| :: Intact(lines[i], Commands(lines[i], 0), [], [], 0, known)
  }

  /** There is one event for every command. */
  lemma {:induction false} EventCount(text: seq<char>, cs: seq<Command>, held: string, end: nat, prev: string,
                                      known: string -> bool)
    ensures |Looked(text, cs, held, end, known)| == |cs| == |Events(text, cs, prev, known)|
    decreases |cs|
  {
    hide HeaderOf, EventOf, Lent, NextHeld, NextEnd, NextFound;
    if cs != [] {
      var c := cs[0];
      if c.header.kind.TokInvalid? {
        EventCount(text, cs[1..], held, end, prev, known);
      } else {
        var h := HeaderOf(text, c);
        var a, b := Lent(held, h), Lent(prev, h);
        EventCount(text, cs[1..], NextHeld(text, c, a, held, end, known), NextEnd(text, c, a, end, known),
                   NextFound(text, c, b, prev, known), known);
      }
    }
  }

  lemma SameParts(a: seq<Event>, b: seq<Event>, x: seq<Event>, y: seq<Event>)
    requires |a| == |b|
    ensures a + x == b + y <==> a == b && x == y
  {
    if a + x == b + y {
      assert a == (a + x)[..|a|] && b == (b + y)[..|b|];
      assert x == (a + x)[|a|..] && y == (b + y)[|b|..];
    }
  }

  lemma IntactOnce(lines: seq<seq<char>>, known: string -> bool)
    requires lines != []
    ensures AllIntact(lines, known)
            <==> Intact(lines[0], Commands(lines[0], 0), [], [], 0, known) && AllIntact(lines[1..], known)
  {
    hide Intact, Commands;
    assert forall i | 0 <= i < |lines[1..]| :: lines[1..][i] == lines[i + 1];
    assert forall i | 0 < i < |lines| :: lines[i] == lines[1..][i - 1];
  }

  /** The parser does what it should if and only if the path stays intact on every line. */
  lemma {:induction false} IntactLines(lines: seq<seq<char>>, known: string -> bool)
    ensures Looks(lines, known) == Resolves(lines, known) <==> AllIntact(lines, known)
  {
    hide Intact, AllIntact, Commands, Looked, Events;
    if lines == [] {
      NoLines(known);
    } else {
      var cs := Commands(lines[0], 0);
      LookedExact(lines[0], cs, [], [], 0, known);
      EventCount(lines[0], cs, [], 0, [], known);
      IntactOnce(lines, known);
      IntactLines(lines[1..], known);
      SameParts(LineLooks(lines[0], known), LineResolves(lines[0], known),
                Looks(lines[1..], known), Resolves(lines[1..], known));
    }
  }

  lemma NoLines(known: string -> bool)
    ensures AllIntact([], known)
  {
  }

  lemma {:induction false} OneMoreLine(lines: seq<seq<char>>, line: seq<char>, known: string -> bool)
    ensures Looks(lines + [line], known) == Looks(lines, known) + LineLooks(line, known)
    decreases |lines|
  {
    hide LineLooks;
    if lines == [] {
      assert [] + [line] == [line] && [line][1..] == [];
    } else {
      OneMoreLine(lines[1..], line, known);
      assert (lines + [line])[1..] == lines[1..] + [line];
    }
  }

  lemma {:induction false} LooksJoin(a: seq<seq<char>>, b: seq<seq<char>>, known: string -> bool)
    ensures Looks(a + b, known) == Looks(a, known) + Looks(b, known)
  {
    hide LineLooks;
    if a == [] {
      assert a + b == b;
    } else {
      LooksJoin(a[1..], b, known);
      assert (a + b)[1..] == a[1..] + b;
      var first, later, more := LineLooks(a[0], known), Looks(a[1..], known), Looks(b, known);
      assert first + (later + more) == (first + later) + more;
    }
  }
}
