/** Streams of lines that are put together from their units: how they are cut, and what becomes of every header. */
module StreamTexts {
  import opened Wrappers
  import opened LexSpec
  import opened DataTokens
  import opened UnitTexts
  import opened LineTexts
  import opened Framing
  import opened ParseSpec
  import opened Session

  predicate LinesFormed(ls: seq<seq<UnitText>>) {
    forall k | 0 <= k < |ls| :: ls[k] != [] && AllFormed(ls[k])
  }

  /** The texts of the lines. */
  function Texts(ls: seq<seq<UnitText>>): seq<seq<char>>
    requires LinesFormed(ls)
  {
    if ls == [] then [] else [LineOf(ls[0])] + Texts(ls[1..])
  }

  /** A line in the buffer is found to its newline, whatever comes behind it. */
  lemma {:induction false} LineScanned(b: seq<char>, i: nat, e: nat, us: seq<UnitText>)
    requires us != [] && AllFormed(us) && Reads(b, i, e, LineOf(us))
    ensures i < e <= |b| && Scan(b, i) == Some(e)
    decreases |us|
  {
    hide Reads, LineOf, StandsAt, UnitAt, CommandText, UnitFormed;
    FrontOfLine(b, i, e, us);
    var n := i + |us[0].lead + CommandText(us[0])|;
    FirstUnit(b, i, n, us[0], if |us| == 1 then '\n' else ';');
    if |us| > 1 {
      LineScanned(b, n + 1, e, us[1..]);
    }
  }

  lemma FirstUnit(b: seq<char>, i: nat, n: nat, u: UnitText, end: char)
    requires StandsAt(b, i, n, u, end)
    ensures var x := UnitAt(b, i);
            x.next == n + 1 && !x.header.kind.TokUnknown? && x.term == if end == ';' then TermSemicolon else TermNl
  {
    hide UnitAt, CommandText, UnitFormed;
    UnitRead(b, i, n, u);
  }

  /** The buffer is cut into its lines, and nothing is left. */
  lemma {:induction false} StreamCut(ls: seq<seq<UnitText>>)
    requires LinesFormed(ls)
    ensures Drain(Flatten(Texts(ls))) == (Texts(ls), [])
    decreases |ls|
  {
    hide LineOf, AllFormed, Scan, UnitAt;
    if ls == [] {
      NothingToScan();
    } else {
      var line, later := LineOf(ls[0]), Flatten(Texts(ls[1..]));
      var b := line + later;
      assert Texts(ls)[1..] == Texts(ls[1..]);
      assert Flatten(Texts(ls)) == b;
      assert b[..|line|] == line && b[|line|..] == later;
      assert Reads(b, 0, |line|, line) by { FrontReads(line, later); }
      LineScanned(b, 0, |line|, ls[0]);
      StreamCut(ls[1..]);
    }
  }

  lemma FrontReads(line: seq<char>, later: seq<char>)
    ensures Reads(line + later, 0, |line|, line)
  {
    assert (line + later)[0..|line|] == line;
  }

  lemma NothingToScan()
    ensures Drain([]) == ([], [])
  {
    assert UnitAt([], 0).next == 0;
  }

  /** What becomes of the headers of all lines, each line from the root. */
  function AllOutcomes(ls: seq<seq<UnitText>>, known: string -> bool): seq<Event>
    requires LinesFormed(ls)
  {
    if ls == [] then [] else Outcomes(ls[0], None, known) + AllOutcomes(ls[1..], known)
  }

  /** From the characters of a stream to what its headers lead to. */
  lemma {:induction false} StreamOutcomes(ls: seq<seq<UnitText>>, known: string -> bool)
    requires LinesFormed(ls)
    ensures Resolves(Texts(ls), known) == AllOutcomes(ls, known)
    decreases |ls|
  {
    hide LineOf, AllFormed, Outcomes, Events, Commands;
    if ls != [] {
      LineResolved(ls[0], known);
      assert Texts(ls)[1..] == Texts(ls[1..]);
      StreamOutcomes(ls[1..], known);
    }
  }

  lemma LineResolved(us: seq<UnitText>, known: string -> bool)
    requires us != [] && AllFormed(us)
    ensures LineResolves(LineOf(us), known) == Outcomes(us, None, known)
  {
    hide LineOf, AllFormed, Outcomes, Events, Commands;
    var s := LineOf(us);
    WholeText(s);
    LineOutcomes(s, 0, us, None, known);
  }
}
