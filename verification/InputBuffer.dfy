/** The input buffer of the instrument and the entry point that fills it. */
module InputBuffer {
  import opened Wrappers
  import opened LexSpec
  import opened Framing
  import opened Streams
  import opened Forced
  import opened ParseSpec
  import opened Session
  import ParseLine
  import MessageUnit

  /** The scan from a unit without a newline goes on at the next unit, or gives up. */
  lemma ScanNext(b: seq<char>, t: nat)
    requires t <= |b|
    ensures var u := UnitAt(b, t);
            Scan(b, t) == if u.term.TermNl? then Some(u.next)
                          else if (u.header.kind.TokUnknown? && u.term.TermNone?) || u.next >= |b| then None
                          else Scan(b, u.next)
  {
    hide UnitAt;
  }

  lemma Kept(was: seq<char>, now: seq<char>, n: nat, position: nat)
    requires n <= position <= |was| == |now| && was[n..] == now[n..]
    ensures was[..position][n..] == now[..position][n..]
  {
    assert was[..position][n..] == was[n..][..position - n];
    assert now[..position][n..] == now[n..][..position - n];
  }

  lemma NoneYet(events: seq<Event>, known: string -> bool, all: seq<seq<char>>)
    ensures events + Looks([], known) == events && [] + all == all
  {
  }

  /** The next line's events go behind those of the lines before it. */
  lemma OneMore(events: seq<Event>, lines: seq<seq<char>>, line: seq<char>, later: seq<seq<char>>, known: string -> bool)
    ensures lines + ([line] + later) == (lines + [line]) + later
    ensures (events + Looks(lines, known)) + LineLooks(line, known) == events + Looks(lines + [line], known)
  {
    hide Looks, LineLooks;
    OneMoreLine(lines, line, known);
  }

  /** Chunk by chunk. */
  lemma OneMoreChunk(lines: seq<seq<char>>, b: seq<char>, chunks: seq<seq<char>>, known: string -> bool, events: seq<Event>)
    requires chunks != []
    ensures var first := FeedOne(b, chunks[0]); var rest := FeedAll(first.1, chunks[1..]);
            && FeedAll(b, chunks) == (first.0 + rest.0, rest.1)
            && (lines + first.0) + rest.0 == lines + FeedAll(b, chunks).0
            && (events + Looks(first.0, known)) + Looks(rest.0, known) == events + Looks(FeedAll(b, chunks).0, known)
  {
    hide FeedOne, Looks;
    var first := FeedOne(b, chunks[0]);
    LooksJoin(first.0, FeedAll(first.1, chunks[1..]).0, known);
  }

  class InputBuffer {
    /** Which headers are found in the command list. */
    const known: string -> bool
    /** Lines handed to the parser so far, what the parser did, and buffer overrun errors reported. */
    var parsed: seq<seq<char>>
    var events: seq<Event>
    var overruns: nat
    const data: array<char>
    var position: nat

    ghost predicate Valid()
      reads this
    {
      position < data.Length
    }

    ghost function Contents(): seq<char>
      requires Valid()
      reads this, data
    {
      data[..position]
    }

    constructor (length: nat, known: string -> bool)
      requires length > 0
      ensures Valid() && fresh(data) && data.Length == length && this.known == known
      ensures Contents() == [] && parsed == [] && events == [] && overruns == 0
    {
      data := new char[length](_ => '\0');
      position, overruns, parsed, events := 0, 0, [], [];
      this.known := known;
    }

    method Append(chunk: seq<char>)
      requires Valid() && position + |chunk| < data.Length
      modifies `position, data
      ensures Valid() && Contents() == old(Contents()) + chunk
    {
      forall i | 0 <= i < |chunk| {
        data[position + i] := chunk[i];
      }
      position := position + |chunk|;
      data[position] := '\0';
    }

    /** Move what follows the first `n` characters to the front. */
    method Discard(n: nat)
      requires Valid() && n <= position
      modifies `position, data
      ensures Valid() && Contents() == old(Contents())[n..]
    {
      forall i | 0 <= i < position - n {
        data[i] := data[n + i];
      }
      position := position - n;
    }

    /**
     Parse the first `n` characters. The parser overwrites some of them, and none of
     those that follow.
     */
    method Parse(n: nat)
      requires Valid() && n <= position
      modifies `parsed, `events, data
      ensures Valid() && |Contents()| == |old(Contents())| && Contents()[n..] == old(Contents())[n..]
      ensures parsed == old(parsed) + [old(Contents())[..n]]
      ensures events == old(events) + LineLooks(old(Contents())[..n], known)
    {
      hide Looked, Commands;
      ghost var was := data[..];
      assert data[..n] == Contents()[..n];
      parsed := parsed + [data[..n]];
      var done := ParseLine.ParseLine(data, n, known);
      events := events + done;
      assert data[..][n..] == was[n..];
      Kept(was, data[..], n, position);
    }

    /** Hand every complete line at the front of the buffer to the parser. */
    method ParseLines()
      requires Valid()
      modifies this, data
      ensures Valid() && overruns == old(overruns)
      ensures var (lines, rest) := Drain(old(Contents()));
              parsed == old(parsed) + lines && Contents() == rest && events == old(events) + Looks(lines, known)
    {
      hide UnitAt, Scan, Drain, Looks, LineLooks;
      var total: nat := 0;
      ghost var lines: seq<seq<char>>, start := [], Contents();
      NoneYet(events, known, Drain(start).0);
      while true
        invariant Valid() && total <= position && overruns == old(overruns)
        invariant Scan(Contents(), total) == Scan(Contents(), 0)
        invariant Drain(start) == (lines + Drain(Contents()).0, Drain(Contents()).1)
        invariant parsed == old(parsed) + lines && events == old(events) + Looks(lines, known)
        decreases position, position - total
      {
        var unit := MessageUnit.DetectProgramMessageUnit(data[..position], total);
        ScanNext(Contents(), total);
        total := unit.next;
        if unit.term.TermNl? {
          DrainStep(Contents(), total);
          ghost var line, later := Contents()[..total], Drain(Contents()[total..]).0;
          OneMore(old(events), lines, line, later, known);
          Parse(total);
          Discard(total);
          lines := lines + [line];
          total := 0;
        } else if (unit.header.kind.TokUnknown? && unit.term.TermNone?) || total >= position {
          break;
        }
      }
      DrainNone(Contents());
      assert lines + [] == lines;
    }

    /**
     Take in a chunk. An empty one forces the parser on what has arrived; one that
     does not fit drops the buffer and reports an overrun.
     */
    method Input(chunk: seq<char>) returns (ok: bool)
      requires Valid()
      modifies this, data
      ensures Valid()
      ensures ok <==> chunk == [] || old(position) + |chunk| < data.Length
      ensures !ok ==> Contents() == [] && parsed == old(parsed) && events == old(events) && overruns == old(overruns) + 1
      ensures ok ==>
                var (lines, rest) := FeedOne(old(Contents()), chunk);
                && parsed == old(parsed) + lines && Contents() == rest
                && events == old(events) + Looks(lines, known) && overruns == old(overruns)
    {
      hide Drain, Looked, Commands;
      ok := true;
      if |chunk| == 0 {
        data[position] := '\0';
        assert Contents()[..position] == Contents();
        Parse(position);
        assert [Contents()][1..] == [];
        position := 0;
      } else {
        var free := data.Length - position;
        if |chunk| > free - 1 {
          position := 0;
          data[position] := '\0';
          overruns := overruns + 1;
          return false;
        }
        Append(chunk);
        ParseLines();
      }
    }

    /**
     An application that hands over chunk after chunk, none too large. When the chunks are
     a well-formed stream and none breaks a line, the parser does what it does with the stream as
     a whole; that is what the stream resolves to exactly when paths stay intact.
     */
    method InputAll(chunks: seq<seq<char>>)
      requires Valid() && Fits(Contents(), chunks, data.Length)
      modifies this, data
      ensures Valid() && overruns == old(overruns)
      ensures var (lines, rest) := FeedAll(old(Contents()), chunks);
              parsed == old(parsed) + lines && Contents() == rest && events == old(events) + Looks(lines, known)
      ensures old(Contents()) == [] && GoodStream(Flatten(chunks)) && Harmless([], chunks) ==>
                && Contents() == []
                && events == old(events) + Looks(Drain(Flatten(chunks)).0, known)
                && (events == old(events) + Resolves(Drain(Flatten(chunks)).0, known)
                    <==> AllIntact(Drain(Flatten(chunks)).0, known))
    {
      hide FeedOne, FeedAll, Looks, Resolves, Drain, GoodStream, AllIntact, Fits, Harmless;
      ghost var start, all := Contents(), FeedAll(Contents(), chunks);
      NoneYet(events, known, all.0);
      assert chunks[0..] == chunks;
      for i := 0 to |chunks|
        invariant Valid() && overruns == old(overruns)
        invariant Fits(Contents(), chunks[i..], data.Length)
        invariant parsed + FeedAll(Contents(), chunks[i..]).0 == old(parsed) + all.0
        invariant FeedAll(Contents(), chunks[i..]).1 == all.1
        invariant events + Looks(FeedAll(Contents(), chunks[i..]).0, known) == old(events) + Looks(all.0, known)
      {
        ghost var rest := chunks[i..];
        FitsOnce(Contents(), rest, data.Length);
        OneMoreChunk(parsed, Contents(), rest, known, events);
        assert rest[1..] == chunks[i + 1..];
        var ok := Input(chunks[i]);
      }
      assert chunks[|chunks|..] == [];
      AllFed(Contents(), known, events, parsed);
      if start == [] && GoodStream(Flatten(chunks)) && Harmless([], chunks) {
        ChunksDoNotMatter(chunks);
        SameHeaders(chunks, known);
        var lines := Drain(Flatten(chunks)).0;
        IntactLines(lines, known);
        SameParts(old(events), old(events), Looks(lines, known), Resolves(lines, known));
      }
    }
  }

  lemma FitsOnce(b: seq<char>, chunks: seq<seq<char>>, room: nat)
    requires chunks != [] && Fits(b, chunks, room)
    ensures chunks[0] == [] || |b| + |chunks[0]| < room
    ensures Fits(FeedOne(b, chunks[0]).1, chunks[1..], room)
  {
    hide FeedOne;
  }

  lemma AllFed(b: seq<char>, known: string -> bool, events: seq<Event>, parsed: seq<seq<char>>)
    ensures FeedAll(b, []) == ([], b) && events + Looks([], known) == events && parsed + [] == parsed
  {
  }
}
