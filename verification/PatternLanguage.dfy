/** Which patterns the walk decides, in terms of the texts of pattern and header. */
module PatternLanguage {
  import opened HeaderSpec
  import opened HeaderText
  import M = MatchCommand

  /** Segments with colons between them. */
  function Joined(ss: seq<string>): string
    requires ss != []
  {
    ss[0] + if |ss| == 1 then "" else ":" + Joined(ss[1..])
  }

  predicate AllPlain(ss: seq<string>) {
    forall k | 0 <= k < |ss| :: M.Plain(ss[k]) && ss[k] != []
  }

  lemma {:induction false} ColonAt(c: string, j: nat, e: nat, end: nat)
    requires j <= e <= end <= |c| && (forall k | j <= k < e :: c[k] != ':') && (e < end ==> c[e] == ':')
    ensures ColonEnd(c, j, end) == e
    decreases e - j
  {
    if j < e {
      ColonAt(c, j + 1, e, end);
    }
  }

  lemma Slice(c: string, j: nat, end: nat, first: string, later: string)
    requires j <= end <= |c| && c[j..end] == first + later
    ensures j + |first| <= end && c[j..j + |first|] == first && c[j + |first|..end] == later
  {
    var t, e := c[j..end], j + |first|;
    assert forall k | 0 <= k < |first| :: c[j..e][k] == t[k] == first[k];
    assert forall k | 0 <= k < |later| :: c[e..end][k] == t[|first| + k] == later[k];
  }

  lemma FirstSegment(c: string, j: nat, e: nat, end: nat, first: string, later: string)
    requires j <= e <= end <= |c| && c[j..e] == first && c[e..end] == later && M.Plain(first)
    requires later != [] ==> later[0] == ':'
    ensures ColonEnd(c, j, end) == e && (e < end <==> later != [])
  {
    assert forall k | j <= k < e :: c[k] == first[k - j];
    if e < end {
      assert c[e] == later[0];
    }
    ColonAt(c, j, e, end);
  }

  /** The segments of joined segments. */
  lemma {:induction false} SegmentsJoined(c: string, j: nat, end: nat, ss: seq<string>)
    requires j <= end <= |c| && ss != [] && AllPlain(ss) && c[j..end] == Joined(ss)
    ensures Segments(c, j, end) == ss
    decreases |ss|
  {
    hide ColonEnd, M.Plain;
    var later := if |ss| == 1 then "" else ":" + Joined(ss[1..]);
    var e := j + |ss[0]|;
    Slice(c, j, end, ss[0], later);
    FirstSegment(c, j, e, end, ss[0], later);
    if |ss| > 1 {
      Slice(c, e, end, ":", Joined(ss[1..]));
      SegmentsJoined(c, e + 1, end, ss[1..]);
    }
  }

  /** The header for a pattern that joins the segments. */
  function HeaderFor(p: string, ss: seq<string>): string
    requires ss != []
  {
    Joined(ss) + if IsQuery(p) then "?" else ""
  }

  lemma HeaderSegments(p: string, ss: seq<string>)
    requires ss != [] && AllPlain(ss)
    ensures var c := HeaderFor(p, ss);
            && c != [] && (IsQuery(p) ==> IsQuery(c))
            && var end := BodyEnd(c, IsQuery(p));
               HeaderStart(c, end) == At(0) && Segments(c, 0, end) == ss
  {
    hide Segments;
    var c := HeaderFor(p, ss);
    var end := |Joined(ss)|;
    assert c[0..end] == Joined(ss);
    assert M.Plain(ss[0]) && c[0] == ss[0][0];
    SegmentsJoined(c, 0, end, ss);
  }

  /** The name of a node, as patterns have them: the short form is not empty. */
  predicate Proper(name: string) {
    var w := Word(name);
    w != [] && !IsLower(w[0])
  }

  lemma SpellingNotEmpty(name: string, t: string)
    requires Proper(name) && Spelled(name, t)
    ensures t != []
  {
    assert ShortLength(Word(name)) > 0;
  }

  lemma {:induction false} SpellingsPlain(nodes: seq<Node>, ss: seq<string>)
    requires forall k | 0 <= k < |nodes| :: M.Plain(nodes[k].name) && Proper(nodes[k].name)
    requires Spells(nodes, ss)
    ensures AllPlain(ss)
    decreases |nodes|
  {
    hide Spelled, Proper, M.Plain;
    if nodes != [] {
      var rest := nodes[1..];
      assert forall k | 0 <= k < |rest| :: rest[k] == nodes[k + 1];
      if ss != [] && Spelled(nodes[0].name, ss[0]) && Spells(rest, ss[1..]) {
        SpellingsPlain(rest, ss[1..]);
        M.PlainSpelling(nodes[0].name, ss[0]);
        SpellingNotEmpty(nodes[0].name, ss[0]);
        assert forall k | 0 < k < |ss| :: ss[k] == ss[1..][k - 1];
      } else {
        SpellingsPlain(rest, ss);
      }
    }
  }

  /**
   The walk accepts every header of a pattern's language if and only if no optional node
   shares a spelling with a mandatory node that it can be skipped to.
   */
  lemma LanguageDecided(p: string)
    requires Pattern(p) && forall k | 0 <= k < |PatternNodes(p)| :: Proper(PatternNodes(p)[k].name)
    ensures (forall c: string | c != [] && Language(p, c) :: Accepts(p, c)) <==> Unambiguous(PatternNodes(p))
  {
    hide Pattern, PatternNodes, Unambiguous, Spells, Greedy, Segments, Proper;
    var nodes := PatternNodes(p);
    if Unambiguous(nodes) {
      forall c: string | c != [] && Language(p, c) ensures Accepts(p, c) {
        AcceptsLanguage(p, c);
      }
    } else {
      WalkDecides(nodes);
      var ss: seq<string> :| ss != [] && Spells(nodes, ss) && !Greedy(nodes, ss);
      NodesPlain(p);
      SpellingsPlain(nodes, ss);
      HeaderSegments(p, ss);
      var c := HeaderFor(p, ss);
      assert Language(p, c) && !Accepts(p, c);
    }
  }

  lemma NodesPlain(p: string)
    requires Pattern(p)
    ensures forall k | 0 <= k < |PatternNodes(p)| :: M.Plain(PatternNodes(p)[k].name)
  {
    hide NodesAt, WellFormed;
    M.NamesPlain(p, FirstName(p), p[0] == '[', BodyEnd(p, IsQuery(p)));
  }
}
