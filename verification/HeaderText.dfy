/** Patterns and headers as texts. */
module HeaderText {
  import opened HeaderSpec

  predicate IsSeparator(c: char) { c == '?' || c == ':' || c == '[' || c == ']' }

  /** The first of `?:[]` at or behind `i`, or `end`. */
  function NameEnd(p: string, i: nat, end: nat): (e: nat)
    requires i <= end <= |p|
    ensures i <= e <= end
    ensures e < end ==> IsSeparator(p[e])
    ensures forall k | i <= k < e :: !IsSeparator(p[k])
    decreases end - i
  {
    if i == end || IsSeparator(p[i]) then i else NameEnd(p, i + 1, end)
  }

  /** The next node begins at `a`, or the pattern ends there. */
  predicate Boundary(p: string, a: nat, end: nat)
    requires end <= |p|
  {
    a == end || (a < end && p[a] == ':') || (a + 1 < end && p[a] == '[' && p[a + 1] == ':')
  }

  /** Where the node whose name starts at `i` ends, its closing bracket included. */
  function NodeEnd(p: string, i: nat, optional: bool, end: nat): (a: nat)
    requires i <= end <= |p|
    ensures i <= a
  {
    NameEnd(p, i, end) + if optional then 1 else 0
  }

  predicate NodeFormed(p: string, i: nat, optional: bool, end: nat)
    requires i <= end <= |p|
  {
    var e := NameEnd(p, i, end);
    && i < e
    && (optional ==> e < end && p[e] == ']')
    && Boundary(p, NodeEnd(p, i, optional, end), end)
  }

  /** From the name at `i` on: names, each optional one closed by its own bracket. */
  predicate WellFormed(p: string, i: nat, optional: bool, end: nat)
    requires i <= end <= |p|
    decreases end - i
  {
    && NodeFormed(p, i, optional, end)
    && RestFormed(p, NodeEnd(p, i, optional, end), end)
  }

  predicate RestFormed(p: string, a: nat, end: nat)
    requires end <= |p| && Boundary(p, a, end)
    decreases end - a
  {
    a == end || (if p[a] == ':' then WellFormed(p, a + 1, false, end) else WellFormed(p, a + 2, true, end))
  }

  /** The nodes from the name at `i` on. */
  function NodesAt(p: string, i: nat, optional: bool, end: nat): (ns: seq<Node>)
    requires i <= end <= |p| && WellFormed(p, i, optional, end)
    ensures ns != []
    decreases end - i
  {
    [Node(p[i..NameEnd(p, i, end)], optional)] + NodesBehind(p, NodeEnd(p, i, optional, end), end)
  }

  function NodesBehind(p: string, a: nat, end: nat): (ns: seq<Node>)
    requires end <= |p| && Boundary(p, a, end) && RestFormed(p, a, end)
    ensures a == end <==> ns == []
    decreases end - a
  {
    if a == end then []
    else if p[a] == ':' then NodesAt(p, a + 1, false, end)
    else NodesAt(p, a + 2, true, end)
  }

  /** A query pattern ends in a question mark. */
  predicate IsQuery(p: string) {
    p != [] && p[|p| - 1] == '?'
  }

  /** The length of a header or pattern without its question mark. */
  function BodyEnd(p: string, query: bool): nat
    requires query ==> p != []
  {
    if query then |p| - 1 else |p|
  }

  /** Where the first name starts: behind an opening bracket and a colon, if any. */
  function FirstName(p: string): (i: nat)
    ensures i <= |p|
  {
    var o := if p != [] && p[0] == '[' then 1 else 0;
    if o < |p| && p[o] == ':' then o + 1 else o
  }

  predicate Pattern(p: string) {
    && p != []
    && var end := BodyEnd(p, IsQuery(p));
       FirstName(p) <= end && WellFormed(p, FirstName(p), p[0] == '[', end)
  }

  function PatternNodes(p: string): (ns: seq<Node>)
    requires Pattern(p)
    ensures ns != []
  {
    NodesAt(p, FirstName(p), p[0] == '[', BodyEnd(p, IsQuery(p)))
  }

  function ColonEnd(c: string, j: nat, end: nat): (e: nat)
    requires j <= end <= |c|
    ensures j <= e <= end
    ensures e < end ==> c[e] == ':'
    ensures forall k | j <= k < e :: c[k] != ':'
    decreases end - j
  {
    if j == end || c[j] == ':' then j else ColonEnd(c, j + 1, end)
  }

  /** The texts between the colons. */
  function Segments(c: string, j: nat, end: nat): (r: seq<string>)
    requires j <= end <= |c|
    ensures r != []
    decreases end - j
  {
    var e := ColonEnd(c, j, end);
    [c[j..e]] + if e < end then Segments(c, e + 1, end) else []
  }

  /** A header may start with a colon, but not in front of a common command. */
  datatype Start = Reject | At(j: nat)

  function HeaderStart(c: string, end: nat): (r: Start)
    requires c != [] && end <= |c|
    ensures r.At? ==> r.j <= end
  {
    if end < 2 || c[0] != ':' then At(0) else if c[1] == '*' then Reject else At(1)
  }

  /** The headers that a pattern stands for. */
  predicate Language(p: string, c: string)
    requires Pattern(p) && c != []
  {
    var end := BodyEnd(c, IsQuery(p));
    && (IsQuery(p) ==> IsQuery(c))
    && HeaderStart(c, end).At?
    && Spells(PatternNodes(p), Segments(c, HeaderStart(c, end).j, end))
  }

  /** The same with the greedy walk. */
  predicate Accepts(p: string, c: string)
    requires Pattern(p) && c != []
  {
    var end := BodyEnd(c, IsQuery(p));
    && (IsQuery(p) ==> IsQuery(c))
    && HeaderStart(c, end).At?
    && Greedy(PatternNodes(p), Segments(c, HeaderStart(c, end).j, end))
  }

  /** The walk accepts nothing outside the language, and all of it when no spelling is shared. */
  lemma AcceptsLanguage(p: string, c: string)
    requires Pattern(p) && c != []
    ensures Accepts(p, c) ==> Language(p, c)
    ensures Unambiguous(PatternNodes(p)) && Language(p, c) ==> Accepts(p, c)
  {
    hide PatternNodes, Segments, Greedy, Spells, Unambiguous, Pattern;
    var end := BodyEnd(c, IsQuery(p));
    if HeaderStart(c, end).At? {
      var ns, ss := PatternNodes(p), Segments(c, HeaderStart(c, end).j, end);
      if Greedy(ns, ss) {
        GreedySound(ns, ss);
      }
      if Unambiguous(ns) && Spells(ns, ss) {
        GreedyComplete(ns, ss);
      }
    }
  }
}
