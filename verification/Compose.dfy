/**
 Relative headers. A header that does not start at the root is completed, in
 place, with the path of the header before it; SCPI-99, section 6.2.4.
 */
module Compose {
  import opened Wrappers

  /** The length of `t` up to and including its last colon; 0 without one. */
  function PathLength(t: string): (n: nat)
    ensures n <= |t|
    ensures n > 0 ==> t[n - 1] == ':'
    ensures forall k | n <= k < |t| :: t[k] != ':'
  {
    if t == [] then 0 else if t[|t| - 1] == ':' then |t| else PathLength(t[..|t| - 1])
  }

  predicate Absolute(header: string) {
    header != [] && (header[0] == '*' || header[0] == ':')
  }

  /** How much of the previous header `prev` goes before `header`. */
  function Borrowed(prev: string, header: string): (n: nat)
    ensures n <= |prev|
  {
    if prev == [] || Absolute(header) || prev[0] == '*' then 0 else PathLength(prev)
  }

  /** The path that `prev` lends to relative headers. */
  function PathIn(prev: string): string {
    if prev == [] || prev[0] == '*' then [] else prev[..PathLength(prev)]
  }

  /** The path that goes before `header`. */
  function Lent(prev: string, header: string): (path: string)
    ensures |path| == Borrowed(prev, header) && path == prev[..|path|]
    ensures path == if Absolute(header) then [] else PathIn(prev)
  {
    prev[..Borrowed(prev, header)]
  }

  /** The header that is looked up. */
  function Resolve(prev: string, header: string): string {
    prev[..Borrowed(prev, header)] + header
  }

  /** The nodes of a path: the texts between its colons. */
  function Nodes(path: string): (ns: seq<string>)
    ensures ns != []
  {
    var n := PathLength(path);
    if n == 0 then [path] else Nodes(path[..n - 1]) + [path[n..]]
  }

  /** Relative headers resolve alike behind `a` and behind `b` exactly when both lend the same path. */
  lemma ResolveAgrees(a: string, b: string, header: string)
    requires !Absolute(header)
    ensures Resolve(a, header) == Resolve(b, header) <==> PathIn(a) == PathIn(b)
  {
    hide PathIn;
    var x, y := Lent(a, header), Lent(b, header);
    assert Resolve(a, header) == x + header && Resolve(b, header) == y + header;
    if x + header == y + header {
      assert (x + header)[..|x|] == x && (y + header)[..|y|] == y;
    }
  }

  lemma PathLengthIs(t: string, n: nat)
    requires n <= |t| && (n > 0 ==> t[n - 1] == ':') && forall k | n <= k < |t| :: t[k] != ':'
    ensures PathLength(t) == n
  {
  }

  /** In terms of the command tree: a relative header is looked up one level above the previous one. */
  lemma {:induction false} ResolveClimbs(prev: string, header: string)
    requires Borrowed(prev, header) > 0
    ensures Nodes(Resolve(prev, header)) == Nodes(prev)[..|Nodes(prev)| - 1] + Nodes(header)
    decreases |header|
  {
    hide PathLength;
    var n := PathLength(prev);
    NodesJoin(prev[..n], header);
    assert prev[..n][..n - 1] == prev[..n - 1];
  }

  lemma {:induction false} NodesJoin(path: string, header: string)
    requires path != [] && path[|path| - 1] == ':'
    ensures Nodes(path + header) == Nodes(path[..|path| - 1]) + Nodes(header)
    decreases |header|
  {
    hide PathLength;
    var n := |path|;
    var t := path + header;
    var m := PathLength(header);
    PathLengthIs(t, n + m);
    if m == 0 {
      assert t[..n - 1] == path[..n - 1] && t[n..] == header;
    } else {
      assert t[..n + m - 1] == path + header[..m - 1];
      assert t[n + m..] == header[m..];
      NodesJoin(path, header[..m - 1]);
    }
  }

  /** A header in the line buffer. */
  datatype Span = Span(ptr: nat, len: nat)

  /** The bytes of a header; nothing when there was none. */
  function TextOf(line: seq<char>, s: Option<Span>): string
    requires s.Some? ==> s.value.ptr + s.value.len <= |line|
  {
    if s.None? then [] else line[s.value.ptr..s.value.ptr + s.value.len]
  }

  /** The previous header, if any, ends at or before `p`. */
  predicate Before(s: Option<Span>, p: nat) {
    s.Some? ==> s.value.ptr + s.value.len <= p
  }

  /** Find the last colon of a header, from its end. */
  method LastColon(line: array<char>, s: Span) returns (i: nat)
    requires s.ptr + s.len <= line.Length
    ensures i == PathLength(line[s.ptr..s.ptr + s.len])
  {
    hide PathLength;
    ghost var text := line[s.ptr..s.ptr + s.len];
    i := s.len;
    while i > 0
      invariant i <= s.len
      invariant forall k | i <= k < s.len :: text[k] != ':'
    {
      if line[s.ptr + i - 1] == ':' {
        break;
      }
      i := i - 1;
    }
    PathLengthIs(text, i);
  }

  /** Move `n` bytes; the two stretches may overlap. */
  method Move(line: array<char>, to: nat, from: nat, n: nat)
    requires to + n <= line.Length && from + n <= line.Length
    modifies line
    ensures line[..] == old(line[..to] + line[from..from + n] + line[to + n..])
  {
    forall k | 0 <= k < n {
      line[to + k] := line[from + k];
    }
  }

  /** What the header `current` borrows from `prev`. */
  function Path(line: seq<char>, prev: Option<Span>, current: Span): (path: string)
    requires current.ptr + current.len <= |line| && Before(prev, current.ptr)
    ensures |path| <= if prev.None? then 0 else prev.value.len
  {
    var t := TextOf(line, prev);
    t[..Borrowed(t, TextOf(line, Some(current)))]
  }

  /** The line with that path written in front of `current`. */
  function Composed(line: seq<char>, prev: Option<Span>, current: Span): seq<char>
    requires current.ptr + current.len <= |line| && Before(prev, current.ptr)
  {
    var path := Path(line, prev, current);
    line[..current.ptr - |path|] + path + line[current.ptr..]
  }

  /** The completed header. */
  function Found(line: seq<char>, prev: Option<Span>, current: Span): (r: Span)
    requires current.ptr + current.len <= |line| && Before(prev, current.ptr)
    ensures r.ptr + r.len == current.ptr + current.len && r.ptr <= current.ptr
    ensures prev.Some? ==> prev.value.ptr <= r.ptr
  {
    var n := |Path(line, prev, current)|;
    Span(current.ptr - n, current.len + n)
  }

  /**
   The completed header is the resolved one. Nothing from the start of the original
   header on is written, and nothing before the start of the previous header.
   */
  lemma ComposedText(line: seq<char>, prev: Option<Span>, current: Span)
    requires current.ptr + current.len <= |line| && Before(prev, current.ptr)
    ensures var now, r := Composed(line, prev, current), Found(line, prev, current);
            && |now| == |line|
            && now[current.ptr..] == line[current.ptr..]
            && now[..r.ptr] == line[..r.ptr]
            && TextOf(now, Some(r)) == Resolve(TextOf(line, prev), TextOf(line, Some(current)))
  {
    hide Borrowed;
    var r, path := Found(line, prev, current), Path(line, prev, current);
    Inserted(line, path, r.ptr, current.ptr, current.ptr + current.len);
  }

  /** A text written over what stands from `a` to `b`. */
  lemma Inserted(line: seq<char>, path: string, a: nat, b: nat, e: nat)
    requires a + |path| == b <= e <= |line|
    ensures var now := line[..a] + path + line[b..];
            |now| == |line| && now[b..] == line[b..] && now[..a] == line[..a] && now[a..e] == path + line[b..e]
  {
    var now := line[..a] + path + line[b..];
    assert forall k | 0 <= k < e - a :: now[a..e][k] == (path + line[b..e])[k];
  }

  lemma FirstOf(line: seq<char>, s: Span)
    requires s.ptr + s.len <= |line| && s.len > 0
    ensures |TextOf(line, Some(s))| == s.len && TextOf(line, Some(s))[0] == line[s.ptr]
  {
  }

  lemma NoText(line: seq<char>, s: Option<Span>)
    requires s.Some? ==> s.value.ptr <= |line| && s.value.len == 0
    ensures TextOf(line, s) == []
  {
  }

  lemma SomeText(line: seq<char>, s: Span, i: nat)
    requires s.ptr + s.len <= |line| && i <= s.len
    ensures TextOf(line, Some(s)) == line[s.ptr..s.ptr + s.len]
    ensures TextOf(line, Some(s))[..i] == line[s.ptr..s.ptr + i]
  {
  }

  /** How many bytes to move. */
  method Distance(line: array<char>, prev: Option<Span>, current: Span) returns (i: nat)
    requires current.len > 0 && current.ptr + current.len <= line.Length && Before(prev, current.ptr)
    ensures i == |Path(line[..], prev, current)|
    ensures i > 0 ==> prev.Some? && Path(line[..], prev, current) == line[prev.value.ptr..prev.value.ptr + i]
  {
    hide PathLength, TextOf;
    ghost var t, h := TextOf(line[..], prev), TextOf(line[..], Some(current));
    assert |h| == current.len && h[0] == line[current.ptr] by { FirstOf(line[..], current); }
    assert t == [] || (prev.Some? && |t| == prev.value.len && t[0] == line[prev.value.ptr]) by {
      if prev.Some? && prev.value.len > 0 {
        FirstOf(line[..], prev.value);
      } else {
        NoText(line[..], prev);
      }
    }
    i := 0;
    if prev.Some? && prev.value.len > 0 && line[current.ptr] != '*' && line[current.ptr] != ':'
      && line[prev.value.ptr] != '*' {
      i := LastColon(line, prev.value);
      assert line[..][prev.value.ptr..prev.value.ptr + prev.value.len]
          == line[prev.value.ptr..prev.value.ptr + prev.value.len];
      SomeText(line[..], prev.value, i);
    }
  }

  /** Complete the header `current` with the path of `prev`, writing just in front of it. */
  method ComposeCompoundCommand(line: array<char>, prev: Option<Span>, current: Span) returns (r: Span)
    requires current.len > 0 && current.ptr + current.len <= line.Length && Before(prev, current.ptr)
    modifies line
    ensures line[..] == old(Composed(line[..], prev, current)) && r == old(Found(line[..], prev, current))
  {
    hide Path;
    var i := Distance(line, prev, current);
    r := Span(current.ptr - i, current.len + i);
    if i > 0 {
      Move(line, r.ptr, prev.value.ptr, i);
    }
  }
}
