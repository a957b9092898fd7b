/**
 The language of command headers that a pattern such as `[:MEASure]:VOLTage:DC?`
 stands for, and the greedy walk that decides it.
 */
module HeaderSpec {
  import opened LexSpec

  predicate IsLower(c: char) { 'a' <= c <= 'z' }
  predicate IsUpper(c: char) { 'A' <= c <= 'Z' }

  function Fold(c: char): char {
    if IsUpper(c) then c - 'A' + 'a' else c
  }

  /** Equal but for the case of letters. */
  predicate SameText(a: string, b: string) {
    |a| == |b| && forall k | 0 <= k < |a| :: Fold(a[k]) == Fold(b[k])
  }

  /** The number of characters before the first lower-case letter. */
  function ShortLength(name: string): (n: nat)
    ensures n <= |name|
    ensures forall k | 0 <= k < n :: !IsLower(name[k])
    ensures n < |name| ==> IsLower(name[n])
  {
    if name == [] || IsLower(name[0]) then 0 else 1 + ShortLength(name[1..])
  }

  predicate AllDigits(t: string) {
    forall k | 0 <= k < |t| :: IsDigit(t[k])
  }

  /** `form`, then any digits. */
  predicate WithNumber(form: string, t: string) {
    |form| <= |t| && SameText(form, t[..|form|]) && AllDigits(t[|form|..])
  }

  predicate IsNumeric(name: string) {
    name != [] && name[|name| - 1] == '#'
  }

  /** `t` spells the node: long or short form, in any case, and digits where the name ends in `#`. */
  predicate Spelled(name: string, t: string) {
    if IsNumeric(name) then
      var base := name[..|name| - 1];
      WithNumber(base, t) || WithNumber(base[..ShortLength(base)], t)
    else SameText(name, t) || SameText(name[..ShortLength(name)], t)
  }

  datatype Node = Node(name: string, optional: bool)

  /** Leaving out some optional nodes, the others spell the segments one by one. */
  predicate Spells(nodes: seq<Node>, segments: seq<string>) {
    if nodes == [] then segments == []
    else
      || (segments != [] && Spelled(nodes[0].name, segments[0]) && Spells(nodes[1..], segments[1..]))
      || (nodes[0].optional && Spells(nodes[1..], segments))
  }

  predicate AllOptional(nodes: seq<Node>) {
    forall k | 0 <= k < |nodes| :: nodes[k].optional
  }

  /** The walk: a node that can be spelled by the current segment is taken at once. */
  predicate Greedy(nodes: seq<Node>, segments: seq<string>)
    requires nodes != [] && segments != []
  {
    if Spelled(nodes[0].name, segments[0]) then
      if |segments| == 1 then AllOptional(nodes[1..])
      else |nodes| > 1 && Greedy(nodes[1..], segments[1..])
    else nodes[0].optional && |nodes| > 1 && Greedy(nodes[1..], segments)
  }

  lemma {:induction false} OptionalTail(nodes: seq<Node>)
    requires AllOptional(nodes)
    ensures Spells(nodes, [])
  {
    if nodes != [] {
      OptionalTail(nodes[1..]);
    }
  }

  lemma {:induction false} EmptyTail(nodes: seq<Node>)
    requires Spells(nodes, [])
    ensures AllOptional(nodes)
  {
    if nodes != [] {
      EmptyTail(nodes[1..]);
      assert forall k | 0 < k < |nodes| :: nodes[k] == nodes[1..][k - 1];
    }
  }

  /** Whatever the walk accepts is in the language. */
  lemma {:induction false} GreedySound(nodes: seq<Node>, segments: seq<string>)
    requires nodes != [] && segments != [] && Greedy(nodes, segments)
    ensures Spells(nodes, segments)
    decreases |nodes|
  {
    hide Spelled;
    if Spelled(nodes[0].name, segments[0]) {
      if |segments| == 1 {
        OptionalTail(nodes[1..]);
      } else {
        GreedySound(nodes[1..], segments[1..]);
      }
    } else {
      GreedySound(nodes[1..], segments);
    }
  }

  /** The node `j` can be reached from the optional node `i` by leaving out optional nodes. */
  predicate Reaches(nodes: seq<Node>, i: nat, j: nat)
    requires j < |nodes|
  {
    i < j && forall k | i <= k < j :: nodes[k].optional
  }

  /** No optional node shares a spelling with a mandatory node that it can be skipped to. */
  ghost predicate Unambiguous(nodes: seq<Node>) {
    forall i: nat, j: nat, t: string | j < |nodes| && Reaches(nodes, i, j) && !nodes[j].optional ::
      !(Spelled(nodes[i].name, t) && Spelled(nodes[j].name, t))
  }

  lemma UnambiguousTail(nodes: seq<Node>)
    requires nodes != [] && Unambiguous(nodes)
    ensures Unambiguous(nodes[1..])
  {
    hide Spelled;
    var rest := nodes[1..];
    forall i: nat, j: nat, t: string | j < |rest| && Reaches(rest, i, j) && !rest[j].optional
      ensures !(Spelled(rest[i].name, t) && Spelled(rest[j].name, t))
    {
      assert forall k | i + 1 <= k < j + 1 :: nodes[k] == rest[k - 1];
      assert Reaches(nodes, i + 1, j + 1);
    }
  }

  /** The first segment is spelled by a node that only optional ones precede; the rest is spelled behind it. */
  lemma {:induction false} Taker(nodes: seq<Node>, segments: seq<string>) returns (j: nat)
    requires segments != [] && Spells(nodes, segments)
    ensures j < |nodes| && Spelled(nodes[j].name, segments[0]) && forall k | 0 <= k < j :: nodes[k].optional
    ensures Spells(nodes[j + 1..], segments[1..])
  {
    hide Spelled;
    if Spelled(nodes[0].name, segments[0]) && Spells(nodes[1..], segments[1..]) {
      j := 0;
    } else {
      var i := Taker(nodes[1..], segments);
      assert forall k | 0 < k < i + 1 :: nodes[k] == nodes[1..][k - 1];
      assert nodes[1..][i + 1..] == nodes[i + 2..];
      j := i + 1;
    }
  }

  lemma {:induction false} SkipAll(nodes: seq<Node>, j: nat, segments: seq<string>)
    requires j <= |nodes| && (forall k | 0 <= k < j :: nodes[k].optional) && Spells(nodes[j..], segments)
    ensures Spells(nodes, segments)
    decreases j
  {
    hide Spelled;
    if j == 0 {
      assert nodes[0..] == nodes;
    } else {
      assert nodes[1..][j - 1..] == nodes[j..];
      assert forall k | 0 <= k < j - 1 :: nodes[1..][k] == nodes[k + 1];
      SkipAll(nodes[1..], j - 1, segments);
    }
  }

  /** What the front node can take, it may take. */
  lemma FrontTakes(nodes: seq<Node>, segments: seq<string>)
    requires nodes != [] && segments != [] && Unambiguous(nodes) && Spells(nodes, segments)
    requires Spelled(nodes[0].name, segments[0])
    ensures Spells(nodes[1..], segments[1..])
  {
    hide Spelled, Unambiguous;
    if !Spells(nodes[1..], segments[1..]) {
      var j := Taker(nodes[1..], segments);
      assert forall k | 0 < k < j + 1 :: nodes[k] == nodes[1..][k - 1];
      assert Reaches(nodes, 0, j + 1);
      NotBoth(nodes, j + 1, segments[0]);
      assert nodes[1..][j + 1..] == nodes[j + 2..];
      SkipAll(nodes[1..], j + 1, segments[1..]);
    }
  }

  lemma NotBoth(nodes: seq<Node>, j: nat, t: string)
    requires Unambiguous(nodes) && j < |nodes| && Reaches(nodes, 0, j)
    requires Spelled(nodes[0].name, t) && Spelled(nodes[j].name, t)
    ensures nodes[j].optional
  {
    hide Spelled;
  }

  /** Without such a shared spelling the walk accepts the whole language. */
  lemma {:induction false} GreedyComplete(nodes: seq<Node>, segments: seq<string>)
    requires nodes != [] && segments != [] && Unambiguous(nodes) && Spells(nodes, segments)
    ensures Greedy(nodes, segments)
    decreases |nodes|
  {
    hide Spelled, Unambiguous;
    UnambiguousTail(nodes);
    if Spelled(nodes[0].name, segments[0]) {
      FrontTakes(nodes, segments);
      if |segments| == 1 {
        EmptyTail(nodes[1..]);
      } else {
        GreedyComplete(nodes[1..], segments[1..]);
      }
    } else {
      GreedyComplete(nodes[1..], segments);
    }
  }

  /** How many nodes cannot be left out. */
  function Mandatory(nodes: seq<Node>): nat {
    if nodes == [] then 0 else (if nodes[0].optional then 0 else 1) + Mandatory(nodes[1..])
  }

  lemma {:induction false} NoneMandatory(nodes: seq<Node>)
    requires AllOptional(nodes)
    ensures Mandatory(nodes) == 0
  {
    if nodes != [] {
      NoneMandatory(nodes[1..]);
    }
  }

  /** The walk spends a segment on every mandatory node, and one more on an optional node in front. */
  lemma {:induction false} GreedyCount(nodes: seq<Node>, segments: seq<string>)
    requires nodes != [] && segments != [] && Greedy(nodes, segments)
    ensures Mandatory(nodes) <= |segments|
    ensures nodes[0].optional && Spelled(nodes[0].name, segments[0]) ==> Mandatory(nodes) < |segments|
    decreases |nodes|
  {
    hide Spelled;
    if Spelled(nodes[0].name, segments[0]) {
      if |segments| == 1 {
        NoneMandatory(nodes[1..]);
      } else {
        GreedyCount(nodes[1..], segments[1..]);
      }
    } else {
      GreedyCount(nodes[1..], segments);
    }
  }

  /** A spelling of a node: its name, without the number sign. */
  function Word(name: string): string {
    if IsNumeric(name) then name[..|name| - 1] else name
  }

  lemma WordSpells(name: string)
    ensures Spelled(name, Word(name))
  {
    hide ShortLength;
    var w := Word(name);
    assert w[..|w|] == w;
  }

  /** Segments for exactly the mandatory nodes, with `t` for node `j`. */
  function Words(nodes: seq<Node>, j: int, t: string): (ws: seq<string>)
    ensures |ws| == Mandatory(nodes)
  {
    if nodes == [] then []
    else (if nodes[0].optional then [] else [if j == 0 then t else Word(nodes[0].name)]) + Words(nodes[1..], j - 1, t)
  }

  lemma {:induction false} WordsSpell(nodes: seq<Node>, j: int, t: string)
    requires 0 <= j < |nodes| ==> Spelled(nodes[j].name, t)
    ensures Spells(nodes, Words(nodes, j, t))
    decreases |nodes|
  {
    hide Spelled;
    if nodes != [] {
      WordsSpell(nodes[1..], j - 1, t);
      var ws := Words(nodes, j, t);
      if nodes[0].optional {
        assert ws == Words(nodes[1..], j - 1, t);
      } else {
        WordSpells(nodes[0].name);
        assert ws[1..] == Words(nodes[1..], j - 1, t);
      }
    }
  }

  lemma {:induction false} FirstWord(nodes: seq<Node>, j: nat, t: string)
    requires j < |nodes| && (forall k | 0 <= k < j :: nodes[k].optional) && !nodes[j].optional
    ensures Words(nodes, j, t) != [] && Words(nodes, j, t)[0] == t
    decreases j
  {
    if j > 0 {
      assert forall k | 0 <= k < j - 1 :: nodes[1..][k] == nodes[k + 1];
      FirstWord(nodes[1..], j - 1, t);
      assert Words(nodes, j, t) == Words(nodes[1..], j - 1, t);
    }
  }

  lemma {:induction false} SomeMandatory(nodes: seq<Node>, j: nat)
    requires j < |nodes| && !nodes[j].optional
    ensures Mandatory(nodes) > 0
    decreases j
  {
    if j > 0 {
      SomeMandatory(nodes[1..], j - 1);
    }
  }

  /** Spelling the shared text, the walk takes the optional node and runs out of segments. */
  lemma {:induction false} SharedRejected(nodes: seq<Node>, i: nat, j: nat, t: string)
    requires j < |nodes| && Reaches(nodes, i, j) && !nodes[j].optional
    requires Spelled(nodes[i].name, t) && Spelled(nodes[j].name, t)
    ensures Words(nodes, j, t) != [] && !Greedy(nodes, Words(nodes, j, t))
    decreases |nodes|
  {
    hide Spelled;
    var ws, rest := Words(nodes, j, t), nodes[1..];
    SomeMandatory(nodes, j);
    if i == 0 {
      FirstWord(nodes, j, t);
      if Greedy(nodes, ws) {
        GreedyCount(nodes, ws);
      }
    } else {
      assert forall k | 0 <= k < |rest| :: rest[k] == nodes[k + 1];
      assert Reaches(rest, i - 1, j - 1);
      SharedRejected(rest, i - 1, j - 1, t);
      if nodes[0].optional {
        assert ws == Words(rest, j - 1, t);
        if Greedy(nodes, ws) {
          GreedyCount(nodes, ws);
        }
      } else {
        WordSpells(nodes[0].name);
        assert ws[1..] == Words(rest, j - 1, t);
      }
    }
  }

  /**
   The walk accepts the whole language of a pattern if and only if no optional node shares
   a spelling with a mandatory node that it can be skipped to.
   */
  lemma WalkDecides(nodes: seq<Node>)
    requires nodes != []
    ensures (forall ss: seq<string> | ss != [] && Spells(nodes, ss) :: Greedy(nodes, ss)) <==> Unambiguous(nodes)
  {
    hide Spelled, Spells, Greedy, Words;
    if Unambiguous(nodes) {
      hide Unambiguous;
      forall ss: seq<string> | ss != [] && Spells(nodes, ss) ensures Greedy(nodes, ss) {
        GreedyComplete(nodes, ss);
      }
    } else {
      var i: nat, j: nat, t: string :| j < |nodes| && Reaches(nodes, i, j) && !nodes[j].optional
                                       && Spelled(nodes[i].name, t) && Spelled(nodes[j].name, t);
      WordsSpell(nodes, j, t);
      SharedRejected(nodes, i, j, t);
    }
  }

  /** `A` is in the language of `[:A]:A`, and the walk rejects it. */
  lemma SharedSpelling()
    ensures var nodes := [Node("A", true), Node("A", false)];
            Spells(nodes, ["A"]) && !Greedy(nodes, ["A"]) && !Unambiguous(nodes)
  {
    var nodes := [Node("A", true), Node("A", false)];
    assert Spelled("A", "A");
    assert Spells(nodes[1..], ["A"]);
    assert !nodes[1..][0].optional;
    assert Reaches(nodes, 0, 1);
  }
}
