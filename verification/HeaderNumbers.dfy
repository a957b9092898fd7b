/** The numbers that the `#` nodes of a pattern report. */
module HeaderNumbers {
  import opened HeaderSpec
  import opened Printer
  import N = Numerals
  import P = Parameters

  /** The digits behind the long form, or else behind the short one. */
  function DigitsBehind(name: string, t: string): string
    requires IsNumeric(name) && Spelled(name, t)
  {
    var base := name[..|name| - 1];
    if WithNumber(base, t) then t[|base|..] else t[ShortLength(base)..]
  }

  /** What a 32-bit variable holds after the conversion of `digits`. */
  function Number(long: Width, digits: string): int {
    P.Converted(long, P.IntType(W32, true), true, N.Eval(10, digits))
  }

  /** The number of a node that takes the segment `t`; without digits, the default. */
  function NumberIn(long: Width, name: string, t: string, default: int): int
    requires IsNumeric(name) && Spelled(name, t)
  {
    var digits := DigitsBehind(name, t);
    if digits == [] then default else Number(long, digits)
  }

  /** What the node in front reports, whether it takes the segment or not. */
  function Own(long: Width, name: string, t: string, default: int): seq<int> {
    if !IsNumeric(name) then [] else [if Spelled(name, t) then NumberIn(long, name, t, default) else default]
  }

  /** What the walk reports: one number for every `#` node that it looks at. */
  function Reported(long: Width, nodes: seq<Node>, segments: seq<string>, default: int): seq<int>
    requires nodes != [] && segments != []
  {
    var own := Own(long, nodes[0].name, segments[0], default);
    if Spelled(nodes[0].name, segments[0]) then
      own + if |segments| > 1 && |nodes| > 1 then Reported(long, nodes[1..], segments[1..], default) else []
    else
      own + if nodes[0].optional && |nodes| > 1 then Reported(long, nodes[1..], segments, default) else []
  }

  /** How many nodes the walk looks at. */
  function Visited(nodes: seq<Node>, segments: seq<string>): (n: nat)
    requires nodes != [] && segments != []
    ensures 0 < n <= |nodes|
  {
    if Spelled(nodes[0].name, segments[0]) then
      1 + if |segments| > 1 && |nodes| > 1 then Visited(nodes[1..], segments[1..]) else 0
    else
      1 + if nodes[0].optional && |nodes| > 1 then Visited(nodes[1..], segments) else 0
  }

  function NumericNodes(nodes: seq<Node>): nat {
    if nodes == [] then 0 else (if IsNumeric(nodes[0].name) then 1 else 0) + NumericNodes(nodes[1..])
  }

  lemma FrontNumeric(nodes: seq<Node>, v: nat)
    requires 0 < v <= |nodes|
    ensures NumericNodes(nodes[..v]) == (if IsNumeric(nodes[0].name) then 1 else 0) + NumericNodes(nodes[1..][..v - 1])
    ensures NumericNodes([]) == 0
  {
    assert nodes[..v][0] == nodes[0] && nodes[..v][1..] == nodes[1..][..v - 1];
  }

  lemma OwnCount(long: Width, name: string, t: string, default: int)
    ensures |Own(long, name, t, default)| == if IsNumeric(name) then 1 else 0
  {
    hide Spelled, NumberIn;
  }

  /** One number for every `#` node that was looked at. */
  lemma {:induction false} OneEach(long: Width, nodes: seq<Node>, segments: seq<string>, default: int)
    requires nodes != [] && segments != []
    ensures |Reported(long, nodes, segments, default)| == NumericNodes(nodes[..Visited(nodes, segments)])
    decreases |nodes|
  {
    hide Spelled, Own, NumericNodes, IsNumeric;
    var v := Visited(nodes, segments);
    FrontNumeric(nodes, v);
    OwnCount(long, nodes[0].name, segments[0], default);
    if Spelled(nodes[0].name, segments[0]) && |segments| > 1 && |nodes| > 1 {
      OneEach(long, nodes[1..], segments[1..], default);
    } else if !Spelled(nodes[0].name, segments[0]) && nodes[0].optional && |nodes| > 1 {
      OneEach(long, nodes[1..], segments, default);
    } else {
      assert v == 1 && nodes[1..][..0] == [];
    }
  }

  /** What the walk to an accepted header does not look at is an optional tail. */
  lemma {:induction false} TailOptional(nodes: seq<Node>, segments: seq<string>)
    requires nodes != [] && segments != [] && Greedy(nodes, segments)
    ensures AllOptional(nodes[Visited(nodes, segments)..])
    decreases |nodes|
  {
    hide Spelled, AllOptional;
    var v := Visited(nodes, segments);
    assert nodes[v..] == nodes[1..][v - 1..];
    if Spelled(nodes[0].name, segments[0]) {
      if |segments| > 1 {
        TailOptional(nodes[1..], segments[1..]);
      }
    } else {
      TailOptional(nodes[1..], segments);
    }
  }

  lemma {:induction false} NumericSplit(nodes: seq<Node>, v: nat)
    requires v <= |nodes|
    ensures NumericNodes(nodes) == NumericNodes(nodes[..v]) + NumericNodes(nodes[v..])
  {
    if v == 0 {
      assert nodes[..0] == [] && nodes[0..] == nodes;
    } else {
      FrontNumeric(nodes, v);
      assert nodes[v..] == nodes[1..][v - 1..];
      NumericSplit(nodes[1..], v - 1);
    }
  }

  lemma {:induction false} NoneNumeric(nodes: seq<Node>)
    ensures NumericNodes(nodes) == 0 <==> forall k | 0 <= k < |nodes| :: !IsNumeric(nodes[k].name)
  {
    if nodes != [] {
      NoneNumeric(nodes[1..]);
      assert forall k | 0 < k < |nodes| :: nodes[k] == nodes[1..][k - 1];
    }
  }

  /** Every `#` node reports a number exactly when none is left in the optional tail that the walk does not look at. */
  lemma EveryNumber(long: Width, nodes: seq<Node>, segments: seq<string>, default: int)
    requires nodes != [] && segments != [] && Greedy(nodes, segments)
    ensures var v := Visited(nodes, segments);
            && AllOptional(nodes[v..])
            && (|Reported(long, nodes, segments, default)| == NumericNodes(nodes)
                <==> forall k | v <= k < |nodes| :: !IsNumeric(nodes[k].name))
  {
    hide Spelled, Reported, Visited, Greedy, NumericNodes;
    var v := Visited(nodes, segments);
    OneEach(long, nodes, segments, default);
    TailOptional(nodes, segments);
    NumericSplit(nodes, v);
    NoneNumeric(nodes[v..]);
    assert forall k | v <= k < |nodes| :: nodes[k] == nodes[v..][k - v];
    assert forall k | 0 <= k < |nodes[v..]| :: nodes[v..][k] == nodes[v + k];
  }

  /** The pattern `A[:B#]` and the header `A`: the number of `B` stays unset. */
  lemma TailUnset(long: Width, default: int)
    ensures var nodes := [Node("A", false), Node("B#", true)];
            Greedy(nodes, ["A"]) && Reported(long, nodes, ["A"], default) == []
  {
    assert Spelled("A", "A");
  }

  /** A segment for every node, with a number for every `#` node. */
  function Numbered(nodes: seq<Node>, values: seq<nat>): (ss: seq<string>)
    requires |values| == NumericNodes(nodes)
    ensures |ss| == |nodes|
  {
    if nodes == [] then []
    else if IsNumeric(nodes[0].name) then
      [Word(nodes[0].name) + N.Numeral(10, values[0])] + Numbered(nodes[1..], values[1..])
    else [Word(nodes[0].name)] + Numbered(nodes[1..], values)
  }

  lemma NumberBehind(long: Width, name: string, v: nat, default: int)
    requires IsNumeric(name) && v <= 0x7FFF_FFFF
    ensures var t := Word(name) + N.Numeral(10, v); Spelled(name, t) && NumberIn(long, name, t, default) == v
  {
    hide ShortLength, N.Numeral, N.Eval, P.Converted;
    var base, num := name[..|name| - 1], N.Numeral(10, v);
    var t := Word(name) + num;
    assert t[..|base|] == base && t[|base|..] == num;
    N.NumeralReadsBack(10, v);
    DigitsAll(num);
    P.ConvertedExact(long, P.IntType(W32, true), true, v);
  }

  lemma DigitsAll(t: string)
    requires N.IsNumeral(10, t)
    ensures AllDigits(t)
  {
  }

  /** Numbers that are written behind the nodes are reported in their order. */
  lemma {:induction false} NumbersBack(long: Width, nodes: seq<Node>, values: seq<nat>, default: int)
    requires nodes != [] && |values| == NumericNodes(nodes) && forall k | 0 <= k < |values| :: values[k] <= 0x7FFF_FFFF
    ensures Greedy(nodes, Numbered(nodes, values))
    ensures Reported(long, nodes, Numbered(nodes, values), default) == values
    decreases |nodes|
  {
    hide Spelled, NumberIn, N.Numeral, Word;
    var name, ss := nodes[0].name, Numbered(nodes, values);
    var rest := if IsNumeric(name) then values[1..] else values;
    if IsNumeric(name) {
      NumberBehind(long, name, values[0], default);
    } else {
      WordSpells(name);
    }
    assert ss[1..] == Numbered(nodes[1..], rest);
    if |nodes| > 1 {
      NumbersBack(long, nodes[1..], rest, default);
    } else {
      assert nodes[1..] == [];
    }
  }
}
