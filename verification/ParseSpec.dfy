/**
 What the parser does with a line: the headers it should look up, as the original text
 resolves them, and those it does look up, given what completing an unknown header
 does to the header before it.
 */
module ParseSpec {
  import opened LexSpec
  import opened Framing
  import opened Compose

  /** What happens to a unit; an undefined header is reported with the text of its unit. */
  datatype Event = Invoked(header: string) | Undefined(header: string, report: seq<char>) | BadCharacter

  /** The header of a command in the text of its line. */
  function HeaderOf(text: seq<char>, c: Command): string {
    if 0 <= c.header.len && c.header.ptr + c.header.len <= |text| then text[c.header.ptr..c.header.ptr + c.header.len]
    else []
  }

  /** A text without the end-of-line characters at its end. */
  function Trimmed(t: seq<char>): seq<char> {
    if t != [] && IsEol(t[|t| - 1]) then Trimmed(t[..|t| - 1]) else t
  }

  /** The end of `path` written over the end of `lead`. */
  function Overlaid(lead: seq<char>, path: string): (r: seq<char>)
    ensures |r| == |lead|
  {
    if |path| <= |lead| then lead[..|lead| - |path|] + path else path[|path| - |lead|..]
  }

  /** The text reported with an undefined header: its unit, once the path has been written in front of the header. */
  function ReportOf(text: seq<char>, c: Command, path: string): seq<char> {
    if c.start <= c.header.ptr <= c.end <= |text| then
      Trimmed(Overlaid(text[c.start..c.header.ptr], path) + text[c.header.ptr..c.end])
    else []
  }

  function EventOf(text: seq<char>, c: Command, path: string, known: string -> bool): Event {
    var h := path + HeaderOf(text, c);
    if known(h) then Invoked(h) else Undefined(h, ReportOf(text, c, path))
  }

  /** The last header found, after a command that borrows `path`. */
  function NextFound(text: seq<char>, c: Command, path: string, prev: string, known: string -> bool): string {
    if known(path + HeaderOf(text, c)) then path + HeaderOf(text, c) else prev
  }

  /** The events of a line as its original text resolves them, `prev` being the last header found. */
  function Events(text: seq<char>, cs: seq<Command>, prev: string, known: string -> bool): seq<Event>
    decreases |cs|
  {
    if cs == [] then []
    else if cs[0].header.kind.TokInvalid? then [BadCharacter] + Events(text, cs[1..], prev, known)
    else
      var path := Lent(prev, HeaderOf(text, cs[0]));
      [EventOf(text, cs[0], path, known)]
      + Events(text, cs[1..], NextFound(text, cs[0], path, prev, known), known)
  }

  /** How many bytes lie between the end of the last header found and a header at `ptr`. */
  function Gap(end: nat, ptr: nat): nat { if end <= ptr then ptr - end else 0 }

  /**
   What the memory of `held` reads once its first `n` bytes have been written in front of
   a header that begins `gap` bytes behind it.
   */
  function Overwritten(held: string, n: nat, gap: nat): (r: string)
    requires n <= |held|
    ensures |r| == |held|
  {
    if n <= gap then held else held[..|held| - (n - gap)] + held[..n - gap]
  }

  /** The memory of the last header found, after a command that borrows `path` from it. */
  function NextHeld(text: seq<char>, c: Command, path: string, held: string, end: nat, known: string -> bool): string
    requires |path| <= |held|
  {
    if known(path + HeaderOf(text, c)) then path + HeaderOf(text, c)
    else Overwritten(held, |path|, Gap(end, c.header.ptr))
  }

  /** Where the last header found ends, after a command. */
  function NextEnd(text: seq<char>, c: Command, path: string, end: nat, known: string -> bool): nat {
    if known(path + HeaderOf(text, c)) then c.header.ptr + |HeaderOf(text, c)| else end
  }

  /** The events as the parser produces them; `held` is what the memory of the last header found reads. */
  function Looked(text: seq<char>, cs: seq<Command>, held: string, end: nat, known: string -> bool): seq<Event>
    decreases |cs|
  {
    if cs == [] then []
    else if cs[0].header.kind.TokInvalid? then [BadCharacter] + Looked(text, cs[1..], held, end, known)
    else
      var path := Lent(held, HeaderOf(text, cs[0]));
      [EventOf(text, cs[0], path, known)]
      + Looked(text, cs[1..], NextHeld(text, cs[0], path, held, end, known), NextEnd(text, cs[0], path, end, known), known)
  }

  /** Wherever a relative header follows, memory still lends the path of the last header found. */
  predicate Intact(text: seq<char>, cs: seq<Command>, prev: string, held: string, end: nat, known: string -> bool)
    decreases |cs|
  {
    if cs == [] then true
    else if cs[0].header.kind.TokInvalid? then Intact(text, cs[1..], prev, held, end, known)
    else
      var h := HeaderOf(text, cs[0]);
      var a, b := Lent(prev, h), Lent(held, h);
      && (Absolute(h) || PathIn(held) == PathIn(prev))
      && Intact(text, cs[1..], NextFound(text, cs[0], a, prev, known), NextHeld(text, cs[0], b, held, end, known),
                NextEnd(text, cs[0], b, end, known), known)
  }

  lemma SameFront(x: Event, y: Event, xs: seq<Event>, ys: seq<Event>)
    ensures [x] + xs == [y] + ys <==> x == y && xs == ys
  {
    var p, q := [x] + xs, [y] + ys;
    if p == q {
      assert x == p[0] == q[0] == y && xs == p[1..] == q[1..] == ys;
    }
  }

  /** The parser looks up what the original text resolves to if and only if the path stays intact where it is used. */
  lemma {:induction false} LookedExact(text: seq<char>, cs: seq<Command>, prev: string, held: string, end: nat,
                                       known: string -> bool)
    ensures Looked(text, cs, held, end, known) == Events(text, cs, prev, known)
            <==> Intact(text, cs, prev, held, end, known)
    decreases |cs|
  {
    hide Lent, PathIn, Resolve, HeaderOf, ReportOf, Overwritten;
    if cs != [] {
      var c, rest := cs[0], cs[1..];
      if c.header.kind.TokInvalid? {
        LookedExact(text, rest, prev, held, end, known);
        SameFront(BadCharacter, BadCharacter, Looked(text, rest, held, end, known), Events(text, rest, prev, known));
      } else {
        var h := HeaderOf(text, c);
        var a, b := Lent(prev, h), Lent(held, h);
        var prev', held', end' := NextFound(text, c, a, prev, known), NextHeld(text, c, b, held, end, known),
                                  NextEnd(text, c, b, end, known);
        LookedExact(text, rest, prev', held', end', known);
        SameFront(EventOf(text, c, b, known), EventOf(text, c, a, known),
                  Looked(text, rest, held', end', known), Events(text, rest, prev', known));
        if !Absolute(h) {
          PathsTell(text, c, a, b, known);
        }
      }
    }
  }

  /** Different paths give different events. */
  lemma PathsTell(text: seq<char>, c: Command, a: string, b: string, known: string -> bool)
    ensures EventOf(text, c, a, known) == EventOf(text, c, b, known) <==> a == b
  {
    hide HeaderOf, ReportOf;
    var h := HeaderOf(text, c);
    if a + h == b + h {
      assert a == (a + h)[..|a|] && b == (b + h)[..|b|];
    }
  }

  /** Every header of the line is found. */
  predicate AllFound(text: seq<char>, cs: seq<Command>, prev: string, known: string -> bool)
    decreases |cs|
  {
    if cs == [] then true
    else if cs[0].header.kind.TokInvalid? then AllFound(text, cs[1..], prev, known)
    else
      var h := Resolve(prev, HeaderOf(text, cs[0]));
      known(h) && AllFound(text, cs[1..], h, known)
  }

  /** On a line whose headers are all found the path is always intact. */
  lemma {:induction false} FoundIsIntact(text: seq<char>, cs: seq<Command>, prev: string, end: nat, known: string -> bool)
    requires AllFound(text, cs, prev, known)
    ensures Intact(text, cs, prev, prev, end, known)
    decreases |cs|
  {
    hide PathIn, HeaderOf, Borrowed;
    if cs != [] {
      if cs[0].header.kind.TokInvalid? {
        FoundIsIntact(text, cs[1..], prev, end, known);
      } else {
        var h := HeaderOf(text, cs[0]);
        FoundIsIntact(text, cs[1..], Resolve(prev, h), NextEnd(text, cs[0], Lent(prev, h), end, known), known);
      }
    }
  }

  /**
   One unknown header: the relative header behind it resolves rightly if and only if the header
   before it, its end written over with its own start, still lends the same path.
   */
  lemma AfterUnknown(prev: string, unknown: string, gap: nat, next: string)
    requires !Absolute(next)
    ensures var n := Borrowed(prev, unknown);
            Resolve(Overwritten(prev, n, gap), next) == Resolve(prev, next)
            <==> n <= gap || PathIn(prev[..|prev| - (n - gap)] + prev[..n - gap]) == PathIn(prev)
  {
    ResolveAgrees(Overwritten(prev, Borrowed(prev, unknown), gap), prev, next);
  }

  /** A unit that is a bare header. */
  lemma HeaderUnit(s: seq<char>, i: nat, e: nat)
    requires i < e <= |s| && !In(Ws, s[i]) && HeaderAt(s, i) == Token(TokCompound, i, e - i) && (e == |s| || s[e] == ';')
    ensures UnitAt(s, i) == Unit(Token(TokCompound, i, e - i), Token(TokUnknown, e, 0), 0,
                                 if e == |s| then TermNone else TermSemicolon, if e == |s| then e else e + 1)
  {
    hide HeaderAt, DataAt;
    assert SkipWhile(s, i, Ws) == i && SkipWhile(s, e, Ws) == e;
  }

  /** One mnemonic. */
  lemma OneWord(s: seq<char>, i: nat)
    requires i < |s| && IsAlpha(s[i]) && (i + 1 == |s| || s[i + 1] == ';')
    ensures HeaderAt(s, i) == Token(TokCompound, i, 1)
  {
    assert SkipWhile(s, i + 1, Word) == i + 1;
    assert MnemonicEnd(s, i) == i + 1;
  }

  const BROKEN_LINE := "AAAA:B;C;D"

  lemma BrokenHeader()
    ensures HeaderAt(BROKEN_LINE, 0) == Token(TokCompound, 0, 6)
  {
    hide SkipWhile;
    var s := BROKEN_LINE;
    WordEnd(s, 1, 4);
    WordEnd(s, 6, 6);
    assert MnemonicEnd(s, 0) == 4 && MnemonicEnd(s, 5) == 6;
    assert CompoundTail(s, 6) == (SkipOk, 6);
  }

  lemma {:induction false} WordEnd(s: seq<char>, i: nat, e: nat)
    requires i <= e < |s| && (forall k | i <= k < e :: In(Word, s[k])) && !In(Word, s[e])
    ensures SkipWhile(s, i, Word) == e
    decreases e - i
  {
    if i < e {
      WordEnd(s, i + 1, e);
    }
  }

  lemma BrokenCommands()
    ensures var cs := Commands(BROKEN_LINE, 0);
            && |cs| == 3 && (forall k | 0 <= k < 3 :: cs[k].header.kind == TokCompound)
            && HeaderOf(BROKEN_LINE, cs[0]) == "AAAA:B" && cs[0].header.ptr == 0
            && HeaderOf(BROKEN_LINE, cs[1]) == "C" && cs[1].header.ptr == 7
            && HeaderOf(BROKEN_LINE, cs[2]) == "D" && cs[2].header.ptr == 9
  {
    hide UnitAt, HeaderAt;
    var s := BROKEN_LINE;
    BrokenHeader();
    HeaderUnit(s, 0, 6);
    OneWord(s, 7);
    HeaderUnit(s, 7, 8);
    OneWord(s, 9);
    HeaderUnit(s, 9, 10);
    assert Commands(s, 9) == CommandAt(s, 9);
    assert Commands(s, 7) == CommandAt(s, 7) + Commands(s, 9);
    assert Commands(s, 0) == CommandAt(s, 0) + Commands(s, 7);
  }

  predicate KnownThere(h: string) { h == "AAAA:B" || h == "AAAA:D" }

  /**
   On `AAAA:B;C;D` the unknown `C` overwrites the colon of the path, so that `D` is looked up
   at the root, where it should be `AAAA:D`.
   */
  lemma PathOverwritten()
    ensures var s, cs := BROKEN_LINE, Commands(BROKEN_LINE, 0);
            && |cs| == 3 && |Looked(s, cs, [], 0, KnownThere)| == |Events(s, cs, [], KnownThere)| == 3
            && Events(s, cs, [], KnownThere)[2] == Invoked("AAAA:D")
            && Looked(s, cs, [], 0, KnownThere)[2].Undefined? && Looked(s, cs, [], 0, KnownThere)[2].header == "D"
  {
    hide HeaderOf, Commands, Looked, Events;
    var s, cs := BROKEN_LINE, Commands(BROKEN_LINE, 0);
    BrokenCommands();
    var r1, r2 := cs[1..], cs[2..];
    assert r1[0] == cs[1] && r1[1..] == r2 && r2[0] == cs[2] && r2[1..] == [];
    FirstStep(s, cs);
    SecondStep(s, r1);
    ThirdStep(s, r2);
  }

  lemma FirstStep(s: seq<char>, cs: seq<Command>)
    requires cs != [] && cs[0].header.kind == TokCompound && cs[0].header.ptr == 0 && HeaderOf(s, cs[0]) == "AAAA:B"
    ensures exists x, y :: Events(s, cs, [], KnownThere) == [x] + Events(s, cs[1..], "AAAA:B", KnownThere)
                           && Looked(s, cs, [], 0, KnownThere) == [y] + Looked(s, cs[1..], "AAAA:B", 6, KnownThere)
  {
    hide HeaderOf, ReportOf, Lent;
    BrokenPaths();
    EventsOnce(s, cs, [], [], 0, KnownThere);
    assert [] + "AAAA:B" == "AAAA:B";
  }

  lemma SecondStep(s: seq<char>, cs: seq<Command>)
    requires cs != [] && cs[0].header.kind == TokCompound && cs[0].header.ptr == 7 && HeaderOf(s, cs[0]) == "C"
    ensures exists x, y :: Events(s, cs, "AAAA:B", KnownThere) == [x] + Events(s, cs[1..], "AAAA:B", KnownThere)
                           && Looked(s, cs, "AAAA:B", 6, KnownThere) == [y] + Looked(s, cs[1..], "AAAAAA", 6, KnownThere)
  {
    hide HeaderOf, ReportOf, Lent, Overwritten;
    BrokenPaths();
    EventsOnce(s, cs, "AAAA:B", "AAAA:B", 6, KnownThere);
    assert "AAAA:" + "C" == "AAAA:C";
  }

  lemma ThirdStep(s: seq<char>, cs: seq<Command>)
    requires |cs| == 1 && cs[0].header.kind == TokCompound && HeaderOf(s, cs[0]) == "D"
    ensures Events(s, cs, "AAAA:B", KnownThere) == [Invoked("AAAA:D")]
    ensures exists report :: Looked(s, cs, "AAAAAA", 6, KnownThere) == [Undefined("D", report)]
  {
    hide HeaderOf, ReportOf, Lent, Overwritten;
    BrokenPaths();
    EventsOnce(s, cs, "AAAA:B", "AAAAAA", 6, KnownThere);
    assert "AAAA:" + "D" == "AAAA:D" && [] + "D" == "D";
  }

  lemma EventsOnce(text: seq<char>, cs: seq<Command>, prev: string, held: string, end: nat, known: string -> bool)
    requires cs != [] && !cs[0].header.kind.TokInvalid?
    ensures var c, a, b := cs[0], Lent(prev, HeaderOf(text, cs[0])), Lent(held, HeaderOf(text, cs[0]));
            && Events(text, cs, prev, known)
               == [EventOf(text, c, a, known)] + Events(text, cs[1..], NextFound(text, c, a, prev, known), known)
            && Looked(text, cs, held, end, known)
               == [EventOf(text, c, b, known)]
                  + Looked(text, cs[1..], NextHeld(text, c, b, held, end, known), NextEnd(text, c, b, end, known), known)
  {
    hide HeaderOf, Lent, EventOf, NextHeld, NextEnd, NextFound;
  }

  /** What the headers of that line borrow, and what becomes of the first one. */
  lemma BrokenPaths()
    ensures Lent([], "AAAA:B") == [] && Lent("AAAA:B", "C") == Lent("AAAA:B", "D") == "AAAA:"
    ensures Lent("AAAAAA", "D") == [] && Overwritten("AAAA:B", 5, 1) == "AAAAAA"
  {
    PathLengthIs("AAAA:B", 5);
    PathLengthIs("AAAAAA", 0);
  }

  /** `C` behind `AAA:BBBB` overwrites too, but not the path. */
  lemma PathSpared()
    ensures Borrowed("AAA:BBBB", "C") == 4 && Overwritten("AAA:BBBB", 4, 1) == "AAA:BAAA"
    ensures Resolve("AAA:BAAA", "D") == Resolve("AAA:BBBB", "D") == "AAA:D"
  {
    PathLengthIs("AAA:BBBB", 4);
    PathLengthIs("AAA:BAAA", 4);
  }
}
