/** Whole lines of message units: what the parser sees of each, and what becomes of its header. */
module LineTexts {
  import opened Wrappers
  import opened LexSpec
  import opened HeaderTokens
  import opened DataTokens
  import opened UnitTexts
  import opened RelativeHeaders
  import opened Framing
  import opened ParseSpec
  import C = Compose

  predicate AllFormed(us: seq<UnitText>) { forall k | 0 <= k < |us| :: UnitFormed(us[k]) }

  /** The text of a line of units with semicolons between them. */
  function LineOf(us: seq<UnitText>): string
    requires us != [] && AllFormed(us)
  {
    us[0].lead + CommandText(us[0]) + (if |us| == 1 then "\n" else ";" + LineOf(us[1..]))
  }

  predicate MaybeFormed(h: Option<Header>) { h.Some? ==> Formed(h.value) }

  /**
   What becomes of a unit behind the header last found. An unknown header is reported as its unit was
   written, but for end-of-line characters at its end, and for the path over the white space in front.
   */
  function OutcomeOf(u: UnitText, prev: Option<Header>, end: string, known: string -> bool): Event
    requires UnitFormed(u) && MaybeFormed(prev)
  {
    var t := TextOf(Resolved(prev, u.header));
    if known(t) then Invoked(t)
    else Undefined(t, Trimmed(Overlaid(u.lead, PathBefore(prev, u.header)) + (CommandText(u) + end)))
  }

  function FoundAfter(u: UnitText, prev: Option<Header>, known: string -> bool): (r: Option<Header>)
    requires UnitFormed(u) && MaybeFormed(prev)
    ensures MaybeFormed(r)
  {
    if known(TextOf(Resolved(prev, u.header))) then Some(Resolved(prev, u.header)) else prev
  }

  function Outcomes(us: seq<UnitText>, prev: Option<Header>, known: string -> bool): seq<Event>
    requires AllFormed(us) && MaybeFormed(prev)
    decreases |us|
  {
    if us == [] then []
    else
      [OutcomeOf(us[0], prev, if |us| == 1 then "" else ";", known)]
      + Outcomes(us[1..], FoundAfter(us[0], prev, known), known)
  }

  /** A unit in its line from `i` to `n`, and the semicolon or newline behind it. */
  predicate StandsAt(s: seq<char>, i: nat, n: nat, u: UnitText, end: char) {
    && UnitFormed(u) && i <= n < |s| && s[i..n] == u.lead + CommandText(u) && s[n] == end && (end == ';' || end == '\n')
  }

  /** The command that the parser makes of a unit. */
  function CommandOf(i: nat, n: nat, u: UnitText, end: char): Command
    requires UnitFormed(u)
  {
    var h := i + |u.lead|;
    Command(i, Token(KindOf(u.header), h, |TextOf(u.header)|), DataToken(u, h + |TextOf(u.header)| + |u.gap|), |u.items|,
            if end == ';' then n + 1 else n)
  }

  lemma CommandRead(s: seq<char>, i: nat, n: nat, u: UnitText, end: char)
    requires StandsAt(s, i, n, u, end)
    ensures UnitAt(s, i).next == n + 1 && CommandAt(s, i) == [CommandOf(i, n, u, end)]
  {
    hide BodyAt, UnitAt, TextOf, UnitFormed, CommandText, DataToken;
    UnitRead(s, i, n, u);
    UnitBody(s, i, n, u);
    HeaderNotEmpty(u);
  }

  lemma HeaderNotEmpty(u: UnitText)
    requires UnitFormed(u)
    ensures Formed(u.header) && |TextOf(u.header)| > 0
  {
    HeaderStarts(u.header);
  }

  /** Header and report of a unit. */
  lemma EventRead(s: seq<char>, i: nat, n: nat, u: UnitText, end: char, path: string)
    requires StandsAt(s, i, n, u, end)
    ensures var c := CommandOf(i, n, u, end);
            && HeaderOf(s, c) == TextOf(u.header)
            && ReportOf(s, c, path) == Trimmed(Overlaid(u.lead, path) + (CommandText(u) + if end == ';' then ";" else ""))
  {
    hide TextOf, UnitFormed, Trimmed, Overlaid, CommandText;
    UnitSlices(s, i, n, u, end);
  }

  lemma UnitSlices(s: seq<char>, i: nat, n: nat, u: UnitText, end: char)
    requires StandsAt(s, i, n, u, end)
    ensures var h, m := i + |u.lead|, if end == ';' then n + 1 else n;
            && h + |TextOf(u.header)| <= n && s[i..h] == u.lead && s[h..h + |TextOf(u.header)|] == TextOf(u.header)
            && s[h..m] == CommandText(u) + if end == ';' then ";" else ""
  {
    hide TextOf, Formed, Blanks, ItemsFormed, ParametersText, IsEol;
    ThreeParts(s, i, n, u.lead, TextOf(u.header), ParametersText(u));
    Parts(s, i, n, u.lead, CommandText(u));
    WithEnd(s, i + |u.lead|, n, CommandText(u), end);
  }

  lemma WithEnd(s: seq<char>, h: nat, n: nat, t: string, end: char)
    requires h <= n < |s| && s[h..n] == t && s[n] == end
    ensures s[h..if end == ';' then n + 1 else n] == t + if end == ';' then ";" else ""
  {
    if end != ';' {
      assert t + "" == t;
    }
  }

  /** What becomes of a unit behind the header last found. */
  lemma Became(s: seq<char>, i: nat, n: nat, u: UnitText, end: char, prev: Option<Header>, known: string -> bool)
    requires StandsAt(s, i, n, u, end) && MaybeFormed(prev)
    ensures var c, path := CommandOf(i, n, u, end), C.Lent(TextIf(prev), TextOf(u.header));
            && HeaderOf(s, c) == TextOf(u.header)
            && EventOf(s, c, path, known) == OutcomeOf(u, prev, if end == ';' then ";" else "", known)
            && NextFound(s, c, path, TextIf(prev), known) == TextIf(FoundAfter(u, prev, known))
  {
    hide TextOf, ReportOf, HeaderOf, C.Lent, Formed, Resolved, CommandOf, CommandText, Trimmed, Overlaid;
    EventRead(s, i, n, u, end, C.Lent(TextIf(prev), TextOf(u.header)));
    LentLeads(prev, u.header);
  }

  /** One round of the parser's loop. */
  lemma RoundRead(s: seq<char>, i: nat, n: nat, u: UnitText, end: char, prev: Option<Header>, known: string -> bool)
    requires StandsAt(s, i, n, u, end) && MaybeFormed(prev)
    ensures Events(s, Commands(s, i), TextIf(prev), known)
            == [OutcomeOf(u, prev, if end == ';' then ";" else "", known)]
               + Events(s, if n + 1 < |s| then Commands(s, n + 1) else [], TextIf(FoundAfter(u, prev, known)), known)
  {
    hide CommandAt, TextOf, UnitAt, ReportOf, HeaderOf, C.Lent, UnitFormed, Commands, Events, EventOf, NextFound, OutcomeOf,
         FoundAfter, TextIf;
    CommandRead(s, i, n, u, end);
    Became(s, i, n, u, end, prev, known);
    OneCommand(s, i);
    OneEvent(s, Commands(s, i), TextIf(prev), known);
  }

  lemma OneEvent(s: seq<char>, cs: seq<Command>, prev: string, known: string -> bool)
    requires cs != [] && !cs[0].header.kind.TokInvalid?
    ensures var c, path := cs[0], C.Lent(prev, HeaderOf(s, cs[0]));
            Events(s, cs, prev, known) == [EventOf(s, c, path, known)] + Events(s, cs[1..], NextFound(s, c, path, prev, known), known)
  {
    hide HeaderOf, C.Lent, EventOf, NextFound;
  }

  lemma OneCommand(s: seq<char>, i: nat)
    requires i <= |s| && |CommandAt(s, i)| == 1
    ensures var next := UnitAt(s, i).next;
            && Commands(s, i) != [] && Commands(s, i)[0] == CommandAt(s, i)[0]
            && Commands(s, i)[1..] == if next < |s| then Commands(s, next) else []
  {
    hide UnitAt, CommandAt;
  }

  /** The front unit of a line, whatever comes behind the line. */
  lemma FrontOfLine(b: seq<char>, i: nat, e: nat, us: seq<UnitText>)
    requires us != [] && AllFormed(us) && Reads(b, i, e, LineOf(us))
    ensures var n := i + |us[0].lead + CommandText(us[0])|;
            && e <= |b| && StandsAt(b, i, n, us[0], if |us| == 1 then '\n' else ';')
            && if |us| == 1 then n + 1 == e else Reads(b, n + 1, e, LineOf(us[1..]))
  {
    hide UnitFormed, CommandText, Reads;
    var t, end, later := us[0].lead + CommandText(us[0]), if |us| == 1 then '\n' else ';',
                         if |us| == 1 then "" else LineOf(us[1..]);
    assert LineOf(us) == t + ([end] + later);
    ReadsThree(b, i, e, t, [end], later);
    ReadsIs(b, i, i + |t|, t);
    ReadsIs(b, i + |t|, i + |t| + 1, [end]);
    ReadsIs(b, i + |t| + 1, e, later);
  }

  lemma NotEmpty(us: seq<UnitText>)
    requires us != [] && AllFormed(us)
    ensures LineOf(us) != []
  {
    HeaderNotEmpty(us[0]);
  }

  /** The parser's loop reaches every unit of a line, and its header becomes what the words of the line say. */
  lemma {:induction false} LineOutcomes(s: seq<char>, i: nat, us: seq<UnitText>, prev: Option<Header>, known: string -> bool)
    requires us != [] && AllFormed(us) && MaybeFormed(prev) && Reads(s, i, |s|, LineOf(us))
    ensures Events(s, Commands(s, i), TextIf(prev), known) == Outcomes(us, prev, known)
    decreases |us|
  {
    hide UnitFormed, Commands, OutcomeOf, FoundAfter, TextIf, LineOf, StandsAt, CommandText, Reads;
    FrontOfLine(s, i, |s|, us);
    var n := i + |us[0].lead + CommandText(us[0])|;
    RoundRead(s, i, n, us[0], if |us| == 1 then '\n' else ';', prev, known);
    if |us| > 1 {
      LineNotOver(s, n + 1, us[1..]);
      LineOutcomes(s, n + 1, us[1..], FoundAfter(us[0], prev, known), known);
    }
  }

  lemma LineNotOver(s: seq<char>, i: nat, us: seq<UnitText>)
    requires us != [] && AllFormed(us) && Reads(s, i, |s|, LineOf(us))
    ensures i < |s|
  {
    hide LineOf;
    NotEmpty(us);
  }

  lemma WholeText(s: seq<char>)
    ensures Reads(s, 0, |s|, s)
  {
  }

  /** Without white space in front a report is the text of its unit. */
  lemma ReportAsWritten(u: UnitText, prev: Option<Header>, end: string, known: string -> bool)
    requires UnitFormed(u) && MaybeFormed(prev) && u.lead == "" && (end == "" || end == ";")
    requires !known(TextOf(Resolved(prev, u.header)))
    requires end == "" ==> CommandText(u) != "" && !IsEol(CommandText(u)[|CommandText(u)| - 1])
    ensures OutcomeOf(u, prev, end, known) == Undefined(TextOf(Resolved(prev, u.header)), CommandText(u) + end)
  {
    hide CommandText, Resolved, TextOf, PathBefore, Formed, Blanks, ItemsFormed, Trimmed, Overlaid;
    NothingTrimmed(PathBefore(prev, u.header), CommandText(u), end);
  }

  lemma NothingTrimmed(path: string, t: seq<char>, end: string)
    requires (end == "" && t != "" && !IsEol(t[|t| - 1])) || end == ";"
    ensures Trimmed(Overlaid("", path) + (t + end)) == t + end
  {
    var r := t + end;
    assert Overlaid("", path) + r == r;
    assert r[|r| - 1] == if end == ";" then ';' else t[|t| - 1];
  }

  /** The event of a header that is looked up as `t`. */
  predicate Sought(x: Event, t: string, known: string -> bool) {
    !x.BadCharacter? && x.header == t && (x.Invoked? <==> known(t))
  }

  /**
   A line of two units, on the characters. `path` is the first header up to and including its last colon: it goes before
   the second header if the first one is found and neither begins with an asterisk, nor the second with a colon.
   */
  lemma TwoUnits(a: UnitText, b: UnitText, path: string, last: string, known: string -> bool)
    requires UnitFormed(a) && UnitFormed(b) && TextOf(a.header) == path + last
    requires (path != "" ==> path[|path| - 1] == ':') && forall k | 0 <= k < |last| :: last[k] != ':'
    ensures var s := a.lead + CommandText(a) + ";" + b.lead + CommandText(b) + "\n";
            var first, second, events := TextOf(a.header), TextOf(b.header), Events(s, Commands(s, 0), "", known);
            && first != "" && second != "" && |events| == 2 && Sought(events[0], first, known)
            && Sought(events[1], if known(first) && first[0] != '*' && second[0] != '*' && second[0] != ':' then path + second
                                 else second, known)
  {
    hide UnitFormed, CommandText, Commands, Events, Outcomes, LineOf, TextOf;
    var s := a.lead + CommandText(a) + ";" + b.lead + CommandText(b) + "\n";
    TwoText(a, b);
    WholeText(s);
    LineOutcomes(s, 0, [a, b], None, known);
    TwoOutcomes(a, b, known);
    HeaderNotEmpty(a);
    HeaderNotEmpty(b);
    SecondHeader(a.header, b.header, path, last);
  }

  lemma TwoText(a: UnitText, b: UnitText)
    requires UnitFormed(a) && UnitFormed(b)
    ensures LineOf([a, b]) == a.lead + CommandText(a) + ";" + b.lead + CommandText(b) + "\n"
  {
    hide UnitFormed, CommandText;
    assert [a, b][1..] == [b];
    Grouped(a.lead + CommandText(a), b.lead, CommandText(b));
  }

  lemma Grouped(x: string, y: string, z: string)
    ensures x + (";" + (y + z + "\n")) == x + ";" + y + z + "\n"
  {
  }

  lemma TwoOutcomes(a: UnitText, b: UnitText, known: string -> bool)
    requires UnitFormed(a) && UnitFormed(b)
    ensures var us, found := [a, b], known(TextOf(a.header));
            var t := TextOf(if found then Resolved(Some(a.header), b.header) else b.header);
            var events := Outcomes(us, None, known);
            |events| == 2 && Sought(events[0], TextOf(a.header), known) && Sought(events[1], t, known)
  {
    hide TextOf, CommandText, Trimmed, Overlaid, PathBefore;
    var us := [a, b];
    var later := FoundAfter(a, None, known);
    assert us[1..] == [b];
    assert Outcomes([b], later, known) == [OutcomeOf(b, later, "", known)];
    assert Outcomes(us, None, known) == [OutcomeOf(a, None, ";", known)] + Outcomes([b], later, known);
  }

  lemma SecondHeader(a: Header, b: Header, path: string, last: string)
    requires Formed(a) && Formed(b) && TextOf(a) == path + last && TextOf(a) != "" && TextOf(b) != ""
    requires (path != "" ==> path[|path| - 1] == ':') && forall k | 0 <= k < |last| :: last[k] != ':'
    ensures TextOf(Resolved(Some(a), b))
            == if TextOf(a)[0] != '*' && TextOf(b)[0] != '*' && TextOf(b)[0] != ':' then path + TextOf(b) else TextOf(b)
  {
    hide TextOf, Formed, Resolved, C.Resolve;
    WordsLead(Some(a), b);
    LookedUp(path, last, TextOf(b));
  }
}
