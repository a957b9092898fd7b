/**
 Where relative headers lead; SCPI-99, section 6.2.4. The header that is looked up is told from the
 characters of two headers, and from their words.
 */
module RelativeHeaders {
  import opened Wrappers
  import opened HeaderTokens
  import C = Compose

  /**
   `path` is the previous header up to and including its last colon. It goes before the current one unless
   that begins with an asterisk or a colon, or the previous one is none or begins with an asterisk.
   */
  lemma LookedUp(path: string, last: string, header: string)
    requires (path != "" ==> path[|path| - 1] == ':') && forall k | 0 <= k < |last| :: last[k] != ':'
    ensures var prev := path + last;
            C.Resolve(prev, header)
            == if (header != "" && (header[0] == '*' || header[0] == ':')) || prev == "" || prev[0] == '*' then header
               else path + header
  {
    hide C.PathLength;
    var prev := path + last;
    C.PathLengthIs(prev, |path|);
    assert prev[..|path|] == path && prev[..0] + header == header;
  }

  /** Every text has such a path. */
  lemma {:induction false} PathOf(prev: string) returns (path: string, last: string)
    ensures prev == path + last
    ensures (path != "" ==> path[|path| - 1] == ':') && forall k | 0 <= k < |last| :: last[k] != ':'
  {
    if prev == "" || prev[|prev| - 1] == ':' {
      path, last := prev, "";
    } else {
      path, last := PathOf(prev[..|prev| - 1]);
      last := last + [prev[|prev| - 1]];
    }
  }

  /** The words but the last, each with a colon behind it. */
  function Climb(words: seq<string>): string
    requires words != []
  {
    if |words| == 1 then "" else words[0] + ":" + Climb(words[1..])
  }

  /** Where `h` leads behind `prev`: into the level of its last word, when `h` is relative. */
  function Resolved(prev: Option<Header>, h: Header): (r: Header)
    requires Formed(h) && (prev.Some? ==> Formed(prev.value))
    ensures Formed(r)
  {
    if prev.None? || prev.value.CommonHeader? || h.CommonHeader? || h.colon then h
    else
      var up := prev.value.words[..|prev.value.words| - 1];
      CompoundHeader(prev.value.colon, up + h.words, h.query)
  }

  function TextIf(h: Option<Header>): string
    requires h.Some? ==> Formed(h.value)
  {
    if h.None? then "" else TextOf(h.value)
  }

  lemma {:induction false} WordsSplit(words: seq<string>)
    requires words != []
    ensures words[0] + Tails(words[1..]) == Climb(words) + words[|words| - 1]
    decreases |words|
  {
    if |words| > 1 {
      var rest := words[1..];
      WordsSplit(rest);
      var a, b := words[0], rest[0] + Tails(rest[1..]);
      assert Tails(rest) == ":" + b;
      assert Climb(words) == a + ":" + Climb(rest);
      assert a + (":" + b) == a + ":" + b;
      assert a + ":" + (Climb(rest) + rest[|rest| - 1]) == a + ":" + Climb(rest) + rest[|rest| - 1];
    }
  }

  lemma {:induction false} ClimbJoins(up: seq<string>, words: seq<string>, last: string)
    requires words != []
    ensures Climb(up + [last]) + Climb(words) == Climb(up + words)
    decreases |up|
  {
    if up == [] {
      assert [] + [last] == [last] && [] + words == words;
      assert "" + Climb(words) == Climb(words);
    } else {
      assert (up + [last])[1..] == up[1..] + [last] && (up + words)[1..] == up[1..] + words;
      ClimbJoins(up[1..], words, last);
      var a := up[0] + ":";
      assert a + Climb(up[1..] + [last]) + Climb(words) == a + (Climb(up[1..] + [last]) + Climb(words));
    }
  }

  lemma {:induction false} ClimbEnds(words: seq<string>)
    requires words != []
    ensures Climb(words) != "" ==> Climb(words)[|Climb(words)| - 1] == ':'
    decreases |words|
  {
    if |words| > 1 {
      ClimbEnds(words[1..]);
      var a := words[0] + ":";
      assert Climb(words) == a + Climb(words[1..]);
      if Climb(words[1..]) == "" {
        assert Climb(words) == a;
      }
    }
  }

  lemma NoColon(m: string, query: bool)
    requires Mnemonic(m)
    ensures var t := m + if query then "?" else ""; forall k | 0 <= k < |t| :: t[k] != ':'
  {
  }

  /** A compound header in terms of its path and its last word. */
  lemma HeaderSplit(h: Header)
    requires Formed(h) && h.CompoundHeader?
    ensures var lead, n := if h.colon then ":" else "", |h.words|;
            && TextOf(h) == lead + Climb(h.words) + (h.words[n - 1] + if h.query then "?" else "")
            && var path := lead + Climb(h.words); path != "" ==> path[|path| - 1] == ':' && path[0] != '*'
  {
    hide Mnemonic, Climb, Tails;
    var lead, n, q := if h.colon then ":" else "", |h.words|, if h.query then "?" else "";
    WordsSplit(h.words);
    ClimbEnds(h.words);
    FirstOfClimb(h.words);
    var a, b := Climb(h.words), h.words[n - 1];
    assert lead + h.words[0] + Tails(h.words[1..]) == lead + (h.words[0] + Tails(h.words[1..]));
    assert lead + (a + b) + q == lead + a + (b + q);
    if a == "" {
      assert lead + a == lead;
    }
  }

  lemma FirstOfClimb(words: seq<string>)
    requires words != [] && Mnemonics(words)
    ensures Climb(words) != "" ==> Climb(words)[0] != '*'
  {
    if |words| > 1 {
      assert Mnemonic(words[0]);
      assert Climb(words)[0] == words[0][0];
    }
  }

  lemma Starts(h: Header)
    requires Formed(h)
    ensures TextOf(h) != [] && (TextOf(h)[0] == '*' <==> h.CommonHeader?)
    ensures TextOf(h)[0] == ':' <==> h.CompoundHeader? && h.colon
  {
    HeaderStarts(h);
    if h.CompoundHeader? {
      assert Mnemonic(h.words[0]);
      assert Bare(h)[0] == if h.colon then ':' else h.words[0][0];
    } else {
      assert Bare(h)[0] == '*';
    }
    assert TextOf(h)[0] == Bare(h)[0];
  }

  /** The text looked up is the text of the header that the words lead to. */
  lemma WordsLead(prev: Option<Header>, h: Header)
    requires Formed(h) && (prev.Some? ==> Formed(prev.value))
    ensures C.Resolve(TextIf(prev), TextOf(h)) == TextOf(Resolved(prev, h))
  {
    hide C.Resolve, TextOf, Climb, Mnemonics, Mnemonic, Formed;
    Starts(h);
    if prev.Some? {
      Starts(prev.value);
    }
    if prev.None? || prev.value.CommonHeader? || h.CommonHeader? || h.colon {
      var path, last := PathOf(TextIf(prev));
      LookedUp(path, last, TextOf(h));
    } else {
      DownFrom(prev.value, h);
    }
  }

  lemma DownFrom(prev: Header, h: Header)
    requires Formed(h) && Formed(prev) && prev.CompoundHeader? && h.CompoundHeader? && !h.colon
    ensures C.Resolve(TextOf(prev), TextOf(h)) == TextOf(Resolved(Some(prev), h))
  {
    hide C.Resolve, Climb, Mnemonics, Mnemonic, TextOf;
    Starts(h);
    Starts(prev);
    HeaderSplit(prev);
    var lead, n := if prev.colon then ":" else "", |prev.words|;
    var path, last := lead + Climb(prev.words), prev.words[n - 1] + if prev.query then "?" else "";
    LastPlain(prev);
    LookedUp(path, last, TextOf(h));
    Landing(prev, h);
  }

  lemma LastPlain(h: Header)
    requires Formed(h) && h.CompoundHeader?
    ensures var last := h.words[|h.words| - 1] + if h.query then "?" else ""; forall k | 0 <= k < |last| :: last[k] != ':'
  {
    assert Mnemonic(h.words[|h.words| - 1]);
    NoColon(h.words[|h.words| - 1], h.query);
  }

  /** The path and then the header. */
  lemma Landing(prev: Header, h: Header)
    requires Formed(h) && Formed(prev) && prev.CompoundHeader? && h.CompoundHeader? && !h.colon
    ensures (if prev.colon then ":" else "") + Climb(prev.words) + TextOf(h) == TextOf(Resolved(Some(prev), h))
  {
    hide Climb, Mnemonics, Mnemonic, TextOf;
    var lead, n := if prev.colon then ":" else "", |prev.words|;
    var up, last, r := prev.words[..n - 1], prev.words[n - 1], Resolved(Some(prev), h);
    HeaderSplit(h);
    HeaderSplit(r);
    assert up + [last] == prev.words;
    ClimbJoins(up, h.words, last);
    var end := h.words[|h.words| - 1] + if h.query then "?" else "";
    Joining(lead, Climb(prev.words), Climb(h.words), end);
  }

  lemma Joining(lead: string, a: string, b: string, end: string)
    ensures lead + a + ("" + b + end) == lead + (a + b) + end
  {
  }

  /** What goes before `h`: the words above the last one of the previous header. */
  function PathBefore(prev: Option<Header>, h: Header): string
    requires Formed(h) && (prev.Some? ==> Formed(prev.value))
  {
    if prev.None? || prev.value.CommonHeader? || h.CommonHeader? || h.colon then ""
    else (if prev.value.colon then ":" else "") + Climb(prev.value.words)
  }

  lemma LentLeads(prev: Option<Header>, h: Header)
    requires Formed(h) && (prev.Some? ==> Formed(prev.value))
    ensures C.Lent(TextIf(prev), TextOf(h)) == PathBefore(prev, h)
    ensures PathBefore(prev, h) + TextOf(h) == TextOf(Resolved(prev, h))
  {
    hide TextOf, Formed, C.Borrowed, Climb;
    WordsLead(prev, h);
    var lent, path, t := C.Lent(TextIf(prev), TextOf(h)), PathBefore(prev, h), TextOf(h);
    if path == "" {
      assert path + t == t;
    }
    if prev.Some? && prev.value.CompoundHeader? && h.CompoundHeader? && !h.colon {
      Landing(prev.value, h);
    }
    Cancelled(lent, path, t);
  }

  lemma Cancelled(a: string, b: string, t: string)
    requires a + t == b + t
    ensures a == b
  {
    assert |a| == |b| && (a + t)[..|a|] == a && (b + t)[..|b|] == b;
  }
}
