/**
 Which texts are command headers; IEEE 488.2, section 7.6.1. Headers are put together
 here from their characters, and found again by the recogniser.
 */
module HeaderTokens {
  import opened LexSpec

  predicate Letter(c: char) { 'A' <= c <= 'Z' || 'a' <= c <= 'z' }

  predicate WordCharacter(c: char) { Letter(c) || '0' <= c <= '9' || c == '_' }

  /** A letter, then letters, digits and underscores. */
  predicate Mnemonic(m: string) {
    m != [] && Letter(m[0]) && forall k | 0 < k < |m| :: WordCharacter(m[k])
  }

  predicate Mnemonics(ms: seq<string>) {
    forall k | 0 <= k < |ms| :: Mnemonic(ms[k])
  }

  datatype Header =
    | CompoundHeader(colon: bool, words: seq<string>, query: bool)
    | CommonHeader(word: string, query: bool)

  predicate Formed(h: Header) {
    match h
    case CompoundHeader(_, words, _) => words != [] && Mnemonics(words)
    case CommonHeader(word, _) => Mnemonic(word)
  }

  /** Mnemonics with a colon in front of each. */
  function Tails(ms: seq<string>): string {
    if ms == [] then "" else ":" + ms[0] + Tails(ms[1..])
  }

  /** The header without its query mark. */
  function Bare(h: Header): string
    requires Formed(h)
  {
    match h
    case CompoundHeader(colon, words, _) => (if colon then ":" else "") + words[0] + Tails(words[1..])
    case CommonHeader(word, _) => "*" + word
  }

  function TextOf(h: Header): string
    requires Formed(h)
  {
    Bare(h) + if h.query then "?" else ""
  }

  function KindOf(h: Header): TokenKind {
    match h
    case CompoundHeader(_, _, query) => if query then TokCompoundQuery else TokCompound
    case CommonHeader(_, query) => if query then TokCommonQuery else TokCommon
  }

  /** A header is followed by the end of the text, or by what is no part of one: white space, a semicolon, a newline. */
  predicate Ended(s: seq<char>, e: nat) {
    e == |s| || (e < |s| && !WordCharacter(s[e]) && s[e] != ':' && s[e] != '?')
  }

  lemma Parts(s: seq<char>, i: nat, e: nat, a: string, b: string)
    requires i <= e <= |s| && s[i..e] == a + b
    ensures i + |a| + |b| == e && s[i..i + |a|] == a && s[i + |a|..e] == b
    ensures a != [] ==> s[i] == a[0]
    ensures b != [] ==> s[i + |a|] == b[0]
  {
    var t, m := s[i..e], i + |a|;
    assert forall k | 0 <= k < |a| :: s[i..m][k] == t[k] == a[k];
    assert forall k | 0 <= k < |b| :: s[m..e][k] == t[|a| + k] == b[k];
  }

  /** A mnemonic in front of something that is no word character. */
  lemma MnemonicRead(s: seq<char>, i: nat, m: string)
    requires i + |m| <= |s| && s[i..i + |m|] == m && Mnemonic(m)
    requires i + |m| < |s| ==> !WordCharacter(s[i + |m|])
    ensures MnemonicEnd(s, i) == i + |m|
  {
    var e := i + |m|;
    assert forall k | i <= k < e :: s[k] == m[k - i];
    SkipTo(s, i + 1, Word, e);
  }

  lemma MnemonicWritten(s: seq<char>, i: nat)
    requires i <= |s| && MnemonicEnd(s, i) > i
    ensures Mnemonic(s[i..MnemonicEnd(s, i)])
  {
  }

  /** Behind the mnemonics of a header comes its query mark or its end. */
  predicate Behind(s: seq<char>, e: nat) {
    e == |s| || (e < |s| && !WordCharacter(s[e]) && s[e] != ':')
  }

  lemma {:induction false} TailsRead(s: seq<char>, i: nat, e: nat, ms: seq<string>)
    requires i <= e <= |s| && s[i..e] == Tails(ms) && Mnemonics(ms) && Behind(s, e)
    ensures CompoundTail(s, i) == (SkipOk, e)
    decreases |ms|
  {
    hide MnemonicEnd, Mnemonic;
    if ms != [] {
      var m, later := ms[0], Tails(ms[1..]);
      var j := i + 1 + |m|;
      assert Tails(ms) == ":" + (m + later);
      Parts(s, i, e, ":", m + later);
      Parts(s, i + 1, e, m, later);
      assert Mnemonic(m);
      NextTail(s, j, e, ms[1..]);
      MnemonicRead(s, i + 1, m);
      WordNotEmpty(m);
      TailsRead(s, j, e, ms[1..]);
    }
  }

  lemma WordNotEmpty(m: string)
    requires Mnemonic(m)
    ensures m != [] && Letter(m[0])
  {
  }

  lemma NextTail(s: seq<char>, j: nat, e: nat, ms: seq<string>)
    requires j <= e <= |s| && s[j..e] == Tails(ms) && Behind(s, e)
    ensures j < |s| ==> !WordCharacter(s[j])
  {
    if ms != [] {
      assert Tails(ms)[0] == ':' && s[j] == s[j..e][0];
    }
  }

  lemma {:induction false} TailsWritten(s: seq<char>, i: nat) returns (ms: seq<string>)
    requires i <= |s| && CompoundTail(s, i).0.SkipOk?
    ensures Mnemonics(ms) && s[i..CompoundTail(s, i).1] == Tails(ms)
    decreases |s| - i
  {
    hide MnemonicEnd, Mnemonic;
    var e := CompoundTail(s, i).1;
    if i < |s| && s[i] == ':' {
      var j := MnemonicEnd(s, i + 1);
      MnemonicWritten(s, i + 1);
      var later: seq<string> := [];
      if j < |s| {
        later := TailsWritten(s, j);
      }
      ms := [s[i + 1..j]] + later;
      assert ms[1..] == later;
      assert s[i..e] == [s[i]] + s[i + 1..j] + s[j..e];
    } else {
      ms := [];
    }
  }

  lemma MarkRead(s: seq<char>, i: nat, e: nat, body: string, query: bool)
    requires i <= e <= |s| && s[i..e] == body + (if query then "?" else "") && Ended(s, e)
    ensures i + |body| + (if query then 1 else 0) == e && s[i..i + |body|] == body && Behind(s, i + |body|)
    ensures SkipChr(s, i + |body|, '?') == e
  {
    Parts(s, i, e, body, if query then "?" else "");
  }

  lemma CommonRead(s: seq<char>, i: nat, word: string)
    requires var e := i + 1 + |word|; e <= |s| && s[i..e] == "*" + word && Mnemonic(word) && Behind(s, e)
    ensures Common(s, i) == (SkipOk, i + 1 + |word|)
  {
    hide MnemonicEnd;
    Parts(s, i, i + 1 + |word|, "*", word);
    MnemonicRead(s, i + 1, word);
  }

  lemma CompoundRead(s: seq<char>, i: nat, e: nat, colon: bool, words: seq<string>)
    requires i <= e <= |s| && words != [] && Mnemonics(words) && Behind(s, e)
    requires s[i..e] == (if colon then ":" else "") + words[0] + Tails(words[1..])
    ensures Common(s, i).0.SkipNone? && Compound(s, i) == (SkipOk, e)
  {
    hide MnemonicEnd, Mnemonic, CompoundTail, Compound, Common, SkipChr, Tails, Behind, WordCharacter, Letter;
    var lead, m := if colon then ":" else "", words[0];
    var c, j := i + |lead|, i + |lead| + |m|;
    assert Mnemonic(m);
    WordNotEmpty(m);
    LeadAndWord(s, i, e, lead, m, Tails(words[1..]));
    NextTail(s, j, e, words[1..]);
    MnemonicRead(s, c, m);
    assert Mnemonics(words[1..]);
    TailsRead(s, j, e, words[1..]);
    LeadRead(s, i, colon);
    WordsRead(s, i, c, j, e);
  }

  lemma LeadAndWord(s: seq<char>, i: nat, e: nat, lead: string, m: string, later: string)
    requires i <= e <= |s| && s[i..e] == lead + m + later && m != []
    ensures var c, j := i + |lead|, i + |lead| + |m|;
            j <= e && s[c..j] == m && s[j..e] == later && s[c] == m[0] && (lead != [] ==> s[i] == lead[0])
  {
    assert s[i..e] == lead + (m + later);
    Parts(s, i, e, lead, m + later);
    Parts(s, i + |lead|, e, m, later);
  }

  lemma LeadRead(s: seq<char>, i: nat, colon: bool)
    requires if colon then i + 1 < |s| && s[i] == ':' && Letter(s[i + 1]) else i < |s| && Letter(s[i])
    ensures SkipChr(s, i, ':') == (if colon then i + 1 else i) && s[i] != '*'
  {
  }

  lemma WordsRead(s: seq<char>, i: nat, c: nat, j: nat, e: nat)
    requires i < |s| && s[i] != '*' && c == SkipChr(s, i, ':') && c < j <= |s|
    requires MnemonicEnd(s, c) == j && CompoundTail(s, j) == (SkipOk, e)
    ensures Common(s, i).0.SkipNone? && Compound(s, i) == (SkipOk, e)
  {
    hide MnemonicEnd;
  }

  lemma BodyNotEmpty(h: Header)
    requires Formed(h)
    ensures Bare(h) != []
  {
  }

  /** A header that is complete at `b`, and its query mark. */
  lemma TokenOf(s: seq<char>, i: nat, b: nat)
    requires i < b <= |s|
    ensures var q := SkipChr(s, b, '?');
            && (Common(s, i) == (SkipOk, b) ==>
                  HeaderAt(s, i) == Token(if q > b then TokCommonQuery else TokCommon, i, q - i))
            && (Common(s, i).0.SkipNone? && Compound(s, i) == (SkipOk, b) ==>
                  HeaderAt(s, i) == Token(if q > b then TokCompoundQuery else TokCompound, i, q - i))
  {
    hide Common, Compound, SkipChr;
  }

  /** Every header is the header token of its length and kind. */
  lemma HeaderRead(s: seq<char>, i: nat, h: Header)
    requires Formed(h) && i + |TextOf(h)| <= |s| && s[i..i + |TextOf(h)|] == TextOf(h) && Ended(s, i + |TextOf(h)|)
    ensures HeaderAt(s, i) == Token(KindOf(h), i, |TextOf(h)|)
  {
    hide Common, Compound, HeaderAt, SkipChr, Bare, Formed;
    var e := i + |TextOf(h)|;
    MarkRead(s, i, e, Bare(h), h.query);
    BodyRead(s, i, h);
    TokenOf(s, i, i + |Bare(h)|);
  }

  lemma BodyRead(s: seq<char>, i: nat, h: Header)
    requires Formed(h)
    requires var b := i + |Bare(h)|; b <= |s| && s[i..b] == Bare(h) && Behind(s, b)
    ensures var b := i + |Bare(h)|;
            && i < b
            && if h.CommonHeader? then Common(s, i) == (SkipOk, b)
               else Common(s, i).0.SkipNone? && Compound(s, i) == (SkipOk, b)
  {
    hide Common, Compound;
    BodyNotEmpty(h);
    match h
    case CompoundHeader(colon, words, _) => CompoundRead(s, i, i + |Bare(h)|, colon, words);
    case CommonHeader(word, _) => CommonRead(s, i, word);
  }

  predicate IsHeader(k: TokenKind) {
    k == TokCompound || k == TokCompoundQuery || k == TokCommon || k == TokCommonQuery
  }

  lemma CompoundWritten(s: seq<char>, i: nat) returns (h: Header)
    requires i <= |s| && Compound(s, i).0.SkipOk?
    ensures h.CompoundHeader? && !h.query && Formed(h) && s[i..Compound(s, i).1] == Bare(h)
  {
    hide MnemonicEnd, Mnemonic;
    var c := SkipChr(s, i, ':');
    var j, e := MnemonicEnd(s, c), Compound(s, i).1;
    MnemonicWritten(s, c);
    var later: seq<string> := [];
    if j < |s| {
      later := TailsWritten(s, j);
    }
    h := CompoundHeader(c > i, [s[c..j]] + later, false);
    assert h.words[1..] == later;
    assert s[i..e] == s[i..c] + s[c..j] + s[j..e];
  }

  /** Every complete header token is a header. */
  lemma HeaderWritten(s: seq<char>, i: nat) returns (h: Header)
    requires i <= |s| && IsHeader(HeaderAt(s, i).kind)
    ensures Formed(h) && KindOf(h) == HeaderAt(s, i).kind && s[i..i + HeaderAt(s, i).len] == TextOf(h)
  {
    hide Compound, Common, SkipChr, HeaderAt, Tails;
    StatusOf(s, i);
    var b := if Common(s, i).0.SkipNone? then Compound(s, i).1 else Common(s, i).1;
    var n := i + HeaderAt(s, i).len;
    if Common(s, i).0.SkipNone? {
      h := CompoundWritten(s, i);
    } else {
      h := CommonWritten(s, i);
    }
    h := h.(query := n > b);
    assert s[i..n] == s[i..b] + s[b..n];
  }

  lemma CommonWritten(s: seq<char>, i: nat) returns (h: Header)
    requires i <= |s| && Common(s, i).0.SkipOk?
    ensures h.CommonHeader? && !h.query && Formed(h) && s[i..Common(s, i).1] == Bare(h)
  {
    hide MnemonicEnd, Mnemonic;
    var e := Common(s, i).1;
    MnemonicWritten(s, i + 1);
    h := CommonHeader(s[i + 1..e], false);
  }

  /** What a complete header token tells. */
  lemma StatusOf(s: seq<char>, i: nat)
    requires i <= |s| && IsHeader(HeaderAt(s, i).kind)
    ensures var none := Common(s, i).0.SkipNone?;
            && (if none then Compound(s, i).0.SkipOk? else Common(s, i).0.SkipOk?)
            && var b := if none then Compound(s, i).1 else Common(s, i).1;
               var n := i + HeaderAt(s, i).len;
               && b <= n <= |s| && s[b..n] == (if n > b then "?" else "")
               && HeaderAt(s, i).kind == if none then (if n > b then TokCompoundQuery else TokCompound)
                                         else (if n > b then TokCommonQuery else TokCommon)
  {
    hide Common, Compound;
  }

  /** What ends a unit, and how many characters that takes. */
  function EndOf(s: seq<char>, e: nat): (r: (Termination, nat))
    requires e <= |s|
  {
    if e == |s| then (TermNone, 0)
    else if s[e] == '\r' && e + 1 < |s| && s[e + 1] == '\n' then (TermNl, 2)
    else if s[e] == '\r' || s[e] == '\n' then (TermNl, 1)
    else (TermSemicolon, 1)
  }

  predicate UnitEnded(s: seq<char>, e: nat) {
    e == |s| || (e < |s| && (s[e] == ';' || s[e] == '\r' || s[e] == '\n'))
  }

  /** The end of a unit behind its body. */
  lemma UnitFrom(s: seq<char>, i: nat, e: nat)
    requires i <= |s| && BodyAt(s, i).end == e && UnitEnded(s, e)
    ensures var b, (term, k) := BodyAt(s, i), EndOf(s, e); UnitAt(s, i) == Unit(b.header, b.data, b.params, term, e + k)
  {
    hide BodyAt;
  }

  lemma HeaderBody(s: seq<char>, i: nat, h: Header)
    requires Formed(h) && i + |TextOf(h)| <= |s| && s[i..i + |TextOf(h)|] == TextOf(h) && UnitEnded(s, i + |TextOf(h)|)
    ensures var n := |TextOf(h)|;
            BodyAt(s, i) == Body(Token(KindOf(h), i, n), Token(TokUnknown, i + n, 0), 0, i + n)
  {
    hide HeaderAt, DataAt, TextOf, Formed;
    var e := i + |TextOf(h)|;
    HeaderRead(s, i, h);
    HeaderStarts(h);
    assert s[i] == s[i..e][0];
    SkipTo(s, i, Ws, i);
    SkipTo(s, e, Ws, e);
  }

  /** A header alone, in front of a newline, a semicolon or the end, is a unit. */
  lemma HeaderUnit(s: seq<char>, i: nat, h: Header)
    requires Formed(h) && i + |TextOf(h)| <= |s| && s[i..i + |TextOf(h)|] == TextOf(h) && UnitEnded(s, i + |TextOf(h)|)
    ensures var n := |TextOf(h)|;
            var (term, k) := EndOf(s, i + n);
            UnitAt(s, i) == Unit(Token(KindOf(h), i, n), Token(TokUnknown, i + n, 0), 0, term, i + n + k)
  {
    hide BodyAt, TextOf, Formed;
    HeaderBody(s, i, h);
    UnitFrom(s, i, i + |TextOf(h)|);
  }

  lemma HeaderStarts(h: Header)
    requires Formed(h)
    ensures TextOf(h) != [] && (Letter(TextOf(h)[0]) || TextOf(h)[0] == ':' || TextOf(h)[0] == '*')
  {
  }

  /** Behind a header, what neither continues it nor ends the unit is an invalid character. */
  lemma StrayCharacter(s: seq<char>, i: nat, h: Header)
    requires Formed(h) && i + |TextOf(h)| < |s| && s[i..i + |TextOf(h)|] == TextOf(h) && Ended(s, i + |TextOf(h)|)
    requires s[i + |TextOf(h)|] !in {' ', '\t', ';', '\r', '\n'}
    ensures UnitAt(s, i) == Unit(Token(TokInvalid, i, 1), Token(TokUnknown, i, 0), 0, TermNone, i + |TextOf(h)| + 1)
  {
    hide HeaderAt, DataAt, TextOf, Formed;
    var e := i + |TextOf(h)|;
    HeaderRead(s, i, h);
    HeaderStarts(h);
    assert s[i] == s[i..e][0];
    SkipTo(s, i, Ws, i);
    SkipTo(s, e, Ws, e);
  }

  /** No header begins with anything but a letter, a colon or an asterisk. */
  lemma NoHeader(s: seq<char>, i: nat)
    requires i <= |s| && (i < |s| ==> !Letter(s[i]) && s[i] != ':' && s[i] != '*')
    ensures HeaderAt(s, i) == Token(TokUnknown, i, 0)
  {
  }
}
