/** Reading parameters. */
module Parameters {
  import opened Arithmetic
  import opened LexSpec
  import opened Lexer
  import Numerals
  import opened Printer
  import MessageUnit

  datatype Reading = Missing | InvalidSeparator | InvalidData | Param(token: Token, next: nat)

  /** The parameter at `i` of the program data `s`, after `count` others. */
  function ParameterAt(s: seq<char>, i: nat, count: nat): (r: Reading)
    requires i <= |s|
    ensures r.Param? ==> i < r.next <= |s| && 0 <= r.token.len && r.token.ptr + r.token.len <= |s|
  {
    if i == |s| then Missing
    else if count > 0 && s[i] != ',' then InvalidSeparator
    else
      var d := DatumAt(s, if count > 0 then i + 1 else i);
      if d.token.kind.TokUnknown? then InvalidData else Param(d.token, d.next)
  }

  /** Kinds that a parameter can have. */
  predicate IsData(k: TokenKind) {
    k in {TokHex, TokOct, TokBin, TokMnemonic, TokDecimal, TokDecimalSuffix, TokBlock,
          TokSingleQuote, TokDoubleQuote, TokExpression}
  }

  lemma DatumKinds(s: seq<char>, i: nat)
    requires i <= |s|
    ensures DatumAt(s, i).token.kind.TokUnknown? || IsData(DatumAt(s, i).token.kind)
  {
    hide NondecimalEnd, MnemonicEnd, DecimalEnd, SuffixEnd, StringEnd, ExpressionEnd, SkipWhile, LengthDigits, Sound;
  }

  /** The digits of base `b` at `i`. */
  function DigitsEnd(b: Numerals.Base, s: seq<char>, i: nat): (e: nat)
    requires i <= |s|
    ensures i <= e <= |s|
    decreases |s| - i
  {
    if i < |s| && Numerals.DigitValue(s[i]) < b then DigitsEnd(b, s, i + 1) else i
  }

  /** Where the digits of a number start: in base 16 a prefix of the library's own may come first. */
  function DigitsStart(b: Numerals.Base, s: seq<char>, p: nat): (q: nat)
    requires p <= |s|
    ensures p <= q <= |s|
  {
    if b == 16 && p + 2 < |s| && s[p] == '0' && (s[p + 1] == 'x' || s[p + 1] == 'X') && Numerals.DigitValue(s[p + 2]) < 16
    then p + 2 else p
  }

  /**
   The number that the library finds at `i`: an optional sign, then digits. How many
   characters it used, and the value as written.
   */
  function StrTo(b: Numerals.Base, s: seq<char>, i: nat): (nat, int)
    requires i <= |s|
  {
    var p := DigitsStart(b, s, if i < |s| && IsPlusMinus(s[i]) then i + 1 else i);
    var e := DigitsEnd(b, s, p);
    if e == p then (0, 0)
    else
      var n := Numerals.Eval(b, s[p..e]);
      (e - i, if s[i] == '-' then 0 - n else n)
  }

  /** A machine integer. */
  datatype IntType = IntType(w: Width, sign: bool)

  predicate InRange(t: IntType, v: int) {
    if t.sign then 0 <= 2 * v + Modulus(t.w) && 2 * v < Modulus(t.w) else 0 <= v < Modulus(t.w)
  }

  /** A number written in the text, as the signed conversions return it: the nearest bound when out of range. */
  function Clamped(w: Width, v: int): int {
    Max(0 - Modulus(w) / 2, Min(Modulus(w) / 2 - 1, v))
  }

  /** The same for the unsigned conversions: a sign negates the word, and the largest one stands for what is too large. */
  function Wrapped(w: Width, v: int): nat {
    if Abs(v) >= Modulus(w) then Modulus(w) - 1 else v % Modulus(w)
  }

  /**
   What a variable of type `t` holds after the conversion of the number `v`. Conversions to
   32 bits go through the platform's long type of width `long`, and are then cut to 32 bits;
   only decimal numbers have a signed conversion.
   */
  function Converted(long: Width, t: IntType, decimal: bool, v: int): int {
    var lib := if t.w.W32? then long else W64;
    var word := (if t.sign && decimal then Clamped(lib, v) else Wrapped(lib, v)) % Modulus(t.w);
    if t.sign && 2 * word >= Modulus(t.w) then word - Modulus(t.w) else word
  }

  lemma Residue(v: int, m: nat)
    requires m > 0 && 0 - m <= v < m
    ensures v % m == if v < 0 then v + m else v
  {
  }

  lemma ResidueBound(v: int, m: nat)
    requires m > 0
    ensures 0 <= v % m < m
  {
  }

  lemma LowWord(v: nat)
    requires v < Modulus(W32)
    ensures (0xFFFF_FFFF * 0x1_0000_0000 + v) % Modulus(W32) == v
  {
  }

  /** The library's word, cut to the type, for a number that the type has. */
  lemma WordInRange(long: Width, t: IntType, v: int)
    requires InRange(t, v)
    ensures var lib := if t.w.W32? then long else W64;
            && (t.sign ==> Clamped(lib, v) % Modulus(t.w) == if v < 0 then v + Modulus(t.w) else v)
            && Wrapped(lib, v) % Modulus(t.w) == (if v < 0 then v + Modulus(t.w) else v)
  {
    var lib := if t.w.W32? then long else W64;
    Residue(v, Modulus(t.w));
    Residue(v, Modulus(lib));
    if v < 0 {
      Residue(v + Modulus(t.w), Modulus(t.w));
      if t.w.W32? {
        LowWord(v + Modulus(W32));
      }
    }
  }

  /** The variable holds the number that was written exactly when its type has it. */
  lemma ConvertedExact(long: Width, t: IntType, decimal: bool, v: int)
    ensures InRange(t, Converted(long, t, decimal, v))
    ensures Converted(long, t, decimal, v) == v <==> InRange(t, v)
  {
    hide Clamped, Wrapped;
    var lib := if t.w.W32? then long else W64;
    var u := if t.sign && decimal then Clamped(lib, v) else Wrapped(lib, v);
    ResidueBound(u, Modulus(t.w));
    if InRange(t, v) {
      WordInRange(long, t, v);
    }
  }

  /** The base that a numeric token is read in. */
  function TokenBase(k: TokenKind): Numerals.Base {
    match k
    case TokHex => 16
    case TokOct => 8
    case TokBin => 2
    case _ => 10
  }

  predicate IsNumber(k: TokenKind) {
    k == TokHex || k == TokOct || k == TokBin || k == TokDecimal
  }

  datatype Number = NoNumber(why: Reading) | SuffixNotAllowed | DataTypeError | NoDigits | Value(v: int)

  /** A parameter taken as an integer of type `t`. */
  function NumberOf(long: Width, t: IntType, s: seq<char>, r: Reading): Number
    requires r.Param? ==> 0 <= r.token.len && r.token.ptr + r.token.len <= |s|
  {
    if !r.Param? then NoNumber(r)
    else if r.token.kind == TokDecimalSuffix then SuffixNotAllowed
    else if !IsNumber(r.token.kind) then DataTypeError
    else
      var (used, v) := StrTo(TokenBase(r.token.kind), s, r.token.ptr);
      if used == 0 then NoDigits else Value(Converted(long, t, r.token.kind == TokDecimal, v))
  }

  /** A quoted text, doubled quotes taken once: each copied quote takes the next character with it. */
  function Undoubled(t: seq<char>, quote: char): seq<char> {
    if t == [] then []
    else [t[0]] + if t[0] != quote then Undoubled(t[1..], quote) else if |t| > 1 then Undoubled(t[2..], quote) else []
  }

  function QuoteOf(k: TokenKind): char { if k == TokSingleQuote then '\'' else '"' }

  /** The part of a string token that fits a buffer of `room` characters: the first one costs a place. */
  function Content(s: seq<char>, token: Token, room: nat): seq<char>
    requires token.len >= 2 && token.ptr + token.len <= |s|
  {
    if room == 0 then [] else s[token.ptr + 1..token.ptr + Min(token.len - 1, room)]
  }

  /** The reading side of the context: the program data and the number of parameters read. */
  class Reader {
    const lex: LexState
    var count: nat

    ghost predicate Valid()
      reads this, lex
    {
      lex.Valid()
    }

    constructor (data: seq<char>)
      ensures Valid() && fresh(lex) && lex.text == data && lex.pos == 0 && count == 0
    {
      lex := new LexState(data, 0);
      count := 0;
    }

    /** The next parameter. */
    method Parameter() returns (r: Reading)
      requires Valid()
      modifies this, lex
      ensures Valid() && r == ParameterAt(lex.text, old(lex.pos), old(count))
      ensures r.Param? ==> lex.pos == r.next && count == old(count) + 1
    {
      hide DatumAt;
      if lex.IsEos() {
        return Missing;
      }
      if count != 0 {
        var comma := lex.SpecificCharacter(',', TokComma);
        if comma.kind != TokComma {
          return InvalidSeparator;
        }
      }
      count := count + 1;
      DatumKinds(lex.text, lex.pos);
      var token, _ := MessageUnit.ParseProgramData(lex);
      r := if IsData(token.kind) then Param(token, lex.pos) else InvalidData;
    }

    /** An integer parameter of type `t`. */
    method ParamInt(long: Width, t: IntType) returns (n: Number)
      requires Valid()
      modifies this, lex
      ensures Valid() && n == NumberOf(long, t, lex.text, ParameterAt(lex.text, old(lex.pos), old(count)))
    {
      hide ParameterAt, StrTo, Converted;
      var r := Parameter();
      if !r.Param? {
        return NoNumber(r);
      }
      if IsNumber(r.token.kind) {
        var (used, v) := StrTo(TokenBase(r.token.kind), lex.text, r.token.ptr);
        n := if used > 0 then Value(Converted(long, t, r.token.kind == TokDecimal, v)) else NoDigits;
      } else if r.token.kind == TokDecimalSuffix {
        n := SuffixNotAllowed;
      } else {
        n := DataTypeError;
      }
    }

    /** A string parameter, copied to `buffer` without its quotes. */
    method ParamCopyText(buffer: array<char>) returns (r: Reading, ok: bool, copied: nat)
      requires Valid()
      modifies this, lex, buffer
      ensures Valid() && r == ParameterAt(lex.text, old(lex.pos), old(count))
      ensures ok <==> r.Param? && IsString(r.token.kind)
      ensures ok ==> 2 <= r.token.len && copied <= buffer.Length
      ensures ok ==> buffer[..copied] == Undoubled(Content(lex.text, r.token, buffer.Length), QuoteOf(r.token.kind))
      ensures ok && copied < buffer.Length ==> buffer[copied] == '\0'
    {
      hide ParameterAt;
      r := Parameter();
      ok, copied := r.Param? && IsString(r.token.kind), 0;
      if ok {
        StringTokens(lex.text, old(lex.pos), old(count));
        copied := CopyQuoted(lex.text, r.token, buffer);
      }
    }
  }

  lemma StringTokens(s: seq<char>, i: nat, count: nat)
    requires i <= |s|
    ensures var r := ParameterAt(s, i, count); r.Param? && IsString(r.token.kind) ==> r.token.len >= 2
  {
    hide SkipWhile, NondecimalEnd, MnemonicEnd, DecimalEnd, SuffixEnd, StringEnd, BlockAt, ExpressionEnd;
    assert forall c :: !IsString(LexSpec.BaseOf(c).0);
  }

  /** What is still to be copied from the `k`th character on. */
  function Uncopied(t: seq<char>, k: nat, quote: char): seq<char> {
    if k <= |t| then Undoubled(t[k..], quote) else []
  }

  lemma CopyStep(t: seq<char>, k: nat, quote: char)
    requires k < |t|
    ensures Uncopied(t, k, quote) == [t[k]] + Uncopied(t, if t[k] == quote then k + 2 else k + 1, quote)
  {
    assert t[k..][1..] == t[k + 1..];
    if k + 1 < |t| {
      assert t[k..][2..] == t[k + 2..];
    }
  }

  lemma ContentAt(s: seq<char>, token: Token, room: nat, from: nat)
    requires token.len >= 2 && token.ptr + token.len <= |s| && 1 <= from
    ensures |Content(s, token, room)| == if room == 0 then 0 else Min(token.len - 1, room) - 1
    ensures from < token.len - 1 && from < room ==> Content(s, token, room)[from - 1] == s[token.ptr + from]
  {
  }

  /** The copying loop. */
  method CopyQuoted(s: seq<char>, token: Token, buffer: array<char>) returns (to: nat)
    requires token.len >= 2 && token.ptr + token.len <= |s|
    modifies buffer
    ensures to <= buffer.Length
    ensures buffer[..to] == Undoubled(Content(s, token, buffer.Length), QuoteOf(token.kind))
    ensures to < buffer.Length ==> buffer[to] == '\0'
  {
    hide Undoubled, Content, Uncopied;
    var quote, from := QuoteOf(token.kind), 1;
    to := 0;
    ghost var content := Content(s, token, buffer.Length);
    ContentAt(s, token, buffer.Length, 1);
    AllUncopied(content, quote);
    while from < token.len - 1
      invariant 1 <= from && to < from && to <= buffer.Length
      invariant Undoubled(content, quote) == buffer[..to] + Uncopied(content, from - 1, quote)
      decreases token.len - from
    {
      if from >= buffer.Length {
        break;
      }
      ContentAt(s, token, buffer.Length, from);
      CopyStep(content, from - 1, quote);
      var c := s[token.ptr + from];
      ghost var before := buffer[..to];
      buffer[to] := c;
      to := to + 1;
      assert buffer[..to] == before + [c];
      if c == quote {
        from := from + 1;
      }
      from := from + 1;
    }
    NoneUncopied(content, from - 1, quote);
    if to < buffer.Length {
      buffer[to] := '\0';
    }
  }

  lemma AllUncopied(t: seq<char>, quote: char)
    ensures Uncopied(t, 0, quote) == Undoubled(t, quote)
  {
    assert t[0..] == t;
  }

  lemma NoneUncopied(t: seq<char>, k: nat, quote: char)
    requires |t| <= k
    ensures Uncopied(t, k, quote) == []
  {
  }
}
