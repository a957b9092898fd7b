/** The token recognisers over a shared position, one method for each. */
module Lexer {
  import opened LexSpec

  class LexState {
    const text: seq<char>
    var pos: nat

    predicate Valid()
      reads this
    {
      pos <= |text|
    }

    constructor (buffer: seq<char>, start: nat)
      requires start <= |buffer|
      ensures text == buffer && pos == start && Valid()
    {
      text := buffer;
      pos := start;
    }

    predicate IsEos()
      reads this
    {
      |text| <= pos
    }

    predicate IsChr(c: char)
      requires Valid() && !IsEos()
      reads this
    {
      text[pos] == c
    }

    /** Skip a run of characters of one class; the number skipped. */
    method Skip(k: CharClass) returns (n: nat)
      requires Valid()
      modifies this
      ensures Valid() && pos == SkipWhile(text, old(pos), k) && n == pos - old(pos)
    {
      n := 0;
      while !IsEos() && In(k, text[pos])
        invariant Valid() && n == pos - old(pos) && old(pos) <= pos
        invariant SkipWhile(text, pos, k) == SkipWhile(text, old(pos), k)
        decreases |text| - pos
      {
        pos := pos + 1;
        n := n + 1;
      }
    }

    method SkipOne(c: char) returns (ok: bool)
      requires Valid()
      modifies this
      ensures Valid() && pos == SkipChr(text, old(pos), c) && (ok <==> pos > old(pos))
    {
      if !IsEos() && IsChr(c) {
        pos := pos + 1;
        return true;
      }
      return false;
    }

    method SkipSign() returns (ok: bool)
      requires Valid()
      modifies this
      ensures Valid() && pos == SkipPlusMinus(text, old(pos)) && (ok <==> pos > old(pos))
    {
      if !IsEos() && IsPlusMinus(text[pos]) {
        pos := pos + 1;
        return true;
      }
      return false;
    }

    method SkipDigit() returns (ok: bool)
      requires Valid()
      modifies this
      ensures Valid() && pos == OneDigit(text, old(pos)) && (ok <==> pos > old(pos))
    {
      if !IsEos() && IsDigit(text[pos]) {
        pos := pos + 1;
        return true;
      }
      return false;
    }

    /** The length of the mnemonic, negative when the text ends with it. */
    method SkipProgramMnemonic() returns (res: int)
      requires Valid()
      modifies this
      ensures Valid() && pos == MnemonicEnd(text, old(pos))
      ensures res == if pos == |text| then old(pos) - pos else pos - old(pos)
    {
      var start := pos;
      if !IsEos() && IsAlpha(text[pos]) {
        pos := pos + 1;
        var _ := Skip(Word);
      }
      res := if IsEos() then start - pos else pos - start;
    }

    method WhiteSpace() returns (token: Token, n: nat)
      requires Valid()
      modifies this
      ensures Valid() && pos == SkipWhile(text, old(pos), Ws) && n == pos - old(pos)
      ensures token == Token(if n > 0 then TokWs else TokUnknown, old(pos), n)
    {
      var start := pos;
      n := Skip(Ws);
      token := Token(if n > 0 then TokWs else TokUnknown, start, n);
    }

    method SkipCommonProgramHeader() returns (status: Skip)
      requires Valid()
      modifies this
      ensures Valid() && (status, pos) == Common(text, old(pos))
    {
      var star := SkipOne('*');
      if star {
        var res := SkipProgramMnemonic();
        if res == 0 && IsEos() {
          return SkipIncomplete;
        } else if res <= -1 {
          return SkipOk;
        } else if res >= 1 {
          return SkipOk;
        } else {
          return SkipIncomplete;
        }
      }
      return SkipNone;
    }

    method SkipCompoundProgramHeader() returns (status: Skip)
      requires Valid()
      modifies this
      ensures Valid() && (status, pos) == Compound(text, old(pos))
    {
      var firstColon := SkipOne(':');
      var res := SkipProgramMnemonic();
      if res >= 1 {
        ghost var first := pos;
        while true
          invariant Valid() && pos < |text|
          invariant CompoundTail(text, pos) == CompoundTail(text, first)
          decreases |text| - pos
        {
          var colon := SkipOne(':');
          if !colon {
            return SkipOk;
          }
          res := SkipProgramMnemonic();
          if res <= -1 {
            return SkipOk;
          } else if res == 0 {
            return SkipIncomplete;
          }
        }
      } else if res <= -1 {
        return SkipOk;
      } else if firstColon {
        return SkipIncomplete;
      } else {
        return SkipNone;
      }
    }

    method ProgramHeader() returns (token: Token)
      requires Valid()
      modifies this
      ensures Valid() && token == HeaderAt(text, old(pos)) && pos == old(pos) + token.len
    {
      var start := pos;
      var kind := TokUnknown;
      var res := SkipCommonProgramHeader();
      if res.SkipOk? {
        var query := SkipOne('?');
        kind := if query then TokCommonQuery else TokCommon;
      } else if res.SkipIncomplete? {
        kind := TokIncompleteCommon;
      } else {
        res := SkipCompoundProgramHeader();
        if res.SkipOk? {
          var query := SkipOne('?');
          kind := if query then TokCompoundQuery else TokCompound;
        } else if res.SkipIncomplete? {
          kind := TokIncompleteCompound;
        }
      }
      if kind.TokUnknown? {
        pos := start;
      }
      token := Token(kind, start, pos - start);
    }

    method CharacterProgramData() returns (token: Token)
      requires Valid()
      modifies this
      ensures Valid() && pos == MnemonicEnd(text, old(pos))
      ensures token == Token(if pos > old(pos) then TokMnemonic else TokUnknown, old(pos), pos - old(pos))
    {
      var start := pos;
      if !IsEos() && IsAlpha(text[pos]) {
        pos := pos + 1;
        var _ := Skip(Word);
      }
      token := Token(if pos > start then TokMnemonic else TokUnknown, start, pos - start);
    }

    method SkipMantissa() returns (digits: nat)
      requires Valid()
      modifies this
      ensures Valid() && (digits, pos) == Mantissa(text, old(pos))
    {
      var _ := SkipSign();
      digits := Skip(Digit);
      var dot := SkipOne('.');
      if dot {
        var more := Skip(Digit);
        digits := digits + more;
      }
    }

    method SkipExponent() returns (digits: nat)
      requires Valid()
      modifies this
      ensures Valid() && (digits, pos) == Exponent(text, old(pos))
    {
      digits := 0;
      if !IsEos() && (text[pos] == 'e' || text[pos] == 'E') {
        pos := pos + 1;
        var _ := Skip(Ws);
        var _ := SkipSign();
        digits := Skip(Digit);
      }
    }

    method DecimalNumericProgramData() returns (token: Token)
      requires Valid()
      modifies this
      ensures Valid() && pos == DecimalEnd(text, old(pos))
      ensures token == Token(if pos > old(pos) then TokDecimal else TokUnknown, old(pos), pos - old(pos))
    {
      var start := pos;
      var digits := SkipMantissa();
      if digits > 0 {
        var rollback := pos;
        var _ := Skip(Ws);
        var exponent := SkipExponent();
        if exponent == 0 {
          pos := rollback;
        }
      } else {
        pos := start;
      }
      token := Token(if pos > start then TokDecimal else TokUnknown, start, pos - start);
    }

    /** An optional minus and an optional digit after the letters of a unit. */
    method SkipPower()
      requires Valid()
      modifies this
      ensures Valid() && pos == OneDigit(text, SkipChr(text, old(pos), '-'))
    {
      var _ := SkipOne('-');
      var _ := SkipDigit();
    }

    /** `/UNIT` or `.UNIT` over and over. */
    method SkipMoreUnits()
      requires Valid()
      modifies this
      ensures Valid() && pos == SuffixTail(text, old(pos))
    {
      while !IsEos() && (text[pos] == '/' || text[pos] == '.')
        invariant Valid() && SuffixTail(text, pos) == SuffixTail(text, old(pos))
        decreases |text| - pos
      {
        pos := pos + 1;
        var _ := Skip(Alpha);
        SkipPower();
      }
    }

    method SuffixProgramData() returns (token: Token)
      requires Valid()
      modifies this
      ensures Valid() && pos == SuffixEnd(text, old(pos))
      ensures token == Token(if pos > old(pos) then TokSuffix else TokUnknown, old(pos), pos - old(pos))
    {
      var start := pos;
      var _ := SkipOne('/');
      var letters := Skip(Alpha);
      if letters > 0 {
        SkipPower();
        SkipMoreUnits();
      }
      token := Token(if pos > start then TokSuffix else TokUnknown, start, pos - start);
    }

    method NondecimalNumericData() returns (token: Token, n: nat)
      requires Valid()
      modifies this
      ensures Valid() && pos == NondecimalEnd(text, old(pos)) && n == pos - old(pos)
      ensures token == if n > 0 then Token(BaseOf(text[old(pos) + 1]).0, old(pos) + 2, n - 2)
                       else Token(TokUnknown, old(pos), 0)
    {
      var start, digits, kind := pos, 0, TokUnknown;
      var hash := SkipOne('#');
      if hash && !IsEos() {
        if text[pos] == 'h' || text[pos] == 'H' {
          pos := pos + 1;
          digits := Skip(HexDigit);
          kind := TokHex;
        } else if text[pos] == 'q' || text[pos] == 'Q' {
          pos := pos + 1;
          digits := Skip(OctDigit);
          kind := TokOct;
        } else if text[pos] == 'b' || text[pos] == 'B' {
          pos := pos + 1;
          digits := Skip(BinDigit);
          kind := TokBin;
        }
      }
      if digits > 0 {
        token := Token(kind, start + 2, pos - (start + 2));
      } else {
        pos := start;
        token := Token(TokUnknown, start, 0);
      }
      n := if token.len > 0 then token.len + 2 else 0;
    }

    method SkipQuoteProgramData(quote: char)
      requires Valid() && IsQuote(quote)
      modifies this
      ensures Valid() && pos == QuoteStop(text, old(pos), quote)
    {
      while !IsEos()
        invariant Valid()
        invariant QuoteStop(text, pos, quote) == QuoteStop(text, old(pos), quote)
        decreases |text| - pos
      {
        if IsAscii7(text[pos]) && !IsChr(quote) {
          pos := pos + 1;
        } else if IsChr(quote) {
          pos := pos + 1;
          if !IsEos() && IsChr(quote) {
            pos := pos + 1;
          } else {
            pos := pos - 1;
            break;
          }
        } else {
          break;
        }
      }
    }

    method StringProgramData() returns (token: Token)
      requires Valid()
      modifies this
      ensures Valid() && pos == StringEnd(text, old(pos))
      ensures token == if pos > old(pos)
                       then Token(if text[old(pos)] == '"' then TokDoubleQuote else TokSingleQuote, old(pos), pos - old(pos))
                       else Token(TokUnknown, old(pos), 0)
    {
      var start, kind := pos, TokUnknown;
      if !IsEos() && IsQuote(text[pos]) {
        var quote := text[pos];
        kind := if quote == '"' then TokDoubleQuote else TokSingleQuote;
        pos := pos + 1;
        SkipQuoteProgramData(quote);
        if !IsEos() && IsChr(quote) {
          pos := pos + 1;
        } else {
          pos := start;
        }
      }
      token := if pos > start then Token(kind, start, pos - start) else Token(TokUnknown, start, 0);
    }

    /** The count returned is the data length and the length of its header. */
    method ArbitraryBlockProgramData() returns (token: Token, n: nat)
      requires Valid()
      modifies this
      ensures Valid()
      ensures match BlockAt(text, old(pos))
              case BlockData(start, len) =>
                token == Token(TokBlock, start, len) && pos == start + len && n == pos - old(pos)
              case BlockIncomplete =>
                token.kind.TokUnknown? && token.len == 0 && pos == |text| && n == 0
              case BlockInvalid =>
                token == Token(TokUnknown, old(pos), 0) && pos == old(pos) && n == 0
    {
      var start := pos;
      token := Token(TokUnknown, start, 0);
      n := 0;
      var hash := SkipOne('#');
      if !hash {
        return;
      }
      if !IsEos() && IsDigit(text[pos]) && text[pos] != '0' {
        var i: nat, length: nat := text[pos] as nat - '0' as nat, 0;
        pos := pos + 1;
        while i > 0 && !IsEos() && IsDigit(text[pos])
          invariant Valid() && start + 2 <= pos
          invariant LengthDigits(text, pos, i, length)
                    == LengthDigits(text, start + 2, text[start + 1] as nat - '0' as nat, 0)
          decreases i
        {
          length := 10 * length + (text[pos] as nat - '0' as nat);
          pos := pos + 1;
          i := i - 1;
        }
        LengthMoves(text, start + 2, text[start + 1] as nat - '0' as nat, 0);
        if i == 0 {
          if |text| >= pos + length {
            pos := pos + length;
            token := Token(TokBlock, pos - length, length);
            n := length + (token.ptr - start);
          } else {
            pos := |text|;
          }
        } else if IsEos() {
          pos := |text|;
        } else {
          pos := start;
        }
      } else if IsEos() {
        pos := |text|;
      } else {
        pos := start;
      }
    }

    method ProgramExpression() returns (token: Token)
      requires Valid()
      modifies this
      ensures Valid() && pos == ExpressionEnd(text, old(pos))
      ensures token == Token(if pos > old(pos) then TokExpression else TokUnknown, old(pos), pos - old(pos))
    {
      var start := pos;
      if !IsEos() && IsChr('(') {
        pos := pos + 1;
        var _ := Skip(ExpressionChar);
        if !IsEos() && IsChr(')') {
          pos := pos + 1;
        } else {
          pos := start;
        }
      }
      token := Token(if pos > start then TokExpression else TokUnknown, start, pos - start);
    }

    /** Comma, semicolon, colon, or any other single character. */
    method SpecificCharacter(c: char, kind: TokenKind) returns (token: Token)
      requires Valid()
      modifies this
      ensures Valid() && pos == SkipChr(text, old(pos), c)
      ensures token == Token(if pos > old(pos) then kind else TokUnknown, old(pos), pos - old(pos))
    {
      var start := pos;
      var ok := SkipOne(c);
      token := if ok then Token(kind, start, 1) else Token(TokUnknown, start, 0);
    }

    method NewLine() returns (token: Token)
      requires Valid()
      modifies this
      ensures Valid() && pos == EolEnd(text, old(pos))
      ensures token == Token(if pos > old(pos) then TokNl else TokUnknown, old(pos), pos - old(pos))
    {
      var start := pos;
      var _ := SkipOne('\r');
      var _ := SkipOne('\n');
      token := Token(if pos > start then TokNl else TokUnknown, start, pos - start);
    }
  }
}
