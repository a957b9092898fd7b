/** Program message units: header, parameters, terminator. */
module MessageUnit {
  import opened LexSpec
  import opened Lexer

  method ParseDecimal(lex: LexState) returns (token: Token, result: nat)
    requires lex.Valid()
    modifies lex
    ensures lex.Valid() && DecimalDatum(lex.text, old(lex.pos)) == Datum(token, result, lex.pos)
  {
    hide DecimalEnd, SkipWhile, SuffixEnd;
    token := lex.DecimalNumericProgramData();
    result := token.len;
    if result != 0 {
      var _, wsLen := lex.WhiteSpace();
      var suffix := lex.SuffixProgramData();
      if suffix.len > 0 {
        token := Token(TokDecimalSuffix, token.ptr, token.len + wsLen + suffix.len);
        result := token.len;
      }
    }
  }

  /** The recognisers in turn, on a position without leading white space. */
  method ParseBareData(lex: LexState) returns (token: Token, result: nat)
    requires lex.Valid()
    modifies lex
    ensures lex.Valid() && BareDatum(lex.text, old(lex.pos)) == Datum(token, result, lex.pos)
  {
    hide NondecimalEnd, MnemonicEnd, DecimalEnd, SuffixEnd, StringEnd, BlockAt, ExpressionEnd, SkipWhile;
    token, result := lex.NondecimalNumericData();
    if result == 0 {
      token := lex.CharacterProgramData();
      result := token.len;
    }
    if result == 0 {
      token, result := ParseDecimal(lex);
    }
    if result == 0 {
      token := lex.StringProgramData();
      result := token.len;
    }
    if result == 0 {
      token, result := lex.ArbitraryBlockProgramData();
    }
    if result == 0 {
      token := lex.ProgramExpression();
      result := token.len;
    }
  }

  /** One parameter and the white space around it. */
  method ParseProgramData(lex: LexState) returns (token: Token, count: nat)
    requires lex.Valid()
    modifies lex
    ensures lex.Valid()
    ensures var d := DatumAt(lex.text, old(lex.pos)); d == Datum(token, count, lex.pos)
  {
    var _, before := lex.WhiteSpace();
    var result;
    token, result := ParseBareData(lex);
    var _, after := lex.WhiteSpace();
    count := result + before + after;
  }

  /** The list `l` with `params` parameters of reported length `count` before it. */
  function After(count: nat, params: nat, l: DataList): DataList {
    if l.ok then DataList(true, count + l.count, params + l.params, l.next) else l
  }

  /** All parameters, to find the end of the unit. */
  method ParseAllProgramData(lex: LexState) returns (token: Token, params: int)
    requires lex.Valid()
    modifies lex
    ensures lex.Valid()
    ensures var l := DataAt(lex.text, old(lex.pos));
            && lex.pos == l.next
            && token == Token(if l.ok then TokAllData else TokUnknown, old(lex.pos), if l.ok then l.count else 0)
            && params == if l.ok then l.params else -1
  {
    hide DatumAt;
    var start := lex.pos;
    var len: nat := 0;
    params := 0;
    while true
      invariant lex.Valid() && params >= 0
      invariant DataAt(lex.text, start) == After(len, params, DataAt(lex.text, lex.pos))
      decreases |lex.text| - lex.pos
    {
      var tmp, count := ParseProgramData(lex);
      if tmp.kind.TokUnknown? {
        return Token(TokUnknown, start, 0), -1;
      }
      len := len + count;
      params := params + 1;
      var comma := lex.SpecificCharacter(',', TokComma);
      if comma.len == 0 {
        break;
      }
      len := len + comma.len;
    }
    token := Token(TokAllData, start, len);
  }

  /** The unit up to its terminator. */
  method ParseBody(lex: LexState) returns (header: Token, data: Token, params: int)
    requires lex.Valid()
    modifies lex
    ensures lex.Valid() && BodyAt(lex.text, old(lex.pos)) == Body(header, data, params, lex.pos)
  {
    hide HeaderAt, DataAt, SkipWhile;
    var _, _ := lex.WhiteSpace();
    header := lex.ProgramHeader();
    var _, ws := lex.WhiteSpace();
    data, params := Token(TokUnknown, lex.pos, 0), 0;
    if ws > 0 {
      data, params := ParseAllProgramData(lex);
    }
  }

  /** Recognise one message unit; what is left behind is the whole result. */
  method DetectProgramMessageUnit(buffer: seq<char>, start: nat) returns (unit: Unit)
    requires start <= |buffer|
    ensures unit == UnitAt(buffer, start)
  {
    hide BodyAt, EolEnd;
    var lex := new LexState(buffer, start);
    var header, data, params := ParseBody(lex);
    var tmp := lex.NewLine();
    if tmp.len == 0 {
      tmp := lex.SpecificCharacter(';', TokSemicolon);
    }
    if !lex.IsEos() && tmp.len == 0 {
      lex.pos := lex.pos + 1;
      header := Token(TokInvalid, header.ptr, 1);
      data := Token(TokUnknown, start, 0);
    }
    var term := if tmp.kind.TokSemicolon? then TermSemicolon
                else if tmp.kind.TokNl? then TermNl
                else TermNone;
    unit := Unit(header, data, params, term, lex.pos);
  }
}
