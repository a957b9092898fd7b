/** Channel lists such as `(@1!2,3!4:5!6)`; SCPI-99, section 8.3.2. */
module ChannelList {
  import opened Arithmetic
  import opened LexSpec
  import opened Lexer
  import opened Printer
  import P = Parameters

  /** What a 32-bit variable holds after the decimal number at `i` was converted. */
  function Int32At(long: Width, s: seq<char>, i: nat): int
    requires i <= |s|
  {
    P.Converted(long, P.IntType(W32, true), true, P.StrTo(10, s, i).1)
  }

  /** The coordinates of a channel from `i` on; `first` when none was read yet. */
  datatype Spec = SpecOk(values: seq<int>, next: nat) | SpecNoMore | SpecError

  function SpecAt(long: Width, s: seq<char>, i: nat, first: bool): (r: Spec)
    requires i <= |s|
    ensures r.SpecOk? ==> r.values != [] && i < r.next <= |s|
    decreases |s| - i
  {
    var e := DecimalEnd(s, i);
    if e == i then (if first then SpecNoMore else SpecError)
    else
      var v := Int32At(long, s, i);
      if e < |s| && s[e] == '!' then
        var rest := SpecAt(long, s, e + 1, false);
        if rest.SpecOk? then SpecOk([v] + rest.values, rest.next) else SpecError
      else SpecOk([v], e)
  }

  datatype Entry = Entry(isRange: bool, from: seq<int>, to: seq<int>)

  datatype Range = RangeOk(entry: Entry, next: nat) | RangeError

  /** A channel, or two of the same dimension with a colon between. */
  function RangeAt(long: Width, s: seq<char>, i: nat): (r: Range)
    requires i <= |s|
    ensures r.RangeOk? ==> i < r.next <= |s|
  {
    var from := SpecAt(long, s, i, true);
    if !from.SpecOk? then RangeError
    else if from.next < |s| && s[from.next] == ':' then
      var to := SpecAt(long, s, from.next + 1, true);
      if to.SpecOk? && |to.values| == |from.values| then RangeOk(Entry(true, from.values, to.values), to.next)
      else RangeError
    else RangeOk(Entry(false, from.values, []), from.next)
  }

  datatype Outcome = Ok(entry: Entry) | NoMore | Error

  /** The entry with the given index, found by scanning from the start. */
  function EntryAt(long: Width, s: seq<char>, i: nat, index: nat): Outcome
    requires i <= |s|
    decreases index
  {
    var r := RangeAt(long, s, i);
    if !r.RangeOk? then Error
    else if index == 0 then Ok(r.entry)
    else if r.next < |s| && s[r.next] == ',' then EntryAt(long, s, r.next + 1, index - 1)
    else if r.next == |s| then NoMore
    else Error
  }

  /** One pass over the list: its entries, and how it ends. */
  function Pass(long: Width, s: seq<char>, i: nat): (r: (seq<Entry>, Outcome))
    requires i <= |s|
    ensures !r.1.Ok?
    decreases |s| - i
  {
    var r := RangeAt(long, s, i);
    if !r.RangeOk? then ([], Error)
    else if r.next < |s| && s[r.next] == ',' then
      var rest := Pass(long, s, r.next + 1);
      ([r.entry] + rest.0, rest.1)
    else ([r.entry], if r.next == |s| then NoMore else Error)
  }

  /** Scanning again for every index gives the entries of one pass, then always its outcome; on any text. */
  lemma {:induction false} RescanIsPass(long: Width, s: seq<char>, i: nat, index: nat)
    requires i <= |s|
    ensures var (entries, end) := Pass(long, s, i);
            EntryAt(long, s, i, index) == if index < |entries| then Ok(entries[index]) else end
    decreases index
  {
    hide RangeAt;
    var r := RangeAt(long, s, i);
    if index > 0 && r.RangeOk? && r.next < |s| && s[r.next] == ',' {
      RescanIsPass(long, s, r.next + 1, index - 1);
    }
  }

  /** The first `length` values have been stored. */
  ghost predicate Stored(values: seq<int>, length: nat, all: seq<int>) {
    Min(length, |all|) <= |values| && values[..Min(length, |all|)] == all[..Min(length, |all|)]
  }

  datatype ExprResult = ExprOk | ExprNoMore | ExprError

  /** The coordinates `read`, then what `rest` finds. */
  function After(read: seq<int>, rest: Spec): Spec {
    if rest.SpecOk? then SpecOk(read + rest.values, rest.next) else rest
  }

  lemma AfterNone(rest: Spec)
    ensures After([], rest) == rest
  {
    if rest.SpecOk? {
      assert [] + rest.values == rest.values;
    }
  }

  lemma SpecOnce(long: Width, s: seq<char>, i: nat, read: seq<int>)
    requires i <= |s|
    ensures var e := DecimalEnd(s, i);
            After(read, SpecAt(long, s, i, read == [])) ==
              if e == i then (if read == [] then SpecNoMore else SpecError)
              else
                var now := read + [Int32At(long, s, i)];
                if e < |s| && s[e] == '!' then After(now, SpecAt(long, s, e + 1, false)) else SpecOk(now, e)
  {
    hide DecimalEnd, Int32At;
    var e := DecimalEnd(s, i);
    if e < |s| && s[e] == '!' {
      var v, rest := Int32At(long, s, i), SpecAt(long, s, e + 1, false);
      if rest.SpecOk? {
        assert read + ([v] + rest.values) == (read + [v]) + rest.values;
      }
    }
  }

  lemma NoneStored(values: seq<int>, length: nat)
    ensures Stored(values, length, [])
  {
  }

  method Store(values: array<int>, length: nat, i: nat, v: int, ghost read: seq<int>)
    requires length <= values.Length && i == |read| && Stored(values[..], length, read)
    modifies values
    ensures Stored(values[..], length, read + [v])
  {
    if i < length {
      ghost var before := values[..];
      values[i] := v;
      assert values[..i] == before[..i];
      assert values[..i + 1] == values[..i] + [v];
    }
  }

  method ChannelSpec(long: Width, lex: LexState, values: array<int>, length: nat) returns (res: ExprResult, dimensions: nat)
    requires lex.Valid() && length <= values.Length
    modifies lex, values
    ensures lex.Valid()
    ensures match SpecAt(long, lex.text, old(lex.pos), true)
            case SpecOk(all, next) =>
              res == ExprOk && dimensions == |all| && lex.pos == next && Stored(values[..], length, all)
            case SpecNoMore => res == ExprNoMore
            case SpecError => res == ExprError
  {
    hide DecimalEnd, Int32At, Stored, SpecAt, After;
    NoneStored(values[..], length);
    AfterNone(SpecAt(long, lex.text, lex.pos, true));
    dimensions := 0;
    var i := 0;
    ghost var read: seq<int> := [];
    while true
      invariant lex.Valid() && i == |read| && Stored(values[..], length, read)
      invariant SpecAt(long, lex.text, old(lex.pos), true) == After(read, SpecAt(long, lex.text, lex.pos, read == []))
      decreases |lex.text| - lex.pos
    {
      SpecOnce(long, lex.text, lex.pos, read);
      var token := lex.DecimalNumericProgramData();
      if token.len == 0 {
        break;
      }
      var v := Int32At(long, lex.text, token.ptr);
      Store(values, length, i, v, read);
      read := read + [v];
      var bang := lex.SpecificCharacter('!', TokSpecific);
      if bang.len > 0 {
        i := i + 1;
      } else {
        return ExprOk, i + 1;
      }
    }
    res := if i == 0 then ExprNoMore else ExprError;
  }

  method ChannelRange(long: Width, lex: LexState, from: array<int>, to: array<int>, length: nat)
    returns (res: ExprResult, isRange: bool, dimensions: nat)
    requires lex.Valid() && length <= from.Length && length <= to.Length && from != to
    modifies lex, from, to
    ensures lex.Valid()
    ensures match RangeAt(long, lex.text, old(lex.pos))
            case RangeError => res == ExprError
            case RangeOk(entry, next) =>
              && res == ExprOk && lex.pos == next
              && isRange == entry.isRange && dimensions == |entry.from|
              && Stored(from[..], length, entry.from) && Stored(to[..], length, entry.to)
  {
    hide SpecAt, Stored;
    isRange, dimensions := false, 0;
    res, dimensions := ChannelSpec(long, lex, from, length);
    if res == ExprOk {
      var colon := lex.SpecificCharacter(':', TokColon);
      if colon.len > 0 {
        isRange := true;
        var other;
        res, other := ChannelSpec(long, lex, to, length);
        if res != ExprOk || dimensions != other {
          return ExprError, isRange, dimensions;
        }
      } else {
        NoneStored(to[..], length);
      }
    } else if res == ExprNoMore {
      res := ExprError;
    }
  }

  datatype EntryResult = Done(res: ExprResult) | DataTypeError

  lemma EntryOnce(long: Width, s: seq<char>, i: nat, index: nat)
    requires i <= |s|
    ensures var r := RangeAt(long, s, i);
            EntryAt(long, s, i, index) ==
              if !r.RangeOk? then Error
              else if index == 0 then Ok(r.entry)
              else if r.next < |s| && s[r.next] == ',' then EntryAt(long, s, r.next + 1, index - 1)
              else if r.next == |s| then NoMore
              else Error
  {
    hide RangeAt;
  }

  /** What the caller finds for the entry: flag, dimensions, and as many values as there is room for. */
  ghost predicate Returned(outcome: Outcome, r: EntryResult, isRange: bool, dimensions: nat,
                           from: seq<int>, to: seq<int>, length: nat) {
    match outcome
    case Error => r == Done(ExprError)
    case NoMore => r == Done(ExprNoMore)
    case Ok(entry) =>
      && r == Done(ExprOk) && isRange == entry.isRange && dimensions == |entry.from|
      && Stored(from, length, entry.from) && Stored(to, length, entry.to)
  }

  /** The outcome for the text between the parentheses. */
  function ListOutcome(long: Width, s: seq<char>, index: nat): Outcome {
    if s == [] || s[0] != '@' then Error else EntryAt(long, s, 1, index)
  }

  /**
   The entry with the given index of the expression `param`, scanned from its start.
   A negative index makes no scan: any list is then accepted, and nothing is stored.
   */
  method ChannelListEntry(long: Width, text: seq<char>, param: Token, index: int,
                          from: array<int>, to: array<int>, length: nat)
    returns (r: EntryResult, isRange: bool, dimensions: nat)
    requires param.kind == TokExpression ==> 2 <= param.len && param.ptr + param.len <= |text|
    requires length <= from.Length && length <= to.Length && from != to
    modifies from, to
    ensures param.kind != TokExpression ==> r == DataTypeError
    ensures param.kind == TokExpression ==>
              var s := text[param.ptr + 1..param.ptr + param.len - 1];
              if index < 0 then r == Done(if s != [] && s[0] == '@' then ExprOk else ExprError)
              else Returned(ListOutcome(long, s, index), r, isRange, dimensions, from[..], to[..], length)
    ensures param.kind != TokExpression || index < 0 ==> from[..] == old(from[..]) && to[..] == old(to[..])
  {
    hide RangeAt, Stored, EntryAt;
    isRange, dimensions := false, 0;
    if param.kind != TokExpression {
      return DataTypeError, false, 0;
    }
    var s := text[param.ptr + 1..param.ptr + param.len - 1];
    var lex := new LexState(s, 0);
    var at := lex.SpecificCharacter('@', TokSpecific);
    if at.len == 0 {
      return Done(ExprError), false, 0;
    }
    var res := ExprOk;
    var i := 0;
    while i <= index
      invariant i == 0 || i <= index
      invariant lex.Valid() && lex.text == s && fresh(lex)
      invariant i == 0 ==> res == ExprOk && from[..] == old(from[..]) && to[..] == old(to[..])
      invariant i <= index ==> EntryAt(long, s, lex.pos, index - i) == ListOutcome(long, s, index)
      decreases index - i
    {
      EntryOnce(long, s, lex.pos, index - i);
      res, isRange, dimensions := ChannelRange(long, lex, from, to, if i == index then length else 0);
      if res != ExprOk || i == index {
        break;
      }
      var comma := lex.SpecificCharacter(',', TokComma);
      if comma.len == 0 {
        res := if lex.IsEos() then ExprNoMore else ExprError;
        break;
      }
      i := i + 1;
    }
    if res == ExprNoMore && !lex.IsEos() {
      res := ExprError;
    }
    r := Done(res);
  }
}
