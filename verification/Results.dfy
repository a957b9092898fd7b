/** Writing results. */
module Results {
  import opened Numerals
  import opened Printer

  /** A value that a command can return. */
  datatype Item =
    | Signed(w: Width, v: int)
    | Unsigned(w: Width, u: nat, base: int)
    | Text(text: string)
    | Block(data: seq<char>)

  /** The bound under which a block length and its terminator fit the header's ten bytes. */
  const BLOCK_LIMIT := 1000000000

  /** The block length that the header shows: its low 32 bits. */
  function Shown(n: nat): nat { n % Modulus(W32) }

  /** Machine words in range, texts without a terminator inside, blocks whose shown length leaves room for one. */
  predicate Writable(x: Item) {
    match x
    case Signed(w, v) => 0 <= 2 * v + Modulus(w) && 2 * v < Modulus(w)
    case Unsigned(w, u, _) => u < Modulus(w)
    case Text(t) => forall k | 0 <= k < |t| :: t[k] != '\0'
    case Block(data) => Shown(|data|) < BLOCK_LIMIT
  }

  function Prefix(base: int): string {
    if base == 2 then "#B" else if base == 8 then "#Q" else if base == 16 then "#H" else ""
  }

  /** The text with every quote doubled. */
  function Doubled(t: string): string {
    if t == [] then [] else (if t[0] == '"' then "\"\"" else [t[0]]) + Doubled(t[1..])
  }

  /** The form of IEEE 488.2, section 7.7.6: a digit that counts the digits of the length. */
  function BlockHeader(n: nat): string
    requires n < BLOCK_LIMIT
  {
    ShortLengths(n);
    "#" + [DigitChar(|Numeral(10, n)|)] + Numeral(10, n)
  }

  lemma NumeralLength(b: Base, v: nat, m: nat)
    requires v < Pow(b, m) && m > 0
    ensures |Numeral(b, v)| <= m
  {
    LengthBounds(b, v);
    if m < |Numeral(b, v)| {
      PowMonotone(b, m, |Numeral(b, v)| - 1);
    }
    if v == 0 {
      assert |Numeral(b, v)| == 1;
    }
  }

  lemma ShortLengths(n: nat)
    requires n < BLOCK_LIMIT
    ensures 0 < |Numeral(10, n)| <= 9
  {
    assert Pow(10, 9) == BLOCK_LIMIT;
    NumeralLength(10, n, 9);
  }

  /** A length leaves room for its terminator in ten bytes exactly below the limit. */
  lemma LimitIsExact(n: nat)
    ensures |Numeral(10, n)| <= 9 <==> n < BLOCK_LIMIT
    ensures BLOCK_LIMIT <= n < Modulus(W32) ==> |Numeral(10, n)| == 10
  {
    assert Pow(10, 9) == BLOCK_LIMIT && Pow(10, 10) == 10 * BLOCK_LIMIT;
    if n < BLOCK_LIMIT {
      ShortLengths(n);
    } else {
      LengthBounds(10, n);
      if |Numeral(10, n)| <= 9 {
        PowMonotone(10, |Numeral(10, n)|, 9);
      } else if n < Modulus(W32) {
        NumeralLength(10, n, 10);
      }
    }
  }

  function Encode(x: Item): string
    requires Writable(x)
  {
    match x
    case Signed(w, v) => if v < 0 then "-" + Numeral(10, -v) else Numeral(10, v)
    case Unsigned(_, u, base) => Prefix(base) + Numeral(BaseOf(base), u)
    case Text(t) => "\"" + Doubled(t) + "\""
    case Block(data) => BlockHeader(Shown(|data|)) + data
  }

  predicate AllValid(xs: seq<Item>) {
    forall k | 0 <= k < |xs| :: Writable(xs[k])
  }

  /** The results of a command, separated by commas; `first` when nothing is written yet. */
  function EncodeAll(xs: seq<Item>, first: bool): string
    requires AllValid(xs)
  {
    if xs == [] then [] else (if first then "" else ",") + Encode(xs[0]) + EncodeAll(xs[1..], false)
  }

  lemma {:induction false} EncodeSnoc(xs: seq<Item>, x: Item, first: bool)
    requires AllValid(xs) && Writable(x)
    ensures EncodeAll(xs + [x], first)
            == EncodeAll(xs, first) + (if first && xs == [] then "" else ",") + Encode(x)
  {
    hide Encode, Writable;
    if xs == [] {
      assert xs + [x] == [x] && [x][1..] == [];
    } else {
      EncodeSnoc(xs[1..], x, false);
      assert (xs + [x])[1..] == xs[1..] + [x];
    }
  }

  /** Every word fits the printing buffer. */
  lemma TextFits(w: Width, val: nat, base: int, sign: bool)
    requires val < Modulus(w)
    ensures 0 < |Written(w, val, base, sign)| <= if w.W32? then 32 else 64
  {
    hide Numeral, Pow, Top;
    var b := BaseOf(base);
    var v := Magnitude(w, val, base, sign);
    TopIsPower(w, b);
    PowUp(b, TopExponent(w, b));
    NumeralLength(b, v, TopExponent(w, b) + 1);
    NumeralReadsBack(b, v);
  }

  lemma SignedCode(w: Width, v: int)
    requires 0 <= 2 * v + Modulus(w) && 2 * v < Modulus(w)
    ensures WordOf(w, v) < Modulus(w)
    ensures Encode(Signed(w, v)) == Prefix(10) + Written(w, WordOf(w, v), 10, true)
  {
    hide Numeral, Written;
    SignedText(w, v);
    assert Prefix(10) + Encode(Signed(w, v)) == Encode(Signed(w, v));
  }

  lemma UnsignedCode(w: Width, u: nat, base: int)
    requires u < Modulus(w)
    ensures Encode(Unsigned(w, u, base)) == Prefix(base) + Written(w, u, base, false)
  {
    hide Numeral, Written;
    UnsignedText(w, u, base);
  }

  /** The next quote at or behind `i`; the end of the text without one. */
  function NextQuote(t: string, i: nat): (q: nat)
    requires i <= |t|
    ensures i <= q <= |t|
    ensures q < |t| ==> t[q] == '"'
    ensures forall k | i <= k < q :: t[k] != '"'
    decreases |t| - i
  {
    if i == |t| || t[i] == '"' then i else NextQuote(t, i + 1)
  }

  lemma DoubledFront(t: string, i: nat)
    requires i < |t|
    ensures Doubled(t[i..]) == (if t[i] == '"' then "\"" + "\"" else [t[i]]) + Doubled(t[i + 1..])
  {
    assert t[i..][1..] == t[i + 1..];
  }

  lemma Joined(a: string, b: string, c: string)
    ensures (a + b) + c == a + (b + c)
  {
  }

  lemma {:induction false} DoubledPlain(t: string, i: nat, q: nat)
    requires i <= q <= |t| && forall k | i <= k < q :: t[k] != '"'
    ensures Doubled(t[i..]) == t[i..q] + Doubled(t[q..])
    decreases q - i
  {
    if i < q {
      DoubledPlain(t, i + 1, q);
      DoubledFront(t, i);
      assert t[i..q] == [t[i]] + t[i + 1..q];
      Joined([t[i]], t[i + 1..q], Doubled(t[q..]));
    }
  }

  /** One round of the quoting loop. */
  lemma DoubledRound(t: string, i: nat, q: nat)
    requires i <= q < |t| && t[q] == '"' && forall k | i <= k < q :: t[k] != '"'
    ensures Doubled(t[i..]) == t[i..q + 1] + "\"" + Doubled(t[q + 1..])
  {
    hide Doubled;
    DoubledPlain(t, i, q);
    DoubledFront(t, q);
    var d := Doubled(t[q + 1..]);
    assert t[i..q + 1] == t[i..q] + "\"";
    Joined("\"", "\"", d);
    Joined(t[i..q], "\"", "\"" + d);
    Joined(t[i..q + 1], "\"", d);
  }

  /** The output side of the context; `items` are the results written so far. */
  class Output {
    var out: seq<char>
    var count: nat
    var remaining: nat
    ghost var items: seq<Item>

    ghost predicate Valid()
      reads this
    {
      AllValid(items) && count == |items| && out == EncodeAll(items, true)
    }

    constructor ()
      ensures Valid() && items == []
    {
      out, count, remaining, items := [], 0, 0, [];
    }

    method WriteData(data: seq<char>)
      modifies `out
      ensures out == old(out) + data
    {
      out := out + data;
    }

    method WriteDelimiter()
      modifies `out
      ensures out == old(out) + if count > 0 then "," else ""
    {
      if count > 0 {
        WriteData(",");
      }
    }

    /** Another item is complete. */
    lemma Grown(was: seq<Item>, x: Item)
      requires AllValid(was) && Writable(x)
      ensures AllValid(was + [x])
      ensures EncodeAll(was + [x], true) == EncodeAll(was, true) + (if |was| > 0 then "," else "") + Encode(x)
    {
      hide Encode, Writable;
      EncodeSnoc(was, x, true);
    }

    method ResultBaseSign(w: Width, val: nat, base: int, sign: bool, ghost x: Item)
      requires Valid() && val < Modulus(w) && Writable(x)
      requires Encode(x) == Prefix(base) + Written(w, val, base, sign)
      modifies this
      ensures Valid() && items == old(items) + [x]
    {
      hide Written, Encode, EncodeAll, Writable;
      var buffer := new char[if w.W32? then 32 + 1 else 64 + 1];
      var len := ToStrBaseSign(w, val, buffer, buffer.Length, base, sign);
      TextFits(w, val, base, sign);
      var text := buffer[..len];
      assert text == Written(w, val, base, sign);
      Grown(items, x);
      WriteDelimiter();
      if base == 2 || base == 8 || base == 16 {
        WriteData(Prefix(base));
      }
      WriteData(text);
      count := count + 1;
      items := items + [x];
    }

    method ResultInt(w: Width, v: int)
      requires Valid() && 0 <= 2 * v + Modulus(w) && 2 * v < Modulus(w)
      modifies this
      ensures Valid() && items == old(items) + [Signed(w, v)]
    {
      hide Encode, EncodeAll, Written, WordOf;
      SignedCode(w, v);
      ResultBaseSign(w, WordOf(w, v), 10, true, Signed(w, v));
    }

    method ResultUIntBase(w: Width, u: nat, base: int)
      requires Valid() && u < Modulus(w)
      modifies this
      ensures Valid() && items == old(items) + [Unsigned(w, u, base)]
    {
      hide Encode, EncodeAll, Written;
      UnsignedCode(w, u, base);
      ResultBaseSign(w, u, base, false, Unsigned(w, u, base));
    }

    /** Copy the text, doubling every quote. */
    method WriteQuoted(data: string)
      modifies `out
      ensures out == old(out) + Doubled(data)
    {
      var i := 0;
      ghost var start := out;
      assert data[0..] == data;
      var q := FindQuote(data, 0);
      while q < |data|
        invariant i <= q <= |data| && (q < |data| ==> data[q] == '"') && forall k | i <= k < q :: data[k] != '"'
        invariant start + Doubled(data) == out + Doubled(data[i..])
        decreases |data| - i
      {
        DoubledRound(data, i, q);
        ghost var was := out;
        WriteData(data[i..q + 1]);
        WriteData("\"");
        assert was + (data[i..q + 1] + "\"" + Doubled(data[q + 1..])) == out + Doubled(data[q + 1..]);
        i := q + 1;
        q := FindQuote(data, i);
      }
      DoubledPlain(data, i, q);
      WriteData(data[i..]);
      assert data[i..q] + Doubled(data[q..]) == data[i..];
    }

    method FindQuote(t: string, i: nat) returns (q: nat)
      requires i <= |t|
      ensures q == NextQuote(t, i)
    {
      q := i;
      while q < |t| && t[q] != '"'
        invariant i <= q <= |t| && NextQuote(t, i) == NextQuote(t, q)
      {
        q := q + 1;
      }
    }

    method ResultText(data: string)
      requires Valid() && Writable(Text(data))
      modifies this
      ensures Valid() && items == old(items) + [Text(data)]
    {
      hide Doubled, EncodeAll;
      Grown(items, Text(data));
      WriteDelimiter();
      WriteData("\"");
      WriteQuoted(data);
      WriteData("\"");
      count := count + 1;
      items := items + [Text(data)];
    }

    /**
     Print a block length into its area of ten bytes. The terminator that the length
     is then measured by is there exactly when the shown length is below the limit.
     */
    method PrintLength(len: nat, area: array<char>) returns (n: nat)
      requires area.Length == 10
      modifies area
      ensures n == |Numeral(10, Shown(len))| <= 10 && area[..n] == Numeral(10, Shown(len))
      ensures n < 10 <==> Shown(len) < BLOCK_LIMIT
      ensures n < 10 ==> area[n] == '\0'
    {
      hide Written, Numeral;
      UnsignedText(W32, Shown(len), 10);
      LimitIsExact(Shown(len));
      n := ToStrBaseSign(W32, Shown(len), area, 10, 10, false);
      assert Numeral(10, Shown(len))[..n] == Numeral(10, Shown(len));
    }

    /** The block header, with as many digits as precede the terminator. */
    method ResultBlockHeader(len: nat)
      requires Shown(len) < BLOCK_LIMIT
      modifies `out, `remaining
      ensures out == old(out) + (if count > 0 then "," else "") + BlockHeader(Shown(len)) && remaining == len
    {
      hide Numeral;
      var area := new char[10];
      ShortLengths(Shown(len));
      var n := PrintLength(len, area);
      var header := "#" + [DigitChar(n)] + area[..n];
      remaining := len;
      WriteDelimiter();
      WriteData(header);
    }

    /** Part of a block; the block is complete when nothing remains. */
    method ResultBlockData(data: seq<char>) returns (ok: bool)
      modifies `out, `remaining, `count
      ensures ok == (|data| <= old(remaining))
      ensures !ok ==> out == old(out) && remaining == old(remaining) && count == old(count)
      ensures ok ==> out == old(out) + data && remaining == old(remaining) - |data|
                     && count == old(count) + if remaining == 0 then 1 else 0
    {
      if remaining < |data| {
        return false;
      }
      remaining := remaining - |data|;
      if remaining == 0 {
        count := count + 1;
      }
      WriteData(data);
      ok := true;
    }

    method ResultBlock(data: seq<char>)
      requires Valid() && Shown(|data|) < BLOCK_LIMIT
      modifies this
      ensures Valid() && items == old(items) + [Block(data)]
    {
      hide BlockHeader, EncodeAll;
      Grown(items, Block(data));
      ResultBlockHeader(|data|);
      var ok := ResultBlockData(data);
      items := items + [Block(data)];
    }
  }
}
