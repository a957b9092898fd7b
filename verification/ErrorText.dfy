/** The text of an error report, cut to the length that SCPI-99 allows. */
module ErrorText {
  import opened Arithmetic
  import opened Printer
  import opened Results

  /** SCPI-99, section 21.8: description and information together. */
  const LIMIT: nat := 255

  function Cost(c: char): nat { if c == '"' then 2 else 1 }

  /** As much of `t`, quotes doubled, as fits into `room` characters. */
  function Fit(t: string, room: nat): (f: string)
    ensures |f| <= room
  {
    if t == [] || Cost(t[0]) > room then []
    else (if t[0] == '"' then "\"\"" else [t[0]]) + Fit(t[1..], room - Cost(t[0]))
  }

  /** The room behind it; none once a character did not fit. */
  function Left(t: string, room: nat): (n: nat)
    ensures n <= room
  {
    if t == [] then room else if Cost(t[0]) > room then 0 else Left(t[1..], room - Cost(t[0]))
  }

  /**
   The field is a prefix of the text with each quote doubled, never half of a doubled
   quote, and the longest one that fits.
   */
  lemma {:induction false} FitIsPrefix(t: string, room: nat) returns (n: nat)
    ensures n <= |t| && Fit(t, room) == Doubled(t[..n])
    ensures n == |t| || |Doubled(t[..n + 1])| > room
    decreases |t|
  {
    if t == [] || Cost(t[0]) > room {
      n := 0;
      if t != [] {
        assert t[..1][1..] == [];
      }
    } else {
      var m := FitIsPrefix(t[1..], room - Cost(t[0]));
      n := m + 1;
      assert t[..n][1..] == t[1..][..m];
      if n < |t| {
        assert t[..n + 1][1..] == t[1..][..m + 1];
      }
    }
  }

  lemma FitOnce(t: string, room: nat)
    requires t != []
    ensures Cost(t[0]) > room ==> Fit(t, room) == [] && Left(t, room) == 0
    ensures Cost(t[0]) <= room ==>
              && Fit(t, room) == (if t[0] == '"' then "\"\"" else [t[0]]) + Fit(t[1..], room - Cost(t[0]))
              && Left(t, room) == Left(t[1..], room - Cost(t[0]))
  {
  }

  /** Two texts one after the other. */
  lemma {:induction false} FitJoin(a: string, b: string, room: nat)
    ensures Fit(a + b, room) == Fit(a, room) + Fit(b, Left(a, room))
    ensures Left(a + b, room) == Left(b, Left(a, room))
    decreases |a|
  {
    if a == [] {
      assert a + b == b;
    } else {
      hide Fit, Left;
      assert (a + b)[1..] == a[1..] + b;
      FitOnce(a, room);
      FitOnce(a + b, room);
      NoRoom(b);
      if Cost(a[0]) <= room {
        var rest := room - Cost(a[0]);
        FitJoin(a[1..], b, rest);
        Joined(if a[0] == '"' then "\"\"" else [a[0]], Fit(a[1..], rest), Fit(b, Left(a[1..], rest)));
      }
    }
  }

  lemma NoRoom(t: string)
    ensures Fit(t, 0) == [] && Left(t, 0) == 0
  {
  }

  /** Plain characters take one place each. */
  lemma {:induction false} FitPlain(t: string, m: nat, room: nat)
    requires m <= |t| && m <= room && forall k | 0 <= k < m :: t[k] != '"'
    ensures Fit(t, room) == t[..m] + Fit(t[m..], room - m) && Left(t, room) == Left(t[m..], room - m)
    decreases m
  {
    if m == 0 {
      assert t[0..] == t;
    } else {
      FitPlain(t[1..], m - 1, room - 1);
      assert t[1..][m - 1..] == t[m..];
      assert t[..m] == [t[0]] + t[1..][..m - 1];
    }
  }

  /** One round of the loop: up to and including a quote. */
  lemma FitRound(t: string, m: nat, room: nat)
    requires m < |t| && m < room && t[m] == '"' && forall k | 0 <= k < m :: t[k] != '"'
    ensures m + 1 >= room ==> Fit(t, room) == t[..m] && Left(t, room) == 0
    ensures m + 1 < room ==> Fit(t, room) == t[..m + 1] + "\"" + Fit(t[m + 1..], room - m - 2)
    ensures m + 1 < room ==> Left(t, room) == Left(t[m + 1..], room - m - 2)
  {
    FitPlain(t, m, room);
    assert t[m..][1..] == t[m + 1..];
    assert t[..m + 1] == t[..m] + "\"";
    if m + 1 < room {
      assert t[..m] + ("\"\"" + Fit(t[m + 1..], room - m - 2)) == (t[..m] + "\"") + "\"" + Fit(t[m + 1..], room - m - 2);
    }
  }

  lemma FitLast(t: string, m: nat, room: nat)
    requires m == Min(|t|, room) && forall k | 0 <= k < m :: t[k] != '"'
    ensures Fit(t, room) == t[..m] && Left(t, room) == room - m
  {
    FitPlain(t, m, room);
  }

  /** The same inside a text. */
  lemma RoundAt(part: string, i: nat, q: nat, left: nat)
    requires i <= q < |part| && q - i < left && part[q] == '"' && forall k | i <= k < q :: part[k] != '"'
    ensures q + 1 - i >= left ==> Fit(part[i..], left) == part[i..q] && Left(part[i..], left) == 0
    ensures q + 1 - i < left ==>
              && Fit(part[i..], left) == (part[i..q + 1] + "\"") + Fit(part[q + 1..], left - (q - i) - 2)
              && Left(part[i..], left) == Left(part[q + 1..], left - (q - i) - 2)
  {
    hide Fit, Left;
    var t := part[i..];
    FitRound(t, q - i, left);
    assert t[q - i + 1..] == part[q + 1..];
    assert t[..q - i] == part[i..q] && t[..q - i + 1] == part[i..q + 1];
  }

  lemma LastAt(part: string, i: nat, len: nat, left: nat)
    requires i <= |part| && len == Min(|part| - i, left) && forall k | i <= k < i + len :: part[k] != '"'
    ensures Fit(part[i..], left) == part[i..i + len] && Left(part[i..], left) == left - len
  {
    hide Fit, Left;
    FitLast(part[i..], len, left);
  }

  /** Where the next quote among the `len` characters at `i` is. */
  method NextQuoteIn(o: Output, part: string, i: nat, len: nat) returns (q: nat)
    requires i + len <= |part|
    ensures i <= q <= i + len && (q < i + len ==> part[q] == '"') && forall k | i <= k < q :: part[k] != '"'
  {
    hide NextQuote;
    q := o.FindQuote(part[..i + len], i);
    assert forall k | i <= k < i + len :: part[k] == part[..i + len][k];
  }

  /** Write one part of the report, with `limit` places left. */
  method WritePart(o: Output, part: string, limit: nat) returns (left: nat)
    modifies o`out
    ensures o.out == old(o.out) + Fit(part, limit) && left == Left(part, limit)
  {
    hide Fit, Left;
    left := limit;
    var i: nat := 0;
    var len := Min(|part|, left);
    ghost var all := o.out + Fit(part, limit);
    assert part[0..] == part;
    var q := NextQuoteIn(o, part, 0, len);
    while q < i + len
      invariant i <= |part| && len == Min(|part| - i, left)
      invariant i <= q <= i + len && (q < i + len ==> part[q] == '"') && forall k | i <= k < q :: part[k] != '"'
      invariant all == o.out + Fit(part[i..], left) && Left(part, limit) == Left(part[i..], left)
      decreases len
    {
      var step := q - i + 1;
      RoundAt(part, i, q, left);
      if step >= left {
        len := len - 1;
        left := left - 1;
        LastAt(part, i, len, left);
        break;
      }
      Regroup(o.out, part[i..q + 1] + "\"", Fit(part[q + 1..], left - (q - i) - 2));
      WriteStep(o, part[i..q + 1]);
      left := left - (step + 1);
      i := q + 1;
      len := Min(|part| - i, left);
      q := NextQuoteIn(o, part, i, len);
    }
    LastAt(part, i, len, left);
    o.WriteData(part[i..i + len]);
    left := left - len;
  }

  lemma Regroup(a: string, b: string, c: string)
    ensures a + (b + c) == (a + b) + c
  {
  }

  method WriteStep(o: Output, data: string)
    modifies o`out
    ensures o.out == old(o.out) + (data + "\"")
  {
    o.WriteData(data);
    o.WriteData("\"");
  }

  /** The description, and behind a semicolon the information, which the heap may hand out in two parts. */
  function FullText(parts: seq<string>): string
    requires 1 <= |parts| <= 3
  {
    parts[0] + if |parts| == 1 then "" else ";" + (parts[1] + if |parts| == 3 then parts[2] else "")
  }

  /** What the loop over the parts from `i` on writes into `limit` places. */
  function FitParts(parts: seq<string>, i: nat, limit: nat): string
    requires 1 <= |parts| <= 3 && i <= |parts|
    decreases |parts| - i
  {
    if i == |parts| || limit == 0 then ""
    else if i == 1 then ";" + Fit(parts[1], limit - 1) + FitParts(parts, 2, Left(parts[1], limit - 1))
    else Fit(parts[i], limit) + FitParts(parts, i + 1, Left(parts[i], limit))
  }

  /** Part by part or all at once: the same. */
  lemma PartsAreOne(parts: seq<string>, limit: nat)
    requires 1 <= |parts| <= 3 && limit > 0
    ensures FitParts(parts, 0, limit) == Fit(FullText(parts), limit)
  {
    hide Fit, Left;
    var room := Left(parts[0], limit);
    if |parts| == 1 {
      assert parts[0] + "" == parts[0];
    } else {
      var tail := parts[1] + if |parts| == 3 then parts[2] else "";
      FitJoin(parts[0], ";" + tail, limit);
      if room == 0 {
        NoRoom(";" + tail);
      } else {
        Semicolon(tail, room);
        TwoParts(parts, room - 1);
      }
    }
  }

  lemma Semicolon(t: string, room: nat)
    requires room > 0
    ensures Fit(";" + t, room) == ";" + Fit(t, room - 1)
  {
    assert (";" + t)[1..] == t;
  }

  lemma TwoParts(parts: seq<string>, room: nat)
    requires 2 <= |parts| <= 3
    ensures Fit(parts[1] + if |parts| == 3 then parts[2] else "", room)
            == Fit(parts[1], room) + FitParts(parts, 2, Left(parts[1], room))
  {
    hide Fit, Left;
    if |parts| == 3 {
      FitJoin(parts[1], parts[2], room);
      NoRoom(parts[2]);
      assert FitParts(parts, 3, Left(parts[2], Left(parts[1], room))) == "";
    } else {
      assert parts[1] + "" == parts[1];
    }
  }

  /** The report of an error: its number, and its text in quotes. */
  method ResultError(o: Output, code: int, parts: seq<string>)
    requires o.Valid() && 1 <= |parts| <= 3 && 0 <= 2 * code + Modulus(W32) && 2 * code < Modulus(W32)
    modifies o
    ensures o.out == old(o.out) + (if old(o.count) > 0 then "," else "") + Encode(Signed(W32, code))
                     + ",\"" + Fit(FullText(parts), LIMIT) + "\""
  {
    hide Fit, Left, Encode, EncodeAll, FitParts, FullText;
    var limit: nat := LIMIT;
    PartsAreOne(parts, limit);
    ghost var was := o.items;
    o.ResultInt(W32, code);
    EncodeSnoc(was, Signed(W32, code), true);
    o.WriteDelimiter();
    o.WriteData("\"");
    ghost var start := o.out;
    assert start == old(o.out) + (if old(o.count) > 0 then "," else "") + Encode(Signed(W32, code)) + ",\"";
    var i := 0;
    while i < |parts| && limit > 0
      invariant i <= |parts| && limit <= LIMIT && o.count > 0
      invariant start + FitParts(parts, 0, LIMIT) == o.out + FitParts(parts, i, limit)
    {
      PartsOnce(parts, i, limit);
      ghost var here := o.out;
      if i == 1 {
        if o.count > 0 {
          o.WriteData(";");
        }
        limit := limit - 1;
      }
      ghost var text := Fit(parts[i], limit);
      limit := WritePart(o, parts[i], limit);
      i := i + 1;
    }
    PartsEnd(parts, i, limit);
    o.WriteData("\"");
  }

  lemma PartsOnce(parts: seq<string>, i: nat, limit: nat)
    requires 1 <= |parts| <= 3 && i < |parts| && limit > 0
    ensures var l := if i == 1 then limit - 1 else limit;
            forall out: string ::
              out + FitParts(parts, i, limit)
              == out + (if i == 1 then ";" else "") + Fit(parts[i], l) + FitParts(parts, i + 1, Left(parts[i], l))
  {
  }

  lemma PartsEnd(parts: seq<string>, i: nat, limit: nat)
    requires 1 <= |parts| <= 3 && i <= |parts| && (i == |parts| || limit == 0)
    ensures FitParts(parts, i, limit) == ""
  {
  }
}
