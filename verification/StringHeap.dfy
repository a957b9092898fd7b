/**
 The circular string heap that keeps the device-dependent texts of queued
 errors. Pointers into the heap are indices of its byte array.
 */
module StringHeap {
  import opened Wrappers
  import opened Texts

  /** Index `i` of a ring of `size` cells, for `i` less than one turn too far. */
  function Wrap(i: nat, size: nat): nat {
    if i < size then i else i - size
  }

  /** Steps from cell `from` to cell `to`, walking with a ring of `size` cells. */
  function Distance(from: nat, to: nat, size: nat): (d: nat)
    requires from < size && to < size
    ensures d < size && Wrap(from + d, size) == to
  {
    if to >= from then to - from else to + size - from
  }

  /** Where a write position goes when the newest `room` of `used` cells are given back. */
  lemma WriteBack(start: nat, used: nat, room: nat, size: nat)
    requires start < size && 0 < room <= used <= size
    ensures var wr := Wrap(start + used, size);
            Wrap(start + (used - room), size) == if room > wr then wr + size - room else wr - room
  {
  }

  /** Giving back the oldest cells leaves the write position alone. */
  lemma WriteKept(start: nat, used: nat, room: nat, size: nat)
    requires start < size && room <= used <= size
    ensures Wrap(Wrap(start + room, size) + (used - room), size) == Wrap(start + used, size)
  {
  }

  /** The ring `cells` holds `image` from `start` on and zeros everywhere else. */
  ghost predicate RingHolds(cells: seq<char>, start: nat, image: seq<char>) {
    && start < |cells| && |image| <= |cells|
    && forall p | 0 <= p < |cells| ::
         cells[p] == var d := Distance(start, p, |cells|); if d < |image| then image[d] else NUL
  }

  /** `after` is `before` with `room` cells from `at` on zeroed. */
  ghost predicate Erased(before: seq<char>, after: seq<char>, at: nat, room: nat) {
    && |before| == |after| && at < |after|
    && forall q | 0 <= q < |after| ::
         after[q] == if Distance(at, q, |after|) < room then NUL else before[q]
  }

  lemma DropFront(before: seq<char>, after: seq<char>, start: nat, image: seq<char>, room: nat)
    requires RingHolds(before, start, image) && room <= |image|
    requires Erased(before, after, start, room)
    ensures RingHolds(after, Wrap(start + room, |after|), image[room..])
    ensures room == |image| ==> RingHolds(after, 0, [])
  {
    var next := Wrap(start + room, |after|);
    forall p | 0 <= p < |after|
      ensures after[p] == var d := Distance(next, p, |after|); if d < |image| - room then image[room + d] else NUL
    {
      var d := Distance(start, p, |after|);
      assert before[p] == if d < |image| then image[d] else NUL;
      if d >= room {
        assert Distance(next, p, |after|) == d - room;
      }
    }
  }

  lemma DropBack(before: seq<char>, after: seq<char>, start: nat, image: seq<char>, room: nat)
    requires RingHolds(before, start, image) && 0 < room <= |image|
    requires Erased(before, after, Wrap(start + |image| - room, |before|), room)
    ensures RingHolds(after, start, image[..|image| - room])
    ensures room == |image| ==> RingHolds(after, 0, [])
  {
    var kept := |image| - room;
    forall p | 0 <= p < |after|
      ensures after[p] == var d := Distance(start, p, |after|); if d < kept then image[d] else NUL
    {
      var d := Distance(start, p, |after|);
      assert before[p] == if d < |image| then image[d] else NUL;
    }
  }

  /** `after` is `before` with `bytes` written round the ring from `at` on. */
  ghost predicate Written(before: seq<char>, after: seq<char>, at: nat, bytes: seq<char>) {
    && |before| == |after| && at < |after|
    && forall p | 0 <= p < |after| ::
         after[p] == var d := Distance(at, p, |after|); if d < |bytes| then bytes[d] else before[p]
  }

  lemma Append(before: seq<char>, after: seq<char>, start: nat, image: seq<char>, bytes: seq<char>)
    requires RingHolds(before, start, image) && |image| + |bytes| <= |before|
    requires Written(before, after, Wrap(start + |image|, |before|), bytes)
    ensures RingHolds(after, start, image + bytes)
  {
    forall p | 0 <= p < |after|
      ensures after[p] == var d := Distance(start, p, |after|);
                          if d < |image + bytes| then (image + bytes)[d] else NUL
    {
      var d := Distance(start, p, |after|);
      assert before[p] == if d < |image| then image[d] else NUL;
    }
  }

  /** The cells from `p` on hold the text `t` and its terminator. */
  ghost predicate Holds(cells: seq<char>, p: nat, t: string) {
    && p < |cells| && |t| < |cells|
    && (forall i | 0 <= i < |t| :: cells[Wrap(p + i, |cells|)] == t[i])
    && cells[Wrap(p + |t|, |cells|)] == NUL
  }

  lemma RingCell(cells: seq<char>, start: nat, image: seq<char>, o: nat)
    requires RingHolds(cells, start, image) && o < |image|
    ensures cells[Wrap(start + o, |cells|)] == image[o]
  {
    assert Distance(start, Wrap(start + o, |cells|), |cells|) == o;
  }

  lemma LiveText(cells: seq<char>, start: nat, image: seq<char>, o: nat, t: string)
    requires RingHolds(cells, start, image) && TextIn(image, o, t)
    ensures Holds(cells, Wrap(start + o, |cells|), t)
  {
    RingCell(cells, start, image, o + |t|);
    forall i | 0 <= i < |t|
      ensures cells[Wrap(Wrap(start + o, |cells|) + i, |cells|)] == t[i]
    {
      RingCell(cells, start, image, o + i);
    }
  }

  /** The bytes of a text that lie before the end of the buffer, and those after it. */
  lemma Halves(cells: seq<char>, p: nat, t: string)
    requires Holds(cells, p, t)
    ensures var rem := |cells| - p;
            && (forall q | p <= q < p + |t| && q < |cells| :: cells[q] == t[q - p])
            && (forall q | 0 <= q < |t| - rem :: cells[q] == t[rem + q])
            && (if |t| < rem then cells[p + |t|] == NUL else cells[|t| - rem] == NUL)
  {
    var rem := |cells| - p;
    forall q | p <= q < p + |t| && q < |cells| ensures cells[q] == t[q - p] {
      assert cells[Wrap(p + (q - p), |cells|)] == t[q - p];
    }
    forall q | 0 <= q < |t| - rem ensures cells[q] == t[rem + q] {
      assert cells[Wrap(p + (rem + q), |cells|)] == t[rem + q];
    }
  }

  lemma Rejoined(cells: seq<char>, p: nat, t: string, k: nat)
    requires p <= |cells| && k <= |cells| && |cells| - p + k == |t|
    requires forall q | p <= q < |cells| :: cells[q] == t[q - p]
    requires forall q | 0 <= q < k :: cells[q] == t[|cells| - p + q]
    ensures cells[p..] + cells[..k] == t
  {
  }

  lemma InOnePiece(cells: seq<char>, p: nat, t: string)
    requires Holds(cells, p, t) && Storable(t) && |t| < |cells| - p
    ensures Strnlen(cells, p, |cells| - p) == |t| && cells[p..p + |t|] == t
  {
    Halves(cells, p, t);
    hide Holds;
    StrnlenIs(cells, p, |cells| - p, |t|);
  }

  lemma InTwoPieces(cells: seq<char>, p: nat, t: string)
    requires Holds(cells, p, t) && Storable(t) && |t| >= |cells| - p
    ensures Strnlen(cells, p, |cells| - p) == |cells| - p
    ensures cells[p..] + cells[..Strnlen(cells, 0, |cells|)] == t
  {
    var rem := |cells| - p;
    Halves(cells, p, t);
    hide Holds;
    StrnlenIs(cells, p, rem, rem);
    StrnlenIs(cells, 0, |cells|, |t| - rem);
    Rejoined(cells, p, t, |t| - rem);
  }

  /** Reading a live text in two parts, cut at the end of the buffer, gives it back. */
  lemma TwoParts(cells: seq<char>, p: nat, t: string)
    requires Holds(cells, p, t) && Storable(t)
    ensures var rem := |cells| - p;
            var len1 := Strnlen(cells, p, rem);
            if |t| < rem then len1 == |t| && cells[p..p + len1] == t
            else len1 == rem && cells[p..] + cells[..Strnlen(cells, 0, |cells|)] == t
  {
    if |t| < |cells| - p {
      InOnePiece(cells, p, t);
    } else {
      InTwoPieces(cells, p, t);
    }
  }

  /** Releasing the oldest text leaves the others where they are. */
  lemma FreedFront(before: seq<char>, after: seq<char>, start: nat, texts: seq<string>)
    requires texts != [] && RingHolds(before, start, Image(texts))
    requires Erased(before, after, start, |texts[0]| + 1)
    ensures |Image(texts)| == |texts[0]| + 1 + |Image(texts[1..])|
    ensures RingHolds(after, Wrap(start + |texts[0]| + 1, |after|), Image(texts[1..]))
    ensures |Image(texts[1..])| == 0 <==> texts[1..] == []
    ensures texts[1..] == [] ==> RingHolds(after, 0, Image(texts[1..]))
  {
    DropFront(before, after, start, Image(texts), |texts[0]| + 1);
    hide RingHolds, Erased;
    assert Image(texts[1..]) == Image(texts)[|texts[0]| + 1..];
  }

  /** Releasing the newest text leaves the others where they are. */
  lemma FreedBack(before: seq<char>, after: seq<char>, start: nat, texts: seq<string>, k: nat)
    requires |texts| == k + 1 && RingHolds(before, start, Image(texts))
    requires Erased(before, after, Wrap(start + Offset(texts, k), |before|), |texts[k]| + 1)
    ensures |Image(texts)| == |Image(texts[..k])| + |texts[k]| + 1
    ensures RingHolds(after, start, Image(texts[..k]))
    ensures |Image(texts[..k])| == 0 <==> texts[..k] == []
    ensures texts[..k] == [] ==> RingHolds(after, 0, Image(texts[..k]))
  {
    hide RingHolds, Erased;
    ImageSnoc(texts[..k], texts[k]);
    assert texts == texts[..k] + [texts[k]];
    DropBack(before, after, start, Image(texts), |texts[k]| + 1);
    assert Image(texts)[..|Image(texts)| - (|texts[k]| + 1)] == Image(texts[..k]);
  }

  /** The address of live text `k`. */
  ghost function AddressIn(texts: seq<string>, start: nat, size: nat, k: nat): nat
    requires k < |texts|
  {
    Wrap(start + Offset(texts, k), size)
  }

  lemma FirstAddress(texts: seq<string>, start: nat, size: nat)
    requires texts != [] && |Image(texts)| <= size && (size > 0 ==> start < size)
    ensures size > 0 && AddressIn(texts, start, size, 0) == start
  {
    assert texts[..0] == [];
  }

  /** Releasing the oldest text moves no other text. */
  lemma FrontAddresses(texts: seq<string>, start: nat, size: nat)
    requires texts != [] && start < size && |Image(texts)| <= size
    ensures forall k | 0 < k < |texts| ::
              AddressIn(texts, start, size, k)
              == AddressIn(texts[1..], Wrap(start + |texts[0]| + 1, size), size, k - 1)
  {
    forall k | 0 < k < |texts|
      ensures AddressIn(texts, start, size, k)
              == AddressIn(texts[1..], Wrap(start + |texts[0]| + 1, size), size, k - 1)
    {
      OffsetTail(texts, k - 1);
    }
  }

  /** Neither does releasing the newest ones. */
  lemma BackAddresses(texts: seq<string>, start: nat, size: nat, j: nat)
    requires j <= |texts|
    ensures forall k | 0 <= k < j ::
              AddressIn(texts[..j], start, size, k) == AddressIn(texts, start, size, k)
  {
    forall k | 0 <= k < j
      ensures AddressIn(texts[..j], start, size, k) == AddressIn(texts, start, size, k)
    {
      OffsetInit(texts, k, j);
    }
  }

  /** A text written at the end of the live region becomes the newest one. */
  lemma Appended(before: seq<char>, after: seq<char>, start: nat, texts: seq<string>, t: string)
    requires RingHolds(before, start, Image(texts)) && |Image(texts)| + |t| + 1 <= |before|
    requires Written(before, after, Wrap(start + |Image(texts)|, |before|), t + [NUL])
    ensures RingHolds(after, start, Image(texts + [t]))
    ensures |Image(texts + [t])| == |Image(texts)| + |t| + 1
    ensures AddressIn(texts + [t], start, |before|, |texts|) == Wrap(start + |Image(texts)|, |before|)
  {
    Append(before, after, start, Image(texts), t + [NUL]);
    hide RingHolds, Written;
    ImageSnoc(texts, t);
    assert Image(texts) + (t + [NUL]) == Image(texts) + t + [NUL];
    assert (texts + [t])[..|texts|] == texts;
  }

  /** Beyond the live region every cell is zero. */
  lemma FreeCell(cells: seq<char>, start: nat, image: seq<char>)
    requires RingHolds(cells, start, image) && |image| < |cells|
    ensures cells[Wrap(start + |image|, |cells|)] == NUL
  {
    assert Distance(start, Wrap(start + |image|, |cells|), |cells|) == |image|;
  }

  class Heap {
    const data: array<char>
    var wr: nat
    var count: nat

    // The live texts, oldest first, and the cell where the oldest begins.
    ghost var texts: seq<string>
    ghost var start: nat

    /**
     Live texts fill one circular region that ends at `wr`, every other cell is
     zero, and free and used cells add up to the size.
     */
    ghost predicate Valid()
      reads this, data
    {
      && (forall k | 0 <= k < |texts| :: Storable(texts[k]))
      && count + |Image(texts)| == data.Length
      && (data.Length == 0 ==> wr == 0 && start == 0)
      && (data.Length > 0 ==>
            && start < data.Length
            && RingHolds(data[..], start, Image(texts))
            && wr == Wrap(start + |Image(texts)|, data.Length)
            && (texts == [] ==> wr == 0))
    }

    /** The address of live text `k`. */
    ghost function Address(k: nat): nat
      reads this
      requires k < |texts|
    {
      AddressIn(texts, start, data.Length, k)
    }

    constructor (buffer: array<char>)
      modifies buffer
      ensures data == buffer && Valid()
      ensures texts == [] && count == buffer.Length
      ensures forall p | 0 <= p < buffer.Length :: buffer[p] == NUL
    {
      data := buffer;
      wr := 0;
      count := buffer.Length;
      texts := [];
      start := 0;
      new;
      forall p | 0 <= p < data.Length {
        data[p] := NUL;
      }
    }

    method Copy(at: nat, src: seq<char>)
      requires at + |src| <= data.Length
      modifies data
      ensures forall p | 0 <= p < data.Length ::
                data[p] == if at <= p < at + |src| then src[p - at] else old(data[p])
    {
      forall i | 0 <= i < |src| {
        data[at + i] := src[i];
      }
    }

    method Zero(at: nat, len: nat)
      requires at + len <= data.Length
      modifies data
      ensures forall p | 0 <= p < data.Length ::
                data[p] == if at <= p < at + len then NUL else old(data[p])
    {
      forall i | at <= i < at + len {
        data[i] := NUL;
      }
    }

    /** Write `len` bytes of `s` round the ring at `wr`, the last of them as a terminator. */
    method Store(s: seq<char>, len: nat)
      requires wr < data.Length && 0 < len <= |s| && len <= count <= data.Length
      modifies `wr, `count, data
      ensures wr == Wrap(old(wr) + len, data.Length) && count == old(count) - len
      ensures Written(old(data[..]), data[..], old(wr), s[..len - 1] + [NUL])
    {
      var rem := data.Length - wr;
      var ptr, left := 0, len;
      if left >= rem {
        Copy(wr, s[..rem]);
        left := left - rem;
        ptr := rem;
        wr := 0;
        count := count - rem;
      }
      Copy(wr, s[ptr..ptr + left]);
      wr := wr + left;
      count := count - left;
      if wr > 0 {
        data[wr - 1] := NUL;
      } else {
        data[data.Length - 1] := NUL;
      }
    }

    /**
     Store the text `s` holds within its first `n` characters. The byte after
     the text is read too, so it must be there; callers pass length zero only
     with an empty text.
     */
    method Strndup(s: seq<char>, n: nat) returns (head: Option<nat>)
      requires Valid()
      requires Strnlen(s, 0, n) < |s|
      requires n > 0 || s[0] == NUL
      modifies this, data
      ensures Valid()
      ensures head.Some? <==> s[0] != NUL && Strnlen(s, 0, n) + 1 <= old(count)
      ensures head.Some? ==>
                && texts == old(texts) + [s[..Strnlen(s, 0, n)]]
                && head.value == Address(|old(texts)|)
                && start == old(start)
      ensures head.None? ==>
                && texts == old(texts) && wr == old(wr) && count == old(count) && start == old(start)
                && data[..] == old(data[..])
      ensures forall k | 0 <= k < |old(texts)| :: k < |texts| && Address(k) == old(Address(k))
    {
      hide RingHolds, Written, Image, Offset;
      if data.Length == 0 {
        return None;
      }
      if data[wr] != NUL {
        if |Image(texts)| < data.Length {
          FreeCell(data[..], start, Image(texts));
        }
        return None;
      }
      if s[0] == NUL {
        return None;
      }
      var len := Strnlen(s, 0, n) + 1;
      if len > count {
        return None;
      }
      head := Some(wr);
      Store(s, len);
      ghost var t := s[..len - 1];
      Appended(old(data[..]), data[..], start, texts, t);
      texts := texts + [t];
      BackAddresses(texts, start, data.Length, |old(texts)|);
      assert texts[..|old(texts)|] == old(texts);
    }

    /** The text a caller reads at `p` from the two parts it was given. */
    ghost function Joined(p: nat, len1: nat, second: Option<nat>, len2: nat): string
      reads data
      requires p + len1 <= data.Length && len2 <= data.Length
    {
      data[p..p + len1] + if second.Some? then data[..len2] else []
    }

    /** The two parts of the string at `p`; the second one exists when it wraps. */
    method GetParts(p: nat) returns (found: bool, len1: nat, second: Option<nat>, len2: nat)
      requires p < data.Length
      ensures p + len1 <= data.Length && len2 <= data.Length
      ensures found <==> data[p] != NUL
      ensures second == if found && p + len1 == data.Length then Some(0) else None
      ensures second.None? ==> len2 == 0
      ensures Valid() ==> forall k | 0 <= k < |texts| && p == Address(k) ::
                found && Joined(p, len1, second, len2) == texts[k]
    {
      hide RingHolds, Image, Offset, Storable;
      if data[p] == NUL {
        forall k | Valid() && 0 <= k < |texts| && p == Address(k)
          ensures false
        {
          LivePart(k);
        }
        return false, 0, None, 0;
      }
      found := true;
      var rem := data.Length - p;
      len1 := Strnlen(data[..], p, rem);
      if len1 == rem {
        second := Some(0);
        len2 := Strnlen(data[..], 0, data.Length);
      } else {
        second, len2 := None, 0;
      }
      forall k | Valid() && 0 <= k < |texts| && p == Address(k)
        ensures Joined(p, len1, second, len2) == texts[k]
      {
        LivePart(k);
      }
    }

    lemma LivePart(k: nat)
      requires Valid() && k < |texts|
      ensures Address(k) < data.Length && |texts[k]| < data.Length
      ensures data[Address(k)] != NUL
      ensures var p, t := Address(k), texts[k];
              var rem := data.Length - p;
              var len1 := Strnlen(data[..], p, rem);
              if |t| < rem then len1 == |t| && data[p..p + len1] == t
              else len1 == rem && data[p..] + data[..Strnlen(data[..], 0, data.Length)] == t
    {
      hide RingHolds, Holds, TextIn, Image;
      ImageHas(texts, k);
      LiveText(data[..], start, Image(texts), Offset(texts, k), texts[k]);
      TwoParts(data[..], Address(k), texts[k]);
    }

    /** Zero the string at `s`, give its room back, and report how much that was. */
    method Erase(s: nat, ghost k: nat) returns (room: nat)
      requires Valid() && k < |texts| && s == Address(k)
      modifies `count, data
      ensures room == |texts[k]| + 1 <= data.Length && count == old(count) + room
      ensures Erased(old(data[..]), data[..], s, room)
    {
      hide RingHolds, Image, Storable;
      LivePart(k);
      ImageHas(texts, k);
      var _, len0, second, len1 := GetParts(s);
      assert len0 + len1 == |texts[k]|;
      if second.Some? {
        len1 := len1 + 1;
        Zero(second.value, len1);
        count := count + len1;
      } else {
        len0 := len0 + 1;
      }
      Zero(s, len0);
      count := count + len0;
      return len0 + len1;
    }

    /** Release the oldest live text: the write position stays, and so do the addresses of the others. */
    method FreeOldest(s: nat)
      requires Valid() && texts != [] && s == Address(0)
      modifies this, data
      ensures Valid() && texts == old(texts)[1..]
      ensures forall k | 0 <= k < |texts| :: Address(k) == old(Address(k + 1))
      ensures start == if texts == [] then 0 else Wrap(old(start) + |old(texts)[0]| + 1, data.Length)
    {
      hide RingHolds, Erased, Image, Offset;
      FirstAddress(texts, start, data.Length);
      FrontAddresses(texts, start, data.Length);
      var room := Erase(s, 0);
      FreedFront(old(data[..]), data[..], start, texts);
      WriteKept(start, |Image(texts)|, room, data.Length);
      start := Wrap(start + room, data.Length);
      texts := texts[1..];
      if count == data.Length {
        wr := 0;
        start := 0;
      }
    }

    /** Release the newest live text: the write position goes back to its start, and no other text moves. */
    method FreeNewest(s: nat)
      requires Valid() && texts != [] && s == Address(|texts| - 1)
      modifies this, data
      ensures Valid() && texts == old(texts)[..|old(texts)| - 1]
      ensures forall k | 0 <= k < |texts| :: Address(k) == old(Address(k))
      ensures start == if texts == [] then 0 else old(start)
    {
      hide RingHolds, Erased, Image, Offset;
      ghost var k := |texts| - 1;
      BackAddresses(texts, start, data.Length, k);
      var room := Erase(s, k);
      FreedBack(old(data[..]), data[..], start, texts, k);
      WriteBack(start, |Image(texts)|, room, data.Length);
      texts := texts[..k];
      if count == data.Length {
        wr := 0;
        start := 0;
      } else {
        if room > wr {
          wr := wr + data.Length;
        }
        wr := wr - room;
      }
    }

    /**
     Release the string at `p`: the oldest live text, or with `rollback` the
     newest one, whose room the write position then takes back.
     */
    method Free(p: Option<nat>, rollback: bool)
      requires Valid()
      requires p.Some? ==>
                 texts != [] && p.value == Address(if rollback then |texts| - 1 else 0)
      modifies this, data
      ensures Valid()
      ensures texts == if p.None? then old(texts)
                       else if rollback then old(texts)[..|old(texts)| - 1]
                       else old(texts)[1..]
      ensures forall k | 0 <= k < |texts| :: Address(k) == old(Address(if p.None? || rollback then k else k + 1))
      ensures p.None? ==> wr == old(wr) && data[..] == old(data[..])
      ensures start == if p.None? || (rollback && texts != []) then old(start)
                       else if texts == [] then 0
                       else Wrap(old(start) + |old(texts)[0]| + 1, data.Length)
    {
      if p.None? {
        return;
      }
      if rollback {
        FreeNewest(p.value);
      } else {
        FreeOldest(p.value);
      }
    }
  }
}
