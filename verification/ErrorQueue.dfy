/** The error queue of a context: a ring of entries whose texts live in the string heap. */
module ErrorQueue {
  import opened Wrappers
  import opened Texts
  import opened StringHeap
  import opened Fifo
  import opened Status
  import opened StatusRuns
  import opened Registers
  import opened ErrorSpec

  const DESC_MAX := 255

  /**
   The texts of `entries`, in order, are exactly the live texts of a heap whose
   oldest text begins at `start`, and every entry points at its own.
   */
  ghost predicate Linked(entries: seq<Entry>, texts: seq<string>, start: nat, size: nat) {
    if entries == [] then texts == []
    else if entries[0].info.None? then Linked(entries[1..], texts, start, size)
    else
      && texts != [] && entries[0].info.value == start
      && Linked(entries[1..], texts[1..], Wrap(start + |texts[0]| + 1, size), size)
  }

  /** The reports that `entries` and the live texts stand for. */
  ghost function Reports(entries: seq<Entry>, texts: seq<string>): seq<Report> {
    if entries == [] then []
    else if entries[0].info.None? || texts == [] then
      [Report(entries[0].code, None)] + Reports(entries[1..], texts)
    else
      [Report(entries[0].code, Some(texts[0]))] + Reports(entries[1..], texts[1..])
  }

  lemma {:induction false} ReportsUse(entries: seq<Entry>, texts: seq<string>, start: nat, size: nat)
    requires Linked(entries, texts, start, size)
    ensures Used(Reports(entries, texts)) == |Image(texts)| && |Reports(entries, texts)| == |entries|
  {
    if entries != [] {
      if entries[0].info.None? {
        ReportsUse(entries[1..], texts, start, size);
      } else {
        ReportsUse(entries[1..], texts[1..], Wrap(start + |texts[0]| + 1, size), size);
      }
    }
  }

  lemma {:induction false} ReportsLength(entries: seq<Entry>, texts: seq<string>)
    ensures |Reports(entries, texts)| == |entries|
  {
    if entries != [] {
      ReportsLength(entries[1..], texts);
      if texts != [] {
        ReportsLength(entries[1..], texts[1..]);
      }
    }
  }

  /** Without texts the position of the heap does not matter. */
  lemma {:induction false} LinkedNowhere(entries: seq<Entry>, start: nat, start': nat, size: nat)
    requires Linked(entries, [], start, size)
    ensures Linked(entries, [], start', size)
  {
    if entries != [] {
      LinkedNowhere(entries[1..], start, start', size);
    }
  }

  lemma {:induction false} LinkedPlain(entries: seq<Entry>, texts: seq<string>, start: nat, size: nat, code: int)
    requires Linked(entries, texts, start, size)
    ensures Linked(entries + [Entry(code, None)], texts, start, size)
    ensures Reports(entries + [Entry(code, None)], texts) == Reports(entries, texts) + [Report(code, None)]
  {
    var more := entries + [Entry(code, None)];
    if entries != [] {
      assert more[1..] == entries[1..] + [Entry(code, None)];
      if entries[0].info.None? {
        LinkedPlain(entries[1..], texts, start, size, code);
      } else {
        LinkedPlain(entries[1..], texts[1..], Wrap(start + |texts[0]| + 1, size), size, code);
      }
    }
  }

  lemma NoAddress(start: nat, size: nat)
    requires start < size
    ensures Wrap(start + |Image([])|, size) == start
  {
  }

  /** Behind the first text of an image. */
  lemma NextAddress(texts: seq<string>, start: nat, size: nat)
    requires texts != [] && start < size && |Image(texts)| <= size
    ensures var next := Wrap(start + |texts[0]| + 1, size);
            && next < size && |Image(texts[1..])| <= size
            && Wrap(start + |Image(texts)|, size) == Wrap(next + |Image(texts[1..])|, size)
  {
    assert |Image(texts)| == |texts[0]| + 1 + |Image(texts[1..])|;
  }

  lemma {:induction false} LinkedText(entries: seq<Entry>, texts: seq<string>, start: nat, size: nat, code: int, t: string)
    requires Linked(entries, texts, start, size) && start < size && |Image(texts)| <= size
    ensures var e := Entry(code, Some(Wrap(start + |Image(texts)|, size)));
            && Linked(entries + [e], texts + [t], start, size)
            && Reports(entries + [e], texts + [t]) == Reports(entries, texts) + [Report(code, Some(t))]
  {
    hide Image, Wrap;
    var e := Entry(code, Some(Wrap(start + |Image(texts)|, size)));
    NoAddress(start, size);
    if entries == [] {
      assert [e][1..] == [] && [t][1..] == [];
    } else {
      assert (entries + [e])[1..] == entries[1..] + [e];
      if entries[0].info.None? {
        LinkedText(entries[1..], texts, start, size, code, t);
      } else {
        NextAddress(texts, start, size);
        assert (texts + [t])[1..] == texts[1..] + [t];
        LinkedText(entries[1..], texts[1..], Wrap(start + |texts[0]| + 1, size), size, code, t);
      }
    }
  }

  lemma NewestAddress(texts: seq<string>, t: string, start: nat, size: nat)
    ensures AddressIn(texts + [t], start, size, |texts|) == Wrap(start + |Image(texts)|, size)
  {
    assert (texts + [t])[..|texts|] == texts;
  }

  /** Taking the newest entry away, when it has no text. */
  lemma {:induction false} LinkedLastPlain(entries: seq<Entry>, texts: seq<string>, start: nat, size: nat)
    requires entries != [] && entries[|entries| - 1].info.None? && Linked(entries, texts, start, size)
    ensures var k := |entries| - 1;
            && Linked(entries[..k], texts, start, size)
            && Reports(entries, texts) == Reports(entries[..k], texts) + [Report(entries[k].code, None)]
  {
    hide Wrap;
    var k := |entries| - 1;
    if k > 0 {
      assert entries[1..][..k - 1] == entries[..k][1..];
      assert entries[1..][k - 1] == entries[k] && entries[..k][0] == entries[0];
      if entries[0].info.None? {
        LinkedLastPlain(entries[1..], texts, start, size);
      } else {
        LinkedLastPlain(entries[1..], texts[1..], Wrap(start + |texts[0]| + 1, size), size);
      }
    }
  }

  /** Taking the newest entry away together with its text, which is the newest text. */
  lemma {:induction false} LinkedLastText(entries: seq<Entry>, texts: seq<string>, start: nat, size: nat)
    requires entries != [] && entries[|entries| - 1].info.Some? && Linked(entries, texts, start, size)
    requires |Image(texts)| <= size && (texts != [] ==> start < size)
    ensures var k, n := |entries| - 1, |texts| - 1;
            && n >= 0
            && entries[k].info.value == AddressIn(texts, start, size, n)
            && Linked(entries[..k], texts[..n], start, size)
            && Reports(entries, texts) == Reports(entries[..k], texts[..n]) + [Report(entries[k].code, Some(texts[n]))]
  {
    var k, n := |entries| - 1, |texts| - 1;
    if k == 0 {
      assert texts[1..] == [] && texts[..0] == [];
    } else {
      assert entries[1..][..k - 1] == entries[..k][1..];
      if entries[0].info.None? {
        LinkedLastText(entries[1..], texts, start, size);
      } else {
        LinkedLastText(entries[1..], texts[1..], Wrap(start + |texts[0]| + 1, size), size);
        assert texts[1..][..n - 1] == texts[..n][1..];
        OffsetTail(texts, n - 1);
      }
    }
  }

  /** What the caller offers: the text `info` holds within its first `n` characters. */
  function Offered(info: Option<seq<char>>, n: nat): Option<string> {
    if info.Some? then Some(info.value[..Strnlen(info.value, 0, n)]) else None
  }

  /** The bytes `scpiheap_strndup` reads are there, and zero length means an empty text. */
  ghost predicate Readable(info: Option<seq<char>>, n: nat) {
    info.Some? ==> Strnlen(info.value, 0, n) < |info.value| && (n > 0 || info.value[0] == NUL)
  }

  class Context {
    const queue: Queue
    const heap: Heap
    const status: RegisterFile
    var cmdError: bool
    // The codes passed to the error callback, oldest first.
    var reported: seq<int>

    ghost predicate Parts()
      reads this, queue, queue.data, heap, heap.data, status
    {
      && queue.Valid() && heap.Valid() && status.Valid() && queue.data.Length > 0
      && queue.data as object != heap.data as object
      && queue.data as object != status.regs as object && heap.data as object != status.regs as object
    }

    ghost predicate Valid()
      reads this, queue, queue.data, heap, heap.data, status
    {
      Parts() && Linked(queue.contents, heap.texts, heap.start, heap.data.Length)
    }

    /** Valid but for one text, the oldest, whose entry has been popped and not released yet. */
    ghost predicate Holding()
      reads this, queue, queue.data, heap, heap.data, status
    {
      && Parts() && heap.texts != []
      && Linked(queue.contents, heap.texts[1..],
                Wrap(heap.start + |heap.texts[0]| + 1, heap.data.Length), heap.data.Length)
    }

    ghost function Contents(): seq<Report>
      reads this, queue, heap
    {
      Reports(queue.contents, heap.texts)
    }

    ghost function Room(): Capacity
      reads this
    {
      Capacity(queue.data.Length, heap.data.Length)
    }

    /** `SCPI_Init` with a queue of at least one place, and `SCPI_InitHeap`. */
    constructor (entries: array<Entry>, bytes: array<char>, wires: Wiring)
      requires entries.Length > 0 && entries as object != bytes as object
      modifies bytes
      ensures Valid() && Contents() == [] && Room() == Capacity(entries.Length, bytes.Length)
      ensures queue.data == entries && heap.data == bytes && status.wiring == wires
      ensures fresh(queue) && fresh(heap) && fresh(status) && fresh(status.regs)
      ensures status.Abs() == PowerOn(wires).state && reported == [] && !cmdError
    {
      queue := new Queue(entries);
      heap := new Heap(bytes);
      status := new RegisterFile(wires);
      cmdError := false;
      reported := [];
    }

    /** Take the newest entry out and release its text. */
    method DropNewest()
      requires Valid() && queue.contents != []
      modifies queue, heap, heap.data
      ensures Valid() && |queue.contents| == |old(queue.contents)| - 1
      ensures |old(Contents())| > 0 && Contents() == old(Contents())[..|old(Contents())| - 1]
    {
      ghost var entries, texts, start := queue.contents, heap.texts, heap.start;
      var last := queue.RemoveLast();
      if last.value.info.None? {
        LinkedLastPlain(entries, texts, start, heap.data.Length);
      } else {
        LinkedLastText(entries, texts, start, heap.data.Length);
        heap.Free(last.value.info, true);
        if heap.texts == [] {
          LinkedNowhere(queue.contents, start, heap.start, heap.data.Length);
        }
      }
    }

    /** Copy an offered text into the heap, if it is not empty and fits. */
    method KeepText(info: Option<seq<char>>, n: nat) returns (head: Option<nat>)
      requires Valid() && Readable(info, n)
      modifies heap, heap.data
      ensures Parts() && heap.start == old(heap.start)
      ensures var kept := Kept(Room(), old(Contents()), Offered(info, n));
              && (head.Some? <==> kept.Some?)
              && (head.None? ==> heap.texts == old(heap.texts))
              && (head.Some? ==>
                    && heap.data.Length > 0
                    && heap.texts == old(heap.texts) + [kept.value]
                    && head.value == AddressIn(heap.texts, heap.start, heap.data.Length, |old(heap.texts)|))
    {
      ReportsUse(queue.contents, heap.texts, heap.start, heap.data.Length);
      head := None;
      if info.Some? {
        head := heap.Strndup(info.value, n);
      }
    }

    /** The queue was full: give back the text at `head`, and replace the newest entry. */
    method Overflow(head: Option<nat>, ghost texts: seq<string>)
      requires Parts() && queue.contents != [] && Linked(queue.contents, texts, heap.start, heap.data.Length)
      requires head.None? ==> heap.texts == texts
      requires head.Some? ==>
                 && |heap.texts| == |texts| + 1 && heap.texts[..|texts|] == texts
                 && head.value == AddressIn(heap.texts, heap.start, heap.data.Length, |texts|)
      modifies queue, queue.data, heap, heap.data
      ensures Valid()
      ensures var was := Reports(old(queue.contents), texts);
              |was| > 0 && Contents() == was[..|was| - 1] + [Report(QUEUE_OVERFLOW, None)]
    {
      ghost var start := heap.start;
      heap.Free(head, true);
      assert heap.texts == texts;
      if texts == [] {
        LinkedNowhere(queue.contents, start, heap.start, heap.data.Length);
      }
      DropNewest();
      LinkedPlain(queue.contents, heap.texts, heap.start, heap.data.Length, QUEUE_OVERFLOW);
      var _ := queue.Add(Entry(QUEUE_OVERFLOW, None));
    }

    /** Queue an error; on a full queue the newest entry gives way to an overflow report. */
    method ErrorAddInternal(err: int, info: Option<seq<char>>, n: nat) returns (ok: bool)
      requires Valid() && Readable(info, n)
      modifies queue, queue.data, heap, heap.data
      ensures Valid() && |old(Contents())| <= Room().size
      ensures ok <==> |old(Contents())| < Room().size
      ensures Contents() == Pushed(Room(), old(Contents()), err, Offered(info, n))
    {
      ghost var entries, texts, start, size := queue.contents, heap.texts, heap.start, heap.data.Length;
      ReportsUse(entries, texts, start, size);
      var head := KeepText(info, n);
      ok := queue.Add(Entry(err, head));
      if ok {
        if head.Some? {
          NewestAddress(texts, heap.texts[|texts|], start, size);
          LinkedText(entries, texts, start, size, err, heap.texts[|texts|]);
        } else {
          LinkedPlain(entries, texts, start, size, err);
        }
      } else {
        Overflow(head, texts);
      }
    }

    ghost function Abs(): System
      reads this, queue, heap, status, status.regs
    {
      System(Contents(), status.Abs(), reported)
    }

    method Emit(err: int)
      requires status.Valid()
      modifies this`reported, status`requests, status.regs
      ensures Abs() == Emitted(status.wiring, old(Abs()), err)
    {
      status.RegSetBits(STB, STB_QMA);
      reported := reported + [err];
    }

    /** Announce an empty queue, once. `q` is what the queue stands for. */
    method EmitEmpty(ghost q: seq<Report>)
      requires Parts() && (q == [] <==> queue.contents == [])
      modifies this`reported, status`requests, status.regs
      ensures Parts()
      ensures System(q, status.Abs(), reported)
              == EmittedEmpty(status.wiring, System(q, old(status.Abs()), old(reported)))
    {
      if queue.count == 0 && AnyOf(status.RegGet(STB), STB_QMA) {
        status.RegClearBits(STB, STB_QMA);
        reported := reported + [0];
      }
    }

    /** Set the standard event bit of the class of `err`. */
    method SetEventBit(err: int)
      requires status.Valid()
      modifies status`requests, status.regs
      ensures status.Abs() == EsrSet(status.wiring, old(status.Abs()), err)
    {
      for i := 0 to |CLASSES|
        invariant status.Abs() == match ClassBit(err, i)
                                  case None => old(status.Abs())
                                  case Some(bit) => SetBits(status.wiring, old(status.Abs()), ESR, bit)
      {
        if InClass(CLASSES[i], err) {
          ClassesDisjoint(err, i);
          status.RegSetBits(ESR, CLASSES[i].bit);
        }
      }
      TableClass(err);
    }

    /** Length zero asks for the text to be measured, up to the longest description. */
    function TextLength(info: Option<seq<char>>, n: nat): nat {
      if info.Some? && n == 0 then Strnlen(info.value, 0, DESC_MAX) else n
    }

    /** A push in the order of its steps. */
    lemma PushSteps(w: Wiring, c: Capacity, x: System, err: int, offered: Option<string>)
      requires |x.status.regs| == |w.t.regs| && |x.queue| <= c.size && c.size > 0
      ensures var x2 := Emitted(w, System(Pushed(c, x.queue, err, offered), EsrSet(w, x.status, err), x.reported), err);
              AfterPush(w, c, x, err, offered) == if |x.queue| < c.size then x2 else Emitted(w, x2, QUEUE_OVERFLOW)
    {
      hide Pushed, EsrSet, Emitted;
    }

    /** Push an error: queue it, set its event bit, and announce it. */
    method ErrorPushEx(err: int, info: Option<seq<char>>, n: nat)
      requires Valid()
      requires info.Some? ==> Strnlen(info.value, 0, TextLength(info, n)) < |info.value|
      modifies this, queue, queue.data, heap, heap.data, status`requests, status.regs
      ensures Valid() && cmdError && |old(Contents())| <= Room().size && Room().size > 0
      ensures Abs() == AfterPush(status.wiring, Room(), old(Abs()), err, Offered(info, TextLength(info, n)))
    {
      hide Pushed, EsrSet, Emitted, AfterPush;
      var len := TextLength(info, n);
      ghost var x := Abs();
      var ok := ErrorAddInternal(err, info, len);
      PushSteps(status.wiring, Room(), x, err, Offered(info, len));
      SetEventBit(err);
      Emit(err);
      if !ok {
        Emit(QUEUE_OVERFLOW);
      }
      cmdError := true;
    }

    /** The reports still queued while a popped text waits to be released. */
    ghost function Remaining(): seq<Report>
      reads this, queue, heap
      requires heap.texts != []
    {
      Reports(queue.contents, heap.texts[1..])
    }

    /** Take the oldest entry out; its text, if any, stays in the heap for the caller. */
    method Take() returns (value: Option<Entry>)
      requires Valid()
      modifies queue
      ensures value.None? ==> Valid() && old(Contents()) == [] && Contents() == []
      ensures value.Some? && value.value.info.None? ==>
                && Valid() && old(Contents()) == [Report(value.value.code, None)] + Contents()
      ensures value.Some? && value.value.info.Some? ==>
                && Holding() && value.value.info.value == heap.Address(0)
                && old(Contents()) == [Report(value.value.code, Some(heap.texts[0]))] + Remaining()
      ensures |queue.contents| <= |old(queue.contents)|
      ensures value.Some? ==> |queue.contents| < |old(queue.contents)|
    {
      value := queue.Remove();
      assert heap.texts[..0] == [];
    }

    /** Release a popped text: it is the oldest one in the heap. */
    method Release(info: Option<nat>)
      requires info.None? ==> Valid()
      requires info.Some? ==> Holding() && info.value == heap.Address(0)
      modifies heap, heap.data
      ensures Valid()
      ensures Contents() == if info.None? then old(Contents()) else old(Remaining())
    {
      heap.Free(info, false);
      if info.Some? && heap.texts == [] {
        LinkedNowhere(queue.contents, Wrap(old(heap.start) + |old(heap.texts)[0]| + 1, heap.data.Length),
                      heap.start, heap.data.Length);
      }
    }

    /** The text at `info`, put together from its two parts. */
    method TextAt(info: Option<nat>) returns (text: Option<string>)
      requires info.Some? ==> Holding() && info.value == heap.Address(0)
      ensures text == if info.None? then None else Some(heap.texts[0])
    {
      if info.None? {
        return None;
      }
      var _, len1, second, len2 := heap.GetParts(info.value);
      var p := info.value;
      text := Some(heap.data[p..p + len1] + if second.Some? then heap.data[..len2] else []);
    }

    /** Pop the oldest entry; its text stays in the heap until it is released. */
    method ErrorPop() returns (entry: Entry, ghost rest: seq<Report>)
      requires Valid()
      modifies this`reported, queue, status`requests, status.regs
      ensures entry.info.None? ==> Valid() && rest == Contents()
      ensures entry.info.Some? ==> Holding() && entry.info.value == heap.Address(0) && rest == Remaining()
      ensures Popped(old(Contents()))
              == (Report(entry.code, if entry.info.None? then None else Some(heap.texts[0])), rest)
      ensures System(rest, status.Abs(), reported) == AfterPop(status.wiring, old(Abs()))
    {
      var value := Take();
      entry := if value.Some? then value.value else Entry(0, None);
      rest := if entry.info.None? then Contents() else Remaining();
      ReportsLength(queue.contents, if entry.info.None? then heap.texts else heap.texts[1..]);
      EmitEmpty(rest);
    }

    /** Answer the next-error query: pop the oldest report, read its text, release it. */
    method NextError() returns (report: Report)
      requires Valid()
      modifies this`reported, queue, heap, heap.data, status`requests, status.regs
      ensures Valid()
      ensures report == Popped(old(Contents())).0
      ensures Abs() == AfterPop(status.wiring, old(Abs()))
    {
      ghost var rest;
      var entry;
      entry, rest := ErrorPop();
      var text := TextAt(entry.info);
      Release(entry.info);
      report := Report(entry.code, text);
    }

    /** Empty the queue and the heap. */
    method ErrorClear()
      requires Valid()
      modifies this`reported, queue, heap, heap.data, status`requests, status.regs
      ensures Valid() && Abs() == AfterClear(status.wiring, old(Abs()))
      ensures heap.count == heap.data.Length
    {
      while true
        invariant Valid() && status.Abs() == old(status.Abs()) && reported == old(reported)
        decreases |queue.contents|
      {
        var value := Take();
        if value.None? {
          break;
        }
        Release(value.value.info);
      }
      ReportsUse(queue.contents, heap.texts, heap.start, heap.data.Length);
      queue.Clear();
      EmitEmpty([]);
    }

    /** `*CLS`: empty the error queue, then clear every event register. */
    method CoreCls()
      requires Valid()
      modifies this`reported, queue, heap, heap.data, status`requests, status.regs
      ensures Valid() && Abs() == AfterCls(status.wiring, old(Abs()))
    {
      ErrorClear();
      for i := 0 to |status.table.groups|
        invariant Valid() && Contents() == []
        invariant reported == AfterClear(status.wiring, old(Abs())).reported
        invariant EventsCleared(status.wiring, status.Abs(), i)
                  == EventsCleared(status.wiring, AfterClear(status.wiring, old(Abs())).status, 0)
      {
        var event := status.table.groups[i].event;
        if event != STB {
          status.RegSet(event, {});
        }
      }
    }
  }
}
