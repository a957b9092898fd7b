/** The ring of error records. */
module Fifo {
  import opened Wrappers
  import opened StringHeap

  /** An error code and, where the heap had room, the address of its text. */
  datatype Entry = Entry(code: int, info: Option<nat>)

  lemma ModIsWrap(i: nat, size: nat)
    requires 0 < size && i < 2 * size
    ensures i % size == Wrap(i, size)
  {
    if i >= size {
      assert i == (i - size) + 1 * size;
    }
  }

  class Queue {
    const data: array<Entry>
    var wr: nat
    var rd: nat
    var count: nat

    // The queued entries, oldest first.
    ghost var contents: seq<Entry>

    ghost predicate Valid()
      reads this, data
    {
      && count == |contents| <= data.Length
      && (data.Length == 0 ==> rd == 0 && wr == 0)
      && (data.Length > 0 ==>
            && rd < data.Length && wr == Wrap(rd + count, data.Length)
            && forall i | 0 <= i < count :: data[Wrap(rd + i, data.Length)] == contents[i])
    }

    constructor (buffer: array<Entry>)
      ensures data == buffer && Valid() && contents == []
    {
      data := buffer;
      wr, rd, count := 0, 0, 0;
      contents := [];
    }

    method Clear()
      requires Valid()
      modifies this
      ensures Valid() && contents == []
    {
      wr, rd, count := 0, 0, 0;
      contents := [];
    }

    predicate IsEmpty()
      reads this
    {
      count == 0
    }

    predicate IsFull()
      reads this
    {
      count == data.Length
    }

    method Add(value: Entry) returns (ok: bool)
      requires Valid()
      modifies this, data
      ensures Valid()
      ensures ok <==> |old(contents)| < data.Length
      ensures contents == if ok then old(contents) + [value] else old(contents)
    {
      if IsFull() {
        return false;
      }
      ModIsWrap(wr + 1, data.Length);
      data[wr] := value;
      wr := (wr + 1) % data.Length;
      count := count + 1;
      contents := contents + [value];
      return true;
    }

    method Remove() returns (value: Option<Entry>)
      requires Valid()
      modifies this
      ensures Valid()
      ensures if old(contents) == [] then value == None && contents == []
              else value == Some(old(contents)[0]) && contents == old(contents)[1..]
    {
      if IsEmpty() {
        return None;
      }
      ModIsWrap(rd + 1, data.Length);
      assert data[Wrap(rd + 0, data.Length)] == contents[0];
      value := Some(data[rd]);
      ghost var was, start := contents, rd;
      rd := (rd + 1) % data.Length;
      count := count - 1;
      contents := was[1..];
      forall i | 0 <= i < count ensures data[Wrap(rd + i, data.Length)] == contents[i] {
        assert data[Wrap(start + (i + 1), data.Length)] == was[i + 1];
      }
    }

    method RemoveLast() returns (value: Option<Entry>)
      requires Valid()
      modifies this
      ensures Valid()
      ensures if old(contents) == [] then value == None && contents == []
              else value == Some(old(contents)[|old(contents)| - 1])
                   && contents == old(contents)[..|old(contents)| - 1]
    {
      if IsEmpty() {
        return None;
      }
      ModIsWrap(wr + data.Length - 1, data.Length);
      wr := (wr + data.Length - 1) % data.Length;
      assert data[Wrap(rd + (count - 1), data.Length)] == contents[count - 1];
      value := Some(data[wr]);
      count := count - 1;
      contents := contents[..count];
    }
  }
}
