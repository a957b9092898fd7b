/**
 The error queue as SCPI-99 section 21.8.1 describes it: a bounded sequence of
 reports together with the status registers that announce it.
 */
module ErrorSpec {
  import opened Wrappers
  import opened Status
  import opened StatusRuns

  const ESR_REQ: Bits := {1}
  const ESR_QER: Bits := {2}
  const ESR_DER: Bits := {3}
  const ESR_EER: Bits := {4}
  const ESR_CER: Bits := {5}
  const ESR_URQ: Bits := {6}
  const ESR_PON: Bits := {7}
  const ESR_OPC: Bits := {0}

  const QUEUE_OVERFLOW := -350

  /** A queued error: its code and the device-dependent text kept with it, if any. */
  datatype Report = Report(code: int, text: Option<string>)

  /** The room of the queue and of the text heap. */
  datatype Capacity = Capacity(size: nat, heap: nat)

  /** Heap cells that the texts of `q` take. */
  function Used(q: seq<Report>): nat {
    if q == [] then 0 else (if q[0].text.Some? then |q[0].text.value| + 1 else 0) + Used(q[1..])
  }

  lemma {:induction false} UsedSplit(a: seq<Report>, b: seq<Report>)
    ensures Used(a + b) == Used(a) + Used(b)
  {
    if a == [] {
      assert a + b == b;
    } else {
      UsedSplit(a[1..], b);
      assert (a + b)[1..] == a[1..] + b;
    }
  }

  /** A text is kept when it is not empty and the heap has room for it and its terminator. */
  function Kept(c: Capacity, q: seq<Report>, offered: Option<string>): Option<string> {
    if offered.Some? && offered.value != "" && Used(q) + |offered.value| + 1 <= c.heap then offered else None
  }

  /** On a full queue the newest entry gives way to an overflow report. */
  function Pushed(c: Capacity, q: seq<Report>, code: int, offered: Option<string>): seq<Report>
    requires |q| <= c.size && c.size > 0
  {
    if |q| < c.size then q + [Report(code, Kept(c, q, offered))]
    else q[..c.size - 1] + [Report(QUEUE_OVERFLOW, None)]
  }

  function Popped(q: seq<Report>): (r: (Report, seq<Report>))
  {
    if q == [] then (Report(0, None), []) else (q[0], q[1..])
  }

  /** The standard event bit of an error code: one class for every hundred below -99. */
  function EsrBit(err: int): Option<Bits> {
    if -199 <= err <= -100 then Some(ESR_CER)
    else if -299 <= err <= -200 then Some(ESR_EER)
    else if -399 <= err <= -300 then Some(ESR_DER)
    else if -499 <= err <= -400 then Some(ESR_QER)
    else if -599 <= err <= -500 then Some(ESR_PON)
    else if -699 <= err <= -600 then Some(ESR_URQ)
    else if -799 <= err <= -700 then Some(ESR_REQ)
    else if -899 <= err <= -800 then Some(ESR_OPC)
    else None
  }

  /** One row of the source's table of error classes, bounds as written there. */
  datatype ErrorClass = ErrorClass(from: int, to: int, bit: Bits)

  const CLASSES: seq<ErrorClass> := [
    ErrorClass(-100, -199, ESR_CER),
    ErrorClass(-200, -299, ESR_EER),
    ErrorClass(-300, -399, ESR_DER),
    ErrorClass(1, 32767, ESR_DER),
    ErrorClass(-400, -499, ESR_QER),
    ErrorClass(-500, -599, ESR_PON),
    ErrorClass(-600, -699, ESR_URQ),
    ErrorClass(-700, -799, ESR_REQ),
    ErrorClass(-800, -899, ESR_OPC)]

  predicate InClass(c: ErrorClass, err: int) {
    err <= c.from && err >= c.to
  }

  /** The bit of the class that `err` is in, looking at the first `n` rows. */
  function ClassBit(err: int, n: nat): Option<Bits>
    requires n <= |CLASSES|
  {
    if n == 0 then None
    else if InClass(CLASSES[n - 1], err) then Some(CLASSES[n - 1].bit)
    else ClassBit(err, n - 1)
  }

  /** No code is in two classes. */
  lemma ClassesDisjoint(err: int, n: nat)
    requires n < |CLASSES| && InClass(CLASSES[n], err)
    ensures ClassBit(err, n) == None
  {
    ClassUnrolled(err, n);
  }

  lemma {:induction false} ClassUnrolled(err: int, n: nat)
    requires n <= |CLASSES|
    requires forall i | 0 <= i < n :: !InClass(CLASSES[i], err)
    ensures ClassBit(err, n) == None
  {
    if n > 0 {
      ClassUnrolled(err, n - 1);
    }
  }

  /** The table gives every code its class; only codes from -899 to -100 have one. */
  lemma TableClass(err: int)
    ensures ClassBit(err, |CLASSES|) == EsrBit(err)
    ensures EsrBit(err).Some? <==> -899 <= err <= -100
  {
    var n := if err >= -399 then -err / 100 - 1 else -err / 100;
    if -899 <= err <= -100 {
      assert InClass(CLASSES[n], err);
      LaterClasses(err, n, |CLASSES|);
    } else {
      ClassUnrolled(err, |CLASSES|);
    }
  }

  lemma {:induction false} LaterClasses(err: int, n: nat, m: nat)
    requires n < m <= |CLASSES| && InClass(CLASSES[n], err)
    ensures ClassBit(err, m) == Some(CLASSES[n].bit)
  {
    if n < m - 1 {
      LaterClasses(err, n, m - 1);
      if InClass(CLASSES[m - 1], err) {
        ClassesDisjoint(err, m - 1);
      }
    }
  }

  /** Queue, registers, and the codes passed to the error callback. */
  datatype System = System(queue: seq<Report>, status: State, reported: seq<int>)

  ghost function SetBits(w: Wiring, s: State, name: nat, bits: Bits): (s': State)
    requires |s.regs| == |w.t.regs|
    ensures |s'.regs| == |w.t.regs|
  {
    SetReg(w, s, name, Get(s.regs, Some(name)) + bits)
  }

  ghost function ClearBits(w: Wiring, s: State, name: nat, bits: Bits): (s': State)
    requires |s.regs| == |w.t.regs|
    ensures |s'.regs| == |w.t.regs|
  {
    SetReg(w, s, name, Get(s.regs, Some(name)) - bits)
  }

  ghost function EsrSet(w: Wiring, s: State, err: int): (s': State)
    requires |s.regs| == |w.t.regs|
    ensures |s'.regs| == |w.t.regs|
  {
    if EsrBit(err).Some? then SetBits(w, s, ESR, EsrBit(err).value) else s
  }

  ghost function Emitted(w: Wiring, x: System, err: int): (x': System)
    requires |x.status.regs| == |w.t.regs|
    ensures |x'.status.regs| == |w.t.regs| && x'.queue == x.queue
  {
    x.(status := SetBits(w, x.status, STB, STB_QMA), reported := x.reported + [err])
  }

  ghost function EmittedEmpty(w: Wiring, x: System): (x': System)
    requires |x.status.regs| == |w.t.regs|
    ensures |x'.status.regs| == |w.t.regs| && x'.queue == x.queue
  {
    if x.queue == [] && AnyOf(Get(x.status.regs, Some(STB)), STB_QMA)
    then x.(status := ClearBits(w, x.status, STB, STB_QMA), reported := x.reported + [0])
    else x
  }

  ghost function AfterPush(w: Wiring, c: Capacity, x: System, err: int, offered: Option<string>): (x': System)
    requires |x.status.regs| == |w.t.regs| && |x.queue| <= c.size && c.size > 0
    ensures |x'.status.regs| == |w.t.regs| && |x'.queue| <= c.size
  {
    var x1 := System(Pushed(c, x.queue, err, offered), EsrSet(w, x.status, err), x.reported);
    var x2 := Emitted(w, x1, err);
    if |x.queue| < c.size then x2 else Emitted(w, x2, QUEUE_OVERFLOW)
  }

  ghost function AfterPop(w: Wiring, x: System): (x': System)
    requires |x.status.regs| == |w.t.regs|
    ensures |x'.status.regs| == |w.t.regs| && |x'.queue| <= |x.queue|
  {
    EmittedEmpty(w, x.(queue := Popped(x.queue).1))
  }

  ghost function AfterClear(w: Wiring, x: System): (x': System)
    requires |x.status.regs| == |w.t.regs|
    ensures |x'.status.regs| == |w.t.regs| && x'.queue == []
  {
    EmittedEmpty(w, x.(queue := []))
  }

  /** Every group's event register but the status byte, set to zero in turn from group `g` on. */
  ghost function EventsCleared(w: Wiring, s: State, g: nat): (s': State)
    requires |s.regs| == |w.t.regs| && g <= |w.t.groups|
    ensures |s'.regs| == |w.t.regs|
    decreases |w.t.groups| - g
  {
    if g == |w.t.groups| then s
    else
      EventsCleared(w, if w.t.groups[g].event != STB then SetReg(w, s, w.t.groups[g].event, {}) else s, g + 1)
  }

  ghost function AfterCls(w: Wiring, x: System): (x': System)
    requires |x.status.regs| == |w.t.regs|
    ensures |x'.status.regs| == |w.t.regs|
  {
    var x1 := AfterClear(w, x);
    x1.(status := EventsCleared(w, x1.status, 0))
  }
}
