/** What every run of error queue operations and register writes keeps. */
module ErrorRuns {
  import opened Wrappers
  import opened Status
  import opened StatusRuns
  import opened ErrorSpec

  /** The error-available bit of the status byte is no group's summary bit. */
  ghost predicate QmaFree(w: Wiring) {
    forall g | 0 < g < |w.t.groups| && w.t.groups[g].parent == Some(STB) :: w.t.groups[g].parentBit * STB_QMA == {}
  }

  lemma StandardQmaFree()
    ensures QmaFree(STANDARD_WIRING)
  {
    QmaDistinct();
  }

  lemma QmaDistinct()
    ensures STB_ESR * STB_QMA == {} && STB_OPS * STB_QMA == {} && STB_QES * STB_QMA == {} && STB_SRQ * STB_QMA == {}
    ensures STB_QMA * STB_SRQ == {}
  {
  }

  function Qma(regs: seq<Bits>): Bits {
    Get(regs, Some(STB)) * STB_QMA
  }

  lemma RequestKeepsQma(stb: Bits, sre: Bits)
    ensures WithRequest(stb, sre) * STB_QMA == stb * STB_QMA
  {
    QmaDistinct();
    RequestSparesBit(stb, sre, STB_QMA);
  }

  /** No write but one of the status byte itself touches the error-available bit. */
  lemma {:induction false} WriteKeepsQma(w: Wiring, s: State, name: nat, val: Bits)
    requires QmaFree(w) && |s.regs| == |w.t.regs| && name < |w.t.regs|
    ensures Qma(Written(w, s, name, val).regs) == if name == STB then val * STB_QMA else Qma(s.regs)
    decreases w.Height(name)
  {
    if s.regs[name] != val {
      assert w.t.RegOk(name) && w.t.RegOk(STB);
      var s1, next := WriteStep(w, s, name, val);
      if next.Some? {
        var g := w.t.regs[name].group;
        assert w.t.GroupOk(g);
        WriteKeepsQma(w, s1, next.value.0, next.value.1);
        if next.value.0 == STB {
          SummarisedOther(w.t.groups[g], s1.regs, val, s1.regs[STB], STB_QMA);
        }
      } else {
        StoredQma(w.t, s, name, val);
      }
    }
  }

  lemma StoredQma(t: Table, s: State, name: nat, val: Bits)
    requires name < |t.regs| == |s.regs| && |t.regs| > 1
    ensures Qma(Stored(t, s, name, val).regs) == if name == STB then val * STB_QMA else Qma(s.regs)
  {
    var regs := s.regs[name := val];
    RequestKeepsQma(regs[STB], regs[SRE]);
  }

  /** A group whose event register is zero reports nothing. */
  ghost predicate Quiet(w: Wiring, regs: seq<Bits>) {
    forall g | 0 < g < |w.t.groups| :: EventOf(w.t, regs, g) == {} ==> SummaryBits(w.t, regs, g) == {}
  }

  /** Writing `val` to `name` leaves alone the summary bits kept there. */
  ghost predicate SparesSummaries(w: Wiring, regs: seq<Bits>, name: nat, val: Bits) {
    forall g | 0 < g < |w.t.groups| && w.t.groups[g].parent == Some(name) ::
      val * w.t.groups[g].parentBit == SummaryBits(w.t, regs, g)
  }

  lemma StepKeepsQuiet(t: Table, before: seq<Bits>, name: nat, val: Bits, after: seq<Bits>, g: nat)
    requires g < |t.groups| && SummaryStep(t, before, name, val, after, g)
    requires t.groups[g].parent == Some(name) ==> val * t.groups[g].parentBit == SummaryBits(t, before, g)
    requires EventOf(t, before, g) == {} ==> SummaryBits(t, before, g) == {}
    ensures EventOf(t, after, g) == {} ==> SummaryBits(t, after, g) == {}
  {
    ZeroBits(EnableOf(t.groups[g], after));
    RespectedTracks(t, before, Write(name, val), after, g);
  }

  lemma WriteKeepsQuiet(w: SummaryWiring, s: State, name: nat, val: Bits)
    requires |s.regs| == |w.t.regs| && Quiet(w, s.regs) && SparesSummaries(w, s.regs, name, val)
    ensures Quiet(w, SetReg(w, s, name, val).regs)
  {
    if name < |w.t.regs| {
      forall g | 0 < g < |w.t.groups|
        ensures var after := Written(w, s, name, val).regs;
                EventOf(w.t, after, g) == {} ==> SummaryBits(w.t, after, g) == {}
      {
        WriteSummary(w, s, name, val, g);
        StepKeepsQuiet(w.t, s.regs, name, val, Written(w, s, name, val).regs, g);
      }
    }
  }

  /** What every reachable state of queue and registers has. */
  ghost predicate QueueOk(w: Wiring, c: Capacity, x: System) {
    && |x.status.regs| == |w.t.regs|
    && |x.queue| <= c.size && Used(x.queue) <= c.heap
    && (Qma(x.status.regs) != {} <==> x.queue != [])
  }

  datatype Op =
    | Push(err: int, offered: Option<string>)
    | Pop
    | Clear
    | Cls
    | Direct(name: nat, val: Bits)

  /** Direct writes of the status byte leave its error-available bit alone. */
  ghost predicate SparesQma(x: System, op: Op) {
    op.Direct? && op.name == STB ==> op.val * STB_QMA == Qma(x.status.regs)
  }

  ghost function Step(w: Wiring, c: Capacity, x: System, op: Op): (x': System)
    requires |x.status.regs| == |w.t.regs| && |x.queue| <= c.size && c.size > 0
    ensures |x'.status.regs| == |w.t.regs| && |x'.queue| <= c.size
  {
    match op
    case Push(err, offered) => AfterPush(w, c, x, err, offered)
    case Pop => AfterPop(w, x)
    case Clear => AfterClear(w, x)
    case Cls => AfterCls(w, x)
    case Direct(name, val) => x.(status := SetReg(w, x.status, name, val))
  }

  lemma SetKeepsQma(w: Wiring, s: State, name: nat, val: Bits)
    requires QmaFree(w) && |s.regs| == |w.t.regs| && name != STB
    ensures Qma(SetReg(w, s, name, val).regs) == Qma(s.regs)
  {
    if name < |w.t.regs| {
      WriteKeepsQma(w, s, name, val);
    }
  }

  lemma EventsKeepQma(w: Wiring, s: State, g: nat)
    requires QmaFree(w) && |s.regs| == |w.t.regs| && g <= |w.t.groups|
    ensures Qma(EventsCleared(w, s, g).regs) == Qma(s.regs)
    decreases |w.t.groups| - g
  {
    if g < |w.t.groups| {
      if w.t.groups[g].event != STB {
        SetKeepsQma(w, s, w.t.groups[g].event, {});
        EventsKeepQma(w, SetReg(w, s, w.t.groups[g].event, {}), g + 1);
      } else {
        EventsKeepQma(w, s, g + 1);
      }
    }
  }

  lemma EmitSetsQma(w: Wiring, x: System, err: int)
    requires QmaFree(w) && |x.status.regs| == |w.t.regs|
    ensures Qma(Emitted(w, x, err).status.regs) != {}
  {
    var stb := Get(x.status.regs, Some(STB));
    assert (stb + STB_QMA) * STB_QMA != {} by {
      SetOwnBit(stb, STB_QMA);
    }
    WriteKeepsQma(w, x.status, STB, stb + STB_QMA);
  }

  /** After an empty queue is announced the bit is right, if it was set for a non-empty one. */
  lemma EmitEmptyQma(w: Wiring, x: System)
    requires QmaFree(w) && |x.status.regs| == |w.t.regs|
    requires x.queue != [] ==> Qma(x.status.regs) != {}
    ensures Qma(EmittedEmpty(w, x).status.regs) != {} <==> x.queue != []
  {
    WriteKeepsQma(w, x.status, STB, Get(x.status.regs, Some(STB)) - STB_QMA);
    SetOwnBit(Get(x.status.regs, Some(STB)), STB_QMA);
  }

  lemma PushedFits(c: Capacity, q: seq<Report>, code: int, offered: Option<string>)
    requires |q| <= c.size && c.size > 0 && Used(q) <= c.heap
    ensures 0 < |Pushed(c, q, code, offered)| <= c.size && Used(Pushed(c, q, code, offered)) <= c.heap
  {
    if |q| < c.size {
      UsedSplit(q, [Report(code, Kept(c, q, offered))]);
    } else {
      var kept := q[..c.size - 1];
      UsedSplit(kept, q[c.size - 1..]);
      assert q == kept + q[c.size - 1..];
      UsedSplit(kept, [Report(QUEUE_OVERFLOW, None)]);
    }
  }

  lemma PushKeepsQueue(w: Wiring, c: Capacity, x: System, err: int, offered: Option<string>)
    requires QmaFree(w) && c.size > 0 && QueueOk(w, c, x)
    ensures QueueOk(w, c, AfterPush(w, c, x, err, offered))
  {
    var x1 := System(Pushed(c, x.queue, err, offered), EsrSet(w, x.status, err), x.reported);
    PushedFits(c, x.queue, err, offered);
    EmitSetsQma(w, x1, err);
    EmitSetsQma(w, Emitted(w, x1, err), QUEUE_OVERFLOW);
  }

  lemma PopKeepsQueue(w: Wiring, c: Capacity, x: System)
    requires QmaFree(w) && QueueOk(w, c, x)
    ensures QueueOk(w, c, AfterPop(w, x))
  {
    if x.queue != [] {
      UsedSplit(x.queue[..1], x.queue[1..]);
      assert x.queue == x.queue[..1] + x.queue[1..];
    }
    EmitEmptyQma(w, x.(queue := Popped(x.queue).1));
  }

  /**
   Every step keeps the queue within its bounds and the error-available bit set
   exactly while the queue is not empty.
   */
  lemma StepKeepsQueue(w: Wiring, c: Capacity, x: System, op: Op)
    requires QmaFree(w) && c.size > 0 && QueueOk(w, c, x) && SparesQma(x, op)
    ensures QueueOk(w, c, Step(w, c, x, op))
  {
    match op
    case Push(err, offered) => PushKeepsQueue(w, c, x, err, offered);
    case Pop => PopKeepsQueue(w, c, x);
    case Clear => EmitEmptyQma(w, x.(queue := []));
    case Cls =>
      EmitEmptyQma(w, x.(queue := []));
      EventsKeepQma(w, AfterClear(w, x).status, 0);
    case Direct(name, val) =>
      if name < |w.t.regs| {
        WriteKeepsQma(w, x.status, name, val);
      }
  }

  ghost function Start(w: Wiring): (x: System)
    ensures |x.status.regs| == |w.t.regs| && x.queue == []
  {
    System([], PowerOn(w).state, [])
  }

  ghost function RunOps(w: Wiring, c: Capacity, ops: seq<Op>): (x: System)
    requires c.size > 0
    ensures |x.status.regs| == |w.t.regs| && |x.queue| <= c.size
  {
    if ops == [] then Start(w) else Step(w, c, RunOps(w, c, ops[..|ops| - 1]), ops[|ops| - 1])
  }

  ghost predicate AllSpareQma(w: Wiring, c: Capacity, ops: seq<Op>)
    requires c.size > 0
  {
    forall i | 0 <= i < |ops| :: SparesQma(RunOps(w, c, ops[..i]), ops[i])
  }

  /** Every run that leaves the bit to the library has it set exactly while an error is queued. */
  lemma {:induction false} RunKeepsQueue(w: Wiring, c: Capacity, ops: seq<Op>)
    requires QmaFree(w) && c.size > 0 && AllSpareQma(w, c, ops)
    ensures QueueOk(w, c, RunOps(w, c, ops))
  {
    if ops == [] {
      ZeroBits(STB_QMA);
    } else {
      var init := ops[..|ops| - 1];
      assert forall i | 0 <= i < |init| :: init[..i] == ops[..i];
      RunKeepsQueue(w, c, init);
      StepKeepsQueue(w, c, RunOps(w, c, init), ops[|ops| - 1]);
    }
  }

  lemma QmaSparesBit(stb: Bits, bit: Bits)
    requires bit * STB_QMA == {}
    ensures (stb + STB_QMA) * bit == stb * bit && (stb - STB_QMA) * bit == stb * bit
  {
    assert STB_QMA * bit == bit * STB_QMA;
    SetOther(stb, STB_QMA, bit);
  }

  lemma SetQmaSpares(w: Wiring, regs: seq<Bits>)
    requires QmaFree(w)
    ensures SparesSummaries(w, regs, STB, Get(regs, Some(STB)) + STB_QMA)
  {
    forall g | 0 < g < |w.t.groups| && w.t.groups[g].parent == Some(STB)
      ensures (Get(regs, Some(STB)) + STB_QMA) * w.t.groups[g].parentBit == SummaryBits(w.t, regs, g)
    {
      QmaSparesBit(Get(regs, Some(STB)), w.t.groups[g].parentBit);
    }
  }

  lemma ClearQmaSpares(w: Wiring, regs: seq<Bits>)
    requires QmaFree(w)
    ensures SparesSummaries(w, regs, STB, Get(regs, Some(STB)) - STB_QMA)
  {
    forall g | 0 < g < |w.t.groups| && w.t.groups[g].parent == Some(STB)
      ensures (Get(regs, Some(STB)) - STB_QMA) * w.t.groups[g].parentBit == SummaryBits(w.t, regs, g)
    {
      QmaSparesBit(Get(regs, Some(STB)), w.t.groups[g].parentBit);
    }
  }

  lemma SetQmaKeepsQuiet(w: SummaryWiring, s: State)
    requires QmaFree(w) && |s.regs| == |w.t.regs| && Quiet(w, s.regs)
    ensures Quiet(w, SetBits(w, s, STB, STB_QMA).regs)
  {
    SetQmaSpares(w, s.regs);
    WriteKeepsQuiet(w, s, STB, Get(s.regs, Some(STB)) + STB_QMA);
  }

  lemma ClearQmaKeepsQuiet(w: SummaryWiring, s: State)
    requires QmaFree(w) && |s.regs| == |w.t.regs| && Quiet(w, s.regs)
    ensures Quiet(w, ClearBits(w, s, STB, STB_QMA).regs)
  {
    ClearQmaSpares(w, s.regs);
    WriteKeepsQuiet(w, s, STB, Get(s.regs, Some(STB)) - STB_QMA);
  }

  /** An event register is nobody's parent, so writing it spares every summary bit. */
  lemma EventKeepsQuiet(w: SummaryWiring, s: State, g: nat, val: Bits)
    requires |s.regs| == |w.t.regs| && Quiet(w, s.regs) && 0 < g < |w.t.groups|
    ensures Quiet(w, SetReg(w, s, w.t.groups[g].event, val).regs)
  {
    assert w.t.GroupOk(g) && w.t.RegOk(STB);
    forall h | 0 < h < |w.t.groups| ensures w.t.groups[h].parent != Some(w.t.groups[g].event) {
      assert w.t.GroupOk(h);
    }
    WriteKeepsQuiet(w, s, w.t.groups[g].event, val);
  }

  lemma StatusOnly(w: Wiring, s: State, val: Bits, r: nat)
    requires |s.regs| == |w.t.regs| && r < |w.t.regs| && r != STB
    ensures Written(w, s, STB, val).regs[r] == s.regs[r]
  {
    assert w.t.RegOk(STB);
    if s.regs[STB] != val {
      var s1, next := WriteStep(w, s, STB, val);
    }
  }

  /** Direct writes also leave the summary bits to the library. */
  ghost predicate SparesAll(w: Wiring, x: System, op: Op) {
    SparesQma(x, op) && (op.Direct? ==> SparesSummaries(w, x.status.regs, op.name, op.val))
  }

  lemma EventsKeepQuiet(w: SummaryWiring, s: State, g: nat)
    requires |s.regs| == |w.t.regs| && g <= |w.t.groups| && Quiet(w, s.regs)
    ensures Quiet(w, EventsCleared(w, s, g).regs)
    decreases |w.t.groups| - g
  {
    if g < |w.t.groups| {
      if w.t.groups[g].event != STB {
        EventKeepsQuiet(w, s, g, {});
        EventsKeepQuiet(w, SetReg(w, s, w.t.groups[g].event, {}), g + 1);
      } else {
        EventsKeepQuiet(w, s, g + 1);
      }
    }
  }

  lemma EsrKeepsQuiet(w: SummaryWiring, s: State, err: int)
    requires |s.regs| == |w.t.regs| && Quiet(w, s.regs) && StandardEsr(w)
    ensures Quiet(w, EsrSet(w, s, err).regs)
  {
    if EsrBit(err).Some? {
      EventKeepsQuiet(w, s, 1, Get(s.regs, Some(ESR)) + EsrBit(err).value);
    }
  }

  /** The standard event register belongs to group 1, as in every table the library builds. */
  ghost predicate StandardEsr(w: Wiring) {
    |w.t.groups| > 1 && w.t.groups[1].event == ESR
  }

  lemma StepKeepsQuietness(w: SummaryWiring, c: Capacity, x: System, op: Op)
    requires QmaFree(w) && StandardEsr(w) && c.size > 0 && QueueOk(w, c, x)
    requires Quiet(w, x.status.regs) && SparesAll(w, x, op)
    ensures Quiet(w, Step(w, c, x, op).status.regs)
  {
    match op
    case Push(err, offered) =>
      var s1 := EsrSet(w, x.status, err);
      EsrKeepsQuiet(w, x.status, err);
      SetQmaKeepsQuiet(w, s1);
      SetQmaKeepsQuiet(w, SetBits(w, s1, STB, STB_QMA));
    case Pop => ClearQmaKeepsQuiet(w, x.status);
    case Clear => ClearQmaKeepsQuiet(w, x.status);
    case Cls =>
      ClearQmaKeepsQuiet(w, x.status);
      EventsKeepQuiet(w, AfterClear(w, x).status, 0);
    case Direct(name, val) => WriteKeepsQuiet(w, x.status, name, val);
  }

  ghost predicate AllSpare(w: Wiring, c: Capacity, ops: seq<Op>)
    requires c.size > 0
  {
    forall i | 0 <= i < |ops| :: SparesAll(w, RunOps(w, c, ops[..i]), ops[i])
  }

  lemma {:induction false} RunKeepsQuiet(w: SummaryWiring, c: Capacity, ops: seq<Op>)
    requires QmaFree(w) && StandardEsr(w) && c.size > 0 && AllSpare(w, c, ops)
    ensures QueueOk(w, c, RunOps(w, c, ops)) && Quiet(w, RunOps(w, c, ops).status.regs)
  {
    RunKeepsQueue(w, c, ops);
    if ops == [] {
      forall g | 0 < g < |w.t.groups| ensures SummaryBits(w.t, PowerOn(w).state.regs, g) == {} {
        assert w.t.GroupOk(g);
        ZeroBits(w.t.groups[g].parentBit);
      }
    } else {
      var init := ops[..|ops| - 1];
      assert forall i | 0 <= i < |init| :: init[..i] == ops[..i];
      RunKeepsQuiet(w, c, init);
      StepKeepsQuietness(w, c, RunOps(w, c, init), ops[|ops| - 1]);
    }
  }
}
