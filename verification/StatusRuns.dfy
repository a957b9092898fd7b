/**
 Whole runs of register writes from power on, and the register file that the
 library keeps, updated in place by the cascade loop.
 */
module StatusRuns {
  import opened Wrappers
  import opened Status

  /** A direct write of one register, as `SCPI_RegSet` receives it. */
  datatype Write = Write(name: nat, val: Bits)

  /**
   The state together with, for every group, the enable value that was in force
   when its event register last changed.
   */
  datatype History = History(state: State, inForce: seq<Bits>)

  ghost predicate Fits(w: Wiring, h: History) {
    |h.state.regs| == |w.t.regs| && |h.inForce| == |w.t.groups|
  }

  /** Power on: the context is cleared to zero. */
  ghost function PowerOn(w: Wiring): (h: History)
    ensures Fits(w, h)
  {
    History(State(seq(|w.t.regs|, _ => {}), []), seq(|w.t.groups|, _ => {}))
  }

  ghost function InForce(w: Wiring, h: History, after: seq<Bits>, g: nat): Bits
    requires Fits(w, h) && g < |w.t.groups|
  {
    if EventOf(w.t, after, g) == EventOf(w.t, h.state.regs, g) then h.inForce[g] else EnableOf(w.t.groups[g], after)
  }

  /** A name outside the table is ignored. */
  ghost function SetReg(w: Wiring, s: State, name: nat, val: Bits): (s': State)
    requires |s.regs| == |w.t.regs|
    ensures |s'.regs| == |w.t.regs|
  {
    if name < |w.t.regs| then Written(w, s, name, val) else s
  }

  ghost function Perform(w: Wiring, h: History, x: Write): (h': History)
    requires Fits(w, h)
    ensures Fits(w, h')
  {
    var s' := SetReg(w, h.state, x.name, x.val);
    History(s', seq(|w.t.groups|, g requires 0 <= g < |w.t.groups| => InForce(w, h, s'.regs, g)))
  }

  ghost function Run(w: Wiring, xs: seq<Write>): (h: History)
    ensures Fits(w, h)
  {
    if xs == [] then PowerOn(w) else Perform(w, Run(w, xs[..|xs| - 1]), xs[|xs| - 1])
  }

  /** In every reachable state the service request bit is right, whatever was written. */
  lemma {:induction false} RunKeepsRequest(w: Wiring, xs: seq<Write>)
    ensures RequestOk(Run(w, xs).state.regs)
  {
    if xs != [] {
      var h, x := Run(w, xs[..|xs| - 1]), xs[|xs| - 1];
      RunKeepsRequest(w, xs[..|xs| - 1]);
      if x.name < |w.t.regs| {
        WriteKeepsRequest(w, h.state, x.name, x.val);
      }
    } else {
      ZeroBits({});
    }
  }

  lemma ZeroBits(a: Bits)
    ensures {} * a == {} && a * {} == {}
  {
  }

  /** The write leaves alone the summary bits that groups keep in the register it names. */
  ghost predicate Respects(w: Wiring, h: History, x: Write)
    requires Fits(w, h)
  {
    forall g | 0 < g < |w.t.groups| && w.t.groups[g].parent == Some(x.name) ::
      x.val * w.t.groups[g].parentBit == SummaryBits(w.t, h.state.regs, g)
  }

  ghost predicate AllRespect(w: Wiring, xs: seq<Write>) {
    forall i | 0 <= i < |xs| :: Respects(w, Run(w, xs[..i]), xs[i])
  }

  /** The summary bit of `g` says whether a bit enabled when the event register last changed is set. */
  ghost predicate SummaryOk(w: Wiring, h: History, g: nat)
    requires Fits(w, h) && g < |w.t.groups|
  {
    SummaryBits(w.t, h.state.regs, g) != {} <==> AnyOf(EventOf(w.t, h.state.regs, g), h.inForce[g])
  }

  lemma RespectedTracks(t: Table, before: seq<Bits>, x: Write, after: seq<Bits>, g: nat)
    requires g < |t.groups| && SummaryStep(t, before, x.name, x.val, after, g)
    requires t.groups[g].parent == Some(x.name) ==> x.val * t.groups[g].parentBit == SummaryBits(t, before, g)
    ensures SummaryTracks(t, before, after, g)
  {
  }

  lemma TracksKeeps(w: Wiring, h: History, after: seq<Bits>, g: nat)
    requires Fits(w, h) && 0 < g < |w.t.groups| && SummaryOk(w, h, g)
    requires SummaryTracks(w.t, h.state.regs, after, g)
    ensures SummaryBits(w.t, after, g) != {} <==> AnyOf(EventOf(w.t, after, g), InForce(w, h, after, g))
  {
  }

  /** A write that respects the summary bits keeps every one of them right. */
  lemma PerformKeepsSummary(w: SummaryWiring, h: History, x: Write, g: nat)
    requires Fits(w, h) && Respects(w, h, x) && 0 < g < |w.t.groups|
    requires SummaryOk(w, h, g)
    ensures SummaryOk(w, Perform(w, h, x), g)
  {
    if x.name < |w.t.regs| {
      WriteSummary(w, h.state, x.name, x.val, g);
      RespectedTracks(w.t, h.state.regs, x, Written(w, h.state, x.name, x.val).regs, g);
    }
    TracksKeeps(w, h, SetReg(w, h.state, x.name, x.val).regs, g);
  }

  lemma PowerOnSummary(w: Wiring, g: nat)
    requires 0 < g < |w.t.groups|
    ensures SummaryOk(w, PowerOn(w), g)
  {
    assert w.t.GroupOk(g);
    ZeroBits(w.t.groups[g].parentBit);
    ZeroBits({});
  }

  /** In every state reached by writes that respect the summary bits, all of them are right. */
  lemma {:induction false} RunKeepsSummary(w: SummaryWiring, xs: seq<Write>, g: nat)
    requires AllRespect(w, xs) && 0 < g < |w.t.groups|
    ensures SummaryOk(w, Run(w, xs), g)
  {
    if xs == [] {
      PowerOnSummary(w, g);
    } else {
      var ys := xs[..|xs| - 1];
      assert forall i | 0 <= i < |ys| :: ys[..i] == xs[..i];
      RunKeepsSummary(w, ys, g);
      PerformKeepsSummary(w, Run(w, ys), xs[|xs| - 1], g);
    }
  }

  /** Enable registers are written only while their event register is zero. */
  ghost predicate Disciplined(w: Wiring, h: History, x: Write)
    requires Fits(w, h)
  {
    forall g | 0 < g < |w.t.groups| && w.t.groups[g].enable == Some(x.name) ::
      EventOf(w.t, h.state.regs, g) == {}
  }

  ghost predicate AllDisciplined(w: Wiring, xs: seq<Write>) {
    forall i | 0 <= i < |xs| :: Disciplined(w, Run(w, xs[..i]), xs[i])
  }

  ghost predicate InForceNow(w: Wiring, h: History, g: nat)
    requires Fits(w, h) && g < |w.t.groups|
  {
    EventOf(w.t, h.state.regs, g) == {} || h.inForce[g] == EnableOf(w.t.groups[g], h.state.regs)
  }

  lemma PerformKeepsInForce(w: Wiring, h: History, x: Write, g: nat)
    requires Fits(w, h) && Disciplined(w, h, x) && 0 < g < |w.t.groups|
    requires InForceNow(w, h, g)
    ensures InForceNow(w, Perform(w, h, x), g)
  {
    assert w.t.GroupOk(g);
    if x.name < |w.t.regs| {
      var e, after := w.t.groups[g].enable, Written(w, h.state, x.name, x.val).regs;
      if e.Some? && after[e.value] != h.state.regs[e.value] {
        WriteReach(w, h.state, x.name, x.val, e.value);
        PathClimbs(w, x.name, e.value);
        var event := w.t.groups[g].event;
        if after[event] != h.state.regs[event] {
          WriteReach(w, h.state, x.name, x.val, event);
          PathClimbs(w, x.name, event);
        }
      }
    }
  }

  lemma {:induction false} RunKeepsInForce(w: Wiring, xs: seq<Write>, g: nat)
    requires AllDisciplined(w, xs) && 0 < g < |w.t.groups|
    ensures InForceNow(w, Run(w, xs), g)
  {
    if xs == [] {
      assert w.t.GroupOk(g);
    } else {
      var ys := xs[..|xs| - 1];
      assert forall i | 0 <= i < |ys| :: ys[..i] == xs[..i];
      RunKeepsInForce(w, ys, g);
      PerformKeepsInForce(w, Run(w, ys), xs[|xs| - 1], g);
    }
  }

  lemma InForceAlike(w: Wiring, h: History, g: nat)
    requires Fits(w, h) && 0 < g < |w.t.groups| && InForceNow(w, h, g)
    ensures var event := EventOf(w.t, h.state.regs, g);
            AnyOf(event, h.inForce[g]) <==> AnyOf(event, EnableOf(w.t.groups[g], h.state.regs))
  {
    if EventOf(w.t, h.state.regs, g) == {} {
      ZeroBits(h.inForce[g]);
      ZeroBits(EnableOf(w.t.groups[g], h.state.regs));
    }
  }

  /** Under that discipline the summary bits follow the present enable registers. */
  lemma DisciplinedSummary(w: SummaryWiring, xs: seq<Write>, g: nat)
    requires AllRespect(w, xs) && AllDisciplined(w, xs) && 0 < g < |w.t.groups|
    ensures var regs := Run(w, xs).state.regs;
            SummaryBits(w.t, regs, g) != {} <==> AnyOf(EventOf(w.t, regs, g), EnableOf(w.t.groups[g], regs))
  {
    RunKeepsSummary(w, xs, g);
    RunKeepsInForce(w, xs, g);
    InForceAlike(w, Run(w, xs), g);
  }

  lemma EnableWriteStores(w: Wiring, s: State, val: Bits, g: nat)
    requires |s.regs| == |w.t.regs| && 0 < g < |w.t.groups| && w.t.groups[g].enable.Some?
    ensures w.t.groups[g].enable.value < |w.t.regs|
    ensures var after := Written(w, s, w.t.groups[g].enable.value, val).regs;
            && EventOf(w.t, after, g) == EventOf(w.t, s.regs, g)
            && SummaryBits(w.t, after, g) == SummaryBits(w.t, s.regs, g)
            && EnableOf(w.t.groups[g], after) == val
  {
    assert w.t.GroupOk(g) && w.t.RegOk(w.t.groups[g].enable.value);
    var e := w.t.groups[g].enable.value;
    assert Written(w, s, e, val).regs == s.regs[e := val];
    StoredElsewhere(w.t, s.regs, e, val, g);
  }

  /**
   A write of an enable register leaves the summary bit right for the new enable
   value exactly when old and new value select alike from the event register.
   */
  lemma EnableWriteExact(w: Wiring, h: History, val: Bits, g: nat)
    requires Fits(w, h) && 0 < g < |w.t.groups| && w.t.groups[g].enable.Some?
    requires SummaryOk(w, h, g) && InForceNow(w, h, g)
    ensures var event := EventOf(w.t, h.state.regs, g);
            var after := SetReg(w, h.state, w.t.groups[g].enable.value, val).regs;
            && EventOf(w.t, after, g) == event && EnableOf(w.t.groups[g], after) == val
            && ((SummaryBits(w.t, after, g) != {} <==> AnyOf(event, val))
                <==> (AnyOf(event, val) <==> AnyOf(event, EnableOf(w.t.groups[g], h.state.regs))))
  {
    EnableWriteStores(w, h.state, val, g);
    InForceAlike(w, h, g);
  }

  const STANDARD_WIRING: SummaryWiring := Wires(STANDARD, [0, 1, 1, 1])

  const CLEAR: seq<Bits> := [{}, {}, {}, {}, {}, {}, {}, {}, {}, {}]

  lemma EventSeen()
    ensures Written(STANDARD_WIRING, State(CLEAR, []), ESR, {0}).regs == CLEAR[ESR := {0}]
  {
    var s1 := State(CLEAR[ESR := {0}], []);
    assert Stored(STANDARD, State(CLEAR, []), ESR, {0}).regs == s1.regs;
    assert !AnyOf({0}, {}) && WithSummary(false, {}, STB_ESR) == {};
    assert Written(STANDARD_WIRING, s1, STB, {}) == s1;
  }

  /** They may differ: an event seen first and enabled later is not reported. */
  lemma EnableNotRefreshed()
    ensures var s := Written(STANDARD_WIRING, State(CLEAR, []), ESR, {0});
            var regs := Written(STANDARD_WIRING, s, ESE, {0}).regs;
            SummaryBits(STANDARD, regs, 1) == {} && AnyOf(EventOf(STANDARD, regs, 1), EnableOf(STANDARD.groups[1], regs))
  {
    EventSeen();
    var s := Written(STANDARD_WIRING, State(CLEAR, []), ESR, {0});
    assert Written(STANDARD_WIRING, s, ESE, {0}).regs == CLEAR[ESR := {0}][ESE := {0}];
    ZeroBits(STB_ESR);
    var one: Bits := {0};
    assert 0 in one * one;
  }
}
