/** What errors do to the status registers, in bit numbers, and which codes are announced. */
module ErrorEffects {
  import opened Wrappers
  import opened Status
  import opened StatusRuns
  import opened ErrorSpec
  import opened ErrorRuns
  import opened Requests
  import opened StatusBits

  /** A write of the status byte changes no other register. */
  lemma OnlyStatus(w: Wiring, s: State, val: Bits, r: nat)
    requires |s.regs| == |w.t.regs| && r < |w.t.regs| && r != STB
    ensures SetReg(w, s, STB, val).regs[r] == s.regs[r]
  {
    assert w.t.RegOk(STB);
    if Written(w, s, STB, val).regs[r] != s.regs[r] {
      WriteReach(w, s, STB, val, r);
    }
  }

  /** Announcing a code: bit 2 of the status byte is set, and no other register changes. */
  lemma EmittedEffect(w: Wiring, x: System, err: int)
    requires |x.status.regs| == |w.t.regs|
    ensures var x' := Emitted(w, x, err);
            && x'.reported == x.reported + [err] && 2 in x'.status.regs[STB]
            && forall r | 0 <= r < |w.t.regs| && r != STB :: x'.status.regs[r] == x.status.regs[r]
  {
    var val := Get(x.status.regs, Some(STB)) + STB_QMA;
    WriteStores(w, x.status, STB, val);
    assert 2 in val && 2 in WithRequest(val, x.status.regs[SRE]);
    forall r | 0 <= r < |w.t.regs| && r != STB ensures SetReg(w, x.status, STB, val).regs[r] == x.status.regs[r] {
      OnlyStatus(w, x.status, val, r);
    }
  }

  lemma EsrIsEvent(w: Wiring)
    requires StandardEsr(w)
    ensures ESR < |w.t.regs| && w.t.ClassOf(ESR).ClassEven?
  {
    assert w.t.GroupOk(1);
  }

  lemma EsrSetEffect(w: Wiring, s: State, err: int)
    requires |s.regs| == |w.t.regs| && StandardEsr(w)
    ensures ESR < |w.t.regs|
    ensures EsrSet(w, s, err).regs[ESR] == s.regs[ESR] + if EsrBit(err).Some? then EsrBit(err).value else {}
  {
    EsrIsEvent(w);
    if EsrBit(err).Some? {
      WriteStores(w, s, ESR, s.regs[ESR] + EsrBit(err).value);
    }
  }

  /** Queue, codes and registers after a push. */
  lemma PushEffect(w: Wiring, c: Capacity, x: System, err: int, offered: Option<string>)
    requires |x.status.regs| == |w.t.regs| && |x.queue| <= c.size && c.size > 0 && StandardEsr(w)
    ensures var x', s1 := AfterPush(w, c, x, err, offered), EsrSet(w, x.status, err);
            && x'.reported == x.reported + [err] + (if |x.queue| == c.size then [-350] else [])
            && 2 in x'.status.regs[STB]
            && forall r | 0 <= r < |w.t.regs| && r != STB :: x'.status.regs[r] == s1.regs[r]
  {
    hide Emitted, EsrSet;
    var x1 := System(Pushed(c, x.queue, err, offered), EsrSet(w, x.status, err), x.reported);
    var x2 := Emitted(w, x1, err);
    EmittedEffect(w, x1, err);
    EmittedEffect(w, x2, QUEUE_OVERFLOW);
  }

  /**
   The event register of IEEE 488.2, section 11.5.1, after a push: command errors set bit 5, execution errors
   bit 4, device errors bit 3, query errors bit 2, and the four event classes behind them bits 7, 6, 1 and 0.
   */
  lemma PushSetsEvent(w: Wiring, c: Capacity, x: System, err: int, offered: Option<string>)
    requires |x.status.regs| == |w.t.regs| && |x.queue| <= c.size && c.size > 0 && StandardEsr(w)
    ensures ESR < |w.t.regs|
    ensures var x' := AfterPush(w, c, x, err, offered);
            var before, after := x.status.regs[ESR], x'.status.regs[ESR];
            && (-199 <= err <= -100 ==> after == before + {5})
            && (-299 <= err <= -200 ==> after == before + {4})
            && (-399 <= err <= -300 ==> after == before + {3})
            && (-499 <= err <= -400 ==> after == before + {2})
            && (-599 <= err <= -500 ==> after == before + {7})
            && (-699 <= err <= -600 ==> after == before + {6})
            && (-799 <= err <= -700 ==> after == before + {1})
            && (-899 <= err <= -800 ==> after == before + {0})
            && (err < -899 || -100 < err ==> after == before)
            && x'.reported == x.reported + [err] + (if |x.queue| == c.size then [-350] else [])
            && 2 in x'.status.regs[STB]
  {
    hide AfterPush, EsrSet;
    PushEffect(w, c, x, err, offered);
    EsrSetEffect(w, x.status, err);
  }

  /** Announcing a code leaves the summary of the standard events alone. */
  lemma EmittedShows(w: SummaryWiring, x: System, err: int)
    requires |x.status.regs| == |w.t.regs| && StandardEsr(w) && QmaFree(w)
    ensures Shown(w.t.groups[1], Emitted(w, x, err).status.regs) <==> Shown(w.t.groups[1], x.status.regs)
  {
    hide Shown, Emitted;
    var regs, x' := x.status.regs, Emitted(w, x, err);
    assert w.t.GroupOk(1);
    if w.t.groups[1].parent == Some(STB) {
      EmittedSummary(w, x, err);
      ShownAny(w.t, regs, 1);
      ShownAny(w.t, x'.status.regs, 1);
    } else {
      EmittedEffect(w, x, err);
      ShownElsewhere(w.t.groups[1], regs, x'.status.regs);
    }
  }

  lemma EmittedSummary(w: SummaryWiring, x: System, err: int)
    requires |x.status.regs| == |w.t.regs| && StandardEsr(w) && QmaFree(w) && w.t.groups[1].parent == Some(STB)
    ensures SummaryBits(w.t, Emitted(w, x, err).status.regs, 1) == SummaryBits(w.t, x.status.regs, 1)
  {
    var val, bit := Get(x.status.regs, Some(STB)) + STB_QMA, w.t.groups[1].parentBit;
    WriteSummary(w, x.status, STB, val, 1);
    assert STB_QMA * bit == bit * STB_QMA;
    SetOther(Get(x.status.regs, Some(STB)), STB_QMA, bit);
  }

  lemma ShownElsewhere(g: GroupInfo, regs: seq<Bits>, after: seq<Bits>)
    requires g.parent.Some? && g.parent.value < |regs| == |after| && after[g.parent.value] == regs[g.parent.value]
    ensures Shown(g, after) <==> Shown(g, regs)
  {
  }

  lemma ReportsElsewhere(g: GroupInfo, regs: seq<Bits>, after: seq<Bits>)
    requires g.event < |regs| == |after| && after[g.event] == regs[g.event]
    requires g.enable.Some? && g.enable.value < |regs| ==> after[g.enable.value] == regs[g.enable.value]
    ensures Reports(g, after) <==> Reports(g, regs)
  {
  }

  lemma EsrShows(w: SummaryWiring, s: State, err: int)
    requires |s.regs| == |w.t.regs| && StandardEsr(w)
    ensures ESR < |w.t.regs|
    ensures EsrSet(w, s, err).regs[ESR] != s.regs[ESR] ==>
              (Shown(w.t.groups[1], EsrSet(w, s, err).regs) <==> Reports(w.t.groups[1], EsrSet(w, s, err).regs))
  {
    hide Shown, Reports, Written;
    EsrIsEvent(w);
    assert w.t.GroupOk(1) && w.t.RegOk(STB);
    if EsrBit(err).Some? {
      SummaryShown(w, s, ESR, s.regs[ESR] + EsrBit(err).value, 1);
    }
  }

  /** Where a push changes the event register, the summary bit is set exactly when an enabled event bit is. */
  lemma PushShows(w: SummaryWiring, c: Capacity, x: System, err: int, offered: Option<string>)
    requires |x.status.regs| == |w.t.regs| && |x.queue| <= c.size && c.size > 0 && StandardEsr(w) && QmaFree(w)
    ensures ESR < |w.t.regs|
    ensures var after := AfterPush(w, c, x, err, offered).status.regs;
            after[ESR] != x.status.regs[ESR] ==> (Shown(w.t.groups[1], after) <==> Reports(w.t.groups[1], after))
  {
    hide Shown, Reports, EsrSet, Emitted;
    var x1 := System(Pushed(c, x.queue, err, offered), EsrSet(w, x.status, err), x.reported);
    var after := AfterPush(w, c, x, err, offered).status.regs;
    EsrIsEvent(w);
    EsrShows(w, x.status, err);
    PushEffect(w, c, x, err, offered);
    assert w.t.GroupOk(1) && w.t.RegOk(STB);
    ReportsElsewhere(w.t.groups[1], x1.status.regs, after);
    EmittedShows(w, x1, err);
    EmittedShows(w, Emitted(w, x1, err), QUEUE_OVERFLOW);
  }

  /** Requests only grow, by status bytes with bit 6 set, and turning that bit on adds one. */
  ghost predicate Growing(s: State, s': State)
    requires |s.regs| == |s'.regs| > 1
  {
    && RequestOk(s'.regs) && s.requests <= s'.requests
    && (forall k | |s.requests| <= k < |s'.requests| :: 6 in s'.requests[k])
    && (6 !in s.regs[STB] && 6 in s'.regs[STB] ==> |s.requests| < |s'.requests|)
  }

  lemma SetGrows(w: Wiring, s: State, name: nat, val: Bits)
    requires |s.regs| == |w.t.regs| && RequestOk(s.regs)
    ensures Growing(s, SetReg(w, s, name, val))
  {
    if name < |w.t.regs| {
      OneRequest(w, s, name, val);
      WriteKeepsRequest(w, s, name, val);
      if 6 !in s.regs[STB] && 6 in Written(w, s, name, val).regs[STB] {
        TurningOnSends(w, s, name, val);
      }
    }
  }

  lemma GrowingOn(a: State, b: State, c: State)
    requires |a.regs| == |b.regs| == |c.regs| > 1 && Growing(a, b) && Growing(b, c)
    ensures Growing(a, c)
  {
    hide RequestOk;
  }

  lemma EsrGrows(w: Wiring, s: State, err: int)
    requires |s.regs| == |w.t.regs| && RequestOk(s.regs)
    ensures Growing(s, EsrSet(w, s, err))
  {
    hide SetReg, RequestOk;
    if EsrBit(err).Some? {
      SetGrows(w, s, ESR, Get(s.regs, Some(ESR)) + EsrBit(err).value);
    }
  }

  lemma EmittedGrows(w: Wiring, x: System, err: int)
    requires |x.status.regs| == |w.t.regs| && RequestOk(x.status.regs)
    ensures Growing(x.status, Emitted(w, x, err).status)
  {
    hide SetReg, RequestOk, Growing;
    SetGrows(w, x.status, STB, Get(x.status.regs, Some(STB)) + STB_QMA);
  }

  /** A push that turns the request bit on sends a service request. */
  lemma PushSends(w: Wiring, c: Capacity, x: System, err: int, offered: Option<string>)
    requires |x.status.regs| == |w.t.regs| && |x.queue| <= c.size && c.size > 0 && RequestOk(x.status.regs)
    ensures Growing(x.status, AfterPush(w, c, x, err, offered).status)
  {
    hide RequestOk, EsrSet, Emitted;
    var x1 := System(Pushed(c, x.queue, err, offered), EsrSet(w, x.status, err), x.reported);
    var x2 := Emitted(w, x1, err);
    EsrGrows(w, x.status, err);
    EmittedGrows(w, x1, err);
    GrowingOn(x.status, x1.status, x2.status);
    if |x.queue| == c.size {
      EmittedGrows(w, x2, QUEUE_OVERFLOW);
      GrowingOn(x.status, x2.status, Emitted(w, x2, QUEUE_OVERFLOW).status);
    }
  }

  /**
   On the standard table with bit 5 enabled in ESE and in SRE: a command error whose event bit was off sets bit 5
   and bit 6 of the status byte, and sends a service request if bit 6 was off.
   */
  lemma CommandErrorCalls(c: Capacity, x: System, err: int, offered: Option<string>)
    requires |x.status.regs| == 10 && |x.queue| <= c.size && c.size > 0 && RequestOk(x.status.regs)
    requires -199 <= err <= -100 && 5 !in x.status.regs[ESR] && 5 in x.status.regs[ESE] && 5 in x.status.regs[SRE]
    ensures var s' := AfterPush(STANDARD_WIRING, c, x, err, offered).status;
            && 5 in s'.regs[ESR] && 5 in s'.regs[STB] && 6 in s'.regs[STB]
            && (6 !in x.status.regs[STB] ==> |x.status.requests| < |s'.requests|)
  {
    hide AfterPush, RequestOk, Calls, EsrSet;
    var w, s' := STANDARD_WIRING, AfterPush(STANDARD_WIRING, c, x, err, offered).status;
    StandardQmaFree();
    PushSetsEvent(w, c, x, err, offered);
    PushEffect(w, c, x, err, offered);
    EsrSpares(w, x.status, err, ESE);
    EsrSpares(w, x.status, err, SRE);
    PushShows(w, c, x, err, offered);
    PushSends(w, c, x, err, offered);
    assert Reports(w.t.groups[1], s'.regs);
    RequestBitMeans(s'.regs);
    assert 5 in s'.regs[STB] && 5 in s'.regs[SRE];
    BitCalls(s'.regs[STB], s'.regs[SRE], 5);
  }

  lemma BitCalls(stb: Bits, sre: Bits, b: BitNo)
    requires b != 6 && b in stb && b in sre
    ensures Calls(stb, sre)
  {
  }

  lemma EsrSpares(w: Wiring, s: State, err: int, r: nat)
    requires |s.regs| == |w.t.regs| && r < |w.t.regs| && StandardEsr(w)
    requires w.t.ClassOf(r).ClassEnab? || w.t.ClassOf(r).ClassSre?
    ensures EsrSet(w, s, err).regs[r] == s.regs[r]
  {
    EsrIsEvent(w);
    if EsrSet(w, s, err).regs[r] != s.regs[r] {
      WriteReach(w, s, ESR, s.regs[ESR] + EsrBit(err).value, r);
      PathClimbs(w, ESR, r);
    }
  }

  /** Reading or clearing away the last error announces code 0 once and clears bit 2 of the status byte. */
  lemma EmptyAnnounced(w: Wiring, c: Capacity, x: System)
    requires |x.status.regs| == |w.t.regs| && QueueOk(w, c, x)
    ensures var pop, clear := AfterPop(w, x), AfterClear(w, x);
            && pop.reported == x.reported + (if |x.queue| == 1 then [0] else [])
            && clear.reported == x.reported + (if x.queue != [] then [0] else [])
            && 2 !in clear.status.regs[STB] && (|x.queue| <= 1 ==> 2 !in pop.status.regs[STB])
            && (|x.queue| > 1 ==> pop.status == x.status)
  {
    QmaBit(x.status.regs);
    EmptiedEffect(w, x.(queue := Popped(x.queue).1));
    EmptiedEffect(w, x.(queue := []));
  }

  lemma QmaBit(regs: seq<Bits>)
    requires |regs| > 1
    ensures 2 in regs[STB] <==> Qma(regs) != {}
    ensures AnyOf(Get(regs, Some(STB)), STB_QMA) <==> 2 in regs[STB]
  {
    if 2 in regs[STB] {
      assert 2 in regs[STB] * STB_QMA;
    }
  }

  lemma EmptiedEffect(w: Wiring, x: System)
    requires |x.status.regs| == |w.t.regs|
    ensures var x' := EmittedEmpty(w, x);
            if x.queue == [] && 2 in x.status.regs[STB] then x'.reported == x.reported + [0] && 2 !in x'.status.regs[STB]
            else x' == x
  {
    QmaBit(x.status.regs);
    WriteStores(w, x.status, STB, x.status.regs[STB] - STB_QMA);
  }
}
