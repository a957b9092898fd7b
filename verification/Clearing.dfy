/** What `*CLS` leaves: clearing event registers in tables whose groups may report to one another. */
module Clearing {
  import opened Wrappers
  import opened Status
  import opened StatusRuns
  import opened ErrorSpec
  import opened ErrorRuns

  /** The group whose condition register group `g` reports to. */
  function GroupAbove(w: Wiring, g: nat): (h: Option<nat>)
    requires 0 < g < |w.t.groups|
    ensures h.Some? ==>
              && 0 < h.value < |w.t.groups| && w.depth[h.value] < w.depth[g]
              && w.t.groups[h.value].condition == w.t.groups[g].parent && w.t.groups[g].parent.Some?
              && w.t.groups[g].parent.value < |w.t.regs| && w.t.ClassOf(w.t.groups[g].parent.value).ClassCond?
    ensures h.None? ==> w.t.groups[g].parent == Some(STB)
  {
    assert w.t.GroupOk(g);
    var p := w.t.groups[g].parent.value;
    assert w.t.RegOk(p) && w.t.RegOk(STB);
    if p == STB then None else Some(w.t.regs[p].group)
  }

  /** Group `g` reports to group `a`, directly or through others. */
  predicate Above(w: Wiring, g: nat, a: nat)
    requires 0 < g < |w.t.groups|
    decreases w.depth[g]
  {
    var h := GroupAbove(w, g);
    h.Some? && (a == h.value || Above(w, h.value, a))
  }

  lemma {:induction false} AboveDepth(w: Wiring, g: nat, a: nat)
    requires 0 < g < |w.t.groups| && Above(w, g, a)
    ensures 0 < a < |w.t.groups| && w.depth[a] < w.depth[g] && w.t.groups[a].condition.Some?
    decreases w.depth[g]
  {
    var h := GroupAbove(w, g).value;
    if a != h {
      AboveDepth(w, h, a);
    }
  }

  /** A summary bit of `g` that is cleared can be latched above. */
  predicate LatchesFall(w: Wiring, g: nat)
    requires 0 < g < |w.t.groups|
  {
    GroupAbove(w, g).Some? && w.t.groups[GroupAbove(w, g).value].ntfilt.Some?
  }

  /** Where that is so, the groups above come later in the table. */
  ghost predicate Ordered(w: Wiring) {
    forall g, a | 0 < g < |w.t.groups| && LatchesFall(w, g) && Above(w, g, a) :: g < a
  }

  /** A cascade that starts at an event register only reaches event registers above. */
  lemma {:induction false} OnPathAbove(w: Wiring, g: nat, j: nat)
    requires 0 < g < |w.t.groups| && 0 < j < |w.t.groups| && w.t.groups[g].event < |w.t.regs|
    requires OnPath(w, w.t.groups[g].event, w.t.groups[j].event)
    ensures j == g || Above(w, g, j)
    decreases w.depth[g]
  {
    assert w.t.GroupOk(g) && w.t.GroupOk(j) && w.t.RegOk(STB);
    if j != g {
      var p := w.t.groups[g].parent.value;
      NextOnPath(w, w.t.groups[g].event);
      assert w.t.RegOk(p);
      var h := GroupAbove(w, g);
      if h.Some? {
        assert w.t.GroupOk(h.value);
        NextOnPath(w, p);
        OnPathAbove(w, h.value, j);
      }
    }
  }

  lemma FallOnly(before: Bits, bit: Bits)
    ensures Rising(before, before - bit) == {}
  {
  }

  /** What clearing an event register passes on to the condition register above. */
  lemma FallLatched(i: GroupInfo, regs: seq<Bits>, before: Bits, bit: Bits)
    ensures i.ntfilt.None? ==> Latched(i, regs, before, before - bit) == {}
  {
    FallOnly(before, bit);
  }

  /** In an ordered table, clearing a later event register leaves an earlier one alone. */
  lemma ClearSpares(w: Wiring, s: State, g: nat, j: nat)
    requires Ordered(w) && |s.regs| == |w.t.regs| && 0 < j < g < |w.t.groups|
    ensures EventOf(w.t, SetReg(w, s, w.t.groups[g].event, {}).regs, j) == EventOf(w.t, s.regs, j)
  {
    assert w.t.GroupOk(g) && w.t.GroupOk(j) && w.t.RegOk(STB);
    var e, f := w.t.groups[g].event, w.t.groups[j].event;
    if s.regs[e] != {} {
      var s1, next := WriteStep(w, s, e, {});
      var p := next.value.0;
      assert p == w.t.groups[g].parent.value && w.t.RegOk(p);
      if s1.regs[p] != next.value.1 {
        var s2, last := WriteStep(w, s1, p, next.value.1);
        var h := GroupAbove(w, g);
        if h.Some? {
          FallAbove(w, s1, g, h.value, s2, f, j);
        }
      }
    }
  }

  lemma FallAbove(w: Wiring, s1: State, g: nat, h: nat, s2: State, f: nat, j: nat)
    requires Ordered(w) && 0 < j < g < |w.t.groups| && GroupAbove(w, g) == Some(h)
    requires |s1.regs| == |s2.regs| == |w.t.regs| && f == w.t.groups[j].event < |w.t.regs|
    requires var p := w.t.groups[g].parent.value; s2.regs == s1.regs[p := s1.regs[p] - w.t.groups[g].parentBit]
    ensures var p, e := w.t.groups[g].parent.value, w.t.groups[h].event;
            && e < |w.t.regs|
            && Written(w, s2, e, Latched(w.t.groups[h], s2.regs, s1.regs[p], s1.regs[p] - w.t.groups[g].parentBit)
                                 + Get(s2.regs, Some(e))).regs[f] == s2.regs[f]
  {
    assert w.t.GroupOk(h) && w.t.GroupOk(j);
    var p, e := w.t.groups[g].parent.value, w.t.groups[h].event;
    var v := Latched(w.t.groups[h], s2.regs, s1.regs[p], s1.regs[p] - w.t.groups[g].parentBit);
    FallLatched(w.t.groups[h], s2.regs, s1.regs[p], w.t.groups[g].parentBit);
    if Written(w, s2, e, v + s2.regs[e]).regs[f] != s2.regs[f] {
      if w.t.groups[h].ntfilt.None? {
        assert v + s2.regs[e] == s2.regs[e];
      } else {
        WriteReach(w, s2, e, v + s2.regs[e], f);
        OnPathAbove(w, h, j);
        assert Above(w, g, j);
      }
    }
  }

  /** Clearing the event register of `g` leaves it zero and its summary bit clear. */
  lemma ClearsOwn(w: SummaryWiring, s: State, g: nat)
    requires |s.regs| == |w.t.regs| && 0 < g < |w.t.groups| && Quiet(w, s.regs)
    ensures var after := SetReg(w, s, w.t.groups[g].event, {}).regs;
            EventOf(w.t, after, g) == {} && SummaryBits(w.t, after, g) == {}
  {
    assert w.t.GroupOk(g) && w.t.RegOk(STB);
    WriteStores(w, s, w.t.groups[g].event, {});
    EventKeepsQuiet(w, s, g, {});
  }

  ghost predicate Cleared(w: Wiring, regs: seq<Bits>, g: nat)
    requires g < |w.t.groups|
  {
    EventOf(w.t, regs, g) == {} && SummaryBits(w.t, regs, g) == {}
  }

  lemma ClearKeepsCleared(w: SummaryWiring, s: State, g: nat, h: nat)
    requires Ordered(w) && |s.regs| == |w.t.regs| && Quiet(w, s.regs)
    requires 0 < h < g < |w.t.groups| && Cleared(w, s.regs, h)
    ensures Cleared(w, SetReg(w, s, w.t.groups[g].event, {}).regs, h)
  {
    assert w.t.GroupOk(g) && w.t.GroupOk(h) && w.t.RegOk(STB);
    ClearSpares(w, s, g, h);
    EventKeepsQuiet(w, s, g, {});
  }

  /** The clearing loop from group `g` on. */
  lemma {:induction false} EventsClear(w: SummaryWiring, s: State, g: nat, h: nat)
    requires Ordered(w) && |s.regs| == |w.t.regs| && 0 < g <= |w.t.groups| && 0 < h < |w.t.groups|
    requires Quiet(w, s.regs) && (h < g ==> Cleared(w, s.regs, h))
    ensures Cleared(w, EventsCleared(w, s, g).regs, h)
    decreases |w.t.groups| - g
  {
    if g < |w.t.groups| {
      assert w.t.GroupOk(g) && w.t.RegOk(STB);
      if h < g {
        ClearKeepsCleared(w, s, g, h);
      } else if h == g {
        ClearsOwn(w, s, g);
      }
      EventKeepsQuiet(w, s, g, {});
      EventsClear(w, SetReg(w, s, w.t.groups[g].event, {}), g + 1, h);
    }
  }

  /** Every group reports to the status byte, as in the standard table. */
  ghost predicate Flat(w: Wiring) {
    forall g | 0 < g < |w.t.groups| :: w.t.groups[g].parent == Some(STB)
  }

  /** In a flat table clearing an event register touches only it and the status byte. */
  lemma FlatClear(w: Wiring, s: State, g: nat, r: nat)
    requires Flat(w) && |s.regs| == |w.t.regs| && 0 < g < |w.t.groups| && r < |w.t.regs|
    requires r != STB && r != w.t.groups[g].event
    ensures SetReg(w, s, w.t.groups[g].event, {}).regs[r] == s.regs[r]
  {
    assert w.t.GroupOk(g) && w.t.RegOk(STB);
    var e := w.t.groups[g].event;
    if s.regs[e] != {} {
      var s1, next := WriteStep(w, s, e, {});
      if s1.regs[STB] != next.value.1 {
        var s2, last := WriteStep(w, s1, STB, next.value.1);
      }
    }
  }

  /** Clearing an event register leaves enable and filter registers as they were, and in a flat table the others too. */
  lemma ClearSettings(w: Wiring, s: State, g: nat, r: nat)
    requires |s.regs| == |w.t.regs| && 0 < g < |w.t.groups| && r < |w.t.regs|
    requires r != STB && !w.t.ClassOf(r).ClassEven? && (w.t.ClassOf(r).ClassCond? ==> Flat(w))
    ensures SetReg(w, s, w.t.groups[g].event, {}).regs[r] == s.regs[r]
  {
    assert w.t.GroupOk(g) && w.t.RegOk(r);
    var e := w.t.groups[g].event;
    if w.t.ClassOf(r).ClassCond? {
      FlatClear(w, s, g, r);
    } else if Written(w, s, e, {}).regs[r] != s.regs[r] {
      WriteReach(w, s, e, {}, r);
      PathClimbs(w, e, r);
    }
  }

  lemma {:induction false} EventsClearOnly(w: Wiring, s: State, g: nat, r: nat)
    requires |s.regs| == |w.t.regs| && 0 < g <= |w.t.groups|
    requires r < |w.t.regs| && r != STB && !w.t.ClassOf(r).ClassEven? && (w.t.ClassOf(r).ClassCond? ==> Flat(w))
    ensures EventsCleared(w, s, g).regs[r] == s.regs[r]
    decreases |w.t.groups| - g
  {
    if g < |w.t.groups| {
      assert w.t.GroupOk(g) && w.t.RegOk(STB);
      ClearSettings(w, s, g, r);
      EventsClearOnly(w, SetReg(w, s, w.t.groups[g].event, {}), g + 1, r);
    }
  }

  /** Queue, event registers, summary bits and error-available bit are clear, enables and filters as before. */
  ghost predicate AllClear(w: Wiring, before: System, after: System) {
    && |before.status.regs| == |after.status.regs| == |w.t.regs|
    && after.queue == [] && Qma(after.status.regs) == {}
    && (forall g | 0 < g < |w.t.groups| :: Cleared(w, after.status.regs, g))
    && forall r | 0 <= r < |w.t.regs| && r != STB && !w.t.ClassOf(r).ClassEven? ::
         (w.t.ClassOf(r).ClassCond? ==> Flat(w)) ==> after.status.regs[r] == before.status.regs[r]
  }

  /** `*CLS` from a state in which zero event registers have clear summary bits. */
  lemma ClsClears(w: SummaryWiring, c: Capacity, x: System)
    requires Ordered(w) && QmaFree(w) && QueueOk(w, c, x) && Quiet(w, x.status.regs)
    ensures AllClear(w, x, AfterCls(w, x))
  {
    var x1 := AfterClear(w, x);
    EmitEmptyQma(w, x.(queue := []));
    EventsKeepQma(w, x1.status, 0);
    ClearQmaKeepsQuiet(w, x.status);
    assert EventsCleared(w, x1.status, 0) == EventsCleared(w, x1.status, 1);
    forall g | 0 < g < |w.t.groups| ensures Cleared(w, EventsCleared(w, x1.status, 1).regs, g) {
      EventsClear(w, x1.status, 1, g);
    }
    forall r | 0 <= r < |w.t.regs| && r != STB && !w.t.ClassOf(r).ClassEven? && (w.t.ClassOf(r).ClassCond? ==> Flat(w))
      ensures EventsCleared(w, x1.status, 1).regs[r] == x.status.regs[r]
    {
      EventsClearOnly(w, x1.status, 1, r);
      StatusOnly(w, x.status, Get(x.status.regs, Some(STB)) - STB_QMA, r);
    }
  }

  /** `*CLS` after any run that leaves the summary and error-available bits to the library. */
  lemma ClsAfterRun(w: SummaryWiring, c: Capacity, ops: seq<Op>)
    requires Ordered(w) && QmaFree(w) && StandardEsr(w) && c.size > 0 && AllSpare(w, c, ops)
    ensures AllClear(w, RunOps(w, c, ops), AfterCls(w, RunOps(w, c, ops)))
  {
    RunKeepsQuiet(w, c, ops);
    ClsClears(w, c, RunOps(w, c, ops));
  }

  /** The standard table is of the kind these results ask for. */
  lemma StandardTableFits()
    ensures Flat(STANDARD_WIRING) && Ordered(STANDARD_WIRING) && QmaFree(STANDARD_WIRING) && StandardEsr(STANDARD_WIRING)
  {
    StandardQmaFree();
  }

  /** From every quiet state, `*CLS` leaves every event register zero. */
  ghost predicate AlwaysClears(w: Wiring) {
    forall s: State, g | |s.regs| == |w.t.regs| && Quiet(w, s.regs) && 0 < g < |w.t.groups| ::
      EventOf(w.t, EventsCleared(w, s, 1).regs, g) == {}
  }

  /** A group that latches falling bits can latch rising ones. */
  ghost predicate FiltersPaired(w: Wiring) {
    forall g | 0 < g < |w.t.groups| :: w.t.groups[g].ntfilt.Some? ==> w.t.groups[g].ptfilt.Some?
  }

  /** Everything is enabled and passes the filters. */
  ghost predicate Open(w: Wiring, regs: seq<Bits>) {
    && |regs| == |w.t.regs|
    && forall r | 0 <= r < |w.t.regs| ::
         w.t.ClassOf(r).ClassEnab? || w.t.ClassOf(r).ClassPtr? || w.t.ClassOf(r).ClassNtr? ==> regs[r] == ALL_BITS
  }

  /** The groups above `g` have seen nothing. */
  ghost predicate BlankAbove(w: Wiring, regs: seq<Bits>, g: nat)
    requires 0 < g < |w.t.groups| && |regs| == |w.t.regs|
  {
    forall k | 0 < k < |w.t.groups| && Above(w, g, k) ::
      Get(regs, w.t.groups[k].condition) == {} && EventOf(w.t, regs, k) == {}
  }

  lemma AllOf(v: Bits)
    ensures v * ALL_BITS == v
  {
  }

  lemma RisenBits(bit: Bits)
    ensures Rising({}, bit) == bit && Falling(bit, {}) == bit && Rising(bit, {}) == {}
  {
  }

  /** A summary bit that rises in the condition register of `k` is latched. */
  lemma RiseLatched(w: Wiring, regs: seq<Bits>, k: nat, bit: Bits)
    requires FiltersPaired(w) && Open(w, regs) && 0 < k < |w.t.groups|
    ensures bit <= Latched(w.t.groups[k], regs, {}, bit)
  {
    assert w.t.GroupOk(k);
    RisenBits(bit);
    AllOf(bit);
  }

  lemma FallIsLatched(w: Wiring, regs: seq<Bits>, k: nat, bit: Bits)
    requires Open(w, regs) && 0 < k < |w.t.groups| && w.t.groups[k].ntfilt.Some?
    ensures bit <= Latched(w.t.groups[k], regs, bit, {})
  {
    assert w.t.GroupOk(k);
    RisenBits(bit);
    AllOf(bit);
  }

  lemma AllEnabled(w: Wiring, regs: seq<Bits>, g: nat, v: Bits)
    requires Open(w, regs) && 0 < g < |w.t.groups|
    ensures AnyOf(v, EnableOf(w.t.groups[g], regs)) == (v != {})
  {
    assert w.t.GroupOk(g);
    AllOf(v);
  }

  /** Registers of groups above are none of `g`'s. */
  lemma BlankStill(w: Wiring, regs: seq<Bits>, g: nat, h: nat, v: Bits, u: Bits)
    requires 0 < g < |w.t.groups| && GroupAbove(w, g) == Some(h) && |regs| == |w.t.regs|
    requires BlankAbove(w, regs, g)
    ensures w.t.groups[g].event < |regs| && w.t.groups[g].parent.value < |regs|
    ensures BlankAbove(w, regs[w.t.groups[g].event := v][w.t.groups[g].parent.value := u], h)
  {
    assert w.t.GroupOk(g) && w.t.GroupOk(h);
    forall k | 0 < k < |w.t.groups| && Above(w, h, k)
      ensures Above(w, g, k) && w.t.groups[k].condition != Some(w.t.groups[g].parent.value) && k != g
      ensures w.t.groups[k].event != w.t.groups[g].event && w.t.groups[k].event != w.t.groups[g].parent.value
      ensures w.t.groups[k].condition != Some(w.t.groups[g].event)
    {
      AboveDepth(w, h, k);
      assert w.t.GroupOk(k);
    }
  }

  /** New bits in the event register of `g` reach the event registers of all groups above. */
  lemma {:induction false} Rise(w: SummaryWiring, s: State, g: nat, v: Bits, a: nat)
    requires FiltersPaired(w) && |s.regs| == |w.t.regs| && Open(w, s.regs)
    requires 0 < g < |w.t.groups| && a < |w.t.groups| && (a == g || Above(w, g, a))
    requires BlankAbove(w, s.regs, g) && v != {} && v != EventOf(w.t, s.regs, g)
    ensures EventOf(w.t, SetReg(w, s, w.t.groups[g].event, v).regs, a) != {}
    decreases w.depth[g]
  {
    hide Open, BlankAbove, FiltersPaired, Above, Latched, EnableOf, AnyOf;
    assert w.t.GroupOk(g) && w.t.RegOk(STB) && w.t.BitOk(g);
    var e := w.t.groups[g].event;
    if a == g {
      WriteStores(w, s, e, v);
    } else {
      AboveOnce(w, g, a);
      var h, p, bit := GroupAbove(w, g).value, w.t.groups[g].parent.value, w.t.groups[g].parentBit;
      assert w.t.GroupOk(h) && w.t.RegOk(p);
      BlankHere(w, s.regs, g, h);
      var s1, next := WriteStep(w, s, e, v);
      OpenStill(w, s.regs, e, v);
      AllEnabled(w, s1.regs, g, v);
      assert next == Some((p, {} + bit)) && {} + bit == bit;
      var s2, last := WriteStep(w, s1, p, bit);
      OpenStill(w, s1.regs, p, bit);
      RiseLatched(w, s2.regs, h, bit);
      BlankStill(w, s.regs, g, h, v, bit);
      Rise(w, s2, h, last.value.1, a);
    }
  }

  lemma AboveOnce(w: Wiring, g: nat, a: nat)
    requires 0 < g < |w.t.groups| && Above(w, g, a)
    ensures GroupAbove(w, g).Some? && (a == GroupAbove(w, g).value || Above(w, GroupAbove(w, g).value, a))
  {
  }

  lemma BlankHere(w: Wiring, regs: seq<Bits>, g: nat, h: nat)
    requires 0 < g < |w.t.groups| && GroupAbove(w, g) == Some(h) && |regs| == |w.t.regs| && BlankAbove(w, regs, g)
    ensures Get(regs, w.t.groups[g].parent) == {} && EventOf(w.t, regs, h) == {}
  {
    assert Above(w, g, h);
  }

  lemma OpenStill(w: Wiring, regs: seq<Bits>, r: nat, v: Bits)
    requires Open(w, regs) && r < |regs| && (w.t.ClassOf(r).ClassEven? || w.t.ClassOf(r).ClassCond?)
    ensures Open(w, regs[r := v])
  {
  }

  /** A state in which only `g` has seen something, and its summary bit is set. */
  function Seen(w: Wiring, g: nat): (s: State)
    requires 0 < g < |w.t.groups|
    ensures |s.regs| == |w.t.regs|
  {
    State(seq(|w.t.regs|, r requires 0 <= r < |w.t.regs| => SeenIn(w, g, r)), [])
  }

  function SeenIn(w: Wiring, g: nat, r: nat): Bits
    requires 0 < g < |w.t.groups| && r < |w.t.regs|
  {
    var k := w.t.ClassOf(r);
    if k.ClassEnab? || k.ClassPtr? || k.ClassNtr? || r == w.t.groups[g].event then ALL_BITS
    else if k.ClassCond? && w.t.groups[g].parent == Some(r) then w.t.groups[g].parentBit
    else {}
  }

  lemma SeenIsQuiet(w: SummaryWiring, g: nat)
    requires 0 < g < |w.t.groups|
    ensures Quiet(w, Seen(w, g).regs) && Open(w, Seen(w, g).regs)
    ensures forall j | 0 < j < |w.t.groups| && j != g :: EventOf(w.t, Seen(w, g).regs, j) == {}
  {
    assert w.t.GroupOk(g) && w.t.RegOk(STB);
    var regs := Seen(w, g).regs;
    forall j | 0 < j < |w.t.groups| && j != g
      ensures EventOf(w.t, regs, j) == {} && SummaryBits(w.t, regs, j) == {}
    {
      assert w.t.GroupOk(j);
    }
    EventSeen(w, g);
  }

  lemma EventSeen(w: Wiring, g: nat)
    requires 0 < g < |w.t.groups|
    ensures EventOf(w.t, Seen(w, g).regs, g) == ALL_BITS && ALL_BITS != {}
  {
    assert w.t.GroupOk(g);
    var b: BitNo := 0;
    assert b in ALL_BITS;
  }

  lemma SeenBlank(w: Wiring, g: nat, h: nat)
    requires 0 < g < |w.t.groups| && GroupAbove(w, g) == Some(h)
    ensures BlankAbove(w, Seen(w, g).regs, h)
    ensures Get(Seen(w, g).regs, w.t.groups[g].parent) == w.t.groups[g].parentBit && EventOf(w.t, Seen(w, g).regs, h) == {}
  {
    assert w.t.GroupOk(g) && w.t.GroupOk(h) && w.t.RegOk(w.t.groups[g].parent.value);
    forall k | 0 < k < |w.t.groups| && Above(w, h, k)
      ensures Get(Seen(w, g).regs, w.t.groups[k].condition) == {} && EventOf(w.t, Seen(w, g).regs, k) == {}
    {
      AboveDepth(w, h, k);
      assert w.t.GroupOk(k);
    }
  }

  /** Zero event registers are passed over. */
  lemma {:induction false} NothingToClear(w: Wiring, s: State, i: nat, g: nat)
    requires |s.regs| == |w.t.regs| && 0 < i <= g <= |w.t.groups|
    requires forall j | i <= j < g :: EventOf(w.t, s.regs, j) == {}
    ensures EventsCleared(w, s, i) == EventsCleared(w, s, g)
    decreases g - i
  {
    if i < g {
      assert w.t.GroupOk(i) && w.t.RegOk(STB);
      assert EventOf(w.t, s.regs, i) == {};
      assert SetReg(w, s, w.t.groups[i].event, {}) == s;
      NothingToClear(w, s, i + 1, g);
    }
  }

  /** What an event register latches after it was cleared stays. */
  lemma {:induction false} StaysSet(w: Wiring, s: State, i: nat, a: nat)
    requires |s.regs| == |w.t.regs| && 0 < a < i <= |w.t.groups| && w.t.groups[a].condition.Some?
    requires EventOf(w.t, s.regs, a) != {}
    ensures EventOf(w.t, EventsCleared(w, s, i).regs, a) != {}
    decreases |w.t.groups| - i
  {
    if i < |w.t.groups| {
      assert w.t.GroupOk(i) && w.t.GroupOk(a) && w.t.RegOk(STB);
      WriteLatches(w, s, w.t.groups[i].event, {}, a);
      StaysSet(w, SetReg(w, s, w.t.groups[i].event, {}), i + 1, a);
    }
  }

  /** Clearing `g` there sets the event registers above it. */
  lemma ClearingSets(w: SummaryWiring, g: nat, a: nat)
    requires FiltersPaired(w) && 0 < g < |w.t.groups| && LatchesFall(w, g) && Above(w, g, a) && a < |w.t.groups|
    ensures EventOf(w.t, SetReg(w, Seen(w, g), w.t.groups[g].event, {}).regs, a) != {}
  {
    hide Open, BlankAbove, FiltersPaired, Above, Latched, EnableOf, Seen;
    var s, e, h := Seen(w, g), w.t.groups[g].event, GroupAbove(w, g).value;
    var p, bit := w.t.groups[g].parent.value, w.t.groups[g].parentBit;
    assert w.t.GroupOk(g) && w.t.GroupOk(h) && w.t.RegOk(STB) && w.t.RegOk(p) && w.t.BitOk(g);
    AboveOnce(w, g, a);
    SeenIsQuiet(w, g);
    EventSeen(w, g);
    SeenBlank(w, g, h);
    var s1, next := WriteStep(w, s, e, {});
    assert next == Some((p, bit - bit)) && bit - bit == {};
    var s2, last := WriteStep(w, s1, p, {});
    OpenStill(w, s.regs, e, {});
    OpenStill(w, s1.regs, p, {});
    FallIsLatched(w, s2.regs, h, bit);
    BlankMore(w, s.regs, g, h);
    Rise(w, s2, h, last.value.1, a);
  }

  lemma BlankMore(w: Wiring, regs: seq<Bits>, g: nat, h: nat)
    requires 0 < g < |w.t.groups| && GroupAbove(w, g) == Some(h) && |regs| == |w.t.regs| && BlankAbove(w, regs, h)
    ensures w.t.groups[g].event < |regs| && w.t.groups[g].parent.value < |regs|
    ensures BlankAbove(w, regs[w.t.groups[g].event := {}][w.t.groups[g].parent.value := {}], h)
  {
    assert w.t.GroupOk(g) && w.t.GroupOk(h);
  }

  /**
   For tables with paired filters and none: `*CLS` always ends with every event register zero
   if and only if the groups above a group whose falling summary bit is latched come later.
   */
  lemma ClearingExact(w: SummaryWiring)
    requires FiltersPaired(w)
    ensures AlwaysClears(w) <==> Ordered(w)
  {
    if Ordered(w) {
      forall s: State, g | |s.regs| == |w.t.regs| && Quiet(w, s.regs) && 0 < g < |w.t.groups|
        ensures EventOf(w.t, EventsCleared(w, s, 1).regs, g) == {}
      {
        EventsClear(w, s, 1, g);
      }
    } else {
      var g: nat, a: nat :| 0 < g < |w.t.groups| && LatchesFall(w, g) && Above(w, g, a) && !(g < a);
      NotCleared(w, g, a);
    }
  }

  lemma NotCleared(w: SummaryWiring, g: nat, a: nat)
    requires FiltersPaired(w) && 0 < g < |w.t.groups| && LatchesFall(w, g) && Above(w, g, a) && a <= g
    ensures !AlwaysClears(w)
  {
    hide FiltersPaired, Above, Open, LatchesFall, Seen, Quiet;
    AboveDepth(w, g, a);
    var s := Seen(w, g);
    SeenIsQuiet(w, g);
    NothingToClear(w, s, 1, g);
    ClearingSets(w, g, a);
    assert w.t.GroupOk(g) && w.t.RegOk(STB);
    StaysSet(w, SetReg(w, s, w.t.groups[g].event, {}), g + 1, a);
    assert EventOf(w.t, EventsCleared(w, s, 1).regs, a) != {};
  }
}
