/** Latching and summaries bit by bit; IEEE 488.2, sections 11.4.2 and 11.5.1. */
module StatusBits {
  import opened Wrappers
  import opened Status

  predicate Rises(before: Bits, after: Bits, b: BitNo) { b !in before && b in after }

  predicate Falls(before: Bits, after: Bits, b: BitNo) { b in before && b !in after }

  /** A transition of bit `b` that a group's filters let through; without filters, every rise. */
  predicate Passes(g: GroupInfo, regs: seq<Bits>, before: Bits, after: Bits, b: BitNo) {
    if g.ptfilt.None? && g.ntfilt.None? then Rises(before, after, b)
    else
      || (Rises(before, after, b) && g.ptfilt.Some? && g.ptfilt.value < |regs| && b in regs[g.ptfilt.value])
      || (Falls(before, after, b) && g.ntfilt.Some? && g.ntfilt.value < |regs| && b in regs[g.ntfilt.value])
  }

  lemma LatchedBit(g: GroupInfo, regs: seq<Bits>, before: Bits, after: Bits, b: BitNo)
    ensures b in Latched(g, regs, before, after) <==> Passes(g, regs, before, after, b)
  {
  }

  /**
   Whatever register is written, a bit of an event register is set afterwards if and only if it was set
   before or its condition bit has made a transition that passes.
   */
  lemma BitLatched(w: Wiring, s: State, name: nat, val: Bits, g: nat, b: BitNo)
    requires |s.regs| == |w.t.regs| && name < |w.t.regs|
    requires 0 < g < |w.t.groups| && w.t.groups[g].condition.Some? && name != w.t.groups[g].event
    ensures w.t.groups[g].condition.value < |w.t.regs| && w.t.groups[g].event < |w.t.regs|
    ensures var e, c, after := w.t.groups[g].event, w.t.groups[g].condition.value, Written(w, s, name, val).regs;
            b in after[e] <==> b in s.regs[e] || Passes(w.t.groups[g], s.regs, s.regs[c], after[c], b)
  {
    hide Written, Latched, Passes;
    WriteLatches(w, s, name, val, g);
    var c, after := w.t.groups[g].condition.value, Written(w, s, name, val).regs;
    LatchedBit(w.t.groups[g], s.regs, s.regs[c], after[c], b);
  }

  /** Some bit of the event register is enabled; without an enable register, all bits are. */
  predicate Reports(g: GroupInfo, regs: seq<Bits>) {
    exists b: BitNo :: g.event < |regs| && b in regs[g.event]
                       && (g.enable.Some? ==> g.enable.value < |regs| && b in regs[g.enable.value])
  }

  /** The group's summary bit is set in its parent register. */
  predicate Shown(g: GroupInfo, regs: seq<Bits>) {
    exists b: BitNo :: g.parent.Some? && g.parent.value < |regs| && b in regs[g.parent.value] && b in g.parentBit
  }

  lemma ReportsAny(t: Table, regs: seq<Bits>, g: nat)
    requires g < |t.groups|
    ensures AnyOf(EventOf(t, regs, g), EnableOf(t.groups[g], regs)) <==> Reports(t.groups[g], regs)
  {
    var i := t.groups[g];
    var event, enable := EventOf(t, regs, g), EnableOf(i, regs);
    if AnyOf(event, enable) {
      var b :| b in event * enable;
      assert i.event < |regs| && b in regs[i.event];
    }
    if Reports(i, regs) {
      var b: BitNo :| i.event < |regs| && b in regs[i.event]
                      && (i.enable.Some? ==> i.enable.value < |regs| && b in regs[i.enable.value]);
      assert b in ALL_BITS && b in event * enable;
    }
  }

  lemma ShownAny(t: Table, regs: seq<Bits>, g: nat)
    requires g < |t.groups|
    ensures SummaryBits(t, regs, g) != {} <==> Shown(t.groups[g], regs)
  {
    var i := t.groups[g];
    if SummaryBits(t, regs, g) != {} {
      var b :| b in SummaryBits(t, regs, g);
      assert b in Get(regs, i.parent);
    }
    if Shown(i, regs) {
      var b: BitNo :| i.parent.Some? && i.parent.value < |regs| && b in regs[i.parent.value] && b in i.parentBit;
      assert b in SummaryBits(t, regs, g);
    }
  }

  /**
   A write that does not name the parent register: where it changes the event register, the summary bit
   is set exactly when an enabled event bit is; where it does not, the summary bit stays.
   */
  lemma SummaryShown(w: SummaryWiring, s: State, name: nat, val: Bits, g: nat)
    requires |s.regs| == |w.t.regs| && name < |w.t.regs| && 0 < g < |w.t.groups| && w.t.groups[g].parent != Some(name)
    ensures w.t.groups[g].event < |w.t.regs|
    ensures var after := Written(w, s, name, val).regs;
            Shown(w.t.groups[g], after)
            <==> if after[w.t.groups[g].event] != s.regs[w.t.groups[g].event] then Reports(w.t.groups[g], after)
                 else Shown(w.t.groups[g], s.regs)
  {
    hide Written, Shown, Reports, AnyOf;
    assert w.t.GroupOk(g);
    WriteSummary(w, s, name, val, g);
    var after := Written(w, s, name, val).regs;
    ReportsAny(w.t, after, g);
    ShownAny(w.t, after, g);
    ShownAny(w.t, s.regs, g);
  }
}
