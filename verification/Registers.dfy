/** The register file of a context, updated in place. */
module Registers {
  import opened Wrappers
  import opened Status
  import opened StatusRuns

  class RegisterFile {
    const table: Table
    const regs: array<Bits>
    // The values handed to the service request callback, oldest first.
    var requests: seq<Bits>

    ghost const wiring: Wiring

    ghost predicate Valid()
      reads this
    {
      wiring.t == table && regs.Length == |table.regs|
    }

    ghost function Abs(): State
      reads this, regs
    {
      State(regs[..], requests)
    }

    /** `SCPI_Init` clears the context to zero. */
    constructor (wires: Wiring)
      ensures Valid() && wiring == wires && fresh(regs)
      ensures Abs() == PowerOn(wires).state
    {
      wiring := wires;
      table := wires.t;
      regs := new Bits[|wires.t.regs|](_ => {});
      requests := [];
    }

    function RegGet(name: nat): (val: Bits)
      requires Valid()
      reads this, regs
      ensures val == Get(regs[..], Some(name))
    {
      if name < regs.Length then regs[name] else {}
    }

    /** Recompute the service request bit after `v` replaced `before` in the status group. */
    method UpdateRequest(before: Bits, v: Bits)
      requires Valid() && regs.Length > 1
      modifies this`requests, regs
      ensures Abs() == Request(old(Abs()), before, v)
    {
      if Requested(regs[STB], regs[SRE]) {
        var ptrans := Rising(before, v);
        regs[STB] := WithRequest(regs[STB], regs[SRE]);
        if ptrans * v != {} {
          requests := requests + [regs[STB]];
        }
      } else {
        regs[STB] := WithRequest(regs[STB], regs[SRE]);
      }
    }

    /** The event value that a condition register's change from `before` to `v` makes. */
    method LatchEvent(group: GroupInfo, before: Bits, v: Bits) returns (event: Bits)
      requires Valid()
      ensures event == Latched(group, regs[..], before, v) + Get(regs[..], Some(group.event))
    {
      if group.ptfilt.None? && group.ntfilt.None? {
        event := Rising(before, v) + RegGet(group.event);
      } else {
        var ptfilt: Bits, ntfilt: Bits := {}, {};
        if group.ptfilt.Some? {
          ptfilt := RegGet(group.ptfilt.value);
        }
        if group.ntfilt.Some? {
          ntfilt := RegGet(group.ntfilt.value);
        }
        event := Filtered(false, ptfilt, ntfilt, before, v) + RegGet(group.event);
      }
    }

    /** The parent's value with the summary of event value `v`. */
    method SummariseEvent(group: GroupInfo, v: Bits, parent: nat) returns (val: Bits)
      requires Valid()
      ensures val == Summarised(group, regs[..], v, Get(regs[..], Some(parent)))
    {
      var enable: Bits := ALL_BITS;
      if group.enable.Some? {
        enable := RegGet(group.enable.value);
      }
      var summary := AnyOf(v, enable);
      val := WithSummary(summary, RegGet(parent), group.parentBit);
    }

    /**
     Store `val`, then follow the cascade: a condition register sets its event
     register, an event register its parent's summary bit, until a register
     keeps its value or the status byte is reached.
     */
    method RegSet(name: nat, val: Bits)
      requires Valid()
      modifies this`requests, regs
      ensures Abs() == SetReg(wiring, old(Abs()), name, val)
    {
      if name >= regs.Length {
        return;
      }
      var n: nat, v := name, val;
      while true
        invariant n < regs.Length
        invariant Written(wiring, Abs(), n, v) == Written(wiring, old(Abs()), name, val)
        decreases wiring.Height(n)
      {
        assert table.RegOk(n) && table.RegOk(STB);
        var before := regs[n];
        if before == v {
          return;
        }
        ghost var s1, next := WriteStep(wiring, Abs(), n, v);
        var kind, group := table.ClassOf(n), table.groups[table.regs[n].group];
        regs[n] := v;
        match kind {
          case ClassStb | ClassSre =>
            UpdateRequest(before, v);
            return;
          case ClassEven =>
            if group.parent.None? {
              return;
            }
            v := SummariseEvent(group, v, group.parent.value);
            n := group.parent.value;
          case ClassCond =>
            if group.parent.None? {
              return;
            }
            v := LatchEvent(group, before, v);
            n := group.event;
          case _ =>
            return;
        }
      }
    }

    method RegSetBits(name: nat, bits: Bits)
      requires Valid()
      modifies this`requests, regs
      ensures Abs() == SetReg(wiring, old(Abs()), name, Get(old(regs[..]), Some(name)) + bits)
    {
      RegSet(name, RegGet(name) + bits);
    }

    method RegClearBits(name: nat, bits: Bits)
      requires Valid()
      modifies this`requests, regs
      ensures Abs() == SetReg(wiring, old(Abs()), name, Get(old(regs[..]), Some(name)) - bits)
    {
      RegSet(name, RegGet(name) - bits);
    }
  }
}
