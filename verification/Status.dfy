/**
 The status model of IEEE 488.2 section 11: register tables, the cascade that a
 register write starts, and what every write keeps.
 */
module Status {
  import opened Wrappers

  /** A register value: the numbers of the bits that are set, 0 to 15. */
  type BitNo = b: nat | b < 16
  type Bits = set<BitNo>

  const ALL_BITS: Bits := set b: BitNo | 0 <= b < 16

  const STB_QMA: Bits := {2}
  const STB_QES: Bits := {3}
  const STB_ESR: Bits := {5}
  const STB_SRQ: Bits := {6}
  const STB_OPS: Bits := {7}

  const STB := 0
  const SRE := 1
  const ESR := 2
  const ESE := 3
  const OPER := 4
  const OPERE := 5
  const OPERC := 6
  const QUES := 7
  const QUESE := 8
  const QUESC := 9

  datatype Class = ClassStb | ClassSre | ClassEven | ClassEnab | ClassCond | ClassNtr | ClassPtr

  datatype RegInfo = RegInfo(class_: Class, group: nat)

  /** `None` is the table's "no register". */
  datatype GroupInfo = GroupInfo(
    event: nat,
    enable: Option<nat>,
    condition: Option<nat>,
    ptfilt: Option<nat>,
    ntfilt: Option<nat>,
    parent: Option<nat>,
    parentBit: Bits)

  datatype Table = Table(regs: seq<RegInfo>, groups: seq<GroupInfo>) {
    function ClassOf(r: nat): Class
      requires r < |regs|
    {
      regs[r].class_
    }

    ghost predicate Refers(r: Option<nat>, c: Class) {
      r.Some? ==> r.value < |regs| && ClassOf(r.value) == c
    }

    /** What the library demands of one non-STB group. */
    ghost predicate GroupOk(g: nat)
      requires 0 < g < |groups|
    {
      var i := groups[g];
      && i.event < |regs| && regs[i.event] == RegInfo(ClassEven, g)
      && Refers(i.enable, ClassEnab) && Refers(i.ptfilt, ClassPtr) && Refers(i.ntfilt, ClassNtr)
      && (i.condition.Some? ==> i.condition.value < |regs| && regs[i.condition.value] == RegInfo(ClassCond, g))
      && i.parent.Some? && i.parent.value < |regs|
      && (i.parent.value == STB || ClassOf(i.parent.value).ClassCond?)
    }

    /** A group has a summary bit of its own, and not the request bit. */
    ghost predicate BitOk(g: nat)
      requires g < |groups|
    {
      groups[g].parentBit != {} && (groups[g].parent == Some(STB) ==> groups[g].parentBit * STB_SRQ == {})
    }

    /** What it demands of one register. */
    ghost predicate RegOk(r: nat)
      requires r < |regs|
    {
      var i := regs[r];
      && i.group < |groups|
      && (i.class_.ClassStb? <==> r == STB) && (i.class_.ClassSre? <==> r == SRE)
      && (i.class_.ClassStb? || i.class_.ClassSre? ==> i.group == 0)
      && (i.class_.ClassEven? ==> i.group > 0 && groups[i.group].event == r)
      && (i.class_.ClassCond? ==> i.group > 0 && groups[i.group].condition == Some(r))
    }

    /** Groups that report to the same register use different bits. */
    ghost predicate BitsDistinct() {
      forall g, h | 0 < g < |groups| && 0 < h < |groups| && g != h && groups[g].parent == groups[h].parent ::
        groups[g].parentBit * groups[h].parentBit == {}
    }
  }

  /** A register table and, for every group, how many groups stand between it and the status byte. */
  datatype Wires = Wires(t: Table, depth: seq<nat>) {
    /** `depth` witnesses that no group is its own ancestor. */
    ghost predicate Acyclic() {
      && |depth| == |t.groups|
      && forall g | 0 < g < |t.groups| ::
           var p := t.groups[g].parent;
           p.Some? && p.value < |t.regs| && t.ClassOf(p.value).ClassCond? && t.regs[p.value].group < |t.groups|
           ==> depth[t.regs[p.value].group] < depth[g]
    }

    ghost predicate WellFormed() {
      && |t.groups| > 0 && |t.regs| > 1 && t.groups[0].parent == None && t.groups[0].event == STB
      && (forall g | 0 < g < |t.groups| :: t.GroupOk(g))
      && (forall r | 0 <= r < |t.regs| :: t.RegOk(r))
      && Acyclic()
    }

    /** Every group's summary bit is its own: what summary bits mean anything takes. */
    ghost predicate Summarises() {
      t.BitsDistinct() && forall g | 0 < g < |t.groups| :: t.BitOk(g)
    }

    /** How far a write to register `r` can still travel. */
    ghost function Height(r: nat): nat
      requires WellFormed() && r < |t.regs|
    {
      assert t.RegOk(r);
      match t.ClassOf(r)
      case ClassEven => 2 * depth[t.regs[r].group] + 2
      case ClassCond => 2 * depth[t.regs[r].group] + 3
      case ClassSre => 1
      case _ => 0
    }
  }

  /** The library's own registers, without any user registers. */
  const STANDARD := Table(
    [RegInfo(ClassStb, 0), RegInfo(ClassSre, 0),
     RegInfo(ClassEven, 1), RegInfo(ClassEnab, 1),
     RegInfo(ClassEven, 2), RegInfo(ClassEnab, 2), RegInfo(ClassCond, 2),
     RegInfo(ClassEven, 3), RegInfo(ClassEnab, 3), RegInfo(ClassCond, 3)],
    [GroupInfo(STB, Some(SRE), None, None, None, None, {}),
     GroupInfo(ESR, Some(ESE), None, None, None, Some(STB), STB_ESR),
     GroupInfo(OPER, Some(OPERE), Some(OPERC), None, None, Some(STB), STB_OPS),
     GroupInfo(QUES, Some(QUESE), Some(QUESC), None, None, Some(STB), STB_QES)])

  /**
   The tables the library works with: every group but the first reports to the
   status byte or to another group's condition register, never to itself.
   */
  type Wiring = w: Wires | w.WellFormed() witness Wires(STANDARD, [0, 1, 1, 1])

  /** Those among them whose summary bits do not get into each other's way. */
  type SummaryWiring = w: Wiring | w.Summarises() witness Wires(STANDARD, [0, 1, 1, 1])

  /** Register contents and the service requests sent so far. */
  datatype State = State(regs: seq<Bits>, requests: seq<Bits>)

  function Get(regs: seq<Bits>, r: Option<nat>): Bits {
    if r.Some? && r.value < |regs| then regs[r.value] else {}
  }

  function Changed(before: Bits, after: Bits): Bits { (before - after) + (after - before) }

  function Rising(before: Bits, after: Bits): Bits { Changed(before, after) * after }

  function Falling(before: Bits, after: Bits): Bits { Changed(before, after) - Rising(before, after) }

  function Filtered(unfiltered: bool, ptfilt: Bits, ntfilt: Bits, before: Bits, after: Bits): Bits {
    if unfiltered then Rising(before, after)
    else (Rising(before, after) * ptfilt) + (Falling(before, after) * ntfilt)
  }

  /** The transitions of a condition register that its group's filters let through. */
  function Latched(g: GroupInfo, regs: seq<Bits>, before: Bits, after: Bits): Bits {
    Filtered(g.ptfilt.None? && g.ntfilt.None?, Get(regs, g.ptfilt), Get(regs, g.ntfilt), before, after)
  }

  function EnableOf(g: GroupInfo, regs: seq<Bits>): Bits {
    if g.enable.Some? then Get(regs, g.enable) else ALL_BITS
  }

  function WithSummary(summary: bool, parent: Bits, bit: Bits): Bits {
    if summary then parent + bit else parent - bit
  }

  /** Whether any enabled bit of an event register is set. */
  predicate AnyOf(event: Bits, enable: Bits) {
    event * enable != {}
  }

  function Summarised(g: GroupInfo, regs: seq<Bits>, event: Bits, parent: Bits): Bits {
    WithSummary(AnyOf(event, EnableOf(g, regs)), parent, g.parentBit)
  }

  /** Whether an enabled status bit, the request bit itself excluded, is set. */
  predicate Requested(stb: Bits, sre: Bits) {
    (stb - STB_SRQ) * (sre - STB_SRQ) != {}
  }

  function WithRequest(stb: Bits, sre: Bits): Bits {
    if Requested(stb, sre) then stb + STB_SRQ else stb - STB_SRQ
  }

  /** The service request bit recomputed after `written` replaced `before`. */
  function Request(s: State, before: Bits, written: Bits): State
    requires |s.regs| > 1
  {
    var stb := WithRequest(s.regs[STB], s.regs[SRE]);
    State(s.regs[STB := stb],
          if Requested(s.regs[STB], s.regs[SRE]) && Rising(before, written) * written != {}
          then s.requests + [stb] else s.requests)
  }

  /** The register and value a write of `val` over `before` passes on, if it does. */
  function Next(t: Table, regs: seq<Bits>, name: nat, before: Bits, val: Bits): Option<(nat, Bits)>
    requires name < |t.regs| == |regs| && t.regs[name].group < |t.groups|
  {
    var group := t.groups[t.regs[name].group];
    match t.ClassOf(name)
    case ClassEven =>
      if group.parent.Some? then
        Some((group.parent.value, Summarised(group, regs, val, Get(regs, group.parent))))
      else None
    case ClassCond =>
      if group.parent.Some? then
        Some((group.event, Latched(group, regs, before, val) + Get(regs, Some(group.event))))
      else None
    case _ => None
  }

  /** The registers once `val` is stored in `name`, before anything is passed on. */
  function Stored(t: Table, s: State, name: nat, val: Bits): (s': State)
    requires name < |t.regs| == |s.regs| && |t.regs| > 1
    ensures |s'.regs| == |s.regs|
  {
    var s1 := s.(regs := s.regs[name := val]);
    if t.ClassOf(name).ClassStb? || t.ClassOf(name).ClassSre? then Request(s1, s.regs[name], val) else s1
  }

  lemma NextIsNearer(w: Wiring, regs: seq<Bits>, name: nat, before: Bits, val: Bits)
    requires name < |w.t.regs| == |regs|
    requires w.t.regs[name].group < |w.t.groups|
    ensures var n := Next(w.t, regs, name, before, val);
            && (w.t.ClassOf(name).ClassEven? || w.t.ClassOf(name).ClassCond? <==> n.Some?)
            && (n.Some? ==>
                  && n.value.0 < |w.t.regs| && w.Height(n.value.0) < w.Height(name)
                  && (w.t.ClassOf(n.value.0).ClassStb? || w.t.ClassOf(n.value.0).ClassEven? || w.t.ClassOf(n.value.0).ClassCond?)
                  && (w.t.ClassOf(name).ClassEven? ==> w.t.groups[w.t.regs[name].group].parent == Some(n.value.0))
                  && (w.t.ClassOf(name).ClassCond? ==> w.t.groups[w.t.regs[name].group].event == n.value.0))
  {
    assert w.t.RegOk(name);
    var i := w.t.regs[name];
    if i.class_.ClassEven? || i.class_.ClassCond? {
      assert w.t.GroupOk(i.group);
      if i.class_.ClassEven? {
        assert w.t.RegOk(w.t.groups[i.group].parent.value);
      }
    }
  }

  /** The state after `val` is written to register `name`. */
  ghost function Written(w: Wiring, s: State, name: nat, val: Bits): (s': State)
    requires |s.regs| == |w.t.regs| && name < |w.t.regs|
    ensures |s'.regs| == |w.t.regs|
    decreases w.Height(name)
  {
    var before := s.regs[name];
    if before == val then
      s
    else
      assert w.t.RegOk(name);
      var s1 := Stored(w.t, s, name, val);
      var next := Next(w.t, s1.regs, name, before, val);
      NextIsNearer(w, s1.regs, name, before, val);
      if next.Some? then Written(w, s1, next.value.0, next.value.1) else s1
  }

  /** The group of register `r`. */
  function GroupOf(t: Table, r: nat): GroupInfo
    requires r < |t.regs| && t.regs[r].group < |t.groups|
  {
    t.groups[t.regs[r].group]
  }

  /** An event register's parent and a condition register's event register are nearer the status byte. */
  lemma NextOnPath(w: Wiring, name: nat)
    requires name < |w.t.regs|
    ensures w.t.regs[name].group < |w.t.groups|
    ensures w.t.ClassOf(name).ClassEven? ==>
              var p := GroupOf(w.t, name).parent;
              p.Some? && p.value < |w.t.regs| && w.Height(p.value) < w.Height(name)
    ensures w.t.ClassOf(name).ClassCond? ==>
              GroupOf(w.t, name).event < |w.t.regs| && w.Height(GroupOf(w.t, name).event) < w.Height(name)
  {
    assert w.t.RegOk(name);
    if w.t.ClassOf(name).ClassEven? || w.t.ClassOf(name).ClassCond? {
      assert w.t.GroupOk(w.t.regs[name].group);
      if w.t.ClassOf(name).ClassEven? {
        assert w.t.RegOk(GroupOf(w.t, name).parent.value);
      }
    }
  }

  /** The registers on the way from `name` to the status byte: its event register, its parent, and so on. */
  ghost predicate OnPath(w: Wiring, name: nat, r: nat)
    requires name < |w.t.regs|
    decreases w.Height(name)
  {
    NextOnPath(w, name);
    || r == name
    || match w.t.ClassOf(name)
       case ClassSre => r == STB
       case ClassEven => OnPath(w, GroupOf(w.t, name).parent.value, r)
       case ClassCond => OnPath(w, GroupOf(w.t, name).event, r)
       case _ => false
  }

  /** A write changes nothing that is not on the way from the written register to the status byte. */
  lemma {:induction false} WriteReach(w: Wiring, s: State, name: nat, val: Bits, r: nat)
    requires |s.regs| == |w.t.regs| && name < |w.t.regs| && r < |w.t.regs|
    requires Written(w, s, name, val).regs[r] != s.regs[r]
    ensures OnPath(w, name, r)
    decreases w.Height(name)
  {
    if s.regs[name] != val && r != name {
      assert w.t.RegOk(name) && w.t.RegOk(r) && w.t.RegOk(STB);
      var s1 := Stored(w.t, s, name, val);
      var next := Next(w.t, s1.regs, name, s.regs[name], val);
      NextIsNearer(w, s1.regs, name, s.regs[name], val);
      if next.Some? {
        WriteReach(w, s1, next.value.0, next.value.1, r);
      }
    }
  }

  /** The path climbs: what is on it is the written register, or lies strictly nearer the status byte. */
  lemma {:induction false} PathClimbs(w: Wiring, name: nat, r: nat)
    requires name < |w.t.regs| && OnPath(w, name, r)
    ensures r < |w.t.regs| && (r == name || w.Height(r) < w.Height(name))
    ensures r == name || w.t.ClassOf(r).ClassStb? || w.t.ClassOf(r).ClassEven? || w.t.ClassOf(r).ClassCond?
    decreases w.Height(name)
  {
    assert w.t.RegOk(name) && w.t.RegOk(STB);
    NextOnPath(w, name);
    if w.t.ClassOf(name).ClassEven? || w.t.ClassOf(name).ClassCond? {
      assert w.t.GroupOk(w.t.regs[name].group);
    }
    if r != name && w.t.ClassOf(name).ClassEven? {
      PathClimbs(w, GroupOf(w.t, name).parent.value, r);
    } else if r != name && w.t.ClassOf(name).ClassCond? {
      PathClimbs(w, GroupOf(w.t, name).event, r);
    }
  }

  /** The service request bit says whether an enabled status bit is set. */
  ghost predicate RequestOk(regs: seq<Bits>)
    requires |regs| > 1
  {
    RequestBitOk(regs[STB], regs[SRE])
  }

  ghost predicate RequestBitOk(stb: Bits, sre: Bits) {
    stb * STB_SRQ != {} <==> stb * sre - STB_SRQ != {}
  }

  lemma RequestSet(stb: Bits)
    ensures (stb + STB_SRQ) * STB_SRQ != {}
  {
    assert 6 in (stb + STB_SRQ) * STB_SRQ;
  }

  lemma RequestCleared(stb: Bits)
    ensures (stb - STB_SRQ) * STB_SRQ == {}
  {
  }

  lemma EnabledSame(stb: Bits, sre: Bits)
    ensures (stb + STB_SRQ) * sre - STB_SRQ == (stb - STB_SRQ) * (sre - STB_SRQ)
    ensures (stb - STB_SRQ) * sre - STB_SRQ == (stb - STB_SRQ) * (sre - STB_SRQ)
  {
  }

  lemma WithRequestOk(stb: Bits, sre: Bits)
    ensures RequestBitOk(WithRequest(stb, sre), sre)
  {
    RequestSet(stb);
    RequestCleared(stb);
    EnabledSame(stb, sre);
  }

  lemma StoredKeepsRequest(t: Table, s: State, name: nat, val: Bits)
    requires name < |t.regs| == |s.regs| && |t.regs| > 1 && RequestOk(s.regs)
    requires t.ClassOf(name).ClassStb? <==> name == STB
    requires t.ClassOf(name).ClassSre? <==> name == SRE
    ensures RequestOk(Stored(t, s, name, val).regs)
  {
    var regs := s.regs[name := val];
    WithRequestOk(regs[STB], regs[SRE]);
  }

  /** Every write keeps the service request bit right. */
  lemma {:induction false} WriteKeepsRequest(w: Wiring, s: State, name: nat, val: Bits)
    requires |s.regs| == |w.t.regs| && name < |w.t.regs|
    requires RequestOk(s.regs)
    ensures RequestOk(Written(w, s, name, val).regs)
    decreases w.Height(name)
  {
    if s.regs[name] != val {
      assert w.t.RegOk(name);
      StoredKeepsRequest(w.t, s, name, val);
      var s1 := Stored(w.t, s, name, val);
      var next := Next(w.t, s1.regs, name, s.regs[name], val);
      NextIsNearer(w, s1.regs, name, s.regs[name], val);
      if next.Some? {
        WriteKeepsRequest(w, s1, next.value.0, next.value.1);
      }
    }
  }

  lemma OrZero(a: Bits)
    ensures a + {} == a
  {
  }

  lemma NoTransition(v: Bits, p: Bits, n: Bits)
    ensures Rising(v, v) == {} && Falling(v, v) == {}
    ensures (Rising(v, v) * p) + (Falling(v, v) * n) == {}
  {
  }

  /** An unchanged condition register latches nothing. */
  lemma LatchedSame(g: GroupInfo, regs: seq<Bits>, v: Bits, event: Bits)
    ensures event + Latched(g, regs, v, v) == event
  {
    NoTransition(v, Get(regs, g.ptfilt), Get(regs, g.ntfilt));
    OrZero(event);
  }

  lemma OrCommutes(a: Bits, b: Bits)
    ensures a + b == b + a
  {
  }

  /** A write stores its value; a new value of the status byte has its request bit recomputed. */
  lemma WriteStores(w: Wiring, s: State, name: nat, val: Bits)
    requires |s.regs| == |w.t.regs| && name < |w.t.regs|
    ensures Written(w, s, name, val).regs[name]
            == if name == STB && s.regs[STB] != val then WithRequest(val, s.regs[SRE]) else val
  {
    if s.regs[name] != val {
      assert w.t.RegOk(name) && w.t.RegOk(STB);
      var s1 := Stored(w.t, s, name, val);
      var next := Next(w.t, s1.regs, name, s.regs[name], val);
      NextIsNearer(w, s1.regs, name, s.regs[name], val);
      if next.Some? && Written(w, s1, next.value.0, next.value.1).regs[name] != s1.regs[name] {
        WriteReach(w, s1, next.value.0, next.value.1, name);
        PathClimbs(w, next.value.0, name);
      }
    }
  }

  /** One turn of the cascade: what is stored at once and what is passed on. */
  lemma WriteStep(w: Wiring, s: State, name: nat, val: Bits)
      returns (s1: State, next: Option<(nat, Bits)>)
    requires |s.regs| == |w.t.regs| && name < |w.t.regs| && s.regs[name] != val
    ensures s1 == Stored(w.t, s, name, val) && |s1.regs| == |s.regs|
    ensures w.t.regs[name].group < |w.t.groups|
    ensures next == Next(w.t, s1.regs, name, s.regs[name], val)
    ensures next.Some? ==>
              && next.value.0 < |w.t.regs| && w.Height(next.value.0) < w.Height(name)
              && (w.t.ClassOf(name).ClassEven? || w.t.ClassOf(name).ClassCond?)
              && s1.regs == s.regs[name := val]
    ensures Written(w, s, name, val) ==
            if next.Some? then Written(w, s1, next.value.0, next.value.1) else s1
    ensures forall r | 0 <= r < |w.t.regs| && r != name && r != STB :: s1.regs[r] == s.regs[r]
  {
    assert w.t.RegOk(name);
    s1 := Stored(w.t, s, name, val);
    next := Next(w.t, s1.regs, name, s.regs[name], val);
    NextIsNearer(w, s1.regs, name, s.regs[name], val);
  }

  /** Once its own register is stored, a write of another register leaves it be, unless nearer. */
  lemma WriteMisses(w: Wiring, s: State, name: nat, val: Bits, r: nat)
    requires |s.regs| == |w.t.regs| && name < |w.t.regs| && r < |w.t.regs|
    requires r != name && w.Height(r) >= w.Height(name)
    ensures Written(w, s, name, val).regs[r] == s.regs[r]
  {
    if Written(w, s, name, val).regs[r] != s.regs[r] {
      WriteReach(w, s, name, val, r);
      PathClimbs(w, name, r);
    }
  }

  /** Only a condition register passes its write on to an event register: its own group's. */
  lemma NextEvent(w: Wiring, regs: seq<Bits>, name: nat, before: Bits, val: Bits, g: nat)
    requires name < |w.t.regs| == |regs| && 0 < g < |w.t.groups|
    requires w.t.regs[name].group < |w.t.groups|
    requires var next := Next(w.t, regs, name, before, val); next.Some? && next.value.0 == w.t.groups[g].event
    ensures w.t.groups[g].condition == Some(name)
  {
    assert w.t.RegOk(name) && w.t.GroupOk(g) && w.t.RegOk(STB);
    assert w.t.GroupOk(w.t.regs[name].group);
  }

  /** Storing into an event or condition register leaves every filter and enable as it was. */
  lemma SettingsKept(w: Wiring, regs: seq<Bits>, name: nat, val: Bits, g: nat)
    requires name < |w.t.regs| == |regs| && 0 < g < |w.t.groups|
    requires w.t.ClassOf(name).ClassEven? || w.t.ClassOf(name).ClassCond?
    ensures var i := w.t.groups[g];
            && Get(regs[name := val], i.ptfilt) == Get(regs, i.ptfilt)
            && Get(regs[name := val], i.ntfilt) == Get(regs, i.ntfilt)
            && Get(regs[name := val], i.enable) == Get(regs, i.enable)
  {
    assert w.t.GroupOk(g);
  }

  /** What one write does to the event register `e` of group `g`. */
  ghost predicate Latches(t: Table, before: seq<Bits>, after: seq<Bits>, g: nat, c: nat, e: nat)
    requires g < |t.groups| && c < |before| && e < |before| && |before| == |after|
  {
    after[e] == before[e] + Latched(t.groups[g], before, before[c], after[c])
  }

  lemma LatchesFrom(t: Table, regs: seq<Bits>, regs1: seq<Bits>, after: seq<Bits>, g: nat, c: nat, e: nat)
    requires g < |t.groups| && c < |regs| && e < |regs| && |regs| == |after| == |regs1|
    requires Latches(t, regs1, after, g, c, e) && regs1[c] == regs[c] && regs1[e] == regs[e]
    requires Get(regs1, t.groups[g].ptfilt) == Get(regs, t.groups[g].ptfilt)
    requires Get(regs1, t.groups[g].ntfilt) == Get(regs, t.groups[g].ntfilt)
    ensures Latches(t, regs, after, g, c, e)
  {
  }

  lemma LatchesStill(t: Table, regs: seq<Bits>, after: seq<Bits>, g: nat, c: nat, e: nat)
    requires g < |t.groups| && c < |regs| && e < |regs| && |regs| == |after|
    requires after[c] == regs[c] && after[e] == regs[e]
    ensures Latches(t, regs, after, g, c, e)
  {
    LatchedSame(t.groups[g], regs, regs[c], regs[e]);
  }

  lemma ConditionLatches(w: Wiring, s: State, c: nat, val: Bits, g: nat)
    requires |s.regs| == |w.t.regs| && c < |w.t.regs| && s.regs[c] != val
    requires 0 < g < |w.t.groups| && w.t.groups[g].condition == Some(c)
    ensures w.t.groups[g].event < |w.t.regs|
    ensures Written(w, s, c, val).regs[c] == val
    ensures Latches(w.t, s.regs, Written(w, s, c, val).regs, g, c, w.t.groups[g].event)
  {
    assert w.t.GroupOk(g) && w.t.RegOk(STB) && w.t.RegOk(c);
    var e := w.t.groups[g].event;
    WriteStores(w, s, c, val);
    var s1, next := WriteStep(w, s, c, val);
    WriteStores(w, s1, e, next.value.1);
    SettingsKept(w, s.regs, c, val, g);
    OrCommutes(s.regs[e], Latched(w.t.groups[g], s.regs, s.regs[c], val));
  }

  /**
   One write and every event register it does not name: the event register ends
   with its old bits and the filtered transitions its condition register made.
   */
  lemma {:induction false} WriteLatches(w: Wiring, s: State, name: nat, val: Bits, g: nat)
    requires |s.regs| == |w.t.regs| && name < |w.t.regs|
    requires 0 < g < |w.t.groups| && w.t.groups[g].condition.Some? && name != w.t.groups[g].event
    ensures w.t.groups[g].condition.value < |w.t.regs| && w.t.groups[g].event < |w.t.regs|
    ensures Latches(w.t, s.regs, Written(w, s, name, val).regs, g, w.t.groups[g].condition.value, w.t.groups[g].event)
    decreases w.Height(name)
  {
    assert w.t.GroupOk(g) && w.t.RegOk(STB);
    var c, e := w.t.groups[g].condition.value, w.t.groups[g].event;
    if s.regs[name] == val {
      LatchesStill(w.t, s.regs, s.regs, g, c, e);
    } else if name == c {
      ConditionLatches(w, s, c, val, g);
    } else {
      var s1, next := WriteStep(w, s, name, val);
      if next.None? {
        LatchesStill(w.t, s.regs, s1.regs, g, c, e);
      } else {
        if next.value.0 == e {
          NextEvent(w, s1.regs, name, s.regs[name], val, g);
        }
        WriteLatches(w, s1, next.value.0, next.value.1, g);
        SettingsKept(w, s.regs, name, val, g);
        var after := Written(w, s1, next.value.0, next.value.1).regs;
        LatchesFrom(w.t, s.regs, s1.regs, after, g, c, e);
      }
    }
  }

  /** The summary bit of group `g` in its parent register. */
  function SummaryBits(t: Table, regs: seq<Bits>, g: nat): Bits
    requires g < |t.groups|
  {
    Get(regs, t.groups[g].parent) * t.groups[g].parentBit
  }

  function EventOf(t: Table, regs: seq<Bits>, g: nat): Bits
    requires g < |t.groups|
  {
    Get(regs, Some(t.groups[g].event))
  }

  lemma SetOther(parent: Bits, bit: Bits, other: Bits)
    requires bit * other == {}
    ensures (parent + bit) * other == parent * other && (parent - bit) * other == parent * other
  {
    assert forall b | b in other && b in bit :: b in bit * other;
  }

  lemma RequestSparesBit(stb: Bits, sre: Bits, bit: Bits)
    requires bit * STB_SRQ == {}
    ensures WithRequest(stb, sre) * bit == stb * bit
  {
    assert STB_SRQ * bit == bit * STB_SRQ;
    SetOther(stb, STB_SRQ, bit);
  }

  lemma SetOwn(summary: bool, parent: Bits, bit: Bits)
    requires bit != {}
    ensures AnyOf(WithSummary(summary, parent, bit), bit) <==> summary
  {
    SetOwnBit(parent, bit);
  }

  lemma SetOwnBit(parent: Bits, bit: Bits)
    ensures (parent + bit) * bit == bit && (parent - bit) * bit == {}
  {
  }

  /** What one write that names the parent register of `g` does to `g`'s summary bit: nothing of its own. */
  ghost predicate SummaryStored(t: Table, before: seq<Bits>, after: seq<Bits>, val: Bits, g: nat)
    requires g < |t.groups|
  {
    && SummaryBits(t, after, g) == val * t.groups[g].parentBit
    && EventOf(t, after, g) == EventOf(t, before, g)
  }

  /** What any other write does: a changed event register is summarised with the enable of the moment. */
  ghost predicate SummaryTracks(t: Table, before: seq<Bits>, after: seq<Bits>, g: nat)
    requires g < |t.groups|
  {
    if EventOf(t, after, g) == EventOf(t, before, g) then SummaryBits(t, after, g) == SummaryBits(t, before, g)
    else SummaryBits(t, after, g) != {} <==> AnyOf(EventOf(t, after, g), EnableOf(t.groups[g], after))
  }

  ghost predicate SummaryStep(t: Table, before: seq<Bits>, name: nat, val: Bits, after: seq<Bits>, g: nat)
    requires g < |t.groups|
  {
    if t.groups[g].parent == Some(name) then SummaryStored(t, before, after, val, g)
    else SummaryTracks(t, before, after, g)
  }

  lemma GetStored(regs: seq<Bits>, name: nat, val: Bits, r: Option<nat>)
    requires name < |regs|
    ensures Get(regs[name := val], r) == if r == Some(name) then val else Get(regs, r)
  {
  }

  /** Storing in a register, seen from group `g`. */
  lemma StoredElsewhere(t: Table, regs: seq<Bits>, name: nat, val: Bits, g: nat)
    requires name < |regs| && g < |t.groups|
    ensures t.groups[g].event != name ==> EventOf(t, regs[name := val], g) == EventOf(t, regs, g)
    ensures t.groups[g].parent != Some(name) ==> SummaryBits(t, regs[name := val], g) == SummaryBits(t, regs, g)
    ensures t.groups[g].parent == Some(name) ==>
              SummaryBits(t, regs[name := val], g) == val * t.groups[g].parentBit
  {
    GetStored(regs, name, val, t.groups[g].parent);
  }

  lemma RequestSummary(t: Table, regs: seq<Bits>, g: nat)
    requires |regs| > 1 && g < |t.groups| && t.groups[g].event != STB
    requires t.groups[g].parent == Some(STB) ==> t.groups[g].parentBit * STB_SRQ == {}
    ensures var after := regs[STB := WithRequest(regs[STB], regs[SRE])];
            EventOf(t, after, g) == EventOf(t, regs, g) && SummaryBits(t, after, g) == SummaryBits(t, regs, g)
  {
    var stb := WithRequest(regs[STB], regs[SRE]);
    StoredElsewhere(t, regs, STB, stb, g);
    if t.groups[g].parent == Some(STB) {
      RequestSparesBit(regs[STB], regs[SRE], t.groups[g].parentBit);
    }
  }

  lemma RequestKeepsStep(t: Table, before: seq<Bits>, name: nat, val: Bits, mid: seq<Bits>, after: seq<Bits>, g: nat)
    requires g < |t.groups| && SummaryStep(t, before, name, val, mid, g)
    requires EventOf(t, after, g) == EventOf(t, mid, g) == EventOf(t, before, g)
    requires SummaryBits(t, after, g) == SummaryBits(t, mid, g)
    ensures SummaryStep(t, before, name, val, after, g)
  {
  }

  lemma PlainStore(t: Table, regs: seq<Bits>, name: nat, val: Bits, g: nat)
    requires name < |regs| && g < |t.groups| && name != t.groups[g].event
    ensures SummaryStep(t, regs, name, val, regs[name := val], g)
  {
    StoredElsewhere(t, regs, name, val, g);
  }

  /** A write that passes nothing on. */
  lemma StoreSummary(w: SummaryWiring, s: State, name: nat, val: Bits, g: nat)
    requires |s.regs| == |w.t.regs| && name < |w.t.regs| && 0 < g < |w.t.groups|
    requires name != w.t.groups[g].event
    ensures SummaryStep(w.t, s.regs, name, val, Stored(w.t, s, name, val).regs, g)
  {
    var mid := s.regs[name := val];
    PlainStore(w.t, s.regs, name, val, g);
    if w.t.ClassOf(name).ClassStb? || w.t.ClassOf(name).ClassSre? {
      assert w.t.GroupOk(g) && w.t.BitOk(g) && w.t.RegOk(STB);
      StoredElsewhere(w.t, s.regs, name, val, g);
      RequestSummary(w.t, mid, g);
      RequestKeepsStep(w.t, s.regs, name, val, mid, Stored(w.t, s, name, val).regs, g);
    }
  }

  /** The registers a cascade passes through are no enables. */
  lemma EnableKept(w: Wiring, s: State, name: nat, val: Bits, g: nat)
    requires |s.regs| == |w.t.regs| && name < |w.t.regs| && 0 < g < |w.t.groups|
    requires !w.t.ClassOf(name).ClassEnab?
    ensures EnableOf(w.t.groups[g], Written(w, s, name, val).regs) == EnableOf(w.t.groups[g], s.regs)
  {
    assert w.t.GroupOk(g);
    var e := w.t.groups[g].enable;
    if e.Some? && Written(w, s, name, val).regs[e.value] != s.regs[e.value] {
      WriteReach(w, s, name, val, e.value);
      PathClimbs(w, name, e.value);
    }
  }

  /** The event register of `g` itself passes its summary to the parent. */
  lemma OwnSummary(t: Table, regs: seq<Bits>, val: Bits, g: nat, n: nat, after: seq<Bits>)
    requires g < |t.groups| && t.groups[g].event < |regs| && regs[t.groups[g].event] != val
    requires t.groups[g].parentBit != {}
    requires var regs1 := regs[t.groups[g].event := val];
             && SummaryStored(t, regs1, after, Summarised(t.groups[g], regs1, val, Get(regs1, Some(n))), g)
             && EnableOf(t.groups[g], after) == EnableOf(t.groups[g], regs1)
    ensures SummaryTracks(t, regs, after, g)
  {
    var regs1 := regs[t.groups[g].event := val];
    SetOwn(AnyOf(val, EnableOf(t.groups[g], regs1)), Get(regs1, Some(n)), t.groups[g].parentBit);
  }

  lemma WithSummaryOther(summary: bool, parent: Bits, bit: Bits, other: Bits)
    requires bit * other == {}
    ensures WithSummary(summary, parent, bit) * other == parent * other
  {
    SetOther(parent, bit, other);
  }

  lemma SummarisedOther(g: GroupInfo, regs: seq<Bits>, event: Bits, parent: Bits, other: Bits)
    requires g.parentBit * other == {}
    ensures Summarised(g, regs, event, parent) * other == parent * other
  {
    WithSummaryOther(AnyOf(event, EnableOf(g, regs)), parent, g.parentBit, other);
  }

  lemma SiblingBits(t: Table, regs: seq<Bits>, val: Bits, h: nat, g: nat, n: nat)
    requires g < |t.groups| && h < |t.groups| && t.groups[g].parent == Some(n)
    requires t.groups[h].parentBit * t.groups[g].parentBit == {}
    ensures Summarised(t.groups[h], regs, val, Get(regs, Some(n))) * t.groups[g].parentBit == SummaryBits(t, regs, g)
  {
    SummarisedOther(t.groups[h], regs, val, Get(regs, Some(n)), t.groups[g].parentBit);
  }

  /** The event register of another group passes its summary to the parent it shares with `g`. */
  lemma SiblingSummary(t: Table, regs: seq<Bits>, val: Bits, h: nat, g: nat, n: nat, after: seq<Bits>)
    requires g < |t.groups| && h < |t.groups| && t.groups[h].event < |regs|
    requires t.groups[h].event != t.groups[g].event && t.groups[h].event != n && t.groups[g].parent == Some(n)
    requires t.groups[h].parentBit * t.groups[g].parentBit == {}
    requires var regs1 := regs[t.groups[h].event := val];
             SummaryStored(t, regs1, after, Summarised(t.groups[h], regs1, val, Get(regs1, Some(n))), g)
    ensures SummaryTracks(t, regs, after, g)
  {
    SiblingBits(t, regs[t.groups[h].event := val], val, h, g, n);
    StoredElsewhere(t, regs, t.groups[h].event, val, g);
  }

  /** A condition register that is the parent of `g` passes its change to its own event register. */
  lemma ParentSummary(w: Wiring, s1: State, name: nat, val: Bits, g: nat, n: nat, v: Bits)
    requires |s1.regs| == |w.t.regs| && 0 < g < |w.t.groups|
    requires name < |w.t.regs| && n < |w.t.regs| && w.t.ClassOf(name).ClassCond?
    requires w.t.groups[g].parent == Some(name) && w.Height(n) < w.Height(name)
    ensures var after := Written(w, s1, n, v).regs;
            EventOf(w.t, after, g) == EventOf(w.t, s1.regs, g) && SummaryBits(w.t, after, g) == SummaryBits(w.t, s1.regs, g)
  {
    assert w.t.GroupOk(g) && w.t.RegOk(name);
    assert w.Height(w.t.groups[g].event) > w.Height(name);
    WriteMisses(w, s1, n, v, name);
    WriteMisses(w, s1, n, v, w.t.groups[g].event);
  }

  /** A write passed on to the parent of `g` comes from an event register with that parent. */
  lemma SharedParent(w: SummaryWiring, regs: seq<Bits>, name: nat, before: Bits, val: Bits, g: nat)
    requires name < |w.t.regs| == |regs| && 0 < g < |w.t.groups|
    requires w.t.regs[name].group < |w.t.groups|
    requires var next := Next(w.t, regs, name, before, val); next.Some? && w.t.groups[g].parent == Some(next.value.0)
    ensures var h, n := w.t.regs[name].group, w.t.groups[g].parent.value;
            && w.t.groups[h].event == name && n < |w.t.regs| && n != name && w.t.groups[h].parent == Some(n)
            && !w.t.ClassOf(n).ClassEnab?
            && Next(w.t, regs, name, before, val) == Some((n, Summarised(w.t.groups[h], regs, val, Get(regs, Some(n)))))
            && w.t.groups[g].parentBit != {}
            && (h != g ==> w.t.groups[g].event != name && w.t.groups[h].parentBit * w.t.groups[g].parentBit == {})
  {
    assert w.t.RegOk(name) && w.t.GroupOk(g) && w.t.BitOk(g) && w.t.RegOk(STB);
    assert w.t.GroupOk(w.t.regs[name].group);
    assert w.t.RegOk(w.t.groups[g].parent.value);
  }

  /** Passing a write on, when neither register involved belongs to `g`. */
  lemma TracksFrom(t: Table, before: seq<Bits>, mid: seq<Bits>, after: seq<Bits>, g: nat)
    requires g < |t.groups| && SummaryTracks(t, mid, after, g)
    requires EventOf(t, mid, g) == EventOf(t, before, g) && SummaryBits(t, mid, g) == SummaryBits(t, before, g)
    ensures SummaryTracks(t, before, after, g)
  {
  }

  lemma SharedSummary(w: SummaryWiring, s: State, name: nat, val: Bits, g: nat, s1: State, n: nat, v: Bits)
    requires |s.regs| == |w.t.regs| && name < |w.t.regs| && 0 < g < |w.t.groups|
    requires s.regs[name] != val && w.t.regs[name].group < |w.t.groups|
    requires s1.regs == s.regs[name := val] && n < |w.t.regs| && w.t.groups[g].parent == Some(n)
    requires Next(w.t, s1.regs, name, s.regs[name], val) == Some((n, v))
    requires SummaryStored(w.t, s1.regs, Written(w, s1, n, v).regs, v, g)
    ensures SummaryTracks(w.t, s.regs, Written(w, s1, n, v).regs, g)
  {
    var after := Written(w, s1, n, v).regs;
    SharedParent(w, s1.regs, name, s.regs[name], val, g);
    var h := w.t.regs[name].group;
    if h == g {
      EnableKept(w, s1, n, v, g);
      OwnSummary(w.t, s.regs, val, g, n, after);
    } else {
      SiblingSummary(w.t, s.regs, val, h, g, n, after);
    }
  }

  /** A write that names the event register of `g` is passed on to the parent of `g`. */
  lemma OwnEventPasses(w: Wiring, regs: seq<Bits>, name: nat, before: Bits, val: Bits, g: nat)
    requires name < |w.t.regs| == |regs| && 0 < g < |w.t.groups|
    requires w.t.regs[name].group < |w.t.groups|
    requires var next := Next(w.t, regs, name, before, val); next.Some? && w.t.groups[g].parent != Some(next.value.0)
    ensures w.t.groups[g].event != name
  {
    assert w.t.GroupOk(g);
  }

  /** A write that passes something on, once what it passes on is known to be right. */
  lemma PassedOn(w: SummaryWiring, s: State, name: nat, val: Bits, g: nat, s1: State, n: nat, v: Bits)
    requires |s.regs| == |w.t.regs| && name < |w.t.regs| && 0 < g < |w.t.groups|
    requires s.regs[name] != val && w.t.regs[name].group < |w.t.groups|
    requires s1.regs == s.regs[name := val] && n < |w.t.regs| && w.Height(n) < w.Height(name)
    requires w.t.ClassOf(name).ClassEven? || w.t.ClassOf(name).ClassCond?
    requires Next(w.t, s1.regs, name, s.regs[name], val) == Some((n, v))
    requires SummaryStep(w.t, s1.regs, n, v, Written(w, s1, n, v).regs, g)
    ensures SummaryStep(w.t, s.regs, name, val, Written(w, s1, n, v).regs, g)
  {
    var after := Written(w, s1, n, v).regs;
    if w.t.groups[g].parent == Some(name) {
      assert w.t.GroupOk(g) && w.t.RegOk(name) && w.t.RegOk(STB);
      StoredElsewhere(w.t, s.regs, name, val, g);
      ParentSummary(w, s1, name, val, g, n, v);
    } else if w.t.groups[g].parent == Some(n) {
      SharedSummary(w, s, name, val, g, s1, n, v);
    } else {
      OwnEventPasses(w, s1.regs, name, s.regs[name], val, g);
      StoredElsewhere(w.t, s.regs, name, val, g);
      TracksFrom(w.t, s.regs, s1.regs, after, g);
    }
  }

  /** One write and the summary bit of group `g`, whatever register the write names. */
  lemma {:induction false} WriteSummary(w: SummaryWiring, s: State, name: nat, val: Bits, g: nat)
    requires |s.regs| == |w.t.regs| && name < |w.t.regs| && 0 < g < |w.t.groups|
    ensures SummaryStep(w.t, s.regs, name, val, Written(w, s, name, val).regs, g)
    decreases w.Height(name)
  {
    if s.regs[name] != val {
      var s1, next := WriteStep(w, s, name, val);
      if next.None? {
        NextIsNearer(w, s1.regs, name, s.regs[name], val);
        assert w.t.GroupOk(g);
        StoreSummary(w, s, name, val, g);
      } else {
        WriteSummary(w, s1, next.value.0, next.value.1, g);
        PassedOn(w, s, name, val, g, s1, next.value.0, next.value.1);
      }
    }
  }
}
