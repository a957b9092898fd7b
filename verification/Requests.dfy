/** The service requests that register writes send; IEEE 488.2, section 11.3. */
module Requests {
  import opened Wrappers
  import opened Status
  import opened StatusRuns

  predicate NewBit(before: Bits, after: Bits) {
    exists b: BitNo :: b in after && b !in before
  }

  /** An enabled status bit is set; the request bit does not count. */
  predicate Calls(stb: Bits, sre: Bits) {
    exists b: BitNo :: b != 6 && b in stb && b in sre
  }

  lemma RisingBits(before: Bits, after: Bits)
    ensures Rising(before, after) * after != {} <==> NewBit(before, after)
  {
    if NewBit(before, after) {
      var b: BitNo :| b in after && b !in before;
      assert b in Rising(before, after) * after;
    }
    if Rising(before, after) * after != {} {
      var b :| b in Rising(before, after) * after;
      assert b in after && b !in before;
    }
  }

  lemma RequestedBits(stb: Bits, sre: Bits)
    ensures Requested(stb, sre) <==> Calls(stb, sre)
  {
    if Calls(stb, sre) {
      var b: BitNo :| b != 6 && b in stb && b in sre;
      assert b in (stb - STB_SRQ) * (sre - STB_SRQ);
    }
    if Requested(stb, sre) {
      var b :| b in (stb - STB_SRQ) * (sre - STB_SRQ);
      assert b != 6 && b in stb && b in sre;
    }
  }

  /** `after` is `v` but for the request bit, which says whether an enabled bit is set. */
  predicate Recomputed(v: Bits, sre: Bits, after: Bits) {
    (forall b: BitNo | b != 6 :: b in after <==> b in v) && (6 in after <==> Calls(v, sre))
  }

  lemma RequestBits(v: Bits, sre: Bits)
    ensures Recomputed(v, sre, WithRequest(v, sre))
  {
    RequestedBits(v, sre);
  }

  /** The requests that a change from `before` to `v` adds. */
  predicate Sent(old_: seq<Bits>, new_: seq<Bits>, due: bool, stb: Bits) {
    if due then new_ == old_ + [stb] else new_ == old_
  }

  /** What storing in the status byte or its enable register does. */
  lemma RequestSends(s: State, before: Bits, v: Bits)
    requires |s.regs| > 1
    ensures var s' := Request(s, before, v);
            && |s'.regs| == |s.regs| && s'.regs[SRE] == s.regs[SRE]
            && Recomputed(s.regs[STB], s.regs[SRE], s'.regs[STB])
            && Sent(s.requests, s'.requests, NewBit(before, v) && Calls(s.regs[STB], s.regs[SRE]), s'.regs[STB])
  {
    hide Recomputed, NewBit, Calls, Rising, WithRequest, Requested;
    RequestBits(s.regs[STB], s.regs[SRE]);
    RequestedBits(s.regs[STB], s.regs[SRE]);
    RisingBits(before, v);
  }

  lemma NoNewBit(v: Bits)
    ensures !NewBit(v, v)
  {
  }

  /** A write of the status byte. */
  lemma StatusWriteSends(w: Wiring, s: State, val: Bits)
    requires |s.regs| == |w.t.regs|
    ensures var s' := Written(w, s, STB, val);
            && Sent(s.requests, s'.requests, NewBit(s.regs[STB], val) && Calls(val, s.regs[SRE]), s'.regs[STB])
            && (s.regs[STB] != val ==> Recomputed(val, s.regs[SRE], s'.regs[STB]))
  {
    hide Request, Recomputed, NewBit, Calls;
    assert w.t.RegOk(STB);
    NoNewBit(val);
    RequestSends(s.(regs := s.regs[STB := val]), s.regs[STB], val);
  }

  /** A write of the service request enable register. */
  lemma EnableWriteSends(w: Wiring, s: State, val: Bits)
    requires |s.regs| == |w.t.regs|
    ensures var s' := Written(w, s, SRE, val);
            && Sent(s.requests, s'.requests, NewBit(s.regs[SRE], val) && Calls(s.regs[STB], val), s'.regs[STB])
            && (s.regs[SRE] != val ==> Recomputed(s.regs[STB], val, s'.regs[STB]))
  {
    hide Request, Recomputed, NewBit, Calls;
    assert w.t.RegOk(SRE) && w.t.RegOk(STB);
    NoNewBit(val);
    RequestSends(s.(regs := s.regs[SRE := val]), s.regs[SRE], val);
  }

  /** The value that a write brings to the status byte, if it gets there. */
  ghost function Arriving(w: Wiring, s: State, name: nat, val: Bits): Option<Bits>
    requires |s.regs| == |w.t.regs| && name < |w.t.regs|
    decreases w.Height(name)
  {
    if name == STB then Some(val)
    else if s.regs[name] == val then None
    else
      assert w.t.RegOk(name);
      var s1 := Stored(w.t, s, name, val);
      var next := Next(w.t, s1.regs, name, s.regs[name], val);
      NextIsNearer(w, s1.regs, name, s.regs[name], val);
      if next.Some? then Arriving(w, s1, next.value.0, next.value.1) else None
  }

  /** What a write does to status byte and requests, `v` being what it brings to the status byte. */
  ghost predicate Arrives(s: State, v: Option<Bits>, s': State)
    requires |s.regs| == |s'.regs| > 1
  {
    && s'.regs[SRE] == s.regs[SRE]
    && match v
       case None => s'.regs[STB] == s.regs[STB] && s'.requests == s.requests
       case Some(v) =>
         && Sent(s.requests, s'.requests, NewBit(s.regs[STB], v) && Calls(v, s.regs[SRE]), s'.regs[STB])
         && (if s.regs[STB] == v then s'.regs[STB] == v else Recomputed(v, s.regs[SRE], s'.regs[STB]))
  }

  lemma PlainWrite(t: Table, s: State, name: nat, val: Bits)
    requires name < |t.regs| == |s.regs| && |t.regs| > 1 && name != STB && name != SRE
    requires !t.ClassOf(name).ClassStb? && !t.ClassOf(name).ClassSre?
    ensures var s1 := Stored(t, s, name, val);
            s1.regs[STB] == s.regs[STB] && s1.regs[SRE] == s.regs[SRE] && s1.requests == s.requests
  {
  }

  /** A write of any register but the enable register of the status byte. */
  lemma {:induction false} WriteSends(w: Wiring, s: State, name: nat, val: Bits)
    requires |s.regs| == |w.t.regs| && name < |w.t.regs| && name != SRE
    ensures Arrives(s, Arriving(w, s, name, val), Written(w, s, name, val))
    decreases w.Height(name)
  {
    hide Sent, NewBit, Calls, Recomputed;
    assert w.t.RegOk(name) && w.t.RegOk(STB) && w.t.RegOk(SRE);
    if name == STB {
      StatusWriteSends(w, s, val);
      if Written(w, s, STB, val).regs[SRE] != s.regs[SRE] {
        WriteReach(w, s, STB, val, SRE);
      }
    } else if s.regs[name] != val {
      PlainWrite(w.t, s, name, val);
      var s1, next := WriteStep(w, s, name, val);
      if next.Some? {
        NextIsNearer(w, s1.regs, name, s.regs[name], val);
        WriteSends(w, s1, next.value.0, next.value.1);
      }
    }
  }

  /** A write sends at most one request: the status byte as it stands afterwards, bit 6 set. */
  lemma OneRequest(w: Wiring, s: State, name: nat, val: Bits)
    requires |s.regs| == |w.t.regs| && name < |w.t.regs|
    ensures var s' := Written(w, s, name, val);
            s'.requests == s.requests || (s'.requests == s.requests + [s'.regs[STB]] && 6 in s'.regs[STB])
  {
    hide NewBit, Calls;
    if name == SRE {
      EnableWriteSends(w, s, val);
      NoNewBit(val);
    } else {
      WriteSends(w, s, name, val);
      NoNewBit(s.regs[STB]);
    }
  }

  /** Bit 6 says whether an enabled bit is set, as it does in every state that a run reaches. */
  lemma RequestBitMeans(regs: seq<Bits>)
    requires |regs| > 1 && RequestOk(regs)
    ensures 6 in regs[STB] <==> Calls(regs[STB], regs[SRE])
  {
    var stb, sre := regs[STB], regs[SRE];
    if 6 in stb {
      assert 6 in stb * STB_SRQ;
      var b :| b in stb * sre - STB_SRQ;
      assert b != 6 && b in stb && b in sre;
    }
    if Calls(stb, sre) {
      var b: BitNo :| b != 6 && b in stb && b in sre;
      assert b in stb * sre - STB_SRQ;
    }
  }

  lemma CallsAlike(v: Bits, sre: Bits, after: Bits)
    requires forall b: BitNo | b != 6 :: b in after <==> b in v
    ensures Calls(after, sre) <==> Calls(v, sre)
  {
  }

  /** An enabled bit that was not set before. */
  lemma CallsAnew(before: Bits, sre: Bits, v: Bits)
    requires !Calls(before, sre) && Calls(v, sre)
    ensures exists b: BitNo :: b != 6 && b in v && b !in before
  {
    var b: BitNo :| b != 6 && b in v && b in sre;
    assert b !in before;
  }

  /**
   In terms of the registers before and after: a request is sent exactly when the status byte has
   a new bit besides bit 6 and an enabled one is set.
   */
  lemma RequestsExact(w: Wiring, s: State, name: nat, val: Bits)
    requires |s.regs| == |w.t.regs| && name < |w.t.regs| && name != SRE && RequestOk(s.regs)
    ensures var s' := Written(w, s, name, val);
            var due := (exists b: BitNo :: b != 6 && b in s'.regs[STB] && b !in s.regs[STB])
                       && Calls(s'.regs[STB], s'.regs[SRE]);
            Sent(s.requests, s'.requests, due, s'.regs[STB])
  {
    hide Written, Arriving, Calls;
    RequestBitMeans(s.regs);
    WriteSends(w, s, name, val);
    var s', v := Written(w, s, name, val), Arriving(w, s, name, val);
    if v.Some? {
      CallsAlike(v.value, s.regs[SRE], s'.regs[STB]);
      if Calls(v.value, s.regs[SRE]) && !Calls(s.regs[STB], s.regs[SRE]) {
        CallsAnew(s.regs[STB], s.regs[SRE], v.value);
      }
    }
  }

  lemma SomeNewBit(before: Bits, sre: Bits, v: Option<Bits>)
    ensures v.Some? && Calls(v.value, sre) && !Calls(before, sre) ==> NewBit(before, v.value)
  {
    if v.Some? && Calls(v.value, sre) && !Calls(before, sre) {
      CallsAnew(before, sre, v.value);
    }
  }

  lemma EnabledAnew(stb: Bits, before: Bits, sre: Bits)
    ensures Calls(stb, sre) && !Calls(stb, before) ==> NewBit(before, sre)
  {
  }

  lemma SameEnable(w: Wiring, s: State, val: Bits)
    requires |s.regs| == |w.t.regs|
    ensures s.regs[SRE] == val ==> Written(w, s, SRE, val) == s
  {
  }

  /** Whatever write turns the request bit on sends a request. */
  lemma TurningOnSends(w: Wiring, s: State, name: nat, val: Bits)
    requires |s.regs| == |w.t.regs| && name < |w.t.regs| && RequestOk(s.regs)
    requires 6 !in s.regs[STB] && 6 in Written(w, s, name, val).regs[STB]
    ensures Written(w, s, name, val).requests == s.requests + [Written(w, s, name, val).regs[STB]]
  {
    hide Written, Arriving, RequestOk, Calls;
    RequestBitMeans(s.regs);
    var s' := Written(w, s, name, val);
    if name == SRE {
      SameEnable(w, s, val);
      EnableWriteSends(w, s, val);
      EnabledAnew(s.regs[STB], s.regs[SRE], val);
    } else {
      WriteSends(w, s, name, val);
      SomeNewBit(s.regs[STB], s'.regs[SRE], Arriving(w, s, name, val));
    }
  }

  /** Over every run: each request is a status byte with bit 6 set. */
  lemma {:induction false} RunRequests(w: Wiring, xs: seq<Write>)
    ensures forall r | r in Run(w, xs).state.requests :: 6 in r
  {
    if xs != [] {
      var h, x := Run(w, xs[..|xs| - 1]), xs[|xs| - 1];
      RunRequests(w, xs[..|xs| - 1]);
      if x.name < |w.t.regs| {
        OneRequest(w, h.state, x.name, x.val);
      }
    }
  }

  /**
   Over every run: no request is taken back, and whenever the request bit turns on, the status byte
   of that moment is the next request.
   */
  lemma {:induction false} RunSends(w: Wiring, xs: seq<Write>, i: nat)
    requires i < |xs|
    ensures var before, after, end := Run(w, xs[..i]).state, Run(w, xs[..i + 1]).state, Run(w, xs).state;
            && before.requests <= after.requests <= end.requests
            && (6 !in before.regs[STB] && 6 in after.regs[STB] ==>
                  |before.requests| < |end.requests| && end.requests[|before.requests|] == after.regs[STB])
    decreases |xs|
  {
    var ys, x := xs[..|xs| - 1], xs[|xs| - 1];
    var h := Run(w, ys);
    if x.name < |w.t.regs| {
      OneRequest(w, h.state, x.name, x.val);
    }
    if i + 1 == |xs| {
      assert xs[..i] == ys && xs[..i + 1] == xs;
      RunKeepsRequest(w, ys);
      if x.name < |w.t.regs| && 6 !in h.state.regs[STB] && 6 in Run(w, xs).state.regs[STB] {
        TurningOnSends(w, h.state, x.name, x.val);
      }
    } else {
      assert ys[..i] == xs[..i] && ys[..i + 1] == xs[..i + 1];
      RunSends(w, ys, i);
    }
  }
}
