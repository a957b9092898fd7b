/** First in, first out: what a reader of the queue gets, over any run. */
module ReportOrder {
  import opened Wrappers
  import opened Status
  import opened ErrorSpec
  import opened ErrorRuns

  /** A push: what was offered, and how many reports and heap cells were taken at the time. */
  datatype Offer = Offer(code: int, text: Option<string>, waiting: nat, used: nat)

  /** What was read so far, what waits, and what was pushed, each in order. */
  datatype Trace = Trace(read: seq<Report>, queue: seq<Report>, pushed: seq<Offer>)

  ghost function TraceOf(c: Capacity, ops: seq<Op>): (t: Trace)
    requires c.size > 0
    ensures |t.queue| <= c.size
  {
    if ops == [] then Trace([], [], [])
    else
      var t := TraceOf(c, ops[..|ops| - 1]);
      match ops[|ops| - 1]
      case Push(err, offered) =>
        t.(queue := Pushed(c, t.queue, err, offered),
            pushed := t.pushed + [Offer(err, offered, |t.queue|, Used(t.queue))])
      case Pop =>
        if t.queue == [] then t else t.(read := t.read + [t.queue[0]], queue := t.queue[1..])
      case Clear => t.(queue := [])
      case Cls => t.(queue := [])
      case Direct(_, _) => t
  }

  /** The trace's queue is the queue of the run. */
  lemma {:induction false} TraceIsRun(w: Wiring, c: Capacity, ops: seq<Op>)
    requires c.size > 0
    ensures TraceOf(c, ops).queue == RunOps(w, c, ops).queue
  {
    if ops != [] {
      TraceIsRun(w, c, ops[..|ops| - 1]);
    }
  }

  /**
   The report that stands for a push: an overflow exactly when the queue was full; otherwise
   the code, and the text unless it was empty or did not fit into the heap.
   */
  function StandIn(c: Capacity, p: Offer): Report {
    if p.waiting >= c.size then Report(QUEUE_OVERFLOW, None)
    else if p.text.Some? && (p.text.value == "" || p.used + |p.text.value| + 1 > c.heap) then Report(p.code, None)
    else Report(p.code, p.text)
  }

  /** `out` stands for some of `pushed`, in the same order and each push at most once. */
  ghost predicate InOrder(c: Capacity, out: seq<Report>, pushed: seq<Offer>)
    decreases |pushed|
  {
    if out == [] then true
    else if pushed == [] then false
    else
      || InOrder(c, out, pushed[..|pushed| - 1])
      || (out[|out| - 1] == StandIn(c, pushed[|pushed| - 1])
          && InOrder(c, out[..|out| - 1], pushed[..|pushed| - 1]))
  }

  lemma {:induction false} InOrderInit(c: Capacity, out: seq<Report>, r: Report, pushed: seq<Offer>)
    requires InOrder(c, out + [r], pushed)
    ensures InOrder(c, out, pushed)
    decreases |pushed|
  {
    assert (out + [r])[..|out|] == out;
    if InOrder(c, out + [r], pushed[..|pushed| - 1]) {
      InOrderInit(c, out, r, pushed[..|pushed| - 1]);
    }
  }

  lemma {:induction false} InOrderPrefix(c: Capacity, out: seq<Report>, rest: seq<Report>, pushed: seq<Offer>)
    requires InOrder(c, out + rest, pushed)
    ensures InOrder(c, out, pushed)
    decreases |rest|
  {
    if rest == [] {
      assert out + rest == out;
    } else {
      var init := rest[..|rest| - 1];
      assert out + rest == (out + init) + [rest[|rest| - 1]];
      InOrderInit(c, out + init, rest[|rest| - 1], pushed);
      InOrderPrefix(c, out, init, pushed);
    }
  }

  lemma InOrderPush(c: Capacity, out: seq<Report>, r: Report, pushed: seq<Offer>, p: Offer)
    requires InOrder(c, out, pushed) && r == StandIn(c, p)
    ensures InOrder(c, out + [r], pushed + [p])
  {
    assert (out + [r])[..|out|] == out && (pushed + [p])[..|pushed|] == pushed;
  }

  /**
   Over every run, what was read followed by what waits stands for pushes in the
   order they were made: nothing is read twice, invented, or out of order.
   */
  lemma {:induction false} ReadInOrder(c: Capacity, ops: seq<Op>)
    requires c.size > 0
    ensures var t := TraceOf(c, ops); InOrder(c, t.read + t.queue, t.pushed)
  {
    if ops != [] {
      var t := TraceOf(c, ops[..|ops| - 1]);
      ReadInOrder(c, ops[..|ops| - 1]);
      match ops[|ops| - 1]
      case Push(err, offered) =>
        var p := Offer(err, offered, |t.queue|, Used(t.queue));
        if |t.queue| < c.size {
          var r := Report(err, Kept(c, t.queue, offered));
          InOrderPush(c, t.read + t.queue, r, t.pushed, p);
          assert t.read + (t.queue + [r]) == (t.read + t.queue) + [r];
        } else {
          var kept := t.queue[..c.size - 1];
          assert t.read + t.queue == (t.read + kept) + [t.queue[c.size - 1]];
          InOrderInit(c, t.read + kept, t.queue[c.size - 1], t.pushed);
          InOrderPush(c, t.read + kept, Report(QUEUE_OVERFLOW, None), t.pushed, p);
          assert t.read + (kept + [Report(QUEUE_OVERFLOW, None)])
              == (t.read + kept) + [Report(QUEUE_OVERFLOW, None)];
        }
      case Pop =>
        if t.queue != [] {
          assert (t.read + [t.queue[0]]) + t.queue[1..] == t.read + t.queue;
        }
      case Direct(_, _) =>
      case _ =>
        InOrderPrefix(c, t.read, t.queue, t.pushed);
        assert t.read + [] == t.read;
    }
  }

  ghost predicate NeverFull(c: Capacity, ops: seq<Op>)
    requires c.size > 0
  {
    forall i | 0 <= i < |ops| ::
      && !ops[i].Clear? && !ops[i].Cls?
      && (ops[i].Push? ==> |TraceOf(c, ops[..i]).queue| < c.size)
  }

  function Codes(rs: seq<Report>): (cs: seq<int>)
    ensures |cs| == |rs|
  {
    seq(|rs|, i requires 0 <= i < |rs| => rs[i].code)
  }

  function OfferedCodes(ps: seq<Offer>): (cs: seq<int>)
    ensures |cs| == |ps|
  {
    seq(|ps|, i requires 0 <= i < |ps| => ps[i].code)
  }

  /** Without clears and overflows no error is lost. */
  lemma {:induction false} NothingLost(c: Capacity, ops: seq<Op>)
    requires c.size > 0 && NeverFull(c, ops)
    ensures var t := TraceOf(c, ops); Codes(t.read + t.queue) == OfferedCodes(t.pushed)
  {
    if ops != [] {
      var init := ops[..|ops| - 1];
      var t := TraceOf(c, init);
      assert forall i | 0 <= i < |init| :: init[..i] == ops[..i];
      NothingLost(c, init);
      match ops[|ops| - 1]
      case Push(err, offered) =>
        assert |TraceOf(c, ops[..|ops| - 1]).queue| < c.size;
        var r := Report(err, Kept(c, t.queue, offered));
        assert t.read + (t.queue + [r]) == (t.read + t.queue) + [r];
        CodesSnoc(t.read + t.queue, r);
        OfferedSnoc(t.pushed, Offer(err, offered, |t.queue|, Used(t.queue)));
      case Pop =>
        if t.queue != [] {
          assert (t.read + [t.queue[0]]) + t.queue[1..] == t.read + t.queue;
        }
      case Direct(_, _) =>
    }
  }

  lemma CodesSnoc(rs: seq<Report>, r: Report)
    ensures Codes(rs + [r]) == Codes(rs) + [r.code]
  {
  }

  lemma OfferedSnoc(ps: seq<Offer>, p: Offer)
    ensures OfferedCodes(ps + [p]) == OfferedCodes(ps) + [p.code]
  {
  }
}
