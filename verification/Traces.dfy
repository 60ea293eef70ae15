/**
 * Runs of the whole machine seen from its parts: the controller's operations with their ticks, and what
 * happens to one processor. Theorems about the parts hold of machine runs through these.
 */
module Traces {
  import opened Words
  import opened EventQueue
  import opened Cpu
  import opened Pic
  import opened Bookkeeping
  import opened ControllerRuns
  import opened PreciseExceptions
  import opened Kernel
  import Fairness

  // ---- what controller operations do to a processor's lines ------------------------------

  lemma {:induction false} SetLinesAppend(c: Cpu, xs: seq<LineOp>, ys: seq<LineOp>)
    ensures SetLines(c, xs + ys) == SetLines(SetLines(c, xs), ys)
    decreases |xs|
  {
    if xs == [] {
      assert xs + ys == ys;
    } else {
      assert (xs + ys)[0] == xs[0] && (xs + ys)[1..] == xs[1..] + ys;
      SetLinesAppend(SetLine(c, xs[0]), xs[1..], ys);
    }
  }

  lemma {:induction false} DeliverLines(s: Irq, origin: nat, outbox: Word, i: nat, t: nat) returns (lines: seq<LineOp>)
    requires s.Wf() && i <= |s.cpus| && t < |s.cpus|
    ensures DeliverBelow(s, origin, outbox, i).cpus[t] == SetLines(s.cpus[t], lines)
  {
    if i == 0 {
      lines := [];
    } else {
      lines := DeliverLines(s, origin, outbox, i - 1, t);
      var r := DeliverBelow(s, origin, outbox, i - 1);
      if t == i - 1 && BitVal(Recipients(outbox), t) && HasSlot(r.pic.cpuData[t].inbox, origin) {
        SetLinesAppend(s.cpus[t], lines, [Up(IL_IPI)]);
        OneLine(r.cpus[t], Up(IL_IPI));
        lines := lines + [Up(IL_IPI)];
      }
    }
  }

  /** A controller operation reaches a processor only by raising and lowering lines. */
  lemma ApplyLines(s: Irq, op: PicOp, t: nat) returns (lines: seq<LineOp>)
    requires s.Wf() && t < |s.cpus|
    ensures |Apply(s, op).cpus| == |s.cpus| && Apply(s, op).cpus[t] == SetLines(s.cpus[t], lines)
  {
    lines := [];
    match op {
      case Raise(il, d) =>
        if IsSource(il, d) && Target(s.pic, s.pic.sources[il][d]) == Some(t) {
          OneLine(s.cpus[t], Up(2 + il));
          lines := [Up(2 + il)];
        }
      case Acknowledge(il, d) =>
        if IsSource(il, d) && EndIRQ(s, il, d).cpus[t] != s.cpus[t] {
          OneLine(s.cpus[t], Down(2 + il));
          lines := [Down(2 + il)];
        }
      case Deliver(origin, outbox) =>
        if origin < |s.cpus| { lines := DeliverLines(s, origin, outbox, |s.cpus|, t); }
      case TakeMessage(u) =>
        if u == t && InboxAck(s, u).cpus[t] != s.cpus[t] {
          OneLine(s.cpus[t], Down(IL_IPI));
          lines := [Down(IL_IPI)];
        }
      case _ =>
    }
  }

  // ---- the controller does not look at the processors -------------------------------------

  lemma {:induction false} DeliverPicOnly(a: Irq, b: Irq, origin: nat, outbox: Word, i: nat)
    requires a.Wf() && b.Wf() && a.pic == b.pic && i <= |a.cpus|
    ensures DeliverBelow(a, origin, outbox, i).pic == DeliverBelow(b, origin, outbox, i).pic
  {
    hide BitVal, HasSlot, SetBit32, AssertIRQ;
    if i > 0 { DeliverPicOnly(a, b, origin, outbox, i - 1); }
  }

  lemma ApplyPicOnly(a: Irq, b: Irq, op: PicOp)
    requires a.Wf() && b.Wf() && a.pic == b.pic
    ensures Apply(a, op).pic == Apply(b, op).pic
    ensures Fairness.DynamicDelivery(a, op) == Fairness.DynamicDelivery(b, op)
    ensures forall t | 0 <= t < |a.cpus| :: Accepted(a, op, t) == Accepted(b, op, t) && Taken(a, op, t) == Taken(b, op, t)
  {
    hide BitVal, Target, HasSlot;
    if op.Deliver? && op.origin < |a.cpus| { DeliverPicOnly(a, b, op.origin, op.outbox, |a.cpus|); }
    forall t | 0 <= t < |a.cpus| ensures Accepted(a, op, t) == Accepted(b, op, t) && Taken(a, op, t) == Taken(b, op, t) {
      SamePicAccepts(a, b, op, t);
    }
  }

  lemma SamePicAccepts(a: Irq, b: Irq, op: PicOp, t: nat)
    requires a.Wf() && b.Wf() && a.pic == b.pic && t < |a.cpus|
    ensures Accepted(a, op, t) == Accepted(b, op, t) && Taken(a, op, t) == Taken(b, op, t)
  {
    assert InboxOf(a, t) == InboxOf(b, t);
    hide BitVal;
  }

  lemma {:induction false} RunPicOnly(a: Irq, b: Irq, ops: seq<PicOp>)
    requires Inv(a) && Inv(b) && a.pic == b.pic
    ensures Run(a, ops).pic == Run(b, ops).pic
  {
    hide Inv, Apply;
    if ops != [] {
      RunPicOnly(a, b, ops[..|ops| - 1]);
      WellFormed(Run(a, ops[..|ops| - 1]));
      WellFormed(Run(b, ops[..|ops| - 1]));
      ApplyPicOnly(Run(a, ops[..|ops| - 1]), Run(b, ops[..|ops| - 1]), ops[|ops| - 1]);
    }
  }

  lemma WellFormed(s: Irq)
    requires Inv(s)
    ensures s.Wf()
  {
  }

  lemma {:induction false} RunAppend(s: Irq, xs: seq<PicOp>, ys: seq<PicOp>)
    requires Inv(s)
    ensures Run(s, xs + ys) == Run(Run(s, xs), ys)
  {
    hide Inv, Apply;
    if ys == [] {
      assert xs + ys == xs;
    } else {
      assert (xs + ys)[..|xs + ys| - 1] == xs + ys[..|ys| - 1];
      RunAppend(s, xs, ys[..|ys| - 1]);
    }
  }

  lemma RunOne(s: Irq, op: PicOp)
    requires Inv(s)
    ensures Run(s, [op]) == Apply(s, op)
  {
    assert [op][..0] == [];
  }

  lemma {:induction false} DeliveriesPicOnly(a: Irq, b: Irq, ops: seq<PicOp>)
    requires Inv(a) && Inv(b) && a.pic == b.pic
    ensures Fairness.Deliveries(a, ops) == Fairness.Deliveries(b, ops)
    decreases |ops|
  {
    hide Inv, Apply, Fairness.DynamicDelivery;
    if ops != [] {
      WellFormed(a);
      WellFormed(b);
      ApplyPicOnly(a, b, ops[0]);
      DeliveriesPicOnly(Fairness.Next(a, ops[0]), Fairness.Next(b, ops[0]), ops[1..]);
    }
  }

  lemma {:induction false} DeliveriesAppend(s: Irq, xs: seq<PicOp>, ys: seq<PicOp>)
    requires Inv(s)
    ensures Fairness.Deliveries(s, xs + ys) == Fairness.Deliveries(s, xs) + Fairness.Deliveries(Run(s, xs), ys)
    decreases |xs|
  {
    hide Inv, Apply, Fairness.DynamicDelivery;
    if xs == [] {
      assert xs + ys == ys;
    } else {
      var s1 := Fairness.Next(s, xs[0]);
      assert (xs + ys)[1..] == xs[1..] + ys;
      DeliveriesAppend(s1, xs[1..], ys);
      RunAppend(s, [xs[0]], xs[1..]);
      RunOne(s, xs[0]);
      assert [xs[0]] + xs[1..] == xs;
    }
  }

  // ---- the log ------------------------------------------------------------------------------

  function Ops(log: seq<Applied>): (r: seq<PicOp>)
    ensures |r| == |log| && forall i | 0 <= i < |log| :: r[i] == log[i].op
  {
    seq(|log|, i requires 0 <= i < |log| => log[i].op)
  }

  /** Where the dynamically routed interrupts of the log went, in order. */
  function Went(log: seq<Applied>): seq<nat> {
    if log == [] then [] else Went(log[..|log| - 1]) + log[|log| - 1].went
  }

  ghost predicate Ticks(log: seq<Applied>, from: int, upTo: int) {
    && (forall i | 0 <= i < |log| :: from <= log[i].at <= upTo)
    && (forall i, j | 0 <= i < j < |log| :: log[i].at <= log[j].at)
  }

  lemma OpsAppend(a: seq<Applied>, b: seq<Applied>)
    ensures Ops(a + b) == Ops(a) + Ops(b)
  {
  }

  lemma {:induction false} WentAppend(a: seq<Applied>, b: seq<Applied>)
    ensures Went(a + b) == Went(a) + Went(b)
  {
    if b == [] {
      assert a + b == a;
    } else {
      assert (a + b)[..|a + b| - 1] == a + b[..|b| - 1];
      WentAppend(a, b[..|b| - 1]);
    }
  }

  /** The entries of `log` are what led the controller from `s` to `p`. */
  ghost predicate Explains(s: Irq, log: seq<Applied>, p: Pic)
    requires Inv(s)
  {
    p == Run(s, Ops(log)).pic && Went(log) == Fairness.Deliveries(s, Ops(log))
  }

  lemma ExplainsAppend(s: Irq, a: seq<Applied>, m: Irq, b: seq<Applied>, p: Pic)
    requires Inv(s) && Inv(m) && Explains(s, a, m.pic) && Explains(m, b, p)
    ensures Explains(s, a + b, p)
  {
    hide Inv, Run, Fairness.Deliveries, Went, Ops;
    var r := Run(s, Ops(a));
    OpsAppend(a, b);
    WentAppend(a, b);
    RunAppend(s, Ops(a), Ops(b));
    RunKeepsInv(s, Ops(a));
    RunPicOnly(r, m, Ops(b));
    DeliveriesAppend(s, Ops(a), Ops(b));
    DeliveriesPicOnly(r, m, Ops(b));
  }

  lemma RunKeepsInv(s: Irq, ops: seq<PicOp>)
    requires Inv(s)
    ensures Inv(Run(s, ops))
  {
  }

  lemma ExplainsNothing(s: Irq)
    requires Inv(s)
    ensures Explains(s, [], s.pic)
  {
  }

  lemma ExplainsOne(s: Irq, op: PicOp, at: U64)
    requires Inv(s)
    ensures s.Wf() && Explains(s, [Applied(op, at, Fairness.DynamicDelivery(s, op))], Apply(s, op).pic)
  {
    hide Inv, Apply, Fairness.DynamicDelivery;
    WellFormed(s);
    var e := Applied(op, at, Fairness.DynamicDelivery(s, op));
    assert Ops([e]) == [op];
    RunOne(s, op);
    assert [e][..0] == [] && Went([e]) == Went([]) + e.went;
    DeliveriesOne(s, op);
  }

  lemma DeliveriesOne(s: Irq, op: PicOp)
    requires Inv(s)
    ensures s.Wf() && Fairness.Deliveries(s, [op]) == Fairness.DynamicDelivery(s, op)
  {
    hide Apply, Fairness.DynamicDelivery;
    assert [op][1..] == [];
  }

  // ---- messages -------------------------------------------------------------------------------

  /** The deliveries of the log, as the events that made them. */
  function Delivered<D>(log: seq<Applied>): seq<Ev<D>> {
    if log == [] then []
    else
      var a := log[|log| - 1];
      Delivered(log[..|log| - 1]) + if a.op.Deliver? then [Event(a.at, IpiDelivery(a.op.origin, a.op.outbox))] else []
  }

  /** The events that writing to the outboxes scheduled. */
  function Outgoing<D>(sent: seq<Sent>, latency: Delay): seq<Ev<D>> {
    seq(|sent|, i requires 0 <= i < |sent| =>
      Event(Deadline(sent[i].at, latency), IpiDelivery(sent[i].origin, sent[i].outbox)))
  }

  function Messages<D>(q: seq<Ev<D>>): seq<Ev<D>> {
    if q == [] then []
    else Messages(q[..|q| - 1]) + if q[|q| - 1].callback.IpiDelivery? then [q[|q| - 1]] else []
  }

  /** Every scheduled message comes from an outbox written by now. */
  ghost predicate SendsOk<W, D(!new)>(k: Kernel<W, D>) {
    && (forall e: Ev<D> :: e.callback.IpiDelivery? ==>
          k.hist.scheduled[e] == multiset(Outgoing<D>(k.hist.sent, k.latency))[e])
    && (forall i | 0 <= i < |k.hist.sent| :: k.hist.sent[i].at <= k.tod)
  }

  /** Between callbacks the deliveries made are the messages that have run. */
  ghost predicate MailSettled<W, D>(k: Kernel<W, D>) { Delivered<D>(k.hist.log) == Messages(k.hist.ran) }

  lemma {:induction false} MessagesCount<D>(q: seq<Ev<D>>, e: Ev<D>)
    requires e.callback.IpiDelivery?
    ensures multiset(Messages(q))[e] == multiset(q)[e]
  {
    if q != [] {
      MessagesCount(q[..|q| - 1], e);
      assert q == q[..|q| - 1] + [q[|q| - 1]];
    }
  }

  // ---- one change of the machine ----------------------------------------------------------------

  /** The histories of `r` go on from those of `k`, and its controller is explained by the new entries. */
  ghost predicate Extends<W, D(!new)>(k: Kernel<W, D>, r: Kernel<W, D>) {
    && Inv(k.irq) && Inv(r.irq) && |r.irq.cpus| == |k.irq.cpus|
    && k.tod <= r.tod && r.latency == k.latency
    && k.hist.log <= r.hist.log && k.hist.executed <= r.hist.executed && k.hist.ran <= r.hist.ran
    && k.hist.sent <= r.hist.sent
    && Ticks(r.hist.log[|k.hist.log|..], k.tod, r.tod)
    && Explains(k.irq, r.hist.log[|k.hist.log|..], r.irq.pic)
    && (SendsOk(k) ==> SendsOk(r))
  }

  lemma ExtendsItself<W, D(!new)>(k: Kernel<W, D>)
    requires Inv(k.irq)
    ensures Extends(k, k)
  {
    hide Inv, SendsOk;
    ExplainsNothing(k.irq);
    assert k.hist.log[|k.hist.log|..] == [];
  }

  lemma TicksAppend(a: seq<Applied>, b: seq<Applied>, x: int, y: int, z: int)
    requires x <= y <= z && Ticks(a, x, y) && Ticks(b, y, z)
    ensures Ticks(a + b, x, z)
  {
  }

  lemma ExtendsTwice<W, D(!new)>(k: Kernel<W, D>, m: Kernel<W, D>, r: Kernel<W, D>)
    requires Extends(k, m) && Extends(m, r)
    ensures Extends(k, r)
  {
    hide Inv, SendsOk, Explains, Ticks;
    var a, b := m.hist.log[|k.hist.log|..], r.hist.log[|m.hist.log|..];
    assert r.hist.log[|k.hist.log|..] == a + b;
    ExplainsAppend(k.irq, a, m.irq, b, r.irq.pic);
    TicksAppend(a, b, k.tod, m.tod, r.tod);
  }

  lemma ControlExtends<W, D(!new)>(k: Kernel<W, D>, p: PicOp)
    requires Ok(k)
    ensures Extends(k, Control(k, p))
  {
    hide Inv, Shown, SendsOk, Explains, Apply, Fairness.DynamicDelivery, Accounted, InOrder, Sorted, InWindow;
    OkInv(k);
    ControlUndisturbed(k, p);
    ExplainsOne(k.irq, p, k.tod);
    var r := Control(k, p);
    OkInv(r);
    assert r.hist.log[|k.hist.log|..] == [Applied(p, k.tod, Fairness.DynamicDelivery(k.irq, p))];
    SameSends(k, r);
  }

  lemma SameSends<W, D(!new)>(k: Kernel<W, D>, r: Kernel<W, D>)
    requires r.hist.scheduled == k.hist.scheduled && r.hist.sent == k.hist.sent && r.latency == k.latency && k.tod <= r.tod
    ensures SendsOk(k) ==> SendsOk(r)
  {
  }

  /** Operations that deliver no message and reach processor `t` only by its lines. */
  ghost predicate ByLines<W, D(!new)>(k: Kernel<W, D>, r: Kernel<W, D>, t: nat, lines: seq<LineOp>) {
    && Extends(k, r) && t < |k.irq.cpus|
    && r.irq.cpus[t] == SetLines(k.irq.cpus[t], lines)
    && Delivered<D>(r.hist.log) == Delivered<D>(k.hist.log)
    && r.hist.ran == k.hist.ran && r.hist.executed == k.hist.executed && r.tod == k.tod && r.halted == k.halted
  }

  lemma ByLinesTwice<W, D(!new)>(k: Kernel<W, D>, m: Kernel<W, D>, r: Kernel<W, D>, t: nat, xs: seq<LineOp>, ys: seq<LineOp>)
    requires ByLines(k, m, t, xs) && ByLines(m, r, t, ys)
    ensures ByLines(k, r, t, xs + ys)
  {
    hide Extends, Delivered, SetLines;
    ExtendsTwice(k, m, r);
    ExtendsSize(k, m);
    SetLinesAppend(k.irq.cpus[t], xs, ys);
  }

  lemma ExtendsSize<W, D(!new)>(k: Kernel<W, D>, r: Kernel<W, D>)
    requires Extends(k, r)
    ensures |r.irq.cpus| == |k.irq.cpus|
  {
  }

  lemma ControlByLines<W, D(!new)>(k: Kernel<W, D>, p: PicOp, t: nat) returns (lines: seq<LineOp>)
    requires Ok(k) && t < |k.irq.cpus| && !p.Deliver?
    ensures ByLines(k, Control(k, p), t, lines)
  {
    hide Extends, Apply, Inv, SetLines, Fairness.DynamicDelivery;
    ControlExtends(k, p);
    WellFormed(k.irq);
    lines := ApplyLines(k.irq, p, t);
    var log := Control(k, p).hist.log;
    assert log[..|log| - 1] == k.hist.log;
  }

  lemma SendCounts<W, D(!new)>(k: Kernel<W, D>, origin: nat, outbox: Word)
    requires SendsOk(k)
    ensures SendsOk(SendMessage(k, origin, outbox))
  {
    var r := SendMessage(k, origin, outbox);
    assert Outgoing<D>(r.hist.sent, k.latency) ==
      Outgoing<D>(k.hist.sent, k.latency) + [Event(Deadline(k.tod, k.latency), IpiDelivery(origin, outbox))];
  }

  lemma ScheduleCounts<W, D(!new)>(k: Kernel<W, D>, delay: Delay, cb: Later<D>)
    requires SendsOk(k)
    ensures SendsOk(ScheduleEvent(k, delay, cb))
  {
  }

  /** A change that asks nothing of the controller. */
  lemma SamePic<W, D(!new)>(k: Kernel<W, D>, r: Kernel<W, D>)
    requires Inv(k.irq) && Inv(r.irq) && r.irq.pic == k.irq.pic && |r.irq.cpus| == |k.irq.cpus|
    requires k.tod <= r.tod && r.latency == k.latency
    requires r.hist.log == k.hist.log && k.hist.executed <= r.hist.executed && k.hist.ran <= r.hist.ran
    requires k.hist.sent <= r.hist.sent
    requires SendsOk(k) ==> SendsOk(r)
    ensures Extends(k, r)
  {
    hide Inv, SendsOk;
    ExplainsNothing(k.irq);
    assert r.hist.log[|k.hist.log|..] == [];
  }

  /** The queue and the histories of events are not the controller's. */
  lemma SameController<W, D(!new)>(k: Kernel<W, D>, r: Kernel<W, D>, t: nat)
    requires Inv(k.irq) && t < |k.irq.cpus| && r.irq == k.irq && r.tod == k.tod && r.latency == k.latency
    requires r.hist.log == k.hist.log && r.hist.executed == k.hist.executed && r.hist.ran == k.hist.ran
    requires k.hist.sent <= r.hist.sent && r.halted == k.halted
    requires SendsOk(k) ==> SendsOk(r)
    ensures ByLines(k, r, t, [])
  {
    hide Inv, SendsOk, Delivered, Extends;
    SamePic(k, r);
  }

  lemma OpByLines<W, D(!new)>(k: Kernel<W, D>, op: Op<D>, t: nat) returns (lines: seq<LineOp>)
    requires Ok(k) && t < |k.irq.cpus|
    ensures Ok(ApplyOp(k, op)) && ByLines(k, ApplyOp(k, op), t, lines)
  {
    hide ByLines, Control, SendsOk, Inv, Shown, Sorted, InWindow, Accounted, InOrder, DueCount, Insert;
    ApplyOpUndisturbed(k, op);
    lines := [];
    match op
    case Controller(p) => lines := ControlByLines(k, p, t);
    case Send(origin, outbox) =>
      if SendsOk(k) { SendCounts(k, origin, outbox); }
      SameController(k, SendMessage(k, origin, outbox), t);
    case Schedule(delay, cb) =>
      if SendsOk(k) { ScheduleCounts(k, delay, cb); }
      SameController(k, ScheduleEvent(k, delay, cb), t);
    case SetTimer(v) => lines := TimerByLines(k, v, t);
  }

  lemma TimerByLines<W, D(!new)>(k: Kernel<W, D>, v: Word, t: nat) returns (lines: seq<LineOp>)
    requires Ok(k) && t < |k.irq.cpus|
    ensures ByLines(k, Control(LoadTimer(k, v), Acknowledge(0, 0)), t, lines)
  {
    hide ByLines, Control, Inv, Shown, Accounted, InOrder, InWindow, Sorted;
    OkInv(k);
    var k1 := LoadTimer(k, v);
    LoadTimerOk(k, v);
    SameController(k, k1, t);
    lines := ControlByLines(k1, Acknowledge(0, 0), t);
    ByLinesTwice(k, k1, Control(k1, Acknowledge(0, 0)), t, [], lines);
    assert [] + lines == lines;
  }

  lemma {:induction false} OpsByLines<W, D(!new)>(k: Kernel<W, D>, ops: seq<Op<D>>, t: nat) returns (lines: seq<LineOp>)
    requires Ok(k) && t < |k.irq.cpus|
    ensures ByLines(k, ApplyOps(k, ops), t, lines)
    decreases |ops|
  {
    hide ByLines, ApplyOp, Ok;
    OkInv(k);
    if ops == [] {
      SameController(k, k, t);
      lines := [];
    } else {
      var xs := OpByLines(k, ops[0], t);
      ByLinesSize(k, ApplyOp(k, ops[0]), t, xs);
      var ys := OpsByLines(ApplyOp(k, ops[0]), ops[1..], t);
      ByLinesTwice(k, ApplyOp(k, ops[0]), ApplyOps(k, ops), t, xs, ys);
      lines := xs + ys;
    }
  }

  lemma ByLinesSize<W, D(!new)>(k: Kernel<W, D>, r: Kernel<W, D>, t: nat, lines: seq<LineOp>)
    requires ByLines(k, r, t, lines)
    ensures |r.irq.cpus| == |k.irq.cpus|
  {
  }

  // ---- one processor ----------------------------------------------------------------------------

  lemma {:induction false} RunCpuAppend(c: Cpu, xs: seq<CpuEvent>, ys: seq<CpuEvent>)
    ensures RunCpu(c, xs + ys) == RunCpu(RunCpu(c, xs), ys)
    ensures AdmissibleRun(c, xs) && AdmissibleRun(RunCpu(c, xs), ys) ==> AdmissibleRun(c, xs + ys)
    decreases |xs|
  {
    hide Step, Executes, Admissible;
    if xs == [] {
      assert xs + ys == ys;
    } else {
      assert (xs + ys)[0] == xs[0] && (xs + ys)[1..] == xs[1..] + ys;
      RunCpuAppend(Step(c, xs[0]), xs[1..], ys);
    }
  }

  function Outsides(lines: seq<LineOp>): (r: seq<CpuEvent>)
    ensures |r| == |lines|
  {
    if lines == [] then [] else [Outside(lines[0])] + Outsides(lines[1..])
  }

  lemma {:induction false} OutsidesSetLines(c: Cpu, lines: seq<LineOp>)
    ensures RunCpu(c, Outsides(lines)) == SetLines(c, lines) && AdmissibleRun(c, Outsides(lines))
    decreases |lines|
  {
    hide SetLine;
    if lines != [] {
      OutsidesSetLines(SetLine(c, lines[0]), lines[1..]);
      assert Outsides(lines)[1..] == Outsides(lines[1..]);
    }
  }

  /** Processor `t` executed no branch and no WAIT in a delay slot. */
  ghost predicate CleanSlots(x: seq<Issued>, t: nat) {
    forall i | 0 <= i < |x| && x[i].cpu == t && x[i].inSlot :: !x[i].instr.Branch? && x[i].instr != Cop0(Wait)
  }

  /** What processor `t` went through between `k` and `r`. */
  ghost predicate Follows<W, D(!new)>(k: Kernel<W, D>, r: Kernel<W, D>, t: nat, evs: seq<CpuEvent>) {
    && Extends(k, r) && t < |k.irq.cpus| == |r.irq.cpus|
    && r.irq.cpus[t] == RunCpu(k.irq.cpus[t], evs)
    && (CleanSlots(r.hist.executed[|k.hist.executed|..], t) ==> AdmissibleRun(k.irq.cpus[t], evs))
  }

  lemma FollowsTwice<W, D(!new)>(k: Kernel<W, D>, m: Kernel<W, D>, r: Kernel<W, D>, t: nat,
                                 xs: seq<CpuEvent>, ys: seq<CpuEvent>)
    requires Follows(k, m, t, xs) && Follows(m, r, t, ys)
    ensures Follows(k, r, t, xs + ys)
  {
    hide Extends, RunCpu, AdmissibleRun;
    ExtendsTwice(k, m, r);
    ExtendsTrace(k, m);
    ExtendsTrace(m, r);
    RunCpuAppend(k.irq.cpus[t], xs, ys);
    var a, b := m.hist.executed[|k.hist.executed|..], r.hist.executed[|m.hist.executed|..];
    assert r.hist.executed[|k.hist.executed|..] == a + b;
    CleanParts(a, b, t);
  }

  lemma CleanParts(a: seq<Issued>, b: seq<Issued>, t: nat)
    ensures CleanSlots(a + b, t) ==> CleanSlots(a, t) && CleanSlots(b, t)
  {
    if CleanSlots(a + b, t) {
      forall i | 0 <= i < |a| && a[i].cpu == t && a[i].inSlot ensures !a[i].instr.Branch? && a[i].instr != Cop0(Wait) {
        assert (a + b)[i] == a[i];
      }
      forall i | 0 <= i < |b| && b[i].cpu == t && b[i].inSlot ensures !b[i].instr.Branch? && b[i].instr != Cop0(Wait) {
        assert (a + b)[|a| + i] == b[i];
      }
    }
  }

  lemma ExtendsTrace<W, D(!new)>(k: Kernel<W, D>, r: Kernel<W, D>)
    requires Extends(k, r)
    ensures k.hist.executed <= r.hist.executed && k.hist.log <= r.hist.log && k.hist.ran <= r.hist.ran
  {
  }

  lemma ByLinesFollow<W, D(!new)>(k: Kernel<W, D>, r: Kernel<W, D>, t: nat, lines: seq<LineOp>)
    requires ByLines(k, r, t, lines)
    ensures Follows(k, r, t, Outsides(lines))
    ensures MailSettled(k) ==> MailSettled(r)
  {
    ByLinesSize(k, r, t, lines);
    hide Extends, SetLines, RunCpu, Outsides, AdmissibleRun, Delivered, Messages;
    OutsidesSetLines(k.irq.cpus[t], lines);
  }
}
