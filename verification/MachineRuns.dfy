/**
 * What the theorems about the parts say of whole machine runs: each round, seen from one processor, is a
 * sequence of its steps, and seen from the controller the operations of the log.
 */
module MachineRuns {
  import opened Words
  import opened EventQueue
  import opened Cpu
  import opened Pic
  import opened Bookkeeping
  import opened ControllerRuns
  import opened PreciseExceptions
  import opened Kernel
  import opened Traces
  import Fairness
  import Finite
  import Translation
  import C = ControlRegisters

  // ---- callbacks ---------------------------------------------------------------------------------

  /** What switches a processor on and off. */
  datatype Life = On(pc: Word, sp: Word) | Off

  function LifeIn(ev: CpuEvent): seq<Life> {
    match ev
    case Restarted(pc, sp, _) => [On(pc, sp)]
    case Stopped => [Off]
    case _ => []
  }

  /** The resets and halts among a processor's steps. */
  function Lives(evs: seq<CpuEvent>): seq<Life>
    decreases |evs|
  {
    if evs == [] then [] else LifeIn(evs[0]) + Lives(evs[1..])
  }

  function LifeOf<D>(cb: Callback<D>, t: nat): seq<Life> {
    match cb
    case CpuReset(u, pc, sp) => if u == t then [On(pc, sp)] else []
    case CpuHalt(u) => if u == t then [Off] else []
    case _ => []
  }

  /** The resets and halts of processor `t` among the events that ran. */
  function LivesRan<D>(ran: seq<Ev<D>>, t: nat): seq<Life> {
    if ran == [] then [] else LivesRan(ran[..|ran| - 1], t) + LifeOf(ran[|ran| - 1].callback, t)
  }

  predicate PowersOff<D>(ran: seq<Ev<D>>) { exists i | 0 <= i < |ran| :: ran[i].callback.PowerOff? }

  /** Between `k` and `r` processor `t` went through `evs`, and what was delivered is what has run. */
  ghost predicate Moved<W, D(!new)>(k: Kernel<W, D>, r: Kernel<W, D>, t: nat, evs: seq<CpuEvent>) {
    && Follows(k, r, t, evs) && (MailSettled(k) ==> MailSettled(r))
    && k.hist.ran <= r.hist.ran
    && Lives(evs) == LivesRan(r.hist.ran[|k.hist.ran|..], t)
    && (r.halted <==> k.halted || PowersOff(r.hist.ran[|k.hist.ran|..]))
  }

  lemma {:induction false} LivesAppend(xs: seq<CpuEvent>, ys: seq<CpuEvent>)
    ensures Lives(xs + ys) == Lives(xs) + Lives(ys)
    ensures C.Ticks(xs + ys) == C.Ticks(xs) + C.Ticks(ys)
    decreases |xs|
  {
    hide LifeIn;
    if xs == [] {
      assert xs + ys == ys;
    } else {
      assert (xs + ys)[1..] == xs[1..] + ys;
      LivesAppend(xs[1..], ys);
    }
  }

  lemma OneEventLives(ev: CpuEvent)
    ensures Lives([ev]) == LifeIn(ev) && C.Ticks([ev]) == if ev.Tick? then 1 else 0
  {
    hide LifeIn;
    assert [ev][1..] == [];
  }

  lemma {:induction false} LivesRanAppend<D>(a: seq<Ev<D>>, b: seq<Ev<D>>, t: nat)
    ensures LivesRan(a + b, t) == LivesRan(a, t) + LivesRan(b, t)
  {
    hide LifeOf;
    if b == [] {
      assert a + b == a;
    } else {
      assert (a + b)[..|a + b| - 1] == a + b[..|b| - 1];
      LivesRanAppend(a, b[..|b| - 1], t);
    }
  }

  lemma PowersOffAppend<D>(a: seq<Ev<D>>, b: seq<Ev<D>>)
    ensures PowersOff(a + b) <==> PowersOff(a) || PowersOff(b)
  {
    if i :| 0 <= i < |a| && a[i].callback.PowerOff? { assert (a + b)[i] == a[i]; }
    if i :| 0 <= i < |b| && b[i].callback.PowerOff? { assert (a + b)[|a| + i] == b[i]; }
  }

  lemma {:induction false} OutsidesQuiet(lines: seq<LineOp>)
    ensures Lives(Outsides(lines)) == [] && C.Ticks(Outsides(lines)) == 0
  {
    if lines != [] {
      OutsidesQuiet(lines[1..]);
      assert Outsides(lines)[1..] == Outsides(lines[1..]);
    }
  }

  lemma MovedTwice<W, D(!new)>(k: Kernel<W, D>, m: Kernel<W, D>, r: Kernel<W, D>, t: nat,
                               xs: seq<CpuEvent>, ys: seq<CpuEvent>)
    requires Moved(k, m, t, xs) && Moved(m, r, t, ys)
    ensures Moved(k, r, t, xs + ys)
  {
    hide Follows, MailSettled, Lives, LivesRan, PowersOff;
    FollowsTwice(k, m, r, t, xs, ys);
    LivesAppend(xs, ys);
    var a, b := m.hist.ran[|k.hist.ran|..], r.hist.ran[|m.hist.ran|..];
    assert r.hist.ran[|k.hist.ran|..] == a + b;
    LivesRanAppend(a, b, t);
    PowersOffAppend(a, b);
  }

  /** One event of processor `t`, or none, and nothing asked of the controller. */
  lemma OneEvent<W, D(!new)>(k: Kernel<W, D>, r: Kernel<W, D>, t: nat, evs: seq<CpuEvent>)
    requires Extends(k, r) && t < |k.irq.cpus|
    requires evs == [] || (|evs| == 1 && !evs[0].Tick?)
    requires r.irq.cpus[t] == if evs == [] then k.irq.cpus[t] else Step(k.irq.cpus[t], evs[0])
    ensures Follows(k, r, t, evs)
  {
    ExtendsSize(k, r);
    if evs != [] {
      assert evs == [evs[0]];
      RunCpuOne(k.irq.cpus[t], evs[0]);
    }
    hide Extends, Step, CleanSlots;
  }

  /** A callback as the log shows it. */
  ghost predicate Fired<W, D(!new)>(k: Kernel<W, D>, r: Kernel<W, D>, cb: Callback<D>, t: nat, evs: seq<CpuEvent>) {
    && Follows(k, r, t, evs)
    && r.hist.ran == k.hist.ran && r.tod == k.tod
    && Delivered<D>(r.hist.log) == Delivered<D>(k.hist.log) + (if cb.IpiDelivery? then [Event(k.tod, cb)] else [])
    && Lives(evs) == LifeOf(cb, t) && C.Ticks(evs) == 0
    && (r.halted <==> k.halted || cb.PowerOff?)
  }

  lemma DeliveryFires<W, D(!new)>(k: Kernel<W, D>, origin: nat, outbox: Word, t: nat) returns (evs: seq<CpuEvent>)
    requires Ok(k) && t < |k.irq.cpus|
    ensures k.irq.Wf() && Fired(k, Control(k, Deliver(origin, outbox)), IpiDelivery(origin, outbox), t, evs)
  {
    hide Extends, Apply, Inv, SetLines, RunCpu, AdmissibleRun, Fairness.DynamicDelivery, Accounted, InOrder, Sorted, InWindow;
    OkInv(k);
    var op := Deliver(origin, outbox);
    ControlExtends(k, op);
    var lines := ApplyLines(k.irq, op, t);
    OutsidesSetLines(k.irq.cpus[t], lines);
    evs := Outsides(lines);
    OutsidesQuiet(lines);
    var log := Control(k, op).hist.log;
    assert log[..|log| - 1] == k.hist.log;
  }

  lemma ResetFires<W, D(!new)>(h: World<W, D>, k: Kernel<W, D>, u: nat, pc: Word, sp: Word, t: nat) returns (evs: seq<CpuEvent>)
    requires Ok(k) && t < |k.irq.cpus| && u < |k.irq.cpus|
    ensures k.irq.Wf() && Fired(k, ResetCpu(h, k, u, pc, sp), CpuReset(u, pc, sp), t, evs)
  {
    hide Extends, Inv, SendsOk, Accounted, InOrder, Sorted, InWindow, Reset, Follows, Delivered, Shown;
    OkInv(k);
    var r := ResetCpu(h, k, u, pc, sp);
    ResetUndisturbed(h, k, u, pc, sp);
    OkInv(r);
    SameSends(k, r);
    SamePic(k, r);
    OneEventLives(Restarted(pc, sp, h.boot(k.w, pc)));
    evs := if t == u then [Restarted(pc, sp, h.boot(k.w, pc))] else [];
    OneEvent(k, r, t, evs);
  }

  lemma HaltFires<W, D(!new)>(k: Kernel<W, D>, u: nat, t: nat) returns (evs: seq<CpuEvent>)
    requires Ok(k) && t < |k.irq.cpus| && u < |k.irq.cpus|
    ensures Fired(k, k.(irq := SetCpu(k.irq, u, Halt(k.irq.cpus[u]))), CpuHalt(u), t, evs)
  {
    hide Extends, Inv, SendsOk, Accounted, InOrder, Sorted, InWindow, Follows, Delivered, Shown;
    OkInv(k);
    var r := k.(irq := SetCpu(k.irq, u, Halt(k.irq.cpus[u])));
    HaltUndisturbed(k, u);
    OkInv(r);
    SameSends(k, r);
    SamePic(k, r);
    OneEventLives(Stopped);
    evs := if t == u then [Stopped] else [];
    OneEvent(k, r, t, evs);
  }

  /** A change of world or flags that touches neither controller, processors nor events. */
  lemma NothingFires<W, D(!new)>(k: Kernel<W, D>, r: Kernel<W, D>, cb: Callback<D>, t: nat)
    requires Ok(k) && t < |k.irq.cpus| && !cb.IpiDelivery? && LifeOf(cb, t) == [] && (r.halted <==> k.halted || cb.PowerOff?)
    requires r.irq == k.irq && r.hist == k.hist && r.tod == k.tod && r.latency == k.latency
    ensures Fired(k, r, cb, t, [])
  {
    hide Extends, Inv, SendsOk, Accounted, InOrder, Sorted, InWindow, Follows, Delivered, Shown;
    OkInv(k);
    SameSends(k, r);
    SamePic(k, r);
    OneEvent(k, r, t, []);
  }

  lemma OpsFire<W, D(!new)>(k: Kernel<W, D>, w: W, ops: seq<Op<D>>, cb: Callback<D>, t: nat) returns (evs: seq<CpuEvent>)
    requires Ok(k) && t < |k.irq.cpus| && cb.DeviceOp?
    ensures Ok(k.(w := w)) && Fired(k, ApplyOps(k.(w := w), ops), cb, t, evs)
  {
    hide Ok, Extends, Delivered, Follows, ByLines, ApplyOps;
    var k1 := k.(w := w);
    OkWorld(k, w);
    NothingFires(k, k1, cb, t);
    var lines := OpsByLines(k1, ops, t);
    ByLinesFollow(k1, ApplyOps(k1, ops), t, lines);
    ByLinesStill(k1, ApplyOps(k1, ops), t, lines);
    FollowsTwice(k, k1, ApplyOps(k1, ops), t, [], Outsides(lines));
    OutsidesQuiet(lines);
    evs := [] + Outsides(lines);
    assert evs == Outsides(lines);
  }

  lemma ByLinesStill<W, D(!new)>(k: Kernel<W, D>, r: Kernel<W, D>, t: nat, lines: seq<LineOp>)
    requires ByLines(k, r, t, lines)
    ensures Delivered<D>(r.hist.log) == Delivered<D>(k.hist.log)
    ensures r.hist.ran == k.hist.ran && r.hist.executed == k.hist.executed && r.tod == k.tod && r.halted == k.halted
    ensures t < |k.irq.cpus| == |r.irq.cpus| && r.irq.cpus[t] == SetLines(k.irq.cpus[t], lines)
    ensures Extends(k, r)
  {
  }

  lemma CallbackFires<W, D(!new)>(h: World<W, D>, k: Kernel<W, D>, cb: Callback<D>, t: nat) returns (evs: seq<CpuEvent>)
    requires Ok(k) && t < |k.irq.cpus|
    ensures Fired(k, Fire(h, k, cb), cb, t, evs)
  {
    hide Ok, Fired, ApplyOps, ResetCpu, Control, Halt, SetCpu;
    OkInv(k);
    match cb
    case IpiDelivery(origin, outbox) => evs := DeliveryFires(k, origin, outbox, t);
    case CpuReset(u, pc, sp) =>
      if u < |k.irq.cpus| { evs := ResetFires(h, k, u, pc, sp, t); } else { evs := []; NothingFires(k, k, cb, t); }
    case CpuHalt(u) =>
      if u < |k.irq.cpus| { evs := HaltFires(k, u, t); } else { evs := []; NothingFires(k, k, cb, t); }
    case PowerOff => evs := []; NothingFires(k, k.(halted := true), cb, t);
    case DeviceOp(d) =>
      var (w, ops) := h.device(k.w, k.tod, d);
      evs := OpsFire(k, w, ops, cb, t);
  }

  // ---- the clock -----------------------------------------------------------------------------------

  /** Moves of the queue and of the record of events that ran. */
  lemma QueueExtends<W, D(!new)>(k: Kernel<W, D>, r: Kernel<W, D>)
    requires Ok(k) && Ok(r) && r.irq == k.irq && r.latency == k.latency && r.tod == k.tod
    requires r.hist == k.hist.(ran := r.hist.ran, ranAt := r.hist.ranAt) && k.hist.ran <= r.hist.ran
    ensures Extends(k, r)
  {
    hide Inv, SendsOk, Accounted, InOrder, Sorted, InWindow, Shown, Extends;
    SameSends(k, r);
    SamePic(k, r);
  }

  lemma HeadMoves<W, D(!new)>(h: World<W, D>, k: Kernel<W, D>, t: nat) returns (evs: seq<CpuEvent>)
    requires Ok(k) && DueCount(k.queue, k.tod) > 0 && t < |k.irq.cpus|
    ensures Moved(k, RunHead(h, k), t, evs) && C.Ticks(evs) == 0
  {
    HeadIsNow(k);
    hide Ok, Fire, DueCount, Delivered, Messages, Follows, Extends, Lives, C.Ticks, LifeOf;
    var e := k.queue[0];
    var k1, r := Fire(h, k, e.callback), RunHead(h, k);
    evs := CallbackFires(h, k, e.callback, t);
    FollowsExtends(k, k1, t, evs);
    QueueExtends(k1, r);
    OneEvent(k1, r, t, []);
    FollowsTwice(k, k1, r, t, evs, []);
    assert evs + [] == evs;
    MessagesOneMore(k.hist.ran, e);
    OneLife(k.hist.ran, e, t);
  }

  lemma OneLife<D>(ran: seq<Ev<D>>, e: Ev<D>, t: nat)
    ensures var more := (ran + [e])[|ran|..];
      LivesRan(more, t) == LifeOf(e.callback, t) && (PowersOff(more) <==> e.callback.PowerOff?)
  {
    hide LifeOf;
    assert (ran + [e])[|ran|..] == [e] && [e][..0] == [];
    assert [e][0] == e;
  }

  lemma NoLife<W, D>(k: Kernel<W, D>, r: Kernel<W, D>, t: nat)
    requires r.hist.ran == k.hist.ran
    ensures LivesRan(r.hist.ran[|k.hist.ran|..], t) == [] && !PowersOff(r.hist.ran[|k.hist.ran|..])
  {
  }

  lemma FollowsExtends<W, D(!new)>(k: Kernel<W, D>, r: Kernel<W, D>, t: nat, evs: seq<CpuEvent>)
    requires Follows(k, r, t, evs)
    ensures Extends(k, r) && |r.irq.cpus| == |k.irq.cpus| && t < |k.irq.cpus|
  {
  }

  lemma HeadIsNow<W, D>(k: Kernel<W, D>)
    requires Ok(k) && DueCount(k.queue, k.tod) > 0
    ensures k.queue != [] && k.queue[0].deadline == k.tod
  {
    hide Inv, Shown, Accounted, InOrder, Sorted;
  }

  lemma MessagesOneMore<D>(ran: seq<Ev<D>>, e: Ev<D>)
    ensures Messages(ran + [e]) == Messages(ran) + if e.callback.IpiDelivery? then [e] else []
  {
    assert (ran + [e])[..|ran|] == ran;
  }

  lemma {:induction false} DrainMoves<W, D(!new)>(h: World<W, D>, k: Kernel<W, D>, t: nat) returns (evs: seq<CpuEvent>)
    requires Ok(k) && t < |k.irq.cpus|
    ensures Moved(k, Drain(h, k), t, evs) && C.Ticks(evs) == 0
    decreases DueCount(k.queue, k.tod)
  {
    hide Ok, RunHead, Moved;
    if k.queue == [] || k.queue[0].deadline > k.tod {
      evs := [];
      NothingMoves(k, t);
    } else {
      var xs := HeadMoves(h, k, t);
      var ys := DrainMoves(h, RunHead(h, k), t);
      MovedTwice(k, RunHead(h, k), Drain(h, k), t, xs, ys);
      LivesAppend(xs, ys);
      evs := xs + ys;
    }
  }

  lemma NothingMoves<W, D(!new)>(k: Kernel<W, D>, t: nat)
    requires Ok(k) && t < |k.irq.cpus|
    ensures Moved(k, k, t, [])
  {
    hide Ok, Extends, Follows, Delivered, Messages, LivesRan, PowersOff;
    OkInv(k);
    ExtendsItself(k);
    OneEvent(k, k, t, []);
    NoLife(k, k, t);
  }

  lemma AdvanceMoves<W, D(!new)>(k: Kernel<W, D>, t: nat) returns (evs: seq<CpuEvent>)
    requires Settled(k) && HasRoom(k, 1) && t < |k.irq.cpus|
    ensures k.irq.Wf() && Moved(k, Advance(k), t, evs) && C.Ticks(evs) == 0
    ensures k.timer == 0 ==> |Advance(k).hist.log| == |k.hist.log| + 1
    ensures k.timer == 0 ==> Advance(k).hist.log[|k.hist.log|].op == Raise(0, 0) && Advance(k).hist.log[|k.hist.log|].at == k.tod + 1
    ensures Advance(k).hist == k.hist.(log := Advance(k).hist.log)
  {
    hide Ok, Extends, Follows, Control, DueCount, ByLines, SendsOk, Delivered, Messages, LivesRan, PowersOff;
    OkInv(k);
    var k1 := k.(tod := (k.tod + 1) % TWO64, timer := Sub32(k.timer, 1));
    SameSends(k, k1);
    SamePic(k, k1);
    OneEvent(k, k1, t, []);
    evs := [];
    if k.timer < 1 {
      ClockOk(k);
      var lines := ControlByLines(k1, Raise(0, 0), t);
      ByLinesFollow(k1, Control(k1, Raise(0, 0)), t, lines);
      FollowsTwice(k, k1, Control(k1, Raise(0, 0)), t, [], Outsides(lines));
      evs := [] + Outsides(lines);
      OutsidesQuiet(lines);
      assert evs == Outsides(lines);
      ControlLogs(k1, Raise(0, 0));
      ByLinesStill(k1, Control(k1, Raise(0, 0)), t, lines);
    }
    NoLife(k, Advance(k), t);
  }

  lemma ControlLogs<W, D>(k: Kernel<W, D>, p: PicOp)
    requires k.irq.Wf()
    ensures var r := Control(k, p);
      && |r.hist.log| == |k.hist.log| + 1 && r.hist.log[|k.hist.log|].op == p && r.hist.log[|k.hist.log|].at == k.tod
      && r.hist == k.hist.(log := r.hist.log)
  {
    hide Apply, Fairness.DynamicDelivery;
  }

  lemma TickMoves<W, D(!new)>(h: World<W, D>, k: Kernel<W, D>, t: nat) returns (evs: seq<CpuEvent>)
    requires Settled(k) && HasRoom(k, 1) && t < |k.irq.cpus|
    ensures Moved(k, ClockTick(h, k), t, evs) && C.Ticks(evs) == 0
  {
    hide Settled, Ok, Advance, Drain, Moved;
    var xs := AdvanceMoves(k, t);
    AdvanceOk(k);
    var ys := DrainMoves(h, Advance(k), t);
    MovedTwice(k, Advance(k), ClockTick(h, k), t, xs, ys);
    LivesAppend(xs, ys);
    evs := xs + ys;
  }

  // ---- processors ----------------------------------------------------------------------------------

  /** Processor `i` executed `e`, and this reached processor `t` at most by `lines`. */
  ghost predicate Issues<W, D(!new)>(k: Kernel<W, D>, r: Kernel<W, D>, i: nat, e: Instr, t: nat, lines: seq<LineOp>) {
    && Extends(k, r) && i < |k.irq.cpus| == |r.irq.cpus| && t < |k.irq.cpus|
    && r.hist.executed == k.hist.executed + [Issued(i, k.irq.cpus[i].isBranchD, Effective(k.irq.cpus[i], e))]
    && Delivered<D>(r.hist.log) == Delivered<D>(k.hist.log) && r.hist.ran == k.hist.ran && r.tod == k.tod
    && r.halted == k.halted
    && r.irq.cpus[t] ==
         if t != i then SetLines(k.irq.cpus[t], lines)
         else if Execute(k.irq.cpus[i], e).IsIdle() then Execute(k.irq.cpus[i], e)
         else SetLines(Execute(k.irq.cpus[i], e), lines)
  }

  lemma ExecutingIssues<W, D(!new)>(k: Kernel<W, D>, i: nat, e: Instr, w: W, t: nat)
    requires Ok(k) && i < |k.irq.cpus| && !k.irq.cpus[i].IsIdle() && t < |k.irq.cpus|
    ensures Issues(k, Executing(k, i, e, w), i, e, t, [])
  {
    hide Inv, Shown, SendsOk, Accounted, InOrder, Sorted, InWindow, Execute, Effective, Extends, Delivered;
    var r := Executing(k, i, e, w);
    ExecutingUndisturbed(k, i, e, w);
    SameSends(k, r);
    SamePic(k, r);
  }

  lemma IssuesThenLines<W, D(!new)>(k: Kernel<W, D>, m: Kernel<W, D>, r: Kernel<W, D>, i: nat, e: Instr, t: nat, lines: seq<LineOp>)
    requires Issues(k, m, i, e, t, []) && ByLines(m, r, t, lines) && !Execute(k.irq.cpus[i], e).IsIdle()
    ensures Issues(k, r, i, e, t, lines)
  {
    hide Extends, Execute, Effective, Delivered;
    ExtendsTwice(k, m, r);
    ExtendsSize(m, r);
  }

  lemma ExecIssues<W, D(!new)>(h: World<W, D>, k: Kernel<W, D>, i: nat, t: nat) returns (lines: seq<LineOp>)
    requires Ok(k) && i < |k.irq.cpus| && !k.irq.cpus[i].IsIdle() && t < |k.irq.cpus|
    ensures Issues(k, ExecPart(h, k, i), i, h.instr(k.w, k.tod, i, k.irq.cpus[i]).1, t, lines)
  {
    hide Ok, Issues, Executing, Execute, ExecInstr, ApplyOps;
    var (w, e, ops) := h.instr(k.w, k.tod, i, k.irq.cpus[i]);
    ExecutingIssues(k, i, e, w, t);
    ExecutingUndisturbed(k, i, e, w);
    lines := [];
    var k1 := Executing(k, i, e, w);
    if !(ExecInstr(k.irq.cpus[i], e).1 || Execute(k.irq.cpus[i], e).IsIdle()) {
      IssuesSize(k, k1, i, e, t, []);
      lines := OpsByLines(k1, ops, t);
      IssuesThenLines(k, k1, ApplyOps(k1, ops), i, e, t, lines);
    }
  }

  lemma IssuesSize<W, D(!new)>(k: Kernel<W, D>, r: Kernel<W, D>, i: nat, e: Instr, t: nat, lines: seq<LineOp>)
    requires Issues(k, r, i, e, t, lines)
    ensures t < |r.irq.cpus| == |k.irq.cpus|
  {
  }

  /** A processor's own change of state, neither executing nor asking anything. */
  lemma OwnChange<W, D(!new)>(k: Kernel<W, D>, i: nat, c: Cpu)
    requires Ok(k) && i < |k.irq.cpus| && Ok(k.(irq := SetCpu(k.irq, i, c)))
    ensures Extends(k, k.(irq := SetCpu(k.irq, i, c)))
  {
    hide Inv, Shown, SendsOk, Accounted, InOrder, Sorted, InWindow, Extends;
    var r := k.(irq := SetCpu(k.irq, i, c));
    SameSends(k, r);
    SamePic(k, r);
  }

  /** A cycle of processor `i`, as it is for processor `t`. */
  function CycleEvents<W, D>(h: World<W, D>, k: Kernel<W, D>, i: nat, t: nat, lines: seq<LineOp>, word: Option<Word>): seq<CpuEvent>
    requires i < |k.irq.cpus|
  {
    if t != i then Outsides(lines)
    else [Tick(h.instr(k.w, k.tod, i, CpuTimer(k.irq.cpus[i])).1, lines, word)]
  }

  lemma CycleLives<W, D>(h: World<W, D>, k: Kernel<W, D>, i: nat, t: nat, lines: seq<LineOp>, word: Option<Word>)
    requires i < |k.irq.cpus|
    ensures var evs := CycleEvents(h, k, i, t, lines, word); Lives(evs) == [] && C.Ticks(evs) == if t == i then 1 else 0
  {
    OutsidesQuiet(lines);
    var evs := CycleEvents(h, k, i, t, lines, word);
    if t == i { assert evs[1..] == []; }
  }

  lemma CycleMoves<W, D(!new)>(h: World<W, D>, k: Kernel<W, D>, i: nat, t: nat)
    returns (lines: seq<LineOp>, word: Option<Word>)
    requires Ok(k) && i < |k.irq.cpus| && t < |k.irq.cpus|
    ensures Moved(k, CpuCycle(h, k, i), t, CycleEvents(h, k, i, t, lines, word))
    ensures Executes(k.irq.cpus[i]) ==> |CpuCycle(h, k, i).hist.executed| > |k.hist.executed|
    ensures t != i ==> CpuCycle(h, k, i).irq.cpus[t] == SetLines(k.irq.cpus[t], lines)
  {
    if Executes(k.irq.cpus[i]) {
      lines, word := ExecutingMoves(h, k, i, t);
    } else {
      RestingMoves(h, k, i, t);
      lines, word := [], None;
    }
  }

  lemma RestingMoves<W, D(!new)>(h: World<W, D>, k: Kernel<W, D>, i: nat, t: nat)
    requires Ok(k) && i < |k.irq.cpus| && t < |k.irq.cpus| && !Executes(k.irq.cpus[i])
    ensures Moved(k, CpuCycle(h, k, i), t, CycleEvents(h, k, i, t, [], None))
    ensures t != i ==> CpuCycle(h, k, i).irq.cpus[t] == k.irq.cpus[t]
  {
    hide Ok, Extends, CpuTimer, Delivered, Messages, RunCpu, AdmissibleRun, CleanSlots, Lives, LivesRan, PowersOff;
    var r := CpuCycle(h, k, i);
    NoLife(k, r, t);
    CycleLives(h, k, i, t, [], None);
    OkInv(k);
    if k.irq.cpus[i].IsHalted() { ExtendsItself(k); } else { OwnChange(k, i, CpuTimer(k.irq.cpus[i])); }
    ExtendsSize(k, r);
    if t == i {
      RunCpuOne(k.irq.cpus[i], CycleEvents(h, k, i, t, [], None)[0]);
    } else {
      OutsidesSetLines(k.irq.cpus[t], []);
    }
  }

  lemma FinishExtends<W, D(!new)>(h: World<W, D>, k: Kernel<W, D>, i: nat)
    requires Ok(k) && i < |k.irq.cpus|
    ensures var r := FinishPart(h, k, i);
      && Extends(k, r) && |r.irq.cpus| == |k.irq.cpus| && r.hist == k.hist && r.tod == k.tod && r.halted == k.halted
      && r.irq.cpus[i] == Finish(k.irq.cpus[i], h.fetch(k.w, k.irq.cpus[i]))
      && (forall t | 0 <= t < |k.irq.cpus| && t != i :: r.irq.cpus[t] == k.irq.cpus[t])
  {
    hide Ok, Extends, Fetch, Interrupt, Shift;
    OkInv(k);
    var c := k.irq.cpus[i];
    var r := FinishPart(h, k, i);
    if c.IsIdle() { ExtendsItself(k); } else { assert Ok(r); OwnChange(k, i, Finish(c, h.fetch(k.w, c))); }
  }

  lemma ExecutingMoves<W, D(!new)>(h: World<W, D>, k: Kernel<W, D>, i: nat, t: nat)
    returns (lines: seq<LineOp>, word: Option<Word>)
    requires Ok(k) && i < |k.irq.cpus| && t < |k.irq.cpus| && Executes(k.irq.cpus[i])
    ensures Moved(k, CpuCycle(h, k, i), t, CycleEvents(h, k, i, t, lines, word))
    ensures |CpuCycle(h, k, i).hist.executed| > |k.hist.executed|
    ensures t != i ==> CpuCycle(h, k, i).irq.cpus[t] == SetLines(k.irq.cpus[t], lines)
  {
    hide Ok, Extends, CpuTimer, Delivered, Messages, RunCpu, AdmissibleRun, Execute, Effective, Finish, ExecPart, FinishPart, SetLines,
      CleanSlots, Lives, LivesRan, PowersOff;
    var c := k.irq.cpus[i];
    var k1 := TimerPart(k, i);
    OwnChange(k, i, CpuTimer(c));
    lines := ExecIssues(h, k1, i, t);
    var k2 := ExecPart(h, k1, i);
    var e := h.instr(k1.w, k1.tod, i, CpuTimer(c)).1;
    word := h.fetch(k2.w, k2.irq.cpus[i]);
    FinishExtends(h, k2, i);
    var r := CpuCycle(h, k, i);
    assert r == FinishPart(h, k2, i);
    NoLife(k, r, t);
    CycleLives(h, k, i, t, lines, word);
    ExtendsTwice(k, k1, k2);
    ExtendsTwice(k, k2, r);
    if t == i {
      RunCpuOne(c, Tick(e, lines, word));
      assert r.irq.cpus[i] == Step(c, Tick(e, lines, word));
      LastIssued(k.hist.executed, i, CpuTimer(c), e);
    } else {
      OutsidesSetLines(k.irq.cpus[t], lines);
    }
  }

  lemma LastIssued(x: seq<Issued>, i: nat, c: Cpu, e: Instr)
    ensures var y := x + [Issued(i, c.isBranchD, Effective(c, e))];
      CleanSlots(y[|x|..], i) ==> Admissible(c, e)
  {
    hide Effective;
    var y := x + [Issued(i, c.isBranchD, Effective(c, e))];
    if CleanSlots(y[|x|..], i) { assert y[|x|..][0] == Issued(i, c.isBranchD, Effective(c, e)); }
  }

  lemma {:induction false} CpusMove<W, D(!new)>(h: World<W, D>, k: Kernel<W, D>, i: nat, t: nat) returns (evs: seq<CpuEvent>)
    requires Ok(k) && i <= |k.irq.cpus| && t < |k.irq.cpus|
    ensures Moved(k, Cpus(h, k, i), t, evs) && C.Ticks(evs) == if i <= t then 1 else 0
    decreases |k.irq.cpus| - i
  {
    hide Ok, CpuCycle, Moved;
    if i == |k.irq.cpus| {
      evs := [];
      NothingMoves(k, t);
    } else {
      var lines, word := CycleMoves(h, k, i, t);
      var xs := CycleEvents(h, k, i, t, lines, word);
      var ys := CpusMove(h, CpuCycle(h, k, i), i + 1, t);
      MovedTwice(k, CpuCycle(h, k, i), Cpus(h, k, i), t, xs, ys);
      CycleLives(h, k, i, t, lines, word);
      LivesAppend(xs, ys);
      evs := xs + ys;
    }
  }

  lemma RoundMoves<W, D(!new)>(h: World<W, D>, k: Kernel<W, D>, t: nat) returns (evs: seq<CpuEvent>)
    requires Settled(k) && HasRoom(k, 1) && t < |k.irq.cpus|
    ensures Moved(k, Round(h, k), t, evs) && C.Ticks(evs) == 1
  {
    hide Ok, ClockTick, Cpus, Moved, DueCount;
    var xs := TickMoves(h, k, t);
    var ys := CpusMove(h, ClockTick(h, k), 0, t);
    MovedTwice(k, ClockTick(h, k), Round(h, k), t, xs, ys);
    LivesAppend(xs, ys);
    evs := xs + ys;
  }

  /**
   * In every run each processor goes through a sequence of its own steps: one cycle for each round, the resets and
   * halts that ran for it, in order, and changes of its lines.
   */
  lemma {:induction false} RoundsMove<W, D(!new)>(h: World<W, D>, k: Kernel<W, D>, n: nat, t: nat) returns (evs: seq<CpuEvent>)
    requires Settled(k) && HasRoom(k, n) && t < |k.irq.cpus|
    ensures Moved(k, Rounds(h, k, n), t, evs) && C.Ticks(evs) == n
  {
    hide Ok, Round, Moved, DueCount;
    if n == 0 {
      evs := [];
      NothingMoves(k, t);
    } else {
      var r := Rounds(h, k, n - 1);
      var xs := RoundsMove(h, k, n - 1, t);
      var ys := RoundMoves(h, r, t);
      MovedTwice(k, r, Rounds(h, k, n), t, xs, ys);
      LivesAppend(xs, ys);
      evs := xs + ys;
    }
  }

  // ---- what holds in every run -----------------------------------------------------------------------

  /** A start of which nothing has happened yet: no operation, no message, no instruction. */
  ghost predicate Unused<W, D(!new)>(k: Kernel<W, D>) {
    && Settled(k)
    && k.hist.log == [] && k.hist.sent == [] && k.hist.ran == [] && k.hist.executed == []
    && (forall e: Ev<D> :: e.callback.IpiDelivery? ==> k.hist.scheduled[e] == 0)
    && k.irq.pic == InitialPic(|k.irq.cpus|)
  }

  /** The machine as built and with its first processor reset is such a start. */
  lemma BootUnused<W, D(!new)>(h: World<W, D>, cpus: seq<Cpu>, w: W, latency: Delay, pc: Word, sp: Word)
    requires 1 <= |cpus| <= MAX_CPUS && PoweredOff(cpus)
    ensures var k := ResetCpu<W, D>(h, Initial(cpus, w, latency), 0, pc, sp);
      && Unused(k) && k.latency == latency && k.tod == 0
      && forall t | 0 <= t < |cpus| ::
           && Standing(k.irq.cpus[t])
           && (Translation.EntriesOk(cpus[t]) ==> Translation.TlbStands(k.irq.cpus[t]))
  {
    hide Settled, Reset, PcOk, InitialPic, Translation.EntriesOk, Translation.TlbOk;
    BootSettled<W, D>(h, cpus, w, latency, pc, sp);
    ResetPcs(cpus[0], pc, sp, h.boot(w, pc));
    if Translation.EntriesOk(cpus[0]) { Translation.ResetTlb(cpus[0], pc, sp, h.boot(w, pc)); }
  }

  lemma {:induction false} RoundsExtend<W, D(!new)>(h: World<W, D>, k: Kernel<W, D>, n: nat)
    requires Settled(k) && HasRoom(k, n)
    ensures Extends(k, Rounds(h, k, n)) && (MailSettled(k) ==> MailSettled(Rounds(h, k, n)))
  {
    hide Extends, Rounds, MailSettled;
    OkInv(k);
    var evs := RoundsMove(h, k, n, 0);
  }

  /** What the run from `k` to `r` added to the log. */
  function Since<W, D>(k: Kernel<W, D>, r: Kernel<W, D>): seq<Applied> {
    if |k.hist.log| <= |r.hist.log| then r.hist.log[|k.hist.log|..] else []
  }

  /**
   * In every run the controller is where the operations logged since, in that order and in the order of their
   * ticks, take it, and the logged dynamic deliveries are those of these operations.
   */
  lemma ControllerIsLog<W, D(!new)>(h: World<W, D>, k: Kernel<W, D>, n: nat)
    requires Settled(k) && HasRoom(k, n)
    ensures var r := Rounds(h, k, n); var log := Since(k, r);
      && r.hist.log == k.hist.log + log
      && Inv(k.irq) && r.irq.pic == Run(k.irq, Ops(log)).pic
      && Went(log) == Fairness.Deliveries(k.irq, Ops(log))
      && Ticks(log, k.tod, r.tod)
  {
    hide Rounds, Run, Fairness.Deliveries, Inv, Ticks, Went, Ops;
    RoundsExtend(h, k, n);
  }

  lemma WholeLog<W, D(!new)>(h: World<W, D>, k0: Kernel<W, D>, n: nat)
    requires Unused(k0) && HasRoom(k0, n)
    ensures Since(k0, Rounds(h, k0, n)) == Rounds(h, k0, n).hist.log
  {
  }

  /** In a run of the machine without re-raises elsewhere, set bits are the requests delivered and not acknowledged. */
  lemma PendingInRuns<W, D(!new)>(h: World<W, D>, k0: Kernel<W, D>, n: nat)
    requires Unused(k0) && HasRoom(k0, n)
    requires NeverReRaised(k0.irq, Ops(Rounds(h, k0, n).hist.log))
    ensures var r := Rounds(h, k0, n);
      forall t: nat, il: SrcLine, d: Dev | t < |k0.irq.cpus| == |r.irq.pic.cpuData| && IsSource(il, d) ::
        Pending(r.irq.pic, t, il, d) <==> Unacked(k0.irq, Ops(r.hist.log), il, d) == Some(t)
  {
    hide Rounds, Run, NeverReRaised, Ops, Pending, Unacked, Fairness.Deliveries, Went, Ticks, Since;
    ControllerIsLog(h, k0, n);
    WholeLog(h, k0, n);
    BitsAreUnackedRequests(|k0.irq.cpus|, k0.irq.cpus, Ops(Rounds(h, k0, n).hist.log));
  }

  /** While mask and priorities stay, dynamic interrupts of a machine run reach the eligible processors in turn. */
  lemma FairInRuns<W, D(!new)>(h: World<W, D>, k: Kernel<W, D>, n: nat, dest: nat, i: nat, m: nat)
    requires Settled(k) && HasRoom(k, n)
    requires Fairness.Steady(k.irq, Ops(Since(k, Rounds(h, k, n))), dest)
    requires m == |Fairness.Eligible(k.irq.pic, dest)| && i + m <= |Went(Since(k, Rounds(h, k, n)))|
    ensures Finite.EachOnce(Went(Since(k, Rounds(h, k, n)))[i..i + m], Fairness.Eligible(k.irq.pic, dest))
  {
    hide Rounds, Run, Fairness.Steady, Ops, Fairness.Deliveries, Went, Fairness.Eligible, Ticks, Since;
    ControllerIsLog(h, k, n);
    Fairness.FairWindow(k.irq, Ops(Since(k, Rounds(h, k, n))), dest, i, m);
  }

  /** In every run a processor that executes no branch and no WAIT in a delay slot has a well formed PC stack. */
  lemma PcStackInMachine<W, D(!new)>(h: World<W, D>, k0: Kernel<W, D>, n: nat, t: nat)
    requires Settled(k0) && HasRoom(k0, n) && t < |k0.irq.cpus| && Standing(k0.irq.cpus[t])
    requires CleanSlots(Rounds(h, k0, n).hist.executed, t)
    ensures Standing(Rounds(h, k0, n).irq.cpus[t])
  {
    hide Rounds, Standing, CleanSlots, RunCpu, AdmissibleRun, Lives, LivesRan, PowersOff, MailSettled, Ok, DueCount;
    var evs := RoundsMove(h, k0, n, t);
    var x, y := k0.hist.executed, Rounds(h, k0, n).hist.executed;
    assert y == x + y[|x|..];
    CleanParts(x, y[|x|..], t);
    PcStackInRuns(k0.irq.cpus[t], evs);
  }

  lemma {:induction false} LastLife(c: Cpu, evs: seq<CpuEvent>)
    ensures var lives := Lives(evs);
      RunCpu(c, evs).IsHalted() <==> if lives == [] then c.IsHalted() else lives[|lives| - 1].Off?
    decreases |evs|
  {
    hide Step;
    if evs != [] {
      LifeStep(c, evs[0]);
      LastLife(Step(c, evs[0]), evs[1..]);
    }
  }

  lemma LifeStep(c: Cpu, ev: CpuEvent)
    ensures Step(c, ev).IsHalted() <==> if ev.Restarted? then false else if ev.Stopped? then true else c.IsHalted()
  {
    hide Step;
    if ev.Stopped? {
      C.StopSwitchesOff(c);
    } else if ev.Restarted? || !c.IsHalted() {
      if ev.Restarted? { ResetSteps(c, ev); C.ResetRuns(c, ev.pc, ev.sp, ev.first); } else { C.StaysOn(c, ev); }
    } else {
      HaltedStays(c, ev);
    }
  }

  /**
   * In every run a processor is off if and only if the last reset or halt that ran for it was a halt, or there was none
   * and it was off; and the machine is off if and only if it was or a power-off ran.
   */
  lemma OnOffInRuns<W, D(!new)>(h: World<W, D>, k: Kernel<W, D>, n: nat, t: nat)
    requires Settled(k) && HasRoom(k, n) && t < |k.irq.cpus|
    ensures var r := Rounds(h, k, n); var ran := r.hist.ran[|k.hist.ran|..]; var lives := LivesRan(ran, t);
      && (r.irq.cpus[t].IsHalted() <==> if lives == [] then k.irq.cpus[t].IsHalted() else lives[|lives| - 1].Off?)
      && (r.halted <==> k.halted || exists i | 0 <= i < |ran| :: ran[i].callback.PowerOff?)
  {
    hide Rounds, RunCpu, AdmissibleRun, CleanSlots, Lives, LivesRan;
    var evs := RoundsMove(h, k, n, t);
    LastLife(k.irq.cpus[t], evs);
  }

  /** In every run from power-on the TLB registers of a processor that has been reset name entries that exist. */
  lemma TlbInMachine<W, D(!new)>(h: World<W, D>, k0: Kernel<W, D>, n: nat, t: nat)
    requires Settled(k0) && HasRoom(k0, n) && t < |k0.irq.cpus| && Translation.TlbStands(k0.irq.cpus[t])
    ensures var c := Rounds(h, k0, n).irq.cpus[t];
      Translation.TlbStands(c) && (!c.IsHalted() ==> Translation.TlbOk(c))
  {
    hide Rounds, Translation.TlbStands, Translation.TlbOk, CleanSlots, RunCpu, AdmissibleRun, Lives, LivesRan, PowersOff, Ok;
    var evs := RoundsMove(h, k0, n, t);
    Translation.TlbInRuns(k0.irq.cpus[t], evs);
  }
}
