/** The bus timer over runs of the whole machine. */
module BusTimers {
  import opened Words
  import opened EventQueue
  import opened Cpu
  import opened ControllerRuns
  import opened Kernel

  /** The timer is what was last written to it, less the ticks since, modulo 2^32. */
  ghost predicate TimerOk<W, D>(k: Kernel<W, D>) {
    var last := k.hist.timerSet;
    last.at <= k.tod && k.timer == (last.value - (k.tod - last.at)) % 0x1_0000_0000
  }

  lemma SameTimer<W, D>(k: Kernel<W, D>, r: Kernel<W, D>)
    requires TimerOk(k) && r.timer == k.timer && r.tod == k.tod && r.hist.timerSet == k.hist.timerSet
    ensures TimerOk(r)
  {
  }

  lemma OpTimer<W, D>(k: Kernel<W, D>, op: Op<D>)
    requires Ok(k) && TimerOk(k)
    ensures k.irq.Wf() && TimerOk(ApplyOp(k, op))
    ensures op.SetTimer? ==>
      var r := ApplyOp(k, op);
      && r.hist.timerSet == TimerSet(k.tod, op.value)
      && |r.hist.log| == |k.hist.log| + 1 && r.hist.log[|k.hist.log|].op == Acknowledge(0, 0)
  {
    hide Ok, Apply, Insert;
    OkInv(k);
  }

  lemma {:induction false} OpsTimer<W, D>(k: Kernel<W, D>, ops: seq<Op<D>>)
    requires Ok(k) && TimerOk(k)
    ensures TimerOk(ApplyOps(k, ops))
    decreases |ops|
  {
    hide Ok, TimerOk, ApplyOp;
    if ops != [] {
      OpTimer(k, ops[0]);
      ApplyOpUndisturbed(k, ops[0]);
      OpsTimer(ApplyOp(k, ops[0]), ops[1..]);
    }
  }

  lemma FireTimer<W, D>(h: World<W, D>, k: Kernel<W, D>, cb: Callback<D>)
    requires Ok(k) && TimerOk(k)
    ensures TimerOk(Fire(h, k, cb))
  {
    hide Ok, TimerOk, ApplyOps, Apply;
    if cb.DeviceOp? {
      var (w, ops) := h.device(k.w, k.tod, cb.dev);
      OkWorld(k, w);
      SameTimer(k, k.(w := w));
      OpsTimer(k.(w := w), ops);
    } else {
      SameTimer(k, Fire(h, k, cb));
    }
  }

  lemma RunHeadTimer<W, D>(h: World<W, D>, k: Kernel<W, D>)
    requires Ok(k) && DueCount(k.queue, k.tod) > 0 && TimerOk(k)
    ensures TimerOk(RunHead(h, k))
  {
    HeadOffOk(k, Fire(h, k, k.queue[0].callback));
    hide Ok, TimerOk, Fire, DueCount;
    FireTimer(h, k, k.queue[0].callback);
    SameTimer(Fire(h, k, k.queue[0].callback), RunHead(h, k));
  }

  lemma {:induction false} DrainTimer<W, D>(h: World<W, D>, k: Kernel<W, D>)
    requires Ok(k) && TimerOk(k)
    ensures TimerOk(Drain(h, k))
    decreases DueCount(k.queue, k.tod)
  {
    hide Ok, TimerOk, RunHead;
    if k.queue != [] && k.queue[0].deadline <= k.tod {
      RunHeadTimer(h, k);
      DrainTimer(h, RunHead(h, k));
    }
  }

  lemma AdvanceTimer<W, D>(k: Kernel<W, D>)
    requires Settled(k) && HasRoom(k, 1) && TimerOk(k)
    ensures k.irq.Wf() && TimerOk(Advance(k))
  {
    hide Ok, Apply, DueCount;
    OkInv(k);
  }

  lemma ClockTimer<W, D>(h: World<W, D>, k: Kernel<W, D>)
    requires Settled(k) && HasRoom(k, 1) && TimerOk(k)
    ensures TimerOk(ClockTick(h, k))
  {
    hide Ok, TimerOk, Advance, Drain;
    AdvanceOk(k);
    AdvanceTimer(k);
    DrainTimer(h, Advance(k));
  }

  lemma ExecTimer<W, D>(h: World<W, D>, k: Kernel<W, D>, i: nat)
    requires Ok(k) && TimerOk(k) && i < |k.irq.cpus| && !k.irq.cpus[i].IsIdle()
    ensures TimerOk(ExecPart(h, k, i))
  {
    hide Ok, TimerOk, ApplyOps, Execute, ExecInstr, Effective, Undisturbed;
    var c := k.irq.cpus[i];
    var (w, e, ops) := h.instr(k.w, k.tod, i, c);
    ExecutingUndisturbed(k, i, e, w);
    var k1 := Executing(k, i, e, w);
    SameTimer(k, k1);
    UndisturbedOk(k, k1);
    if !(ExecInstr(c, e).1 || Execute(c, e).IsIdle()) { OpsTimer(k1, ops); }
  }

  lemma CycleTimer<W, D>(h: World<W, D>, k: Kernel<W, D>, i: nat)
    requires Ok(k) && TimerOk(k) && i < |k.irq.cpus|
    ensures TimerOk(CpuCycle(h, k, i))
  {
    hide Ok, TimerOk, ExecPart, CpuTimer, Finish;
    if !k.irq.cpus[i].IsHalted() {
      var k1 := TimerPart(k, i);
      SameTimer(k, k1);
      if !k1.irq.cpus[i].IsIdle() {
        ExecTimer(h, k1, i);
        SameTimer(ExecPart(h, k1, i), FinishPart(h, ExecPart(h, k1, i), i));
      }
    }
  }

  lemma {:induction false} CpusTimer<W, D>(h: World<W, D>, k: Kernel<W, D>, i: nat)
    requires Ok(k) && TimerOk(k) && i <= |k.irq.cpus|
    ensures TimerOk(Cpus(h, k, i))
    decreases |k.irq.cpus| - i
  {
    hide Ok, TimerOk, CpuCycle;
    if i < |k.irq.cpus| {
      CycleTimer(h, k, i);
      CpusTimer(h, CpuCycle(h, k, i), i + 1);
    }
  }

  /** In every run of the machine, whatever devices and programs write, the bus timer counts from the last write. */
  lemma {:induction false} BusTimerInRuns<W, D>(h: World<W, D>, k: Kernel<W, D>, n: nat)
    requires Settled(k) && HasRoom(k, n) && TimerOk(k)
    ensures TimerOk(Rounds(h, k, n))
  {
    hide Ok, TimerOk, ClockTick, Cpus;
    if n > 0 {
      var m := Rounds(h, k, n - 1);
      BusTimerInRuns(h, k, n - 1);
      ClockTimer(h, m);
      CpusTimer(h, ClockTick(h, m), 0);
    }
  }

  /** The machine as built, with its first processor reset, counts from 2^32 - 1 at tick 0. */
  lemma BootTimer<W, D>(h: World<W, D>, cpus: seq<Cpu>, w: W, latency: Delay, pc: Word, sp: Word)
    requires 1 <= |cpus| <= 16 && PoweredOff(cpus)
    ensures var k := ResetCpu<W, D>(h, Initial(cpus, w, latency), 0, pc, sp); Settled(k) && TimerOk(k)
  {
    hide Ok;
    BootSettled<W, D>(h, cpus, w, latency, pc, sp);
  }
}
