/** The idle time tells exactly which rounds do nothing. */
module IdleRounds {
  import opened EventQueue
  import opened Cpu
  import opened ControllerRuns
  import opened PreciseExceptions
  import opened Kernel
  import opened FastForward
  import opened Traces
  import opened MachineRuns

  /** An event due at the next tick runs in the next round. */
  lemma DueEventRuns<W, D>(h: World<W, D>, k: Kernel<W, D>)
    requires Settled(k) && HasRoom(k, 1) && DueNext(k)
    ensures |Round(h, k).hist.ran| > |k.hist.ran|
  {
    hide Ok, RunHead, Cpus, DueCount, Apply;
    OkInv(k);
    AdvanceOk(k);
    var a := Advance(k);
    assert a.queue == k.queue && a.hist.ran == k.hist.ran;
    assert Undisturbed(Drain(h, a), Round(h, k));
  }

  /** At timer 0 the next tick raises the timer interrupt. */
  lemma TimerRaises<W, D(!new)>(h: World<W, D>, k: Kernel<W, D>)
    requires Settled(k) && HasRoom(k, 1) && k.timer == 0
    ensures var log := Round(h, k).hist.log;
      && |log| > |k.hist.log| && log[|k.hist.log|].op == Raise(0, 0) && log[|k.hist.log|].at == k.tod + 1
  {
    hide Ok, Advance, Drain, Cpus, DueCount, Follows;
    OkInv(k);
    AdvanceOk(k);
    var a := Advance(k);
    var xs := AdvanceMoves(k, 0);
    var ys := DrainMoves(h, a, 0);
    var zs := CpusMove(h, Drain(h, a), 0, 0);
    FollowsExtends(a, Drain(h, a), 0, ys);
    FollowsExtends(Drain(h, a), Round(h, k), 0, zs);
    ExtendsTrace(a, Drain(h, a));
    ExtendsTrace(Drain(h, a), Round(h, k));
  }

  /** The idle time of a processor is 0 exactly when its next cycle executes. */
  lemma IdleIsExecutes(c: Cpu)
    ensures IdleCycles(c) == 0 <==> Executes(c)
  {
  }

  /** Lines changed from outside leave a processor about to execute as it is. */
  lemma {:induction false} LinesLeaveAwake(c: Cpu, lines: seq<LineOp>)
    requires IdleCycles(c) == 0
    ensures IdleCycles(SetLines(c, lines)) == 0
    decreases |lines|
  {
    if lines != [] {
      LinesLeaveAwake(SetLine(c, lines[0]), lines[1..]);
    }
  }

  lemma CycleTrace<W, D(!new)>(h: World<W, D>, k: Kernel<W, D>, i: nat)
    requires Ok(k) && i < |k.irq.cpus|
    ensures |CpuCycle(h, k, i).hist.executed| >= |k.hist.executed|
    ensures IdleCycles(k.irq.cpus[i]) == 0 ==> |CpuCycle(h, k, i).hist.executed| > |k.hist.executed|
  {
    hide Ok, CpuCycle, Follows, IdleCycles, CycleEvents, MailSettled;
    IdleIsExecutes(k.irq.cpus[i]);
    var lines, word := CycleMoves(h, k, i, i);
    FollowsExtends(k, CpuCycle(h, k, i), i, CycleEvents(h, k, i, i, lines, word));
    ExtendsTrace(k, CpuCycle(h, k, i));
  }

  lemma CycleLeavesAwake<W, D(!new)>(h: World<W, D>, k: Kernel<W, D>, i: nat, t: nat)
    requires Ok(k) && i < |k.irq.cpus| && t < |k.irq.cpus| && t != i && IdleCycles(k.irq.cpus[t]) == 0
    ensures IdleCycles(CpuCycle(h, k, i).irq.cpus[t]) == 0
  {
    hide Ok, CpuCycle, Moved, IdleCycles, CycleEvents, SetLines;
    var lines, word := CycleMoves(h, k, i, t);
    LinesLeaveAwake(k.irq.cpus[t], lines);
  }

  lemma CpusTrace<W, D(!new)>(h: World<W, D>, k: Kernel<W, D>, i: nat)
    requires Ok(k) && i <= |k.irq.cpus|
    ensures |Cpus(h, k, i).hist.executed| >= |k.hist.executed|
  {
    hide Ok, Cpus, Follows, MailSettled;
    OkInv(k);
    var evs := CpusMove(h, k, i, 0);
    FollowsExtends(k, Cpus(h, k, i), 0, evs);
    ExtendsTrace(k, Cpus(h, k, i));
  }

  lemma {:induction false} CpusExecute<W, D(!new)>(h: World<W, D>, k: Kernel<W, D>, i: nat, t: nat)
    requires Ok(k) && i <= t < |k.irq.cpus| && IdleCycles(k.irq.cpus[t]) == 0
    ensures |Cpus(h, k, i).hist.executed| > |k.hist.executed|
    decreases |k.irq.cpus| - i
  {
    hide Ok, CpuCycle, IdleCycles;
    CycleTrace(h, k, i);
    CpusTrace(h, CpuCycle(h, k, i), i + 1);
    if i < t {
      CycleLeavesAwake(h, k, i, t);
      CpusExecute(h, CpuCycle(h, k, i), i + 1, t);
    }
  }

  /** With the timer running and no event due, a processor awake or about to wake itself executes in the next round. */
  lemma AwakeExecutes<W, D(!new)>(h: World<W, D>, k: Kernel<W, D>, t: nat)
    requires Settled(k) && HasRoom(k, 1) && k.timer > 0 && !DueNext(k)
    requires t < |k.irq.cpus| && IdleCycles(k.irq.cpus[t]) == 0
    ensures |Round(h, k).hist.executed| > |k.hist.executed|
  {
    hide Ok, Cpus, IdleCycles, DueCount;
    QuietTick(h, k);
    CpusExecute(h, ClockTick(h, k), 0, t);
  }

  /**
   * The idle time is positive exactly when the next round does nothing that leaves a trace: it runs no event,
   * asks the controller nothing, executes no instruction, schedules and resets nothing.
   */
  lemma IdleIffQuiet<W, D(!new)>(h: World<W, D>, k: Kernel<W, D>)
    requires Settled(k) && HasRoom(k, 1)
    ensures MachineIdleCycles(k) > 0 <==> Round(h, k).hist == k.hist
    ensures DueNext(k) ==> |Round(h, k).hist.ran| > |k.hist.ran|
    ensures k.timer == 0 ==>
      var log := Round(h, k).hist.log;
      |log| > |k.hist.log| && log[|k.hist.log|].op == Raise(0, 0) && log[|k.hist.log|].at == k.tod + 1
    ensures !DueNext(k) && k.timer > 0 && MachineIdleCycles(k) == 0 ==>
      |Round(h, k).hist.executed| > |k.hist.executed|
  {
    hide Round, MachineIdleCycles, Ok, DueCount, IdleCycles, DueNext;
    IdleZeroCauses(k);
    if MachineIdleCycles(k) > 0 {
      QuietRound(h, k);
    } else if DueNext(k) {
      DueEventRuns(h, k);
    }
    if k.timer == 0 {
      TimerRaises(h, k);
    } else if !DueNext(k) && MachineIdleCycles(k) == 0 {
      var t :| 0 <= t < |k.irq.cpus| && IdleCycles(k.irq.cpus[t]) == 0;
      AwakeExecutes(h, k, t);
    }
  }
}
