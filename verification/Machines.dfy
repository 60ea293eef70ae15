/** The bus and machine objects of systembus.cc and machine.cc, updated in place and proved against Kernel. */
module Machines {
  import opened Words
  import opened EventQueue
  import opened Cpu
  import opened Pic
  import opened Bookkeeping
  import opened ControllerRuns
  import opened Processors
  import opened InterruptControllers
  import opened Spec = Kernel
  import Fairness
  import FastForward

  class Machine<!W, !D(==)> {
    const world: World<W, D>
    const eventQ: EventList<Callback<D>>
    const pic: InterruptController
    const latency: Delay
    var tod: U64
    var timer: Word
    var w: W
    var halted: bool
    var pauseRequested: bool
    ghost var hist: History<D>

    ghost function Nodes(): set<object>
      reads eventQ
    {
      set n | n in eventQ.nodes
    }

    ghost predicate Valid()
      reads eventQ, eventQ.nodes, pic
    {
      eventQ.Valid() && pic.Valid()
    }

    ghost function View(): Kernel<W, D>
      reads this, eventQ, pic, pic.cpus
    {
      Kernel(tod, timer, eventQ.Contents(), pic.View(), w, halted, pauseRequested, latency, hist)
    }

    constructor (world: World<W, D>, w: W, latency: Delay, cpus: seq<Processor>)
      requires Distinct(cpus) && 1 <= |cpus| <= MAX_CPUS
      ensures Valid() && View() == Initial(Views(cpus), w, latency) && this.world == world
      ensures fresh(eventQ) && fresh(pic) && pic.cpus == cpus
    {
      this.world, this.w, this.latency := world, w, latency;
      tod, timer, halted, pauseRequested := 0, MAX_WORD, false, false;
      hist := History(multiset{}, [], [], {}, [], [], [], TimerSet(0, MAX_WORD));
      eventQ := new EventList();
      pic := new InterruptController(cpus);
    }

    method ScheduleEvent(delay: Delay, callback: Callback<D>)
      requires Valid()
      modifies this`hist, eventQ, Nodes()
      ensures Valid() && View() == Spec.ScheduleEvent(old(View()), delay, callback)
      ensures fresh(Nodes() - old(Nodes()))
    {
      hide Insert, Deadline, EventList.Valid, EventList.Contents, InterruptController.View, InterruptController.Valid;
      var deadline := eventQ.InsertQ(tod, delay, callback);
      PicKept();
      hist := hist.(scheduled := hist.scheduled + multiset{Event(deadline, callback)});
    }

    method ControllerOp(op: PicOp)
      requires Valid()
      modifies this`hist, pic, pic.cpus
      ensures Valid() && View() == Control(old(View()), op)
    {
      hide Apply, Fairness.DynamicDelivery, InterruptController.View, Valid, EventList.Contents;
      PicValid();
      hist := hist.(log := hist.log + [Applied(op, tod, Fairness.DynamicDelivery(pic.View(), op))]);
      ApplyToController(op);
    }

    method SendMessage(origin: nat, outbox: Word)
      requires Valid()
      modifies this`hist, eventQ, Nodes()
      ensures Valid() && View() == Spec.SendMessage(old(View()), origin, outbox)
      ensures fresh(Nodes() - old(Nodes()))
    {
      hide Spec.ScheduleEvent, InterruptController.View, Valid, EventList.Contents;
      ghost var at := tod;
      ScheduleEvent(latency, IpiDelivery(origin, outbox));
      hist := hist.(sent := hist.sent + [Sent(at, origin, outbox)]);
    }

    method ApplyToController(op: PicOp)
      requires Valid()
      modifies pic, pic.cpus
      ensures Valid() && View() == old(View()).(irq := Apply(old(View()).irq, op))
    {
      hide StartIRQ, EndIRQ, DeliverIPI, InboxAck, SetRoute, SetPriority, InterruptController.View, Valid, EventList.Contents;
      PicValid();
      match op {
        case Raise(il, d) => if IsSource(il, d) { pic.StartIRQ(il, d); }
        case Acknowledge(il, d) => if IsSource(il, d) { pic.EndIRQ(il, d); }
        case Deliver(origin, outbox) => if origin < |pic.cpus| { pic.DeliverIPI(origin, outbox); }
        case TakeMessage(t) => if t < |pic.cpus| { pic.WriteInbox(t); }
        case Route(il, d, data) => pic.WriteRoute(il, d, data);
        case Priority(t, data) => if t < |pic.cpus| { pic.WritePriority(t, data); }
      }
      QueueKept();
    }

    twostate lemma PicKept()
      requires old(Valid()) && eventQ.Valid() && unchanged(pic, pic.cpus)
      ensures Valid() && pic.View() == old(pic.View())
    {
    }

    lemma PicValid()
      requires Valid()
      ensures pic.Valid() && |pic.View().cpus| == |pic.cpus| && pic.View().Wf() && View().irq == pic.View()
    {
    }

    /** The queue does not depend on the controller and the processors. */
    twostate lemma QueueKept()
      requires old(Valid()) && pic.Valid() && unchanged(eventQ, old(Nodes()))
      ensures Valid() && eventQ.Contents() == old(eventQ.Contents())
    {
    }

    // ---- what a change leaves alone ---------------------------------------------------------------

    /** With one processor changed and nothing else, the rest of the kernel is as it was. */
    twostate lemma OneCpuChanged(i: nat)
      requires old(Valid()) && i < |pic.cpus|
      requires unchanged(eventQ, pic, old(Nodes()))
      requires forall p :: p in pic.cpus && p != pic.cpus[i] ==> unchanged(p)
      ensures Valid() && eventQ.Contents() == old(eventQ.Contents())
      ensures pic.View() == SetCpu(old(pic.View()), i, pic.cpus[i].View())
    {
      forall j | 0 <= j < |pic.cpus| && j != i
        ensures pic.cpus[j].View() == old(pic.cpus[j].View())
      {
        assert pic.cpus[j] in pic.cpus && pic.cpus[j] != pic.cpus[i];
      }
      assert Views(pic.cpus) == old(Views(pic.cpus))[i := pic.cpus[i].View()];
    }

    twostate lemma OnlyCpusChanged()
      requires old(Valid())
      requires unchanged(eventQ, pic, old(Nodes()))
      ensures Valid() && eventQ.Contents() == old(eventQ.Contents())
      ensures pic.View() == old(pic.View()).(cpus := Views(pic.cpus))
    {
    }

    lemma CpuView(i: nat)
      requires i < |pic.cpus|
      ensures |View().irq.cpus| == |pic.cpus| && View().irq.cpus[i] == pic.cpus[i].View()
    {
    }

    lemma CpuMask(t: nat)
      requires Valid() && t < |pic.cpus|
      ensures |View().irq.pic.cpuData| == |pic.cpuData| == |pic.cpus| && View().irq.pic.cpuData[t] == pic.cpuData[t]
    {
    }

    lemma Flags()
      ensures View().halted == halted && View().pause == pauseRequested && |View().irq.cpus| == |pic.cpus|
    {
    }

    lemma Head()
      requires Valid()
      ensures eventQ.IsEmpty() <==> View().queue == []
      ensures eventQ.head != null ==> View().queue != [] && View().queue[0] == eventQ.head.Value() && View().tod == tod
      ensures View().tod == tod
    {
    }

    method SetTimer(value: Word)
      requires Valid()
      modifies this`timer, this`hist, pic, pic.cpus
      ensures Valid() && View() == Control(LoadTimer(old(View()), value), Acknowledge(0, 0))
    {
      hide Control, InterruptController.View, Valid, EventList.Contents;
      timer := value;
      hist := hist.(timerSet := TimerSet(tod, value));
      ControllerOp(Acknowledge(0, 0));
    }

    method DoOp(op: Op<D>)
      requires Valid()
      modifies this`timer, this`hist, eventQ, Nodes(), pic, pic.cpus
      ensures Valid() && View() == ApplyOp(old(View()), op)
      ensures fresh(Nodes() - old(Nodes()))
    {
      hide Control, Spec.SendMessage, Spec.ScheduleEvent, View, Valid;
      match op
      case Controller(p) => ControllerOp(p);
      case Send(origin, outbox) => SendMessage(origin, outbox);
      case Schedule(delay, callback) => ScheduleEvent(delay, callback);
      case SetTimer(value) => SetTimer(value);
    }

    method DoOps(ops: seq<Op<D>>)
      requires Valid() && Ok(View())
      modifies this`timer, this`hist, eventQ, Nodes(), pic, pic.cpus
      ensures Valid() && View() == ApplyOps(old(View()), ops)
      ensures fresh(Nodes() - old(Nodes()))
    {
      hide ApplyOp, Ok, View, Valid;
      for k := 0 to |ops|
        invariant Valid() && Ok(View())
        invariant ApplyOps(View(), ops[k..]) == ApplyOps(old(View()), ops)
        invariant fresh(Nodes() - old(Nodes()))
      {
        ApplyOpUndisturbed(View(), ops[k]);
        DoOp(ops[k]);
        assert ops[k..][1..] == ops[k + 1..];
      }
    }

    method ResetCpu(t: nat, pc: Word, sp: Word)
      requires Valid() && t < |pic.cpus| && Ok(View())
      modifies this`hist, pic.cpus[t]
      ensures Valid() && View() == Spec.ResetCpu(world, old(View()), t, pc, sp)
    {
      hide Reset, Ok, Valid, EventList.Contents, InterruptController.View;
      CpuView(t);
      CpuMask(t);
      hist := hist.(cleanResets := if pic.cpuData[t].ipMask == 0 then hist.cleanResets + {t} else hist.cleanResets - {t});
      pic.cpus[t].Reset(pc, sp, world.boot(w, pc));
      OneCpuChanged(t);
    }

    method HaltCpu(t: nat)
      requires Valid() && t < |pic.cpus| && Ok(View())
      modifies pic.cpus[t]
      ensures Valid() && View() == old(View()).(irq := SetCpu(old(View()).irq, t, Halt(old(View()).irq.cpus[t])))
    {
      hide Halt, Ok, Valid, EventList.Contents, InterruptController.View;
      CpuView(t);
      pic.cpus[t].Halt();
      OneCpuChanged(t);
    }

    /** Runs a callback while its event is still the head of the queue. */
    method RunCallback(callback: Callback<D>)
      requires Valid() && Ok(View())
      modifies this, eventQ, Nodes(), pic, pic.cpus
      ensures Valid() && View() == Fire(world, old(View()), callback)
      ensures fresh(Nodes() - old(Nodes()))
    {
      hide Apply, Spec.ResetCpu, ApplyOps, View, Valid, Ok;
      Flags();
      match callback
      case IpiDelivery(origin, outbox) => ControllerOp(Deliver(origin, outbox));
      case CpuReset(t, pc, sp) => if t < |pic.cpus| { ResetCpu(t, pc, sp); }
      case CpuHalt(t) => if t < |pic.cpus| { HaltCpu(t); }
      case PowerOff => PowerDown();
      case DeviceOp(d) => RunDevice(d);
    }

    method PowerDown()
      requires Valid()
      modifies this`halted
      ensures Valid() && View() == old(View()).(halted := true)
    {
      hide Valid, EventList.Contents, InterruptController.View;
      halted := true;
    }

    method RunDevice(d: D)
      requires Valid() && Ok(View())
      modifies this, eventQ, Nodes(), pic, pic.cpus
      ensures Valid()
      ensures var k := old(View());
        var (w1, ops) := world.device(k.w, k.tod, d);
        Ok(k.(w := w1)) && View() == ApplyOps(k.(w := w1), ops)
      ensures fresh(Nodes() - old(Nodes()))
    {
      hide ApplyOps, Inv, Shown, Accounted, InWindow, InOrder, Sorted, Valid, EventList.Contents, InterruptController.View;
      var (w1, ops) := world.device(w, tod, d);
      w := w1;
      DoOps(ops);
    }

    // ---- the clock ------------------------------------------------------------------------------

    method AdvanceClock()
      requires Valid()
      modifies this`tod, this`timer, this`hist, pic, pic.cpus
      ensures Valid() && View() == Advance(old(View()))
    {
      hide Control, InterruptController.View, Valid, EventList.Contents;
      tod := (tod + 1) % TWO64;
      var underflow := timer < 1;
      timer := Sub32(timer, 1);
      if underflow { ControllerOp(Raise(0, 0)); }
    }

    /** One turn of the drain loop: the head is removed only after its callback has run. */
    method RunNext()
      requires Valid() && Ok(View()) && eventQ.head != null && DueCount(View().queue, tod) > 0
      modifies this, eventQ, Nodes(), pic, pic.cpus
      ensures Valid() && View() == RunHead(world, old(View()))
      ensures fresh(Nodes() - old(Nodes()))
    {
      hide Ok, Fire, View, Valid, DueCount, Accounted, InOrder, Sorted;
      Head();
      ghost var e := View().queue[0];
      var callback := eventQ.head.callback;
      RunCallback(callback);
      RemoveRan(e);
    }

    method RemoveRan(ghost e: Ev<D>)
      requires Valid() && View().queue != []
      modifies this`hist, eventQ
      ensures var k := old(View());
        Valid() && View() == k.(queue := k.queue[1..], hist := k.hist.(ran := k.hist.ran + [e], ranAt := k.hist.ranAt + [k.tod]))
      ensures Nodes() <= old(Nodes())
    {
      hide EventList.Valid, EventList.Contents, InterruptController.View, InterruptController.Valid;
      hist := hist.(ran := hist.ran + [e], ranAt := hist.ranAt + [tod]);
      eventQ.RemoveHead();
      PicKept();
    }

    method ClockTick()
      requires Valid() && Settled(View()) && HasRoom(View(), 1)
      modifies this, eventQ, Nodes(), pic, pic.cpus
      ensures Valid() && View() == Spec.ClockTick(world, old(View())) && Settled(View())
      ensures fresh(Nodes() - old(Nodes()))
    {
      hide Ok, RunHead, View, Valid, Advance, HasRoom;
      AdvanceOk(View());
      AdvanceClock();
      Head();
      ghost var start := View();
      while !eventQ.IsEmpty() && eventQ.head.deadline <= tod
        invariant Valid() && Ok(View()) && View().tod == tod == start.tod
        invariant eventQ.IsEmpty() <==> View().queue == []
        invariant eventQ.head != null ==> View().queue != [] && View().queue[0] == eventQ.head.Value()
        invariant Drain(world, View()) == Drain(world, start)
        invariant fresh(Nodes() - old(Nodes()))
        decreases DueCount(View().queue, tod)
      {
        RunNext();
        Head();
      }
    }

    // ---- processors -----------------------------------------------------------------------------

    method RunTimer(i: nat)
      requires Valid() && Ok(View()) && i < |pic.cpus|
      modifies pic.cpus[i]
      ensures Valid() && View() == TimerPart(old(View()), i)
    {
      hide CpuTimer, Ok, Valid, EventList.Contents, InterruptController.View;
      CpuView(i);
      pic.cpus[i].TimerTick();
      OneCpuChanged(i);
    }

    /** Executes one instruction; `ops` is what it stores, to be done if it neither faulted nor slept. */
    method ExecuteOne(i: nat) returns (more: bool, ops: seq<Op<D>>)
      requires Valid() && i < |pic.cpus|
      modifies this`w, this`pauseRequested, this`hist, pic.cpus[i]
      ensures Valid()
      ensures var k := old(View());
        var c := k.irq.cpus[i];
        var (w1, e, ops1) := world.instr(k.w, k.tod, i, c);
        && View() == Executing(k, i, e, w1)
        && more == !(ExecInstr(c, e).1 || Execute(c, e).IsIdle()) && ops == ops1
    {
      hide Execute, ExecInstr, Effective, Valid, EventList.Contents, InterruptController.View;
      ghost var k := View();
      CpuView(i);
      var (w1, e, ops1) := world.instr(w, tod, i, pic.cpus[i].View());
      var error := pic.cpus[i].Execute(e);
      OneCpuChanged(i);
      var idle := pic.cpus[i].status == Idle;
      w := w1;
      hist := hist.(executed := hist.executed + [Issued(i, k.irq.cpus[i].isBranchD, Effective(k.irq.cpus[i], e))]);
      if idle { pauseRequested := true; }
      return !error && !idle, ops1;
    }

    method RunInstruction(i: nat)
      requires Valid() && Ok(View()) && i < |pic.cpus| && pic.cpus[i].status != Idle
      modifies this, eventQ, Nodes(), pic, pic.cpus
      ensures Valid() && View() == ExecPart(world, old(View()), i)
      ensures fresh(Nodes() - old(Nodes()))
    {
      hide Execute, ExecInstr, ApplyOps, View, Valid, Ok;
      ghost var k := View();
      CpuView(i);
      ghost var (w1, e, _) := world.instr(k.w, k.tod, i, k.irq.cpus[i]);
      ExecutingUndisturbed(k, i, e, w1);
      var more, ops := ExecuteOne(i);
      DoOpsIf(more, ops);
    }

    method DoOpsIf(more: bool, ops: seq<Op<D>>)
      requires Valid() && Ok(View())
      modifies this`timer, this`hist, eventQ, Nodes(), pic, pic.cpus
      ensures Valid() && View() == if more then ApplyOps(old(View()), ops) else old(View())
      ensures fresh(Nodes() - old(Nodes()))
    {
      hide ApplyOps, View, Valid, Ok;
      if more { DoOps(ops); }
    }

    method RunFetch(i: nat)
      requires Valid() && Ok(View()) && i < |pic.cpus|
      modifies pic.cpus[i]
      ensures Valid() && View() == FinishPart(world, old(View()), i)
    {
      hide Finish, Ok, Valid, EventList.Contents, InterruptController.View;
      CpuView(i);
      if pic.cpus[i].status != Idle {
        pic.cpus[i].Finish(world.fetch(w, pic.cpus[i].View()));
        OneCpuChanged(i);
      }
    }

    method RunCpu(i: nat)
      requires Valid() && Ok(View()) && i < |pic.cpus|
      modifies this, eventQ, Nodes(), pic, pic.cpus
      ensures Valid() && View() == CpuCycle(world, old(View()), i)
      ensures fresh(Nodes() - old(Nodes()))
    {
      hide TimerPart, ExecPart, FinishPart, View, Valid, Ok;
      CpuView(i);
      if pic.cpus[i].status == Halted { return; }
      TimerUndisturbed(View(), i);
      RunTimer(i);
      CpuView(i);
      if pic.cpus[i].status == Idle { return; }
      ExecUndisturbed(View(), i);
      RunInstruction(i);
      RunFetch(i);
    }

    lemma TimerUndisturbed(k: Kernel<W, D>, i: nat)
      requires Ok(k) && i < |k.irq.cpus|
      ensures Ok(TimerPart(k, i)) && |TimerPart(k, i).irq.cpus| == |k.irq.cpus|
    {
    }

    lemma ExecUndisturbed(k: Kernel<W, D>, i: nat)
      requires Ok(k) && i < |k.irq.cpus| && !k.irq.cpus[i].IsIdle()
      ensures Ok(ExecPart(world, k, i)) && |ExecPart(world, k, i).irq.cpus| == |k.irq.cpus|
    {
    }

    method RunRound()
      requires Valid() && Settled(View()) && HasRoom(View(), 1)
      modifies this, eventQ, Nodes(), pic, pic.cpus
      ensures Valid() && View() == Round(world, old(View()))
      ensures fresh(Nodes() - old(Nodes()))
    {
      hide Ok, CpuCycle, View, Valid, Spec.ClockTick, HasRoom;
      ClockTick();
      Flags();
      ghost var start := View();
      for i := 0 to |pic.cpus|
        invariant Valid() && Ok(View())
        invariant |View().irq.cpus| == |pic.cpus|
        invariant Cpus(world, View(), i) == Cpus(world, start, 0)
        invariant fresh(Nodes() - old(Nodes()))
      {
        RunCpu(i);
      }
    }

    /**
     * Rounds until `steps` are done, the machine is off, or a processor has gone to sleep: the state is
     * that many rounds on, and no earlier round had a reason to stop.
     */
    method Step(steps: nat) returns (stepped: nat)
      requires Valid() && Settled(View()) && HasRoom(View(), steps)
      modifies this, eventQ, Nodes(), pic, pic.cpus
      ensures Valid() && stepped <= steps
      ensures var k := old(View()).(pause := false);
        && Settled(k) && HasRoom(k, steps)
        && View() == Rounds(world, k, stepped)
        && (stepped < steps ==> View().halted || View().pause)
        && (forall j :: 0 <= j < stepped ==> !Rounds(world, k, j).halted && !Rounds(world, k, j).pause)
    {
      hide Round, View, Valid, Settled;
      ghost var k := View().(pause := false);
      StartStep();
      stepped := 0;
      while !halted && stepped < steps && !pauseRequested
        invariant stepped <= steps && Valid() && Settled(View())
        invariant View() == Rounds(world, k, stepped)
        invariant forall j :: 0 <= j < stepped ==> !Rounds(world, k, j).halted && !Rounds(world, k, j).pause
        invariant fresh(Nodes() - old(Nodes()))
      {
        Flags();
        RunRound();
        stepped := stepped + 1;
      }
      Flags();
    }

    method StartStep()
      requires Valid() && Settled(View())
      modifies this`pauseRequested
      ensures Valid() && Settled(View()) && View() == old(View()).(pause := false)
    {
      hide Sorted, EventList.Linked, Inv, Shown, Accounted, InOrder, InWindow;
      pauseRequested := false;
    }

    // ---- fast-forward ---------------------------------------------------------------------------

    method BusIdle() returns (c: Word)
      requires Valid()
      ensures c == FastForward.BusIdleCycles(View())
    {
      if eventQ.IsEmpty() { return timer; }
      var et := eventQ.head.deadline;
      if et > tod {
        var distance := (et - tod - 1) % TWO32;
        return if distance < timer then distance else timer;
      } else {
        return 0;
      }
    }

    /** The fold stops early at 0. */
    method IdleCycles() returns (c: Word)
      requires Valid()
      ensures c == FastForward.MachineIdleCycles(View())
    {
      hide FastForward.BusIdleCycles, View, Valid, Spec.Ok;
      c := BusIdle();
      ghost var bus := c;
      ghost var views := Views(pic.cpus);
      Idle0(bus, views, 0);
      Seen();
      if c == 0 { return; }
      for i := 0 to |pic.cpus|
        invariant c == FastForward.LeastIdle(bus, views, i)
      {
        c := FastForward.Min(c, pic.cpus[i].IdleCycles());
        if c == 0 {
          Idle0(bus, views, i + 1);
          return;
        }
      }
    }

    lemma Seen()
      ensures View().irq.cpus == Views(pic.cpus)
    {
    }

    lemma Idle0(c: Word, cpus: seq<Cpu>, i: nat)
      requires i <= |cpus|
      ensures FastForward.LeastIdle(c, cpus, i) == 0 ==> FastForward.LeastIdle(c, cpus, |cpus|) == 0
    {
    }

    method SkipOne(i: nat, n: Word)
      requires i < |pic.cpus|
      requires pic.cpus[i].status != Halted ==> pic.cpus[i].status == Idle && n <= pic.cpus[i].IdleCycles()
      modifies pic.cpus[i]
      ensures pic.cpus[i].View() == FastForward.SkipCpu(old(pic.cpus[i].View()), n)
    {
      if pic.cpus[i].status != Halted { pic.cpus[i].Skip(n); }
    }

    lemma SkipReady(n: Word)
      requires Valid() && FastForward.SkipAsserts(View(), n)
      ensures Distinct(pic.cpus)
      ensures forall i :: 0 <= i < |pic.cpus| && pic.cpus[i].status != Halted ==>
        pic.cpus[i].status == Idle && n <= pic.cpus[i].IdleCycles()
    {
      forall i | 0 <= i < |pic.cpus| && pic.cpus[i].status != Halted
        ensures pic.cpus[i].status == Idle && n <= pic.cpus[i].IdleCycles()
      {
        assert View().irq.cpus[i] == pic.cpus[i].View();
      }
    }

    method SkipProcessors(n: Word)
      requires Distinct(pic.cpus)
      requires forall i :: 0 <= i < |pic.cpus| && pic.cpus[i].status != Halted ==>
        pic.cpus[i].status == Idle && n <= pic.cpus[i].IdleCycles()
      modifies pic.cpus
      ensures Views(pic.cpus) == FastForward.SkipCpus(old(Views(pic.cpus)), n)
    {
      hide FastForward.SkipCpu;
      ghost var before := Views(pic.cpus);
      for i := 0 to |pic.cpus|
        invariant forall j :: 0 <= j < |pic.cpus| ==>
          pic.cpus[j].View() == if j < i then FastForward.SkipCpu(before[j], n) else before[j]
      {
        SkipOne(i, n);
      }
      assert Views(pic.cpus) == FastForward.SkipCpus(before, n);
    }

    method Skip(n: Word)
      requires Valid() && FastForward.SkipAsserts(View(), n)
      modifies this`tod, this`timer, pic.cpus
      ensures Valid() && View() == FastForward.MachineSkip(old(View()), n)
    {
      hide Valid, EventList.Contents, InterruptController.View, FastForward.SkipAsserts, FastForward.SkipCpus, Views;
      SkipReady(n);
      Seen();
      tod := (tod + n) % TWO64;
      timer := Sub32(timer, n);
      SkipProcessors(n);
      OnlyCpusChanged();
    }
  }
}
