/**
 * The simulation kernel: clock, timer, event queue, interrupt controller and processors.
 * Devices, memory and the program are a world that answers with operations on the kernel.
 */
module Kernel {
  import opened Words
  import opened EventQueue
  import opened Cpu
  import opened InterruptLines
  import opened Pic
  import opened Bookkeeping
  import opened ControllerRuns
  import Fairness

  /** Delays are 32-bit and positive. */
  type Delay = d: Word | d > 0 witness 1

  datatype Callback<D> =
    | IpiDelivery(origin: nat, outbox: Word)
    | CpuReset(cpu: nat, pc: Word, sp: Word)
    | CpuHalt(cpu: nat)
    | PowerOff
    | DeviceOp(dev: D)

  type Ev<D> = Event<Callback<D>>

  /** What may be scheduled other than by writing the outbox. */
  type Later<D> = c: Callback<D> | !c.IpiDelivery? witness PowerOff

  /** What may be asked of the controller at once; messages reach it only by way of the queue. */
  type DirectOp = p: PicOp | !p.Deliver? witness TakeMessage(0)

  /** Everything a device or a store can ask of the kernel. */
  datatype Op<D> =
    | Controller(op: DirectOp)
    | Send(origin: nat, outbox: Word)
    | Schedule(delay: Delay, callback: Later<D>)
    | SetTimer(value: Word)

  /** Devices, memory and program: what a completed device operation and an instruction do. */
  datatype World<!W, !D> = World(
    device: (W, U64, D) -> (W, seq<Op<D>>),
    instr: (W, U64, nat, Cpu) -> (W, Instr, seq<Op<D>>),
    fetch: (W, Cpu) -> Option<Word>,
    boot: (W, Word) -> Word)

  /** A controller operation, its tick, and where it sent a dynamically routed interrupt, if it did. */
  datatype Applied = Applied(op: PicOp, at: U64, went: seq<nat>)

  /** A write to the outbox of `origin`, and its tick. */
  datatype Sent = Sent(at: U64, origin: nat, outbox: Word)

  /** An instruction processor `cpu` executed, in a delay slot or not. */
  datatype Issued = Issued(cpu: nat, inSlot: bool, instr: Instr)

  /** A value written to the bus timer, and its tick. */
  datatype TimerSet = TimerSet(at: U64, value: Word)

  /** What has happened so far; nothing in the machine reads it. `cleanResets`: whose last reset met no pending line. */
  datatype History<D(==)> = History(
    scheduled: multiset<Ev<D>>,
    ran: seq<Ev<D>>,
    ranAt: seq<U64>,
    cleanResets: set<nat>,
    log: seq<Applied>,
    sent: seq<Sent>,
    executed: seq<Issued>,
    timerSet: TimerSet)

  datatype Kernel<W, D(==)> = Kernel(
    tod: U64,
    timer: Word,
    queue: seq<Ev<D>>,
    irq: Irq,
    w: W,
    halted: bool,
    pause: bool,
    latency: Delay,
    hist: History<D>)

  /** Every event is in the queue or has run, and has run at its deadline. */
  ghost predicate Accounted<D>(h: History<D>, queue: seq<Ev<D>>) {
    && h.scheduled == multiset(queue) + multiset(h.ran)
    && |h.ran| == |h.ranAt|
    && (forall i | 0 <= i < |h.ran| :: h.ran[i].deadline == h.ranAt[i])
  }

  /** Deadlines lie within one 32-bit delay of the clock. */
  ghost predicate InWindow<D>(queue: seq<Ev<D>>, tod: int) {
    forall i | 0 <= i < |queue| :: tod <= queue[i].deadline < tod + TWO32
  }

  ghost predicate InOrder<D>(h: History<D>, tod: int) {
    && (forall i, j | 0 <= i < j < |h.ranAt| :: h.ranAt[i] <= h.ranAt[j])
    && (forall i | 0 <= i < |h.ranAt| :: h.ranAt[i] <= tod)
  }

  /** CAUSE of these processors shows the controller's lines. */
  ghost predicate Shown(s: Irq, among: set<nat>)
    requires s.Wf()
  {
    forall t | 0 <= t < |s.cpus| && t in among :: MirrorAt(s.pic.cpuData[t], s.cpus[t])
  }

  lemma ShownKept(s: Irq, r: Irq, among: set<nat>)
    requires s.Wf() && r.Wf() && |r.cpus| == |s.cpus| && MirrorKept(s, r) && Shown(s, among)
    ensures Shown(r, among)
  {
  }

  ghost predicate Ok<W, D>(k: Kernel<W, D>) {
    && Inv(k.irq)
    && Shown(k.irq, k.hist.cleanResets)
    && Sorted(k.queue) && InWindow(k.queue, k.tod)
    && Accounted(k.hist, k.queue) && InOrder(k.hist, k.tod)
    && k.tod + TWO32 <= TWO64
  }

  /** Between ticks nothing is due. */
  ghost predicate Settled<W, D>(k: Kernel<W, D>) {
    Ok(k) && DueCount(k.queue, k.tod) == 0
  }

  /** What a running callback or instruction may not disturb. */
  ghost predicate Undisturbed<W, D>(k: Kernel<W, D>, r: Kernel<W, D>) {
    && Ok(r)
    && r.tod == k.tod && |r.irq.cpus| == |k.irq.cpus|
    && r.hist.ran == k.hist.ran && r.hist.ranAt == k.hist.ranAt
    && DueCount(r.queue, k.tod) == DueCount(k.queue, k.tod)
    && (DueCount(k.queue, k.tod) > 0 ==> r.queue != [] && r.queue[0] == k.queue[0])
  }

  lemma OkInv<W, D>(k: Kernel<W, D>)
    requires Ok(k)
    ensures Inv(k.irq) && k.irq.Wf() && k.tod + TWO32 <= TWO64
  {
  }

  lemma OkWorld<W, D>(k: Kernel<W, D>, w: W)
    requires Ok(k)
    ensures Ok(k.(w := w))
  {
  }

  lemma UndisturbedOk<W, D>(k: Kernel<W, D>, r: Kernel<W, D>)
    requires Undisturbed(k, r)
    ensures Ok(r) && r.tod == k.tod && |r.irq.cpus| == |k.irq.cpus|
  {
  }

  function ScheduleEvent<W, D>(k: Kernel<W, D>, delay: Delay, cb: Callback<D>): Kernel<W, D> {
    var e := Event(Deadline(k.tod, delay), cb);
    k.(queue := Insert(k.queue, e), hist := k.hist.(scheduled := k.hist.scheduled + multiset{e}))
  }

  lemma InsertInWindow<D>(q: seq<Ev<D>>, e: Ev<D>, tod: int)
    requires InWindow(q, tod) && tod <= e.deadline < tod + TWO32
    ensures InWindow(Insert(q, e), tod)
  {
  }

  lemma InsertAccounted<D>(h: History<D>, q: seq<Ev<D>>, e: Ev<D>)
    requires Accounted(h, q)
    ensures Accounted(h.(scheduled := h.scheduled + multiset{e}), Insert(q, e))
  {
    InsertAdds(q, e);
  }

  lemma ScheduleUndisturbed<W, D>(k: Kernel<W, D>, delay: Delay, cb: Callback<D>)
    requires Ok(k)
    ensures Undisturbed(k, ScheduleEvent(k, delay, cb))
  {
    var e := Event(Deadline(k.tod, delay), cb);
    assert e.deadline == k.tod + delay;
    InsertSorted(k.queue, e);
    InsertAccounted(k.hist, k.queue, e);
    InsertLater(k.queue, e, k.tod);
    InsertInWindow(k.queue, e, k.tod);
  }

  /** A controller operation, written down. */
  function Control<W, D>(k: Kernel<W, D>, p: PicOp): Kernel<W, D>
    requires k.irq.Wf()
  {
    k.(irq := Apply(k.irq, p),
       hist := k.hist.(log := k.hist.log + [Applied(p, k.tod, Fairness.DynamicDelivery(k.irq, p))]))
  }

  lemma ControlUndisturbed<W, D>(k: Kernel<W, D>, p: PicOp)
    requires Ok(k)
    ensures Undisturbed(k, Control(k, p))
  {
    hide Apply, Fairness.DynamicDelivery, Shown, MirrorKept;
    ApplyKeeps(k.irq, p);
    ShownKept(k.irq, Apply(k.irq, p), k.hist.cleanResets);
  }

  /** A message is delivered one latency after it was written to the outbox. */
  function SendMessage<W, D>(k: Kernel<W, D>, origin: nat, outbox: Word): Kernel<W, D> {
    var k1 := ScheduleEvent(k, k.latency, IpiDelivery(origin, outbox));
    k1.(hist := k1.hist.(sent := k1.hist.sent + [Sent(k.tod, origin, outbox)]))
  }

  function LoadTimer<W, D>(k: Kernel<W, D>, v: Word): Kernel<W, D> {
    k.(timer := v, hist := k.hist.(timerSet := TimerSet(k.tod, v)))
  }

  lemma LoadTimerOk<W, D>(k: Kernel<W, D>, v: Word)
    requires Ok(k)
    ensures Ok(LoadTimer(k, v))
  {
    hide Inv, Shown, Sorted, InWindow;
  }

  function ApplyOp<W, D>(k: Kernel<W, D>, op: Op<D>): (r: Kernel<W, D>)
    requires k.irq.Wf()
  {
    match op
    case Controller(p) => Control(k, p)
    case Send(origin, outbox) => SendMessage(k, origin, outbox)
    case Schedule(delay, cb) => ScheduleEvent(k, delay, cb)
    case SetTimer(v) => Control(LoadTimer(k, v), Acknowledge(0, 0))
  }

  lemma ApplyOpUndisturbed<W, D>(k: Kernel<W, D>, op: Op<D>)
    requires Ok(k)
    ensures Undisturbed(k, ApplyOp(k, op))
  {
    hide Control, ScheduleEvent;
    match op
    case Controller(p) => ControlUndisturbed(k, p);
    case Send(origin, outbox) => ScheduleUndisturbed(k, k.latency, IpiDelivery(origin, outbox));
    case Schedule(delay, cb) => ScheduleUndisturbed(k, delay, cb);
    case SetTimer(v) => ControlUndisturbed(LoadTimer(k, v), Acknowledge(0, 0));
  }

  ghost function ApplyOps<W, D>(k: Kernel<W, D>, ops: seq<Op<D>>): (r: Kernel<W, D>)
    requires Ok(k)
    ensures Undisturbed(k, r)
    decreases |ops|
  {
    if ops == [] then k else
    ApplyOpUndisturbed(k, ops[0]);
    ApplyOps(ApplyOp(k, ops[0]), ops[1..])
  }

  // ---- callbacks ------------------------------------------------------------

  function ResetCpu<W, D>(h: World<W, D>, k: Kernel<W, D>, t: nat, pc: Word, sp: Word): Kernel<W, D>
    requires k.irq.Wf() && t < |k.irq.cpus|
  {
    k.(irq := SetCpu(k.irq, t, Reset(k.irq.cpus[t], pc, sp, h.boot(k.w, pc))),
       hist := k.hist.(cleanResets :=
         if k.irq.pic.cpuData[t].ipMask == 0 then k.hist.cleanResets + {t} else k.hist.cleanResets - {t}))
  }

  lemma ResetUndisturbed<W, D>(h: World<W, D>, k: Kernel<W, D>, t: nat, pc: Word, sp: Word)
    requires Ok(k) && t < |k.irq.cpus|
    ensures Undisturbed(k, ResetCpu(h, k, t, pc, sp))
  {
    hide Reset, MirrorAt, Sorted, InWindow, DueCount;
    var c := Reset(k.irq.cpus[t], pc, sp, h.boot(k.w, pc));
    ResetMirror(k.irq, t, pc, sp, h.boot(k.w, pc));
    if k.irq.pic.cpuData[t].ipMask == 0 {
      forall l: Line ensures !BitVal(k.irq.pic.cpuData[t].ipMask, l) { ZeroHasNoBit(l); }
    }
  }

  lemma HaltUndisturbed<W, D>(k: Kernel<W, D>, t: nat)
    requires Ok(k) && t < |k.irq.cpus|
    ensures Undisturbed(k, k.(irq := SetCpu(k.irq, t, Halt(k.irq.cpus[t]))))
  {
    SetCpuKeeps(k.irq, t, Halt(k.irq.cpus[t]));
    ShownKept(k.irq, SetCpu(k.irq, t, Halt(k.irq.cpus[t])), k.hist.cleanResets);
  }

  /** Runs the callback of an event that is still the head of the queue. */
  ghost function Fire<W, D>(h: World<W, D>, k: Kernel<W, D>, cb: Callback<D>): (r: Kernel<W, D>)
    requires Ok(k)
    ensures Undisturbed(k, r)
  {
    match cb
    case IpiDelivery(origin, outbox) =>
      ControlUndisturbed(k, Deliver(origin, outbox));
      Control(k, Deliver(origin, outbox))
    case CpuReset(t, pc, sp) =>
      if t < |k.irq.cpus| then ResetUndisturbed(h, k, t, pc, sp); ResetCpu(h, k, t, pc, sp) else k
    case CpuHalt(t) =>
      if t < |k.irq.cpus| then HaltUndisturbed(k, t); k.(irq := SetCpu(k.irq, t, Halt(k.irq.cpus[t]))) else k
    case PowerOff => k.(halted := true)
    case DeviceOp(d) =>
      var (w, ops) := h.device(k.w, k.tod, d);
      ApplyOps(k.(w := w), ops)
  }

  lemma HeadRuns<D>(h: History<D>, q: seq<Ev<D>>, tod: U64)
    requires Accounted(h, q) && InOrder(h, tod) && q != [] && q[0].deadline == tod
    ensures var h1 := h.(ran := h.ran + [q[0]], ranAt := h.ranAt + [tod]);
      Accounted(h1, q[1..]) && InOrder(h1, tod)
  {
    assert q == [q[0]] + q[1..];
  }

  /** The head, its callback done, comes off the queue. */
  function HeadOff<W, D>(k: Kernel<W, D>, e: Ev<D>): Kernel<W, D>
    requires k.queue != []
  {
    k.(queue := k.queue[1..], hist := k.hist.(ran := k.hist.ran + [e], ranAt := k.hist.ranAt + [k.tod]))
  }

  lemma HeadOffOk<W, D>(k: Kernel<W, D>, k1: Kernel<W, D>)
    requires Ok(k) && DueCount(k.queue, k.tod) > 0 && Undisturbed(k, k1)
    ensures k.queue != [] && k1.queue != []
    ensures var r := HeadOff(k1, k.queue[0]);
      && Ok(r) && r.tod == k.tod && |r.irq.cpus| == |k.irq.cpus|
      && r.hist.ran == k.hist.ran + [k.queue[0]]
      && DueCount(r.queue, k.tod) == DueCount(k.queue, k.tod) - 1
  {
    hide Inv, Shown, Accounted, InOrder;
    assert k.queue != [];
    DueCountSplits(k1.queue, k.tod);
    assert k1.queue[0] == k.queue[0] && k1.queue[0].deadline == k.tod;
    HeadRuns(k1.hist, k1.queue, k.tod);
  }

  /** One turn of the drain loop: run the head's callback, then remove the head. */
  ghost function RunHead<W, D>(h: World<W, D>, k: Kernel<W, D>): (r: Kernel<W, D>)
    requires Ok(k) && DueCount(k.queue, k.tod) > 0
    ensures Ok(r) && r.tod == k.tod && |r.irq.cpus| == |k.irq.cpus|
    ensures r.hist.ran == k.hist.ran + [k.queue[0]]
    ensures DueCount(r.queue, k.tod) == DueCount(k.queue, k.tod) - 1
  {
    var k1 := Fire(h, k, k.queue[0].callback);
    HeadOffOk(k, k1);
    HeadOff(k1, k.queue[0])
  }

  ghost function Drain<W, D>(h: World<W, D>, k: Kernel<W, D>): (r: Kernel<W, D>)
    requires Ok(k)
    ensures Settled(r) && r.tod == k.tod && |r.irq.cpus| == |k.irq.cpus|
    ensures k.hist.ran <= r.hist.ran
    decreases DueCount(k.queue, k.tod)
  {
    if k.queue == [] || k.queue[0].deadline > k.tod then k else Drain(h, RunHead(h, k))
  }

  /** The clock has room for a tick and a further 32-bit delay. */
  ghost predicate HasRoom<W, D>(k: Kernel<W, D>, n: nat) { k.tod + n + TWO32 <= TWO64 }

  function Advance<W, D>(k: Kernel<W, D>): Kernel<W, D>
    requires k.irq.Wf()
  {
    var k1 := k.(tod := (k.tod + 1) % TWO64, timer := Sub32(k.timer, 1));
    if k.timer < 1 then Control(k1, Raise(0, 0)) else k1
  }

  /** The clock may move on when nothing is due. */
  lemma ClockOk<W, D>(k: Kernel<W, D>)
    requires Settled(k) && HasRoom(k, 1)
    ensures Ok(k.(tod := (k.tod + 1) % TWO64, timer := Sub32(k.timer, 1)))
  {
    hide Inv, Shown, Accounted, DueCount;
    DueCountSplits(k.queue, k.tod);
    forall i | 0 <= i < |k.queue| ensures k.tod + 1 <= k.queue[i].deadline < k.tod + 1 + TWO32 {
      assert k.queue[0].deadline <= k.queue[i].deadline;
    }
  }

  lemma AdvanceOk<W, D>(k: Kernel<W, D>)
    requires Settled(k) && HasRoom(k, 1)
    ensures Ok(Advance(k)) && |Advance(k).irq.cpus| == |k.irq.cpus| && Advance(k).tod == k.tod + 1
  {
    hide Inv, Shown, Accounted, InOrder, InWindow, Sorted, DueCount, Control;
    ClockOk(k);
    ControlUndisturbed(k.(tod := (k.tod + 1) % TWO64, timer := Sub32(k.timer, 1)), Raise(0, 0));
  }

  ghost function ClockTick<W, D>(h: World<W, D>, k: Kernel<W, D>): (r: Kernel<W, D>)
    requires Settled(k) && HasRoom(k, 1)
    ensures Settled(r) && r.tod == k.tod + 1 && |r.irq.cpus| == |k.irq.cpus|
    ensures k.hist.ran <= r.hist.ran
  {
    AdvanceOk(k);
    Drain(h, Advance(k))
  }

  // ---- processors -----------------------------------------------------------

  /** A processor's own change keeps the kernel well if its lines stay and it sleeps only when quiet. */
  lemma CpuChangeUndisturbed<W, D>(k: Kernel<W, D>, i: nat, c: Cpu)
    requires Ok(k) && i < |k.irq.cpus|
    requires IdleOk(c)
    requires forall l: Line :: l != IL_CPUTIMER ==> (IpBit(c.cp0[CAUSE], l) <==> IpBit(k.irq.cpus[i].cp0[CAUSE], l))
    ensures Undisturbed(k, k.(irq := SetCpu(k.irq, i, c)))
  {
    SetCpuKeeps(k.irq, i, c);
    ShownKept(k.irq, SetCpu(k.irq, i, c), k.hist.cleanResets);
  }

  /** The timer part of a cycle. */
  ghost function TimerPart<W, D>(k: Kernel<W, D>, i: nat): (r: Kernel<W, D>)
    requires Ok(k) && i < |k.irq.cpus|
    ensures Undisturbed(k, r)
  {
    var c := k.irq.cpus[i];
    CpuTimerLines(c);
    assert CpuOk(k.irq, i);
    CpuChangeUndisturbed(k, i, CpuTimer(c));
    k.(irq := SetCpu(k.irq, i, CpuTimer(c)))
  }

  /** Processor `i` after its instruction, with the world and the pause request as the instruction leaves them. */
  function Executing<W, D>(k: Kernel<W, D>, i: nat, e: Instr, w: W): Kernel<W, D>
    requires i < |k.irq.cpus|
  {
    var c := k.irq.cpus[i];
    var c1 := Execute(c, e);
    k.(irq := SetCpu(k.irq, i, c1), w := w, pause := k.pause || c1.IsIdle(),
       hist := k.hist.(executed := k.hist.executed + [Issued(i, c.isBranchD, Effective(c, e))]))
  }

  /** World, pause request and the trace of instructions do not matter to the kernel's invariant. */
  lemma TraceUndisturbed<W, D>(k: Kernel<W, D>, r: Kernel<W, D>, w: W, pause: bool, x: seq<Issued>)
    requires Undisturbed(k, r)
    ensures Undisturbed(k, r.(w := w, pause := pause, hist := r.hist.(executed := x)))
  {
    hide Inv, Shown, InWindow, Sorted, DueCount;
  }

  lemma ExecutingUndisturbed<W, D>(k: Kernel<W, D>, i: nat, e: Instr, w: W)
    requires Ok(k) && i < |k.irq.cpus| && !k.irq.cpus[i].IsIdle()
    ensures Undisturbed(k, Executing(k, i, e, w))
  {
    hide Execute, Effective, Undisturbed, Ok, MirrorAt, BitVal, NoIp;
    var c := k.irq.cpus[i];
    var c1 := Execute(c, e);
    ExecuteLines(c, e);
    CpuChangeUndisturbed(k, i, c1);
    TraceUndisturbed(k, k.(irq := SetCpu(k.irq, i, c1)), w, k.pause || c1.IsIdle(),
                     k.hist.executed + [Issued(i, c.isBranchD, Effective(c, e))]);
  }

  /** Execution of one instruction and, unless it faulted or slept, of its stores. */
  ghost function ExecPart<W, D>(h: World<W, D>, k: Kernel<W, D>, i: nat): (r: Kernel<W, D>)
    requires Ok(k) && i < |k.irq.cpus| && !k.irq.cpus[i].IsIdle()
    ensures Undisturbed(k, r)
  {
    var c := k.irq.cpus[i];
    var (w, e, ops) := h.instr(k.w, k.tod, i, c);
    ExecutingUndisturbed(k, i, e, w);
    var k1 := Executing(k, i, e, w);
    if ExecInstr(c, e).1 || Execute(c, e).IsIdle() then k1 else ApplyOps(k1, ops)
  }

  /** Interrupt check and fetch. */
  ghost function FinishPart<W, D>(h: World<W, D>, k: Kernel<W, D>, i: nat): (r: Kernel<W, D>)
    requires Ok(k) && i < |k.irq.cpus|
    ensures Undisturbed(k, r)
  {
    var c := k.irq.cpus[i];
    FinishLines(c, h.fetch(k.w, c));
    assert CpuOk(k.irq, i);
    if c.IsIdle() then k else
    CpuChangeUndisturbed(k, i, Finish(c, h.fetch(k.w, c)));
    k.(irq := SetCpu(k.irq, i, Finish(c, h.fetch(k.w, c))))
  }

  ghost function CpuCycle<W, D>(h: World<W, D>, k: Kernel<W, D>, i: nat): (r: Kernel<W, D>)
    requires Ok(k) && i < |k.irq.cpus|
    ensures Undisturbed(k, r)
  {
    if k.irq.cpus[i].IsHalted() then k else
    var k1 := TimerPart(k, i);
    if k1.irq.cpus[i].IsIdle() then k1 else FinishPart(h, ExecPart(h, k1, i), i)
  }

  /** The processors from `i` on, in order. */
  ghost function Cpus<W, D>(h: World<W, D>, k: Kernel<W, D>, i: nat): (r: Kernel<W, D>)
    requires Ok(k) && i <= |k.irq.cpus|
    ensures Undisturbed(k, r)
    decreases |k.irq.cpus| - i
  {
    if i == |k.irq.cpus| then k else Cpus(h, CpuCycle(h, k, i), i + 1)
  }

  /** One step of the machine: the bus clock, then every processor. */
  ghost function Round<W, D>(h: World<W, D>, k: Kernel<W, D>): (r: Kernel<W, D>)
    requires Settled(k) && HasRoom(k, 1)
    ensures Settled(r) && r.tod == k.tod + 1 && |r.irq.cpus| == |k.irq.cpus|
    ensures k.hist.ran <= r.hist.ran
  {
    Cpus(h, ClockTick(h, k), 0)
  }

  ghost function Rounds<W, D>(h: World<W, D>, k: Kernel<W, D>, n: nat): (r: Kernel<W, D>)
    requires Settled(k) && HasRoom(k, n)
    ensures Settled(r) && r.tod == k.tod + n && |r.irq.cpus| == |k.irq.cpus|
    ensures k.hist.ran <= r.hist.ran
  {
    if n == 0 then k else Round(h, Rounds(h, k, n - 1))
  }

  // ---- what holds in every reachable state ------------------------------------

  function Initial<W, D>(cpus: seq<Cpu>, w: W, latency: Delay): Kernel<W, D>
    requires 1 <= |cpus| <= MAX_CPUS
  {
    Kernel(0, MAX_WORD, [], Irq(InitialPic(|cpus|), cpus), w, false, false, latency,
           History(multiset{}, [], [], {}, [], [], [], TimerSet(0, MAX_WORD)))
  }

  /** As built; registers, CAUSE among them, may hold anything until the first reset. */
  ghost predicate PoweredOff(cpus: seq<Cpu>) {
    forall t | 0 <= t < |cpus| :: cpus[t].IsHalted()
  }

  lemma InitialSettled<W, D>(cpus: seq<Cpu>, w: W, latency: Delay)
    requires 1 <= |cpus| <= MAX_CPUS && PoweredOff(cpus)
    ensures Settled<W, D>(Initial(cpus, w, latency))
  {
    InitialInv(|cpus|, cpus);
  }

  /** A machine built from such processors and with the first one reset is a settled start, its reset a clean one. */
  lemma BootSettled<W, D>(h: World<W, D>, cpus: seq<Cpu>, w: W, latency: Delay, pc: Word, sp: Word)
    requires 1 <= |cpus| <= MAX_CPUS && PoweredOff(cpus)
    ensures var k := ResetCpu<W, D>(h, Initial(cpus, w, latency), 0, pc, sp);
      && Settled(k) && k.hist.cleanResets == {0} && !k.halted && !k.pause && k.tod == 0 && k.queue == []
      && k.irq.cpus[0].status == Running && k.irq.cpus[0].currPC == pc
  {
    InitialSettled<W, D>(cpus, w, latency);
    ResetUndisturbed<W, D>(h, Initial(cpus, w, latency), 0, pc, sp);
    hide Ok;
  }

  lemma LaterEvents<D>(q: seq<Ev<D>>, tod: int)
    requires Sorted(q) && DueCount(q, tod) == 0
    ensures forall i | 0 <= i < |q| :: tod < q[i].deadline
  {
    DueCountSplits(q, tod);
    forall i | 0 <= i < |q| ensures tod < q[i].deadline {
      assert q[0].deadline <= q[i].deadline;
    }
  }

  /** What has run is what was scheduled for by now. */
  lemma RanIsScheduled<D>(h: History<D>, q: seq<Ev<D>>, tod: U64, e: Ev<D>)
    requires Accounted(h, q) && InOrder(h, tod) && forall i | 0 <= i < |q| :: tod < q[i].deadline
    ensures multiset(h.ran)[e] == if e.deadline <= tod then h.scheduled[e] else 0
  {
    if e in multiset(q) {
      var i :| 0 <= i < |q| && q[i] == e;
    }
    if e in multiset(h.ran) {
      var i :| 0 <= i < |h.ran| && h.ran[i] == e;
      assert h.ranAt[i] <= tod;
    }
  }

  lemma RanInOrder<D>(h: History<D>, q: seq<Ev<D>>, tod: U64)
    requires Accounted(h, q) && InOrder(h, tod)
    ensures |h.ran| == |h.ranAt| && forall i | 0 <= i < |h.ran| :: h.ran[i].deadline == h.ranAt[i]
    ensures forall i, j | 0 <= i < j < |h.ran| :: h.ran[i].deadline <= h.ran[j].deadline
  {
  }

  /**
   * In every run each scheduled event has run exactly as often as it was scheduled once its deadline
   * has come, and not at all before; every run was in the tick of its deadline; what waits is later.
   */
  lemma EventsRunOnTime<W, D>(h: World<W, D>, k0: Kernel<W, D>, n: nat)
    requires Settled(k0) && HasRoom(k0, n)
    ensures var k := Rounds(h, k0, n);
      && (forall e: Ev<D> :: multiset(k.hist.ran)[e] == if e.deadline <= k.tod then k.hist.scheduled[e] else 0)
      && (forall i | 0 <= i < |k.hist.ran| :: k.hist.ran[i].deadline == k.hist.ranAt[i])
      && (forall i, j | 0 <= i < j < |k.hist.ran| :: k.hist.ran[i].deadline <= k.hist.ran[j].deadline)
      && (forall i | 0 <= i < |k.queue| :: k.tod < k.queue[i].deadline)
  {
    hide Inv, Shown, Accounted, InOrder, Sorted, InWindow, DueCount, Rounds;
    var k := Rounds(h, k0, n);
    LaterEvents(k.queue, k.tod);
    RanInOrder(k.hist, k.queue, k.tod);
    forall e: Ev<D> ensures multiset(k.hist.ran)[e] == if e.deadline <= k.tod then k.hist.scheduled[e] else 0 {
      RanIsScheduled(k.hist, k.queue, k.tod, e);
    }
  }

  /** What the books say of one processor. */
  lemma AsleepIsQuiet(s: Irq, t: nat)
    requires Inv(s) && t < |s.cpus|
    ensures t < |s.pic.cpuData|
    ensures s.cpus[t].IsIdle() ==> forall l: Line :: !IpBit(s.cpus[t].cp0[CAUSE], l)
    ensures MirrorAt(s.pic.cpuData[t], s.cpus[t]) && s.cpus[t].IsIdle() ==>
      s.pic.cpuData[t].inbox == [] && forall l: nat | l < 5 :: s.pic.cpuData[t].idb[l] == 0
  {
    hide Owned, NoIp, IpBit, BitVal;
    assert CpuOk(s, t);
    NoIpIsNoLine(s.cpus[t].cp0[CAUSE]);
    if MirrorAt(s.pic.cpuData[t], s.cpus[t]) && s.cpus[t].IsIdle() {
      assert !IpBit(s.cpus[t].cp0[CAUSE], IL_IPI);
      forall l: nat | l < 5 ensures s.pic.cpuData[t].idb[l] == 0 {
        assert !IpBit(s.cpus[t].cp0[CAUSE], 3 + l);
      }
    }
  }

  /**
   * No lost wake-up: no processor sleeps on a pending line, and CAUSE of a processor whose last reset was clean
   * shows the controller.
   */
  lemma NoLostWakeUp<W, D>(h: World<W, D>, k0: Kernel<W, D>, n: nat, t: nat)
    requires Settled(k0) && HasRoom(k0, n) && t < |k0.irq.cpus|
    ensures var k := Rounds(h, k0, n); var c := k.irq.cpus[t];
      && (c.IsIdle() ==> forall l: Line :: !IpBit(c.cp0[CAUSE], l))
      && (t in k.hist.cleanResets ==>
           forall l: Line | l != IL_CPUTIMER :: IpBit(c.cp0[CAUSE], l) <==> BitVal(k.irq.pic.cpuData[t].ipMask, l))
      && (t in k.hist.cleanResets && c.IsIdle() ==>
           k.irq.pic.cpuData[t].inbox == [] && forall l: nat | l < 5 :: k.irq.pic.cpuData[t].idb[l] == 0)
  {
    hide Rounds, Inv, IpBit, BitVal, DueCount, Accounted, InOrder, InWindow, Sorted;
    var k := Rounds(h, k0, n);
    AsleepIsQuiet(k.irq, t);
    assert t in k.hist.cleanResets ==> MirrorAt(k.irq.pic.cpuData[t], k.irq.cpus[t]);
  }
}
