/** A terminal inside the machine: its bus calls are the kernel's operations, its completions the kernel's events. */
module HostedTerminals {
  import opened Words
  import opened EventQueue
  import opened Cpu
  import opened Pic
  import opened Bookkeeping
  import opened ControllerRuns
  import opened Kernel
  import T = Terminal

  // ---- the world with a terminal in it ------------------------------------------------------------

  datatype Dev<D> = Completion | Other(dev: D)

  /** The terminal beside everything else. */
  datatype Hosted<R> = Hosted(s: T.System, rest: R)

  type Dev8 = x: nat | x < 8

  /** A write to one of its registers, a typed line, or a change of its condition. */
  type Act = a: T.Step | a.Write? || a.Type? || a.SetCondition? witness T.SetCondition(true)

  predicate IsCompletion<D>(c: Callback<Dev<D>>) { c.DeviceOp? && c.dev.Completion? }

  /** Nothing but the terminal schedules its completions. */
  type ForeignOp<D> = o: Op<Dev<D>> | !(o.Schedule? && IsCompletion(o.callback)) witness SetTimer(0)

  /** The rest of the machine, which sees the terminal's registers and acts on it while it executes. */
  datatype Host<!R, !D> = Host(
    device: (R, U64, D) -> (R, seq<ForeignOp<D>>),
    instr: (R, T.Terminal, U64, nat, Cpu) -> (R, Instr, seq<Act>, seq<ForeignOp<D>>),
    fetch: (R, Cpu) -> Option<Word>,
    boot: (R, Word) -> Word)

  function OpOf<D>(call: T.BusCall, il: SrcLine, dev: Dev8): seq<Op<Dev<D>>> {
    match call
    case IntReq => [Controller(Raise(il, dev))]
    case IntAck => [Controller(Acknowledge(il, dev))]
    case Schedule(delay) => if 0 < delay < TWO32 then [Schedule(delay, DeviceOp(Completion))] else []
  }

  function OpsOf<D>(calls: seq<T.BusCall>, il: SrcLine, dev: Dev8): seq<Op<Dev<D>>> {
    if calls == [] then [] else OpOf(calls[0], il, dev) + OpsOf(calls[1..], il, dev)
  }

  function ActCalls(s: T.System, act: Act): seq<T.BusCall> {
    if act.Write? then T.WriteDevReg(s.t, s.tod, s.clock, act.regnum, act.data).1 else []
  }

  function Acts(s: T.System, acts: seq<Act>): T.System
    decreases |acts|
  {
    if acts == [] then s else Acts(T.Next(s, acts[0]), acts[1..])
  }

  function ActOps<D>(s: T.System, acts: seq<Act>, il: SrcLine, dev: Dev8): seq<Op<Dev<D>>>
    decreases |acts|
  {
    if acts == [] then [] else OpsOf(ActCalls(s, acts[0]), il, dev) + ActOps(T.Next(s, acts[0]), acts[1..], il, dev)
  }

  function CompletionOps<D>(s: T.System, il: SrcLine, dev: Dev8): seq<Op<Dev<D>>> {
    match T.CompleteDevOp(s.t, s.tod, s.clock) case Panic => [] case Done(_, calls, _) => OpsOf(calls, il, dev)
  }

  function Completed<R, D>(w: Hosted<R>, tod: U64, il: SrcLine, dev: Dev8): (Hosted<R>, seq<Op<Dev<D>>>) {
    var s := w.s.(tod := tod);
    (w.(s := T.Next(s, T.Fire)), CompletionOps(s, il, dev))
  }

  /** An instruction acts on the terminal only if it neither faults nor sleeps, as its stores do. */
  function Acting<R, D>(host: Host<R, D>, w: Hosted<R>, tod: U64, i: nat, c: Cpu, il: SrcLine, dev: Dev8)
    : (Hosted<R>, Instr, seq<Op<Dev<D>>>)
  {
    var (r, e, acts, ops) := host.instr(w.rest, w.s.t, tod, i, c);
    if ExecInstr(c, e).1 || Execute(c, e).IsIdle() then (w.(rest := r), e, [])
    else
      var s := w.s.(tod := tod);
      (Hosted(Acts(s, acts), r), e, ActOps(s, acts, il, dev) + ops)
  }

  function Device<R, D>(host: Host<R, D>, w: Hosted<R>, tod: U64, d: Dev<D>, il: SrcLine, dev: Dev8)
    : (Hosted<R>, seq<Op<Dev<D>>>)
  {
    match d
    case Completion => Completed(w, tod, il, dev)
    case Other(d0) => var (r, ops) := host.device(w.rest, tod, d0); (w.(rest := r), ops)
  }

  /** The world of a machine with this terminal on line `il` as device `dev`. */
  function WorldOf<R, D>(host: Host<R, D>, il: SrcLine, dev: Dev8): World<Hosted<R>, Dev<D>> {
    World(
      (w: Hosted<R>, tod: U64, d: Dev<D>) => Device(host, w, tod, d, il, dev),
      (w: Hosted<R>, tod: U64, i: nat, c: Cpu) => Acting(host, w, tod, i, c, il, dev),
      (w: Hosted<R>, c: Cpu) => host.fetch(w.rest, c),
      (w: Hosted<R>, pc: Word) => host.boot(w.rest, pc))
  }

  // ---- completions in the queue ---------------------------------------------------------------------

  function CompletionAt<D>(x: U64): Ev<Dev<D>> { Event(x, DeviceOp(Completion)) }

  /** How many completions the queue holds for tick `x`. */
  ghost function Queued<D>(q: seq<Ev<Dev<D>>>, x: nat): nat {
    if x < TWO64 then multiset(q)[CompletionAt(x)] else 0
  }

  predicate EmitsAt<D>(op: Op<Dev<D>>, tod: U64, x: nat) {
    op.Schedule? && IsCompletion(op.callback) && x == Deadline(tod, op.delay)
  }

  /** How many completions these operations schedule for tick `x`. */
  function Emitted<D>(ops: seq<Op<Dev<D>>>, tod: U64, x: nat): nat {
    if ops == [] then 0 else (if EmitsAt(ops[0], tod, x) then 1 else 0) + Emitted(ops[1..], tod, x)
  }

  lemma {:induction false} EmittedAppend<D>(a: seq<Op<Dev<D>>>, b: seq<Op<Dev<D>>>, tod: U64, x: nat)
    ensures Emitted(a + b, tod, x) == Emitted(a, tod, x) + Emitted(b, tod, x)
  {
    hide EmitsAt;
    if a == [] {
      assert a + b == b;
    } else {
      assert (a + b)[1..] == a[1..] + b;
      EmittedAppend(a[1..], b, tod, x);
    }
  }

  lemma EmittedOne<D>(op: Op<Dev<D>>, tod: U64, x: nat)
    ensures Emitted([op], tod, x) == if EmitsAt(op, tod, x) then 1 else 0
  {
    hide EmitsAt;
    assert [op][1..] == [];
  }

  lemma {:induction false} ForeignEmitsNothing<D>(ops: seq<ForeignOp<D>>, tod: U64, x: nat)
    ensures Emitted<D>(ops, tod, x) == 0
  {
    if ops != [] { ForeignEmitsNothing<D>(ops[1..], tod, x); }
  }

  lemma InsertQueues<D>(q: seq<Ev<Dev<D>>>, e: Ev<Dev<D>>, x: nat)
    ensures Queued(Insert(q, e), x) == Queued(q, x) + if e.deadline == x && IsCompletion(e.callback) then 1 else 0
  {
    hide Insert;
    InsertAdds(q, e);
  }

  lemma OpQueues<W, D>(k: Kernel<W, Dev<D>>, op: Op<Dev<D>>, x: nat)
    requires Ok(k)
    ensures k.irq.Wf() && ApplyOp(k, op).w == k.w && ApplyOp(k, op).tod == k.tod
    ensures Queued(ApplyOp(k, op).queue, x) == Queued(k.queue, x) + if EmitsAt(op, k.tod, x) then 1 else 0
  {
    hide Ok, Insert, Apply, Queued, Deadline;
    OkInv(k);
    if op.Schedule? { InsertQueues(k.queue, Event(Deadline(k.tod, op.delay), op.callback), x); }
    if op.Send? { InsertQueues(k.queue, Event(Deadline(k.tod, k.latency), IpiDelivery(op.origin, op.outbox)), x); }
  }

  lemma {:induction false} OpsQueue<W, D>(k: Kernel<W, Dev<D>>, ops: seq<Op<Dev<D>>>, x: nat)
    requires Ok(k)
    ensures ApplyOps(k, ops).w == k.w
    ensures Queued(ApplyOps(k, ops).queue, x) == Queued(k.queue, x) + Emitted(ops, k.tod, x)
    decreases |ops|
  {
    hide Ok, ApplyOp, EmitsAt, Queued;
    if ops != [] {
      OpQueues(k, ops[0], x);
      ApplyOpUndisturbed(k, ops[0]);
      OpsQueue(ApplyOp(k, ops[0]), ops[1..], x);
    }
  }

  // ---- bus calls and operations -----------------------------------------------------------------------

  /** Delays that fit a 32-bit delay and do not carry the clock past its end. */
  predicate Proper(call: T.BusCall, tod: nat) { call.Schedule? ==> 0 < call.delay < TWO32 && tod + call.delay < TWO64 }

  ghost predicate AllProper(calls: seq<T.BusCall>, tod: nat) { forall i | 0 <= i < |calls| :: Proper(calls[i], tod) }

  /** The terminal's events of `r` are those of `s` and the ones the operations schedule. */
  ghost predicate Emits<D>(s: T.System, r: T.System, ops: seq<Op<Dev<D>>>, x: nat)
    requires s.tod < TWO64
  {
    r.tod == s.tod && r.clock == s.clock && r.events[x] == s.events[x] + Emitted(ops, s.tod, x)
  }

  lemma CallEmits<D>(s: T.System, call: T.BusCall, il: SrcLine, dev: Dev8, x: nat)
    requires s.tod < TWO64 && Proper(call, s.tod)
    ensures Emits<D>(s, T.Call(s, call), OpOf<D>(call, il, dev), x)
  {
    hide Emitted;
    match call
    case IntReq => EmittedOne<D>(Controller(Raise(il, dev)), s.tod, x);
    case IntAck => EmittedOne<D>(Controller(Acknowledge(il, dev)), s.tod, x);
    case Schedule(delay) => EmittedOne<D>(Schedule(delay, DeviceOp(Completion)), s.tod, x);
  }

  lemma {:induction false} CallsEmit<D>(s: T.System, calls: seq<T.BusCall>, il: SrcLine, dev: Dev8, x: nat)
    requires s.tod < TWO64 && AllProper(calls, s.tod)
    ensures Emits<D>(s, T.Calls(s, calls), OpsOf<D>(calls, il, dev), x)
    decreases |calls|
  {
    hide OpOf, Proper, T.Call;
    if calls != [] {
      var s1 := T.Call(s, calls[0]);
      CallEmits<D>(s, calls[0], il, dev, x);
      CallsEmit<D>(s1, calls[1..], il, dev, x);
      EmitsTwice<D>(s, s1, T.Calls(s, calls), OpOf<D>(calls[0], il, dev), OpsOf<D>(calls[1..], il, dev), x);
    }
  }

  lemma EmitsTwice<D>(s: T.System, m: T.System, r: T.System, a: seq<Op<Dev<D>>>, b: seq<Op<Dev<D>>>, x: nat)
    requires s.tod < TWO64 && Emits(s, m, a, x) && Emits(m, r, b, x)
    ensures Emits(s, r, a + b, x)
  {
    EmittedAppend(a, b, s.tod, x);
  }

  lemma EmitsNothing<D>(s: T.System, r: T.System, il: SrcLine, dev: Dev8, x: nat)
    requires s.tod < TWO64 && r.tod == s.tod && r.clock == s.clock && r.events == s.events
    ensures Emits<D>(s, r, OpsOf<D>([], il, dev), x)
  {
  }

  lemma WritesProper(s: T.System, act: Act)
    requires s.tod + TWO32 <= TWO64
    ensures AllProper(ActCalls(s, act), s.tod)
  {
  }

  lemma CompletionProper(t: T.Terminal, tod: nat, clock: T.ClockRate)
    requires tod + TWO32 <= TWO64
    ensures var c := T.CompleteDevOp(t, tod, clock); c.Done? ==> AllProper(c.calls, tod)
  {
    hide T.ReceivedStatus;
  }

  lemma ActEmits<D>(s: T.System, act: Act, il: SrcLine, dev: Dev8, x: nat)
    requires s.tod + TWO32 <= TWO64
    ensures Emits<D>(s, T.Next(s, act), OpsOf<D>(ActCalls(s, act), il, dev), x)
  {
    hide T.Calls, T.WriteDevReg, OpsOf, Emitted;
    WritesProper(s, act);
    if act.Write? {
      var (t, calls) := T.WriteDevReg(s.t, s.tod, s.clock, act.regnum, act.data);
      CallsEmit<D>(s.(t := t, asked := s.asked + T.Asked(s.t, act.regnum, act.data)), calls, il, dev, x);
    } else {
      EmitsNothing<D>(s, T.Next(s, act), il, dev, x);
    }
  }

  /** Whatever is done to the terminal keeps its invariant, and its events are those the operations schedule. */
  lemma {:induction false} ActsKeep<D>(s: T.System, acts: seq<Act>, il: SrcLine, dev: Dev8, x: nat)
    requires T.Inv(s) && s.tod + TWO32 <= TWO64
    ensures T.Inv(Acts(s, acts)) && Emits<D>(s, Acts(s, acts), ActOps<D>(s, acts, il, dev), x)
    decreases |acts|
  {
    hide T.Next, T.Inv, OpsOf, ActCalls;
    if acts != [] {
      var s1 := T.Next(s, acts[0]);
      T.StepKeeps(s, acts[0]);
      ActEmits<D>(s, acts[0], il, dev, x);
      ActsKeep<D>(s1, acts[1..], il, dev, x);
      EmitsTwice<D>(s, s1, Acts(s, acts), OpsOf<D>(ActCalls(s, acts[0]), il, dev), ActOps<D>(s1, acts[1..], il, dev), x);
    }
  }

  lemma FiredClock(s: T.System, x: nat)
    requires T.CompleteDevOp(s.t, s.tod, s.clock).Done? && s.tod in s.events
    ensures var r := T.Fired(s);
      r.tod == s.tod && r.clock == s.clock && r.events[x] + (if x == s.tod then 1 else 0) == s.events[x]
  {
    hide T.CompleteDevOp, T.Got;
  }

  /** A completion whose time has come takes its event and leaves those its calls schedule. */
  lemma FireEmits<D>(s: T.System, il: SrcLine, dev: Dev8, x: nat)
    requires T.Inv(s) && s.tod + TWO32 <= TWO64 && s.tod in s.events
    ensures var r := T.Next(s, T.Fire);
      && T.Inv(r) && r.tod == s.tod
      && r.events[x] + (if x == s.tod then 1 else 0) == s.events[x] + Emitted(CompletionOps<D>(s, il, dev), s.tod, x)
  {
    hide T.CompleteDevOp, T.Calls, T.Fired, T.TextOk, T.RequestOk, OpsOf, Emitted;
    T.StepKeeps(s, T.Fire);
    T.FireIsCharged(s);
    CompletionProper(s.t, s.tod, s.clock);
    FiredClock(s, x);
    CallsEmit<D>(T.Fired(s), T.CompleteDevOp(s.t, s.tod, s.clock).calls, il, dev, x);
  }

  // ---- the terminal and the kernel ----------------------------------------------------------------------

  /** The terminal at the machine's clock. */
  ghost function Now<R, D>(k: Kernel<Hosted<R>, Dev<D>>): T.System { k.w.s.(tod := k.tod) }

  /** The terminal's invariant holds, and its events are its completions in the kernel's queue. */
  ghost predicate Tied<R, D>(k: Kernel<Hosted<R>, Dev<D>>) {
    T.Inv(Now(k)) && forall x: nat :: Queued(k.queue, x) == k.w.s.events[x]
  }

  /** So it is but for the event that is being run. */
  ghost predicate TiedBut<R, D>(k: Kernel<Hosted<R>, Dev<D>>, e: Ev<Dev<D>>) {
    && T.Inv(Now(k))
    && forall x: nat :: Queued(k.queue, x) == k.w.s.events[x] + if e.deadline == x && IsCompletion(e.callback) then 1 else 0
  }

  lemma SameTied<R, D>(k: Kernel<Hosted<R>, Dev<D>>, r: Kernel<Hosted<R>, Dev<D>>)
    requires Tied(k) && r.queue == k.queue && r.w.s == k.w.s && r.tod == k.tod
    ensures Tied(r)
  {
    hide T.Inv, Queued;
  }

  lemma HeadQueued<D>(q: seq<Ev<Dev<D>>>, x: nat)
    requires q != []
    ensures Queued(q, x) == Queued(q[1..], x) + if q[0].deadline == x && IsCompletion(q[0].callback) then 1 else 0
  {
    assert q == [q[0]] + q[1..];
  }

  lemma HeadOffTied<R, D>(k: Kernel<Hosted<R>, Dev<D>>, e: Ev<Dev<D>>)
    requires k.queue != [] && k.queue[0] == e && TiedBut(k, e)
    ensures Tied(HeadOff(k, e))
  {
    hide T.Inv, Queued;
    forall x: nat ensures Queued(k.queue[1..], x) == k.w.s.events[x] {
      HeadQueued(k.queue, x);
    }
  }

  lemma CompletionFires<R, D>(host: Host<R, D>, il: SrcLine, dev: Dev8, k: Kernel<Hosted<R>, Dev<D>>)
    requires Ok(k) && Tied(k) && Queued(k.queue, k.tod) > 0
    ensures TiedBut(Fire(WorldOf(host, il, dev), k, DeviceOp(Completion)), CompletionAt(k.tod))
  {
    hide Ok, T.Inv, T.Next, Queued, CompletionOps, ApplyOps, Emitted;
    var s := Now(k);
    var w := k.w.(s := T.Next(s, T.Fire));
    var ops := CompletionOps<D>(s, il, dev);
    OkInv(k);
    OkWorld(k, w);
    forall x: nat ensures T.Inv(w.s) && w.s.tod == k.tod
      ensures Queued(ApplyOps(k.(w := w), ops).queue, x) == w.s.events[x] + if x == k.tod then 1 else 0
    {
      FireEmits<D>(s, il, dev, x);
      OpsQueue(k.(w := w), ops, x);
    }
    OpsQueue(k.(w := w), ops, 0);
    FireEmits<D>(s, il, dev, 0);
  }

  lemma OtherFires<R, D>(host: Host<R, D>, il: SrcLine, dev: Dev8, k: Kernel<Hosted<R>, Dev<D>>, d: D)
    requires Ok(k) && Tied(k)
    ensures Tied(Fire(WorldOf(host, il, dev), k, DeviceOp(Other(d))))
  {
    hide Ok, T.Inv, Queued, ApplyOps, Emitted;
    var (r, ops) := host.device(k.w.rest, k.tod, d);
    var k1 := k.(w := k.w.(rest := r));
    OkWorld(k, k1.w);
    OpsQueue(k1, ops, 0);
    forall x: nat ensures Queued(ApplyOps(k1, ops).queue, x) == k.w.s.events[x] {
      OpsQueue(k1, ops, x);
      ForeignEmitsNothing<D>(ops, k.tod, x);
    }
  }

  /** A callback of the kernel itself leaves the terminal and its events alone. */
  lemma KernelFires<R, D>(host: Host<R, D>, il: SrcLine, dev: Dev8, k: Kernel<Hosted<R>, Dev<D>>, cb: Callback<Dev<D>>)
    requires Ok(k) && Tied(k) && !cb.DeviceOp?
    ensures Tied(Fire(WorldOf(host, il, dev), k, cb))
  {
    hide Ok, Tied, WorldOf;
    SameTied(k, Fire(WorldOf(host, il, dev), k, cb));
  }

  lemma RunHeadTied<R, D>(host: Host<R, D>, il: SrcLine, dev: Dev8, k: Kernel<Hosted<R>, Dev<D>>)
    requires Ok(k) && Tied(k) && DueCount(k.queue, k.tod) > 0
    ensures Tied(RunHead(WorldOf(host, il, dev), k))
  {
    HeadDue(k);
    hide Ok, Fire, T.Inv, WorldOf, DueCount, Queued;
    var e := k.queue[0];
    HeadQueued(k.queue, k.tod);
    match e.callback {
      case DeviceOp(d) =>
        if d.Completion? { CompletionFires(host, il, dev, k); } else { OtherFires(host, il, dev, k, d.dev); }
      case _ => KernelFires(host, il, dev, k, e.callback);
    }
    HeadOffTied(Fire(WorldOf(host, il, dev), k, e.callback), e);
  }

  lemma HeadDue<W, D>(k: Kernel<W, D>)
    requires Ok(k) && DueCount(k.queue, k.tod) > 0
    ensures k.queue != [] && k.queue[0].deadline == k.tod
  {
    hide Inv, Shown, Accounted, InOrder, Sorted;
  }

  lemma {:induction false} DrainTied<R, D>(host: Host<R, D>, il: SrcLine, dev: Dev8, k: Kernel<Hosted<R>, Dev<D>>)
    requires Ok(k) && Tied(k)
    ensures Tied(Drain(WorldOf(host, il, dev), k))
    decreases DueCount(k.queue, k.tod)
  {
    hide Ok, Tied, RunHead, WorldOf;
    if k.queue != [] && k.queue[0].deadline <= k.tod {
      RunHeadTied(host, il, dev, k);
      DrainTied(host, il, dev, RunHead(WorldOf(host, il, dev), k));
    }
  }

  /** Nothing is due when the clock moves, so it moves for the terminal too. */
  lemma AdvanceTied<R, D>(k: Kernel<Hosted<R>, Dev<D>>)
    requires Settled(k) && HasRoom(k, 1) && Tied(k)
    ensures k.irq.Wf() && Tied(Advance(k))
  {
    hide Inv, Shown, Accounted, InOrder, InWindow, Sorted, DueCount, Apply, T.Inv;
    OkInv(k);
    LaterEvents(k.queue, k.tod);
    assert Queued(k.queue, k.tod) == 0;
    T.StepKeeps(Now(k), T.Tick);
    assert Now(Advance(k)) == T.Next(Now(k), T.Tick);
  }

  lemma ClockTied<R, D>(host: Host<R, D>, il: SrcLine, dev: Dev8, k: Kernel<Hosted<R>, Dev<D>>)
    requires Settled(k) && HasRoom(k, 1) && Tied(k)
    ensures Tied(ClockTick(WorldOf(host, il, dev), k))
  {
    hide Settled, Ok, Tied, WorldOf, Advance, Drain;
    AdvanceOk(k);
    AdvanceTied(k);
    DrainTied(host, il, dev, Advance(k));
  }

  // ---- processors and the terminal --------------------------------------------------------------------

  lemma ActingTied<R, D>(k: Kernel<Hosted<R>, Dev<D>>, k1: Kernel<Hosted<R>, Dev<D>>, acts: seq<Act>, ops: seq<ForeignOp<D>>,
                         il: SrcLine, dev: Dev8)
    requires Ok(k) && Ok(k1) && Tied(k) && k1.queue == k.queue && k1.tod == k.tod && k1.w.s == Acts(Now(k), acts)
    ensures Tied(ApplyOps(k1, ActOps<D>(Now(k), acts, il, dev) + ops))
  {
    hide Ok, T.Inv, Queued, ApplyOps, Emitted, Acts, ActOps;
    OkInv(k);
    var s, mine := Now(k), ActOps<D>(Now(k), acts, il, dev);
    ActsKeep<D>(s, acts, il, dev, 0);
    OpsQueue(k1, mine + ops, 0);
    forall x: nat ensures Queued(ApplyOps(k1, mine + ops).queue, x) == k1.w.s.events[x] {
      ActsKeep<D>(s, acts, il, dev, x);
      OpsQueue(k1, mine + ops, x);
      EmittedAppend(mine, ops, k.tod, x);
      ForeignEmitsNothing<D>(ops, k.tod, x);
    }
  }

  lemma ExecTied<R, D>(host: Host<R, D>, il: SrcLine, dev: Dev8, k: Kernel<Hosted<R>, Dev<D>>, i: nat)
    requires Ok(k) && Tied(k) && i < |k.irq.cpus| && !k.irq.cpus[i].IsIdle()
    ensures Tied(ExecPart(WorldOf(host, il, dev), k, i))
  {
    hide Ok, Undisturbed, Tied, ApplyOps, Execute, ExecInstr, Effective, Acts, ActOps;
    var c := k.irq.cpus[i];
    var (r, e, acts, ops) := host.instr(k.w.rest, k.w.s.t, k.tod, i, c);
    var (w, _, all) := Acting(host, k.w, k.tod, i, c, il, dev);
    ExecutingUndisturbed(k, i, e, w);
    UndisturbedOk(k, Executing(k, i, e, w));
    if ExecInstr(c, e).1 || Execute(c, e).IsIdle() {
      SameTied(k, Executing(k, i, e, w));
    } else {
      ActingTied(k, Executing(k, i, e, w), acts, ops, il, dev);
    }
  }

  lemma CycleTied<R, D>(host: Host<R, D>, il: SrcLine, dev: Dev8, k: Kernel<Hosted<R>, Dev<D>>, i: nat)
    requires Ok(k) && Tied(k) && i < |k.irq.cpus|
    ensures Tied(CpuCycle(WorldOf(host, il, dev), k, i))
  {
    hide Ok, Tied, ExecPart, WorldOf, CpuTimer, Finish;
    if !k.irq.cpus[i].IsHalted() {
      var h := WorldOf(host, il, dev);
      var k1 := TimerPart(k, i);
      SameTied(k, k1);
      if !k1.irq.cpus[i].IsIdle() {
        ExecTied(host, il, dev, k1, i);
        SameTied(ExecPart(h, k1, i), FinishPart(h, ExecPart(h, k1, i), i));
      }
    }
  }

  lemma {:induction false} CpusTied<R, D>(host: Host<R, D>, il: SrcLine, dev: Dev8, k: Kernel<Hosted<R>, Dev<D>>, i: nat)
    requires Ok(k) && Tied(k) && i <= |k.irq.cpus|
    ensures Tied(Cpus(WorldOf(host, il, dev), k, i))
    decreases |k.irq.cpus| - i
  {
    hide Ok, Tied, CpuCycle, WorldOf;
    if i < |k.irq.cpus| {
      CycleTied(host, il, dev, k, i);
      CpusTied(host, il, dev, CpuCycle(WorldOf(host, il, dev), k, i), i + 1);
    }
  }

  lemma {:induction false} RoundsTied<R, D>(host: Host<R, D>, il: SrcLine, dev: Dev8, k: Kernel<Hosted<R>, Dev<D>>, n: nat)
    requires Settled(k) && HasRoom(k, n) && Tied(k)
    ensures Tied(Rounds(WorldOf(host, il, dev), k, n))
  {
    hide Ok, Tied, ClockTick, Cpus, WorldOf;
    if n > 0 {
      var m := Rounds(WorldOf(host, il, dev), k, n - 1);
      RoundsTied(host, il, dev, k, n - 1);
      ClockTied(host, il, dev, m);
      CpusTied(host, il, dev, ClockTick(WorldOf(host, il, dev), m), 0);
    }
  }

  /**
   * The queue holds one completion for each busy half of the terminal, at that half's own time, which lies ahead,
   * and no other; the shared request is up exactly while a half wants it; no completion has panicked; what RECVSTATUS
   * showed, then what is unread, is what was typed; and what TRANSTATUS answered for, then what is in flight, is what
   * was to be transmitted.
   */
  ghost predicate Served<R, D>(k: Kernel<Hosted<R>, Dev<D>>) {
    var s := k.w.s;
    && (forall x: U64 :: multiset(k.queue)[CompletionAt(x)] ==
         (T.EventIf(s.t.recvStatus == T.BUSY, s.t.recvCTime) + T.EventIf(s.t.tranStatus == T.BUSY, s.t.tranCTime))[x])
    && (s.t.recvStatus == T.BUSY ==> k.tod < s.t.recvCTime < TWO64)
    && (s.t.tranStatus == T.BUSY ==> k.tod < s.t.tranCTime < TWO64)
    && (s.requested <==> s.t.recvIntPend || s.t.tranIntPend)
    && s.received + T.Unread(s.t) == s.typed
    && s.asked == s.answered + T.InFlight(s.t)
    && !s.panicked
  }

  lemma EventAhead<R, D>(k: Kernel<Hosted<R>, Dev<D>>, x: nat)
    requires Settled(k) && Tied(k) && x in k.w.s.events
    ensures k.tod < x < TWO64
  {
    hide Inv, Shown, Accounted, InOrder, InWindow, Sorted, DueCount, T.Inv;
    LaterEvents(k.queue, k.tod);
    assert Queued(k.queue, x) > 0;
  }

  lemma SettledTerminal<R, D>(k: Kernel<Hosted<R>, Dev<D>>)
    requires Settled(k) && Tied(k)
    ensures Served(k)
  {
    hide Ok, DueCount, T.Unread;
    var t := k.w.s.t;
    if t.recvStatus == T.BUSY { EventAhead(k, t.recvCTime); }
    if t.tranStatus == T.BUSY { EventAhead(k, t.tranCTime); }
    forall x: U64 ensures multiset(k.queue)[CompletionAt(x)] == k.w.s.events[x] {
      assert Queued(k.queue, x) == k.w.s.events[x];
    }
  }

  /** So it is in every run of the machine, whatever the rest of it does. */
  lemma TerminalInMachine<R, D>(host: Host<R, D>, il: SrcLine, dev: Dev8, k0: Kernel<Hosted<R>, Dev<D>>, n: nat)
    requires Settled(k0) && HasRoom(k0, n) && Tied(k0)
    ensures Served(Rounds(WorldOf(host, il, dev), k0, n))
  {
    hide Ok, Rounds, WorldOf, Served, Tied;
    RoundsTied(host, il, dev, k0, n);
    SettledTerminal(Rounds(WorldOf(host, il, dev), k0, n));
  }

  /** The machine as built, with its first processor reset and its terminal idle, is a start for this. */
  lemma BootTied<R, D>(host: Host<R, D>, il: SrcLine, dev: Dev8, cpus: seq<Cpu>, rest: R, clock: T.ClockRate,
                       latency: Delay, pc: Word, sp: Word)
    requires 1 <= |cpus| <= MAX_CPUS && PoweredOff(cpus)
    ensures var k := ResetCpu(WorldOf(host, il, dev), Initial(cpus, Hosted(T.Powered(clock), rest), latency), 0, pc, sp);
      Settled(k) && Tied(k)
  {
    hide Ok;
    BootSettled(WorldOf(host, il, dev), cpus, Hosted(T.Powered(clock), rest), latency, pc, sp);
  }
}
