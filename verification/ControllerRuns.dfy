/** Whole runs of the interrupt controller: pending sources and mailboxes over any history. */
module ControllerRuns {
  import opened Words
  import opened Cpu
  import opened Pic
  import opened Bookkeeping
  import opened Finite

  datatype PicOp =
    | Raise(il: SrcLine, d: Dev)
    | Acknowledge(il: SrcLine, d: Dev)
    | Deliver(origin: nat, outbox: Word)
    | TakeMessage(cpu: nat)
    | Route(il: SrcLine, d: Dev, data: Word)
    | Priority(cpu: nat, data: Word)

  /** Operations naming a processor or a source the machine does not have cannot be issued. */
  function Apply(s: Irq, op: PicOp): Irq
    requires s.Wf()
  {
    match op
    case Raise(il, d) => if IsSource(il, d) then StartIRQ(s, il, d) else s
    case Acknowledge(il, d) => if IsSource(il, d) then EndIRQ(s, il, d) else s
    case Deliver(origin, outbox) => if origin < |s.cpus| then DeliverIPI(s, origin, outbox) else s
    case TakeMessage(t) => if t < |s.cpus| then InboxAck(s, t) else s
    case Route(il, d, data) => SetRoute(s, il, d, data)
    case Priority(t, data) => if t < |s.cpus| then SetPriority(s, t, data) else s
  }

  lemma ApplyKeeps(s: Irq, op: PicOp)
    requires Inv(s)
    ensures var r := Apply(s, op); Inv(r) && |r.cpus| == |s.cpus| && MirrorKept(s, r)
  {
    match op
    case Raise(il, d) => if IsSource(il, d) { StartIRQKeeps(s, il, d); }
    case Acknowledge(il, d) => if IsSource(il, d) { EndIRQKeeps(s, il, d); }
    case Deliver(origin, outbox) => if origin < |s.cpus| { DeliverKeeps(s, origin, outbox, |s.cpus|); }
    case TakeMessage(t) => if t < |s.cpus| { InboxAckKeeps(s, t); }
    case Route(il, d, data) => SetRouteKeeps(s, il, d, data);
    case Priority(t, data) => if t < |s.cpus| { SetPriorityKeeps(s, t, data); }
  }

  ghost function Run(s: Irq, ops: seq<PicOp>): (r: Irq)
    requires Inv(s)
    ensures Inv(r) && |r.cpus| == |s.cpus| && MirrorKept(s, r)
  {
    if ops == [] then s else
    var r := Run(s, ops[..|ops| - 1]);
    ApplyKeeps(r, ops[|ops| - 1]);
    Apply(r, ops[|ops| - 1])
  }

  /** What the controller operations leave alone in the routing of sources. */
  lemma {:induction false} DeliverSources(s: Irq, origin: nat, outbox: Word, i: nat)
    requires s.Wf() && i <= |s.cpus|
    ensures var r := DeliverBelow(s, origin, outbox, i);
      && r.pic.sources == s.pic.sources && r.pic.arbiter == s.pic.arbiter
      && (forall u | 0 <= u < |s.cpus| ::
           && r.pic.cpuData[u].idb == s.pic.cpuData[u].idb
           && r.pic.cpuData[u].taskPriority == s.pic.cpuData[u].taskPriority
           && (BitVal(r.pic.cpuData[u].ipMask, IL_TIMER) <==> BitVal(s.pic.cpuData[u].ipMask, IL_TIMER)))
  {
    if i > 0 {
      DeliverSources(s, origin, outbox, i - 1);
    }
  }

  // ---- pending sources ---------------------------------------------------------

  /** The pending bits are exactly the recorded, unacknowledged deliveries. */
  ghost predicate Exact(p: Pic)
    requires p.Wf()
  {
    forall t: nat, il: SrcLine, d: Dev | t < |p.cpuData| && IsSource(il, d) ::
      Pending(p, t, il, d) <==> p.sources[il][d].lastTarget == Some(t)
  }

  /** A raise that leaves an older delivery of the same source behind at another processor. */
  predicate ReRaised(s: Irq, op: PicOp)
    requires s.Wf()
  {
    op.Raise? && IsSource(op.il, op.d) &&
    var src := s.pic.sources[op.il][op.d];
    var t := Target(s.pic, src);
    t.Some? && src.lastTarget.Some? && src.lastTarget != t
  }

  lemma PendingAfterRaise(s: Irq, il: SrcLine, d: Dev, u: nat, il': SrcLine, d': Dev)
    requires Inv(s) && IsSource(il, d) && u < |s.cpus| && IsSource(il', d')
    ensures var t := Target(s.pic, s.pic.sources[il][d]);
      Pending(StartIRQ(s, il, d).pic, u, il', d') <==>
      (t == Some(u) && il == il' && d == d') || Pending(s.pic, u, il', d')
  {
  }

  lemma PendingAfterAck(s: Irq, il: SrcLine, d: Dev, u: nat, il': SrcLine, d': Dev)
    requires Inv(s) && IsSource(il, d) && u < |s.cpus| && IsSource(il', d')
    ensures var t := s.pic.sources[il][d].lastTarget;
      Pending(EndIRQ(s, il, d).pic, u, il', d') <==>
      !(t == Some(u) && il == il' && d == d') && Pending(s.pic, u, il', d')
  {
    var t := s.pic.sources[il][d].lastTarget;
    if t == Some(u) {
      DropLineKeeps(s, il, d, u);
      assert CpuOk(s, u);
    }
  }

  lemma ExactAfterRaise(s: Irq, il: SrcLine, d: Dev)
    requires Inv(s) && Exact(s.pic) && IsSource(il, d)
    ensures StartIRQ(s, il, d).Wf()
    ensures Exact(StartIRQ(s, il, d).pic) <==> !ReRaised(s, Raise(il, d))
  {
    StartIRQKeeps(s, il, d);
    var r := StartIRQ(s, il, d);
    forall u: nat, il': SrcLine, d': Dev | u < |s.cpus| && IsSource(il', d')
      ensures !ReRaised(s, Raise(il, d)) ==> (Pending(r.pic, u, il', d') <==> r.pic.sources[il'][d'].lastTarget == Some(u))
    {
      PendingAfterRaise(s, il, d, u, il', d');
      if !(il' == il && d' == d) { assert r.pic.sources[il'][d'] == s.pic.sources[il'][d']; }
    }
    if ReRaised(s, Raise(il, d)) {
      var u := s.pic.sources[il][d].lastTarget.value;
      PendingAfterRaise(s, il, d, u, il, d);
      assert Pending(r.pic, u, il, d) && r.pic.sources[il][d].lastTarget != Some(u);
    }
  }

  lemma ExactAfterAck(s: Irq, il: SrcLine, d: Dev)
    requires Inv(s) && Exact(s.pic) && IsSource(il, d)
    ensures EndIRQ(s, il, d).Wf() && Exact(EndIRQ(s, il, d).pic)
  {
    EndIRQKeeps(s, il, d);
    var r := EndIRQ(s, il, d);
    forall u: nat, il': SrcLine, d': Dev | u < |s.cpus| && IsSource(il', d')
      ensures Pending(r.pic, u, il', d') <==> r.pic.sources[il'][d'].lastTarget == Some(u)
    {
      PendingAfterAck(s, il, d, u, il', d');
      if !(il' == il && d' == d) { assert r.pic.sources[il'][d'].lastTarget == s.pic.sources[il'][d'].lastTarget; }
    }
  }

  lemma PendingUntouched(s: Irq, op: PicOp, u: nat, il: SrcLine, d: Dev)
    requires Inv(s) && !op.Raise? && !op.Acknowledge? && u < |s.cpus| && IsSource(il, d)
    ensures Apply(s, op).Wf() && |Apply(s, op).cpus| == |s.cpus|
    ensures Pending(Apply(s, op).pic, u, il, d) <==> Pending(s.pic, u, il, d)
    ensures Apply(s, op).pic.sources[il][d].lastTarget == s.pic.sources[il][d].lastTarget
  {
    ApplyKeeps(s, op);
    if op.Deliver? && op.origin < |s.cpus| {
      DeliverSources(s, op.origin, op.outbox, |s.cpus|);
    }
  }

  /** The one operation that breaks exactness is a raise of a source still pending elsewhere. */
  lemma ExactKeptIff(s: Irq, op: PicOp)
    requires Inv(s) && Exact(s.pic)
    ensures Apply(s, op).Wf()
    ensures Exact(Apply(s, op).pic) <==> !ReRaised(s, op)
  {
    ApplyKeeps(s, op);
    var r := Apply(s, op);
    if op.Raise? {
      if IsSource(op.il, op.d) { ExactAfterRaise(s, op.il, op.d); }
    } else if op.Acknowledge? {
      if IsSource(op.il, op.d) { ExactAfterAck(s, op.il, op.d); }
    } else {
      forall u: nat, il: SrcLine, d: Dev | u < |s.cpus| && IsSource(il, d)
        ensures Pending(r.pic, u, il, d) <==> r.pic.sources[il][d].lastTarget == Some(u)
      {
        PendingUntouched(s, op, u, il, d);
      }
    }
  }

  /** The history's view of a source: where its last delivered, unacknowledged request went. */
  ghost function Unacked(s: Irq, ops: seq<PicOp>, il: SrcLine, d: Dev): Option<nat>
    requires Inv(s)
  {
    if ops == [] then None else
    var before := ops[..|ops| - 1];
    match ops[|ops| - 1]
    case Raise(il', d') =>
      var r := Run(s, before);
      var t := Target(r.pic, r.pic.sources[il'][d']);
      if il' == il && d' == d && t.Some? then t else Unacked(s, before, il, d)
    case Acknowledge(il', d') => if il' == il && d' == d then None else Unacked(s, before, il, d)
    case _ => Unacked(s, before, il, d)
  }

  ghost predicate NeverReRaised(s: Irq, ops: seq<PicOp>)
    requires Inv(s)
  {
    forall i | 0 <= i < |ops| :: !ReRaised(Run(s, ops[..i]), ops[i])
  }

  /** An operation moves a source's recorded target only by raising or acknowledging that source. */
  lemma LastTargetStep(r: Irq, op: PicOp, il: SrcLine, d: Dev)
    requires Inv(r) && IsSource(il, d)
    ensures Apply(r, op).Wf()
    ensures var t := Target(r.pic, r.pic.sources[il][d]);
      Apply(r, op).pic.sources[il][d].lastTarget ==
        if op == Raise(il, d) && t.Some? then t
        else if op == Acknowledge(il, d) then None
        else r.pic.sources[il][d].lastTarget
  {
    hide Target;
    ApplyKeeps(r, op);
    if op.Deliver? && op.origin < |r.cpus| {
      DeliverSources(r, op.origin, op.outbox, |r.cpus|);
    }
  }

  lemma {:induction false} LastTargetIsHistory(s: Irq, ops: seq<PicOp>, il: SrcLine, d: Dev)
    requires Inv(s) && IsSource(il, d) && s.pic.sources[il][d].lastTarget == None
    ensures Run(s, ops).pic.sources[il][d].lastTarget == Unacked(s, ops, il, d)
  {
    if ops != [] {
      var before, op := ops[..|ops| - 1], ops[|ops| - 1];
      LastTargetIsHistory(s, before, il, d);
      LastTargetStep(Run(s, before), op, il, d);
      hide Apply, Target, Inv;
    }
  }

  /** In a run that never re-raises a pending source elsewhere, bits are requests not yet acknowledged. */
  lemma {:induction false} BitsAreUnackedRequests(n: nat, cpus: seq<Cpu>, ops: seq<PicOp>)
    requires 1 <= n <= MAX_CPUS && |cpus| == n
    requires Inv(Irq(InitialPic(n), cpus)) && NeverReRaised(Irq(InitialPic(n), cpus), ops)
    ensures var s := Irq(InitialPic(n), cpus);
      forall t: nat, il: SrcLine, d: Dev | t < n && IsSource(il, d) ::
        Pending(Run(s, ops).pic, t, il, d) <==> Unacked(s, ops, il, d) == Some(t)
  {
    var s := Irq(InitialPic(n), cpus);
    ExactAlong(s, ops);
    forall t: nat, il: SrcLine, d: Dev | t < n && IsSource(il, d)
      ensures Pending(Run(s, ops).pic, t, il, d) <==> Unacked(s, ops, il, d) == Some(t)
    {
      LastTargetIsHistory(s, ops, il, d);
    }
  }

  lemma {:induction false} ExactAlong(s: Irq, ops: seq<PicOp>)
    requires Inv(s) && NeverReRaised(s, ops)
    requires s.pic == InitialPic(|s.cpus|)
    ensures Exact(Run(s, ops).pic)
  {
    if ops == [] {
      forall t: nat, il: SrcLine, d: Dev | t < |s.cpus| && IsSource(il, d) ensures !Pending(s.pic, t, il, d) {
        ZeroHasNoBit(IL_TIMER);
        ZeroHasNoBit(d);
      }
    } else {
      var before := ops[..|ops| - 1];
      assert forall i | 0 <= i < |before| :: before[..i] == ops[..i];
      ExactAlong(s, before);
      ExactKeptIff(Run(s, before), ops[|ops| - 1]);
    }
  }

  lemma RunThree(s: Irq, a: PicOp, b: PicOp, c: PicOp)
    requires Inv(s)
    ensures var s1 := Run(s, [a]); var s2 := Run(s, [a, b]);
      s1 == Apply(s, a) && s2 == Apply(s1, b) && Run(s, [a, b, c]) == Apply(s2, c)
  {
    hide Apply, Inv, Run;
    RunMore(s, [], a);
    RunMore(s, [a], b);
    RunMore(s, [a, b], c);
    RunNone(s);
    assert [] + [a] == [a] && [a] + [b] == [a, b] && [a, b] + [c] == [a, b, c];
  }

  lemma RunNone(s: Irq)
    requires Inv(s)
    ensures Run(s, []) == s
  {
  }

  lemma RunMore(s: Irq, ops: seq<PicOp>, op: PicOp)
    requires Inv(s)
    ensures Run(s, ops + [op]) == Apply(Run(s, ops), op)
  {
    hide Apply, Inv;
    assert (ops + [op])[..|ops|] == ops;
  }

  lemma StaticRaise(s: Irq, t: nat)
    requires Inv(s) && t < |s.cpus| && s.pic.sources[1][0].destination == t && !s.pic.sources[1][0].dynamic
    ensures Apply(s, Raise(1, 0)).Wf()
    ensures Apply(s, Raise(1, 0)).pic.sources[1][0] == Source(Some(t), t, false)
  {
    hide BitVal, CpuOk, Owned;
  }

  lemma StaticRoute(s: Irq, t: nat)
    requires Inv(s) && t < 2
    ensures Apply(s, Route(1, 0, t)).Wf()
    ensures Apply(s, Route(1, 0, t)).pic.sources[1][0] == s.pic.sources[1][0].(destination := t, dynamic := false)
  {
    assert Pow2(1) == 2;
    HighBitsClear(t, 1, 28);
    hide BitVal, CpuOk, Owned;
  }

  /** Such a run exists: a source is raised, routed to another processor, and raised again. */
  lemma ReRaiseHappens(cpus: seq<Cpu>)
    requires |cpus| == 2 && Inv(Irq(InitialPic(2), cpus))
    ensures var s := Irq(InitialPic(2), cpus); var ops := [Raise(1, 0), Route(1, 0, 1), Raise(1, 0)];
      && Exact(Run(s, ops[..2]).pic) && ReRaised(Run(s, ops[..2]), ops[2]) && !Exact(Run(s, ops).pic)
      && Pending(Run(s, ops).pic, 0, 1, 0) && Unacked(s, ops, 1, 0) == Some(1)
  {
    hide Apply, Exact, Run, Pending, Inv, Unacked;
    var s := Irq(InitialPic(2), cpus);
    var a, b := Raise(1, 0), Route(1, 0, 1);
    RunThree(s, a, b, a);
    var s1, s2, s3 := Run(s, [a]), Run(s, [a, b]), Run(s, [a, b, a]);
    ExactAtFirst(s);
    ExactKeptIff(s, a);
    StaticRaise(s, 0);
    ExactKeptIff(s1, b);
    StaticRoute(s1, 1);
    ExactKeptIff(s2, a);
    StaticRaise(s2, 1);
    LastTargetIsHistory(s, [a, b, a], 1, 0);
    BitStays(s2, a, 0);
    assert [a, b, a][..2] == [a, b];
  }

  lemma ExactAtFirst(s: Irq)
    requires Inv(s) && s.pic == InitialPic(|s.cpus|)
    ensures Exact(s.pic)
  {
    ExactAlong(s, []);
  }

  /** A raise clears no bit. */
  lemma BitStays(s: Irq, op: PicOp, t: nat)
    requires Inv(s) && t < |s.cpus| && op == Raise(1, 0) && Exact(s.pic) && s.pic.sources[1][0].lastTarget == Some(t)
    ensures Apply(s, op).Wf() && t < |Apply(s, op).pic.cpuData| && Pending(Apply(s, op).pic, t, 1, 0)
  {
    hide StartIRQ, Pending, BitVal;
    StartIRQKeeps(s, 1, 0);
    PendingAfterRaise(s, 1, 0, t, 1, 0);
  }

  // ---- priorities and routes --------------------------------------------------------------

  /** The task priority that the writes of a run leave: the low four bits of the last one. */
  function LastPriority(ops: seq<PicOp>, t: nat, first: nat): nat {
    if ops == [] then first
    else
      var op := ops[|ops| - 1];
      if op.Priority? && op.cpu == t then op.data % 0x10 else LastPriority(ops[..|ops| - 1], t, first)
  }

  /** The route that the writes of a run leave: destination in bits 0 to 15, dynamic by bit 28. */
  function LastRoute(ops: seq<PicOp>, il: SrcLine, d: Dev, first: (nat, bool)): (nat, bool) {
    if ops == [] then first
    else
      var op := ops[|ops| - 1];
      if op.Route? && op.il == il && op.d == d then (op.data % 0x1_0000, BitVal(op.data, 28))
      else LastRoute(ops[..|ops| - 1], il, d, first)
  }

  function PriorityOf(s: Irq, t: nat): nat
    requires t < |s.pic.cpuData|
  {
    s.pic.cpuData[t].taskPriority
  }

  function RouteOf(s: Irq, il: SrcLine, d: Dev): (nat, bool)
    requires s.pic.Wf()
  {
    (s.pic.sources[il][d].destination, s.pic.sources[il][d].dynamic)
  }

  lemma ApplyRoutes(s: Irq, op: PicOp, t: nat, il: SrcLine, d: Dev)
    requires Inv(s) && t < |s.cpus|
    ensures var r := Apply(s, op);
      && r.Wf() && |r.cpus| == |s.cpus|
      && PriorityOf(r, t) == (if op.Priority? && op.cpu == t then op.data % 0x10 else PriorityOf(s, t))
      && RouteOf(r, il, d) == if op.Route? && op.il == il && op.d == d then (op.data % 0x1_0000, BitVal(op.data, 28)) else RouteOf(s, il, d)
  {
    hide Inv, BitVal, Target, SetBit32, ResetBit32, AssertIRQ, DeassertIRQ, HasSlot;
    ApplyKeeps(s, op);
    InboxWf(s);
    InboxWf(Apply(s, op));
    if op.Deliver? && op.origin < |s.cpus| { DeliverSources(s, op.origin, op.outbox, |s.cpus|); }
  }

  /** In every run priorities and routes are what was last written, whatever is raised, acknowledged or delivered. */
  lemma {:induction false} LastWritten(s: Irq, ops: seq<PicOp>, t: nat, il: SrcLine, d: Dev)
    requires Inv(s) && t < |s.cpus|
    ensures s.Wf() && Run(s, ops).Wf() && t < |Run(s, ops).cpus|
    ensures PriorityOf(Run(s, ops), t) == LastPriority(ops, t, PriorityOf(s, t))
    ensures RouteOf(Run(s, ops), il, d) == LastRoute(ops, il, d, RouteOf(s, il, d))
  {
    hide Inv, Apply, BitVal, PriorityOf, RouteOf;
    InboxWf(s);
    if ops != [] {
      LastWritten(s, ops[..|ops| - 1], t, il, d);
      ApplyRoutes(Run(s, ops[..|ops| - 1]), ops[|ops| - 1], t, il, d);
    }
  }

  // ---- mailboxes -----------------------------------------------------------------

  function InboxOf(s: Irq, t: nat): seq<IpiMessage>
    requires t < |s.pic.cpuData|
  {
    s.pic.cpuData[t].inbox
  }

  /**
   * The message an operation adds to the mailbox of `t`: bits 0 to 7 of the outbox word, if bit 8 + t names the
   * processor and no message from that origin waits there.
   */
  function Accepted(s: Irq, op: PicOp, t: nat): seq<IpiMessage>
    requires s.Wf() && t < |s.cpus|
  {
    if op.Deliver? && op.origin < |s.cpus| && BitVal(op.outbox, 8 + t)
       && (forall i | 0 <= i < |InboxOf(s, t)| :: InboxOf(s, t)[i].origin != op.origin)
    then [IpiMessage(op.origin, op.outbox % 0x100)] else []
  }

  lemma SlotIsFree(inbox: seq<IpiMessage>, origin: nat)
    ensures HasSlot(inbox, origin) <==> forall i | 0 <= i < |inbox| :: inbox[i].origin != origin
  {
  }

  function Taken(s: Irq, op: PicOp, t: nat): seq<IpiMessage>
    requires s.Wf() && t < |s.cpus|
  {
    if op == TakeMessage(t) && InboxOf(s, t) != [] then [InboxOf(s, t)[0]] else []
  }

  lemma {:induction false} DeliverInbox(s: Irq, origin: nat, outbox: Word, i: nat, t: nat)
    requires s.Wf() && i <= |s.cpus| && t < |s.cpus|
    ensures InboxOf(DeliverBelow(s, origin, outbox, i), t) == InboxOf(s, t) +
      if t < i && BitVal(Recipients(outbox), t) && HasSlot(InboxOf(s, t), origin)
      then [IpiMessage(origin, Message(outbox))] else []
  {
    if i > 0 {
      DeliverInbox(s, origin, outbox, i - 1, t);
    }
  }

  lemma InboxStep(s: Irq, op: PicOp, t: nat)
    requires Inv(s) && t < |s.cpus|
    ensures Inv(Apply(s, op)) && |Apply(s, op).cpus| == |s.cpus|
    ensures InboxOf(s, t) + Accepted(s, op, t) == Taken(s, op, t) + InboxOf(Apply(s, op), t)
    ensures Accepted(s, op, t) == [] || Taken(s, op, t) == []
  {
    hide Inv, BitVal, HasSlot, SetBit32, ResetBit32, AssertIRQ, DeassertIRQ, Target, DropLine, RaiseLine;
    ApplyKeeps(s, op);
    InboxWf(s);
    match op
    case Deliver(origin, outbox) =>
      RecipientBit(outbox, t);
      SlotIsFree(InboxOf(s, t), origin);
      if origin < |s.cpus| { DeliverInbox(s, origin, outbox, |s.cpus|, t); }
    case Raise(il, d) => if IsSource(il, d) { RaiseInbox(s, il, d, t); }
    case Acknowledge(il, d) => if IsSource(il, d) { AckInbox(s, il, d, t); }
    case _ =>
  }

  lemma InboxWf(s: Irq)
    requires Inv(s)
    ensures s.Wf()
  {
  }

  lemma RaiseInbox(s: Irq, il: SrcLine, d: Dev, t: nat)
    requires s.Wf() && t < |s.cpus|
    ensures |StartIRQ(s, il, d).pic.cpuData| == |s.cpus| && InboxOf(StartIRQ(s, il, d), t) == InboxOf(s, t)
  {
    hide BitVal, Target, SetBit32, AssertIRQ;
  }

  lemma AckInbox(s: Irq, il: SrcLine, d: Dev, t: nat)
    requires s.Wf() && t < |s.cpus|
    ensures |EndIRQ(s, il, d).pic.cpuData| == |s.cpus| && InboxOf(EndIRQ(s, il, d), t) == InboxOf(s, t)
  {
    hide BitVal, ResetBit32, DeassertIRQ;
  }

  /** The inbox register shows the message that is taken next; 0 also stands for message 0 of processor 0. */
  lemma InboxShowsNext(s: Irq, t: nat)
    requires Inv(s) && t < |s.cpus|
    ensures var w := InboxRead(s.pic, t);
      && (InboxOf(s, t) != [] ==> Taken(s, TakeMessage(t), t) == [IpiMessage(w / 0x100, w % 0x100)])
      && (w == 0 <==> InboxOf(s, t) == [] || InboxOf(s, t)[0] == IpiMessage(0, 0))
  {
  }

  ghost function AllAccepted(s: Irq, ops: seq<PicOp>, t: nat): seq<IpiMessage>
    requires Inv(s) && t < |s.cpus|
  {
    if ops == [] then [] else
    var before := ops[..|ops| - 1];
    AllAccepted(s, before, t) + Accepted(Run(s, before), ops[|ops| - 1], t)
  }

  ghost function AllTaken(s: Irq, ops: seq<PicOp>, t: nat): seq<IpiMessage>
    requires Inv(s) && t < |s.cpus|
  {
    if ops == [] then [] else
    var before := ops[..|ops| - 1];
    AllTaken(s, before, t) + Taken(Run(s, before), ops[|ops| - 1], t)
  }

  lemma FifoStep<T>(first: seq<T>, accepted: seq<T>, x: seq<T>, taken: seq<T>, mid: seq<T>, y: seq<T>, last: seq<T>)
    requires first + accepted == taken + mid && mid + x == y + last
    ensures first + (accepted + x) == (taken + y) + last
  {
    assert first + (accepted + x) == (first + accepted) + x;
    assert (taken + y) + last == taken + (y + last);
    assert (taken + mid) + x == taken + (mid + x);
  }

  /** Mailboxes lose, invent and reorder nothing: what was accepted is what was taken, then what waits. */
  lemma {:induction false} MailboxIsFifo(s: Irq, ops: seq<PicOp>, t: nat)
    requires Inv(s) && t < |s.cpus|
    ensures InboxOf(s, t) + AllAccepted(s, ops, t) == AllTaken(s, ops, t) + InboxOf(Run(s, ops), t)
  {
    if ops != [] {
      hide Accepted, Taken, Apply, Inv;
      var before, op := ops[..|ops| - 1], ops[|ops| - 1];
      MailboxIsFifo(s, before, t);
      var r := Run(s, before);
      InboxStep(r, op, t);
      FifoStep(InboxOf(s, t), AllAccepted(s, before, t), Accepted(r, op, t),
               AllTaken(s, before, t), InboxOf(r, t), Taken(r, op, t), InboxOf(Run(s, ops), t));
    }
  }

  /** A mailbox never holds more messages than there are processors. */
  lemma MailboxBound(s: Irq, ops: seq<PicOp>, t: nat)
    requires Inv(s) && t < |s.cpus|
    ensures |InboxOf(Run(s, ops), t)| <= |s.cpus|
  {
    var r := Run(s, ops);
    assert CpuOk(r, t);
    DistinctOrigins(InboxOf(r, t), |r.cpus|);
  }

  lemma DistinctOrigins(inbox: seq<IpiMessage>, n: nat)
    requires MailOk(inbox, n)
    ensures |inbox| <= n
  {
    var origins := seq(|inbox|, i requires 0 <= i < |inbox| => inbox[i].origin);
    DistinctCount(origins);
    assert Elements(origins) <= Below(n);
    SubsetCount(Elements(origins), Below(n));
  }
}
