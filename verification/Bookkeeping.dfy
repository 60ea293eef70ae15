/** What every controller operation keeps: bitmaps, pending lines, mailboxes, and CAUSE.IP. */
module Bookkeeping {
  import opened Words
  import opened Cpu
  import opened InterruptLines
  import opened Pic

  /** A shared line is up iff its device bitmap is not zero; the IPI line iff the inbox is not empty. */
  ghost predicate CpuBook(cd: CpuData) {
    && (forall l: nat | l < 5 :: BitVal(cd.ipMask, 3 + l) <==> cd.idb[l] != 0)
    && (BitVal(cd.ipMask, IL_IPI) <==> cd.inbox != [])
    && !BitVal(cd.ipMask, IL_CPUTIMER)
  }

  /** At most one message per origin, and origins are processors. */
  ghost predicate MailOk(inbox: seq<IpiMessage>, n: nat) {
    && (forall i | 0 <= i < |inbox| :: inbox[i].origin < n)
    && (forall i, j | 0 <= i < j < |inbox| :: inbox[i].origin != inbox[j].origin)
  }

  /** CAUSE.IP of a processor shows the controller's lines (its own timer line aside). */
  ghost predicate MirrorAt(cd: CpuData, c: Cpu) {
    forall l: Line | l != IL_CPUTIMER :: IpBit(c.cp0[CAUSE], l) <==> BitVal(cd.ipMask, l)
  }

  /** The controller's pending bit of a source at processor `t`. */
  predicate Pending(p: Pic, t: nat, il: SrcLine, d: Dev)
    requires t < |p.cpuData|
  {
    if il == 0 then BitVal(p.cpuData[t].ipMask, IL_TIMER) else BitVal(p.cpuData[t].idb[il - 1], d)
  }

  predicate IsSource(il: SrcLine, d: Dev) { il >= 1 || d == 0 }

  /** The processor recorded for the acknowledgement still shows the source as pending. */
  ghost predicate Owned(p: Pic)
    requires p.Wf()
  {
    forall il: SrcLine, d: Dev :: p.sources[il][d].lastTarget.Some? ==>
      IsSource(il, d) && Pending(p, p.sources[il][d].lastTarget.value, il, d)
  }

  ghost predicate CpuOk(s: Irq, t: nat)
    requires s.Wf() && t < |s.cpus|
  {
    CpuBook(s.pic.cpuData[t]) && MailOk(s.pic.cpuData[t].inbox, |s.cpus|) && IdleOk(s.cpus[t])
  }

  ghost predicate Inv(s: Irq) {
    s.Wf() && (forall t | 0 <= t < |s.cpus| :: CpuOk(s, t)) && Owned(s.pic)
  }

  ghost predicate Mirror(s: Irq)
    requires s.Wf()
  {
    forall t | 0 <= t < |s.cpus| :: MirrorAt(s.pic.cpuData[t], s.cpus[t])
  }

  /** Wherever CAUSE showed the controller's lines it still does. */
  ghost predicate MirrorKept(s: Irq, r: Irq)
    requires s.Wf() && r.Wf() && |r.cpus| == |s.cpus|
  {
    forall t | 0 <= t < |s.cpus| :: MirrorAt(s.pic.cpuData[t], s.cpus[t]) ==> MirrorAt(r.pic.cpuData[t], r.cpus[t])
  }

  /** A new controller's books are right; CAUSE of the processors shows them where it holds no line. */
  lemma InitialInv(n: nat, cpus: seq<Cpu>)
    requires 1 <= n <= MAX_CPUS && |cpus| == n
    requires forall t | 0 <= t < n :: cpus[t].IsHalted()
    ensures Inv(Irq(InitialPic(n), cpus))
    ensures (forall t | 0 <= t < n :: NoIp(cpus[t].cp0[CAUSE])) ==> Mirror(Irq(InitialPic(n), cpus))
  {
    forall l: nat ensures !BitVal(0, l) { ZeroHasNoBit(l); }
    forall t | 0 <= t < n { NoIpIsNoLine(cpus[t].cp0[CAUSE]); }
  }

  /** Only processor `t` and its part of the controller differ between `s` and `r`. */
  ghost predicate OnlyAt(s: Irq, r: Irq, t: nat)
    requires s.Wf() && r.Wf() && t < |s.cpus|
  {
    && |r.cpus| == |s.cpus|
    && (forall u | 0 <= u < |s.cpus| && u != t :: r.pic.cpuData[u] == s.pic.cpuData[u] && r.cpus[u] == s.cpus[u])
  }

  lemma OnlyAtKeeps(s: Irq, r: Irq, t: nat)
    requires Inv(s) && r.Wf() && t < |s.cpus| && OnlyAt(s, r, t) && CpuOk(r, t)
    ensures forall u | 0 <= u < |r.cpus| :: CpuOk(r, u)
    ensures (MirrorAt(s.pic.cpuData[t], s.cpus[t]) ==> MirrorAt(r.pic.cpuData[t], r.cpus[t])) ==> MirrorKept(s, r)
  {
    forall u | 0 <= u < |s.cpus| ensures CpuOk(r, u) { assert CpuOk(s, u); }
  }

  lemma OwnedKept(s: Irq, r: Irq, t: nat)
    requires Inv(s) && r.Wf() && t < |s.cpus| && OnlyAt(s, r, t)
    requires forall il: SrcLine, d: Dev :: r.pic.sources[il][d].lastTarget.Some? ==>
      r.pic.sources[il][d].lastTarget == s.pic.sources[il][d].lastTarget
    requires forall il: SrcLine, d: Dev :: Pending(s.pic, t, il, d) ==> Pending(r.pic, t, il, d)
    ensures Owned(r.pic)
  {
    forall il: SrcLine, d: Dev | r.pic.sources[il][d].lastTarget.Some?
      ensures IsSource(il, d) && Pending(r.pic, r.pic.sources[il][d].lastTarget.value, il, d)
    {
      assert s.pic.sources[il][d].lastTarget.Some?;
    }
  }

  lemma RaiseLineKeeps(s: Irq, il: SrcLine, d: Dev, t: nat)
    requires s.Wf() && t < |s.cpus| && CpuOk(s, t)
    ensures var r := RaiseLine(s, il, d, t);
      && r.Wf() && CpuOk(r, t) && Pending(r.pic, t, il, d)
      && (MirrorAt(s.pic.cpuData[t], s.cpus[t]) ==> MirrorAt(r.pic.cpuData[t], r.cpus[t]))
      && (forall il', d' :: Pending(s.pic, t, il', d') ==> Pending(r.pic, t, il', d'))
      && !r.cpus[t].IsIdle()
  {
    AssertIRQSets(s.cpus[t], 2 + il);
  }

  /** A delivered interrupt keeps the books and wakes its target at once. */
  lemma StartIRQKeeps(s: Irq, il: SrcLine, d: Dev)
    requires Inv(s) && IsSource(il, d)
    ensures var r := StartIRQ(s, il, d); Inv(r) && |r.cpus| == |s.cpus| && MirrorKept(s, r)
    ensures var r := StartIRQ(s, il, d); var t := Target(s.pic, s.pic.sources[il][d]);
      t.Some? ==> && r.pic.sources[il][d].lastTarget == t && Pending(r.pic, t.value, il, d)
                  && IpBit(r.cpus[t.value].cp0[CAUSE], 2 + il) && !r.cpus[t.value].IsIdle()
  {
    StartIRQBooks(s, il, d);
    var tt := Target(s.pic, s.pic.sources[il][d]);
    if tt.Some? {
      assert CpuOk(s, tt.value);
      RaiseLineKeeps(s, il, d, tt.value);
      AssertIRQSets(s.cpus[tt.value], 2 + il);
    }
  }

  lemma StartIRQOwned(s: Irq, il: SrcLine, d: Dev)
    requires Inv(s) && IsSource(il, d)
    ensures StartIRQ(s, il, d).Wf() && Owned(StartIRQ(s, il, d).pic)
  {
    hide Target, BitVal, MirrorAt, CpuBook, MailOk, IdleOk, Pending, SetBit32, AssertIRQ;
    var tt := Target(s.pic, s.pic.sources[il][d]);
    if tt.Some? {
      var t := tt.value;
      assert CpuOk(s, t);
      RaiseLineKeeps(s, il, d, t);
      var r := StartIRQ(s, il, d);
      var r0 := RaiseLine(s, il, d, t);
      SamePending(r0.pic, r.pic);
      forall il': SrcLine, d': Dev | r.pic.sources[il'][d'].lastTarget.Some?
        ensures IsSource(il', d') && Pending(r.pic, r.pic.sources[il'][d'].lastTarget.value, il', d')
      {
        if !(il' == il && d' == d) {
          assert r.pic.sources[il'][d'] == s.pic.sources[il'][d'];
          StaysPending(s, il, d, t, s.pic.sources[il'][d'].lastTarget.value, il', d');
        }
      }
    }
  }

  lemma SamePending(p: Pic, q: Pic)
    requires p.cpuData == q.cpuData
    ensures forall t: nat, il, d | t < |p.cpuData| :: Pending(p, t, il, d) <==> Pending(q, t, il, d)
  {
  }

  /** Raising a line at one processor drops no pending bit anywhere. */
  lemma StaysPending(s: Irq, il: SrcLine, d: Dev, t: nat, u: nat, il': SrcLine, d': Dev)
    requires s.Wf() && t < |s.cpus| && CpuOk(s, t) && u < |s.cpus| && Pending(s.pic, u, il', d')
    ensures u < |RaiseLine(s, il, d, t).pic.cpuData| && Pending(RaiseLine(s, il, d, t).pic, u, il', d')
  {
    hide BitVal, CpuOk, AssertIRQ;
    RaiseLineKeeps(s, il, d, t);
  }

  lemma StartIRQBooks(s: Irq, il: SrcLine, d: Dev)
    requires Inv(s) && IsSource(il, d)
    ensures var r := StartIRQ(s, il, d); Inv(r) && |r.cpus| == |s.cpus| && MirrorKept(s, r)
  {
    hide Target, BitVal, MirrorAt, CpuBook, MailOk, IdleOk, Owned;
    StartIRQOwned(s, il, d);
    var tt := Target(s.pic, s.pic.sources[il][d]);
    if tt.Some? {
      var t := tt.value;
      assert CpuOk(s, t);
      RaiseLineKeeps(s, il, d, t);
      var r := StartIRQ(s, il, d);
      var r0 := RaiseLine(s, il, d, t);
      assert r.pic.cpuData == r0.pic.cpuData && r.cpus == r0.cpus;
      assert CpuOk(r0, t);
      OnlyAtKeeps(s, r, t);
    }
  }

  lemma DropLineBook(s: Irq, il: SrcLine, d: Dev, t: nat)
    requires s.Wf() && t < |s.cpus| && CpuBook(s.pic.cpuData[t])
    ensures var r := DropLine(s, il, d, t);
      r.Wf() && |r.cpus| == |s.cpus| && CpuBook(r.pic.cpuData[t]) && r.pic.cpuData[t].inbox == s.pic.cpuData[t].inbox
  {
    hide BitVal, DeassertIRQ;
    ResetBitOfZero(d);
    var cd, cd1 := s.pic.cpuData[t], DropLine(s, il, d, t).pic.cpuData[t];
    forall l: nat | l < 5
      ensures BitVal(cd1.ipMask, 3 + l) <==> cd1.idb[l] != 0
    {
      assert BitVal(cd.ipMask, 3 + l) <==> cd.idb[l] != 0;
      assert BitVal(ResetBit32(cd.ipMask, 2 + il), 3 + l) <==> 3 + l != 2 + il && BitVal(cd.ipMask, 3 + l);
      assert l + 1 != il ==> cd1.idb[l] == cd.idb[l];
      assert cd1.ipMask == if il >= 1 && cd1.idb[il - 1] != 0 then cd.ipMask else ResetBit32(cd.ipMask, 2 + il);
    }
  }

  lemma DropLineCause(s: Irq, il: SrcLine, d: Dev, t: nat)
    requires s.Wf() && t < |s.cpus| && IdleOk(s.cpus[t])
    ensures var r := DropLine(s, il, d, t);
      && r.Wf() && IdleOk(r.cpus[t])
      && (MirrorAt(s.pic.cpuData[t], s.cpus[t]) ==> MirrorAt(r.pic.cpuData[t], r.cpus[t]))
  {
    hide BitVal, DeassertIRQ, IdleOk;
    DeassertIRQClears(s.cpus[t], 2 + il);
  }

  /** The dropped source is no longer pending; every other source still is if it was. */
  lemma DropLinePending(s: Irq, il: SrcLine, d: Dev, t: nat)
    requires s.Wf() && t < |s.cpus| && CpuOk(s, t)
    ensures var r := DropLine(s, il, d, t);
      && r.Wf() && !Pending(r.pic, t, il, d)
      && (forall il', d' :: IsSource(il, d) && IsSource(il', d') && !(il' == il && d' == d) && Pending(s.pic, t, il', d')
            ==> Pending(r.pic, t, il', d'))
  {
    hide BitVal, DeassertIRQ, MailOk, IdleOk;
    var r := DropLine(s, il, d, t);
    if il >= 1 && r.pic.cpuData[t].idb[il - 1] == 0 {
      var w := r.pic.cpuData[t].idb[il - 1];
      forall d': Dev ensures !BitVal(w, d') { ZeroHasNoBit(d'); }
    }
  }

  lemma DropLineKeeps(s: Irq, il: SrcLine, d: Dev, t: nat)
    requires s.Wf() && t < |s.cpus| && CpuOk(s, t)
    ensures var r := DropLine(s, il, d, t);
      && r.Wf() && CpuOk(r, t) && !Pending(r.pic, t, il, d)
      && (MirrorAt(s.pic.cpuData[t], s.cpus[t]) ==> MirrorAt(r.pic.cpuData[t], r.cpus[t]))
      && (forall il', d' :: IsSource(il, d) && IsSource(il', d') && !(il' == il && d' == d) && Pending(s.pic, t, il', d')
            ==> Pending(r.pic, t, il', d'))
  {
    hide DropLine, Pending, MirrorAt, CpuBook, MailOk, IdleOk;
    DropLineBook(s, il, d, t);
    DropLineCause(s, il, d, t);
    DropLinePending(s, il, d, t);
  }

  /** After an acknowledgement the source is pending nowhere its delivery was recorded. */
  lemma EndIRQKeeps(s: Irq, il: SrcLine, d: Dev)
    requires Inv(s) && IsSource(il, d)
    ensures var r := EndIRQ(s, il, d); Inv(r) && |r.cpus| == |s.cpus| && MirrorKept(s, r)
    ensures var r := EndIRQ(s, il, d); r.pic.sources[il][d].lastTarget.None?
  {
    hide BitVal, MirrorAt, CpuBook, MailOk;
    var src := s.pic.sources[il][d];
    if src.lastTarget.Some? {
      var t := src.lastTarget.value;
      DropLineKeeps(s, il, d, t);
      var r := EndIRQ(s, il, d);
      var r0 := DropLine(s, il, d, t);
      assert r.pic.cpuData == r0.pic.cpuData && r.cpus == r0.cpus && r0.pic.sources == s.pic.sources;
      assert CpuOk(s, t) && CpuOk(r0, t);
      OnlyAtKeeps(s, r, t);
      forall il': SrcLine, d': Dev | r.pic.sources[il'][d'].lastTarget.Some?
        ensures IsSource(il', d') && Pending(r.pic, r.pic.sources[il'][d'].lastTarget.value, il', d')
      {
        assert !(il' == il && d' == d);
        assert r.pic.sources[il'][d'] == s.pic.sources[il'][d'];
      }
    }
  }

  lemma AcceptKeeps(s: Irq, t: nat, m: IpiMessage)
    requires Inv(s) && t < |s.cpus| && m.origin < |s.cpus| && HasSlot(s.pic.cpuData[t].inbox, m.origin)
    ensures var r := Accept(s, t, m); Inv(r) && |r.cpus| == |s.cpus| && MirrorKept(s, r) && !r.cpus[t].IsIdle()
  {
    AssertIRQSets(s.cpus[t], IL_IPI);
    var r := Accept(s, t, m);
    assert CpuOk(s, t);
    OnlyAtKeeps(s, r, t);
    OwnedKept(s, r, t);
  }

  lemma {:induction false} DeliverKeeps(s: Irq, origin: nat, outbox: Word, i: nat)
    requires Inv(s) && origin < |s.cpus| && i <= |s.cpus|
    ensures var r := DeliverBelow(s, origin, outbox, i); Inv(r) && |r.cpus| == |s.cpus| && MirrorKept(s, r)
  {
    if i > 0 {
      DeliverKeeps(s, origin, outbox, i - 1);
      var r := DeliverBelow(s, origin, outbox, i - 1);
      var m := IpiMessage(origin, Message(outbox));
      if HasSlot(r.pic.cpuData[i - 1].inbox, origin) {
        AcceptKeeps(r, i - 1, m);
      }
    }
  }

  lemma InboxAckKeeps(s: Irq, t: nat)
    requires Inv(s) && t < |s.cpus|
    ensures var r := InboxAck(s, t); Inv(r) && |r.cpus| == |s.cpus| && MirrorKept(s, r)
  {
    DeassertIRQClears(s.cpus[t], IL_IPI);
    var r := InboxAck(s, t);
    assert CpuOk(s, t);
    OnlyAtKeeps(s, r, t);
    OwnedKept(s, r, t);
  }

  lemma SetRouteKeeps(s: Irq, il: SrcLine, d: Dev, data: Word)
    requires Inv(s)
    ensures var r := SetRoute(s, il, d, data); Inv(r) && r.cpus == s.cpus && MirrorKept(s, r)
  {
    var r := SetRoute(s, il, d, data);
    forall u | 0 <= u < |s.cpus| ensures CpuOk(r, u) { assert CpuOk(s, u); }
    forall il': SrcLine, d': Dev | r.pic.sources[il'][d'].lastTarget.Some?
      ensures IsSource(il', d') && Pending(r.pic, r.pic.sources[il'][d'].lastTarget.value, il', d')
    {
      assert r.pic.sources[il'][d'].lastTarget == s.pic.sources[il'][d'].lastTarget;
    }
  }

  lemma SetPriorityKeeps(s: Irq, t: nat, data: Word)
    requires Inv(s) && t < |s.cpus|
    ensures var r := SetPriority(s, t, data); Inv(r) && r.cpus == s.cpus && MirrorKept(s, r)
  {
    var r := SetPriority(s, t, data);
    assert CpuOk(s, t);
    OnlyAtKeeps(s, r, t);
    OwnedKept(s, r, t);
  }

  function SetCpu(s: Irq, t: nat, c: Cpu): Irq
    requires t < |s.cpus|
  {
    s.(cpus := s.cpus[t := c])
  }

  /** A processor's own step touches none of the controller's lines. */
  lemma SetCpuKeeps(s: Irq, t: nat, c: Cpu)
    requires Inv(s) && t < |s.cpus| && IdleOk(c)
    ensures var r := SetCpu(s, t, c); Inv(r) && |r.cpus| == |s.cpus|
    ensures var r := SetCpu(s, t, c);
      (MirrorAt(s.pic.cpuData[t], s.cpus[t]) ==> MirrorAt(s.pic.cpuData[t], c)) ==> MirrorKept(s, r)
  {
    var r := SetCpu(s, t, c);
    assert CpuOk(s, t);
    OnlyAtKeeps(s, r, t);
    OwnedKept(s, r, t);
  }

  /** The controller shows the processor no line at all. */
  ghost predicate NothingPending(cd: CpuData) { forall l: Line :: !BitVal(cd.ipMask, l) }

  /**
   * Reset clears CAUSE, so afterwards it shows the controller's lines exactly when the controller shows the
   * processor nothing, whatever it showed before.
   */
  lemma ResetMirror(s: Irq, t: nat, pc: Word, sp: Word, word: Word)
    requires Inv(s) && t < |s.cpus|
    ensures var r := SetCpu(s, t, Reset(s.cpus[t], pc, sp, word));
      && Inv(r) && |r.cpus| == |s.cpus|
      && (MirrorAt(r.pic.cpuData[t], r.cpus[t]) <==> NothingPending(s.pic.cpuData[t]))
      && (Mirror(s) ==> (Mirror(r) <==> NothingPending(s.pic.cpuData[t])))
  {
    var c := Reset(s.cpus[t], pc, sp, word);
    SetCpuKeeps(s, t, c);
    var r := SetCpu(s, t, c);
    var cd := s.pic.cpuData[t];
    assert CpuOk(s, t);
    forall l: Line ensures !IpBit(c.cp0[CAUSE], l) { ZeroHasNoBit(8 + l); }
    assert MirrorAt(cd, c) ==> NothingPending(cd) by {
      if MirrorAt(cd, c) {
        forall l: Line ensures !BitVal(cd.ipMask, l) { assert l != IL_CPUTIMER ==> !IpBit(c.cp0[CAUSE], l); }
      }
    }
    assert NothingPending(cd) ==> MirrorAt(cd, c);
    assert Mirror(r) ==> MirrorAt(r.pic.cpuData[t], r.cpus[t]);
  }

  /** A reset that breaks it: an interrupt is raised on a new machine, then its target is reset. */
  lemma ResetBreaksMirror(cpus: seq<Cpu>, pc: Word, sp: Word, word: Word)
    requires |cpus| == 1 && cpus[0].IsHalted() && NoIp(cpus[0].cp0[CAUSE])
    ensures Inv(Irq(InitialPic(1), cpus))
    ensures var s := StartIRQ(Irq(InitialPic(1), cpus), 1, 0);
      Inv(s) && Mirror(s) && |s.cpus| == 1 && !Mirror(SetCpu(s, 0, Reset(s.cpus[0], pc, sp, word)))
  {
    hide RaiseLine, Reset, BitVal;
    InitialInv(1, cpus);
    var s0 := Irq(InitialPic(1), cpus);
    StartIRQKeeps(s0, 1, 0);
    var s := StartIRQ(s0, 1, 0);
    assert Target(s0.pic, s0.pic.sources[1][0]) == Some(0);
    assert Pending(s.pic, 0, 1, 0);
    ResetMirror(s, 0, pc, sp, word);
    assert CpuOk(s, 0);
    PendingShows(s.pic.cpuData[0], 0);
  }

  lemma PendingShows(cd: CpuData, d: Dev)
    requires CpuBook(cd) && BitVal(cd.idb[0], d)
    ensures !NothingPending(cd)
  {
    ZeroHasNoBit(d);
    assert BitVal(cd.ipMask, 3 + 0);
  }
}
