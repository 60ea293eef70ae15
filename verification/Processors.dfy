/** The processor object of processor.cc, updated in place and proved against Cpu. */
module Processors {
  import opened Words
  import opened Spec = Cpu
  import PreciseExceptions
  import Translation

  /** STATUS after the push loop has done the bits down to `bitp`. */
  ghost function Pushed(sr: Word, bitp: nat): Word
    requires 2 <= bitp <= 6
    decreases 6 - bitp
  {
    if bitp == 6 then sr else CopyBit(Pushed(sr, bitp + 1), bitp - 2, bitp)
  }

  ghost function Popped(sr: Word, bitp: nat): Word
    requires bitp <= 4
  {
    if bitp == 0 then sr else CopyBit(Popped(sr, bitp - 1), bitp + 1, bitp - 1)
  }

  /** What a step of a processor's runs keeps, for a cycle. */
  lemma CycleKeeps(c: Cpu, e: Instr, word: Option<Word>)
    ensures var d := Spec.Cycle(c, e, word);
      && d == PreciseExceptions.Step(c, PreciseExceptions.Tick(e, [], word))
      && (PreciseExceptions.Standing(c) && PreciseExceptions.Admissible(CpuTimer(c), e) ==> PreciseExceptions.Standing(d))
      && (Translation.TlbStands(c) ==> Translation.TlbStands(d))
  {
    hide CpuTimer, Execute, Finish, PreciseExceptions.Step, PreciseExceptions.Executes, PreciseExceptions.Standing,
      PreciseExceptions.Admissible, Translation.TlbStands;
    PreciseExceptions.CycleIsStep(c, e, word);
    var tick := PreciseExceptions.Tick(e, [], word);
    PreciseExceptions.RunCpuOne(c, tick);
    if PreciseExceptions.Standing(c) && PreciseExceptions.Admissible(CpuTimer(c), e) { PreciseExceptions.PcStackInRuns(c, [tick]); }
    if Translation.TlbStands(c) { Translation.StepTlbStands(c, tick); }
  }

  lemma WithTwice(c: Cpu, r: Cp0Reg, v: Word, w: Word)
    ensures c.With(r, v).With(r, w) == c.With(r, w) && c.With(r, v).cp0[r] == v
  {
  }

  lemma PushedAll(sr: Word)
    ensures PushKUIE(sr) == ResetBit32(ResetBit32(Pushed(sr, 2), KUC), IEC)
  {
    hide CopyBit, ResetBit32;
    var _ := Pushed(sr, 3);
    assert Pushed(sr, 4) == CopyBit(CopyBit(sr, 3, 5), 2, 4);
  }

  lemma PoppedAll(sr: Word)
    ensures PopKUIE(sr) == Popped(sr, 4)
  {
    hide CopyBit;
    assert Popped(sr, 1) == CopyBit(sr, 2, 0);
    assert Popped(sr, 2) == CopyBit(CopyBit(sr, 2, 0), 3, 1);
  }

  lemma Add32Twice(w: Word)
    ensures Add32(Add32(w, 4), 4) == Add32(w, 8)
  {
  }

  class Processor {
    const id: nat
    const tlbFloor: Word
    var gpr: Gprs
    var cpreg: Cp0s
    var tlb: TLB
    var status: ProcessorStatus
    var excCause: ExcNo
    var copENum: CopNo
    var isBranchD: bool
    var pending: Load
    var currInstr: Word
    var prevPC: Word
    var currPC: Word
    var nextPC: Word
    var succPC: Word

    function View(): Cpu
      reads this
    {
      Cpu(id, status, excCause, copENum, isBranchD, pending, gpr, currInstr,
          prevPC, currPC, nextPC, succPC, cpreg, tlb, tlbFloor)
    }

    /** A powered-off processor: reset is what starts it. */
    constructor (id: nat, tlbSize: TLBSize, tlbFloor: Word)
      ensures this.id == id && this.tlbFloor == tlbFloor
      ensures View().IsHalted() && |View().tlb| == tlbSize && View().cp0 == seq(10, _ => 0)
    {
      this.id, this.tlbFloor := id, tlbFloor;
      gpr, cpreg, tlb := seq(34, _ => 0), seq(10, _ => 0), seq(tlbSize, _ => TLBEntry(0, 0));
      status, excCause, copENum, isBranchD, pending := Halted, NO_EXC, 0, false, NoLoad;
      currInstr, prevPC, currPC, nextPC, succPC := NOP, 0, 0, 0, 0;
    }

    method SetCp0(r: Cp0Reg, w: Word)
      modifies this`cpreg
      ensures View() == old(View()).With(r, w)
    {
      cpreg := cpreg[r := w];
    }

    method SetGpr(r: Reg, w: Word)
      modifies this`gpr
      ensures View() == Spec.SetGpr(old(View()), r, w)
    {
      if r != 0 { gpr := gpr[r := w]; }
    }

    method AssertIRQ(il: Line)
      modifies this`status, this`cpreg
      ensures View() == Spec.AssertIRQ(old(View()), il)
    {
      SetCp0(CAUSE, SetBit32(cpreg[CAUSE], 8 + il));
      if status == Idle { status := Running; }
    }

    method DeassertIRQ(il: Line)
      modifies this`cpreg
      ensures View() == Spec.DeassertIRQ(old(View()), il)
    {
      SetCp0(CAUSE, ResetBit32(cpreg[CAUSE], 8 + il));
    }

    method SignalExc(exc: ExcNo, cop: CopNo)
      modifies this`excCause, this`copENum
      ensures View() == Spec.SignalExc(old(View()), exc, cop)
    {
      excCause := exc;
      copENum := cop;
    }

    method RandomRegTick()
      modifies this`cpreg
      ensures View() == Spec.RandomRegTick(old(View()))
    {
      var w := And32(Sub32(cpreg[RANDOM], 0x100), IndexMask(|tlb|));
      if w < 0x100 { w := IndexMask(|tlb|); }
      SetCp0(RANDOM, w);
    }

    method CopyStatusBit(src: nat, dst: nat)
      requires dst < 32
      modifies this`cpreg
      ensures View() == old(View()).With(STATUS, CopyBit(old(View()).cp0[STATUS], src, dst))
    {
      if BitVal(cpreg[STATUS], src) {
        SetCp0(STATUS, SetBit32(cpreg[STATUS], dst));
      } else {
        SetCp0(STATUS, ResetBit32(cpreg[STATUS], dst));
      }
    }

    /** From the top bit down, each of the upper four takes the bit two below it. */
    method PushKUIEStack()
      modifies this`cpreg
      ensures View() == old(View()).With(STATUS, PushKUIE(old(View()).cp0[STATUS]))
    {
      hide CopyBit, PushKUIE, SetBit32, ResetBit32, BitVal;
      ghost var c := View();
      PushedAll(c.cp0[STATUS]);
      assert c == c.With(STATUS, c.cp0[STATUS]);
      for bitp := KUO + 1 downto KUC + 1
        invariant View() == c.With(STATUS, Pushed(c.cp0[STATUS], bitp))
      {
        CopyStatusBit(bitp - 2, bitp);
        WithTwice(c, STATUS, Pushed(c.cp0[STATUS], bitp + 1), Pushed(c.cp0[STATUS], bitp));
      }
      ghost var w := Pushed(c.cp0[STATUS], 2);
      SetCp0(STATUS, ResetBit32(cpreg[STATUS], KUC));
      WithTwice(c, STATUS, w, ResetBit32(w, KUC));
      SetCp0(STATUS, ResetBit32(cpreg[STATUS], IEC));
      WithTwice(c, STATUS, ResetBit32(w, KUC), ResetBit32(ResetBit32(w, KUC), IEC));
    }

    method PopKUIEStack()
      modifies this`cpreg
      ensures View() == old(View()).With(STATUS, PopKUIE(old(View()).cp0[STATUS]))
    {
      hide CopyBit, PopKUIE, SetBit32, ResetBit32, BitVal;
      ghost var c := View();
      PoppedAll(c.cp0[STATUS]);
      assert c == c.With(STATUS, c.cp0[STATUS]);
      for bitp := IEC to IEO
        invariant View() == c.With(STATUS, Popped(c.cp0[STATUS], bitp))
      {
        CopyStatusBit(bitp + 2, bitp);
        WithTwice(c, STATUS, Popped(c.cp0[STATUS], bitp), Popped(c.cp0[STATUS], bitp + 1));
      }
    }

    /** The last match of an upward scan is the highest. */
    method ProbeTLB(hi: Word, vaddr: Word) returns (index: Option<nat>)
      ensures index == Spec.ProbeTLB(View().tlb, hi, vaddr)
    {
      hide VPNMatch, ASIDMatch, BitVal;
      index := None;
      for i := 0 to |tlb|
        invariant index == Spec.ProbeTLB(tlb[..i], hi, vaddr)
      {
        if VPNMatch(tlb[i], vaddr) && (BitVal(tlb[i].lo, GBIT) || ASIDMatch(tlb[i], hi)) {
          index := Some(i);
        }
        assert tlb[..i + 1][..i] == tlb[..i];
      }
      assert tlb[..|tlb|] == tlb;
    }

    method SetTLBRegs(vaddr: Word)
      modifies this`cpreg
      ensures View() == Spec.SetTLBRegs(old(View()), vaddr)
    {
      SetCp0(BADVADDR, vaddr);
      SetCp0(ENTRYHI, Or32(And32(vaddr, VPNMASK), And32(cpreg[ENTRYHI], ASIDMASK)));
    }

    /** None where the emulator reports an error; the exception is then signalled. */
    method MapVirtual(vaddr: Word, acc: Access) returns (paddr: Option<Word>)
      modifies this`excCause, this`copENum, this`cpreg
      ensures (View(), paddr) == Spec.MapVirtual(old(View()), vaddr, acc)
    {
      if vaddr % 4 != 0 || (BitVal(cpreg[STATUS], KUC) && vaddr < KUSEGBASE) {
        SetCp0(BADVADDR, vaddr);
        SignalExc(if acc == Write then ADES_EXC else ADEL_EXC, 0);
        return None;
      } else if vaddr < tlbFloor {
        return Some(vaddr);
      }
      var index := ProbeTLB(cpreg[ENTRYHI], vaddr);
      if index.Some? {
        var entry := tlb[index.value];
        if BitVal(entry.lo, VBIT) {
          if acc != Write || BitVal(entry.lo, DBIT) {
            return Some(PhAddr(vaddr, entry.lo));
          }
          SetTLBRegs(vaddr);
          SignalExc(MOD_EXC, 0);
        } else {
          SetTLBRegs(vaddr);
          SignalExc(if acc == Write then TLBS_EXC else TLBL_EXC, 0);
        }
      } else {
        SetTLBRegs(vaddr);
        SignalExc(if acc == Write then UTLBS_EXC else UTLBL_EXC, 0);
      }
      return None;
    }

    method CompleteLoad()
      modifies this`pending, this`gpr, this`cpreg
      ensures View() == Spec.CompleteLoad(old(View()))
    {
      match pending
      case NoLoad =>
      case GprLoad(reg, val) =>
        SetGpr(reg, val);
        pending := NoLoad;
      case Cp0Load(reg, val) =>
        if reg == INDEX {
          SetCp0(INDEX, cpreg[INDEX] / 0x8000_0000 * 0x8000_0000 + And32(val, IndexMask(|tlb|)));
        } else if reg == ENTRYLO {
          SetCp0(ENTRYLO, And32(val, ENTRYLOMASK));
        } else if reg == TIMER {
          SetCp0(TIMER, val);
          DeassertIRQ(IL_CPUTIMER);
        } else if reg == ENTRYHI {
          SetCp0(ENTRYHI, And32(val, ENTRYHIMASK));
        } else if reg == STATUS {
          SetCp0(STATUS, And32(val, STATUSMASK));
        }
        pending := NoLoad;
    }

    /** Saves what the handler needs, in CAUSE and EPC. */
    method RecordExc()
      modifies this`isBranchD, this`cpreg
      ensures var c := old(View());
        View() == c.With(CAUSE, ExcCauseWord(c.cp0[CAUSE], c.excCause, c.isBranchD, c.copENum))
                   .With(EPC, if c.isBranchD then c.prevPC else c.currPC).(isBranchD := false)
    {
      var cause := Or32(And32(cpreg[CAUSE], IP_MASK), 4 * EXC_CODE[excCause]);
      var epc := currPC;
      if isBranchD {
        cause := SetBit32(cause, BD);
        epc := prevPC;
        isBranchD := false;
      }
      if excCause == CPU_EXC {
        cause := Or32(cause, copENum * 0x800_0000);
      }
      SetCp0(CAUSE, cause);
      SetCp0(EPC, epc);
    }

    method HandlerVector() returns (vector: Word)
      ensures vector == ExcVector(cpreg[STATUS], excCause) && vector + 8 < TWO32
    {
      vector := if BitVal(cpreg[STATUS], BEV) then BOOTEXCBASE else KSEG0BASE;
      vector := vector + if excCause == UTLBL_EXC || excCause == UTLBS_EXC then TLBREFOFFS else OTHEREXCOFFS;
    }

    /** Turns to the handler: at once for an interrupt, past the nullified instruction otherwise. */
    method EnterHandler()
      modifies this`currPC, this`nextPC, this`succPC, this`cpreg
      ensures var c := old(View());
        var v := ExcVector(c.cp0[STATUS], c.excCause);
        var c1 := c.With(STATUS, PushKUIE(c.cp0[STATUS]));
        View() == if c.excCause == INT_EXC then c1.(currPC := v, nextPC := v + 4, succPC := v + 8)
                  else c1.(nextPC := v, succPC := v + 4)
    {
      hide ExcVector, PushKUIE;
      var vector := HandlerVector();
      PushKUIEStack();
      if excCause == INT_EXC {
        currPC := vector;
        nextPC := currPC + 4;
        succPC := nextPC + 4;
      } else {
        nextPC := vector;
        succPC := nextPC + 4;
      }
    }

    method HandleExc()
      modifies this
      ensures View() == Spec.HandleExc(old(View()))
    {
      CompleteLoad();
      RecordExc();
      EnterHandler();
      hide ExcCauseWord, PushKUIE, ExcVector, Spec.CompleteLoad;
    }

    method CheckForInt() returns (pending: bool)
      modifies this`excCause, this`copENum, this`cpreg
      ensures (View(), pending) == Spec.CheckForInt(old(View()))
    {
      if BitVal(cpreg[STATUS], IEC) && And32(And32(cpreg[CAUSE], cpreg[STATUS]), IP_MASK) != 0 {
        SignalExc(INT_EXC, 0);
        SetCp0(CAUSE, And32(cpreg[CAUSE], IP_MASK));
        return true;
      } else {
        return false;
      }
    }

    /** Sleeps only with no line pending. */
    method Suspend()
      modifies this`status
      ensures View() == Spec.Suspend(old(View()))
    {
      if And32(cpreg[CAUSE], IP_MASK) == 0 { status := Idle; }
    }

    method ZapTLB()
      modifies this`tlb
      ensures View() == old(View()).(tlb := [old(View()).tlb[0]] + seq(|old(View()).tlb| - 1, _ => TLBEntry(0, 0)))
    {
      for i := 1 to |tlb|
        invariant |tlb| == |old(tlb)| && tlb[0] == old(tlb[0]) && forall j :: 1 <= j < i ==> tlb[j] == TLBEntry(0, 0)
      {
        tlb := tlb[i := TLBEntry(0, 0)];
      }
      assert tlb == [old(tlb[0])] + seq(|tlb| - 1, _ => TLBEntry(0, 0));
    }

    /** The operations of coprocessor 0, up to the delayed load they all complete. */
    method ExecCop0(op: Cop0Op)
      modifies this
      ensures View() == Spec.ExecCop0(old(View()), op)
    {
      hide Spec.CompleteLoad, PopKUIE, Spec.ProbeTLB, Spec.Suspend, ReadEntry, WriteEntry, RndIdx;
      match op
      case Rfe =>
        PopKUIEStack();
        CompleteLoad();
      case Tlbp =>
        Tlbprobe();
        CompleteLoad();
      case Tlbr =>
        ReadTLB(RndIdx(cpreg[INDEX]));
        CompleteLoad();
      case Tlbwi =>
        WriteTLB(RndIdx(cpreg[INDEX]));
        CompleteLoad();
      case Tlbwr =>
        WriteTLB(RndIdx(cpreg[RANDOM]));
        CompleteLoad();
      case Wait =>
        Suspend();
        CompleteLoad();
      case Mfc0(src, rt) =>
        CompleteLoad();
        pending := GprLoad(rt, cpreg[src]);
      case Mtc0(dst, rt) =>
        CompleteLoad();
        pending := Cp0Load(dst, gpr[rt]);
      case ZapTlb =>
        CompleteLoad();
        ZapTLB();
    }

    method Tlbprobe()
      modifies this`cpreg
      ensures var c := old(View());
        View() == match Spec.ProbeTLB(c.tlb, c.cp0[ENTRYHI], c.cp0[ENTRYHI])
                  case Some(i) => c.With(INDEX, i * 0x100)
                  case None => c.With(INDEX, SIGNMASK)
    {
      hide Matches, VPNMatch, ASIDMatch, BitVal;
      SetCp0(INDEX, SIGNMASK);
      var i := ProbeTLB(cpreg[ENTRYHI], cpreg[ENTRYHI]);
      if i.Some? { SetCp0(INDEX, i.value * 0x100); }
    }

    /** The emulator does not check the index; TlbInRuns shows that it always names an entry. */
    method ReadTLB(i: nat)
      modifies this`cpreg
      ensures View() == ReadEntry(old(View()), i)
    {
      if i < |tlb| {
        SetCp0(ENTRYHI, tlb[i].hi);
        SetCp0(ENTRYLO, tlb[i].lo);
      }
    }

    method WriteTLB(i: nat)
      modifies this`tlb
      ensures View() == WriteEntry(old(View()), i)
    {
      if i < |tlb| { tlb := tlb[i := MaskedEntry(cpreg[ENTRYHI], cpreg[ENTRYLO])]; }
    }

    method ExecLoad(rt: Reg, vaddr: Word, data: Option<Word>) returns (error: bool)
      modifies this
      ensures (View(), error) == ExecBody(old(View()), LoadMem(rt, vaddr, data))
    {
      CompleteLoad();
      var paddr := MapVirtual(vaddr, Read);
      if paddr.None? { return true; }
      if data.None? {
        SignalExc(DB_EXC, 0);
        return true;
      }
      pending := GprLoad(rt, data.value);
      return false;
    }

    method ExecStore(vaddr: Word, ok: bool) returns (error: bool)
      modifies this
      ensures (View(), error) == ExecBody(old(View()), StoreMem(vaddr, ok))
    {
      CompleteLoad();
      var paddr := MapVirtual(vaddr, Write);
      if paddr.None? { return true; }
      if !ok {
        SignalExc(DB_EXC, 0);
        return true;
      }
      return false;
    }

    method ExecCompareSwap(rd: Reg, vaddr: Word, data: Option<Word>) returns (error: bool)
      modifies this
      ensures (View(), error) == ExecBody(old(View()), CompareSwap(rd, vaddr, data))
    {
      var paddr := MapVirtual(vaddr, Write);
      error := paddr.None?;
      if !error && data.None? {
        SignalExc(DB_EXC, 0);
        error := true;
      }
      CompleteLoad();
      if !error { SetGpr(rd, data.value); }
    }

    method ExecBranch(taken: bool, target: Word, linkEarly: bool, linkLate: Reg)
      modifies this
      ensures (View(), false) == ExecBody(old(View()), Branch(taken, target, linkEarly, linkLate))
    {
      if linkEarly { SetGpr(31, Add32(currPC, 8)); }
      CompleteLoad();
      SetGpr(linkLate, Add32(currPC, 8));
      if taken { succPC := target; }
    }

    method ExecInstr(e0: Instr) returns (error: bool)
      modifies this
      ensures (View(), error) == Spec.ExecInstr(old(View()), e0)
    {
      hide Spec.ExecCop0, Spec.MapVirtual, Spec.CompleteLoad;
      error := false;
      var isValidBranch := false;
      var e := Effective(View(), e0);
      match e {
      case MulDiv(hi, lo) =>
        SetGpr(HI, hi);
        SetGpr(LO, lo);
        CompleteLoad();
      case Plain(rd, val) =>
        CompleteLoad();
        SetGpr(rd, val);
      case Branch(taken, target, early, late) =>
        ExecBranch(taken, target, early, late);
        isValidBranch := true;
      case Faulting(exc, cop) =>
        SignalExc(exc, cop);
        CompleteLoad();
        error := true;
      case LoadMem(rt, vaddr, data) => error := ExecLoad(rt, vaddr, data);
      case StoreMem(vaddr, ok) => error := ExecStore(vaddr, ok);
      case CompareSwap(rd, vaddr, data) => error := ExecCompareSwap(rd, vaddr, data);
      case Cop0(op) =>
        if Cp0Usable(View()) {
          ExecCop0(op);
        } else {
          SignalExc(CPU_EXC, 0);
          error := true;
        }
      }
      if !error { isBranchD := isValidBranch; }
    }

    // ---- the parts of a cycle -----------------------------------------------------------------

    method TimerTick()
      modifies this`status, this`cpreg
      ensures View() == CpuTimer(old(View()))
    {
      if BitVal(cpreg[STATUS], TE) {
        if cpreg[TIMER] == 0 { AssertIRQ(IL_CPUTIMER); }
        SetCp0(TIMER, Sub32(cpreg[TIMER], 1));
      } else {
        DeassertIRQ(IL_CPUTIMER);
      }
    }

    method Execute(e: Instr) returns (error: bool)
      modifies this
      ensures View() == Spec.Execute(old(View()), e) && error == Spec.ExecInstr(old(View()), e).1
    {
      hide Spec.ExecInstr, Spec.HandleExc;
      error := ExecInstr(e);
      if error { HandleExc(); }
    }

    method Advance()
      modifies this
      ensures View() == Shift(old(View()))
    {
      hide Spec.RandomRegTick, Add32;
      prevPC := currPC;
      currPC := nextPC;
      nextPC := succPC;
      succPC := Add32(succPC, 4);
      RandomRegTick();
    }

    method TakeInterrupt()
      modifies this
      ensures View() == Interrupt(old(View()))
    {
      hide Spec.HandleExc, Spec.CheckForInt;
      var pendingInt := CheckForInt();
      if pendingInt { HandleExc(); }
    }

    method FetchNext(word: Option<Word>)
      modifies this
      ensures View() == Fetch(old(View()), word)
    {
      hide Spec.HandleExc, Spec.MapVirtual;
      var paddr := MapVirtual(currPC, Exec);
      if paddr.None? {
        currInstr := NOP;
        HandleExc();
      } else if word.None? {
        SignalExc(IB_EXC, 0);
        currInstr := NOP;
        HandleExc();
      } else {
        currInstr := word.value;
      }
    }

    method Finish(word: Option<Word>)
      modifies this
      ensures View() == Spec.Finish(old(View()), word)
    {
      hide Shift, Interrupt, Fetch;
      if status == Idle { return; }
      Advance();
      TakeInterrupt();
      FetchNext(word);
    }

    /**
     * One cycle, given what the instruction does and what the bus answers the fetch. It is one step of the
     * processor's runs, so PC stack and TLB registers stay well formed.
     */
    method Cycle(e: Instr, word: Option<Word>)
      modifies this
      ensures View() == PreciseExceptions.Step(old(View()), PreciseExceptions.Tick(e, [], word))
      ensures PreciseExceptions.Standing(old(View())) && PreciseExceptions.Admissible(CpuTimer(old(View())), e) ==>
        PreciseExceptions.Standing(View())
      ensures Translation.TlbStands(old(View())) ==> Translation.TlbStands(View())
    {
      hide CpuTimer, Spec.Execute, Spec.Finish, PreciseExceptions.Standing, PreciseExceptions.Admissible, Translation.TlbStands;
      CycleKeeps(View(), e, word);
      if status == Halted { return; }
      TimerTick();
      if status == Idle { return; }
      var error := Execute(e);
      Finish(word);
    }

    method Reset(pc: Word, sp: Word, word: Word)
      modifies this
      ensures View() == Spec.Reset(old(View()), pc, sp, word)
    {
      hide Add32, RandomAtReset;
      isBranchD := false;
      excCause := NO_EXC;
      copENum := 0;
      pending := NoLoad;
      ClearRegisters(sp);
      prevPC := MAX_WORD;
      StartAt(pc, word);
    }

    method StartAt(pc: Word, word: Word)
      modifies this`currPC, this`currInstr, this`nextPC, this`succPC, this`status
      ensures View() == old(View()).(currPC := pc, currInstr := word, nextPC := Add32(pc, 4), succPC := Add32(pc, 8), status := Running)
    {
      Add32Twice(pc);
      hide Add32;
      currPC := pc;
      currInstr := word;
      nextPC := Add32(currPC, 4);
      succPC := Add32(nextPC, 4);
      status := Running;
    }

    method ClearRegisters(sp: Word)
      modifies this`gpr, this`cpreg
      ensures View() == Spec.Reset(old(View()), 0, sp, 0).(isBranchD := isBranchD, excCause := excCause, copENum := copENum,
        load := pending, prevPC := prevPC, currInstr := currInstr, currPC := currPC, nextPC := nextPC, succPC := succPC, status := status)
    {
      gpr := seq(34, _ => 0);
      gpr := gpr[29 := sp];
      cpreg := seq(10, _ => 0);
      cpreg := cpreg[RANDOM := RandomAtReset(|tlb|)];
      cpreg := cpreg[STATUS := STATUSRESET];
      cpreg := cpreg[PRID := id % TWO32];
    }

    method Halt()
      modifies this`status
      ensures View() == Spec.Halt(old(View()))
    {
      status := Halted;
    }

    function IdleCycles(): (n: Word)
      reads this
      ensures n == Spec.IdleCycles(View())
    {
      match status
      case Halted => MAX_WORD
      case Idle => if BitVal(cpreg[STATUS], TE) then cpreg[TIMER] else MAX_WORD
      case Running => 0
    }

    method Skip(n: Word)
      requires status == Idle && n <= IdleCycles()
      modifies this`cpreg
      ensures View() == Spec.Skip(old(View()), n)
    {
      if BitVal(cpreg[STATUS], TE) { SetCp0(TIMER, Sub32(cpreg[TIMER], n)); }
    }
  }
}
