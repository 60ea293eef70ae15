/** What one processor's operations do to its CAUSE.IP lines and to its idle state. */
module InterruptLines {
  import opened Words
  import opened Cpu

  /** A processor sleeps only while no line is pending. */
  ghost predicate IdleOk(c: Cpu) { c.IsIdle() ==> NoIp(c.cp0[CAUSE]) }

  /** Every line but the processor's own timer is unchanged, and that one is not raised. */
  ghost predicate LinesKept(c: Cpu, c': Cpu) {
    && (forall l: Line :: l != IL_CPUTIMER ==> (IpBit(c'.cp0[CAUSE], l) <==> IpBit(c.cp0[CAUSE], l)))
    && (IpBit(c'.cp0[CAUSE], IL_CPUTIMER) ==> IpBit(c.cp0[CAUSE], IL_CPUTIMER))
  }

  lemma AssertIRQSets(c: Cpu, il: Line)
    ensures forall l: Line :: IpBit(AssertIRQ(c, il).cp0[CAUSE], l) <==> l == il || IpBit(c.cp0[CAUSE], l)
    ensures !AssertIRQ(c, il).IsIdle()
    ensures c.IsIdle() ==> AssertIRQ(c, il).status == Running
  {
  }

  lemma DeassertIRQClears(c: Cpu, il: Line)
    ensures forall l: Line :: IpBit(DeassertIRQ(c, il).cp0[CAUSE], l) <==> l != il && IpBit(c.cp0[CAUSE], l)
    ensures IdleOk(c) ==> IdleOk(DeassertIRQ(c, il))
  {
    NoIpIsNoLine(c.cp0[CAUSE]);
    NoIpIsNoLine(DeassertIRQ(c, il).cp0[CAUSE]);
  }

  lemma CompleteLoadLines(c: Cpu)
    ensures LinesKept(c, CompleteLoad(c)) && CompleteLoad(c).status == c.status
  {
  }

  lemma MaskedKeepsLine(cause: Word, l: Line)
    ensures IpBit(And32(cause, IP_MASK), l) <==> IpBit(cause, l)
  {
    IpMaskBits(8 + l);
  }

  lemma ExcCauseKeepsLine(cause: Word, exc: ExcNo, inSlot: bool, cop: CopNo, l: Line)
    ensures IpBit(ExcCauseWord(cause, exc, inSlot, cop), l) <==> IpBit(cause, l)
  {
    MaskedKeepsLine(cause, l);
    assert Pow2(6) == 64;
    HighBitsClear(4 * EXC_CODE[exc], 6, 8 + l);
    CopBits(cop, 8 + l);
  }

  lemma CopBits(cop: CopNo, i: nat)
    requires i < 27 || 29 <= i
    ensures !BitVal(cop * 0x800_0000, i)
  {
    assert Pow2(8) == 256 && Pow2(16) == TWO16 && Pow2(24) == 0x100_0000;
    ShlIsTimes(cop, 27);
    ShlBits(cop, 27, i);
    if 29 <= i {
      assert Pow2(2) == 4;
      HighBitsClear(cop, 2, i - 27);
    }
  }

  lemma HandleExcLines(c: Cpu)
    ensures LinesKept(c, HandleExc(c)) && HandleExc(c).status == c.status
  {
    CompleteLoadLines(c);
    var c1 := CompleteLoad(c);
    forall l: Line ensures IpBit(HandleExc(c).cp0[CAUSE], l) <==> IpBit(c1.cp0[CAUSE], l) {
      ExcCauseKeepsLine(c1.cp0[CAUSE], c1.excCause, c1.isBranchD, c1.copENum, l);
    }
  }

  lemma KeptIsTransitive(a: Cpu, b: Cpu, c: Cpu)
    requires LinesKept(a, b) && LinesKept(b, c)
    ensures LinesKept(a, c)
  {
  }

  lemma KeptStaysQuiet(a: Cpu, b: Cpu)
    requires LinesKept(a, b) && NoIp(a.cp0[CAUSE])
    ensures NoIp(b.cp0[CAUSE])
  {
    NoIpIsNoLine(a.cp0[CAUSE]);
    NoIpIsNoLine(b.cp0[CAUSE]);
  }

  lemma MapVirtualLines(c: Cpu, vaddr: Word, acc: Access)
    ensures MapVirtual(c, vaddr, acc).0.cp0[CAUSE] == c.cp0[CAUSE]
    ensures MapVirtual(c, vaddr, acc).0.status == c.status
  {
  }

  lemma LoadAfter(c: Cpu, c1: Cpu)
    requires c1.cp0[CAUSE] == c.cp0[CAUSE]
    ensures LinesKept(c, CompleteLoad(c1)) && CompleteLoad(c1).status == c1.status
  {
    CompleteLoadLines(c1);
  }

  lemma ExecCop0Lines(c: Cpu, op: Cop0Op)
    ensures LinesKept(c, ExecCop0(c, op))
    ensures ExecCop0(c, op).status == if op.Wait? && NoIp(c.cp0[CAUSE]) then Idle else c.status
  {
    match op
    case Rfe => LoadAfter(c, c.With(STATUS, PopKUIE(c.cp0[STATUS])));
    case Tlbp =>
      var p := ProbeTLB(c.tlb, c.cp0[ENTRYHI], c.cp0[ENTRYHI]);
      LoadAfter(c, c.With(INDEX, if p.Some? then p.value * 0x100 else SIGNMASK));
    case Tlbr => LoadAfter(c, ReadEntry(c, RndIdx(c.cp0[INDEX])));
    case Tlbwi => LoadAfter(c, WriteEntry(c, RndIdx(c.cp0[INDEX])));
    case Tlbwr => LoadAfter(c, WriteEntry(c, RndIdx(c.cp0[RANDOM])));
    case Wait => LoadAfter(c, Suspend(c));
    case _ => CompleteLoadLines(c);
  }

  lemma MemoryLines(c: Cpu, e: Instr)
    requires e.LoadMem? || e.StoreMem? || e.CompareSwap?
    ensures LinesKept(c, ExecBody(c, e).0) && ExecBody(c, e).0.status == c.status
  {
    if e.CompareSwap? {
      MapVirtualLines(c, e.vaddr, Write);
      var c1 := MapVirtual(c, e.vaddr, Write).0;
      LoadAfter(c, c1);
      LoadAfter(c, SignalExc(c1, DB_EXC, 0));
    } else {
      CompleteLoadLines(c);
      MapVirtualLines(CompleteLoad(c), e.vaddr, if e.LoadMem? then Read else Write);
    }
  }

  lemma ExecBodyLines(c: Cpu, e: Instr)
    ensures LinesKept(c, ExecBody(c, e).0)
    ensures ExecBody(c, e).0.status ==
      if e == Cop0(Wait) && Cp0Usable(c) && NoIp(c.cp0[CAUSE]) then Idle else c.status
  {
    match e
    case Plain(_, _) => CompleteLoadLines(c);
    case MulDiv(hi, lo) => LoadAfter(c, SetGpr(SetGpr(c, HI, hi), LO, lo));
    case Branch(_, _, early, _) => LoadAfter(c, if early then SetGpr(c, 31, Add32(c.currPC, 8)) else c);
    case Faulting(x, cop) => LoadAfter(c, SignalExc(c, x, cop));
    case Cop0(op) => ExecCop0Lines(c, op);
    case _ => MemoryLines(c, e);
  }

  /** Executing can put the processor to sleep, but only with no line pending. */
  lemma ExecuteLines(c: Cpu, e: Instr)
    ensures LinesKept(c, Execute(c, e))
    ensures Execute(c, e).status == c.status || (Execute(c, e).IsIdle() && NoIp(Execute(c, e).cp0[CAUSE]))
  {
    ExecBodyLines(c, Effective(c, e));
    var (c1, error) := ExecInstr(c, e);
    assert LinesKept(c, c1);
    HandleExcLines(c1);
    KeptIsTransitive(c, c1, HandleExc(c1));
    if c1.IsIdle() && NoIp(c.cp0[CAUSE]) {
      KeptStaysQuiet(c, c1);
      KeptStaysQuiet(c, Execute(c, e));
    }
  }

  lemma InterruptKeepsLines(c: Cpu)
    ensures LinesKept(c, Interrupt(c)) && Interrupt(c).status == c.status
  {
    var c1 := CheckForInt(c).0;
    forall l: Line ensures IpBit(c1.cp0[CAUSE], l) <==> IpBit(c.cp0[CAUSE], l) {
      MaskedKeepsLine(c.cp0[CAUSE], l);
    }
    HandleExcLines(c1);
  }

  lemma FetchLines(c: Cpu, word: Option<Word>)
    ensures LinesKept(c, Fetch(c, word)) && Fetch(c, word).status == c.status
  {
    hide HandleExc, MapVirtual;
    MapVirtualLines(c, c.currPC, Exec);
    var m := MapVirtual(c, c.currPC, Exec).0;
    HandleExcLines(m.(currInstr := NOP));
    HandleExcLines(SignalExc(m, IB_EXC, 0).(currInstr := NOP));
  }

  lemma FinishLines(c: Cpu, word: Option<Word>)
    ensures LinesKept(c, Finish(c, word)) && Finish(c, word).status == c.status
  {
    var s := Shift(c);
    InterruptKeepsLines(s);
    FetchLines(Interrupt(s), word);
    KeptIsTransitive(s, Interrupt(s), Fetch(Interrupt(s), word));
  }

  lemma CpuTimerLines(c: Cpu)
    ensures forall l: Line :: l != IL_CPUTIMER ==>
              (IpBit(CpuTimer(c).cp0[CAUSE], l) <==> IpBit(c.cp0[CAUSE], l))
    ensures IdleOk(c) ==> IdleOk(CpuTimer(c))
    ensures c.IsIdle() || CpuTimer(c).status == c.status
    ensures CpuTimer(c).IsHalted() <==> c.IsHalted()
  {
    DeassertIRQClears(c, IL_CPUTIMER);
  }
}
