/** The PC stack, branch delay slots, exceptions and interrupts of one processor over whole runs. */
module PreciseExceptions {
  import opened Words
  import opened Cpu
  import opened InterruptLines

  predicate IsVector(a: Word) { a == 0 || a == 0x80 || a == 0x1FC0_0100 || a == 0x1FC0_0180 }

  /** The PC stack between cycles: in sequence but for delay slots and for a nullified fetch. */
  ghost predicate PcOk(c: Cpu) {
    && c.succPC == Add32(c.nextPC, 4)
    && (c.isBranchD ==> c.currPC == Add32(c.prevPC, 4))
    && (!c.isBranchD ==> c.nextPC == Add32(c.currPC, 4) || (c.currInstr == NOP && IsVector(c.nextPC)))
  }

  /** Neither a branch nor a WAIT sits in a delay slot. */
  predicate Admissible(c: Cpu, e: Instr) {
    c.isBranchD ==> !Effective(c, e).Branch? && Effective(c, e) != Cop0(Wait)
  }

  datatype LineOp = Up(il: Line) | Down(il: Line)

  /** What happens to one processor: a cycle, with line changes its store causes, or a change from outside. */
  datatype CpuEvent =
    | Tick(e: Instr, mid: seq<LineOp>, word: Option<Word>)
    | Outside(op: LineOp)
    | Restarted(pc: Word, sp: Word, first: Word)
    | Stopped

  function SetLine(c: Cpu, op: LineOp): Cpu {
    match op
    case Up(il) => AssertIRQ(c, il)
    case Down(il) => DeassertIRQ(c, il)
  }

  function SetLines(c: Cpu, ops: seq<LineOp>): Cpu
    decreases |ops|
  {
    if ops == [] then c else SetLines(SetLine(c, ops[0]), ops[1..])
  }

  /** The processor at the moment it starts to execute. */
  predicate Executes(c: Cpu) { !c.IsHalted() && !CpuTimer(c).IsIdle() }

  function Executed(c: Cpu, e: Instr, mid: seq<LineOp>): Cpu {
    var c1 := Execute(CpuTimer(c), e);
    if c1.IsIdle() then c1 else SetLines(c1, mid)
  }

  function Step(c: Cpu, ev: CpuEvent): Cpu {
    match ev
    case Tick(e, mid, word) =>
      if !Executes(c) then (if c.IsHalted() then c else CpuTimer(c))
      else Finish(Executed(c, e, mid), word)
    case Outside(op) => SetLine(c, op)
    case Restarted(pc, sp, first) => Reset(c, pc, sp, first)
    case Stopped => Halt(c)
  }

  /** Without line changes of its own a step is one cycle of the emulator. */
  lemma CycleIsStep(c: Cpu, e: Instr, word: Option<Word>)
    ensures Step(c, Tick(e, [], word)) == Cycle(c, e, word)
  {
  }

  ghost predicate SamePcs(c: Cpu, d: Cpu) {
    && d.prevPC == c.prevPC && d.currPC == c.currPC && d.nextPC == c.nextPC && d.succPC == c.succPC
    && d.isBranchD == c.isBranchD && d.currInstr == c.currInstr
  }

  lemma {:induction false} SetLinesPcs(c: Cpu, ops: seq<LineOp>)
    ensures var d := SetLines(c, ops);
      && SamePcs(c, d)
      && d.cp0[EPC] == c.cp0[EPC] && d.cp0[STATUS] == c.cp0[STATUS]
      && (d.IsIdle() ==> c.IsIdle()) && d.load == c.load && d.gpr == c.gpr
    decreases |ops|
  {
    if ops != [] {
      SetLinesPcs(SetLine(c, ops[0]), ops[1..]);
    }
  }

  // ---- what an exception records ------------------------------------------------

  /** Where execution has to resume: the instruction itself, or the branch it follows. */
  function RestartPC(c: Cpu): Word { if c.isBranchD then c.prevPC else c.currPC }

  /** What CAUSE.ExcCode shows for each cause. */
  function CauseCode(exc: ExcNo): nat {
    if exc == MOD_EXC then 1
    else if exc == UTLBL_EXC || exc == TLBL_EXC then 2
    else if exc == UTLBS_EXC || exc == TLBS_EXC then 3
    else if exc == ADEL_EXC then 4
    else if exc == ADES_EXC then 5
    else if exc == DB_EXC then 6
    else if exc == IB_EXC then 7
    else if exc == SYS_EXC then 8
    else if exc == BP_EXC then 9
    else if exc == RI_EXC then 10
    else if exc == CPU_EXC then 11
    else if exc == OV_EXC then 12
    else 0
  }

  /** The code that kernels expect, by the header they are built with. */
  function HeaderCode(exc: ExcNo): nat {
    if exc == DB_EXC then 7 else if exc == IB_EXC then 6 else CauseCode(exc)
  }

  /** Where a handler starts, with STATUS.BEV set or not, for a TLB refill or anything else. */
  function HandlerAddress(bev: bool, refill: bool): Word {
    if bev then if refill then 0x1FC0_0100 else 0x1FC0_0180
    else if refill then 0 else 0x80
  }

  predicate IsRefill(exc: ExcNo) { exc == UTLBL_EXC || exc == UTLBS_EXC }

  /** STATUS once a load pending to it has completed. */
  function StatusSeen(c: Cpu): Word {
    if c.load.Cp0Load? && c.load.cp0reg == STATUS then And32(c.load.val, 0x1F40_FF3F) else c.cp0[STATUS]
  }

  /** Kernel mode with interrupts off, the two pairs of bits above shifted up from below, and the rest kept. */
  ghost predicate StatusPushed(before: Word, after: Word) {
    forall j: nat :: BitVal(after, j) <==> PushedAt(before, j)
  }

  predicate PushedAt(before: Word, j: nat) {
    if j < 2 then false else if j < 6 then BitVal(before, j - 2) else BitVal(before, j)
  }

  lemma FiveBits(w: Word, i: nat)
    requires i < 5
    ensures BitVal(w / 4 % 32, i) <==> BitVal(w, 2 + i)
  {
    assert BitVal(w, 2 + i) == BitVal(w / 4, i);
    assert Pow2(5) == 32;
    ModBits(w / 4, 5, i);
  }

  lemma ExcCodeIsCode(exc: ExcNo)
    ensures EXC_CODE[exc] == CauseCode(exc) < 32
  {
  }

  lemma ExcCauseNumber(cause: Word, exc: ExcNo, inSlot: bool, cop: CopNo)
    ensures ExcCauseWord(cause, exc, inSlot, cop) / 4 % 32 == CauseCode(exc)
  {
    var w := ExcCauseWord(cause, exc, inSlot, cop);
    hide ExcCauseWord;
    ExcCauseFields(cause, exc, inSlot, cop);
    ExcCodeIsCode(exc);
    assert Pow2(5) == 32;
    hide CauseCode, BitVal;
    forall i: nat | i < 5 ensures BitVal(w / 4 % 32, i) == BitVal(CauseCode(exc), i) { FiveBits(w, i); }
    SameBitsSameWord(w / 4 % 32, CauseCode(exc), 5);
  }

  /** The emulator's codes are the header's except for bus errors, whose two codes it exchanges. */
  lemma BusFaultCodes(cause: Word, exc: ExcNo, inSlot: bool, cop: CopNo)
    ensures ExcCauseWord(cause, exc, inSlot, cop) / 4 % 32 == HeaderCode(exc) <==> exc != DB_EXC && exc != IB_EXC
  {
    ExcCauseNumber(cause, exc, inSlot, cop);
    hide ExcCauseWord;
  }

  lemma ExcCauseFields(cause: Word, exc: ExcNo, inSlot: bool, cop: CopNo)
    ensures BitVal(ExcCauseWord(cause, exc, inSlot, cop), BD) <==> inSlot
    ensures forall i: nat | i < 5 ::
      BitVal(ExcCauseWord(cause, exc, inSlot, cop), 2 + i) <==> BitVal(EXC_CODE[exc], i)
  {
    var code := EXC_CODE[exc];
    IpMaskBits(BD);
    assert Pow2(6) == 64;
    HighBitsClear(4 * code, 6, BD);
    CopBits(cop, BD);
    forall i: nat | i < 5
      ensures BitVal(ExcCauseWord(cause, exc, inSlot, cop), 2 + i) <==> BitVal(code, i)
    {
      IpMaskBits(2 + i);
      CopBits(cop, 2 + i);
      ShlBits(code, 2, 2 + i);
      assert Shl(code, 2) == 4 * code;
    }
  }

  /** Bit `j` of CAUSE after an exception: the code, the lines as they are, the coprocessor's number, and the slot. */
  predicate CauseBit(cause: Word, exc: ExcNo, inSlot: bool, cop: CopNo, j: nat) {
    if 2 <= j < 7 then BitVal(CauseCode(exc), j - 2)
    else if 8 <= j < 16 then BitVal(cause, j)
    else if 27 <= j < 29 then exc == CPU_EXC && BitVal(cop, j - 27)
    else j == 31 && inSlot
  }

  lemma CodeBit(exc: ExcNo, j: nat)
    ensures BitVal(4 * EXC_CODE[exc], j) <==> 2 <= j < 7 && BitVal(CauseCode(exc), j - 2)
  {
    var code := CauseCode(exc);
    ExcCodeIsCode(exc);
    assert Pow2(5) == 32;
    ShlBits(code, 2, j);
    assert Shl(code, 2) == 4 * code;
    if j >= 7 { HighBitsClear(code, 5, j - 2); }
    hide CauseCode, BitVal;
  }

  lemma CopBit(cop: CopNo, j: nat)
    ensures BitVal(cop * 0x800_0000, j) <==> 27 <= j < 29 && BitVal(cop, j - 27)
  {
    assert Pow2(8) == 256 && Pow2(16) == TWO16 && Pow2(24) == 0x100_0000;
    assert Pow2(2) == 4;
    hide BitVal, Shl;
    ShlIsTimes(cop, 27);
    ShlBits(cop, 27, j);
    if j >= 29 { HighBitsClear(cop, 2, j - 27); }
  }

  /** CAUSE after an exception, bit by bit. */
  lemma CauseBits(cause: Word, exc: ExcNo, inSlot: bool, cop: CopNo, j: nat)
    ensures BitVal(ExcCauseWord(cause, exc, inSlot, cop), j) <==> CauseBit(cause, exc, inSlot, cop, j)
  {
    hide And32, Or32, SetBit32;
    IpMaskBits(j);
    CodeBit(exc, j);
    CopBit(cop, j);
    ExcCodeIsCode(exc);
    hide CauseCode, BitVal;
  }

  /** CAUSE.CE, bits 28 and 29, holds the coprocessor's number. */
  predicate CeReads(cause: Word, cop: CopNo) {
    (BitVal(cause, 28) <==> BitVal(cop, 0)) && (BitVal(cause, 29) <==> BitVal(cop, 1))
  }

  /** The number is put one bit too low, so the field is right for coprocessor 0 and for no other. */
  lemma CoprocessorField(cause: Word, inSlot: bool, cop: CopNo)
    ensures CeReads(ExcCauseWord(cause, CPU_EXC, inSlot, cop), cop) <==> cop == 0
    ensures cop == 1 ==> var w := ExcCauseWord(cause, CPU_EXC, inSlot, cop); !BitVal(w, 28) && !BitVal(w, 29)
  {
    assert Pow2(8) == 256 && Pow2(16) == TWO16 && Pow2(24) == 0x100_0000;
    ShlIsTimes(cop, 27);
    ShlBits(cop, 27, 28);
    CopBits(cop, 29);
    assert Pow2(6) == 64;
    var code := 4 * EXC_CODE[CPU_EXC];
    HighBitsClear(code, 6, 28);
    HighBitsClear(code, 6, 29);
    IpMaskBits(28);
    IpMaskBits(29);
    TwoBits(cop);
    hide BitVal, Pow2, Shl;
  }

  lemma TwoBits(cop: CopNo)
    ensures BitVal(cop, 0) <==> cop == 1 || cop == 3
    ensures BitVal(cop, 1) <==> cop == 2 || cop == 3
  {
  }

  /** The record an exception at `c` leaves in `d`: EPC, CAUSE.BD, CAUSE.ExcCode, and STATUS with its stack pushed. */
  ghost predicate Recorded(c: Cpu, d: Cpu, exc: ExcNo) {
    && d.cp0[EPC] == RestartPC(c)
    && (BitVal(d.cp0[CAUSE], 31) <==> c.isBranchD)
    && d.cp0[CAUSE] / 4 % 32 == CauseCode(exc)
    && StatusPushed(StatusSeen(c), d.cp0[STATUS])
    && !d.isBranchD
  }

  lemma PushedBit(before: Word, after: Word, j: nat)
    requires StatusPushed(before, after)
    ensures BitVal(after, j) <==> PushedAt(before, j)
  {
    hide BitVal;
  }

  lemma RecordedMode(c: Cpu, d: Cpu, exc: ExcNo)
    requires Recorded(c, d, exc)
    ensures !BitVal(d.cp0[STATUS], IEC) && !BitVal(d.cp0[STATUS], KUC)
    ensures BitVal(d.cp0[STATUS], 22) <==> BitVal(StatusSeen(c), 22)
    ensures d.cp0[EPC] == RestartPC(c) && !d.isBranchD
  {
    hide BitVal, StatusSeen, CauseCode, StatusPushed;
    PushedBit(StatusSeen(c), d.cp0[STATUS], IEC);
    PushedBit(StatusSeen(c), d.cp0[STATUS], KUC);
    PushedBit(StatusSeen(c), d.cp0[STATUS], 22);
  }

  lemma CompleteLoadPcs(c: Cpu)
    ensures SamePcs(c, CompleteLoad(c)) && CompleteLoad(c).excCause == c.excCause && CompleteLoad(c).load == NoLoad
    ensures CompleteLoad(c).cp0[STATUS] == StatusSeen(c)
  {
    hide And32, ResetBit32;
  }

  lemma PushAt(sr: Word, j: nat)
    ensures BitVal(PushKUIE(sr), j) <==> PushedAt(sr, j)
  {
  }

  lemma PushIs(sr: Word)
    ensures StatusPushed(sr, PushKUIE(sr))
  {
    hide BitVal, PushKUIE, PushedAt;
    forall j: nat ensures BitVal(PushKUIE(sr), j) <==> PushedAt(sr, j) { PushAt(sr, j); }
  }

  /** Where an exception goes. */
  ghost predicate Handles(c: Cpu, d: Cpu) {
    var v := HandlerAddress(BitVal(StatusSeen(c), 22), IsRefill(c.excCause));
    && d.nextPC == (if c.excCause == INT_EXC then v + 4 else v) && d.succPC == Add32(d.nextPC, 4)
    && d.currPC == (if c.excCause == INT_EXC then v else c.currPC)
    && d.prevPC == c.prevPC && d.currInstr == c.currInstr && d.load == NoLoad
  }

  lemma HandlerIsVector(bev: bool, refill: bool)
    ensures IsVector(HandlerAddress(bev, refill))
  {
  }

  lemma HandleExcRecords(c: Cpu)
    ensures Recorded(c, HandleExc(c), c.excCause) && Handles(c, HandleExc(c))
  {
    hide CompleteLoad, PushKUIE, ExcCauseWord, StatusSeen, StatusPushed, BitVal, CauseCode;
    CompleteLoadPcs(c);
    var c1 := CompleteLoad(c);
    PushIs(c1.cp0[STATUS]);
    ExcCauseFields(c1.cp0[CAUSE], c1.excCause, c1.isBranchD, c1.copENum);
    ExcCauseNumber(c1.cp0[CAUSE], c1.excCause, c1.isBranchD, c1.copENum);
  }

  lemma HandledCause(c: Cpu, j: nat)
    ensures BitVal(HandleExc(c).cp0[CAUSE], j) <==>
      CauseBit(CompleteLoad(c).cp0[CAUSE], c.excCause, c.isBranchD, c.copENum, j)
  {
    hide CompleteLoad, ExcCauseWord, PushKUIE, ExcVector, CauseBit, BitVal;
    CompleteLoadPcs(c);
    LoadKeepsCop(c);
    CauseBits(CompleteLoad(c).cp0[CAUSE], c.excCause, c.isBranchD, c.copENum, j);
  }

  lemma LoadKeepsCop(c: Cpu)
    ensures CompleteLoad(c).copENum == c.copENum
  {
    hide And32, ResetBit32;
  }

  lemma MapVirtualPcs(c: Cpu, vaddr: Word, acc: Access)
    ensures StatusSeen(MapVirtual(c, vaddr, acc).0) == StatusSeen(c)
    ensures SamePcs(c, MapVirtual(c, vaddr, acc).0)
    ensures MapVirtual(c, vaddr, acc).1.None? ==> MapVirtual(c, vaddr, acc).0.excCause > INT_EXC
    ensures MapVirtual(c, vaddr, acc).1.Some? ==> MapVirtual(c, vaddr, acc).0 == c
  {
  }

  /** Execution moves only succPC, and that only for a branch; a fault is never an interrupt. */
  lemma ExecBodyPcs(c: Cpu, e: Instr)
    ensures var (d, error) := ExecBody(c, e);
      && SamePcs(c, d.(succPC := c.succPC))
      && d.succPC == (if e.Branch? && e.taken then e.target else c.succPC)
      && (error ==> d.excCause > INT_EXC && !e.Branch?)
  {
    hide CompleteLoad, MapVirtual, HandleExc;
    match e
    case Plain(_, _) => CompleteLoadPcs(c);
    case MulDiv(hi, lo) => CompleteLoadPcs(SetGpr(SetGpr(c, HI, hi), LO, lo));
    case Branch(_, _, early, _) => CompleteLoadPcs(if early then SetGpr(c, 31, Add32(c.currPC, 8)) else c);
    case Faulting(x, cop) => CompleteLoadPcs(SignalExc(c, x, cop));
    case LoadMem(_, va, _) => CompleteLoadPcs(c); MapVirtualPcs(CompleteLoad(c), va, Read);
    case StoreMem(va, _) => CompleteLoadPcs(c); MapVirtualPcs(CompleteLoad(c), va, Write);
    case CompareSwap(_, va, _) =>
      MapVirtualPcs(c, va, Write);
      var c1 := MapVirtual(c, va, Write).0;
      CompleteLoadPcs(c1);
      CompleteLoadPcs(SignalExc(c1, DB_EXC, 0));
    case Cop0(op) => ExecCop0Pcs(c, op);
  }

  lemma ExecCop0Pcs(c: Cpu, op: Cop0Op)
    ensures SamePcs(c, ExecCop0(c, op))
  {
    hide CompleteLoad;
    match op
    case Rfe => CompleteLoadPcs(c.With(STATUS, PopKUIE(c.cp0[STATUS])));
    case Tlbp =>
      var p := ProbeTLB(c.tlb, c.cp0[ENTRYHI], c.cp0[ENTRYHI]);
      CompleteLoadPcs(c.With(INDEX, if p.Some? then p.value * 0x100 else SIGNMASK));
    case Tlbr => CompleteLoadPcs(ReadEntry(c, RndIdx(c.cp0[INDEX])));
    case Tlbwi => CompleteLoadPcs(WriteEntry(c, RndIdx(c.cp0[INDEX])));
    case Tlbwr => CompleteLoadPcs(WriteEntry(c, RndIdx(c.cp0[RANDOM])));
    case Wait => CompleteLoadPcs(Suspend(c));
    case _ => CompleteLoadPcs(c);
  }

  lemma SameStatusSeen(c: Cpu, d: Cpu)
    requires d.cp0[STATUS] == c.cp0[STATUS] && d.load == c.load
    ensures StatusSeen(d) == StatusSeen(c)
  {
  }

  lemma NothingSeen(c: Cpu)
    requires c.load == NoLoad
    ensures StatusSeen(c) == c.cp0[STATUS]
  {
  }

  lemma LoadedStatusSeen(c: Cpu)
    ensures StatusSeen(CompleteLoad(c)) == StatusSeen(c)
  {
    hide CompleteLoad, And32;
    CompleteLoadPcs(c);
  }

  /** A faulting instruction changes STATUS at most by completing the load before it. */
  lemma FaultStatus(c: Cpu, e: Instr)
    requires ExecBody(c, e).1
    ensures StatusSeen(ExecBody(c, e).0) == StatusSeen(c)
  {
    hide CompleteLoad, MapVirtual, StatusSeen;
    match e
    case Faulting(x, cop) => SameStatusSeen(c, SignalExc(c, x, cop)); LoadedStatusSeen(SignalExc(c, x, cop));
    case LoadMem(_, va, _) =>
      LoadedStatusSeen(c);
      MapVirtualPcs(CompleteLoad(c), va, Read);
      SameStatusSeen(MapVirtual(CompleteLoad(c), va, Read).0, SignalExc(MapVirtual(CompleteLoad(c), va, Read).0, DB_EXC, 0));
    case StoreMem(va, _) =>
      LoadedStatusSeen(c);
      MapVirtualPcs(CompleteLoad(c), va, Write);
      SameStatusSeen(MapVirtual(CompleteLoad(c), va, Write).0, SignalExc(MapVirtual(CompleteLoad(c), va, Write).0, DB_EXC, 0));
    case CompareSwap(_, va, _) =>
      MapVirtualPcs(c, va, Write);
      var m := MapVirtual(c, va, Write).0;
      LoadedStatusSeen(m);
      SameStatusSeen(m, SignalExc(m, DB_EXC, 0));
      LoadedStatusSeen(SignalExc(m, DB_EXC, 0));
    case Cop0(op) => SameStatusSeen(c, SignalExc(c, CPU_EXC, 0));
    case _ =>
  }

  /** Executing keeps a delay slot's link to its branch, and ends at most with a handler's address in nextPC. */
  lemma ExecutePcs(c: Cpu, e: Instr)
    requires PcOk(c) && Admissible(c, e)
    ensures var d := Execute(c, e); var error := ExecInstr(c, e).1; var cause := ExecInstr(c, e).0.excCause;
      && d.currPC == c.currPC && d.prevPC == c.prevPC && d.currInstr == c.currInstr
      && (error ==> Recorded(c, d, cause) && cause != INT_EXC && d.succPC == Add32(d.nextPC, 4)
                    && d.nextPC == HandlerAddress(BitVal(StatusSeen(c), 22), IsRefill(cause)))
      && (!error ==> && d.nextPC == c.nextPC
                     && (d.isBranchD <==> Effective(c, e).Branch?)
                     && (d.succPC == Add32(d.nextPC, 4) || d.isBranchD)
                     && (d.isBranchD ==> d.nextPC == Add32(d.currPC, 4)))
  {
    hide HandleExc, ExecBody, Recorded, HandlerAddress, StatusSeen, BitVal;
    ExecBodyPcs(c, Effective(c, e));
    var c1 := ExecInstr(c, e).0;
    HandleExcRecords(c1);
    if ExecInstr(c, e).1 {
      FaultStatus(c, Effective(c, e));
      RecordedOfSamePcs(c, c1, HandleExc(c1), c1.excCause);
    }
  }

  lemma ShiftPcs(c: Cpu)
    ensures var s := Shift(c);
      && s.prevPC == c.currPC && s.currPC == c.nextPC && s.nextPC == c.succPC && s.succPC == Add32(c.succPC, 4)
      && s.isBranchD == c.isBranchD && s.currInstr == c.currInstr
      && s.cp0[STATUS] == c.cp0[STATUS] && s.cp0[CAUSE] == c.cp0[CAUSE] && s.cp0[EPC] == c.cp0[EPC]
      && s.tlb == c.tlb && s.load == c.load && s.gpr == c.gpr
  {
  }

  /** Interrupts are on and some line is up that STATUS lets through. */
  ghost predicate Requested(c: Cpu) {
    BitVal(c.cp0[STATUS], 0) && exists l: Line :: IpBit(c.cp0[CAUSE], l) && IpBit(c.cp0[STATUS], l)
  }

  /** The masked test agrees with looking at the eight lines one by one. */
  lemma PendingIsRequested(c: Cpu)
    ensures IntPending(c) <==> Requested(c)
  {
    var cause, sr := c.cp0[CAUSE], c.cp0[STATUS];
    NoIpIsNoLine(And32(cause, sr));
    forall l: Line ensures IpBit(And32(cause, sr), l) <==> IpBit(cause, l) && IpBit(sr, l) { BothLines(cause, sr, l); }
    hide IpBit, BitVal;
  }

  lemma BothLines(a: Word, b: Word, l: Line)
    ensures IpBit(And32(a, b), l) <==> IpBit(a, l) && IpBit(b, l)
  {
    AndBits(a, b, 8 + l);
  }

  lemma InterruptPcs(c: Cpu)
    ensures IntPending(c) <==> Requested(c)
    ensures var d := Interrupt(c);
      if Requested(c) then
        && Recorded(c, d, INT_EXC) && d.currPC == HandlerAddress(BitVal(StatusSeen(c), 22), false)
        && d.nextPC == Add32(d.currPC, 4) && d.succPC == Add32(d.nextPC, 4)
      else d == c
  {
    hide HandleExc, Recorded, Requested, IntPending, StatusSeen, BitVal;
    PendingIsRequested(c);
    var c1 := CheckForInt(c).0;
    HandleExcRecords(c1);
    if IntPending(c) {
      SameStatusSeen(c, c1);
      RecordedOfSamePcs(c, c1, HandleExc(c1), INT_EXC);
    }
  }

  lemma RecordedOfSamePcs(c: Cpu, c1: Cpu, d: Cpu, exc: ExcNo)
    requires Recorded(c1, d, exc)
    requires RestartPC(c) == RestartPC(c1) && c.isBranchD == c1.isBranchD && StatusSeen(c) == StatusSeen(c1)
    ensures Recorded(c, d, exc)
  {
    hide StatusSeen, StatusPushed, CauseCode, BitVal;
  }

  /** Why a fetch fails: what translation signalled, or a bus error. */
  function FetchCause(c: Cpu): ExcNo {
    var (m, pa) := MapVirtual(c, c.currPC, Exec);
    if pa.None? then m.excCause else IB_EXC
  }

  /** A fetch either loads the word at currPC or nullifies the slot and vectors. */
  lemma FetchPcs(c: Cpu, word: Option<Word>)
    ensures var d := Fetch(c, word); var faulted := MapVirtual(c, c.currPC, Exec).1.None? || word.None?;
      && d.currPC == c.currPC && d.prevPC == c.prevPC && FetchCause(c) > INT_EXC
      && (faulted ==> && d.currInstr == NOP && d.succPC == Add32(d.nextPC, 4) && d.load == NoLoad
                      && d.nextPC == HandlerAddress(BitVal(StatusSeen(c), 22), IsRefill(FetchCause(c)))
                      && Recorded(c, d, FetchCause(c)))
      && (!faulted ==> d == c.(currInstr := word.value))
  {
    hide HandleExc, MapVirtual, Recorded, StatusSeen, BitVal, HandlerAddress;
    MapVirtualPcs(c, c.currPC, Exec);
    var m := MapVirtual(c, c.currPC, Exec).0;
    var c1 := m.(currInstr := NOP);
    var c2 := SignalExc(m, IB_EXC, 0).(currInstr := NOP);
    SameStatusSeen(m, c1);
    SameStatusSeen(m, c2);
    HandleExcRecords(c1);
    HandleExcRecords(c2);
    RecordedOfSamePcs(c, c1, HandleExc(c1), c1.excCause);
    RecordedOfSamePcs(c, c2, HandleExc(c2), c2.excCause);
  }

  lemma FinishKeepsPc(c: Cpu, word: Option<Word>)
    requires !c.IsIdle()
    requires c.isBranchD ==> c.nextPC == Add32(c.currPC, 4)
    requires !c.isBranchD ==> c.succPC == Add32(c.nextPC, 4)
    ensures PcOk(Finish(c, word))
  {
    hide HandleExc, MapVirtual, Fetch, Interrupt, Shift;
    ShiftPcs(c);
    InterruptPcs(Shift(c));
    FetchPcs(Interrupt(Shift(c)), word);
  }

  lemma TimerPcs(c: Cpu)
    ensures SamePcs(c, CpuTimer(c)) && (PcOk(c) ==> PcOk(CpuTimer(c)))
    ensures var d := CpuTimer(c);
      d.cp0[EPC] == c.cp0[EPC] && d.cp0[STATUS] == c.cp0[STATUS] && d.load == c.load && d.gpr == c.gpr
    ensures StatusSeen(CpuTimer(c)) == StatusSeen(c)
  {
    hide And32;
  }

  lemma TickKeepsPc(c1: Cpu, e: Instr, mid: seq<LineOp>, word: Option<Word>)
    requires PcOk(c1) && !c1.IsIdle() && Admissible(c1, e)
    ensures var c2 := Execute(c1, e);
      PcOk(Finish(if c2.IsIdle() then c2 else SetLines(c2, mid), word))
  {
    hide Execute, Finish, SetLines, Admissible;
    var c2 := Execute(c1, e);
    if c2.IsIdle() {
      IdleFinish(c2, word);
      WaitPcs(c1, e);
    } else {
      ExecutePcs(c1, e);
      SetLinesPcs(c2, mid);
      FinishKeepsPc(SetLines(c2, mid), word);
    }
  }

  /** The PC stack stays well formed through cycles, line changes and resets. */
  lemma StepKeepsPc(c: Cpu, ev: CpuEvent)
    requires PcOk(c)
    requires ev.Tick? && Executes(c) ==> Admissible(CpuTimer(c), ev.e)
    ensures PcOk(Step(c, ev))
  {
    hide Execute, Finish, SetLines, CpuTimer, Admissible;
    match ev
    case Tick(e, mid, word) =>
      TimerPcs(c);
      if Executes(c) { TickKeepsPc(CpuTimer(c), e, mid, word); }
    case Outside(op) => SetLinesPcs(c, [op]); OneLine(c, op);
    case Restarted(pc, sp, first) => ResetPcs(c, pc, sp, first);
    case Stopped =>
  }

  lemma OneLine(c: Cpu, op: LineOp)
    ensures SetLines(c, [op]) == SetLine(c, op)
  {
    assert [op][1..] == [];
  }

  lemma ResetPcs(c: Cpu, pc: Word, sp: Word, first: Word)
    ensures PcOk(Reset(c, pc, sp, first))
  {
  }

  lemma IdleFinish(c: Cpu, word: Option<Word>)
    requires c.IsIdle()
    ensures Finish(c, word) == c
  {
  }

  /** A processor that falls asleep has executed a WAIT outside a delay slot. */
  lemma WaitPcs(c: Cpu, e: Instr)
    requires PcOk(c) && Admissible(c, e) && !c.IsIdle() && Execute(c, e).IsIdle()
    ensures Effective(c, e) == Cop0(Wait) && !ExecInstr(c, e).1
    ensures PcOk(Execute(c, e))
  {
    hide HandleExc, ExecBody;
    ExecBodyLines(c, Effective(c, e));
    ExecBodyPcs(c, Effective(c, e));
    HandleExcLines(ExecInstr(c, e).0);
    if ExecInstr(c, e).1 {
      FaultStaysAwake(c, Effective(c, e));
    }
  }

  lemma FaultStaysAwake(c: Cpu, e: Instr)
    requires ExecBody(c, e).1
    ensures !(e == Cop0(Wait) && Cp0Usable(c))
  {
  }

  /** The floor is a constant of the machine. */
  lemma {:induction false} SetLinesFloor(c: Cpu, ops: seq<LineOp>)
    ensures SetLines(c, ops).tlbFloor == c.tlbFloor
    decreases |ops|
  {
    if ops != [] { SetLinesFloor(SetLine(c, ops[0]), ops[1..]); }
  }

  lemma CompleteLoadFloor(c: Cpu)
    ensures CompleteLoad(c).tlbFloor == c.tlbFloor
  {
  }

  lemma HandleExcFloor(c: Cpu)
    ensures HandleExc(c).tlbFloor == c.tlbFloor
  {
    hide CompleteLoad;
    CompleteLoadFloor(c);
  }

  lemma MapVirtualFloor(c: Cpu, vaddr: Word, acc: Access)
    ensures MapVirtual(c, vaddr, acc).0.tlbFloor == c.tlbFloor
  {
  }

  lemma ExecCop0Floor(c: Cpu, op: Cop0Op)
    ensures ExecCop0(c, op).tlbFloor == c.tlbFloor
  {
    hide CompleteLoad;
    match op
    case Rfe => CompleteLoadFloor(c.With(STATUS, PopKUIE(c.cp0[STATUS])));
    case Tlbp =>
      var p := ProbeTLB(c.tlb, c.cp0[ENTRYHI], c.cp0[ENTRYHI]);
      CompleteLoadFloor(c.With(INDEX, if p.Some? then p.value * 0x100 else SIGNMASK));
    case Tlbr => CompleteLoadFloor(ReadEntry(c, RndIdx(c.cp0[INDEX])));
    case Tlbwi => CompleteLoadFloor(WriteEntry(c, RndIdx(c.cp0[INDEX])));
    case Tlbwr => CompleteLoadFloor(WriteEntry(c, RndIdx(c.cp0[RANDOM])));
    case Wait => CompleteLoadFloor(Suspend(c));
    case _ => CompleteLoadFloor(c);
  }

  lemma ExecBodyFloor(c: Cpu, e: Instr)
    ensures ExecBody(c, e).0.tlbFloor == c.tlbFloor
  {
    hide CompleteLoad, MapVirtual, ExecCop0;
    match e
    case Plain(_, _) => CompleteLoadFloor(c);
    case MulDiv(hi, lo) => CompleteLoadFloor(SetGpr(SetGpr(c, HI, hi), LO, lo));
    case Branch(_, _, early, _) => CompleteLoadFloor(if early then SetGpr(c, 31, Add32(c.currPC, 8)) else c);
    case Faulting(x, cop) => CompleteLoadFloor(SignalExc(c, x, cop));
    case LoadMem(_, va, _) => CompleteLoadFloor(c); MapVirtualFloor(CompleteLoad(c), va, Read);
    case StoreMem(va, _) => CompleteLoadFloor(c); MapVirtualFloor(CompleteLoad(c), va, Write);
    case CompareSwap(_, va, _) =>
      MapVirtualFloor(c, va, Write);
      var c1 := MapVirtual(c, va, Write).0;
      CompleteLoadFloor(c1);
      CompleteLoadFloor(SignalExc(c1, DB_EXC, 0));
    case Cop0(op) => ExecCop0Floor(c, op);
  }

  lemma InterruptFloor(c: Cpu)
    ensures Interrupt(c).tlbFloor == c.tlbFloor
  {
    hide HandleExc;
    HandleExcFloor(CheckForInt(c).0);
  }

  lemma ExecuteFloor(c: Cpu, e: Instr, mid: seq<LineOp>)
    ensures BeforeFetch(c, e, mid).tlbFloor == c.tlbFloor
  {
    hide HandleExc, ExecBody, SetLines, Interrupt;
    var c1 := CpuTimer(c);
    ExecBodyFloor(c1, Effective(c1, e));
    HandleExcFloor(ExecInstr(c1, e).0);
    SetLinesFloor(Execute(c1, e), mid);
    InterruptFloor(Shift(Executed(c, e, mid)));
  }

  lemma FaultExecutes(c: Cpu, e: Instr)
    requires ExecInstr(c, e).1 && !c.IsIdle()
    ensures !Execute(c, e).IsIdle()
  {
    hide HandleExc, ExecBody;
    ExecBodyLines(c, Effective(c, e));
    FaultStaysAwake(c, Effective(c, e));
    HandleExcLines(ExecInstr(c, e).0);
  }

  // ---- whole runs -----------------------------------------------------------------

  ghost predicate AdmissibleRun(c: Cpu, evs: seq<CpuEvent>)
    decreases |evs|
  {
    evs == [] ||
    ((evs[0].Tick? && Executes(c) ==> Admissible(CpuTimer(c), evs[0].e)) && AdmissibleRun(Step(c, evs[0]), evs[1..]))
  }

  function RunCpu(c: Cpu, evs: seq<CpuEvent>): Cpu
    decreases |evs|
  {
    if evs == [] then c else RunCpu(Step(c, evs[0]), evs[1..])
  }

  lemma RunCpuOne(c: Cpu, ev: CpuEvent)
    ensures RunCpu(c, [ev]) == Step(c, ev)
    ensures AdmissibleRun(c, [ev]) <==> (ev.Tick? && Executes(c) ==> Admissible(CpuTimer(c), ev.e))
  {
    hide Step, Executes, Admissible;
    assert [ev][1..] == [];
  }

  /** Switched off, or with a well formed PC stack. */
  ghost predicate Standing(c: Cpu) { c.IsHalted() || PcOk(c) }

  lemma HaltedStays(c: Cpu, ev: CpuEvent)
    requires c.IsHalted() && !ev.Restarted?
    ensures Step(c, ev).IsHalted()
  {
  }

  /** From power-on, at every cycle boundary of every admissible run the PC stack is well formed. */
  lemma {:induction false} PcStackInRuns(c: Cpu, evs: seq<CpuEvent>)
    requires Standing(c) && AdmissibleRun(c, evs)
    ensures Standing(RunCpu(c, evs))
    decreases |evs|
  {
    if evs != [] {
      hide Step, PcOk, Reset, Executes, CpuTimer, Admissible;
      if !PcOk(c) {
        if evs[0].Restarted? {
          ResetSteps(c, evs[0]);
        } else {
          HaltedStays(c, evs[0]);
        }
      } else {
        StepKeepsPc(c, evs[0]);
      }
      PcStackInRuns(Step(c, evs[0]), evs[1..]);
    }
  }

  lemma ResetSteps(c: Cpu, ev: CpuEvent)
    requires ev.Restarted?
    ensures Step(c, ev) == Reset(c, ev.pc, ev.sp, ev.first) && PcOk(Step(c, ev))
  {
    ResetPcs(c, ev.pc, ev.sp, ev.first);
  }

  // ---- the three ways into a handler -------------------------------------------------

  /** The processor as it stands when the next instruction is about to be fetched. */
  function BeforeFetch(c: Cpu, e: Instr, mid: seq<LineOp>): Cpu { Interrupt(Shift(Executed(c, e, mid))) }

  predicate FetchMaps(c: Cpu) { MapVirtual(c, c.currPC, Exec).1.Some? }

  /** Every handler lies below this address; a TLB floor in the last handlers is possible, though not the default. */
  const VECTORS_END: Word := 0x2000_0000

  /** The page at currPC needs no translation, or its highest matching entry is valid. */
  predicate Mapped(c: Cpu) {
    c.currPC < c.tlbFloor ||
    var i := ProbeTLB(c.tlb, c.cp0[ENTRYHI], c.currPC);
    i.Some? && BitVal(c.tlb[i.value].lo, VBIT)
  }

  /** In kernel mode the fetch of a handler fails only for want of a valid entry, and never below the floor. */
  lemma VectorFetch(c: Cpu)
    requires IsVector(c.currPC) && !BitVal(c.cp0[STATUS], KUC)
    ensures FetchMaps(c) <==> Mapped(c)
    ensures c.tlbFloor >= VECTORS_END ==> Mapped(c)
  {
  }

  /** At the first instruction of the handler at `v`, fetched and not nullified. */
  ghost predicate AtHandler(d: Cpu, v: Word, first: Word) {
    d.currPC == v && d.nextPC == Add32(v, 4) && d.succPC == Add32(d.nextPC, 4) && d.currInstr == first
  }

  /**
   * An exception at `c` for `exc`: the first instruction of its handler, which STATUS.BEV and the cause choose,
   * runs exactly if the handler's page is mapped, with the exception recorded. Otherwise the fault of the handler's
   * own fetch has overwritten EPC with the handler's address.
   */
  ghost predicate Entered(c: Cpu, b: Cpu, d: Cpu, exc: ExcNo, first: Word) {
    var v := HandlerAddress(BitVal(StatusSeen(c), 22), IsRefill(exc));
    && b.currPC == v
    && (AtHandler(d, v, first) <==> Mapped(b))
    && (Mapped(b) ==> Recorded(c, d, exc))
    && (!Mapped(b) ==> d.cp0[EPC] == v && d.currInstr == NOP && d.currPC == v
                       && d.nextPC == HandlerAddress(BitVal(StatusSeen(c), 22), IsRefill(FetchCause(b))))
  }

  /** A faulting instruction: EPC names it, or its branch with BD set, and its handler runs next, if mapped. */
  lemma FaultIsPrecise(c: Cpu, e: Instr, first: Word)
    requires PcOk(c) && Executes(c) && Admissible(CpuTimer(c), e) && ExecInstr(CpuTimer(c), e).1
    ensures var b := BeforeFetch(c, e, []); var d := Step(c, Tick(e, [], Some(first)));
      && (c.tlbFloor >= VECTORS_END ==> Mapped(b))
      && Entered(c, b, d, ExecInstr(CpuTimer(c), e).0.excCause, first)
  {
    hide Execute, MapVirtual, ExecInstr, CpuTimer, HandleExc, Mapped, FetchMaps, Interrupt, Recorded, StatusSeen,
      BitVal, HandlerAddress, Entered, Shift, Admissible, PcOk;
    var exc, c1 := ExecInstr(CpuTimer(c), e).0.excCause, CpuTimer(c);
    TimerPcs(c);
    ExecutePcs(c1, e);
    RecordedOfSamePcs(c, c1, Execute(c1, e), exc);
    FaultExecutes(c1, e);
    FaultEnters(c1, e);
    SameRecord(c, Execute(c1, e), Shift(Execute(c1, e)), exc);
    ExecuteFloor(c, e, []);
    EntersHandler(c, Shift(Execute(c1, e)), exc, first);
  }

  lemma SameRecord(c: Cpu, d: Cpu, r: Cpu, exc: ExcNo)
    requires Recorded(c, d, exc) && r.isBranchD == d.isBranchD
    requires r.cp0[EPC] == d.cp0[EPC] && r.cp0[CAUSE] == d.cp0[CAUSE] && r.cp0[STATUS] == d.cp0[STATUS]
    ensures Recorded(c, r, exc)
  {
    hide StatusSeen, StatusPushed, CauseCode, BitVal;
  }

  /** What `b` recorded at `c` is still there when the fetch of the handler has worked, and lost when not. */
  lemma EntersHandler(c: Cpu, b: Cpu, exc: ExcNo, first: Word)
    requires Recorded(c, b, exc) && b.load == NoLoad
    requires b.currPC == HandlerAddress(BitVal(StatusSeen(c), 22), IsRefill(exc))
    requires b.nextPC == Add32(b.currPC, 4) && b.succPC == Add32(b.nextPC, 4)
    ensures b.tlbFloor >= VECTORS_END ==> Mapped(b)
    ensures Entered(c, b, Fetch(b, Some(first)), exc, first)
  {
    hide Fetch, Mapped, BitVal, CauseCode, StatusPushed;
    RecordedMode(c, b, exc);
    HandlerIsVector(BitVal(StatusSeen(c), 22), IsRefill(exc));
    FetchAtVector(b, first);
  }

  lemma ResetStatus()
    ensures BitVal(STATUSRESET, BEV) && !BitVal(STATUSRESET, KUC)
  {
    BytesUp(0x1040_0000, 14);
    BytesUp(0x10_4000, 6);
    assert BitVal(0x41, 0) && BitVal(0x104, 2) && BitVal(0x410, 4) && BitVal(0x1040, 6);
  }

  lemma SyscallVectors(c: Cpu)
    requires c.currInstr != NOP && c.load == NoLoad && BitVal(c.cp0[STATUS], BEV)
    ensures var e := Faulting(SYS_EXC, 0); var d := Execute(c, e);
      && ExecInstr(c, e).1 && d.nextPC == 0x1FC0_0180 && d.tlb == c.tlb && d.tlbFloor == c.tlbFloor && d.status == c.status
  {
    hide BitVal, CompleteLoad, PushKUIE, ExcCauseWord;
    NothingToComplete(SignalExc(c, SYS_EXC, 0));
  }

  lemma TimerTlb(c: Cpu)
    ensures var d := CpuTimer(c); d.tlb == c.tlb && d.tlbFloor == c.tlbFloor && d.load == c.load
    ensures c.status == Running ==> CpuTimer(c).status == Running
  {
    hide BitVal, SetBit32, ResetBit32;
  }

  /** No entry is valid, so nothing above the floor is mapped. */
  lemma NoEntryMapped(c: Cpu)
    requires c.currPC >= c.tlbFloor && forall i | 0 <= i < |c.tlb| :: c.tlb[i] == TLBEntry(0, 0)
    ensures !Mapped(c)
  {
    ZeroHasNoBit(VBIT);
    hide BitVal, Matches;
  }

  /** A floor just past the boot program. */
  const ODD_FLOOR: Word := 0x1FC0_0100

  /**
   * Such a configuration: the boot program's first instruction is a system call. The handler's own fetch asks
   * for a TLB entry that is not there, and EPC names the handler.
   */
  lemma FloorAmongVectors(c0: Cpu, sp: Word, w: Word, first: Word)
    requires c0.tlbFloor == ODD_FLOOR && w != NOP && forall i | 0 <= i < |c0.tlb| :: c0.tlb[i] == TLBEntry(0, 0)
    ensures var c, e := Reset(c0, 0x1FC0_0000, sp, w), Faulting(SYS_EXC, 0);
      && PcOk(c) && Executes(c) && Admissible(CpuTimer(c), e) && ExecInstr(CpuTimer(c), e).1
      && c.currPC == 0x1FC0_0000 && !c.isBranchD
      && !Mapped(BeforeFetch(c, e, [])) && Step(c, Tick(e, [], Some(first))).cp0[EPC] == 0x1FC0_0180
  {
    hide BitVal, CpuTimer, Execute, ExecInstr, Mapped, Step, Interrupt, PcOk, RandomAtReset;
    var c, e := Reset(c0, 0x1FC0_0000, sp, w), Faulting(SYS_EXC, 0);
    assert c.cp0[STATUS] == STATUSRESET;
    ResetStatus();
    ResetPcs(c0, 0x1FC0_0000, sp, w);
    TimerPcs(c);
    TimerTlb(c);
    SyscallVectors(CpuTimer(c));
    var d := Execute(CpuTimer(c), e);
    FaultEnters(CpuTimer(c), e);
    NoEntryMapped(Interrupt(Shift(d)));
    FaultIsPrecise(c, e, first);
  }

  /** After a fault no interrupt is taken before the handler. */
  lemma FaultEnters(c: Cpu, e: Instr)
    requires ExecInstr(c, e).1
    ensures var d := Execute(c, e); var s := Shift(d);
      && Interrupt(s) == s && s.currPC == d.nextPC && s.nextPC == d.succPC && s.succPC == Add32(s.nextPC, 4) && s.load == NoLoad
      && s.tlb == d.tlb && s.tlbFloor == d.tlbFloor
      && s.cp0[STATUS] == d.cp0[STATUS] && s.cp0[CAUSE] == d.cp0[CAUSE] && s.cp0[EPC] == d.cp0[EPC]
      && s.isBranchD == d.isBranchD
  {
    hide ExecInstr, HandleExc, BitVal, RandomNext, Interrupt, Recorded, Requested;
    var c1 := ExecInstr(c, e).0;
    HandleExcRecords(c1);
    RecordedMode(c1, HandleExc(c1), c1.excCause);
    RequestedNeedsEnable(Shift(HandleExc(c1)));
    InterruptPcs(Shift(HandleExc(c1)));
  }

  lemma RequestedNeedsEnable(c: Cpu)
    ensures Requested(c) ==> BitVal(c.cp0[STATUS], IEC)
  {
  }

  /** The fetch at a handler's address, in kernel mode. */
  lemma FetchAtVector(b: Cpu, first: Word)
    requires IsVector(b.currPC) && !BitVal(b.cp0[STATUS], KUC) && !b.isBranchD
    ensures b.tlbFloor >= VECTORS_END ==> Mapped(b)
    ensures Mapped(b) ==> Fetch(b, Some(first)) == b.(currInstr := first)
    ensures var d := Fetch(b, Some(first));
      !Mapped(b) ==> && d.cp0[EPC] == b.currPC && d.currPC == b.currPC && d.currInstr == NOP && !d.isBranchD
                     && d.nextPC == HandlerAddress(BitVal(StatusSeen(b), 22), IsRefill(FetchCause(b)))
  {
    hide HandleExc, Mapped, Fetch, BitVal, StatusSeen, HandlerAddress, StatusPushed, CauseCode;
    VectorFetch(b);
    FetchPcs(b, Some(first));
    hide MapVirtual;
  }

  /** What the next instruction is once one has executed without a fault. */
  lemma NextInstruction(c: Cpu, e: Instr, mid: seq<LineOp>)
    requires PcOk(c) && Executes(c) && Admissible(CpuTimer(c), e) && !ExecInstr(CpuTimer(c), e).1
    requires !Executed(c, e, mid).IsIdle()
    ensures var s := Shift(Executed(c, e, mid));
      && s.prevPC == c.currPC && s.currPC == c.nextPC
      && (s.isBranchD <==> Effective(CpuTimer(c), e).Branch?)
      && RestartPC(s) == if Effective(CpuTimer(c), e).Branch? then c.currPC else c.nextPC
  {
    hide Execute, ExecInstr, CpuTimer, SetLines, Effective;
    TimerPcs(c);
    ExecutePcs(CpuTimer(c), e);
    SetLinesPcs(Execute(CpuTimer(c), e), mid);
    ShiftPcs(Executed(c, e, mid));
  }

  /** A requested interrupt is taken at the next instruction's boundary and at once, its handler's page being mapped. */
  lemma InterruptIsPrecise(c: Cpu, e: Instr, mid: seq<LineOp>, first: Word)
    requires Executes(c) && !Executed(c, e, mid).IsIdle() && Requested(Shift(Executed(c, e, mid)))
    ensures var b := BeforeFetch(c, e, mid); var d := Step(c, Tick(e, mid, Some(first)));
      && (c.tlbFloor >= VECTORS_END ==> Mapped(b))
      && Entered(Shift(Executed(c, e, mid)), b, d, INT_EXC, first)
  {
    hide Execute, MapVirtual, CpuTimer, SetLines, Shift, Requested, HandleExc, Mapped, FetchMaps, Interrupt,
      Recorded, StatusSeen, BitVal, HandlerAddress, Entered;
    var s := Shift(Executed(c, e, mid));
    InterruptPcs(s);
    InterruptLoad(s);
    ExecuteFloor(c, e, mid);
    EntersHandler(s, Interrupt(s), INT_EXC, first);
  }

  lemma InterruptLoad(c: Cpu)
    requires Requested(c)
    ensures Interrupt(c).load == NoLoad
  {
    hide HandleExc, Recorded, Requested;
    PendingIsRequested(c);
    HandleExcRecords(CheckForInt(c).0);
  }

  /**
   * A failing fetch records the instruction that could not be fetched and why: a bus error if its address maps,
   * and otherwise the fault of its translation. It nullifies the slot and turns to the handler.
   */
  lemma FetchFaultIsPrecise(c: Cpu, e: Instr, mid: seq<LineOp>, word: Option<Word>)
    requires Executes(c) && !Executed(c, e, mid).IsIdle() && !Requested(Shift(Executed(c, e, mid)))
    requires word.None? || !FetchMaps(Shift(Executed(c, e, mid)))
    ensures var s := Shift(Executed(c, e, mid)); var d := Step(c, Tick(e, mid, word));
      var exc: ExcNo := if FetchMaps(s) then IB_EXC else MapVirtual(s, s.currPC, Exec).0.excCause;
      && Recorded(s, d, exc)
      && d.currInstr == NOP && d.load == NoLoad
      && d.nextPC == HandlerAddress(BitVal(StatusSeen(s), 22), IsRefill(exc)) && d.succPC == Add32(d.nextPC, 4)
  {
    hide Execute, MapVirtual, CpuTimer, SetLines, Shift, Requested, HandleExc, Recorded, StatusSeen, HandlerAddress, BitVal;
    var s := Shift(Executed(c, e, mid));
    InterruptPcs(s);
    FetchPcs(s, word);
  }

  /**
   * The cycle after a nullified fetch changes no register and moves to the handler the fetch chose, which runs
   * next if mapped; if not, EPC is lost.
   */
  lemma NullifiedThenHandler(d: Cpu, e: Instr, first: Word)
    requires PcOk(d) && Executes(d) && !d.IsIdle() && d.currInstr == NOP && IsVector(d.nextPC)
    requires !d.isBranchD && !BitVal(d.cp0[STATUS], IEC) && !BitVal(d.cp0[STATUS], KUC) && d.load == NoLoad
    ensures var b := BeforeFetch(d, e, []); var d1 := Step(d, Tick(e, [], Some(first)));
      && (d.tlbFloor >= VECTORS_END ==> Mapped(b))
      && (AtHandler(d1, d.nextPC, first) <==> Mapped(b))
      && d1.currPC == d.nextPC && !d1.isBranchD
      && (Mapped(b) ==> d1.cp0[EPC] == d.cp0[EPC] && d1.cp0[STATUS] == d.cp0[STATUS] && d1.gpr == d.gpr)
      && (!Mapped(b) ==> d1.cp0[EPC] == d.nextPC
                         && d1.nextPC == HandlerAddress(BitVal(d.cp0[STATUS], 22), IsRefill(FetchCause(b))))
  {
    hide Step, BeforeFetch, Fetch, Mapped, Requested, BitVal, HandlerAddress, StatusSeen, MapVirtual, CpuTimer;
    var b := BeforeFetch(d, e, []);
    NullifiedBefore(d, e, first);
    NothingSeen(b);
    HandlerIsVector(BitVal(d.cp0[STATUS], 22), IsRefill(FetchCause(b)));
    ExecuteFloor(d, e, []);
    FetchAtVector(b, first);
  }

  /** The nullified instruction does nothing, and no interrupt is taken after it. */
  lemma NullifiedBefore(d: Cpu, e: Instr, first: Word)
    requires Executes(d) && !d.IsIdle() && d.currInstr == NOP && d.load == NoLoad && !BitVal(d.cp0[STATUS], IEC)
    ensures var b := BeforeFetch(d, e, []);
      && Step(d, Tick(e, [], Some(first))) == Fetch(b, Some(first))
      && b.currPC == d.nextPC && b.nextPC == d.succPC && b.succPC == Add32(d.succPC, 4) && !b.isBranchD
      && b.cp0[EPC] == d.cp0[EPC] && b.cp0[STATUS] == d.cp0[STATUS] && b.load == NoLoad && b.gpr == d.gpr
  {
    hide Fetch, HandleExc, Requested, Interrupt, Shift, BitVal, StatusSeen, HandlerAddress, Recorded, CpuTimer;
    TimerPcs(d);
    NopExecutes(CpuTimer(d), e);
    var c2 := Execute(CpuTimer(d), e);
    TimerAwake(d);
    ShiftPcs(c2);
    InterruptPcs(Shift(c2));
    RequestedNeedsEnable(Shift(c2));
  }

  lemma TimerAwake(c: Cpu)
    requires !c.IsIdle()
    ensures !CpuTimer(c).IsIdle()
  {
  }

  lemma NopExecutes(c: Cpu, e: Instr)
    requires c.currInstr == NOP && c.load == NoLoad
    ensures Execute(c, e) == c.(isBranchD := false)
  {
    hide HandleExc;
    NothingToComplete(c);
  }

  // ---- running a branch again ---------------------------------------------------------

  /** A branch as its code reads: where it goes depends on two registers and its own address. */
  datatype BranchOp = BranchOp(dest: (Word, Word, Word) -> (bool, Word), rs: Reg, rt: Reg, linkEarly: bool, linkLate: Reg)

  /** An early link is written before the registers are read, which matters when one of them is the link. */
  function Linked(b: BranchOp, c: Cpu): Cpu {
    if b.linkEarly then SetGpr(c, 31, Add32(c.currPC, 8)) else c
  }

  function Outcome(b: BranchOp, c: Cpu): (bool, Word) {
    b.dest(Linked(b, c).gpr[b.rs], Linked(b, c).gpr[b.rt], c.currPC)
  }

  function At(b: BranchOp, c: Cpu): Instr {
    Branch(Outcome(b, c).0, Outcome(b, c).1, b.linkEarly, b.linkLate)
  }

  /** Where the stream goes after the delay slot. */
  function Goes(b: BranchOp, c: Cpu): Word {
    if Outcome(b, c).0 then Outcome(b, c).1 else c.succPC
  }

  /** The registers a branch changes: its link, and the target of the load it completes. */
  predicate Writes(c: Cpu, b: BranchOp, x: Reg) {
    x != 0 && ((b.linkEarly && x == 31) || x == b.linkLate || (c.load.GprLoad? && x == c.load.reg))
  }

  /** What the branch reads from `x` when it is run again may differ: it wrote `x`, and not before reading it. */
  predicate Clobbers(c: Cpu, b: BranchOp, x: Reg) { Writes(c, b, x) && !(b.linkEarly && x == 31) }

  lemma BranchGpr(c: Cpu, b: BranchOp)
    ensures var d := ExecBody(c, At(b, c)).0;
      && d.load == NoLoad && !ExecBody(c, At(b, c)).1
      && (forall x: Reg :: !Writes(c, b, x) ==> d.gpr[x] == c.gpr[x])
      && (b.linkLate != 0 ==> d.gpr[b.linkLate] == Add32(c.currPC, 8))
  {
    hide Add32;
    CompleteLoadGpr(if b.linkEarly then SetGpr(c, 31, Add32(c.currPC, 8)) else c);
    hide CompleteLoad;
  }

  lemma CompleteLoadGpr(c: Cpu)
    ensures var d := CompleteLoad(c);
      && d.load == NoLoad
      && d.gpr == if c.load.GprLoad? && c.load.reg != 0 then c.gpr[c.load.reg := c.load.val] else c.gpr
  {
  }

  lemma BranchEffect(c: Cpu, b: BranchOp)
    requires c.currInstr != NOP
    ensures var d := Execute(c, At(b, c));
      && SamePcs(c, d.(succPC := c.succPC, isBranchD := c.isBranchD)) && d.succPC == Goes(b, c) && d.isBranchD
      && d.load == NoLoad
      && (forall x: Reg :: !Writes(c, b, x) ==> d.gpr[x] == c.gpr[x])
      && (b.linkLate != 0 ==> d.gpr[b.linkLate] == Add32(c.currPC, 8))
  {
    hide ExecBody, HandleExc, Add32, Writes;
    BranchGpr(c, b);
    ExecBodyPcs(c, At(b, c));
  }

  lemma MapVirtualGpr(c: Cpu, vaddr: Word, acc: Access)
    ensures MapVirtual(c, vaddr, acc).0.gpr == c.gpr && MapVirtual(c, vaddr, acc).0.load == c.load
  {
    hide ProbeTLB, BitVal;
  }

  lemma NothingToComplete(c: Cpu)
    requires c.load == NoLoad
    ensures CompleteLoad(c) == c
  {
  }

  lemma FaultGpr(s: Cpu, e: Instr)
    requires s.load == NoLoad && ExecBody(s, e).1
    ensures ExecBody(s, e).0.gpr == s.gpr && ExecBody(s, e).0.load == NoLoad
  {
    hide ExecCop0, MapVirtual, CompleteLoad, SetGpr;
    NothingToComplete(s);
    match e
    case Faulting(x, cop) => NothingToComplete(SignalExc(s, x, cop));
    case LoadMem(_, va, _) => MapVirtualGpr(s, va, Read);
    case StoreMem(va, _) => MapVirtualGpr(s, va, Write);
    case CompareSwap(_, va, _) =>
      MapVirtualGpr(s, va, Write);
      var m := MapVirtual(s, va, Write).0;
      NothingToComplete(m);
      NothingToComplete(SignalExc(m, DB_EXC, 0));
    case _ =>
  }

  /** A fault in the slot changes no register, so the handler finds them as the branch left them. */
  lemma SlotFaultKeepsGpr(s: Cpu, e: Instr)
    requires s.load == NoLoad && ExecInstr(s, e).1
    ensures Execute(s, e).gpr == s.gpr
  {
    hide ExecBody, PushKUIE, ExcCauseWord, ExcVector, CompleteLoad;
    FaultGpr(s, Effective(s, e));
    CompleteLoadGpr(ExecInstr(s, e).0);
  }

  /**
   * Returning to EPC after a fault in a delay slot, with the registers the handler found, reaches the same
   * slot. The stream goes on as before unless the branch wrote a register after reading it.
   */
  lemma ResumeReplaysSlot(c: Cpu, r: Cpu, b: BranchOp)
    requires PcOk(c) && !c.isBranchD && c.nextPC == Add32(c.currPC, 4) && c.currInstr != NOP
    requires r.currPC == c.currPC && r.nextPC == Add32(r.currPC, 4) && r.succPC == Add32(r.nextPC, 4)
    requires !r.isBranchD && r.currInstr != NOP
    requires r.gpr == Execute(c, At(b, c)).gpr
    ensures var d, q := Shift(Execute(c, At(b, c))), Shift(Execute(r, At(b, r)));
      && d.isBranchD && RestartPC(d) == c.currPC
      && q.isBranchD && q.prevPC == d.prevPC && q.currPC == d.currPC
      && (q.nextPC == d.nextPC && q.succPC == d.succPC <==> Goes(b, r) == Goes(b, c))
      && (!Clobbers(c, b, b.rs) && !Clobbers(c, b, b.rt) ==> Goes(b, r) == Goes(b, c))
  {
    hide Execute;
    BranchEffect(c, b);
    BranchEffect(r, b);
    ShiftPcs(Execute(c, At(b, c)));
    ShiftPcs(Execute(r, At(b, r)));
  }

  function JumpAndLink(x: Reg): BranchOp { BranchOp((s, t, pc) => (true, s), x, 0, false, x) }

  /** A jump that links over the register it jumps through goes elsewhere when it is run again. */
  lemma LinkOverSource(c: Cpu, r: Cpu, x: Reg)
    requires x != 0 && c.currInstr != NOP && r.currPC == c.currPC
    requires r.gpr == Execute(c, At(JumpAndLink(x), c)).gpr
    ensures Goes(JumpAndLink(x), c) == c.gpr[x] && Goes(JumpAndLink(x), r) == Add32(c.currPC, 8)
  {
    BranchEffect(c, JumpAndLink(x));
  }

  // ---- KU/IE stack -----------------------------------------------------------------

  function Pushes(sr: Word, n: nat): Word { if n == 0 then sr else PushKUIE(Pushes(sr, n - 1)) }
  function Pops(sr: Word, n: nat): Word { if n == 0 then sr else PopKUIE(Pops(sr, n - 1)) }

  lemma PushBit(sr: Word, j: nat)
    requires j < 6
    ensures BitVal(PushKUIE(sr), j) <==> j >= 2 && BitVal(sr, j - 2)
  {
  }

  lemma PopBit(sr: Word, j: nat)
    requires j < 6
    ensures BitVal(PopKUIE(sr), j) <==> BitVal(sr, if j < 4 then j + 2 else j)
  {
  }

  lemma {:induction false} PushesBits(sr: Word, n: nat, j: nat)
    requires j < 6
    ensures BitVal(Pushes(sr, n), j) <==> j >= 2 * n && BitVal(sr, j - 2 * n)
  {
    hide PushKUIE, BitVal;
    if n > 0 {
      PushBit(Pushes(sr, n - 1), j);
      if j >= 2 { PushesBits(sr, n - 1, j - 2); }
    }
  }

  /** The top pair is never shifted out, so it is what deep pops bring down. */
  lemma {:induction false} PopsBits(sr: Word, n: nat, j: nat)
    requires j < 6
    ensures BitVal(Pops(sr, n), j) <==> BitVal(sr, if j + 2 * n < 6 then j + 2 * n else 4 + j % 2)
  {
    hide PopKUIE, BitVal;
    if n > 0 {
      PopBit(Pops(sr, n - 1), j);
      PopsBits(sr, n - 1, if j < 4 then j + 2 else j);
    }
  }

  /** n exceptions and n returns restore mode and interrupt enable for n up to 2, and beyond only if both were 0. */
  lemma NestingRestores(sr: Word, n: nat)
    ensures var r := Pops(Pushes(sr, n), n);
      (BitVal(r, IEC) == BitVal(sr, IEC) && BitVal(r, KUC) == BitVal(sr, KUC)) <==>
      n <= 2 || (!BitVal(sr, IEC) && !BitVal(sr, KUC))
  {
    hide Pushes, Pops, BitVal;
    var p := Pushes(sr, n);
    PopsBits(p, n, IEC);
    PopsBits(p, n, KUC);
    PushesBits(sr, n, if 2 * n < 6 then 2 * n else 4);
    PushesBits(sr, n, if 1 + 2 * n < 6 then 1 + 2 * n else 5);
  }
}
