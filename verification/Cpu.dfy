/** The state of one processor and what each of its operations does to it (processor.cc). */
module Cpu {
  import opened Words

  datatype Option<T> = None | Some(value: T)

  datatype ProcessorStatus = Halted | Running | Idle

  // Exception causes, in the emulator's internal coding.
  const NO_EXC := 0
  const INT_EXC := 1
  const MOD_EXC := 2
  const UTLBL_EXC := 3
  const TLBL_EXC := 4
  const UTLBS_EXC := 5
  const TLBS_EXC := 6
  const ADEL_EXC := 7
  const ADES_EXC := 8
  const DB_EXC := 9
  const IB_EXC := 10
  const SYS_EXC := 11
  const BP_EXC := 12
  const RI_EXC := 13
  const CPU_EXC := 14
  const OV_EXC := 15
  type ExcNo = x: nat | x <= 15
  type CopNo = x: nat | x < 4

  /** The CAUSE.ExcCode of each internal cause. */
  const EXC_CODE: seq<nat> := [0, 0, 1, 2, 2, 3, 3, 4, 5, 6, 7, 8, 9, 10, 11, 12]

  // Coprocessor 0 registers, as indices into the register array.
  const INDEX := 0
  const RANDOM := 1
  const ENTRYLO := 2
  const BADVADDR := 3
  const TIMER := 4
  const ENTRYHI := 5
  const STATUS := 6
  const CAUSE := 7
  const EPC := 8
  const PRID := 9
  type Cp0Reg = x: nat | x < 10

  const VPNMASK: Word := 0xFFFF_F000
  const ASIDMASK: Word := 0x0000_0FC0
  const ENTRYHIMASK: Word := 0xFFFF_FFC0
  const OFFSETMASK: Word := 0x0000_0FFF
  const ENTRYLOMASK: Word := 0xFFFF_FF00
  const STATUSMASK: Word := 0x1F40_FF3F
  const STATUSRESET: Word := 0x1040_0000
  const IP_MASK: Word := 0x0000_FF00
  const SIGNMASK: Word := 0x8000_0000

  const GBIT := 8
  const VBIT := 9
  const DBIT := 10
  const IEC := 0
  const KUC := 1
  const IEO := 4
  const KUO := 5
  const BEV := 22
  const TE := 27
  const CU0 := 28
  const BD := 31

  const IL_IPI := 0
  const IL_CPUTIMER := 1
  const IL_TIMER := 2
  type Line = x: nat | x < 8

  const NOP: Word := 0
  const BOOTEXCBASE: Word := 0x1FC0_0100
  const KSEG0BASE: Word := 0
  const KUSEGBASE: Word := 0x8000_0000
  const TLBREFOFFS: Word := 0
  const OTHEREXCOFFS: Word := 0x80

  datatype TLBEntry = TLBEntry(hi: Word, lo: Word)

  datatype Access = Read | Write | Exec

  type Reg = x: nat | x < 34

  // The two result registers of multiplication and division.
  const HI := 32
  const LO := 33

  /** A delayed load waiting to be written. */
  datatype Load = NoLoad | GprLoad(reg: Reg, val: Word) | Cp0Load(cp0reg: Cp0Reg, val: Word)

  type Gprs = s: seq<Word> | |s| == 34 witness seq(34, _ => 0)
  type Cp0s = s: seq<Word> | |s| == 10 witness seq(10, _ => 0)
  type TLB = s: seq<TLBEntry> | 4 <= |s| <= 64 witness seq(4, _ => TLBEntry(0, 0))

  datatype Cpu = Cpu(
    id: nat,
    status: ProcessorStatus,
    excCause: ExcNo,
    copENum: CopNo,
    isBranchD: bool,
    load: Load,
    gpr: Gprs,
    currInstr: Word,
    prevPC: Word,
    currPC: Word,
    nextPC: Word,
    succPC: Word,
    cp0: Cp0s,
    tlb: TLB,
    tlbFloor: Word)
  {
    predicate IsIdle() { status == Idle }
    predicate IsHalted() { status == Halted }

    predicate InUserMode() { BitVal(cp0[STATUS], KUC) }

    function With(r: Cp0Reg, w: Word): Cpu { this.(cp0 := cp0[r := w]) }
  }

  // ---- interrupt lines --------------------------------------------------

  function AssertIRQ(c: Cpu, il: Line): Cpu {
    var c1 := c.With(CAUSE, SetBit32(c.cp0[CAUSE], 8 + il));
    if c1.IsIdle() then c1.(status := Running) else c1
  }

  function DeassertIRQ(c: Cpu, il: Line): Cpu {
    c.With(CAUSE, ResetBit32(c.cp0[CAUSE], 8 + il))
  }

  predicate NoIp(cause: Word) { And32(cause, IP_MASK) == 0 }

  predicate IpBit(cause: Word, l: Line) { BitVal(cause, 8 + l) }

  lemma IpMaskBits(i: nat)
    ensures BitVal(IP_MASK, i) <==> 8 <= i < 16
  {
    FieldBits(8, 8, i);
    assert Shl(Pow2(8) - 1, 8) == IP_MASK;
  }

  /** The masked test of CAUSE agrees with looking at the eight lines one by one. */
  lemma NoIpIsNoLine(cause: Word)
    ensures NoIp(cause) <==> forall l: Line :: !IpBit(cause, l)
  {
    var m := And32(cause, IP_MASK);
    Pow2Is32();
    ZeroIffNoBit(m, 32);
    if NoIp(cause) {
      forall l: Line ensures !IpBit(cause, l) {
        IpMaskBits(8 + l);
        ZeroHasNoBit(8 + l);
      }
    } else {
      var i: nat :| i < 32 && BitVal(m, i);
      IpMaskBits(i);
      var l: Line := i - 8;
      assert IpBit(cause, l);
    }
  }

  // ---- TLB ---------------------------------------------------------------

  predicate VPNMatch(e: TLBEntry, vaddr: Word) { And32(e.hi, VPNMASK) == And32(vaddr, VPNMASK) }
  predicate ASIDMatch(e: TLBEntry, hi: Word) { And32(e.hi, ASIDMASK) == And32(hi, ASIDMASK) }
  predicate Matches(e: TLBEntry, hi: Word, vaddr: Word) {
    VPNMatch(e, vaddr) && (BitVal(e.lo, GBIT) || ASIDMatch(e, hi))
  }

  /** The highest matching entry. */
  function ProbeTLB(tlb: seq<TLBEntry>, hi: Word, vaddr: Word): (r: Option<nat>)
    ensures r.Some? ==> r.value < |tlb| && Matches(tlb[r.value], hi, vaddr)
    ensures forall j | 0 <= j < |tlb| && Matches(tlb[j], hi, vaddr) :: r.Some? && j <= r.value
  {
    if tlb == [] then None
    else if Matches(tlb[|tlb| - 1], hi, vaddr) then Some(|tlb| - 1)
    else ProbeTLB(tlb[..|tlb| - 1], hi, vaddr)
  }

  function SignalExc(c: Cpu, exc: ExcNo, cop: CopNo): Cpu {
    c.(excCause := exc, copENum := cop)
  }

  function SetTLBRegs(c: Cpu, vaddr: Word): Cpu {
    c.With(BADVADDR, vaddr)
     .With(ENTRYHI, Or32(And32(vaddr, VPNMASK), And32(c.cp0[ENTRYHI], ASIDMASK)))
  }

  function PhAddr(vaddr: Word, lo: Word): Word {
    Or32(And32(vaddr, OFFSETMASK), And32(lo, VPNMASK))
  }

  /** The translated address, or None with an exception signalled. */
  function MapVirtual(c: Cpu, vaddr: Word, acc: Access): (Cpu, Option<Word>) {
    if vaddr % 4 != 0 || (c.InUserMode() && vaddr < KUSEGBASE) then
      (SignalExc(c.With(BADVADDR, vaddr), if acc.Write? then ADES_EXC else ADEL_EXC, 0), None)
    else if vaddr < c.tlbFloor then
      (c, Some(vaddr))
    else
      match ProbeTLB(c.tlb, c.cp0[ENTRYHI], vaddr)
      case Some(i) =>
        if BitVal(c.tlb[i].lo, VBIT) then
          if !acc.Write? || BitVal(c.tlb[i].lo, DBIT) then
            (c, Some(PhAddr(vaddr, c.tlb[i].lo)))
          else
            (SignalExc(SetTLBRegs(c, vaddr), MOD_EXC, 0), None)
        else
          (SignalExc(SetTLBRegs(c, vaddr), if acc.Write? then TLBS_EXC else TLBL_EXC, 0), None)
      case None =>
        (SignalExc(SetTLBRegs(c, vaddr), if acc.Write? then UTLBS_EXC else UTLBL_EXC, 0), None)
  }

  function MaskedEntry(hi: Word, lo: Word): TLBEntry {
    TLBEntry(And32(hi, ENTRYHIMASK), And32(lo, ENTRYLOMASK))
  }

  /** The entry an INDEX or RANDOM value names. */
  function RndIdx(w: Word): nat { w % 0x8000_0000 / 0x100 }

  type TLBSize = n: nat | 4 <= n <= 64 witness 4

  /** `(tlbSize - 1) << 8`. */
  function IndexMask(n: TLBSize): Word { (n - 1) * 0x100 }

  function RandomNext(n: TLBSize, random: Word): Word {
    var r := And32(Sub32(random, 0x100), IndexMask(n));
    if r < 0x100 then IndexMask(n) else r
  }

  function RandomRegTick(c: Cpu): Cpu {
    c.With(RANDOM, RandomNext(|c.tlb|, c.cp0[RANDOM]))
  }

  function RandomAtReset(n: TLBSize): Word { (n - 2) * 0x100 }

  // ---- KU/IE stack ---------------------------------------------------------

  function CopyBit(w: Word, src: nat, dst: nat): (r: Word)
    requires dst < 32
    ensures forall j: nat :: BitVal(r, j) <==> if j == dst then BitVal(w, src) else BitVal(w, j)
  {
    if BitVal(w, src) then SetBit32(w, dst) else ResetBit32(w, dst)
  }

  /** Three pairs of bits shift up by one pair and the lowest pair is cleared. */
  function PushKUIE(sr: Word): (r: Word)
    ensures forall j: nat :: BitVal(r, j) <==> if j < 2 then false else if j < 6 then BitVal(sr, j - 2) else BitVal(sr, j)
  {
    var s5 := CopyBit(sr, 3, 5);
    var s4 := CopyBit(s5, 2, 4);
    var s3 := CopyBit(s4, 1, 3);
    var s2 := CopyBit(s3, 0, 2);
    ResetBit32(ResetBit32(s2, KUC), IEC)
  }

  /** The pairs shift down; the top pair stays. */
  function PopKUIE(sr: Word): (r: Word)
    ensures forall j: nat :: BitVal(r, j) <==> if j < 4 then BitVal(sr, j + 2) else BitVal(sr, j)
  {
    var s0 := CopyBit(sr, 2, 0);
    var s1 := CopyBit(s0, 3, 1);
    var s2 := CopyBit(s1, 4, 2);
    CopyBit(s2, 5, 3)
  }

  // ---- delayed loads and exceptions ------------------------------------------

  function CompleteLoad(c: Cpu): Cpu {
    match c.load
    case NoLoad => c
    case GprLoad(r, v) =>
      (if r != 0 then c.(gpr := c.gpr[r := v]) else c).(load := NoLoad)
    case Cp0Load(r, v) =>
      (if r == INDEX then
         c.With(INDEX, c.cp0[INDEX] / 0x8000_0000 * 0x8000_0000 + And32(v, IndexMask(|c.tlb|)))
       else if r == ENTRYLO then c.With(ENTRYLO, And32(v, ENTRYLOMASK))
       else if r == TIMER then DeassertIRQ(c.With(TIMER, v), IL_CPUTIMER)
       else if r == ENTRYHI then c.With(ENTRYHI, And32(v, ENTRYHIMASK))
       else if r == STATUS then c.With(STATUS, And32(v, STATUSMASK))
       else c).(load := NoLoad)
  }

  /** CAUSE at an exception: IP kept, the code, the delay-slot bit and the coprocessor number set. */
  function ExcCauseWord(cause: Word, exc: ExcNo, inSlot: bool, cop: CopNo): Word {
    var w0 := Or32(And32(cause, IP_MASK), 4 * EXC_CODE[exc]);
    var w1 := if inSlot then SetBit32(w0, BD) else w0;
    if exc == CPU_EXC then Or32(w1, cop * 0x800_0000) else w1
  }

  function ExcVector(sr: Word, exc: ExcNo): Word {
    (if BitVal(sr, BEV) then BOOTEXCBASE else KSEG0BASE) +
    (if exc == UTLBL_EXC || exc == UTLBS_EXC then TLBREFOFFS else OTHEREXCOFFS)
  }

  function HandleExc(c0: Cpu): Cpu {
    var c := CompleteLoad(c0);
    var v := ExcVector(c.cp0[STATUS], c.excCause);
    var c1 := c.With(CAUSE, ExcCauseWord(c.cp0[CAUSE], c.excCause, c.isBranchD, c.copENum))
               .With(EPC, if c.isBranchD then c.prevPC else c.currPC)
               .With(STATUS, PushKUIE(c.cp0[STATUS]))
               .(isBranchD := false);
    if c.excCause == INT_EXC then
      c1.(currPC := v, nextPC := v + 4, succPC := v + 8)
    else
      c1.(nextPC := v, succPC := v + 4)
  }

  predicate IntPending(c: Cpu) {
    BitVal(c.cp0[STATUS], IEC) && And32(And32(c.cp0[CAUSE], c.cp0[STATUS]), IP_MASK) != 0
  }

  function CheckForInt(c: Cpu): (Cpu, bool) {
    if IntPending(c) then
      (SignalExc(c, INT_EXC, 0).With(CAUSE, And32(c.cp0[CAUSE], IP_MASK)), true)
    else (c, false)
  }

  function Suspend(c: Cpu): Cpu {
    if NoIp(c.cp0[CAUSE]) then c.(status := Idle) else c
  }

  // ---- one instruction ---------------------------------------------------------

  datatype Cop0Op =
    | Rfe | Tlbp | Tlbr | Tlbwi | Tlbwr | Wait
    | Mfc0(src: Cp0Reg, rt: Reg) | Mtc0(dst: Cp0Reg, rt: Reg) | ZapTlb

  type Fault = x: nat | 2 <= x <= 15 witness 2

  /** What the current instruction does; results of plain arithmetic and of the bus are part of it. */
  datatype Instr =
    | Plain(rd: Reg, val: Word)
    | MulDiv(hi: Word, lo: Word)
    | Branch(taken: bool, target: Word, linkEarly: bool, linkLate: Reg)
    | Faulting(exc: Fault, cop: CopNo)
    | LoadMem(rt: Reg, vaddr: Word, data: Option<Word>)
    | StoreMem(vaddr: Word, ok: bool)
    | CompareSwap(rd: Reg, vaddr: Word, data: Option<Word>)
    | Cop0(op: Cop0Op)

  function SetGpr(c: Cpu, r: Reg, v: Word): Cpu {
    if r != 0 then c.(gpr := c.gpr[r := v]) else c
  }

  predicate Cp0Usable(c: Cpu) { BitVal(c.cp0[STATUS], CU0) || !BitVal(c.cp0[STATUS], KUC) }

  function ExecCop0(c: Cpu, op: Cop0Op): Cpu {
    match op
    case Rfe => CompleteLoad(c.With(STATUS, PopKUIE(c.cp0[STATUS])))
    case Tlbp =>
      CompleteLoad(match ProbeTLB(c.tlb, c.cp0[ENTRYHI], c.cp0[ENTRYHI])
                   case Some(i) => c.With(INDEX, i * 0x100)
                   case None => c.With(INDEX, SIGNMASK))
    case Tlbr => CompleteLoad(ReadEntry(c, RndIdx(c.cp0[INDEX])))
    case Tlbwi => CompleteLoad(WriteEntry(c, RndIdx(c.cp0[INDEX])))
    case Tlbwr => CompleteLoad(WriteEntry(c, RndIdx(c.cp0[RANDOM])))
    case Wait => CompleteLoad(Suspend(c))
    case Mfc0(r, rt) => var c1 := CompleteLoad(c); c1.(load := GprLoad(rt, c1.cp0[r]))
    case Mtc0(r, rt) => var c1 := CompleteLoad(c); c1.(load := Cp0Load(r, c1.gpr[rt]))
    case ZapTlb =>
      var c1 := CompleteLoad(c);
      c1.(tlb := [c1.tlb[0]] + seq(|c1.tlb| - 1, _ => TLBEntry(0, 0)))
  }

  /** An index past the last entry would be out of the array; IndexSafe shows it never arises. */
  function ReadEntry(c: Cpu, i: nat): Cpu {
    if i < |c.tlb| then c.With(ENTRYHI, c.tlb[i].hi).With(ENTRYLO, c.tlb[i].lo) else c
  }

  function WriteEntry(c: Cpu, i: nat): Cpu {
    if i < |c.tlb| then c.(tlb := c.tlb[i := MaskedEntry(c.cp0[ENTRYHI], c.cp0[ENTRYLO])]) else c
  }

  /** The instruction's effect up to, but without, the delay-slot flag; true when it faulted. */
  function ExecBody(c: Cpu, e: Instr): (Cpu, bool) {
    match e
    case Plain(rd, v) => (SetGpr(CompleteLoad(c), rd, v), false)
    case MulDiv(hi, lo) => (CompleteLoad(SetGpr(SetGpr(c, HI, hi), LO, lo)), false)
    case Branch(taken, target, early, late) =>
      var c1 := if early then SetGpr(c, 31, Add32(c.currPC, 8)) else c;
      var c2 := SetGpr(CompleteLoad(c1), late, Add32(c.currPC, 8));
      (if taken then c2.(succPC := target) else c2, false)
    case Faulting(x, cop) => (CompleteLoad(SignalExc(c, x, cop)), true)
    case LoadMem(rt, va, data) =>
      var (c1, pa) := MapVirtual(CompleteLoad(c), va, Read);
      if pa.None? then (c1, true)
      else if data.None? then (SignalExc(c1, DB_EXC, 0), true)
      else (c1.(load := GprLoad(rt, data.value)), false)
    case StoreMem(va, ok) =>
      var (c1, pa) := MapVirtual(CompleteLoad(c), va, Write);
      if pa.None? then (c1, true)
      else if !ok then (SignalExc(c1, DB_EXC, 0), true)
      else (c1, false)
    case CompareSwap(rd, va, data) =>
      var (c1, pa) := MapVirtual(c, va, Write);
      if pa.None? then (CompleteLoad(c1), true)
      else if data.None? then (CompleteLoad(SignalExc(c1, DB_EXC, 0)), true)
      else (SetGpr(CompleteLoad(c1), rd, data.value), false)
    case Cop0(op) =>
      if Cp0Usable(c) then (ExecCop0(c, op), false)
      else (SignalExc(c, CPU_EXC, 0), true)
  }

  /** A nullified fetch leaves a NOP, which executes as a plain instruction without a result. */
  function Effective(c: Cpu, e: Instr): Instr {
    if c.currInstr == NOP then Plain(0, 0) else e
  }

  function ExecInstr(c: Cpu, e0: Instr): (Cpu, bool) {
    var e := Effective(c, e0);
    var (c1, error) := ExecBody(c, e);
    (if error then c1 else c1.(isBranchD := e.Branch?), error)
  }

  // ---- one cycle ------------------------------------------------------------------

  /** The per-processor timer, which also runs while the processor is idle. */
  function CpuTimer(c: Cpu): Cpu {
    if BitVal(c.cp0[STATUS], TE) then
      var c1 := if c.cp0[TIMER] == 0 then AssertIRQ(c, IL_CPUTIMER) else c;
      c1.With(TIMER, Sub32(c1.cp0[TIMER], 1))
    else
      DeassertIRQ(c, IL_CPUTIMER)
  }

  function Execute(c: Cpu, e: Instr): Cpu {
    var (c1, error) := ExecInstr(c, e);
    if error then HandleExc(c1) else c1
  }

  function Shift(c: Cpu): Cpu {
    RandomRegTick(c.(prevPC := c.currPC, currPC := c.nextPC, nextPC := c.succPC, succPC := Add32(c.succPC, 4)))
  }

  function Interrupt(c: Cpu): Cpu {
    var (c1, pending) := CheckForInt(c);
    if pending then HandleExc(c1) else c1
  }

  /** `word` is what the bus answers at the translated address, None for a bus error. */
  function Fetch(c: Cpu, word: Option<Word>): Cpu {
    var (c1, pa) := MapVirtual(c, c.currPC, Exec);
    if pa.None? then HandleExc(c1.(currInstr := NOP))
    else if word.None? then HandleExc(SignalExc(c1, IB_EXC, 0).(currInstr := NOP))
    else c1.(currInstr := word.value)
  }

  /** The part of a cycle after execution. */
  function Finish(c: Cpu, word: Option<Word>): Cpu {
    if c.IsIdle() then c else Fetch(Interrupt(Shift(c)), word)
  }

  function Cycle(c: Cpu, e: Instr, word: Option<Word>): Cpu {
    if c.IsHalted() then c else
    var c1 := CpuTimer(c);
    if c1.IsIdle() then c1 else Finish(Execute(c1, e), word)
  }

  /** `word` is the first instruction, already fetched. */
  function Reset(c: Cpu, pc: Word, sp: Word, word: Word): Cpu {
    var zero := seq(10, _ => 0);
    c.(isBranchD := false, excCause := NO_EXC, copENum := 0, load := NoLoad,
       gpr := seq(34, _ => 0)[29 := sp], prevPC := MAX_WORD, currInstr := word,
       cp0 := zero[RANDOM := RandomAtReset(|c.tlb|)][STATUS := STATUSRESET][PRID := c.id % TWO32],
       currPC := pc, nextPC := Add32(pc, 4), succPC := Add32(pc, 8), status := Running)
  }

  function Halt(c: Cpu): Cpu { c.(status := Halted) }

  function IdleCycles(c: Cpu): Word {
    match c.status
    case Halted => MAX_WORD
    case Idle => if BitVal(c.cp0[STATUS], TE) then c.cp0[TIMER] else MAX_WORD
    case Running => 0
  }

  function Skip(c: Cpu, n: Word): Cpu {
    if BitVal(c.cp0[STATUS], TE) then c.With(TIMER, Sub32(c.cp0[TIMER], n)) else c
  }
}
