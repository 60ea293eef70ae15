/** Which instructions fault, with what cause, and what keeps user programs out of the kernel's addresses. */
module Faults {
  import opened Words
  import opened Cpu
  import opened PreciseExceptions
  import opened Translation

  predicate Accesses(e: Instr) { e.LoadMem? || e.StoreMem? || e.CompareSwap? }

  /** STATUS when the address is checked: compare-and-swap checks it before the load before it completes, others after. */
  function CheckedStatus(c: Cpu, e: Instr): Word { if e.CompareSwap? then c.cp0[STATUS] else StatusSeen(c) }

  /** Misaligned, or a user program's access to the kernel's half of the addresses. */
  predicate Forbidden(c: Cpu, e: Instr)
    requires Accesses(e)
  {
    e.vaddr % 4 != 0 || (BitVal(CheckedStatus(c, e), 1) && e.vaddr < 0x8000_0000)
  }

  predicate BusFails(e: Instr)
    requires Accesses(e)
  {
    match e
    case LoadMem(_, _, data) => data.None?
    case StoreMem(_, ok) => !ok
    case CompareSwap(_, _, data) => data.None?
  }

  function Translated(c: Cpu, e: Instr): (Cpu, Option<Word>)
    requires Accesses(e)
  {
    MapVirtual(if e.CompareSwap? then c else CompleteLoad(c), e.vaddr, if e.LoadMem? then Read else Write)
  }

  lemma TranslatedIs(c: Cpu, e: Instr)
    requires Accesses(e)
    ensures var c1 := if e.CompareSwap? then c else CompleteLoad(c);
      && c1.cp0[STATUS] == CheckedStatus(c, e) && c1.tlbFloor == c.tlbFloor && c1.cp0[BADVADDR] == c.cp0[BADVADDR]
      && (BadAddress(c1, e.vaddr) <==> Forbidden(c, e))
  {
    hide CompleteLoad, StatusSeen, BitVal;
    CompleteLoadPcs(c);
    CompleteLoadFloor(c);
    LoadKeepsAddress(c);
  }

  lemma LoadKeepsAddress(c: Cpu)
    ensures CompleteLoad(c).cp0[BADVADDR] == c.cp0[BADVADDR] && CompleteLoad(c).excCause == c.excCause
  {
    hide And32, ResetBit32;
  }

  /** An access faults if its translation does, and otherwise if the bus does. */
  lemma AccessCause(c: Cpu, e: Instr)
    requires Accesses(e)
    ensures var (m, p) := Translated(c, e); var (d, error) := ExecBody(c, e);
      && (error <==> p.None? || BusFails(e))
      && (error ==> d.excCause == (if p.None? then m.excCause else DB_EXC) && d.cp0[BADVADDR] == m.cp0[BADVADDR])
  {
    hide CompleteLoad, MapVirtual;
    if e.CompareSwap? {
      var m := MapVirtual(c, e.vaddr, Write).0;
      LoadKeepsAddress(m);
      LoadKeepsAddress(SignalExc(m, DB_EXC, 0));
    }
  }

  lemma HandlingKeepsAddress(c: Cpu)
    ensures HandleExc(c).cp0[BADVADDR] == c.cp0[BADVADDR]
  {
    hide CompleteLoad, PushKUIE, ExcCauseWord, ExcVector;
    LoadKeepsAddress(c);
  }

  /** A fault leaves its record, whatever instruction it is, and turns to its handler. */
  lemma FaultRecorded(c: Cpu, e: Instr)
    requires ExecInstr(c, e).1
    ensures var cause := ExecInstr(c, e).0.excCause; var d := Execute(c, e);
      && Recorded(c, d, cause) && d.nextPC == HandlerAddress(BitVal(StatusSeen(c), 22), IsRefill(cause))
      && d.cp0[BADVADDR] == ExecInstr(c, e).0.cp0[BADVADDR]
  {
    hide HandleExc, ExecBody, Recorded, StatusSeen, BitVal, HandlerAddress;
    var f := ExecInstr(c, e).0;
    ExecBodyPcs(c, Effective(c, e));
    FaultStatus(c, Effective(c, e));
    HandleExcRecords(f);
    RecordedOfSamePcs(c, f, HandleExc(f), f.excCause);
    HandlingKeepsAddress(f);
  }

  /**
   * A load, store or compare-and-swap at a misaligned address, or of a user program at the kernel's addresses,
   * is an address error, recorded with the address and handled as such. At any other address below the TLB floor
   * it faults exactly if the bus does.
   */
  lemma AccessFaults(c: Cpu, e: Instr)
    requires Accesses(e) && c.currInstr != NOP
    ensures var error := ExecInstr(c, e).1; var d := Execute(c, e);
      && (Forbidden(c, e) ==>
           && error && Recorded(c, d, if e.LoadMem? then ADEL_EXC else ADES_EXC)
           && d.cp0[BADVADDR] == e.vaddr && d.nextPC == HandlerAddress(BitVal(StatusSeen(c), 22), false))
      && (!Forbidden(c, e) && e.vaddr < c.tlbFloor ==>
           && (error <==> BusFails(e))
           && (error ==> && Recorded(c, d, DB_EXC) && d.cp0[BADVADDR] == c.cp0[BADVADDR]
                         && d.nextPC == HandlerAddress(BitVal(StatusSeen(c), 22), false)))
  {
    hide ExecBody, MapVirtual, CompleteLoad, HandleExc, Recorded, StatusSeen, BitVal, HandlerAddress, Execute, Forbidden, BadAddress;
    TranslatedIs(c, e);
    AddressFaults(if e.CompareSwap? then c else CompleteLoad(c), e.vaddr, if e.LoadMem? then Read else Write);
    AccessCause(c, e);
    if ExecInstr(c, e).1 { FaultRecorded(c, e); }
  }

  /** The other instructions: one that faults by itself, and coprocessor 0 out of a user program's reach. */
  lemma FaultCause(c: Cpu, e: Instr)
    requires c.currInstr != NOP && !Accesses(e)
    ensures var (d, error) := ExecInstr(c, e);
      && (error <==> e.Faulting? || (e.Cop0? && BitVal(c.cp0[STATUS], 1) && !BitVal(c.cp0[STATUS], 28)))
      && (e.Faulting? ==> d.excCause == e.exc && d.copENum == e.cop)
      && (error && e.Cop0? ==> d.excCause == CPU_EXC && d.copENum == 0)
  {
    hide CompleteLoad, ExecCop0, BitVal;
    if e.Faulting? { CauseKept(SignalExc(c, e.exc, e.cop)); }
  }

  lemma CauseKept(c: Cpu)
    ensures CompleteLoad(c).excCause == c.excCause && CompleteLoad(c).copENum == c.copENum
  {
    hide And32, ResetBit32;
  }
}
