/** The registers of coprocessor 0: what loads leave in them, the TLB operations, and how TIMER and RANDOM run. */
module ControlRegisters {
  import opened Words
  import opened Cpu
  import opened InterruptLines
  import opened PreciseExceptions
  import opened Translation
  import Nesting

  // ---- delayed loads -----------------------------------------------------------------------------

  /** The bits of INDEX that can be loaded, for a TLB of `n` entries. */
  predicate IndexBit(n: TLBSize, b: nat) { b >= 8 && BitVal(n - 1, b - 8) }

  /**
   * What a load to register `r` leaves in it: only the fields that can be loaded, for INDEX with the bit above them
   * as it was, and nothing new in the registers that cannot be loaded.
   */
  ghost predicate Landed(n: TLBSize, r: Cp0Reg, v: Word, before: Word, after: Word) {
    if r == ENTRYLO then after == v / 0x100 * 0x100
    else if r == ENTRYHI then after == v / 0x40 * 0x40
    else if r == STATUS then after == And32(v, 0x1F40_FF3F)
    else if r == TIMER then after == v
    else if r == INDEX then
      after / 0x8000_0000 == before / 0x8000_0000 && forall b: nat | b < 31 :: BitVal(after, b) <==> BitVal(v, b) && IndexBit(n, b)
    else after == before
  }

  lemma IndexMaskBit(n: TLBSize, b: nat)
    ensures BitVal(IndexMask(n), b) <==> IndexBit(n, b)
  {
    assert Pow2(8) == 0x100;
    ShlIsTimes(n - 1, 8);
    ShlBits(n - 1, 8, b);
  }

  lemma {:induction false} LowBitsOnly(q: nat, r: nat, z: nat, b: nat)
    requires r < Pow2(z) && b < z
    ensures BitVal(q * Pow2(z) + r, b) <==> BitVal(r, b)
    decreases z
  {
    DoubleTimes(q, Pow2(z - 1));
    if b > 0 {
      assert (q * Pow2(z) + r) / 2 == q * Pow2(z - 1) + r / 2;
      LowBitsOnly(q, r / 2, z - 1, b - 1);
    }
  }

  lemma Pow31()
    ensures Pow2(31) == 0x8000_0000
  {
    Pow2Is32();
  }

  lemma IndexLands(n: TLBSize, v: Word, before: Word)
    ensures var after := before / 0x8000_0000 * 0x8000_0000 + And32(v, IndexMask(n));
      after < TWO32 && Landed(n, INDEX, v, before, after)
  {
    var q, r: nat := before / 0x8000_0000, And32(v, IndexMask(n));
    assert r <= IndexMask(n) < 0x8000_0000;
    Pow31();
    forall b: nat | b < 31 ensures BitVal(q * 0x8000_0000 + r, b) <==> BitVal(v, b) && IndexBit(n, b) {
      LowBitsOnly(q, r, 31, b);
      AndBits(v, IndexMask(n), b);
      IndexMaskBit(n, b);
    }
    hide And32, BitVal, Pow2;
    assert (q * 0x8000_0000 + r) / 0x8000_0000 == q;
  }

  /** The register a load names gets what it can hold; a load to TIMER also lowers its line. Nothing else changes. */
  lemma LoadLands(c: Cpu)
    requires c.load.Cp0Load?
    ensures var d := CompleteLoad(c); var r := c.load.cp0reg;
      && Landed(|c.tlb|, r, c.load.val, c.cp0[r], d.cp0[r])
      && (forall x: Cp0Reg | x != r && x != CAUSE :: d.cp0[x] == c.cp0[x])
      && (forall b: nat :: BitVal(d.cp0[CAUSE], b) <==> BitVal(c.cp0[CAUSE], b) && !(r == TIMER && b == 9))
      && d == c.(cp0 := d.cp0, load := NoLoad)
  {
    hide And32, Landed;
    LoadedFields(c);
  }

  lemma LoadedFields(c: Cpu)
    requires c.load.Cp0Load?
    ensures var r := c.load.cp0reg; Landed(|c.tlb|, r, c.load.val, c.cp0[r], CompleteLoad(c).cp0[r])
  {
    hide And32, BitVal, ResetBit32;
    MaskedFields(c.load.val);
    if c.load.cp0reg == INDEX { IndexLands(|c.tlb|, c.load.val, c.cp0[INDEX]); }
  }

  // ---- moving to and from ------------------------------------------------------------------------------

  lemma MovesTo(c: Cpu, r: Cp0Reg, rt: Reg)
    requires c.currInstr != NOP && !ExecInstr(c, Cop0(Mtc0(r, rt))).1
    ensures Execute(c, Cop0(Mtc0(r, rt))) == CompleteLoad(c).(load := Cp0Load(r, CompleteLoad(c).gpr[rt]), isBranchD := false)
  {
    hide CompleteLoad, BitVal;
  }

  lemma MovesFrom(c: Cpu, r: Cp0Reg, rt: Reg)
    requires c.currInstr != NOP && !ExecInstr(c, Cop0(Mfc0(r, rt))).1
    ensures Execute(c, Cop0(Mfc0(r, rt))) == CompleteLoad(c).(load := GprLoad(rt, CompleteLoad(c).cp0[r]), isBranchD := false)
  {
    hide CompleteLoad, BitVal;
  }

  /**
   * MTC0 to a register and then MFC0 from it, between them anything that leaves processor and pending load alone,
   * delivers what the register can hold of the value moved, one instruction later.
   */
  lemma MoveToAndBack(c: Cpu, m: Cpu, l: Cpu, r: Cp0Reg, rs: Reg, rt: Reg)
    requires c.currInstr != NOP && m.currInstr != NOP && rt != 0 && r != CAUSE
    requires !ExecInstr(c, Cop0(Mtc0(r, rs))).1 && !ExecInstr(m, Cop0(Mfc0(r, rt))).1
    requires var d := Execute(c, Cop0(Mtc0(r, rs))); m.load == d.load && m.cp0 == d.cp0 && |m.tlb| == |d.tlb|
    requires l.load == Execute(m, Cop0(Mfc0(r, rt))).load
    ensures Landed(|CompleteLoad(c).tlb|, r, CompleteLoad(c).gpr[rs], CompleteLoad(c).cp0[r], CompleteLoad(l).gpr[rt])
  {
    hide Execute, ExecInstr, Landed;
    MovesTo(c, r, rs);
    MovesFrom(m, r, rt);
    LoadLands(m);
    CompleteLoadGpr(l);
    hide CompleteLoad;
  }

  // ---- TLB operations ---------------------------------------------------------------------------------------

  function Entry(c: Cpu): TLBEntry { TLBEntry(c.cp0[ENTRYHI] / 0x40 * 0x40, c.cp0[ENTRYLO] / 0x100 * 0x100) }

  lemma EntryIsMasked(c: Cpu)
    ensures MaskedEntry(c.cp0[ENTRYHI], c.cp0[ENTRYLO]) == Entry(c)
  {
    MaskedFields(c.cp0[ENTRYHI]);
    MaskedFields(c.cp0[ENTRYLO]);
    hide And32;
  }

  lemma LoadKeepsTlb(c: Cpu)
    ensures CompleteLoad(c).tlb == c.tlb
  {
    hide And32, ResetBit32;
  }

  /** TLBWI writes the entry INDEX names, TLBWR the one RANDOM names, TLBCLR all but the first; other entries stay. */
  lemma TlbWrites(c: Cpu)
    requires IndexSafe(c)
    ensures c.cp0[INDEX] % 0x8000_0000 / 0x100 < |c.tlb| && c.cp0[RANDOM] / 0x100 < |c.tlb|
    ensures ExecCop0(c, Tlbwi).tlb == c.tlb[c.cp0[INDEX] % 0x8000_0000 / 0x100 := Entry(c)]
    ensures ExecCop0(c, Tlbwr).tlb == c.tlb[c.cp0[RANDOM] / 0x100 := Entry(c)]
    ensures var t := ExecCop0(c, ZapTlb).tlb;
      |t| == |c.tlb| && t[0] == c.tlb[0] && forall i | 0 < i < |t| :: t[i] == TLBEntry(0, 0)
  {
    hide CompleteLoad, MaskedEntry;
    EntryIsMasked(c);
    LoadKeepsTlb(c);
    LoadKeepsTlb(WriteEntry(c, RndIdx(c.cp0[INDEX])));
    LoadKeepsTlb(WriteEntry(c, RndIdx(c.cp0[RANDOM])));
  }

  /** TLBR reads the entry INDEX names into the two registers and changes nothing else, no load being pending. */
  lemma TlbReads(c: Cpu)
    requires IndexSafe(c) && c.load == NoLoad
    ensures var i := c.cp0[INDEX] % 0x8000_0000 / 0x100;
      i < |c.tlb| && ExecCop0(c, Tlbr) == c.(cp0 := c.cp0[ENTRYHI := c.tlb[i].hi][ENTRYLO := c.tlb[i].lo])
  {
    hide CompleteLoad;
    NothingToComplete(ReadEntry(c, RndIdx(c.cp0[INDEX])));
  }

  // ---- TIMER and RANDOM through a step ------------------------------------------------------------------------

  predicate NoLoadTo(c: Cpu, r: Cp0Reg) { !(c.load.Cp0Load? && c.load.cp0reg == r) }

  /** RANDOM and the size of the TLB stay. */
  predicate Still(c: Cpu, d: Cpu) { d.cp0[RANDOM] == c.cp0[RANDOM] && |d.tlb| == |c.tlb| }

  /** Unless a load to TIMER is pending, so do TIMER and its line. */
  ghost predicate Kept(c: Cpu, d: Cpu) {
    && Still(c, d)
    && (NoLoadTo(c, TIMER) ==>
         && NoLoadTo(d, TIMER) && d.cp0[TIMER] == c.cp0[TIMER]
         && (IpBit(d.cp0[CAUSE], IL_CPUTIMER) <==> IpBit(c.cp0[CAUSE], IL_CPUTIMER)))
  }

  lemma KeptTwice(c: Cpu, m: Cpu, d: Cpu)
    requires Kept(c, m) && Kept(m, d)
    ensures Kept(c, d)
  {
  }

  lemma LoadKept(c: Cpu)
    ensures Kept(c, CompleteLoad(c))
  {
    hide And32, IpBit, ResetBit32;
  }

  lemma MapVirtualKept(c: Cpu, vaddr: Word, acc: Access)
    ensures Kept(c, MapVirtual(c, vaddr, acc).0)
  {
    hide And32, Or32, BitVal, ProbeTLB, IpBit;
  }

  lemma HandleExcKept(c: Cpu)
    ensures Kept(c, HandleExc(c))
  {
    hide CompleteLoad, ExcVector, PushKUIE, IpBit, ExcCauseWord;
    var c1 := CompleteLoad(c);
    LoadKept(c);
    CompleteLoadPcs(c);
    ExcCauseKeepsLine(c1.cp0[CAUSE], c1.excCause, c1.isBranchD, c1.copENum, IL_CPUTIMER);
  }

  /** A change that `d` keeps, and then the load completed. */
  lemma ThenLoadKept(c: Cpu, d: Cpu)
    requires Kept(c, d)
    ensures Kept(c, CompleteLoad(d))
  {
    hide Kept, CompleteLoad;
    LoadKept(d);
    KeptTwice(c, d, CompleteLoad(d));
  }

  lemma Cop0Kept(c: Cpu, op: Cop0Op)
    ensures Still(c, ExecCop0(c, op))
    ensures !(op.Mtc0? && op.dst == TIMER) ==> Kept(c, ExecCop0(c, op))
  {
    hide CompleteLoad, IpBit, RndIdx, ProbeTLB, PopKUIE, NoIp;
    match op
    case Rfe => ThenLoadKept(c, c.With(STATUS, PopKUIE(c.cp0[STATUS])));
    case Tlbp =>
      var p := ProbeTLB(c.tlb, c.cp0[ENTRYHI], c.cp0[ENTRYHI]);
      ThenLoadKept(c, c.With(INDEX, if p.Some? then p.value * 0x100 else SIGNMASK));
    case Tlbr => ThenLoadKept(c, ReadEntry(c, RndIdx(c.cp0[INDEX])));
    case Tlbwi => ThenLoadKept(c, WriteEntry(c, RndIdx(c.cp0[INDEX])));
    case Tlbwr => ThenLoadKept(c, WriteEntry(c, RndIdx(c.cp0[RANDOM])));
    case Wait => ThenLoadKept(c, Suspend(c));
    case _ => LoadKept(c);
  }

  lemma MemoryKept(c: Cpu, e: Instr)
    requires e.LoadMem? || e.StoreMem? || e.CompareSwap?
    ensures Kept(c, ExecBody(c, e).0)
  {
    hide CompleteLoad, MapVirtual, IpBit;
    if e.CompareSwap? {
      var m := MapVirtual(c, e.vaddr, Write).0;
      MapVirtualKept(c, e.vaddr, Write);
      ThenLoadKept(c, m);
      ThenLoadKept(c, SignalExc(m, DB_EXC, 0));
    } else {
      var acc := if e.LoadMem? then Read else Write;
      LoadKept(c);
      MapVirtualKept(CompleteLoad(c), e.vaddr, acc);
      KeptTwice(c, CompleteLoad(c), MapVirtual(CompleteLoad(c), e.vaddr, acc).0);
    }
  }

  lemma BodyKept(c: Cpu, e: Instr)
    ensures Still(c, ExecBody(c, e).0)
    ensures !(e.Cop0? && e.op.Mtc0? && e.op.dst == TIMER) ==> Kept(c, ExecBody(c, e).0)
  {
    hide CompleteLoad, ExecCop0, IpBit, MapVirtual;
    match e
    case Plain(_, _) => LoadKept(c);
    case MulDiv(hi, lo) => ThenLoadKept(c, SetGpr(SetGpr(c, HI, hi), LO, lo));
    case Branch(_, _, early, _) => ThenLoadKept(c, if early then SetGpr(c, 31, Add32(c.currPC, 8)) else c);
    case Faulting(x, cop) => ThenLoadKept(c, SignalExc(c, x, cop));
    case Cop0(op) => Cop0Kept(c, op);
    case _ => MemoryKept(c, e);
  }

  /** The instruction writes TIMER. */
  predicate WritesTimer(c: Cpu, e: Instr) {
    match Effective(c, e)
    case Cop0(Mtc0(dst, _)) => dst == TIMER
    case _ => false
  }

  lemma ExecuteKept(c: Cpu, e: Instr)
    ensures Still(c, Execute(c, e))
    ensures !WritesTimer(c, e) ==> Kept(c, Execute(c, e))
  {
    hide ExecBody, HandleExc, IpBit;
    BodyKept(c, Effective(c, e));
    HandleExcKept(ExecInstr(c, e).0);
  }

  lemma InterruptKept(c: Cpu)
    ensures Kept(c, Interrupt(c))
  {
    hide HandleExc, IpBit, And32;
    var c1 := CheckForInt(c).0;
    MaskedKeepsLine(c.cp0[CAUSE], IL_CPUTIMER);
    HandleExcKept(c1);
  }

  lemma FetchKept(c: Cpu, word: Option<Word>)
    ensures Kept(c, Fetch(c, word))
  {
    hide HandleExc, MapVirtual, IpBit;
    MapVirtualKept(c, c.currPC, Exec);
    var m := MapVirtual(c, c.currPC, Exec).0;
    HandleExcKept(m.(currInstr := NOP));
    HandleExcKept(SignalExc(m, IB_EXC, 0).(currInstr := NOP));
  }

  /** The end of a cycle: RANDOM moves once, TIMER and its line stay. */
  lemma FinishKept(c: Cpu, word: Option<Word>)
    ensures var d := Finish(c, word); var next := if c.IsIdle() then c.cp0[RANDOM] else RandomNext(|c.tlb|, c.cp0[RANDOM]);
      d.cp0[RANDOM] == next && Kept(c.With(RANDOM, next), d)
  {
    hide Fetch, Interrupt, IpBit, RandomNext;
    if !c.IsIdle() {
      var s := Shift(c);
      InterruptKept(s);
      FetchKept(Interrupt(s), word);
      KeptTwice(s, Interrupt(s), Fetch(Interrupt(s), word));
    }
  }

  predicate OtherLines(ops: seq<LineOp>) { forall i | 0 <= i < |ops| :: ops[i].il != IL_CPUTIMER }

  lemma OtherLineKept(c: Cpu, op: LineOp)
    ensures Still(c, SetLine(c, op))
    ensures op.il != IL_CPUTIMER ==> Kept(c, SetLine(c, op))
  {
    AssertIRQSets(c, op.il);
    DeassertIRQClears(c, op.il);
    hide IpBit, SetBit32, ResetBit32;
  }

  lemma {:induction false} OtherLinesKept(c: Cpu, ops: seq<LineOp>)
    ensures Still(c, SetLines(c, ops))
    ensures OtherLines(ops) ==> Kept(c, SetLines(c, ops))
    decreases |ops|
  {
    hide SetLine, IpBit;
    if ops != [] {
      OtherLineKept(c, ops[0]);
      OtherLinesKept(SetLine(c, ops[0]), ops[1..]);
    }
  }

  // ---- TIMER -----------------------------------------------------------------------------------------------

  /** The per-processor timer is on: STATUS.TE. */
  predicate TimerOn(c: Cpu) { BitVal(c.cp0[STATUS], 27) }

  predicate TimerLine(c: Cpu) { IpBit(c.cp0[CAUSE], 1) }

  /** One tick: down by one, the line up when it was 0, sleep ended by that; with the timer off the line goes down. */
  lemma TimerTicks(c: Cpu)
    ensures var d := CpuTimer(c);
      && d.cp0[TIMER] == (if TimerOn(c) then (c.cp0[TIMER] - 1) % TWO32 else c.cp0[TIMER])
      && (TimerLine(d) <==> TimerOn(c) && (TimerLine(c) || c.cp0[TIMER] == 0))
      && d.status == (if TimerOn(c) && c.cp0[TIMER] == 0 && c.IsIdle() then Running else c.status)
      && d == c.(cp0 := c.cp0[TIMER := d.cp0[TIMER]][CAUSE := d.cp0[CAUSE]], status := d.status)
  {
    AssertIRQSets(c, IL_CPUTIMER);
    DeassertIRQClears(c, IL_CPUTIMER);
    hide IpBit, BitVal, SetBit32, ResetBit32;
  }

  /** Exceptions and returns keep STATUS.TE. */
  lemma {:induction false} HighBitsKept(before: Word, ts: seq<Nesting.Turn>, after: Word, j: nat)
    requires Nesting.Follows(before, ts, after) && j >= 6
    ensures BitVal(after, j) <==> BitVal(before, j)
    decreases |ts|
  {
    hide BitVal, StatusPushed, Nesting.StatusPopped;
    if ts != [] {
      var sooner, last := ts[..|ts| - 1], ts[|ts| - 1];
      var m: Word :| Nesting.Follows(before, sooner, m) && Nesting.Turned(m, after, last);
      HighBitsKept(before, sooner, m, j);
      if last.Enter? { PushedBit(m, after, j); } else { Nesting.PoppedBit(m, after, j); }
    }
  }

  /** A step that leaves TIMER and STATUS to themselves, of a processor that stays on. */
  predicate Leaves(c: Cpu, ev: CpuEvent) {
    && Nesting.LeavesStatus(c, ev) && !ev.Stopped?
    && (ev.Outside? ==> ev.op.il != IL_CPUTIMER)
    && (ev.Tick? ==> OtherLines(ev.mid) && (Executes(c) ==> !WritesTimer(CpuTimer(c), ev.e)))
  }

  predicate Quiet(c: Cpu) { !c.IsHalted() && NoLoadTo(c, TIMER) && Nesting.NoStatusLoad(c) }

  lemma CycleKept(c: Cpu, ev: CpuEvent)
    requires ev.Tick? && Executes(c)
    ensures var c1 := CpuTimer(c);
      var next := if Executed(c, ev.e, ev.mid).IsIdle() then c1.cp0[RANDOM] else RandomNext(|c1.tlb|, c1.cp0[RANDOM]);
      && Still(c1.With(RANDOM, next), Step(c, ev))
      && (OtherLines(ev.mid) && !WritesTimer(c1, ev.e) ==> Kept(c1.With(RANDOM, next), Step(c, ev)))
  {
    hide Execute, Finish, SetLines, CpuTimer, IpBit, RandomNext, OtherLines, WritesTimer;
    var c1 := CpuTimer(c);
    ExecuteKept(c1, ev.e);
    OtherLinesKept(Execute(c1, ev.e), ev.mid);
    FinishKept(Executed(c, ev.e, ev.mid), ev.word);
  }

  lemma TickRuns(c: Cpu, ev: CpuEvent)
    requires Quiet(c) && Leaves(c, ev) && ev.Tick?
    ensures var d := Step(c, ev);
      && d.cp0[TIMER] == (if TimerOn(c) then (c.cp0[TIMER] - 1) % TWO32 else c.cp0[TIMER])
      && (TimerLine(d) <==> TimerOn(c) && (TimerLine(c) || c.cp0[TIMER] == 0))
      && NoLoadTo(d, TIMER)
  {
    hide CpuTimer, Step, RandomNext, IpBit, BitVal, WritesTimer;
    TimerTicks(c);
    if Executes(c) { CycleKept(c, ev); } else { SleepsOn(c, ev); }
  }

  lemma SleepsOn(c: Cpu, ev: CpuEvent)
    requires ev.Tick? && !Executes(c) && !c.IsHalted()
    ensures Step(c, ev) == CpuTimer(c)
  {
  }

  lemma {:induction false} SetLinesOn(c: Cpu, ops: seq<LineOp>)
    ensures SetLines(c, ops).IsHalted() <==> c.IsHalted()
    decreases |ops|
  {
    if ops != [] { SetLinesOn(SetLine(c, ops[0]), ops[1..]); }
  }

  lemma StaysOn(c: Cpu, ev: CpuEvent)
    requires !c.IsHalted() && !ev.Stopped?
    ensures !Step(c, ev).IsHalted()
  {
    hide Execute, Finish, CpuTimer, SetLines, Reset;
    CpuTimerLines(c);
    match ev
    case Tick(e, mid, word) =>
      if Executes(c) {
        ExecuteLines(CpuTimer(c), e);
        SetLinesOn(Execute(CpuTimer(c), e), mid);
        FinishLines(Executed(c, e, mid), word);
      }
    case Outside(op) => SetLinesOn(c, [op]); OneLine(c, op);
    case Restarted(pc, sp, first) => ResetRuns(c, pc, sp, first);
  }

  lemma ResetRuns(c: Cpu, pc: Word, sp: Word, first: Word)
    ensures Reset(c, pc, sp, first).status == Running
  {
  }

  lemma StepRuns(c: Cpu, ev: CpuEvent)
    requires Quiet(c) && Leaves(c, ev)
    ensures var d := Step(c, ev); var on := TimerOn(c);
      && Quiet(d) && (TimerOn(d) <==> on)
      && d.cp0[TIMER] == (if on && ev.Tick? then (c.cp0[TIMER] - 1) % TWO32 else c.cp0[TIMER])
      && (TimerLine(d) <==> if ev.Tick? then on && (TimerLine(c) || c.cp0[TIMER] == 0) else TimerLine(c))
  {
    hide Step, IpBit, BitVal, Nesting.Turns, Nesting.Follows, Nesting.WritesStatus, Executes;
    StaysOn(c, ev);
    Nesting.StepFollows(c, ev);
    HighBitsKept(c.cp0[STATUS], Nesting.Turns(c, ev), Step(c, ev).cp0[STATUS], 27);
    if ev.Tick? { TickRuns(c, ev); } else { OutsideStep(c, ev); OtherLineKept(c, ev.op); }
  }

  lemma OutsideStep(c: Cpu, ev: CpuEvent)
    requires ev.Outside?
    ensures Step(c, ev) == SetLine(c, ev.op)
  {
  }

  ghost predicate RunLeaves(c: Cpu, evs: seq<CpuEvent>)
    decreases |evs|
  {
    evs == [] || (Leaves(c, evs[0]) && RunLeaves(Step(c, evs[0]), evs[1..]))
  }

  function Ticks(evs: seq<CpuEvent>): nat {
    if evs == [] then 0 else (if evs[0].Tick? then 1 else 0) + Ticks(evs[1..])
  }

  /**
   * In every run that leaves TIMER and STATUS to themselves: with STATUS.TE set TIMER has gone down by one in every
   * cycle, sleeping or not, and its line is up once it was up or more cycles have passed than TIMER held; with TE
   * clear TIMER stays and the first cycle lowers the line.
   */
  lemma {:induction false} TimerInRuns(c: Cpu, evs: seq<CpuEvent>)
    requires Quiet(c) && RunLeaves(c, evs)
    ensures var d := RunCpu(c, evs); var k := Ticks(evs);
      && d.cp0[TIMER] == (if TimerOn(c) then (c.cp0[TIMER] - k) % TWO32 else c.cp0[TIMER])
      && (TimerLine(d) <==> if TimerOn(c) then TimerLine(c) || k > c.cp0[TIMER] else TimerLine(c) && k == 0)
    decreases |evs|
  {
    hide Step, Leaves, Quiet, TimerOn, TimerLine;
    if evs != [] {
      StepRuns(c, evs[0]);
      TimerInRuns(Step(c, evs[0]), evs[1..]);
    }
  }

  // ---- RANDOM ------------------------------------------------------------------------------------------------

  /** The processor gets through a whole cycle, and not asleep. */
  predicate Completes(c: Cpu, ev: CpuEvent) { ev.Tick? && Executes(c) && !Executed(c, ev.e, ev.mid).IsIdle() }

  function Completed(c: Cpu, evs: seq<CpuEvent>): nat
    decreases |evs|
  {
    if evs == [] then 0 else (if Completes(c, evs[0]) then 1 else 0) + Completed(Step(c, evs[0]), evs[1..])
  }

  /**
   * A tick takes one entry off and cuts to the bits of the index field; if none is left it goes to the top entry. The
   * other bits of RANDOM are 0.
   */
  lemma RandomTick(n: TLBSize, random: Word, b: nat)
    ensures var w: Word := (random - 0x100) % 0x1_0000_0000; var left := exists x: nat :: IndexBit(n, x) && BitVal(w, x);
      BitVal(RandomNext(n, random), b) <==> IndexBit(n, b) && (left ==> BitVal(w, b))
  {
    var w := Sub32(random, 0x100);
    var r := And32(w, IndexMask(n));
    AndBits(w, IndexMask(n), b);
    IndexMaskBit(n, b);
    LeftIff(n, w);
    hide And32, BitVal;
  }

  lemma LeftIff(n: TLBSize, w: Word)
    ensures And32(w, IndexMask(n)) < 0x100 <==> !exists x: nat :: IndexBit(n, x) && BitVal(w, x)
  {
    var r := And32(w, IndexMask(n));
    Pow2Is32();
    assert Pow2(8) == 0x100;
    forall x: nat ensures BitVal(r, x) <==> IndexBit(n, x) && BitVal(w, x) {
      AndBits(w, IndexMask(n), x);
      IndexMaskBit(n, x);
    }
    hide And32, IndexMask, BitVal, Pow2;
    if r < 0x100 {
      forall x: nat ensures !(IndexBit(n, x) && BitVal(w, x)) { if x >= 8 { HighBitsClear(r, 8, x); } }
    } else {
      ZeroIffNoBit(r, 32);
      var x: nat :| x < 32 && BitVal(r, x);
    }
  }

  lemma StepRandom(c: Cpu, ev: CpuEvent)
    requires !ev.Restarted?
    ensures var d := Step(c, ev);
      && |d.tlb| == |c.tlb|
      && d.cp0[RANDOM] == if Completes(c, ev) then RandomNext(|c.tlb|, c.cp0[RANDOM]) else c.cp0[RANDOM]
  {
    hide CpuTimer, Execute, Finish, SetLines, RandomNext, Executed, SetLine;
    TimerTicks(c);
    match ev
    case Tick(_, _, _) => if Executes(c) { CycleKept(c, ev); }
    case Outside(op) => OtherLineKept(c, op);
    case Stopped =>
  }

  /**
   * From a reset on RANDOM has ticked once in every cycle the processor got through awake, faults and interrupts
   * included, and in no other, so it goes through the entries as RandomCycles says.
   */
  lemma {:induction false} RandomInRuns(c: Cpu, evs: seq<CpuEvent>, k: nat)
    requires c.cp0[RANDOM] == RandomAfter(|c.tlb|, k) && forall i | 0 <= i < |evs| :: !evs[i].Restarted?
    ensures var d := RunCpu(c, evs); |d.tlb| == |c.tlb| && d.cp0[RANDOM] == RandomAfter(|c.tlb|, k + Completed(c, evs))
    decreases |evs|
  {
    hide Step, Completes, RandomNext;
    if evs != [] {
      StepRandom(c, evs[0]);
      var k1 := if Completes(c, evs[0]) then k + 1 else k;
      assert RandomAfter(|c.tlb|, k + 1) == RandomNext(|c.tlb|, RandomAfter(|c.tlb|, k));
      RandomInRuns(Step(c, evs[0]), evs[1..], k1);
    }
  }

  /** A reset is where that starts. */
  lemma ResetRandom(c: Cpu, pc: Word, sp: Word, first: Word)
    ensures var d := Reset(c, pc, sp, first);
      d.cp0[RANDOM] == RandomAfter(|d.tlb|, 0) && RndIdx(d.cp0[RANDOM]) == |c.tlb| - 2
  {
  }

  // ---- reset and halt ------------------------------------------------------------------------------------------

  /**
   * After a reset the processor runs from `pc`, in the kernel with interrupts off, coprocessor 0 usable and the handlers
   * of the bootstrap, its stack pointer set and everything else 0 but RANDOM and its number; the TLB is as before.
   */
  lemma ResetState(c: Cpu, pc: Word, sp: Word, first: Word)
    ensures var d := Reset(c, pc, sp, first);
      && d.status == Running && d.load == NoLoad && !d.isBranchD && d.currInstr == first
      && d.currPC == pc && d.nextPC == (pc + 4) % TWO32 && d.succPC == (pc + 8) % TWO32
      && (forall x: Reg :: d.gpr[x] == if x == 29 then sp else 0)
      && (forall x: Cp0Reg :: d.cp0[x] ==
           if x == RANDOM then (|c.tlb| - 2) * 0x100 else if x == STATUS then 0x1040_0000 else if x == PRID then c.id % TWO32 else 0)
      && d.tlb == c.tlb && d.tlbFloor == c.tlbFloor && d.id == c.id
      && (forall b: nat :: BitVal(d.cp0[STATUS], b) <==> b == 22 || b == 28)
  {
    forall b: nat ensures BitVal(0x1040_0000, b) <==> b == 22 || b == 28 { TwoBitsSet(b); }
    hide BitVal;
  }

  lemma TwoBitsSet(b: nat)
    ensures BitVal(0x1040_0000, b) <==> b == 22 || b == 28
  {
    assert 0x1040_0000 == 0x41 * 0x40_0000;
    assert Pow2(8) == 256 && Pow2(16) == TWO16 && Pow2(22) == 0x40_0000;
    ShlIsTimes(0x41, 22);
    ShlBits(0x41, 22, b);
    if b >= 22 { SixtyFive(b - 22); }
  }

  lemma SixtyFive(i: nat)
    ensures BitVal(0x41, i) <==> i == 0 || i == 6
  {
    assert Pow2(7) == 128;
    if i >= 7 { HighBitsClear(0x41, 7, i); }
  }

  /** A processor switched off does nothing, whatever happens around it, until it is reset. */
  lemma {:induction false} OffUntilReset(c: Cpu, evs: seq<CpuEvent>)
    requires c.IsHalted() && forall i | 0 <= i < |evs| :: !evs[i].Restarted?
    ensures var d := RunCpu(c, evs);
      && d.IsHalted() && d.gpr == c.gpr && d.tlb == c.tlb && d.load == c.load && SamePcs(c, d)
      && forall x: Cp0Reg | x != CAUSE :: d.cp0[x] == c.cp0[x]
    decreases |evs|
  {
    if evs != [] {
      OffStep(c, evs[0]);
      hide Step;
      OffUntilReset(Step(c, evs[0]), evs[1..]);
    }
  }

  lemma OffStep(c: Cpu, ev: CpuEvent)
    requires c.IsHalted() && !ev.Restarted?
    ensures var d := Step(c, ev);
      && d.IsHalted() && d.gpr == c.gpr && d.tlb == c.tlb && d.load == c.load && SamePcs(c, d)
      && forall x: Cp0Reg | x != CAUSE :: d.cp0[x] == c.cp0[x]
  {
    hide Finish, CpuTimer, Executed, SetBit32, ResetBit32;
  }

  lemma StopSwitchesOff(c: Cpu)
    ensures Step(c, Stopped).IsHalted() && Step(c, Stopped) == c.(status := Step(c, Stopped).status)
  {
  }
}
