/** Exceptions and returns over runs of a processor: what becomes of mode and interrupt enable. */
module Nesting {
  import opened Words
  import opened Cpu
  import opened InterruptLines
  import opened PreciseExceptions

  // ---- the entries and returns of a run ---------------------------------------------------------

  datatype Turn = Enter | Leave

  function ExecTurns(c: Cpu, e: Instr): seq<Turn> {
    if ExecInstr(c, e).1 then [Enter] else if Effective(c, e) == Cop0(Rfe) then [Leave] else []
  }

  ghost function InterruptTurns(c: Cpu): seq<Turn> { if Requested(c) then [Enter] else [] }

  function FetchTurns(c: Cpu, word: Option<Word>): seq<Turn> { if FetchMaps(c) && word.Some? then [] else [Enter] }

  /** What a cycle does after its instruction. */
  ghost function FinishTurns(c: Cpu, word: Option<Word>): seq<Turn> {
    if c.IsIdle() then [] else InterruptTurns(Shift(c)) + FetchTurns(Interrupt(Shift(c)), word)
  }

  /** The exceptions a step takes and the returns it makes, in order; one cycle may hold three. */
  ghost function Turns(c: Cpu, ev: CpuEvent): seq<Turn> {
    if ev.Tick? && Executes(c) then ExecTurns(CpuTimer(c), ev.e) + FinishTurns(Executed(c, ev.e, ev.mid), ev.word) else []
  }

  ghost function AllTurns(c: Cpu, evs: seq<CpuEvent>): seq<Turn>
    decreases |evs|
  {
    if evs == [] then [] else Turns(c, evs[0]) + AllTurns(Step(c, evs[0]), evs[1..])
  }

  function Level(ts: seq<Turn>): int {
    if ts == [] then 0 else Level(ts[..|ts| - 1]) + if ts[|ts| - 1].Enter? then 1 else -1
  }

  /** How deep the exceptions nest. */
  function Depth(ts: seq<Turn>): int {
    if ts == [] then 0 else if Level(ts) > Depth(ts[..|ts| - 1]) then Level(ts) else Depth(ts[..|ts| - 1])
  }

  /** No return without its exception before it. */
  predicate WellNested(ts: seq<Turn>) {
    ts == [] || (WellNested(ts[..|ts| - 1]) && Level(ts) >= 0)
  }

  // ---- the three pairs of bits ---------------------------------------------------------------------

  /** STATUS after a return: each of the lower two pairs from the one above, the rest kept. */
  ghost predicate StatusPopped(before: Word, after: Word) {
    forall j: nat :: BitVal(after, j) <==> PoppedAt(before, j)
  }

  predicate PoppedAt(before: Word, j: nat) { if j < 4 then BitVal(before, j + 2) else BitVal(before, j) }

  ghost predicate Turned(before: Word, after: Word, t: Turn) {
    if t.Enter? then StatusPushed(before, after) else StatusPopped(before, after)
  }

  /**
   * Between exceptions: with at most two nested so far the pair that was current lies under as many zero pairs
   * as are open, and with more all three pairs are zero. The rest is as it was.
   */
  ghost predicate Stacked(first: Word, now: Word, level: int, depth: int) {
    && 0 <= level <= depth
    && (forall j: nat | j >= 6 :: BitVal(now, j) <==> BitVal(first, j))
    && (depth <= 2 ==>
         && (forall j: nat | j < 2 * level :: !BitVal(now, j))
         && (forall i: nat | i < 2 :: BitVal(now, 2 * level + i) <==> BitVal(first, i)))
    && (depth > 2 ==> forall j: nat | j < 6 :: !BitVal(now, j))
  }

  lemma PoppedBit(before: Word, after: Word, j: nat)
    requires StatusPopped(before, after)
    ensures BitVal(after, j) <==> PoppedAt(before, j)
  {
    hide BitVal;
  }

  lemma StackedUnder(first: Word, now: Word, level: int, depth: int, j: nat)
    requires Stacked(first, now, level, depth)
    ensures j >= 6 ==> (BitVal(now, j) <==> BitVal(first, j))
    ensures depth <= 2 && j < 2 * level ==> !BitVal(now, j)
    ensures depth <= 2 && 2 * level <= j < 2 * level + 2 ==> (BitVal(now, j) <==> BitVal(first, j - 2 * level))
    ensures depth > 2 && j < 6 ==> !BitVal(now, j)
  {
    hide BitVal;
    if depth <= 2 && 2 * level <= j < 2 * level + 2 {
      var i: nat := j - 2 * level;
      assert BitVal(now, 2 * level + i) <==> BitVal(first, i);
    }
  }

  lemma EnterStacks(first: Word, now: Word, after: Word, level: int, depth: int)
    requires Stacked(first, now, level, depth) && StatusPushed(now, after)
    ensures Stacked(first, after, level + 1, if level + 1 > depth then level + 1 else depth)
  {
    hide BitVal, StatusPushed, Stacked;
    Levels(first, now, level, depth);
    var l, d := level + 1, if level + 1 > depth then level + 1 else depth;
    forall j: nat ensures Holds(first, after, l, d, j) {
      PushedBit(now, after, j);
      StackedUnder(first, now, level, depth, j);
      if j >= 2 { StackedUnder(first, now, level, depth, j - 2); }
    }
    HoldsStacked(first, after, l, d);
  }

  lemma LeaveStacks(first: Word, now: Word, after: Word, level: int, depth: int)
    requires Stacked(first, now, level, depth) && StatusPopped(now, after) && level > 0
    ensures Stacked(first, after, level - 1, depth)
  {
    hide BitVal, StatusPopped, Stacked;
    Levels(first, now, level, depth);
    var l := level - 1;
    forall j: nat ensures Holds(first, after, l, depth, j) {
      PoppedBit(now, after, j);
      StackedUnder(first, now, level, depth, j);
      StackedUnder(first, now, level, depth, j + 2);
    }
    HoldsStacked(first, after, l, depth);
  }

  lemma Levels(first: Word, now: Word, level: int, depth: int)
    requires Stacked(first, now, level, depth)
    ensures 0 <= level <= depth
  {
  }

  /** What Stacked says of one bit. */
  ghost predicate Holds(first: Word, now: Word, level: int, depth: int, j: nat) {
    && (j >= 6 ==> (BitVal(now, j) <==> BitVal(first, j)))
    && (depth <= 2 && j < 2 * level ==> !BitVal(now, j))
    && (depth <= 2 && 2 * level <= j < 2 * level + 2 ==> (BitVal(now, j) <==> BitVal(first, j - 2 * level)))
    && (depth > 2 && j < 6 ==> !BitVal(now, j))
  }

  lemma HoldsStacked(first: Word, now: Word, level: int, depth: int)
    requires 0 <= level <= depth && forall j: nat :: Holds(first, now, level, depth, j)
    ensures Stacked(first, now, level, depth)
  {
    hide BitVal, Holds;
    forall j: nat | j >= 6 ensures BitVal(now, j) <==> BitVal(first, j) { HoldsAt(first, now, level, depth, j); }
    if depth <= 2 {
      forall j: nat | j < 2 * level ensures !BitVal(now, j) { HoldsAt(first, now, level, depth, j); }
      forall i: nat | i < 2 ensures BitVal(now, 2 * level + i) <==> BitVal(first, i) {
        HoldsAt(first, now, level, depth, 2 * level + i);
      }
    } else {
      forall j: nat | j < 6 ensures !BitVal(now, j) { HoldsAt(first, now, level, depth, j); }
    }
  }

  lemma HoldsAt(first: Word, now: Word, level: int, depth: int, j: nat)
    requires Holds(first, now, level, depth, j)
    ensures j >= 6 ==> (BitVal(now, j) <==> BitVal(first, j))
    ensures depth <= 2 && j < 2 * level ==> !BitVal(now, j)
    ensures depth <= 2 && 2 * level <= j < 2 * level + 2 ==> (BitVal(now, j) <==> BitVal(first, j - 2 * level))
    ensures depth > 2 && j < 6 ==> !BitVal(now, j)
  {
  }

  // ---- what each part of a step does to STATUS ----------------------------------------------------------

  /** No load to STATUS is pending. */
  predicate NoStatusLoad(c: Cpu) { !(c.load.Cp0Load? && c.load.cp0reg == STATUS) }

  /** Follows the turns `ts` from the word `before` to the word `after`. */
  ghost predicate Follows(before: Word, ts: seq<Turn>, after: Word) {
    if ts == [] then after == before
    else
      var sooner, last := ts[..|ts| - 1], ts[|ts| - 1];
      exists m: Word :: Follows(before, sooner, m) && Turned(m, after, last)
  }

  lemma FollowsNone(w: Word)
    ensures Follows(w, [], w)
  {
  }

  lemma FollowsOne(before: Word, t: Turn, after: Word)
    requires Turned(before, after, t)
    ensures Follows(before, [t], after)
  {
    hide Turned;
    assert [t][..0] == [] && Follows(before, [t][..0], before);
  }

  lemma {:induction false} FollowsAppend(a: Word, xs: seq<Turn>, b: Word, ys: seq<Turn>, c: Word)
    requires Follows(a, xs, b) && Follows(b, ys, c)
    ensures Follows(a, xs + ys, c)
    decreases |ys|
  {
    hide Turned;
    if ys == [] {
      assert xs + ys == xs;
    } else {
      var m: Word :| Follows(b, ys[..|ys| - 1], m) && Turned(m, c, ys[|ys| - 1]);
      FollowsAppend(a, xs, b, ys[..|ys| - 1], m);
      assert (xs + ys)[..|xs + ys| - 1] == xs + ys[..|ys| - 1];
    }
  }

  /** The bits of STATUS after an exception that records, from a processor with no load to STATUS pending. */
  lemma RecordedTurns(c: Cpu, d: Cpu, exc: ExcNo)
    requires Recorded(c, d, exc) && NoStatusLoad(c)
    ensures Follows(c.cp0[STATUS], [Enter], d.cp0[STATUS])
  {
    hide StatusPushed, CauseCode, BitVal, Follows;
    FollowsOne(c.cp0[STATUS], Enter, d.cp0[STATUS]);
  }

  lemma LoadKeepsStatus(c: Cpu)
    requires NoStatusLoad(c)
    ensures CompleteLoad(c).cp0[STATUS] == c.cp0[STATUS] && NoStatusLoad(CompleteLoad(c))
  {
    hide CompleteLoad;
    CompleteLoadPcs(c);
  }

  lemma PopIs(sr: Word)
    ensures StatusPopped(sr, PopKUIE(sr))
  {
  }

  /** What a coprocessor instruction but RFE leaves of STATUS. */
  lemma Cop0Status(c: Cpu, op: Cop0Op)
    requires NoStatusLoad(c) && op != Rfe
    ensures var d := ExecCop0(c, op);
      d.cp0[STATUS] == c.cp0[STATUS] && (NoStatusLoad(d) <==> !(op.Mtc0? && op.dst == STATUS))
  {
    hide CompleteLoad, RndIdx, ProbeTLB;
    match op
    case Tlbp =>
      var p := ProbeTLB(c.tlb, c.cp0[ENTRYHI], c.cp0[ENTRYHI]);
      LoadKeepsStatus(c.With(INDEX, if p.Some? then p.value * 0x100 else SIGNMASK));
    case Tlbr => LoadKeepsStatus(ReadEntry(c, RndIdx(c.cp0[INDEX])));
    case Tlbwi => LoadKeepsStatus(WriteEntry(c, RndIdx(c.cp0[INDEX])));
    case Tlbwr => LoadKeepsStatus(WriteEntry(c, RndIdx(c.cp0[RANDOM])));
    case Wait => LoadKeepsStatus(Suspend(c));
    case _ => LoadKeepsStatus(c);
  }

  /** RFE pops, and what it completes afterwards is not a load to STATUS. */
  lemma RfeStatus(c: Cpu)
    requires NoStatusLoad(c)
    ensures StatusPopped(c.cp0[STATUS], ExecCop0(c, Rfe).cp0[STATUS]) && NoStatusLoad(ExecCop0(c, Rfe))
  {
    hide CompleteLoad, StatusPopped, PopKUIE;
    PopIs(c.cp0[STATUS]);
    LoadKeepsStatus(c.With(STATUS, PopKUIE(c.cp0[STATUS])));
  }

  lemma MapVirtualStatus(c: Cpu, vaddr: Word, acc: Access)
    ensures var d := MapVirtual(c, vaddr, acc).0; d.cp0[STATUS] == c.cp0[STATUS] && d.load == c.load
  {
    hide ProbeTLB, BitVal, And32, Or32;
  }

  /** Other instructions without a fault leave STATUS alone. */
  lemma PlainStatus(c: Cpu, e: Instr)
    requires NoStatusLoad(c) && !e.Cop0? && !ExecBody(c, e).1
    ensures var d := ExecBody(c, e).0; d.cp0[STATUS] == c.cp0[STATUS] && NoStatusLoad(d)
  {
    hide CompleteLoad, MapVirtual, HandleExc;
    match e
    case Plain(_, _) => LoadKeepsStatus(c);
    case MulDiv(hi, lo) => LoadKeepsStatus(SetGpr(SetGpr(c, HI, hi), LO, lo));
    case Branch(_, _, early, _) => LoadKeepsStatus(if early then SetGpr(c, 31, Add32(c.currPC, 8)) else c);
    case LoadMem(_, va, _) => LoadKeepsStatus(c); MapVirtualStatus(CompleteLoad(c), va, Read);
    case StoreMem(va, _) => LoadKeepsStatus(c); MapVirtualStatus(CompleteLoad(c), va, Write);
    case CompareSwap(_, va, _) =>
      MapVirtualStatus(c, va, Write);
      LoadKeepsStatus(MapVirtual(c, va, Write).0);
    case _ =>
  }

  /** The instruction writes STATUS other than by an exception or a return. */
  predicate WritesStatus(c: Cpu, e: Instr) {
    match Effective(c, e)
    case Cop0(Mtc0(dst, _)) => dst == STATUS
    case _ => false
  }

  /** STATUS after an executed instruction: pushed by a fault, popped by RFE, and otherwise as it was. */
  lemma ExecuteTurns(c: Cpu, e: Instr)
    requires NoStatusLoad(c) && !WritesStatus(c, e)
    ensures Follows(c.cp0[STATUS], ExecTurns(c, e), Execute(c, e).cp0[STATUS]) && NoStatusLoad(Execute(c, e))
  {
    hide HandleExc, ExecBody, ExecCop0, Follows, Recorded, StatusPopped, BitVal;
    var e1 := Effective(c, e);
    var c1 := ExecInstr(c, e).0;
    FollowsNone(c.cp0[STATUS]);
    if ExecInstr(c, e).1 {
      ExecBodyPcs(c, e1);
      FaultStatus(c, e1);
      HandleExcRecords(c1);
      RecordedOfSamePcs(c, c1, HandleExc(c1), c1.excCause);
      RecordedTurns(c, HandleExc(c1), c1.excCause);
    } else if e1 == Cop0(Rfe) {
      BodyOfCop0(c, Rfe);
      RfeStatus(c);
      FollowsOne(c.cp0[STATUS], Leave, c1.cp0[STATUS]);
    } else if e1.Cop0? {
      BodyOfCop0(c, e1.op);
      Cop0Status(c, e1.op);
    } else {
      PlainStatus(c, e1);
    }
  }

  /** RFE shifts the pairs down and keeps the rest of STATUS, unless a load to STATUS is pending, which then overwrites it. */
  lemma ReturnPops(c: Cpu)
    requires c.currInstr != NOP && !ExecInstr(c, Cop0(Rfe)).1
    ensures var r := Execute(c, Cop0(Rfe)).cp0[STATUS];
      if NoStatusLoad(c) then StatusPopped(c.cp0[STATUS], r) else r == And32(c.load.val, 0x1F40_FF3F)
  {
    hide ExecCop0, HandleExc, And32, BitVal, StatusPopped;
    BodyOfCop0(c, Rfe);
    if NoStatusLoad(c) { RfeStatus(c); } else { RfeLoses(c); }
  }

  lemma RfeLoses(c: Cpu)
    requires !NoStatusLoad(c)
    ensures ExecCop0(c, Rfe).cp0[STATUS] == And32(c.load.val, 0x1F40_FF3F)
  {
    hide CompleteLoad, PopKUIE, And32;
    CompleteLoadPcs(c.With(STATUS, PopKUIE(c.cp0[STATUS])));
  }

  lemma BodyOfCop0(c: Cpu, op: Cop0Op)
    requires !ExecBody(c, Cop0(op)).1
    ensures ExecBody(c, Cop0(op)).0 == ExecCop0(c, op)
  {
  }

  lemma InterruptFollows(c: Cpu)
    requires NoStatusLoad(c)
    ensures Follows(c.cp0[STATUS], InterruptTurns(c), Interrupt(c).cp0[STATUS]) && NoStatusLoad(Interrupt(c))
  {
    hide Follows, Recorded, Interrupt, Requested;
    InterruptPcs(c);
    FollowsNone(c.cp0[STATUS]);
    if Requested(c) {
      InterruptLoad(c);
      RecordedTurns(c, Interrupt(c), INT_EXC);
    }
  }

  lemma FetchFollows(c: Cpu, word: Option<Word>)
    requires NoStatusLoad(c)
    ensures Follows(c.cp0[STATUS], FetchTurns(c, word), Fetch(c, word).cp0[STATUS]) && NoStatusLoad(Fetch(c, word))
  {
    hide Follows, Recorded, Fetch, MapVirtual, FetchCause;
    FetchPcs(c, word);
    FollowsNone(c.cp0[STATUS]);
    if !FetchMaps(c) || word.None? { RecordedTurns(c, Fetch(c, word), FetchCause(c)); }
  }

  lemma FinishFollows(c: Cpu, word: Option<Word>)
    requires NoStatusLoad(c)
    ensures Follows(c.cp0[STATUS], FinishTurns(c, word), Finish(c, word).cp0[STATUS]) && NoStatusLoad(Finish(c, word))
  {
    hide Follows, Fetch, Interrupt, Shift, FetchTurns, InterruptTurns;
    FollowsNone(c.cp0[STATUS]);
    if !c.IsIdle() {
      var s := Shift(c);
      ShiftPcs(c);
      InterruptFollows(s);
      FetchFollows(Interrupt(s), word);
      FollowsAppend(c.cp0[STATUS], InterruptTurns(s), Interrupt(s).cp0[STATUS], FetchTurns(Interrupt(s), word),
                    Fetch(Interrupt(s), word).cp0[STATUS]);
    }
  }

  /** The step leaves STATUS to exceptions and returns. */
  predicate LeavesStatus(c: Cpu, ev: CpuEvent) {
    !ev.Restarted? && (ev.Tick? && Executes(c) ==> !WritesStatus(CpuTimer(c), ev.e))
  }

  lemma TickFollows(c: Cpu, ev: CpuEvent)
    requires NoStatusLoad(c) && LeavesStatus(c, ev) && ev.Tick? && Executes(c)
    ensures Follows(c.cp0[STATUS], Turns(c, ev), Step(c, ev).cp0[STATUS]) && NoStatusLoad(Step(c, ev))
  {
    hide Follows, Execute, Finish, SetLines, CpuTimer, ExecTurns, FinishTurns, WritesStatus;
    TimerPcs(c);
    var c1 := CpuTimer(c);
    ExecuteTurns(c1, ev.e);
    var x := Executed(c, ev.e, ev.mid);
    SetLinesPcs(Execute(c1, ev.e), ev.mid);
    FinishFollows(x, ev.word);
    FollowsAppend(c.cp0[STATUS], ExecTurns(c1, ev.e), x.cp0[STATUS], FinishTurns(x, ev.word), Finish(x, ev.word).cp0[STATUS]);
  }

  lemma StepFollows(c: Cpu, ev: CpuEvent)
    requires NoStatusLoad(c) && LeavesStatus(c, ev)
    ensures Follows(c.cp0[STATUS], Turns(c, ev), Step(c, ev).cp0[STATUS]) && NoStatusLoad(Step(c, ev))
  {
    hide Follows, CpuTimer, Execute, Finish;
    FollowsNone(c.cp0[STATUS]);
    TimerPcs(c);
    match ev
    case Tick(_, _, _) => if Executes(c) { TickFollows(c, ev); }
    case Outside(op) => SetLinesPcs(c, [op]); OneLine(c, op);
    case Stopped =>
  }

  // ---- whole runs --------------------------------------------------------------------------------------

  ghost predicate RunLeavesStatus(c: Cpu, evs: seq<CpuEvent>)
    decreases |evs|
  {
    evs == [] || (LeavesStatus(c, evs[0]) && RunLeavesStatus(Step(c, evs[0]), evs[1..]))
  }

  lemma {:induction false} RunFollows(c: Cpu, evs: seq<CpuEvent>)
    requires NoStatusLoad(c) && RunLeavesStatus(c, evs)
    ensures Follows(c.cp0[STATUS], AllTurns(c, evs), RunCpu(c, evs).cp0[STATUS])
    decreases |evs|
  {
    hide Follows, Step, Turns, NoStatusLoad, LeavesStatus;
    FollowsNone(c.cp0[STATUS]);
    if evs != [] {
      StepFollows(c, evs[0]);
      var d := Step(c, evs[0]);
      RunFollows(d, evs[1..]);
      FollowsAppend(c.cp0[STATUS], Turns(c, evs[0]), d.cp0[STATUS], AllTurns(d, evs[1..]), RunCpu(d, evs[1..]).cp0[STATUS]);
    }
  }

  lemma {:induction false} TurnsStack(first: Word, ts: seq<Turn>, now: Word)
    requires Follows(first, ts, now) && WellNested(ts)
    ensures Stacked(first, now, Level(ts), Depth(ts))
  {
    hide Stacked, StatusPushed, StatusPopped;
    if ts == [] {
      StartStacked(first);
    } else {
      var before := ts[..|ts| - 1];
      var m: Word :| Follows(first, before, m) && Turned(m, now, ts[|ts| - 1]);
      TurnsStack(first, before, m);
      Levels(first, m, Level(before), Depth(before));
      if ts[|ts| - 1].Enter? {
        EnterStacks(first, m, now, Level(before), Depth(before));
      } else {
        LeaveStacks(first, m, now, Level(before), Depth(before));
      }
    }
  }

  lemma StartStacked(w: Word)
    ensures Stacked(w, w, 0, 0)
  {
    hide BitVal;
  }

  /**
   * In every run that writes STATUS only by exceptions and returns, each return after its exception and each
   * exception returned from in the end: mode and interrupt enable are as before if and only if no more than two
   * exceptions were open at once, or both bits were 0; otherwise both are lost. The rest of STATUS is as before.
   */
  lemma NestingInRuns(c: Cpu, evs: seq<CpuEvent>)
    requires NoStatusLoad(c) && RunLeavesStatus(c, evs)
    requires WellNested(AllTurns(c, evs)) && Level(AllTurns(c, evs)) == 0
    ensures var sr, r := c.cp0[STATUS], RunCpu(c, evs).cp0[STATUS]; var restored := Depth(AllTurns(c, evs)) <= 2;
      && (BitVal(r, 0) <==> restored && BitVal(sr, 0))
      && (BitVal(r, 1) <==> restored && BitVal(sr, 1))
      && forall j: nat | j >= 6 :: BitVal(r, j) <==> BitVal(sr, j)
  {
    hide AllTurns, RunCpu, Follows, Stacked, BitVal, NoStatusLoad, RunLeavesStatus, Level, Depth;
    var sr, r, ts := c.cp0[STATUS], RunCpu(c, evs).cp0[STATUS], AllTurns(c, evs);
    RunFollows(c, evs);
    TurnsStack(sr, ts, r);
    StackedUnder(sr, r, 0, Depth(ts), 0);
    StackedUnder(sr, r, 0, Depth(ts), 1);
    forall j: nat | j >= 6 ensures BitVal(r, j) <==> BitVal(sr, j) { StackedUnder(sr, r, 0, Depth(ts), j); }
  }

  // ---- such a run ----------------------------------------------------------------------------------------

  /** No line is let through. */
  predicate Masked(sr: Word) { forall l: Line :: !IpBit(sr, l) }

  lemma MaskedStays(before: Word, t: Turn, after: Word)
    requires Masked(before) && Turned(before, after, t)
    ensures Masked(after)
  {
    hide StatusPushed, StatusPopped, BitVal;
    forall l: Line ensures !IpBit(after, l) {
      if t.Enter? { PushedBit(before, after, 8 + l); } else { PoppedBit(before, after, 8 + l); }
      assert !IpBit(before, l);
    }
  }

  lemma MaskedQuiet(c: Cpu)
    requires Masked(c.cp0[STATUS])
    ensures !Requested(c)
  {
  }

  /** An aligned address of the kernel below the floor can be fetched from. */
  lemma LowFetch(c: Cpu, word: Word)
    requires c.currPC % 4 == 0 && !BitVal(c.cp0[STATUS], KUC) && c.currPC < c.tlbFloor
    ensures FetchMaps(c) && Fetch(c, Some(word)) == c.(currInstr := word)
  {
  }

  function SystemCall(): Instr { Faulting(SYS_EXC, 0) }

  lemma CallFaults(c: Cpu)
    requires c.currInstr != NOP
    ensures ExecInstr(c, SystemCall()).1
  {
  }

  /** The cycle of a system call in the kernel: one exception, and the processor at its handler. */
  lemma CallTurns(c: Cpu, word: Word)
    requires PcOk(c) && Executes(c) && !c.isBranchD && c.currInstr != NOP && NoStatusLoad(c)
    requires Masked(c.cp0[STATUS]) && c.tlbFloor >= 0x2000_0000
    ensures var ev := Tick(SystemCall(), [], Some(word)); var d := Step(c, ev);
      && Turns(c, ev) == [Enter] && LeavesStatus(c, ev)
      && StatusPushed(c.cp0[STATUS], d.cp0[STATUS]) && NoStatusLoad(d) && d.currInstr == word && d.tlbFloor == c.tlbFloor
      && d.nextPC == d.currPC + 4 && d.currPC % 4 == 0 && d.currPC < 0x1FC0_0200 && d.status == Running
  {
    hide CpuTimer, Execute, ExecInstr, Fetch, Interrupt, Shift, BitVal, Recorded, HandlerAddress, StatusPushed, FetchMaps;
    var ev := Tick(SystemCall(), [], Some(word));
    var c1 := CpuTimer(c);
    TimerPcs(c);
    CallFaults(c1);
    ExecutePcs(c1, SystemCall());
    FaultExecutes(c1, SystemCall());
    FaultEnters(c1, SystemCall());
    CallAtHandler(c1);
    ExecuteFloor(c, SystemCall(), []);
    var s := Shift(Execute(c1, SystemCall()));
    MaskedStays(c1.cp0[STATUS], Enter, s.cp0[STATUS]);
    MaskedQuiet(s);
    LowFetch(s, word);
    CallRunning(c, word);
  }

  lemma CallAtHandler(c: Cpu)
    requires PcOk(c) && !c.isBranchD && c.currInstr != NOP && NoStatusLoad(c)
    ensures var d := Execute(c, SystemCall());
      && StatusPushed(c.cp0[STATUS], d.cp0[STATUS]) && !BitVal(d.cp0[STATUS], KUC)
      && d.nextPC % 4 == 0 && d.nextPC < 0x1FC0_0200
  {
    hide Execute, ExecInstr, BitVal, StatusPushed, CauseCode;
    CallFaults(c);
    ExecutePcs(c, SystemCall());
    RecordedMode(c, Execute(c, SystemCall()), ExecInstr(c, SystemCall()).0.excCause);
  }

  lemma CallRunning(c: Cpu, word: Word)
    requires Executes(c) && c.currInstr != NOP
    ensures Step(c, Tick(SystemCall(), [], Some(word))).status == Running
  {
    hide Execute, Finish, ExecInstr, CpuTimer, NoIp, IpBit;
    CpuTimerLines(c);
    TimerPcs(c);
    CallFaults(CpuTimer(c));
    FaultExecutes(CpuTimer(c), SystemCall());
    ExecuteLines(CpuTimer(c), SystemCall());
    FinishLines(Executed(c, SystemCall(), []), Some(word));
  }

  lemma RfeExecutes(c: Cpu)
    requires c.currInstr != NOP && !BitVal(c.cp0[STATUS], KUC) && NoStatusLoad(c) && !c.IsIdle()
    ensures !ExecInstr(c, Cop0(Rfe)).1 && !Execute(c, Cop0(Rfe)).IsIdle()
    ensures var d := Execute(c, Cop0(Rfe));
      && StatusPopped(c.cp0[STATUS], d.cp0[STATUS]) && NoStatusLoad(d) && d.nextPC == c.nextPC && d.tlbFloor == c.tlbFloor
  {
    hide ExecCop0, BitVal, StatusPopped, HandleExc;
    RfeStatus(c);
    ExecCop0Pcs(c, Rfe);
    ExecCop0Floor(c, Rfe);
    ExecCop0Lines(c, Rfe);
  }

  /** The cycle of an RFE in the kernel that returns to the kernel: one return. */
  lemma ReturnTurns(c: Cpu, word: Word)
    requires c.status == Running && c.currInstr != NOP && NoStatusLoad(c) && Masked(c.cp0[STATUS])
    requires !BitVal(c.cp0[STATUS], 1) && !BitVal(c.cp0[STATUS], 3)
    requires c.nextPC % 4 == 0 && c.nextPC < c.tlbFloor
    ensures var ev := Tick(Cop0(Rfe), [], Some(word)); Turns(c, ev) == [Leave] && LeavesStatus(c, ev)
  {
    hide CpuTimer, Execute, ExecInstr, Fetch, Interrupt, Shift, BitVal, StatusPopped, FetchMaps, IpBit;
    TimerTlb(c);
    TimerPcs(c);
    var c1 := CpuTimer(c);
    RfeExecutes(c1);
    var x := Execute(c1, Cop0(Rfe));
    var s := Shift(x);
    ShiftPcs(x);
    ShiftFloor(x);
    MaskedStays(c.cp0[STATUS], Leave, s.cp0[STATUS]);
    MaskedQuiet(s);
    InterruptPcs(s);
    PoppedBit(c.cp0[STATUS], s.cp0[STATUS], 1);
    LowFetch(s, word);
    assert Turns(c, Tick(Cop0(Rfe), [], Some(word))) == [Leave] + ([] + []);
  }

  lemma ShiftFloor(c: Cpu)
    ensures Shift(c).tlbFloor == c.tlbFloor
  {
    hide RandomNext;
  }

  /** A system call in the kernel whose handler returns at once: the run that NestingInRuns asks for. */
  lemma CallAndReturn(c: Cpu, w1: Word, w2: Word)
    requires PcOk(c) && Executes(c) && !c.isBranchD && c.currInstr != NOP && NoStatusLoad(c)
    requires Masked(c.cp0[STATUS]) && !BitVal(c.cp0[STATUS], 1) && c.tlbFloor >= 0x2000_0000 && w1 != NOP
    ensures var evs := [Tick(SystemCall(), [], Some(w1)), Tick(Cop0(Rfe), [], Some(w2))];
      && RunLeavesStatus(c, evs) && AllTurns(c, evs) == [Enter, Leave]
      && WellNested(AllTurns(c, evs)) && Level(AllTurns(c, evs)) == 0
      && (BitVal(RunCpu(c, evs).cp0[STATUS], 0) <==> BitVal(c.cp0[STATUS], 0))
  {
    hide Step, Turns, AllTurns, BitVal, LeavesStatus, RunLeavesStatus, StatusPushed, RunCpu, Masked, PcOk, Executes,
      Level, Depth, WellNested, NoStatusLoad;
    var a, b := Tick(SystemCall(), [], Some(w1)), Tick(Cop0(Rfe), [], Some(w2));
    CallTurns(c, w1);
    ReturnFollows(c, Step(c, a), w2);
    TwoTurns(c, a, b);
    assert [Enter] + [Leave] == [Enter, Leave];
    TurnsBalance();
    NestingInRuns(c, [a, b]);
  }

  /** The handler is where RFE can run, and return to the kernel. */
  lemma ReturnFollows(c: Cpu, d: Cpu, word: Word)
    requires StatusPushed(c.cp0[STATUS], d.cp0[STATUS]) && Masked(c.cp0[STATUS]) && !BitVal(c.cp0[STATUS], 1)
    requires d.status == Running && d.currInstr != NOP && NoStatusLoad(d)
    requires d.nextPC == d.currPC + 4 && d.currPC % 4 == 0 && d.currPC < 0x1FC0_0200 && d.tlbFloor >= 0x2000_0000
    ensures var ev := Tick(Cop0(Rfe), [], Some(word)); Turns(d, ev) == [Leave] && LeavesStatus(d, ev)
  {
    hide Turns, LeavesStatus, BitVal, StatusPushed, Masked;
    MaskedStays(c.cp0[STATUS], Enter, d.cp0[STATUS]);
    PushedBit(c.cp0[STATUS], d.cp0[STATUS], 1);
    PushedBit(c.cp0[STATUS], d.cp0[STATUS], 3);
    ReturnTurns(d, word);
  }

  lemma OneTurn(c: Cpu, a: CpuEvent)
    ensures AllTurns(c, [a]) == Turns(c, a) && (RunLeavesStatus(c, [a]) <==> LeavesStatus(c, a))
  {
    hide Step, Turns, LeavesStatus;
    assert [a][1..] == [] && Turns(c, a) + [] == Turns(c, a);
  }

  lemma TwoTurns(c: Cpu, a: CpuEvent, b: CpuEvent)
    ensures AllTurns(c, [a, b]) == Turns(c, a) + Turns(Step(c, a), b)
    ensures RunLeavesStatus(c, [a, b]) <==> LeavesStatus(c, a) && LeavesStatus(Step(c, a), b)
  {
    hide Step, Turns, LeavesStatus;
    OneTurn(Step(c, a), b);
    assert [a, b][1..] == [b];
  }

  lemma TurnsBalance()
    ensures WellNested([Enter, Leave]) && Level([Enter, Leave]) == 0 && Depth([Enter, Leave]) == 1
  {
    assert [Enter, Leave][..1] == [Enter] && [Enter][..0] == [];
  }
}
