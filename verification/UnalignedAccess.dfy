/** The unaligned pairs as a processor runs them, with the delayed load between their halves. */
module UnalignedAccess {
  import opened Words
  import opened Cpu
  import opened Unaligned

  datatype Half = LeftHalf | RightHalf

  function Other(h: Half): Half { if h.LeftHalf? then RightHalf else LeftHalf }

  /** The half that the idiom puts at the address itself. */
  function FirstHalf(big: bool): Half { if big then LeftHalf else RightHalf }

  /** Base register and immediate, read once the load before has completed. */
  function Address(c: Cpu, rs: Reg, imm: int): Word { Add32(CompleteLoad(c).gpr[rs], imm) }

  /** The words of memory from the aligned address `base` on, as the bus answers for it. */
  predicate InMemory(a: Word, base: Word, mem: seq<Word>) { base % 4 == 0 && base <= a < base + 4 * |mem| }

  /** LWL or LWR: the word at the address merged into the register. */
  function LoadHalf(h: Half, c: Cpu, rs: Reg, rt: Reg, imm: int, base: Word, mem: seq<Word>, big: bool): Instr
    requires InMemory(Address(c, rs, imm), base, mem)
  {
    var a, r := Address(c, rs, imm), CompleteLoad(c).gpr[rt];
    LoadMem(rt, a / 4 * 4, Some(if h.LeftHalf? then LWL(mem, a - base, r, big) else LWR(mem, a - base, r, big)))
  }

  function StoreHalf(c: Cpu, rs: Reg, imm: int): Instr { StoreMem(Address(c, rs, imm) / 4 * 4, true) }

  /** What SWL or SWR leaves in memory. */
  function MemoryAfter(h: Half, c: Cpu, rs: Reg, rt: Reg, imm: int, base: Word, mem: seq<Word>, big: bool): (m: seq<Word>)
    requires InMemory(Address(c, rs, imm), base, mem)
    ensures |m| == |mem|
  {
    var a, r := Address(c, rs, imm), CompleteLoad(c).gpr[rt];
    if h.LeftHalf? then SWL(mem, a - base, r, big) else SWR(mem, a - base, r, big)
  }

  lemma LoadLeaves(c: Cpu, rt: Reg, va: Word, v: Word)
    requires c.currInstr != NOP && !ExecInstr(c, LoadMem(rt, va, Some(v))).1
    ensures var d := Execute(c, LoadMem(rt, va, Some(v)));
      d.gpr == CompleteLoad(c).gpr && d.load == GprLoad(rt, v)
  {
    hide CompleteLoad, ProbeTLB, BitVal, SetTLBRegs, HandleExc;
  }

  lemma StoreLeaves(c: Cpu, va: Word)
    requires c.currInstr != NOP && !ExecInstr(c, StoreMem(va, true)).1
    ensures var d := Execute(c, StoreMem(va, true)); d.gpr == CompleteLoad(c).gpr && d.load == NoLoad
  {
    CompletedLoad(c);
    hide CompleteLoad, ProbeTLB, BitVal, SetTLBRegs, HandleExc;
  }

  lemma CompletedLoad(c: Cpu)
    ensures CompleteLoad(c).load == NoLoad
    ensures c.load.GprLoad? && c.load.reg != 0 ==> CompleteLoad(c).gpr == c.gpr[c.load.reg := c.load.val]
    ensures c.load == NoLoad ==> CompleteLoad(c) == c
  {
  }

  lemma NextAddress(g: Word, imm: int, a: Word)
    requires a == Add32(g, imm) && a + 3 < TWO32
    ensures Add32(g, imm + 3) as int == a + 3
  {
    assert g + (imm + 3) == (g + imm) + 3;
  }

  /**
   * A pair of loads gives the register the four bytes at the address and changes no other. Between the halves
   * the processor may be anywhere, as long as it comes back with its registers, the pending one completed or not.
   */
  lemma LoadPairRuns(c: Cpu, m: Cpu, rs: Reg, rt: Reg, imm: int, base: Word, mem: seq<Word>, big: bool)
    requires rt != 0 && rt != rs && c.currInstr != NOP && m.currInstr != NOP
    requires InMemory(Address(c, rs, imm), base, mem) && Address(c, rs, imm) + 3 < base + 4 * |mem| <= TWO32
    requires var e := LoadHalf(FirstHalf(big), c, rs, rt, imm, base, mem, big);
      !ExecInstr(c, e).1 && CompleteLoad(m).gpr == CompleteLoad(Execute(c, e)).gpr
    ensures Address(m, rs, imm + 3) as int == Address(c, rs, imm) + 3
    ensures var e := LoadHalf(Other(FirstHalf(big)), m, rs, rt, imm + 3, base, mem, big);
      !ExecInstr(m, e).1 ==>
        CompleteLoad(Execute(m, e)).gpr ==
          CompleteLoad(c).gpr[rt := LoadPair(mem, Address(c, rs, imm) - base, CompleteLoad(c).gpr[rt], big)]
  {
    hide CompleteLoad, Execute, ExecInstr, Add32, LWL, LWR;
    var e1 := LoadHalf(FirstHalf(big), c, rs, rt, imm, base, mem, big);
    LoadLeaves(c, rt, e1.vaddr, e1.data.value);
    CompletedLoad(Execute(c, e1));
    NextAddress(CompleteLoad(c).gpr[rs], imm, Address(c, rs, imm));
    var e2 := LoadHalf(Other(FirstHalf(big)), m, rs, rt, imm + 3, base, mem, big);
    if !ExecInstr(m, e2).1 {
      LoadLeaves(m, rt, e2.vaddr, e2.data.value);
      CompletedLoad(Execute(m, e2));
    }
  }

  /** With the base itself as target the other half takes its address from the half-loaded register. */
  lemma BaseIsLost(c: Cpu, m: Cpu, rt: Reg, imm: int, base: Word, mem: seq<Word>, big: bool)
    requires rt != 0 && c.currInstr != NOP && InMemory(Address(c, rt, imm), base, mem)
    requires var e := LoadHalf(FirstHalf(big), c, rt, rt, imm, base, mem, big);
      !ExecInstr(c, e).1 && CompleteLoad(m).gpr == CompleteLoad(Execute(c, e)).gpr
    ensures Address(m, rt, imm + 3) == Add32(LoadHalf(FirstHalf(big), c, rt, rt, imm, base, mem, big).data.value, imm + 3)
  {
    hide CompleteLoad, Execute, ExecInstr, LWL, LWR;
    var e := LoadHalf(FirstHalf(big), c, rt, rt, imm, base, mem, big);
    LoadLeaves(c, rt, e.vaddr, e.data.value);
    CompletedLoad(Execute(c, e));
  }

  /** A pair of stores writes the register's four bytes at the address, a load into it still pending or not. */
  lemma StorePairRuns(c: Cpu, m: Cpu, rs: Reg, rt: Reg, imm: int, base: Word, mem: seq<Word>, big: bool)
    requires c.currInstr != NOP && m.currInstr != NOP
    requires InMemory(Address(c, rs, imm), base, mem) && Address(c, rs, imm) + 3 < base + 4 * |mem| <= TWO32
    requires !ExecInstr(c, StoreHalf(c, rs, imm)).1
    requires CompleteLoad(m).gpr == CompleteLoad(Execute(c, StoreHalf(c, rs, imm))).gpr
    ensures Address(m, rs, imm + 3) as int == Address(c, rs, imm) + 3
    ensures var mem1 := MemoryAfter(FirstHalf(big), c, rs, rt, imm, base, mem, big);
      MemoryAfter(Other(FirstHalf(big)), m, rs, rt, imm + 3, base, mem1, big) ==
        StorePair(mem, Address(c, rs, imm) - base, CompleteLoad(c).gpr[rt], big)
    ensures CompleteLoad(m).gpr == CompleteLoad(c).gpr
  {
    hide CompleteLoad, Execute, ExecInstr, Add32, Merge;
    StoreLeaves(c, StoreHalf(c, rs, imm).vaddr);
    CompletedLoad(Execute(c, StoreHalf(c, rs, imm)));
    NextAddress(CompleteLoad(c).gpr[rs], imm, Address(c, rs, imm));
  }

  /** Stored at any byte address by one pair and loaded from there by another, a register comes back. */
  lemma RegisterComesBack(c: Cpu, m: Cpu, rs: Reg, rt: Reg, imm: int, base: Word, mem: seq<Word>, big: bool, r: Word)
    requires rt != 0 && rt != rs && c.currInstr != NOP && m.currInstr != NOP
    requires InMemory(Address(c, rs, imm), base, mem) && Address(c, rs, imm) + 3 < base + 4 * |mem| <= TWO32
    requires var a := Address(c, rs, imm) - base; var stored := StorePair(mem, a, r, big);
      |stored| == |mem| &&
      var e := LoadHalf(FirstHalf(big), c, rs, rt, imm, base, stored, big);
      !ExecInstr(c, e).1 && CompleteLoad(m).gpr == CompleteLoad(Execute(c, e)).gpr
    ensures Address(m, rs, imm + 3) as int == Address(c, rs, imm) + 3
    ensures var stored := StorePair(mem, Address(c, rs, imm) - base, r, big);
      |stored| == |mem| &&
      var e := LoadHalf(Other(FirstHalf(big)), m, rs, rt, imm + 3, base, stored, big);
      !ExecInstr(m, e).1 ==> CompleteLoad(Execute(m, e)).gpr[rt] == r
  {
    hide CompleteLoad, Execute, ExecInstr, Add32, StorePair, LoadPair, LoadHalf;
    var a := Address(c, rs, imm) - base;
    UnalignedRoundTrip(mem, a, r, CompleteLoad(c).gpr[rt], big);
    LoadPairRuns(c, m, rs, rt, imm, base, StorePair(mem, a, r, big), big);
  }
}
