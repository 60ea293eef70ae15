/** Address translation and the TLB registers. */
module Translation {
  import opened Words
  import opened Cpu
  import opened PreciseExceptions

  // ---- translation ----------------------------------------------------------------

  /** The entry is for the page of `vaddr` and, unless it is global, for the address space of `hi`. */
  predicate ForPage(e: TLBEntry, hi: Word, vaddr: Word) {
    e.hi / 0x1000 == vaddr / 0x1000 && (BitVal(e.lo, 8) || e.hi / 0x40 % 0x40 == hi / 0x40 % 0x40)
  }

  /** Entry `i` is for the page and no later entry is. */
  predicate Decides(tlb: seq<TLBEntry>, hi: Word, vaddr: Word, i: nat) {
    i < |tlb| && ForPage(tlb[i], hi, vaddr) && forall j | i < j < |tlb| :: !ForPage(tlb[j], hi, vaddr)
  }

  lemma MaskedField(x: Word, n: nat, z: nat, p: nat, q: nat)
    requires p == Pow2(n) && q == Pow2(z)
    ensures And(x, (p - 1) * q) == x / q % p * q
  {
    hide And, Pow2, Shl;
    AndField(x, n, z);
    ShlIsTimes(p - 1, z);
  }

  /** The fields that the masks of the TLB registers cut out. */
  lemma MaskedFields(x: Word)
    ensures And32(x, VPNMASK) == x / 0x1000 * 0x1000
    ensures And32(x, ASIDMASK) == x / 0x40 % 0x40 * 0x40
    ensures And32(x, ENTRYHIMASK) == x / 0x40 * 0x40
    ensures And32(x, ENTRYLOMASK) == x / 0x100 * 0x100
  {
    FieldSizes();
    hide And, Pow2;
    MaskedField(x, 20, 12, 0x10_0000, 0x1000);
    MaskedField(x, 6, 6, 0x40, 0x40);
    MaskedField(x, 26, 6, 0x400_0000, 0x40);
    MaskedField(x, 24, 8, 0x100_0000, 0x100);
  }

  lemma FieldSizes()
    ensures Pow2(6) == 0x40 && Pow2(8) == 0x100 && Pow2(12) == 0x1000
    ensures Pow2(20) == 0x10_0000 && Pow2(24) == 0x100_0000 && Pow2(26) == 0x400_0000
  {
    assert Pow2(6) == 64 && Pow2(12) == 0x1000 && Pow2(8) == 0x100;
    Pow2Values();
  }

  lemma MatchIsForPage(e: TLBEntry, hi: Word, vaddr: Word)
    ensures Matches(e, hi, vaddr) <==> ForPage(e, hi, vaddr)
  {
    hide And32, BitVal;
    MaskedFields(e.hi);
    MaskedFields(hi);
    MaskedFields(vaddr);
  }

  lemma MatchesAreForPages(tlb: seq<TLBEntry>, hi: Word, vaddr: Word)
    ensures forall i | 0 <= i < |tlb| :: Matches(tlb[i], hi, vaddr) <==> ForPage(tlb[i], hi, vaddr)
  {
    hide Matches, ForPage;
    forall i | 0 <= i < |tlb| ensures Matches(tlb[i], hi, vaddr) <==> ForPage(tlb[i], hi, vaddr) {
      MatchIsForPage(tlb[i], hi, vaddr);
    }
  }

  /** Misaligned, or in the kernel's half of the addresses with the processor in user mode. */
  predicate BadAddress(c: Cpu, vaddr: Word) { vaddr % 4 != 0 || (BitVal(c.cp0[STATUS], 1) && vaddr < 0x8000_0000) }

  /**
   * Translation signals an address error exactly for such an address, reporting it and changing no other
   * register; every other address below the floor is its own translation.
   */
  lemma AddressFaults(c: Cpu, vaddr: Word, acc: Access)
    ensures var (d, p) := MapVirtual(c, vaddr, acc);
      && (p.None? && (d.excCause == ADEL_EXC || d.excCause == ADES_EXC) <==> BadAddress(c, vaddr))
      && (BadAddress(c, vaddr) ==>
           d == c.(cp0 := c.cp0[BADVADDR := vaddr], excCause := if acc.Write? then ADES_EXC else ADEL_EXC, copENum := 0))
      && (!BadAddress(c, vaddr) && vaddr < c.tlbFloor ==> p == Some(vaddr) && d == c)
  {
    hide BitVal, ProbeTLB, Or32, And32;
  }

  /** A TLB fault reports the address, and the page with the old address space in ENTRYHI, and changes no other register. */
  ghost predicate Reported(c: Cpu, d: Cpu, vaddr: Word) {
    && d == c.(cp0 := c.cp0[BADVADDR := vaddr][ENTRYHI := d.cp0[ENTRYHI]], excCause := d.excCause, copENum := 0)
    && d.cp0[ENTRYHI] == vaddr / 0x1000 * 0x1000 + c.cp0[ENTRYHI] / 0x40 % 0x40 * 0x40
  }

  lemma {:induction false} OrIsSum(a: nat, b: nat, z: nat)
    requires b < Pow2(z)
    ensures Or(a * Pow2(z), b) == a * Pow2(z) + b
    decreases z
  {
    if z > 0 && a > 0 && b > 0 {
      DoubleTimes(a, Pow2(z - 1));
      OrHalves(a * Pow2(z - 1), b);
      OrIsSum(a, b / 2, z - 1);
    }
  }

  lemma OrHalves(m: nat, b: nat)
    requires m > 0 && b > 0
    ensures Or(2 * m, b) == 2 * Or(m, b / 2) + b % 2
  {
    assert 2 * m / 2 == m && 2 * m % 2 == 0;
  }

  lemma RegistersReport(c: Cpu, vaddr: Word, exc: ExcNo)
    ensures Reported(c, SignalExc(SetTLBRegs(c, vaddr), exc, 0), vaddr)
  {
    hide And32, Or;
    MaskedFields(vaddr);
    MaskedFields(c.cp0[ENTRYHI]);
    assert Pow2(12) == 0x1000;
    OrIsSum(vaddr / 0x1000, c.cp0[ENTRYHI] / 0x40 % 0x40 * 0x40, 12);
  }

  /** Bits 0 to 11 come from the virtual address, the rest from the entry's frame number. */
  ghost predicate FrameOf(p: Word, vaddr: Word, lo: Word) {
    forall b: nat :: BitVal(p, b) <==> if b < 12 then BitVal(vaddr, b) else BitVal(lo, b)
  }

  lemma FieldMasks(b: nat)
    ensures BitVal(OFFSETMASK, b) <==> b < 12
    ensures BitVal(VPNMASK, b) <==> 12 <= b < 32
    ensures BitVal(ASIDMASK, b) <==> 6 <= b < 12
    ensures BitVal(ENTRYHIMASK, b) <==> 6 <= b < 32
    ensures BitVal(ENTRYLOMASK, b) <==> 8 <= b < 32
  {
    assert Pow2(6) == 64 && Pow2(12) == 0x1000 && Pow2(8) == 0x100;
    Pow2Values();
    FieldBits(12, 0, b);
    FieldBits(20, 12, b);
    FieldBits(6, 6, b);
    FieldBits(26, 6, b);
    FieldBits(24, 8, b);
    ShlIsTimes(Pow2(20) - 1, 12);
    ShlIsTimes(Pow2(6) - 1, 6);
    ShlIsTimes(Pow2(26) - 1, 6);
    ShlIsTimes(Pow2(24) - 1, 8);
  }

  lemma Pow2Values()
    ensures Pow2(20) == 0x10_0000 && Pow2(24) == 0x100_0000 && Pow2(26) == 0x400_0000
  {
    assert Pow2(8) == 256 && Pow2(16) == TWO16;
    assert Pow2(20) == 0x10_0000;
    assert Pow2(24) == 0x100_0000;
  }

  lemma PhAddrIsFrame(vaddr: Word, lo: Word)
    ensures FrameOf(PhAddr(vaddr, lo), vaddr, lo)
  {
    forall b: nat ensures BitVal(PhAddr(vaddr, lo), b) <==> if b < 12 then BitVal(vaddr, b) else BitVal(lo, b) {
      FieldMasks(b);
      Pow2Is32();
      if b >= 32 { HighBitsClear(lo, 32, b); }
    }
  }

  lemma ProbeDecides(tlb: seq<TLBEntry>, hi: Word, vaddr: Word, i: nat)
    requires Decides(tlb, hi, vaddr, i)
    ensures ProbeTLB(tlb, hi, vaddr) == Some(i)
  {
    hide Matches, ForPage;
    MatchesAreForPages(tlb, hi, vaddr);
    var p := ProbeTLB(tlb, hi, vaddr);
    assert p.Some? && i <= p.value;
  }

  /** Above the floor the highest entry for the page decides alone, for success and for every fault. */
  lemma HighestEntryDecides(c: Cpu, vaddr: Word, acc: Access, i: nat)
    requires !BadAddress(c, vaddr) && vaddr >= c.tlbFloor
    requires Decides(c.tlb, c.cp0[ENTRYHI], vaddr, i)
    ensures var (d, p) := MapVirtual(c, vaddr, acc); var lo := c.tlb[i].lo;
      && (p.Some? <==> BitVal(lo, 9) && (acc.Write? ==> BitVal(lo, 10)))
      && (p.Some? ==> d == c && FrameOf(p.value, vaddr, lo))
      && (p.None? ==> && d.excCause == (if BitVal(lo, 9) then MOD_EXC else if acc.Write? then TLBS_EXC else TLBL_EXC)
                      && Reported(c, d, vaddr))
  {
    hide BitVal, ProbeTLB, PhAddr, Decides, FrameOf, SetTLBRegs, Reported;
    ProbeDecides(c.tlb, c.cp0[ENTRYHI], vaddr, i);
    PhAddrIsFrame(vaddr, c.tlb[i].lo);
    RegistersReport(c, vaddr, MOD_EXC);
    RegistersReport(c, vaddr, if acc.Write? then TLBS_EXC else TLBL_EXC);
  }

  /** With no entry for the page the access asks for a refill. */
  lemma NoEntryRefills(c: Cpu, vaddr: Word, acc: Access)
    requires !BadAddress(c, vaddr) && vaddr >= c.tlbFloor
    requires forall i | 0 <= i < |c.tlb| :: !ForPage(c.tlb[i], c.cp0[ENTRYHI], vaddr)
    ensures var (d, p) := MapVirtual(c, vaddr, acc);
      p.None? && d.excCause == (if acc.Write? then UTLBS_EXC else UTLBL_EXC) && Reported(c, d, vaddr)
  {
    hide BitVal, SetTLBRegs, Reported, Matches, ForPage;
    MatchesAreForPages(c.tlb, c.cp0[ENTRYHI], vaddr);
    assert ProbeTLB(c.tlb, c.cp0[ENTRYHI], vaddr).None?;
    RegistersReport(c, vaddr, if acc.Write? then UTLBS_EXC else UTLBL_EXC);
  }

  // ---- register and entry contents ---------------------------------------------------

  ghost predicate Within(w: Word, mask: Word) { forall b: nat :: BitVal(w, b) ==> BitVal(mask, b) }

  lemma WithinIsMasked(w: Word, mask: Word)
    requires Within(w, mask)
    ensures And32(w, mask) == w
  {
    Pow2Is32();
    SameBitsSameWord(And32(w, mask), w, 32);
  }

  /** ENTRYHI, ENTRYLO and every TLB entry hold zeros in their fixed fields. */
  ghost predicate FieldsOk(c: Cpu) {
    Within(c.cp0[ENTRYHI], ENTRYHIMASK) && Within(c.cp0[ENTRYLO], ENTRYLOMASK) && EntriesOk(c)
  }

  ghost predicate EntriesOk(c: Cpu) {
    forall i | 0 <= i < |c.tlb| :: Within(c.tlb[i].hi, ENTRYHIMASK) && Within(c.tlb[i].lo, ENTRYLOMASK)
  }

  /** INDEX and RANDOM name entries that exist, RANDOM never entry 0. */
  ghost predicate IndexSafe(c: Cpu) {
    && RndIdx(c.cp0[INDEX]) < |c.tlb|
    && 1 <= RndIdx(c.cp0[RANDOM]) < |c.tlb| && c.cp0[RANDOM] < 0x8000_0000
  }

  predicate LoadsTo(c: Cpu, r: Cp0Reg) { c.load.Cp0Load? && c.load.cp0reg == r }

  /** ENTRYHI once the pending load has completed. */
  function LoadedHi(c: Cpu): Word { CompleteLoad(c).cp0[ENTRYHI] }

  /** What completing a load does to the registers of the TLB. */
  lemma LoadRegisters(c: Cpu)
    requires RndIdx(c.cp0[INDEX]) < |c.tlb|
    ensures var d := CompleteLoad(c);
      && d.tlb == c.tlb && d.load == NoLoad && RndIdx(d.cp0[INDEX]) < |c.tlb|
      && (!LoadsTo(c, INDEX) ==> d.cp0[INDEX] == c.cp0[INDEX])
      && (!LoadsTo(c, ENTRYHI) ==> d.cp0[ENTRYHI] == c.cp0[ENTRYHI])
  {
    hide RndIdx, And32, ResetBit32;
    if LoadsTo(c, INDEX) { IndexLoadSafe(|c.tlb|, c.cp0[INDEX], c.load.val); }
  }

  lemma LoadKeepsRegisters(c: Cpu, t: TLB)
    requires |t| == |c.tlb|
    ensures var d := CompleteLoad(c.(tlb := t)); d.tlb == t && d.load == NoLoad && d.cp0 == CompleteLoad(c).cp0
  {
    hide And32, ResetBit32, IndexMask;
    match c.load
    case NoLoad =>
    case GprLoad(r, v) =>
    case Cp0Load(r, v) =>
  }

  /** What TLBWI leaves: the masked registers in the entry INDEX names, and the load pending before it completed. */
  lemma Written(c: Cpu)
    requires FieldsOk(c) && IndexSafe(c)
    ensures var i := RndIdx(c.cp0[INDEX]); var w := ExecCop0(c, Tlbwi);
      && w.tlb == c.tlb[i := TLBEntry(c.cp0[ENTRYHI], c.cp0[ENTRYLO])] && w.load == NoLoad
      && w.cp0[INDEX] == CompleteLoad(c).cp0[INDEX] && w.cp0[ENTRYHI] == LoadedHi(c)
      && RndIdx(w.cp0[INDEX]) < |c.tlb|
      && (!LoadsTo(c, INDEX) ==> w.cp0[INDEX] == c.cp0[INDEX])
      && (!LoadsTo(c, ENTRYHI) ==> w.cp0[ENTRYHI] == c.cp0[ENTRYHI])
  {
    hide CompleteLoad, And32, RndIdx, Within, EntriesOk;
    WithinIsMasked(c.cp0[ENTRYHI], ENTRYHIMASK);
    WithinIsMasked(c.cp0[ENTRYLO], ENTRYLOMASK);
    LoadRegisters(c);
    LoadKeepsRegisters(c, WriteEntry(c, RndIdx(c.cp0[INDEX])).tlb);
  }

  /**
   * TLBWI then TLBR gives back ENTRYHI and ENTRYLO as TLBWI found them unless a load into INDEX was pending;
   * then TLBR reads the entry that the new INDEX names.
   */
  lemma WriteThenRead(c: Cpu)
    requires FieldsOk(c) && IndexSafe(c)
    ensures var d := ExecCop0(ExecCop0(c, Tlbwi), Tlbr);
      var i, j := RndIdx(c.cp0[INDEX]), RndIdx(CompleteLoad(c).cp0[INDEX]);
      && j < |c.tlb| && (!LoadsTo(c, INDEX) ==> j == i)
      && d.cp0[ENTRYHI] == (if j == i then c.cp0[ENTRYHI] else c.tlb[j].hi)
      && d.cp0[ENTRYLO] == (if j == i then c.cp0[ENTRYLO] else c.tlb[j].lo)
  {
    Written(c);
    var w := ExecCop0(c, Tlbwi);
    assert ExecCop0(w, Tlbr) == ReadEntry(w, RndIdx(w.cp0[INDEX]));
    hide RndIdx, FieldsOk, ExecCop0, CompleteLoad;
  }

  lemma ProbeResult(w: Cpu)
    requires w.load == NoLoad
    ensures var hi := w.cp0[ENTRYHI]; var d := ExecCop0(w, Tlbp);
      && (d.cp0[INDEX] < SIGNMASK ==> Decides(w.tlb, hi, hi, RndIdx(d.cp0[INDEX])))
      && (d.cp0[INDEX] < SIGNMASK <==> exists k :: 0 <= k < |w.tlb| && ForPage(w.tlb[k], hi, hi))
      && (d.cp0[INDEX] >= SIGNMASK ==> d.cp0[INDEX] == SIGNMASK)
  {
    hide Matches, ForPage;
    MatchesAreForPages(w.tlb, w.cp0[ENTRYHI], w.cp0[ENTRYHI]);
    var p := ProbeTLB(w.tlb, w.cp0[ENTRYHI], w.cp0[ENTRYHI]);
    assert ExecCop0(w, Tlbp) == w.With(INDEX, if p.Some? then p.value * 0x100 else SIGNMASK);
  }

  /**
   * TLBWI then TLBP finds the highest match for ENTRYHI as the pending load leaves it, or reports that there
   * is none. Unless that load is to ENTRYHI, it finds the entry just written or a later one.
   */
  lemma WriteThenProbe(c: Cpu)
    requires FieldsOk(c) && IndexSafe(c)
    ensures var i, hi := RndIdx(c.cp0[INDEX]), LoadedHi(c); var w := ExecCop0(c, Tlbwi); var x := ExecCop0(w, Tlbp).cp0[INDEX];
      && (x < SIGNMASK ==> Decides(w.tlb, hi, hi, RndIdx(x)))
      && (x >= SIGNMASK ==> x == SIGNMASK && forall k | 0 <= k < |w.tlb| :: !ForPage(w.tlb[k], hi, hi))
      && (!LoadsTo(c, ENTRYHI) ==> hi == c.cp0[ENTRYHI] && x < SIGNMASK && i <= RndIdx(x))
  {
    Written(c);
    ProbeResult(ExecCop0(c, Tlbwi));
    MatchesItself(TLBEntry(c.cp0[ENTRYHI], c.cp0[ENTRYLO]));
    hide ForPage, RndIdx, ExecCop0, CompleteLoad, FieldsOk, IndexSafe;
    var w := ExecCop0(c, Tlbwi);
    assert !LoadsTo(c, ENTRYHI) ==> ForPage(w.tlb[RndIdx(c.cp0[INDEX])], LoadedHi(c), LoadedHi(c));
  }

  lemma MatchesItself(e: TLBEntry)
    ensures ForPage(e, e.hi, e.hi)
  {
  }

  // ---- the invariants in every run -----------------------------------------------------

  ghost predicate TlbOk(c: Cpu) { FieldsOk(c) && IndexSafe(c) }

  lemma OkEntries(c: Cpu)
    requires TlbOk(c)
    ensures EntriesOk(c)
  {
  }

  /** The entries as they are built. */
  lemma ZeroEntries(c: Cpu)
    requires forall i | 0 <= i < |c.tlb| :: c.tlb[i] == TLBEntry(0, 0)
    ensures EntriesOk(c)
  {
    forall b: nat ensures !BitVal(0, b) { ZeroHasNoBit(b); }
  }

  /** Before its first reset a processor is off and only its entries are known. */
  ghost predicate TlbStands(c: Cpu) { TlbOk(c) || (c.IsHalted() && EntriesOk(c)) }

  /** Registers and entries that matter here are the same. */
  ghost predicate SameTlb(c: Cpu, d: Cpu) {
    && d.tlb == c.tlb && d.cp0[ENTRYHI] == c.cp0[ENTRYHI] && d.cp0[ENTRYLO] == c.cp0[ENTRYLO]
    && d.cp0[INDEX] == c.cp0[INDEX] && d.cp0[RANDOM] == c.cp0[RANDOM]
  }

  lemma SameTlbOk(c: Cpu, d: Cpu)
    requires TlbOk(c) && SameTlb(c, d)
    ensures TlbOk(d)
  {
  }

  lemma IndexLoadSafe(n: TLBSize, index: Word, v: Word)
    ensures RndIdx(index / 0x8000_0000 * 0x8000_0000 + And32(v, IndexMask(n))) < n
  {
    var r: int := And32(v, IndexMask(n));
    assert 0 <= r <= IndexMask(n);
    hide And32;
    NamesEntry(n, index / 0x8000_0000, r);
  }

  lemma NamesEntry(n: TLBSize, q: nat, r: int)
    requires q <= 1 && 0 <= r <= IndexMask(n)
    ensures RndIdx(q * 0x8000_0000 + r) < n
  {
    assert (q * 0x8000_0000 + r) % 0x8000_0000 == r;
  }

  lemma CompleteLoadTlb(c: Cpu)
    requires TlbOk(c)
    ensures TlbOk(CompleteLoad(c)) && |CompleteLoad(c).tlb| == |c.tlb|
  {
    if c.load.Cp0Load? && c.load.cp0reg == INDEX {
      IndexLoadSafe(|c.tlb|, c.cp0[INDEX], c.load.val);
    }
    hide RndIdx, BitVal, ResetBit32;
  }

  lemma SetTLBRegsTlb(c: Cpu, vaddr: Word)
    requires TlbOk(c)
    ensures TlbOk(SetTLBRegs(c, vaddr))
  {
    hide BitVal, RndIdx;
    var d := SetTLBRegs(c, vaddr);
    forall b: nat | BitVal(d.cp0[ENTRYHI], b) ensures BitVal(ENTRYHIMASK, b) { FieldMasks(b); }
  }

  lemma MapVirtualTlb(c: Cpu, vaddr: Word, acc: Access)
    requires TlbOk(c)
    ensures TlbOk(MapVirtual(c, vaddr, acc).0)
  {
    hide ProbeTLB, BitVal, FieldsOk, SetTLBRegs, RndIdx, TlbOk;
    SetTLBRegsTlb(c, vaddr);
    var d, w := SetTLBRegs(c, vaddr), c.With(BADVADDR, vaddr);
    SameTlbOk(c, w);
    forall x: ExcNo ensures TlbOk(SignalExc(d, x, 0)) { SameTlbOk(d, SignalExc(d, x, 0)); }
    forall x: ExcNo ensures TlbOk(SignalExc(w, x, 0)) { SameTlbOk(w, SignalExc(w, x, 0)); }
  }

  lemma HandleExcTlb(c: Cpu)
    requires TlbOk(c)
    ensures TlbOk(HandleExc(c))
  {
    hide CompleteLoad, PushKUIE, ExcCauseWord, TlbOk;
    CompleteLoadTlb(c);
    SameTlbOk(CompleteLoad(c), HandleExc(c));
  }

  lemma MaskedEntryOk(hi: Word, lo: Word)
    ensures Within(MaskedEntry(hi, lo).hi, ENTRYHIMASK) && Within(MaskedEntry(hi, lo).lo, ENTRYLOMASK)
  {
    hide BitVal;
  }

  lemma EntryTlb(c: Cpu, i: nat)
    requires TlbOk(c)
    ensures TlbOk(WriteEntry(c, i)) && TlbOk(ReadEntry(c, i))
  {
    hide Within, MaskedEntry, RndIdx;
    MaskedEntryOk(c.cp0[ENTRYHI], c.cp0[ENTRYLO]);
  }

  lemma ProbeTlbOk(c: Cpu)
    requires TlbOk(c)
    ensures var p := ProbeTLB(c.tlb, c.cp0[ENTRYHI], c.cp0[ENTRYHI]);
      TlbOk(c.With(INDEX, if p.Some? then p.value * 0x100 else SIGNMASK))
  {
    hide Within, Matches;
  }

  lemma ZapOk(c: Cpu)
    requires TlbOk(c)
    ensures TlbOk(c.(tlb := [c.tlb[0]] + seq(|c.tlb| - 1, _ => TLBEntry(0, 0))))
  {
    hide BitVal, RndIdx;
    forall b: nat ensures !BitVal(0, b) { ZeroHasNoBit(b); }
  }

  lemma TlbOpsOk(c: Cpu, op: Cop0Op)
    requires TlbOk(c) && (op == Tlbp || op == Tlbr || op == Tlbwi || op == Tlbwr || op == ZapTlb)
    ensures TlbOk(ExecCop0(c, op))
  {
    hide CompleteLoad, TlbOk, WriteEntry, ReadEntry, ProbeTLB, RndIdx;
    match op
    case Tlbp =>
      var p := ProbeTLB(c.tlb, c.cp0[ENTRYHI], c.cp0[ENTRYHI]);
      ProbeTlbOk(c);
      CompleteLoadTlb(c.With(INDEX, if p.Some? then p.value * 0x100 else SIGNMASK));
    case Tlbr => EntryTlb(c, RndIdx(c.cp0[INDEX])); CompleteLoadTlb(ReadEntry(c, RndIdx(c.cp0[INDEX])));
    case Tlbwi => EntryTlb(c, RndIdx(c.cp0[INDEX])); CompleteLoadTlb(WriteEntry(c, RndIdx(c.cp0[INDEX])));
    case Tlbwr => EntryTlb(c, RndIdx(c.cp0[RANDOM])); CompleteLoadTlb(WriteEntry(c, RndIdx(c.cp0[RANDOM])));
    case ZapTlb =>
      CompleteLoadTlb(c);
      ZapOk(CompleteLoad(c));
  }

  lemma ExecCop0Tlb(c: Cpu, op: Cop0Op)
    requires TlbOk(c)
    ensures TlbOk(ExecCop0(c, op))
  {
    hide CompleteLoad, TlbOk;
    match op
    case Rfe =>
      SameTlbOk(c, c.With(STATUS, PopKUIE(c.cp0[STATUS])));
      CompleteLoadTlb(c.With(STATUS, PopKUIE(c.cp0[STATUS])));
    case Wait => SameTlbOk(c, Suspend(c)); CompleteLoadTlb(Suspend(c));
    case Mfc0(_, _) => CompleteLoadTlb(c); SameTlbOk(CompleteLoad(c), ExecCop0(c, op));
    case Mtc0(_, _) => CompleteLoadTlb(c); SameTlbOk(CompleteLoad(c), ExecCop0(c, op));
    case _ => TlbOpsOk(c, op);
  }

  lemma MemoryTlb(c: Cpu, e: Instr)
    requires TlbOk(c) && (e.LoadMem? || e.StoreMem? || e.CompareSwap?)
    ensures TlbOk(ExecBody(c, e).0)
  {
    hide CompleteLoad, TlbOk, MapVirtual;
    var acc := if e.LoadMem? then Read else Write;
    if e.CompareSwap? {
      MapVirtualTlb(c, e.vaddr, acc);
      var m := MapVirtual(c, e.vaddr, acc).0;
      CompleteLoadTlb(m);
      SameTlbOk(m, SignalExc(m, DB_EXC, 0));
      CompleteLoadTlb(SignalExc(m, DB_EXC, 0));
      if e.data.Some? { SameTlbOk(CompleteLoad(m), SetGpr(CompleteLoad(m), e.rd, e.data.value)); }
    } else {
      CompleteLoadTlb(c);
      MapVirtualTlb(CompleteLoad(c), e.vaddr, acc);
      var m := MapVirtual(CompleteLoad(c), e.vaddr, acc).0;
      SameTlbOk(m, SignalExc(m, DB_EXC, 0));
      if e.LoadMem? && e.data.Some? { SameTlbOk(m, m.(load := GprLoad(e.rt, e.data.value))); }
    }
  }

  lemma ExecuteTlb(c: Cpu, e: Instr)
    requires TlbOk(c)
    ensures TlbOk(Execute(c, e))
  {
    hide HandleExc, ExecBody, TlbOk;
    ExecBodyTlb(c, Effective(c, e));
    var d := ExecBody(c, Effective(c, e)).0;
    SameTlbOk(d, ExecInstr(c, e).0);
    HandleExcTlb(ExecInstr(c, e).0);
  }

  lemma ExecBodyTlb(c: Cpu, e: Instr)
    requires TlbOk(c)
    ensures TlbOk(ExecBody(c, e).0)
  {
    hide CompleteLoad, TlbOk, ExecCop0;
    match e
    case Plain(rd, v) => CompleteLoadTlb(c); SameTlbOk(CompleteLoad(c), SetGpr(CompleteLoad(c), rd, v));
    case MulDiv(hi, lo) =>
      var c1 := SetGpr(SetGpr(c, HI, hi), LO, lo);
      SameTlbOk(c, c1);
      CompleteLoadTlb(c1);
    case Branch(_, _, early, _) =>
      var c1 := if early then SetGpr(c, 31, Add32(c.currPC, 8)) else c;
      SameTlbOk(c, c1);
      CompleteLoadTlb(c1);
      SameTlbOk(CompleteLoad(c1), ExecBody(c, e).0);
    case Faulting(x, cop) => SameTlbOk(c, SignalExc(c, x, cop)); CompleteLoadTlb(SignalExc(c, x, cop));
    case Cop0(op) => ExecCop0Tlb(c, op); SameTlbOk(c, SignalExc(c, CPU_EXC, 0));
    case _ => MemoryTlb(c, e);
  }

  lemma RandomTickSafe(n: TLBSize, random: Word)
    ensures 0x100 <= RandomNext(n, random) <= IndexMask(n)
  {
  }

  lemma InterruptTlb(c: Cpu)
    requires TlbOk(c)
    ensures TlbOk(Interrupt(c))
  {
    hide HandleExc, TlbOk;
    SameTlbOk(c, CheckForInt(c).0);
    HandleExcTlb(CheckForInt(c).0);
  }

  lemma FetchTlb(c: Cpu, word: Option<Word>)
    requires TlbOk(c)
    ensures TlbOk(Fetch(c, word))
  {
    hide HandleExc, MapVirtual, TlbOk;
    MapVirtualTlb(c, c.currPC, Exec);
    var m := MapVirtual(c, c.currPC, Exec).0;
    SameTlbOk(m, m.(currInstr := NOP));
    HandleExcTlb(m.(currInstr := NOP));
    SameTlbOk(m, SignalExc(m, IB_EXC, 0).(currInstr := NOP));
    HandleExcTlb(SignalExc(m, IB_EXC, 0).(currInstr := NOP));
    if word.Some? { SameTlbOk(m, m.(currInstr := word.value)); }
  }

  lemma FinishTlb(c: Cpu, word: Option<Word>)
    requires TlbOk(c)
    ensures TlbOk(Finish(c, word))
  {
    ShiftTlb(c);
    hide Fetch, Interrupt, TlbOk, Shift;
    InterruptTlb(Shift(c));
    FetchTlb(Interrupt(Shift(c)), word);
  }

  lemma ShiftTlb(c: Cpu)
    requires TlbOk(c)
    ensures TlbOk(Shift(c))
  {
    hide RandomNext, Within;
    RandomTickSafe(|c.tlb|, c.cp0[RANDOM]);
  }

  lemma {:induction false} SetLinesTlb(c: Cpu, ops: seq<LineOp>)
    ensures SameTlb(c, SetLines(c, ops))
    decreases |ops|
  {
    if ops != [] {
      SetLinesTlb(SetLine(c, ops[0]), ops[1..]);
    }
  }

  lemma ResetTlb(c: Cpu, pc: Word, sp: Word, first: Word)
    requires EntriesOk(c)
    ensures TlbOk(Reset(c, pc, sp, first))
  {
    forall b: nat ensures !BitVal(0, b) { ZeroHasNoBit(b); }
  }

  lemma StepTlb(c: Cpu, ev: CpuEvent)
    requires TlbOk(c)
    ensures TlbOk(Step(c, ev))
  {
    hide Execute, Finish, TlbOk, SetLines, Reset;
    match ev
    case Tick(e, mid, word) =>
      SameTlbOk(c, CpuTimer(c));
      if Executes(c) {
        ExecuteTlb(CpuTimer(c), e);
        var c2 := Execute(CpuTimer(c), e);
        SetLinesTlb(c2, mid);
        SameTlbOk(c2, SetLines(c2, mid));
        FinishTlb(Executed(c, e, mid), word);
      }
    case Outside(op) => SameTlbOk(c, SetLine(c, op));
    case Restarted(pc, sp, first) => OkEntries(c); ResetTlb(c, pc, sp, first);
    case Stopped => SameTlbOk(c, Halt(c));
  }

  lemma StepTlbStands(c: Cpu, ev: CpuEvent)
    requires TlbStands(c)
    ensures TlbStands(Step(c, ev))
  {
    hide Execute, Finish, TlbOk, Reset, Within;
    if TlbOk(c) {
      StepTlb(c, ev);
    } else if ev.Restarted? {
      ResetTlb(c, ev.pc, ev.sp, ev.first);
    }
  }

  /**
   * In every run from power-on: once a processor has been reset, INDEX and RANDOM name existing entries,
   * RANDOM never entry 0, and fixed fields stay zero.
   */
  lemma {:induction false} TlbInRuns(c: Cpu, evs: seq<CpuEvent>)
    requires TlbStands(c)
    ensures TlbStands(RunCpu(c, evs))
    ensures !RunCpu(c, evs).IsHalted() ==> TlbOk(RunCpu(c, evs))
    decreases |evs|
  {
    if evs != [] {
      hide Step, TlbOk, EntriesOk;
      StepTlbStands(c, evs[0]);
      TlbInRuns(Step(c, evs[0]), evs[1..]);
    }
  }

  // ---- how RANDOM moves ----------------------------------------------------------------

  /** RANDOM after `k` ticks from a reset. */
  function RandomAfter(n: TLBSize, k: nat): Word {
    if k == 0 then RandomAtReset(n) else RandomNext(n, RandomAfter(n, k - 1))
  }

  lemma MaskedIsSame(n: TLBSize, p: nat, i: nat)
    requires n == Pow2(p) && i < n
    ensures And32(i * 0x100, IndexMask(n)) == i * 0x100
  {
    assert Pow2(8) == 0x100;
    hide And, Pow2, Shl;
    ShlIsTimes(n - 1, 8);
    AndField(i * 0x100, p, 8);
    assert i * 0x100 / 0x100 == i;
    SmallMod(i, n);
  }

  lemma SmallMod(i: nat, n: nat)
    requires i < n
    ensures i % n == i
  {
  }

  /** With a power of two entries a tick steps down by one and wraps from entry 1 to the top. */
  lemma RandomStepsDown(n: TLBSize, p: nat, i: nat)
    requires n == Pow2(p) && 1 <= i < n
    ensures RandomNext(n, i * 0x100) == (if i > 1 then i - 1 else n - 1) * 0x100
  {
    MaskedIsSame(n, p, i - 1);
    assert Sub32(i * 0x100, 0x100) == (i - 1) * 0x100;
    hide And32, Pow2;
  }

  /** The entry RANDOM names after `k` ticks, when the size is a power of two. */
  function RandomEntry(n: TLBSize, k: nat): (i: nat)
    ensures 1 <= i < n
  {
    if k == 0 then n - 2 else
    var i := RandomEntry(n, k - 1);
    if i > 1 then i - 1 else n - 1
  }

  lemma {:induction false} RandomIsEntry(n: TLBSize, p: nat, k: nat)
    requires n == Pow2(p)
    ensures RandomAfter(n, k) == RandomEntry(n, k) * 0x100
  {
    if k > 0 {
      RandomIsEntry(n, p, k - 1);
      RandomStepsDown(n, p, RandomEntry(n, k - 1));
    }
  }

  lemma {:induction false} EntryDown(n: TLBSize, k: nat, d: nat)
    requires d < RandomEntry(n, k)
    ensures RandomEntry(n, k + d) == RandomEntry(n, k) - d
  {
    if d > 0 {
      EntryDown(n, k, d - 1);
    }
  }

  lemma EntryWraps(n: TLBSize, k: nat)
    requires RandomEntry(n, k) == 1
    ensures RandomEntry(n, k + 1) == n - 1
  {
  }

  /** RANDOM names every entry but 0 within any tlbSize - 1 ticks, and repeats with that period. */
  lemma RandomCycles(n: TLBSize, p: nat, k: nat, e: nat) returns (d: nat)
    requires n == Pow2(p) && 1 <= e < n
    ensures d < n - 1 && RndIdx(RandomAfter(n, k + d)) == e
    ensures RandomAfter(n, k + (n - 1)) == RandomAfter(n, k)
  {
    hide RandomAfter, Pow2, RandomEntry;
    var i := RandomEntry(n, k);
    EntryDown(n, k, i - 1);
    EntryWraps(n, k + (i - 1));
    assert k + (i - 1) + 1 == k + i;
    EntryDown(n, k + i, n - 1 - i);
    if e <= i {
      d := i - e;
      EntryDown(n, k, d);
    } else {
      d := i + (n - 1 - e);
      EntryDown(n, k + i, n - 1 - e);
    }
    RandomIsEntry(n, p, k + d);
    RandomIsEntry(n, p, k);
    RandomIsEntry(n, p, k + (n - 1));
  }

  lemma {:induction false} OnesIsPow2(m: nat) returns (p: nat)
    requires forall b: nat | Pow2(b) <= m :: BitVal(m, b)
    ensures m + 1 == Pow2(p)
  {
    if m == 0 {
      p := 0;
    } else {
      assert Pow2(0) == 1 && BitVal(m, 0);
      forall b: nat | Pow2(b) <= m / 2 ensures BitVal(m / 2, b) {
        assert Pow2(b + 1) <= m;
        assert BitVal(m, b + 1);
      }
      var q := OnesIsPow2(m / 2);
      p := q + 1;
    }
  }

  /** With any other size some entry is never named: RANDOM's mask has a gap. */
  lemma RandomMisses(n: TLBSize) returns (e: nat)
    requires forall p: nat :: n != Pow2(p)
    ensures 1 <= e < n
    ensures forall k: nat | k > 0 :: RndIdx(RandomAfter(n, k)) != e
  {
    if forall b: nat | Pow2(b) <= n - 1 :: BitVal(n - 1, b) {
      var p := OnesIsPow2(n - 1);
      assert false;
    }
    var b: nat :| Pow2(b) <= n - 1 && !BitVal(n - 1, b);
    e := Pow2(b);
    forall k: nat | k > 0 ensures RndIdx(RandomAfter(n, k)) != e {
      GapStays(n, RandomAfter(n, k - 1), b);
    }
  }

  lemma GapBit(n: TLBSize, random: Word, b: nat)
    requires !BitVal(n - 1, b)
    ensures !BitVal(RandomNext(n, random), 8 + b)
  {
    assert Pow2(8) == 0x100;
    ShlIsTimes(n - 1, 8);
    ShlBits(n - 1, 8, 8 + b);
    assert !BitVal(IndexMask(n), 8 + b);
  }

  lemma GapStays(n: TLBSize, random: Word, b: nat)
    requires Pow2(b) < n && !BitVal(n - 1, b)
    ensures RndIdx(RandomNext(n, random)) != Pow2(b)
  {
    hide RandomNext, BitVal;
    var r := RandomNext(n, random);
    RandomTickSafe(n, random);
    GapBit(n, random, b);
    ShrBits(r, 8, b);
    ShrByte(r);
    OneBitSet(b);
    assert RndIdx(r) == r / 0x100;
  }

  lemma {:induction false} OneBitSet(b: nat)
    ensures BitVal(Pow2(b), b)
  {
    if b > 0 { OneBitSet(b - 1); }
  }
}
