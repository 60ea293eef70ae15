/** Block transfers between a device buffer and memory, as systembus.cc does them word by word. */
module Dma {
  import opened Words

  const BIOSBASE: Word := 0
  const BIOSDATABASE: Word := 0x0FFFF000
  const MMIO_BASE: Word := 0x10000000
  const MMIO_END: Word := 0x10000518
  const CDEV_BITMAP_BASE: Word := 0x10000040
  const CDEV_BITMAP_END: Word := 0x10000054
  const CPUCTL_BASE: Word := 0x10000400
  const CPUCTL_END: Word := 0x10000414
  const BOOTBASE: Word := 0x1FC00000
  const RAMBASE: Word := 0x20000000
  const BLOCKSIZE := 1024

  /** At most 512 frames of 1024 words can be configured. */
  type Ram = m: seq<Word> | |m| <= 512 * BLOCKSIZE witness []
  type Rom = m: seq<Word> | 4 * |m| < 0x8000_0000 witness []
  type Block = b: seq<Word> | |b| == BLOCKSIZE witness seq(BLOCKSIZE, _ => 0)

  /** The register area: what it answers and what a write to it does are the rest of the machine's. */
  datatype Registers<!R> = Registers(state: R, read: (R, Word) -> Word, write: (R, Word, Word) -> R)

  datatype Memory<!R> = Memory(ram: Ram, data: Block, bios: Rom, boot: Rom, regs: Registers<R>)

  // ---- one word ---------------------------------------------------------------------------------

  predicate InBounds(a: Word, base: Word, words: nat) { base <= a < base + 4 * words }

  predicate InRegisters(a: Word) { MMIO_BASE <= a < MMIO_END }

  predicate Writable<R>(m: Memory<R>, a: Word) {
    InBounds(a, RAMBASE, |m.ram|) || InBounds(a, BIOSDATABASE, BLOCKSIZE) || InRegisters(a)
  }

  predicate Readable<R>(m: Memory<R>, a: Word) {
    Writable(m, a) || InBounds(a, BIOSBASE, |m.bios|) || InBounds(a, BOOTBASE, |m.boot|)
  }

  /** The areas in the order in which the bus tries them; all ones where nothing answers. */
  function WordAt<R>(m: Memory<R>, a: Word): Word {
    if InBounds(a, RAMBASE, |m.ram|) then m.ram[(a - RAMBASE) / 4]
    else if InBounds(a, BIOSDATABASE, BLOCKSIZE) then m.data[(a - BIOSDATABASE) / 4]
    else if InBounds(a, BIOSBASE, |m.bios|) then m.bios[(a - BIOSBASE) / 4]
    else if InBounds(a, BOOTBASE, |m.boot|) then m.boot[(a - BOOTBASE) / 4]
    else if InRegisters(a) then m.regs.read(m.regs.state, a)
    else MAX_WORD
  }

  function WithWord<R>(m: Memory<R>, a: Word, w: Word): Memory<R> {
    if InBounds(a, RAMBASE, |m.ram|) then m.(ram := m.ram[(a - RAMBASE) / 4 := w])
    else if InBounds(a, BIOSDATABASE, BLOCKSIZE) then m.(data := m.data[(a - BIOSDATABASE) / 4 := w])
    else if InRegisters(a) then m.(regs := m.regs.(state := m.regs.write(m.regs.state, a, w)))
    else m
  }

  // ---- blocks -----------------------------------------------------------------------------------

  /** The address of word `k` of a block; in 32 bits. */
  function At(addr: Word, k: nat): Word { (addr + 4 * k) % TWO32 }

  /** The words of a block from `k` on up to the first that cannot be read. */
  function ReadRun<R>(m: Memory<R>, addr: Word, k: nat): (n: nat)
    requires k <= BLOCKSIZE
    ensures k <= n <= BLOCKSIZE && (n < BLOCKSIZE ==> !Readable(m, At(addr, n)))
    ensures forall j | k <= j < n :: Readable(m, At(addr, j))
    decreases BLOCKSIZE - k
  {
    if k == BLOCKSIZE || !Readable(m, At(addr, k)) then k else ReadRun(m, addr, k + 1)
  }

  function WriteRun<R>(m: Memory<R>, addr: Word, k: nat): (n: nat)
    requires k <= BLOCKSIZE
    ensures k <= n <= BLOCKSIZE && (n < BLOCKSIZE ==> !Writable(m, At(addr, n)))
    ensures forall j | k <= j < n :: Writable(m, At(addr, j))
    decreases BLOCKSIZE - k
  {
    if k == BLOCKSIZE || !Writable(m, At(addr, k)) then k else WriteRun(m, addr, k + 1)
  }

  /** A block can be fetched from, or sent to, this address without an error. */
  predicate Fetches<R>(m: Memory<R>, addr: Word) { addr % 4 == 0 && ReadRun(m, addr, 0) == BLOCKSIZE }
  predicate Sends<R>(m: Memory<R>, addr: Word) { addr % 4 == 0 && WriteRun(m, addr, 0) == BLOCKSIZE }

  /** The block with its first `n` words read from memory. */
  function Fetched<R>(m: Memory<R>, blk: Block, addr: Word, n: nat): Block
    requires n <= BLOCKSIZE
  {
    seq(BLOCKSIZE, k requires 0 <= k < BLOCKSIZE => if k < n then WordAt(m, At(addr, k)) else blk[k])
  }

  /**
   * The block after it is filled from memory. A misaligned address leaves it alone; a word that cannot be
   * read becomes all ones, and those after it stay as they were.
   */
  function FromMemory<R>(m: Memory<R>, blk: Block, addr: Word): Block {
    var n := ReadRun(m, addr, 0);
    if addr % 4 != 0 then blk
    else if n == BLOCKSIZE then Fetched(m, blk, addr, n) else Fetched(m, blk, addr, n)[n := MAX_WORD]
  }

  /** An area from `base` on with the first `n` words of a block laid over it. */
  function Overlaid(area: seq<Word>, base: Word, blk: Block, addr: Word, n: nat): (r: seq<Word>)
    requires n <= BLOCKSIZE
    ensures |r| == |area|
  {
    seq(|area|, j requires 0 <= j < |area| =>
      var a := base + 4 * j;
      if addr <= a < addr + 4 * n then blk[(a - addr) / 4] else area[j])
  }

  /** The register area after those of the first `n` words that fall into it were written, in order. */
  function RegistersAfter<R>(regs: Registers<R>, blk: Block, addr: Word, n: nat): Registers<R>
    requires n <= BLOCKSIZE
  {
    if n == 0 then regs
    else
      var r := RegistersAfter(regs, blk, addr, n - 1);
      if InRegisters(At(addr, n - 1)) then r.(state := r.write(r.state, At(addr, n - 1), blk[n - 1])) else r
  }

  /** Memory with the first `n` words of the block written. */
  function Sent<R>(m: Memory<R>, blk: Block, addr: Word, n: nat): Memory<R>
    requires n <= BLOCKSIZE
  {
    m.(ram := Overlaid(m.ram, RAMBASE, blk, addr, n),
       data := Overlaid(m.data, BIOSDATABASE, blk, addr, n),
       regs := RegistersAfter(m.regs, blk, addr, n))
  }

  /** Memory after the block is copied to it: the words up to the first that cannot be written, nothing else. */
  function ToMemory<R>(m: Memory<R>, blk: Block, addr: Word): Memory<R> {
    if addr % 4 != 0 then m else Sent(m, blk, addr, WriteRun(m, addr, 0))
  }

  /**
   * What a word address reads as, by area: RAM, the page of BIOS data, the two ROMs where neither lies over the other
   * or over RAM, and the registers where no ROM lies over them.
   */
  lemma WordsRead<R>(m: Memory<R>, a: Word)
    ensures 0x2000_0000 <= a < 0x2000_0000 + 4 * |m.ram| ==> WordAt(m, a) == m.ram[(a - 0x2000_0000) / 4]
    ensures 0x0FFF_F000 <= a < 0x1000_0000 ==> WordAt(m, a) == m.data[(a - 0x0FFF_F000) / 4]
    ensures a < 4 * |m.bios| && a < 0x0FFF_F000 ==> WordAt(m, a) == m.bios[a / 4]
    ensures 0x1FC0_0000 <= a < 0x1FC0_0000 + 4 * |m.boot| && 4 * |m.bios| <= a < 0x2000_0000 ==>
      WordAt(m, a) == m.boot[(a - 0x1FC0_0000) / 4]
    ensures 0x1000_0000 <= a < 0x1000_0518 && 4 * |m.bios| <= a ==> WordAt(m, a) == m.regs.read(m.regs.state, a)
    ensures !Readable(m, a) ==> WordAt(m, a) == 0xFFFF_FFFF
  {
  }

  // ---- which addresses take a block -----------------------------------------------------------------

  function RamEnd<R>(m: Memory<R>): Word { RAMBASE + 4 * |m.ram| }

  /** Where a word can be written: RAM, or the BIOS data page and the registers that follow it. */
  lemma WritableIs<R>(m: Memory<R>, a: Word)
    ensures Writable(m, a) <==> RAMBASE <= a < RamEnd(m) || BIOSDATABASE <= a < MMIO_END
    ensures RamEnd(m) % 4 == 0
  {
  }

  lemma AllWritable<R>(m: Memory<R>, addr: Word)
    requires forall k: nat | k < BLOCKSIZE :: Writable(m, At(addr, k))
    ensures WriteRun(m, addr, 0) == BLOCKSIZE
  {
    hide Writable, At, WriteRun;
    RunWrites(m, addr, 0);
  }

  predicate TakesBlock<R>(m: Memory<R>, addr: Word) {
    || (RAMBASE <= addr && addr + 4 * BLOCKSIZE <= RamEnd(m))
    || (BIOSDATABASE <= addr && addr + 4 * BLOCKSIZE <= MMIO_END)
  }

  /** The bus takes a block exactly in RAM, or in the BIOS data page and the registers that follow it. */
  lemma SendsIff<R>(m: Memory<R>, addr: Word)
    ensures Sends(m, addr) <==> addr % 4 == 0 && TakesBlock(m, addr)
  {
    hide Writable, WriteRun, At;
    WritableIs(m, addr);
    if addr % 4 == 0 && TakesBlock(m, addr) {
      forall k: nat | k < BLOCKSIZE ensures Writable(m, At(addr, k)) {
        Straight(m, addr, k);
        WritableIs(m, At(addr, k));
      }
      AllWritable(m, addr);
    } else if Sends(m, addr) {
      FirstAndLast(m, addr);
      Straight(m, addr, 0);
      Straight(m, addr, BLOCKSIZE - 1);
      WritableIs(m, At(addr, BLOCKSIZE - 1));
    }
  }

  lemma FirstAndLast<R>(m: Memory<R>, addr: Word)
    requires Sends(m, addr)
    ensures Writable(m, addr) && Writable(m, At(addr, BLOCKSIZE - 1))
  {
    hide Writable, WriteRun, At;
    SentAreWritable(m, addr);
    StartOfBlock(addr);
    assert Writable(m, At(addr, 0));
  }

  lemma StartOfBlock(addr: Word)
    ensures At(addr, 0) == addr
  {
  }

  lemma Straight<R>(m: Memory<R>, addr: Word, k: nat)
    requires Writable(m, addr) && k < BLOCKSIZE
    ensures At(addr, k) as int == addr + 4 * k
  {
  }

  /**
   * The registers whose meaning depends on the processor that asks; a transfer is asked for by none, and the
   * emulator then follows a null pointer.
   */
  predicate AsksProcessor(a: Word, toMemory: bool) {
    CPUCTL_BASE <= a < CPUCTL_END || (!toMemory && CDEV_BITMAP_BASE <= a < CDEV_BITMAP_END)
  }

  /** The transfer gets as far as such a register. */
  ghost predicate Reaches<R>(m: Memory<R>, addr: Word, toMemory: bool) {
    addr % 4 == 0 &&
    exists k: nat :: k < (if toMemory then WriteRun(m, addr, 0) else ReadRun(m, addr, 0)) && AsksProcessor(At(addr, k), toMemory)
  }

  /** Where sending gets that far. */
  lemma SendReachesIff<R>(m: Memory<R>, addr: Word)
    ensures Reaches(m, addr, true) <==>
      addr % 4 == 0 && CPUCTL_BASE < addr + 4 * BLOCKSIZE && addr < CPUCTL_END
  {
    hide Writable, At, WriteRun;
    RunWrites(m, addr, 0);
    WritableIs(m, addr);
    var n := WriteRun(m, addr, 0);
    if addr % 4 == 0 && CPUCTL_BASE < addr + 4 * BLOCKSIZE && addr < CPUCTL_END {
      var a := if addr < CPUCTL_BASE then CPUCTL_BASE else addr;
      var k := (a - addr) / 4;
      Straight(m, addr, k);
      WritableUpTo(m, addr, k);
      assert At(addr, k) == a;
      assert k < n && AsksProcessor(At(addr, k), true);
    }
    if Reaches(m, addr, true) {
      var k: nat :| k < n && AsksProcessor(At(addr, k), true);
      FirstWritten(m, addr, n);
      Straight(m, addr, k);
    }
  }

  /** A block is sent, and reaches no such register, exactly in RAM or well before the first of them. */
  lemma SentSafelyIff<R>(m: Memory<R>, addr: Word)
    ensures Sends(m, addr) && !Reaches(m, addr, true) <==>
      addr % 4 == 0 &&
      ((RAMBASE <= addr && addr + 4 * BLOCKSIZE <= RamEnd(m)) || (BIOSDATABASE <= addr && addr + 4 * BLOCKSIZE <= CPUCTL_BASE))
  {
    hide Sends, Reaches;
    SendsIff(m, addr);
    SendReachesIff(m, addr);
  }

  lemma FirstWritten<R>(m: Memory<R>, addr: Word, n: nat)
    requires n == WriteRun(m, addr, 0) > 0
    ensures Writable(m, addr)
  {
    hide Writable, At, WriteRun;
    RunWrites(m, addr, 0);
    StartOfBlock(addr);
    assert Writable(m, At(addr, 0));
  }

  /** From the BIOS data page on every word up to the end of the registers can be written. */
  lemma WritableUpTo<R>(m: Memory<R>, addr: Word, k: nat)
    requires BIOSDATABASE <= addr && k < BLOCKSIZE && addr + 4 * k < MMIO_END
    ensures WriteRun(m, addr, 0) > k
  {
    hide Writable, At, WriteRun;
    RunWrites(m, addr, 0);
    WritableIs(m, addr);
    var n := WriteRun(m, addr, 0);
    if n <= k {
      Straight(m, addr, n);
      WritableIs(m, At(addr, n));
      assert false;
    }
  }

  /** The same for fetching, where the pending-device bitmap depends on the processor too, and no ROM lies over it. */
  lemma FetchReachesIff<R>(m: Memory<R>, addr: Word)
    requires 4 * |m.bios| <= MMIO_BASE
    ensures Reaches(m, addr, false) <==>
      addr % 4 == 0 && CDEV_BITMAP_BASE < addr + 4 * BLOCKSIZE && addr < CPUCTL_END
  {
    hide Writable, Readable, At, WriteRun, ReadRun;
    RunReads(m, addr, 0);
    WritableIs(m, addr);
    var n := ReadRun(m, addr, 0);
    if addr % 4 == 0 && CDEV_BITMAP_BASE < addr + 4 * BLOCKSIZE && addr < CPUCTL_END {
      var a: Word := if addr < CDEV_BITMAP_BASE then CDEV_BITMAP_BASE
        else if addr < CDEV_BITMAP_END || CPUCTL_BASE <= addr then addr else CPUCTL_BASE;
      var k := (a - addr) / 4;
      Straight(m, addr, k);
      WritableUpTo(m, addr, k);
      ReadsFurther(m, addr);
      assert At(addr, k) == a;
      assert k < n && AsksProcessor(At(addr, k), false);
    }
    if Reaches(m, addr, false) {
      var k: nat :| k < n && AsksProcessor(At(addr, k), false);
      FirstRead(m, addr, n);
      StraightRead(m, addr, k);
    }
  }

  lemma FirstRead<R>(m: Memory<R>, addr: Word, n: nat)
    requires n == ReadRun(m, addr, 0) > 0
    ensures Readable(m, addr)
  {
    hide Readable, At, ReadRun;
    RunReads(m, addr, 0);
    StartOfBlock(addr);
    assert Readable(m, At(addr, 0));
  }

  lemma StraightRead<R>(m: Memory<R>, addr: Word, k: nat)
    requires Readable(m, addr) && k < BLOCKSIZE
    ensures At(addr, k) as int == addr + 4 * k
  {
  }

  /** What can be written can be read. */
  lemma ReadsFurther<R>(m: Memory<R>, addr: Word)
    ensures WriteRun(m, addr, 0) <= ReadRun(m, addr, 0)
  {
    hide Writable, At, WriteRun, ReadRun;
    RunReads(m, addr, 0);
    RunWrites(m, addr, 0);
    var n := ReadRun(m, addr, 0);
    if n < BLOCKSIZE { WritableReads(m, At(addr, n)); }
  }

  lemma WritableReads<R>(m: Memory<R>, a: Word)
    ensures Writable(m, a) ==> Readable(m, a)
  {
    hide Writable;
  }

  /** Fetching works wherever sending does, and from the ROMs. */
  lemma FetchesWhereSends<R>(m: Memory<R>, addr: Word)
    requires Sends(m, addr)
    ensures Fetches(m, addr)
  {
    hide Writable, At, WriteRun, ReadRun;
    SentAreWritable(m, addr);
    RunReads(m, addr, 0);
  }

  lemma RunWrites<R>(m: Memory<R>, addr: Word, k: nat)
    requires k <= BLOCKSIZE
    ensures var n := WriteRun(m, addr, k);
      && n <= BLOCKSIZE && (n < BLOCKSIZE ==> !Writable(m, At(addr, n)))
      && forall j: nat | k <= j < n :: Writable(m, At(addr, j))
  {
    hide Writable, At;
  }

  lemma SentAreWritable<R>(m: Memory<R>, addr: Word)
    requires Sends(m, addr)
    ensures forall k: nat | k < BLOCKSIZE :: Writable(m, At(addr, k))
  {
    hide Writable, At, WriteRun;
    RunWrites(m, addr, 0);
  }

  // ---- what a fetch leaves in the block -------------------------------------------------------------

  /** Memory has this block at this address. */
  ghost predicate HasBlock<R>(m: Memory<R>, addr: Word, b: Block) {
    addr % 4 == 0 && forall k: nat | k < BLOCKSIZE :: Readable(m, At(addr, k)) && b[k] == WordAt(m, At(addr, k))
  }

  /** The words read, then all ones at the first that cannot be, then what was there before. */
  ghost predicate CutShort<R>(m: Memory<R>, addr: Word, old': Block, b: Block, n: nat) {
    && n < BLOCKSIZE && !Readable(m, At(addr, n)) && b[n] == MAX_WORD
    && (forall k: nat | k < n :: Readable(m, At(addr, k)) && b[k] == WordAt(m, At(addr, k)))
    && (forall k: nat | n < k < BLOCKSIZE :: b[k] == old'[k])
  }

  lemma FetchLeaves<R>(m: Memory<R>, blk: Block, addr: Word)
    ensures var b := FromMemory(m, blk, addr);
      && (HasBlock(m, addr, b) <==> Fetches(m, addr))
      && (addr % 4 != 0 ==> b == blk)
      && (addr % 4 == 0 && !Fetches(m, addr) ==> CutShort(m, addr, blk, b, ReadRun(m, addr, 0)))
  {
    hide Readable, WordAt, At, ReadRun;
    RunReads(m, addr, 0);
    var n := ReadRun(m, addr, 0);
    if addr % 4 == 0 && n < BLOCKSIZE {
      assert !Readable(m, At(addr, n));
    }
  }

  lemma RunReads<R>(m: Memory<R>, addr: Word, k: nat)
    requires k <= BLOCKSIZE
    ensures var n := ReadRun(m, addr, k);
      && n <= BLOCKSIZE && (n < BLOCKSIZE ==> !Readable(m, At(addr, n)))
      && forall j: nat | k <= j < n :: Readable(m, At(addr, j))
  {
    hide Readable, At;
  }

  lemma Misaligned<R>(m: Memory<R>, addr: Word)
    requires addr % 4 != 0
    ensures !Fetches(m, addr) && !Sends(m, addr)
  {
  }

  /** Where no ROM reaches RAM, a block is fetched from there exactly if it is aligned and fits. */
  lemma FetchesFromRam<R>(m: Memory<R>, addr: Word)
    requires addr >= RAMBASE && BOOTBASE + 4 * |m.boot| <= RAMBASE && 4 * |m.bios| <= RAMBASE
    ensures Fetches(m, addr) <==> addr % 4 == 0 && addr + 4 * BLOCKSIZE <= RamEnd(m)
  {
    hide Writable, ReadRun, WriteRun, At;
    SendsIff(m, addr);
    if Sends(m, addr) {
      FetchesWhereSends(m, addr);
    } else if Fetches(m, addr) {
      RunReads(m, addr, 0);
      assert Readable(m, At(addr, 0)) && Readable(m, At(addr, BLOCKSIZE - 1));
      StartOfBlock(addr);
      WritableIs(m, addr);
      Straight(m, addr, BLOCKSIZE - 1);
      WritableIs(m, At(addr, BLOCKSIZE - 1));
    }
  }

  // ---- a block and back ---------------------------------------------------------------------------

  /** The words of the block are where they were sent. */
  lemma OverlaidAt(area: seq<Word>, base: Word, blk: Block, addr: Word, n: nat, k: nat)
    requires n <= BLOCKSIZE && k < n && addr % 4 == 0 && base % 4 == 0
    requires base <= addr + 4 * k < base + 4 * |area|
    ensures Overlaid(area, base, blk, addr, n)[(addr + 4 * k - base) / 4] == blk[k]
  {
    var j := (addr + 4 * k - base) / 4;
    assert base + 4 * j == addr + 4 * k;
  }

  /** A block sent to RAM, or to the BIOS data page, and fetched back from there is the same block. */
  lemma SentThenFetched<R>(m: Memory<R>, blk: Block, other: Block, addr: Word)
    requires Sends(m, addr) && (addr >= RAMBASE || addr == BIOSDATABASE)
    ensures Fetches(ToMemory(m, blk, addr), addr)
    ensures FromMemory(ToMemory(m, blk, addr), other, addr) == blk
  {
    hide ReadRun, WriteRun, Overlaid, RegistersAfter;
    var r := ToMemory(m, blk, addr);
    SendsIff(m, addr);
    SendsIff(r, addr);
    FetchesWhereSends(r, addr);
    var f := FromMemory(r, other, addr);
    forall k | 0 <= k < BLOCKSIZE ensures f[k] == blk[k] {
      if addr >= RAMBASE {
        OverlaidAt(m.ram, RAMBASE, blk, addr, BLOCKSIZE, k);
      } else {
        OverlaidAt(m.data, BIOSDATABASE, blk, addr, BLOCKSIZE, k);
      }
    }
  }

  /** A transfer leaves every word outside its block as it was, registers aside, and changes no size and no ROM. */
  lemma OutsideUntouched<R>(m: Memory<R>, blk: Block, addr: Word, a: Word)
    requires a % 4 == 0 && !InRegisters(a) && (addr % 4 != 0 || !(addr <= a < addr + 4 * BLOCKSIZE))
    ensures var r := ToMemory(m, blk, addr);
      && WordAt(r, a) == WordAt(m, a) && (Writable(r, a) <==> Writable(m, a))
      && r.bios == m.bios && r.boot == m.boot && |r.ram| == |m.ram|
  {
    hide WriteRun, RegistersAfter, Overlaid;
    var n := WriteRunBound(m, addr);
    if addr % 4 == 0 && InBounds(a, RAMBASE, |m.ram|) { NotOverlaid(m.ram, RAMBASE, blk, addr, n, (a - RAMBASE) / 4); }
    if addr % 4 == 0 && InBounds(a, BIOSDATABASE, BLOCKSIZE) { NotOverlaid(m.data, BIOSDATABASE, blk, addr, n, (a - BIOSDATABASE) / 4); }
  }

  lemma WriteRunBound<R>(m: Memory<R>, addr: Word) returns (n: nat)
    ensures n == WriteRun(m, addr, 0) <= BLOCKSIZE
  {
    n := WriteRun(m, addr, 0);
  }

  lemma NotOverlaid(area: seq<Word>, base: Word, blk: Block, addr: Word, n: nat, j: nat)
    requires n <= BLOCKSIZE && j < |area| && !(addr <= base + 4 * j < addr + 4 * n)
    ensures |Overlaid(area, base, blk, addr, n)| == |area| && Overlaid(area, base, blk, addr, n)[j] == area[j]
  {
  }

  // ---- the loops, one word at a time ----------------------------------------------------------------

  lemma FetchedOne<R>(m: Memory<R>, blk: Block, addr: Word, n: nat)
    requires n < BLOCKSIZE
    ensures Fetched(m, blk, addr, n)[n := WordAt(m, At(addr, n))] == Fetched(m, blk, addr, n + 1)
  {
    hide WordAt, At;
  }

  lemma FetchedNone<R>(m: Memory<R>, blk: Block, addr: Word)
    ensures Fetched(m, blk, addr, 0) == blk
  {
  }

  lemma OverlaidNone(area: seq<Word>, base: Word, blk: Block, addr: Word)
    ensures Overlaid(area, base, blk, addr, 0) == area
  {
  }

  lemma SentNone<R>(m: Memory<R>, blk: Block, addr: Word)
    ensures Sent(m, blk, addr, 0) == m
  {
    OverlaidNone(m.ram, RAMBASE, blk, addr);
    OverlaidNone(m.data, BIOSDATABASE, blk, addr);
  }

  lemma OverlaidIs(area: seq<Word>, base: Word, blk: Block, addr: Word, n: nat, j: nat)
    requires n <= BLOCKSIZE && j < |area|
    ensures var a := base + 4 * j; var r := Overlaid(area, base, blk, addr, n);
      |r| == |area| && r[j] == if addr <= a < addr + 4 * n then blk[(a - addr) / 4] else area[j]
  {
  }

  lemma OverlaidSize(area: seq<Word>, base: Word, blk: Block, addr: Word, n: nat)
    requires n <= BLOCKSIZE
    ensures |Overlaid(area, base, blk, addr, n)| == |area|
  {
  }

  lemma OverlaidOne(area: seq<Word>, base: Word, blk: Block, addr: Word, n: nat)
    requires n < BLOCKSIZE && addr % 4 == 0 && base % 4 == 0
    ensures var a := addr + 4 * n; var r := Overlaid(area, base, blk, addr, n);
      |r| == |area| &&
      Overlaid(area, base, blk, addr, n + 1) ==
        if base <= a < base + 4 * |area| then r[(a - base) / 4 := blk[n]] else r
  {
    hide Overlaid;
    var a, r, q := addr + 4 * n, Overlaid(area, base, blk, addr, n), Overlaid(area, base, blk, addr, n + 1);
    OverlaidSize(area, base, blk, addr, n);
    OverlaidSize(area, base, blk, addr, n + 1);
    forall j | 0 <= j < |area|
      ensures q[j] == if base + 4 * j == a then blk[n] else r[j]
    {
      OverlaidIs(area, base, blk, addr, n, j);
      OverlaidIs(area, base, blk, addr, n + 1, j);
      SameWord(base, addr, n, j);
    }
    SamePlace(base, a, |area|);
  }

  /** Aligned words are four bytes apart. */
  lemma SameWord(base: Word, addr: Word, n: nat, j: nat)
    requires addr % 4 == 0 && base % 4 == 0
    ensures addr <= base + 4 * j < addr + 4 * (n + 1) <==> addr <= base + 4 * j < addr + 4 * n || base + 4 * j == addr + 4 * n
    ensures base + 4 * j == addr + 4 * n ==> (base + 4 * j - addr) / 4 == n
  {
  }

  lemma SamePlace(base: Word, a: nat, size: nat)
    requires base % 4 == 0 && a % 4 == 0
    ensures forall j: nat :: j < size && base + 4 * j == a <==> base <= a < base + 4 * size && j == (a - base) / 4
  {
  }

  lemma SentOne<R>(m: Memory<R>, blk: Block, addr: Word, n: nat)
    requires n < BLOCKSIZE && addr % 4 == 0 && Writable(m, addr)
    ensures WithWord(Sent(m, blk, addr, n), At(addr, n), blk[n]) == Sent(m, blk, addr, n + 1)
    ensures |Sent(m, blk, addr, n).ram| == |m.ram|
  {
    hide Overlaid, At, Writable;
    Straight(m, addr, n);
    OverlaidOne(m.ram, RAMBASE, blk, addr, n);
    OverlaidOne(m.data, BIOSDATABASE, blk, addr, n);
  }

  class Bus<R> {
    const ram: array<Word>
    const biosdata: array<Word>
    const bios: Rom
    const boot: Rom
    var regs: Registers<R>

    constructor (size: nat, bios: Rom, boot: Rom, regs: Registers<R>)
      requires size <= 512 * BLOCKSIZE
      ensures Valid() && fresh(ram) && fresh(biosdata) && ram.Length == size
      ensures this.bios == bios && this.boot == boot && this.regs == regs
    {
      ram, biosdata := new Word[size], new Word[BLOCKSIZE];
      this.bios, this.boot, this.regs := bios, boot, regs;
    }

    ghost predicate Valid() { ram.Length <= 512 * BLOCKSIZE && biosdata.Length == BLOCKSIZE && biosdata != ram }

    ghost function View(): Memory<R>
      reads this, ram, biosdata
      requires Valid()
    {
      Memory(ram[..], biosdata[..], bios, boot, regs)
    }

    method BusRead(addr: Word) returns (error: bool, data: Word)
      requires Valid()
      ensures error <==> !Readable(View(), addr)
      ensures data == WordAt(View(), addr)
    {
      if InBounds(addr, RAMBASE, ram.Length) {
        return false, ram[(addr - RAMBASE) / 4];
      } else if InBounds(addr, BIOSDATABASE, BLOCKSIZE) {
        return false, biosdata[(addr - BIOSDATABASE) / 4];
      } else if InBounds(addr, BIOSBASE, |bios|) {
        return false, bios[(addr - BIOSBASE) / 4];
      } else if InBounds(addr, BOOTBASE, |boot|) {
        return false, boot[(addr - BOOTBASE) / 4];
      } else if InRegisters(addr) {
        return false, regs.read(regs.state, addr);
      } else {
        return true, MAX_WORD;
      }
    }

    method BusWrite(addr: Word, data: Word) returns (error: bool)
      requires Valid()
      modifies ram, biosdata, this`regs
      ensures error <==> !Writable(old(View()), addr)
      ensures View() == WithWord(old(View()), addr, data)
    {
      if InBounds(addr, RAMBASE, ram.Length) {
        ram[(addr - RAMBASE) / 4] := data;
      } else if InBounds(addr, BIOSDATABASE, BLOCKSIZE) {
        biosdata[(addr - BIOSDATABASE) / 4] := data;
      } else if InRegisters(addr) {
        regs := regs.(state := regs.write(regs.state, addr, data));
      } else {
        return true;
      }
      return false;
    }

    method SendBlock(blk: array<Word>, startAddr: Word) returns (error: bool)
      requires Valid() && blk.Length == BLOCKSIZE && blk != ram && blk != biosdata && startAddr % 4 == 0
      modifies ram, biosdata, this`regs
      ensures error <==> !Sends(old(View()), startAddr)
      ensures View() == ToMemory(old(View()), blk[..], startAddr)
    {
      hide Writable, Overlaid, WithWord, At;
      error := false;
      ghost var was, full: Block, n := View(), blk[..], WriteRun(View(), startAddr, 0);
      var ofs := 0;
      SentNone(was, full, startAddr);
      while ofs < BLOCKSIZE && !error
        invariant ofs <= BLOCKSIZE && if error then ofs == n + 1 else ofs <= n
        invariant View() == Sent(was, full, startAddr, if error then n else ofs)
      {
        SameWritable(was, full, startAddr, ofs);
        if ofs < n { WrittenFirst(was, startAddr); SentOne(was, full, startAddr, ofs); } else { Refused(Sent(was, full, startAddr, ofs), At(startAddr, ofs), full[ofs]); }
        error := BusWrite(At(startAddr, ofs), blk[ofs]);
        ofs := ofs + 1;
      }
    }

    method FetchBlock(blk: array<Word>, startAddr: Word) returns (error: bool)
      requires Valid() && blk.Length == BLOCKSIZE && blk != ram && blk != biosdata && startAddr % 4 == 0
      modifies blk
      ensures error <==> !Fetches(View(), startAddr)
      ensures blk[..] == FromMemory(View(), old(blk[..]), startAddr)
    {
      hide Readable, WordAt, Fetched, At;
      error := false;
      ghost var was, full: Block, n := View(), blk[..], ReadRun(View(), startAddr, 0);
      var ofs := 0;
      FetchedNone(was, full, startAddr);
      while ofs < BLOCKSIZE && !error
        invariant ofs <= BLOCKSIZE && if error then ofs == n + 1 else ofs <= n
        invariant blk[..] == if error then Fetched(was, full, startAddr, n)[n := MAX_WORD] else Fetched(was, full, startAddr, ofs)
      {
        FetchedOne(was, full, startAddr, ofs);
        Unanswered(was, At(startAddr, ofs));
        var val;
        error, val := BusRead(At(startAddr, ofs));
        blk[ofs] := val;
        ofs := ofs + 1;
      }
    }

    method DMATransfer(blk: array<Word>, startAddr: Word, toMemory: bool) returns (error: bool)
      requires Valid() && blk.Length == BLOCKSIZE && blk != ram && blk != biosdata
      modifies ram, biosdata, this`regs, blk
      ensures toMemory ==> (error <==> !Sends(old(View()), startAddr))
      ensures !toMemory ==> (error <==> !Fetches(old(View()), startAddr))
      ensures toMemory ==> View() == ToMemory(old(View()), old(blk[..]), startAddr) && blk[..] == old(blk[..])
      ensures !toMemory ==> View() == old(View()) && blk[..] == FromMemory(View(), old(blk[..]), startAddr)
    {
      if startAddr % 4 != 0 { return true; }
      if toMemory {
        error := SendBlock(blk, startAddr);
      } else {
        error := FetchBlock(blk, startAddr);
      }
    }
  }

  lemma Unanswered<R>(m: Memory<R>, a: Word)
    ensures !Readable(m, a) ==> WordAt(m, a) == MAX_WORD
  {
  }

  /** Writing words changes nothing about which can be written. */
  lemma SameWritable<R>(m: Memory<R>, blk: Block, addr: Word, n: nat)
    requires n <= BLOCKSIZE
    ensures forall a: Word :: Writable(Sent(m, blk, addr, n), a) <==> Writable(m, a)
  {
    hide Overlaid, RegistersAfter;
  }

  lemma Refused<R>(m: Memory<R>, a: Word, w: Word)
    requires !Writable(m, a)
    ensures WithWord(m, a, w) == m
  {
  }

  lemma RunGoesOn<R>(m: Memory<R>, addr: Word, k: nat)
    requires k < BLOCKSIZE
    ensures WriteRun(m, addr, k) > k <==> Writable(m, At(addr, k))
  {
    hide Writable, At;
  }

  lemma WrittenFirst<R>(m: Memory<R>, addr: Word)
    requires WriteRun(m, addr, 0) > 0
    ensures Writable(m, addr)
  {
    hide Writable, WriteRun, At;
    RunGoesOn(m, addr, 0);
    StartOfBlock(addr);
  }

  // ---- blocks in RAM --------------------------------------------------------------------------------

  /** A whole block of RAM starts at this address. */
  predicate InRam<R>(mem: Memory<R>, addr: Word) {
    addr % 4 == 0 && 0x2000_0000 <= addr && addr + 0x1000 <= 0x2000_0000 + 4 * |mem.ram|
  }

  ghost predicate RamHas<R>(mem: Memory<R>, addr: Word, b: Block)
    requires InRam(mem, addr)
  {
    forall k: nat | k < 0x400 :: mem.ram[(addr - 0x2000_0000) / 4 + k] == b[k]
  }

  lemma InRamSends<R>(mem: Memory<R>, addr: Word)
    requires InRam(mem, addr)
    ensures Sends(mem, addr)
  {
    hide WriteRun, Writable;
    SendsIff(mem, addr);
  }

  lemma LaidInRam(ram: Ram, b: Block, addr: Word, k: nat)
    requires addr % 4 == 0 && RAMBASE <= addr && addr + 0x1000 <= RAMBASE + 4 * |ram| && k < 0x400
    ensures Overlaid(ram, RAMBASE, b, addr, BLOCKSIZE)[(addr - RAMBASE) / 4 + k] == b[k]
  {
    assert RAMBASE + 4 * ((addr - RAMBASE) / 4 + k) == addr + 4 * k;
  }

  lemma LaidOnlyThere(ram: Ram, b: Block, addr: Word, j: nat)
    requires addr % 4 == 0 && RAMBASE <= addr && j < |ram| && !(0 <= j - (addr - RAMBASE) / 4 < 0x400)
    ensures Overlaid(ram, RAMBASE, b, addr, BLOCKSIZE)[j] == ram[j]
  {
  }

  lemma RamAfter<R>(mem: Memory<R>, b: Block, addr: Word)
    requires Sends(mem, addr)
    ensures ToMemory(mem, b, addr).ram == Overlaid(mem.ram, RAMBASE, b, addr, BLOCKSIZE)
  {
    hide WriteRun, RegistersAfter, Overlaid;
  }

  lemma SentToRam<R>(mem: Memory<R>, b: Block, addr: Word)
    requires InRam(mem, addr)
    ensures var r := ToMemory(mem, b, addr);
      && InRam(r, addr) && RamHas(r, addr, b)
      && (forall j | 0 <= j < |mem.ram| && !(0 <= j - (addr - 0x2000_0000) / 4 < 0x400) :: r.ram[j] == mem.ram[j])
  {
    hide Sends, ToMemory, Overlaid;
    InRamSends(mem, addr);
    RamAfter(mem, b, addr);
    forall k: nat | k < 0x400 ensures ToMemory(mem, b, addr).ram[(addr - RAMBASE) / 4 + k] == b[k] {
      LaidInRam(mem.ram, b, addr, k);
    }
    forall j | 0 <= j < |mem.ram| && !(0 <= j - (addr - 0x2000_0000) / 4 < 0x400)
      ensures ToMemory(mem, b, addr).ram[j] == mem.ram[j]
    {
      LaidOnlyThere(mem.ram, b, addr, j);
    }
  }

  lemma FetchedFromRam<R>(mem: Memory<R>, old': Block, addr: Word)
    requires InRam(mem, addr)
    ensures RamHas(mem, addr, FromMemory(mem, old', addr))
  {
    hide ReadRun, WriteRun, Writable, At, Sends;
    InRamSends(mem, addr);
    FetchesWhereSends(mem, addr);
    WritableIs(mem, addr);
    var b := FromMemory(mem, old', addr);
    forall k: nat | k < 0x400 ensures mem.ram[(addr - 0x2000_0000) / 4 + k] == b[k] {
      Straight(mem, addr, k);
      assert b[k] == WordAt(mem, At(addr, k));
    }
  }
}
