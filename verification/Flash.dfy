/** The flash drive of device.cc: a one-block buffer in front of an image file, filled and drained by DMA. */
module Flash {
  import opened Words
  import opened Dma
  import opened Images

  const READY: Word := 1
  const ILOPERR: Word := 2
  const BUSY: Word := 3
  const FREADERR: Word := 4
  const FWRITERR: Word := 5
  const FDMAERR: Word := 6

  const RESET: Word := 0
  const ACK: Word := 1
  const FREADBLK: Word := 2
  const FWRITEBLK: Word := 3

  // Register numbers.
  const COMMAND := 1
  const DATA0 := 2

  const HEADER := 3

  /** The block the buffer holds; the emulator writes MAXWORDVAL for none. */
  datatype Tag = NoBlock | Held(block: nat)

  datatype Flash = Flash(
    blocks: nat,
    status: Word,
    command: Word,
    data0: Word,
    tag: Tag,
    buffer: Block,
    image: Image,
    isWorking: bool,
    requested: bool)

  function Target(command: Word): nat { command / 0x100 % 0x100_0000 }
  function Op(command: Word): Word { command % 0x100 }

  /** The image has the blocks its header announces. */
  predicate Sized(blocks: nat, image: Image) {
    blocks <= 0xFF_FFFF && HEADER + blocks * BLOCKSIZE <= |image|
  }

  function Done(d: Flash, status: Word, request: bool): Flash { d.(status := status, requested := request) }

  /** Writing COMMAND. A write command fetches its block at once; a failed fetch only costs the tag. */
  function WriteCommand<R>(d: Flash, mem: Memory<R>, data: Word): Flash
  {
    var d1 := d.(command := data);
    if Op(data) == RESET then Done(d1, BUSY, false)
    else if Op(data) == ACK then Done(d1, READY, false)
    else if Op(data) == FREADBLK then
      if Target(data) < d.blocks then
        Done(d1.(tag := if Held(Target(data)) == d.tag then d.tag else NoBlock), BUSY, false)
      else Done(d1, FREADERR, true)
    else if Op(data) == FWRITEBLK then
      if Target(data) < d.blocks then
        Done(d1.(buffer := FromMemory(mem, d.buffer, d.data0),
                 tag := if Fetches(mem, d.data0) then Held(Target(data)) else NoBlock), BUSY, false)
      else Done(d1, FWRITERR, true)
    else Done(d1, ILOPERR, true)
  }

  /** Only COMMAND and DATA0 are writable, and only while the drive is not busy. */
  function WriteDevReg<R>(d: Flash, mem: Memory<R>, regnum: nat, data: Word): Flash
  {
    if d.status == BUSY then d
    else if regnum == COMMAND then WriteCommand(d, mem, data)
    else if regnum == DATA0 then d.(data0 := data)
    else d
  }

  datatype Completion<!R> = Panic | Completed(d: Flash, mem: Memory<R>)

  function CompleteRead<R>(d: Flash, mem: Memory<R>): Completion<R>
  {
    if !d.isWorking then Completed(Done(d.(tag := NoBlock), FREADERR, true), mem)
    else if d.tag == NoBlock && !Holds(d.image, HEADER, Target(d.command)) then Panic
    else
      var buffer := if d.tag != NoBlock then d.buffer else ReadBlock(d.image, HEADER, Target(d.command));
      var status := if Sends(mem, d.data0) then READY else FDMAERR;
      Completed(Done(d.(tag := Held(Target(d.command)), buffer := buffer), status, true), ToMemory(mem, buffer, d.data0))
  }

  function CompleteWrite<R>(d: Flash, mem: Memory<R>): Completion<R> {
    if !d.isWorking then Completed(Done(d.(tag := NoBlock), FWRITERR, true), mem)
    else if !Holds(d.image, HEADER, Target(d.command)) then Panic
    else Completed(Done(d.(image := WriteBlock(d.image, HEADER, Target(d.command), d.buffer)), READY, true), mem)
  }

  function CompleteDevOp<R>(d: Flash, mem: Memory<R>): Completion<R>
  {
    if Op(d.command) == RESET then Completed(Done(d.(tag := NoBlock), READY, true), mem)
    else if Op(d.command) == FREADBLK then CompleteRead(d, mem)
    else if Op(d.command) == FWRITEBLK then CompleteWrite(d, mem)
    else Panic
  }

  // ---- coherence ----------------------------------------------------------------------------

  predicate Writing(d: Flash) { d.status == BUSY && Op(d.command) == FWRITEBLK }
  predicate Reading(d: Flash) { d.status == BUSY && Op(d.command) == FREADBLK }

  /** What the drive is busy with was accepted: it is an operation on a block the drive has. */
  predicate Accepted(d: Flash) {
    d.status == BUSY ==>
      || Op(d.command) == RESET
      || ((Op(d.command) == FREADBLK || Op(d.command) == FWRITEBLK) && Target(d.command) < d.blocks)
  }

  /** A tag names a real block; during a transfer, none but the target. */
  predicate TagOk(d: Flash) {
    d.tag.Held? ==> d.tag.block < d.blocks && (Reading(d) || Writing(d) ==> d.tag.block == Target(d.command))
  }

  ghost predicate Fits(d: Flash) { Sized(d.blocks, d.image) && Accepted(d) && TagOk(d) }

  /** Unless the drive is about to write it out, a tagged buffer is a copy of its block. */
  ghost predicate BufferOk(d: Flash)
    requires Fits(d)
  {
    d.tag.Held? && !Writing(d) ==> d.buffer == ReadBlock(d.image, HEADER, d.tag.block)
  }

  ghost predicate Coherent(d: Flash) { Fits(d) && BufferOk(d) }

  lemma WriteRegFits<R>(d: Flash, mem: Memory<R>, regnum: nat, data: Word)
    requires Fits(d)
    ensures Fits(WriteDevReg(d, mem, regnum, data))
  {
    hide FromMemory, Fetches;
  }

  lemma WriteRegKeeps<R>(d: Flash, mem: Memory<R>, regnum: nat, data: Word)
    requires Coherent(d)
    ensures Coherent(WriteDevReg(d, mem, regnum, data))
  {
    hide FromMemory, Fetches, Sized, ReadBlock, Op, Target;
    WriteRegFits(d, mem, regnum, data);
  }

  /** A read that works hands over the block as the image has it now, from the buffer or not. */
  lemma ReadDelivers<R>(d: Flash, mem: Memory<R>)
    requires Coherent(d) && Reading(d) && d.isWorking
    ensures Holds(d.image, HEADER, Target(d.command))
    ensures var block := ReadBlock(d.image, HEADER, Target(d.command));
      CompleteDevOp(d, mem) == Completed(
        d.(status := if Sends(mem, d.data0) then READY else FDMAERR, requested := true, tag := Held(Target(d.command)), buffer := block),
        ToMemory(mem, block, d.data0))
  {
  }

  /** A write that works stores the buffer in its block and changes no other, nor the header. */
  lemma WriteStores<R>(d: Flash, mem: Memory<R>, n: nat)
    requires Coherent(d) && Writing(d) && d.isWorking && n < d.blocks
    ensures var c := CompleteDevOp(d, mem);
      && c.Completed? && c.mem == mem && c.d == d.(status := READY, requested := true, image := c.d.image)
      && Holds(c.d.image, HEADER, n)
      && ReadBlock(c.d.image, HEADER, n) == (if n == Target(d.command) then d.buffer else ReadBlock(d.image, HEADER, n))
      && c.d.image[..HEADER] == d.image[..HEADER]
  {
    WrittenBlock(d.image, HEADER, Target(d.command), n, d.buffer);
  }

  lemma CompleteKeeps<R>(d: Flash, mem: Memory<R>)
    requires Coherent(d) && d.status == BUSY
    ensures var c := CompleteDevOp(d, mem); c.Completed? && Coherent(c.d) && c.d.status != BUSY
  {
    if (Reading(d) || Writing(d)) && d.isWorking {
      if Reading(d) { ReadDelivers(d, mem); } else { WriteStores(d, mem, Target(d.command)); }
      hide CompleteDevOp, Sized, ReadBlock, WriteBlock;
    }
  }

  // ---- the buffer is invisible --------------------------------------------------------------

  /** The drive and the memory it transfers to and from. */
  datatype System<!R> = System(d: Flash, mem: Memory<R>)

  datatype Step<!R> =
    | WriteReg(regnum: nat, data: Word)
    | Complete
    | SetCondition(working: bool)
    | Store(mem: Memory<R>)

  predicate CanStep<R>(s: System<R>, step: Step<R>) {
    match step
    case Complete => s.d.status == BUSY
    case _ => true
  }

  function Next<R>(s: System<R>, step: Step<R>): System<R>
    requires CanStep(s, step)
    requires step.Complete? ==> CompleteDevOp(s.d, s.mem).Completed?
  {
    match step
    case WriteReg(regnum, data) => s.(d := WriteDevReg(s.d, s.mem, regnum, data))
    case Complete => var c := CompleteDevOp(s.d, s.mem); System(c.d, c.mem)
    case SetCondition(w) => s.(d := s.d.(isWorking := w))
    case Store(mem) => s.(mem := mem)
  }

  lemma StepKeeps<R>(s: System<R>, step: Step<R>)
    requires Coherent(s.d) && CanStep(s, step)
    ensures step.Complete? ==> CompleteDevOp(s.d, s.mem).Completed?
    ensures Coherent(Next(s, step).d)
  {
    match step
    case WriteReg(regnum, data) => WriteRegKeeps(s.d, s.mem, regnum, data);
    case Complete => CompleteKeeps(s.d, s.mem);
    case SetCondition(_) =>
    case Store(_) =>
  }

  /** A drive that never trusts its buffer: the tag is dropped, so every read goes to the image. */
  function Uncached(d: Flash): Flash { d.(tag := NoBlock) }

  function Forget<R>(s: System<R>): System<R> { s.(d := Uncached(s.d)) }

  lemma ForgetKeeps(d: Flash)
    requires Coherent(d)
    ensures Coherent(Uncached(d))
  {
  }

  /** What a command does apart from the tag depends on nothing the tag says. */
  lemma CommandForgets<R>(d: Flash, mem: Memory<R>, data: Word)
    ensures Uncached(WriteCommand(Uncached(d), mem, data)) == Uncached(WriteCommand(d, mem, data))
  {
    hide FromMemory, Fetches, Op, Target;
    if Op(data) == FREADBLK {
    } else if Op(data) == FWRITEBLK {
    } else {
    }
  }

  lemma WriteRegForgets<R>(d: Flash, mem: Memory<R>, regnum: nat, data: Word)
    ensures Uncached(WriteDevReg(Uncached(d), mem, regnum, data)) == Uncached(WriteDevReg(d, mem, regnum, data))
  {
    hide WriteCommand;
    CommandForgets(d, mem, data);
  }

  lemma CompleteForgets<R>(d: Flash, mem: Memory<R>)
    requires Coherent(d) && d.status == BUSY
    ensures CompleteDevOp(d, mem).Completed? && CompleteDevOp(Uncached(d), mem).Completed?
    ensures Uncached(CompleteDevOp(Uncached(d), mem).d) == Uncached(CompleteDevOp(d, mem).d)
    ensures CompleteDevOp(Uncached(d), mem).mem == CompleteDevOp(d, mem).mem
  {
    CompleteKeeps(d, mem);
    ForgetKeeps(d);
    if Reading(d) && d.isWorking {
      ReadDelivers(d, mem);
      ReadDelivers(Uncached(d), mem);
    }
    hide Coherent, Sized, WriteBlock, ToMemory, Sends, ReadBlock;
  }

  lemma StepForgets<R>(s: System<R>, step: Step<R>)
    requires Coherent(s.d) && CanStep(s, step)
    ensures CanStep(Forget(s), step)
    ensures step.Complete? ==> CompleteDevOp(s.d, s.mem).Completed? && CompleteDevOp(Uncached(s.d), s.mem).Completed?
    ensures Forget(Next(Forget(s), step)) == Forget(Next(s, step))
  {
    match step
    case WriteReg(regnum, data) => WriteRegForgets(s.d, s.mem, regnum, data);
    case Complete =>
      CompleteForgets(s.d, s.mem);
      hide CompleteDevOp;
    case _ =>
  }

  ghost predicate CanRun<R>(s: System<R>, steps: seq<Step<R>>)
    requires Coherent(s.d)
    decreases |steps|
  {
    steps == [] || (CanStep(s, steps[0]) && (StepKeeps(s, steps[0]); CanRun(Next(s, steps[0]), steps[1..])))
  }

  ghost function Run<R>(s: System<R>, steps: seq<Step<R>>): (r: System<R>)
    requires Coherent(s.d) && CanRun(s, steps)
    ensures Coherent(r.d)
    decreases |steps|
  {
    if steps == [] then s else StepKeeps(s, steps[0]); Run(Next(s, steps[0]), steps[1..])
  }

  ghost predicate CanRunUncached<R>(s: System<R>, steps: seq<Step<R>>)
    requires Coherent(s.d)
    decreases |steps|
  {
    steps == [] || (CanStep(s, steps[0]) &&
      (StepKeeps(s, steps[0]); ForgetKeeps(Next(s, steps[0]).d); CanRunUncached(Forget(Next(s, steps[0])), steps[1..])))
  }

  /** The same steps on a drive that forgets its tag after each of them. */
  ghost function RunUncached<R>(s: System<R>, steps: seq<Step<R>>): System<R>
    requires Coherent(s.d) && CanRunUncached(s, steps)
    decreases |steps|
  {
    if steps == [] then s
    else
      StepKeeps(s, steps[0]); ForgetKeeps(Next(s, steps[0]).d);
      RunUncached(Forget(Next(s, steps[0])), steps[1..])
  }

  /**
   * Over any run the buffered drive and the unbuffered one agree on everything but the tag: image, memory,
   * status, interrupt request, even the buffer's words.
   */
  lemma {:induction false} BufferIsInvisible<R>(s: System<R>, steps: seq<Step<R>>)
    requires Coherent(s.d) && CanRun(s, steps)
    ensures Coherent(Uncached(s.d)) && CanRunUncached(Forget(s), steps)
    ensures RunUncached(Forget(s), steps) == Forget(Run(s, steps))
    decreases |steps|
  {
    ForgetKeeps(s.d);
    if steps != [] {
      StepKeeps(s, steps[0]);
      StepKeeps(Forget(s), steps[0]);
      StepForgets(s, steps[0]);
      hide Coherent, CanStep, Next, Forget;
      BufferIsInvisible(Next(s, steps[0]), steps[1..]);
    }
  }

  // ---- what programs see of it -----------------------------------------------------------------

  /** The same for the flash drive: what a command leaves in STATUS. */
  lemma CommandShows<R>(d: Flash, mem: Memory<R>, data: Word)
    ensures var r := WriteDevReg(d, mem, 1, data); var op := data % 0x100;
      if d.status == 3 then r == d
      else
        && r.status == (if op == 0 then 3
                        else if op == 1 then 1
                        else if op == 2 then if data / 0x100 < d.blocks then 3 else 4
                        else if op == 3 then if data / 0x100 < d.blocks then 3 else 5
                        else 2)
        && (r.requested <==> r.status != 3 && r.status != 1)
        && r == d.(command := data, status := r.status, requested := r.requested, tag := r.tag, buffer := r.buffer)
  {
    hide FromMemory, Fetches;
  }

  /** Register 2 is DATA0, which a busy drive does not let be written; other registers cannot be written at all. */
  lemma OtherRegisters<R>(d: Flash, mem: Memory<R>, regnum: nat, data: Word)
    requires regnum != 1
    ensures WriteDevReg(d, mem, regnum, data) == if regnum == 2 && d.status != 3 then d.(data0 := data) else d
  {
  }

  lemma CompletionShows<R>(d: Flash, mem: Memory<R>)
    requires Coherent(d) && d.status == 3
    ensures var c := CompleteDevOp(d, mem); var op := d.command % 0x100;
      && c.Completed? && c.d.requested
      && c.d.status == (if op == 2 && !d.isWorking then 4
                        else if op == 2 && !Sends(mem, d.data0) then 6
                        else if op == 3 && !d.isWorking then 5
                        else 1)
  {
    CompleteKeeps(d, mem);
    hide Coherent, ReadBlock, WriteBlock, ToMemory, Sends, Sized;
  }

  // ---- a block, from the command word to memory and back -----------------------------------------

  /** The words of block `n` in the image. */
  ghost predicate BlockIs(image: Image, n: nat, b: Block) {
    var at := 3 + n * 0x400;
    at + 0x400 <= |image| && forall k: nat | k < 0x400 :: image[at + k] == b[k]
  }

  /** Every word of the image outside block `n`. */
  ghost predicate OthersKept(old': Image, image: Image, n: nat) {
    var at := 3 + n * 0x400;
    |image| == |old'| && forall j | 0 <= j < |old'| && !(at <= j < at + 0x400) :: image[j] == old'[j]
  }

  lemma OneStep<R>(s: System<R>, a: Step<R>)
    requires Coherent(s.d) && CanStep(s, a)
    requires a.Complete? ==> CompleteDevOp(s.d, s.mem).Completed?
    ensures CanRun(s, [a]) && Run(s, [a]) == Next(s, a)
  {
    hide Coherent, CanStep, Next;
    StepKeeps(s, a);
    assert [a][1..] == [];
  }

  lemma MoreSteps<R>(s: System<R>, a: Step<R>, bs: seq<Step<R>>)
    requires Coherent(s.d) && CanStep(s, a)
    requires a.Complete? ==> CompleteDevOp(s.d, s.mem).Completed?
    requires Coherent(Next(s, a).d) && CanRun(Next(s, a), bs)
    ensures CanRun(s, [a] + bs) && Run(s, [a] + bs) == Run(Next(s, a), bs)
  {
    hide Coherent, CanStep, Next;
    StepKeeps(s, a);
    assert ([a] + bs)[1..] == bs;
  }

  /** A command, a change of memory, and the end of the operation. */
  function Operation<R>(word: Word, mem: Memory<R>): seq<Step<R>> { [WriteReg(1, word)] + ([Store(mem)] + [Complete]) }

  lemma OperationRuns<R>(s: System<R>, word: Word, mem: Memory<R>)
    requires Coherent(s.d) && Coherent(WriteDevReg(s.d, s.mem, 1, word)) && WriteDevReg(s.d, s.mem, 1, word).status == BUSY
    requires CompleteDevOp(WriteDevReg(s.d, s.mem, 1, word), mem).Completed?
    ensures CanRun(s, Operation(word, mem))
    ensures var c := CompleteDevOp(WriteDevReg(s.d, s.mem, 1, word), mem); Run(s, Operation(word, mem)) == System(c.d, c.mem)
  {
    hide Coherent, CompleteDevOp, WriteDevReg, Run, CanRun;
    var s1 := Next(s, WriteReg(1, word));
    OneStep(Next(s1, Store(mem)), Complete);
    MoreSteps(s1, Store(mem), [Complete]);
    MoreSteps(s, WriteReg(1, word), [Store(mem)] + [Complete]);
  }

  lemma StartsRead<R>(s: System<R>, read: Word)
    requires Coherent(s.d) && s.d.status != BUSY && read % 0x100 == 2 && read / 0x100 < s.d.blocks
    ensures var d := WriteDevReg(s.d, s.mem, 1, read);
      Coherent(d) && Reading(d) && d == s.d.(command := read, status := 3, requested := false, tag := d.tag)
  {
    WriteRegKeeps(s.d, s.mem, 1, read);
    hide Coherent;
  }

  /**
   * An accepted read ends ready, with the block the command names in RAM at DATA0, whatever memory holds when it ends;
   * the image is as before.
   */
  lemma ReadsBlock<R>(s: System<R>, read: Word, mem: Memory<R>) returns (b: Block)
    requires Coherent(s.d) && s.d.status != BUSY && s.d.isWorking && read % 0x100 == 2 && read / 0x100 < s.d.blocks
    requires InRam(mem, s.d.data0)
    ensures CanRun(s, Operation(read, mem))
    ensures var r := Run(s, Operation(read, mem));
      && r.d.status == 1 && r.d.image == s.d.image && InRam(r.mem, s.d.data0) && RamHas(r.mem, s.d.data0, b)
    ensures BlockIs(s.d.image, read / 0x100, b)
  {
    hide Coherent, CompleteDevOp, WriteDevReg, RamHas, InRam, Run, CanRun, Operation, ToMemory, Sends;
    StartsRead(s, read);
    var d := WriteDevReg(s.d, s.mem, 1, read);
    ReadDelivers(d, mem);
    b := ReadBlock(d.image, HEADER, Target(d.command));
    SentToRam(mem, b, d.data0);
    InRamSends(mem, d.data0);
    OperationRuns(s, read, mem);
  }

  lemma StartsWrite<R>(s: System<R>, write: Word)
    requires Coherent(s.d) && s.d.status != BUSY && write % 0x100 == 3 && write / 0x100 < s.d.blocks
    ensures var d := WriteDevReg(s.d, s.mem, 1, write);
      && Coherent(d) && Writing(d)
      && d == s.d.(command := write, status := 3, requested := false, tag := d.tag, buffer := FromMemory(s.mem, s.d.buffer, s.d.data0))
  {
    WriteRegKeeps(s.d, s.mem, 1, write);
    hide Coherent, FromMemory, Fetches;
  }

  lemma WriteEnds<R>(d: Flash, mem: Memory<R>)
    requires Coherent(d) && Writing(d) && d.isWorking
    ensures var c := CompleteDevOp(d, mem);
      && c.Completed? && c.d.status == 1 && c.mem == mem
      && BlockIs(c.d.image, d.command / 0x100, d.buffer) && OthersKept(d.image, c.d.image, d.command / 0x100)
  {
  }

  /**
   * An accepted write ends ready, with the block that RAM had at DATA0 when the command was given in the place the
   * command names; no other word of the image changes.
   */
  lemma WritesBlock<R>(s: System<R>, write: Word, mem: Memory<R>) returns (b: Block)
    requires Coherent(s.d) && s.d.status != BUSY && s.d.isWorking && write % 0x100 == 3 && write / 0x100 < s.d.blocks
    requires InRam(s.mem, s.d.data0)
    ensures RamHas(s.mem, s.d.data0, b)
    ensures CanRun(s, Operation(write, mem))
    ensures var r := Run(s, Operation(write, mem));
      && r.d.status == 1 && r.mem == mem
      && BlockIs(r.d.image, write / 0x100, b) && OthersKept(s.d.image, r.d.image, write / 0x100)
  {
    hide Coherent, CompleteDevOp, WriteDevReg, RamHas, InRam, Run, CanRun, Operation, FromMemory, BlockIs, OthersKept;
    StartsWrite(s, write);
    b := FromMemory(s.mem, s.d.buffer, s.d.data0);
    FetchedFromRam(s.mem, s.d.buffer, s.d.data0);
    WriteEnds(WriteDevReg(s.d, s.mem, 1, write), mem);
    OperationRuns(s, write, mem);
  }

  // ---- transfers that fail ------------------------------------------------------------------------

  /** What an accepted write leaves: READY, and this block in its place. */
  ghost predicate Stores<R>(s: System<R>, data: Word, b: Block) {
    var d := WriteDevReg(s.d, s.mem, COMMAND, data);
    var c := CompleteDevOp(d, s.mem);
    && c.Completed? && c.d.status == READY && Holds(c.d.image, HEADER, Target(d.command))
    && ReadBlock(c.d.image, HEADER, Target(d.command)) == b
  }

  /**
   * A write whose transfer fails is not called off: success is reported always, but what is stored is the
   * block memory has at DATA0 exactly if that is aligned and every word of it can be read. From a misaligned
   * DATA0 the old buffer is stored; otherwise the words read, all ones at the failing word, and old words.
   */
  lemma FailedTransferStillWrites<R>(s: System<R>, data: Word) returns (b: Block)
    requires Coherent(s.d) && s.d.status != BUSY && s.d.isWorking
    requires Op(data) == FWRITEBLK && Target(data) < s.d.blocks
    ensures Stores(s, data, b)
    ensures HasBlock(s.mem, s.d.data0, b) <==> Fetches(s.mem, s.d.data0)
    ensures s.d.data0 % 4 != 0 ==> b == s.d.buffer
    ensures s.d.data0 % 4 == 0 && !Fetches(s.mem, s.d.data0) ==>
      CutShort(s.mem, s.d.data0, s.d.buffer, b, ReadRun(s.mem, s.d.data0, 0))
  {
    hide Stores, Coherent, FromMemory, HasBlock, CutShort, ReadRun, Fetches, Op, Target;
    b := FromMemory(s.mem, s.d.buffer, s.d.data0);
    StoresBuffer(s, data);
    FetchLeaves(s.mem, s.d.buffer, s.d.data0);
  }

  lemma StoresBuffer<R>(s: System<R>, data: Word)
    requires Coherent(s.d) && s.d.status != BUSY && s.d.isWorking
    requires Op(data) == FWRITEBLK && Target(data) < s.d.blocks
    ensures Stores(s, data, FromMemory(s.mem, s.d.buffer, s.d.data0))
  {
    hide Coherent, CompleteDevOp, FromMemory, Fetches, ReadBlock, Target;
    var d := WriteDevReg(s.d, s.mem, COMMAND, data);
    assert d.buffer == FromMemory(s.mem, s.d.buffer, s.d.data0) && Writing(d) && d.isWorking;
    WriteRegKeeps(s.d, s.mem, COMMAND, data);
    WriteStores(d, s.mem, Target(d.command));
  }

  function New(blocks: nat, image: Image): Flash {
    Flash(blocks, READY, 0, 0, NoBlock, seq(BLOCKSIZE, _ => 0), image, true, false)
  }

  lemma NewIsCoherent(blocks: nat, image: Image)
    requires Sized(blocks, image)
    ensures Coherent(New(blocks, image))
  {
  }

  /** Such a write: a new drive, DATA0 one past an address, memory all 1 there, and a block of zeros. */
  lemma StaleWordsStored<R>(mem: Memory<R>, image: Image)
    requires |image| == HEADER + BLOCKSIZE && |mem.ram| >= BLOCKSIZE
    requires forall k: nat | k < BLOCKSIZE :: mem.ram[k] == 1
    ensures var d := WriteDevReg(New(1, image), mem, DATA0, RAMBASE + 1);
      && Stores(System(d, mem), FWRITEBLK, seq(BLOCKSIZE, _ => 0))
      && !HasBlock(mem, d.data0, seq(BLOCKSIZE, _ => 0))
  {
    hide Stores, HasBlock, FromMemory, ReadRun, Fetches, CutShort;
    NewIsCoherent(1, image);
    var d := WriteDevReg(New(1, image), mem, DATA0, RAMBASE + 1);
    WriteRegKeeps(New(1, image), mem, DATA0, RAMBASE + 1);
    var b := FailedTransferStillWrites(System(d, mem), FWRITEBLK);
    Misaligned(mem, d.data0);
  }
}
