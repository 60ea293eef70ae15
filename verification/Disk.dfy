/** The disk of device.cc: a one-sector buffer in front of an image file, filled and drained by DMA. */
module Disk {
  import opened Words
  import opened Dma
  import opened Images

  const READY: Word := 1
  const ILOPERR: Word := 2
  const BUSY: Word := 3
  const DSEEKERR: Word := 4
  const DREADERR: Word := 5
  const DWRITERR: Word := 6
  const DDMAERR: Word := 7

  const RESET: Word := 0
  const ACK: Word := 1
  const DSEEKCYL: Word := 2
  const DREADBLK: Word := 3
  const DWRITEBLK: Word := 4

  // Register numbers.
  const COMMAND := 1
  const DATA0 := 2

  const HEADER := 7

  datatype Geometry = Geometry(cyls: nat, heads: nat, sects: nat)

  /** The sector the buffer holds; the emulator writes MAXWORDVAL in all three for none. */
  datatype Tag = NoSector | Sector(cyl: nat, head: nat, sect: nat)

  datatype Disk = Disk(
    geo: Geometry,
    status: Word,
    command: Word,
    data0: Word,
    currCyl: nat,
    tag: Tag,
    buffer: Block,
    image: Image,
    isWorking: bool,
    requested: bool)

  function Cyl(command: Word): nat { command / 0x100 % 0x10000 }
  function Head(command: Word): nat { command / 0x10000 % 0x100 }
  function Sect(command: Word): nat { command / 0x100 % 0x100 }
  function Op(command: Word): Word { command % 0x100 }

  predicate InRange(g: Geometry, command: Word) { Head(command) < g.heads && Sect(command) < g.sects }

  /** The block of a sector, in the emulator's order: cylinder by cylinder, head by head. */
  function BlockNum(g: Geometry, s: Tag): nat
    requires s.Sector?
  {
    s.cyl * g.heads * g.sects + s.head * g.sects + s.sect
  }

  predicate Exists(g: Geometry, s: Tag) { s.Sector? && s.cyl < g.cyls && s.head < g.heads && s.sect < g.sects }

  /** The sector an accepted read or write command addresses: it names head and sector, the last seek the cylinder. */
  function Target(d: Disk): Tag { Sector(d.currCyl, Head(d.command), Sect(d.command)) }

  /** The image has the sectors its header announces. */
  predicate Sized(g: Geometry, image: Image) {
    && g.cyls <= 0xFFFF && g.heads <= 0xFF && g.sects <= 0xFF
    && HEADER + g.cyls * g.heads * g.sects * BLOCKSIZE <= |image|
  }

  function Done(d: Disk, status: Word, request: bool): Disk { d.(status := status, requested := request) }

  /** Writing COMMAND. A write command fetches its block at once; a failed fetch only costs the tag. */
  function WriteCommand<R>(d: Disk, mem: Memory<R>, data: Word): Disk
  {
    var d1 := d.(command := data);
    if Op(data) == RESET then Done(d1, BUSY, false)
    else if Op(data) == ACK then Done(d1, READY, false)
    else if Op(data) == DSEEKCYL then
      if Cyl(data) < d.geo.cyls then Done(d1, BUSY, false) else Done(d1, DSEEKERR, true)
    else if Op(data) == DREADBLK then
      if InRange(d.geo, data) then
        Done(d1.(tag := if Target(d1) == d.tag then d.tag else NoSector), BUSY, false)
      else Done(d1, DREADERR, true)
    else if Op(data) == DWRITEBLK then
      if InRange(d.geo, data) then
        Done(d1.(buffer := FromMemory(mem, d.buffer, d.data0),
                 tag := if Fetches(mem, d.data0) then Target(d1) else NoSector), BUSY, false)
      else Done(d1, DWRITERR, true)
    else Done(d1, ILOPERR, true)
  }

  /** Only COMMAND and DATA0 are writable, and only while the disk is not busy. */
  function WriteDevReg<R>(d: Disk, mem: Memory<R>, regnum: nat, data: Word): Disk
  {
    if d.status == BUSY then d
    else if regnum == COMMAND then WriteCommand(d, mem, data)
    else if regnum == DATA0 then d.(data0 := data)
    else d
  }

  datatype Completion<!R> = Panic | Completed(d: Disk, mem: Memory<R>)

  function CompleteRead<R>(d: Disk, mem: Memory<R>): Completion<R>
  {
    if !d.isWorking then Completed(Done(d.(tag := NoSector), DREADERR, true), mem)
    else if d.tag == NoSector && !Holds(d.image, HEADER, BlockNum(d.geo, Target(d))) then Panic
    else
      var buffer := if d.tag != NoSector then d.buffer else ReadBlock(d.image, HEADER, BlockNum(d.geo, Target(d)));
      var status := if Sends(mem, d.data0) then READY else DDMAERR;
      Completed(Done(d.(tag := Target(d), buffer := buffer), status, true), ToMemory(mem, buffer, d.data0))
  }

  function CompleteWrite<R>(d: Disk, mem: Memory<R>): Completion<R> {
    if !d.isWorking then Completed(Done(d.(tag := NoSector), DWRITERR, true), mem)
    else if !Holds(d.image, HEADER, BlockNum(d.geo, Target(d))) then Panic
    else Completed(Done(d.(image := WriteBlock(d.image, HEADER, BlockNum(d.geo, Target(d)), d.buffer)), READY, true), mem)
  }

  function CompleteDevOp<R>(d: Disk, mem: Memory<R>): Completion<R>
  {
    if Op(d.command) == RESET then Completed(Done(d.(tag := NoSector), READY, true), mem)
    else if Op(d.command) == DSEEKCYL then
      if d.isWorking then Completed(Done(d.(currCyl := Cyl(d.command)), READY, true), mem)
      else Completed(Done(d.(currCyl := (Cyl(d.command) + d.currCyl) / 2), DSEEKERR, true), mem)
    else if Op(d.command) == DREADBLK then CompleteRead(d, mem)
    else if Op(d.command) == DWRITEBLK then CompleteWrite(d, mem)
    else Panic
  }

  // ---- sectors ------------------------------------------------------------------------------

  /** Position x of row a among n-long rows comes before row b > a. */
  lemma RowOrder(a: nat, x: nat, b: nat, n: nat)
    requires a < b && x < n
    ensures a * n + x < b * n
  {
    var rows := b - a - 1;
    assert b == a + 1 + rows;
    calc {
      b * n;
    ==
      (a + 1 + rows) * n;
    ==
      a * n + n + rows * n;
    }
  }

  lemma Digits(a: nat, x: nat, b: nat, y: nat, n: nat)
    requires x < n && y < n && a * n + x == b * n + y
    ensures a == b && x == y
  {
    if a < b { RowOrder(a, x, b, n); }
    if b < a { RowOrder(b, y, a, n); }
  }

  /** The same number, cylinder times cylinder size plus the place in the cylinder. */
  lemma Nested(g: Geometry, s: Tag)
    requires Exists(g, s)
    ensures BlockNum(g, s) == s.cyl * (g.heads * g.sects) + (s.head * g.sects + s.sect)
    ensures s.head * g.sects + s.sect < g.heads * g.sects
    ensures BlockNum(g, s) < g.cyls * g.heads * g.sects
  {
    var h, n := s.head * g.sects + s.sect, g.heads * g.sects;
    RowOrder(s.head, s.sect, g.heads, g.sects);
    RowOrder(s.cyl, h, g.cyls, n);
    Associate(s.cyl, g.heads, g.sects);
    Associate(g.cyls, g.heads, g.sects);
  }

  lemma Associate(a: nat, b: nat, c: nat)
    ensures a * b * c == a * (b * c)
  {
  }

  lemma SectorHeld(g: Geometry, image: Image, s: Tag)
    requires Sized(g, image) && Exists(g, s)
    ensures Holds(image, HEADER, BlockNum(g, s))
  {
    Nested(g, s);
    var n, total := BlockNum(g, s), g.cyls * g.heads * g.sects;
    hide BlockNum;
    assert n + 1 <= total;
  }

  lemma OneSectorPerBlock(g: Geometry, s: Tag, t: Tag)
    requires Exists(g, s) && Exists(g, t) && BlockNum(g, s) == BlockNum(g, t)
    ensures s == t
  {
    Nested(g, s);
    Nested(g, t);
    hide BlockNum;
    Digits(s.cyl, s.head * g.sects + s.sect, t.cyl, t.head * g.sects + t.sect, g.heads * g.sects);
    Digits(s.head, s.sect, t.head, t.sect, g.sects);
  }

  /** Every sector in range has an image block to itself. */
  lemma SectorsApart(g: Geometry, image: Image, s: Tag, t: Tag)
    requires Sized(g, image) && Exists(g, s) && Exists(g, t) && s != t
    ensures Holds(image, HEADER, BlockNum(g, s)) && Holds(image, HEADER, BlockNum(g, t))
    ensures var i, j := BlockAt(HEADER, BlockNum(g, s)), BlockAt(HEADER, BlockNum(g, t));
      i + BLOCKSIZE <= j || j + BLOCKSIZE <= i
  {
    SectorHeld(g, image, s);
    SectorHeld(g, image, t);
    if BlockNum(g, s) == BlockNum(g, t) { OneSectorPerBlock(g, s, t); }
    BlocksApart(HEADER, BlockNum(g, s), BlockNum(g, t));
  }

  // ---- coherence ----------------------------------------------------------------------------

  predicate Writing(d: Disk) { d.status == BUSY && Op(d.command) == DWRITEBLK }
  predicate Reading(d: Disk) { d.status == BUSY && Op(d.command) == DREADBLK }

  /** What the disk is busy with was accepted: it is an operation, within the geometry. */
  predicate Accepted(d: Disk) {
    d.status == BUSY ==>
      || Op(d.command) == RESET
      || (Op(d.command) == DSEEKCYL && Cyl(d.command) < d.geo.cyls)
      || ((Op(d.command) == DREADBLK || Op(d.command) == DWRITEBLK) && InRange(d.geo, d.command))
  }

  /** A tag names a real sector; during a transfer, none but the target. */
  predicate TagOk(d: Disk) {
    d.tag.Sector? ==> Exists(d.geo, d.tag) && (Reading(d) || Writing(d) ==> d.tag == Target(d))
  }

  ghost predicate Fits(d: Disk) { Sized(d.geo, d.image) && d.currCyl < d.geo.cyls && Accepted(d) && TagOk(d) }

  /** Unless the disk is about to write it out, a tagged buffer is a copy of its sector. */
  ghost predicate BufferOk(d: Disk)
    requires Fits(d)
  {
    d.tag.Sector? && !Writing(d) ==>
      (SectorHeld(d.geo, d.image, d.tag); d.buffer == ReadBlock(d.image, HEADER, BlockNum(d.geo, d.tag)))
  }

  ghost predicate Coherent(d: Disk) { Fits(d) && BufferOk(d) }

  lemma WriteRegFits<R>(d: Disk, mem: Memory<R>, regnum: nat, data: Word)
    requires Fits(d)
    ensures Fits(WriteDevReg(d, mem, regnum, data))
  {
    hide BlockNum, FromMemory, Fetches, Sized, Cyl, Head, Sect, Op;
  }

  lemma WriteRegKeeps<R>(d: Disk, mem: Memory<R>, regnum: nat, data: Word)
    requires Coherent(d)
    ensures Coherent(WriteDevReg(d, mem, regnum, data))
  {
    hide BlockNum, FromMemory, Fetches, Sized, ReadBlock, Cyl, Head, Sect, Op, InRange, Fits;
    WriteRegFits(d, mem, regnum, data);
    FitsIs(d);
    FitsIs(WriteDevReg(d, mem, regnum, data));
  }

  lemma FitsIs(d: Disk)
    requires Fits(d)
    ensures TagOk(d) && Accepted(d) && d.currCyl < d.geo.cyls && Sized(d.geo, d.image)
  {
  }

  /** No completion panics, and a transfer's target is a sector of the image. */
  lemma TargetHeld(d: Disk)
    requires Fits(d) && (Reading(d) || Writing(d))
    ensures Exists(d.geo, Target(d)) && Holds(d.image, HEADER, BlockNum(d.geo, Target(d)))
  {
    SectorHeld(d.geo, d.image, Target(d));
  }

  /** A read that works hands over the sector as the image has it now, from the buffer or not. */
  lemma ReadDelivers<R>(d: Disk, mem: Memory<R>)
    requires Coherent(d) && Reading(d) && d.isWorking
    ensures Holds(d.image, HEADER, BlockNum(d.geo, Target(d)))
    ensures var sector := ReadBlock(d.image, HEADER, BlockNum(d.geo, Target(d)));
      CompleteDevOp(d, mem) == Completed(
        d.(status := if Sends(mem, d.data0) then READY else DDMAERR, requested := true, tag := Target(d), buffer := sector),
        ToMemory(mem, sector, d.data0))
  {
    TargetHeld(d);
  }

  /** A write that works stores the buffer in its sector and changes no other, nor the header. */
  lemma WriteStores<R>(d: Disk, mem: Memory<R>, s: Tag)
    requires Coherent(d) && Writing(d) && d.isWorking && Exists(d.geo, s)
    ensures var c := CompleteDevOp(d, mem);
      && c.Completed? && c.mem == mem && c.d == d.(status := READY, requested := true, image := c.d.image)
      && Holds(c.d.image, HEADER, BlockNum(d.geo, s)) && Holds(d.image, HEADER, BlockNum(d.geo, s))
      && ReadBlock(c.d.image, HEADER, BlockNum(d.geo, s)) ==
           (if s == Target(d) then d.buffer else ReadBlock(d.image, HEADER, BlockNum(d.geo, s)))
      && c.d.image[..HEADER] == d.image[..HEADER]
  {
    TargetHeld(d);
    SectorHeld(d.geo, d.image, s);
    WrittenBlock(d.image, HEADER, BlockNum(d.geo, Target(d)), BlockNum(d.geo, s), d.buffer);
    if BlockNum(d.geo, s) == BlockNum(d.geo, Target(d)) { OneSectorPerBlock(d.geo, s, Target(d)); }
  }

  lemma CompleteKeeps<R>(d: Disk, mem: Memory<R>)
    requires Coherent(d) && d.status == BUSY
    ensures var c := CompleteDevOp(d, mem); c.Completed? && Coherent(c.d) && c.d.status != BUSY
  {
    if (Reading(d) || Writing(d)) && d.isWorking {
      TargetHeld(d);
      if Reading(d) { ReadDelivers(d, mem); } else { WriteStores(d, mem, Target(d)); }
      hide BlockNum, CompleteDevOp, Sized, ReadBlock, WriteBlock;
    } else {
      hide BlockNum;
    }
  }

  // ---- the buffer is invisible --------------------------------------------------------------

  /** The disk and the memory it transfers to and from. */
  datatype System<!R> = System(d: Disk, mem: Memory<R>)

  datatype Step<!R> =
    | WriteReg(regnum: nat, data: Word)
    | Complete
    | SetCondition(working: bool)
    | Store(mem: Memory<R>)

  predicate CanStep<R>(s: System<R>, step: Step<R>) {
    match step
    case Complete => s.d.status == BUSY
    case _ => true
  }

  function Next<R>(s: System<R>, step: Step<R>): System<R>
    requires CanStep(s, step)
    requires step.Complete? ==> CompleteDevOp(s.d, s.mem).Completed?
  {
    match step
    case WriteReg(regnum, data) => s.(d := WriteDevReg(s.d, s.mem, regnum, data))
    case Complete => var c := CompleteDevOp(s.d, s.mem); System(c.d, c.mem)
    case SetCondition(w) => s.(d := s.d.(isWorking := w))
    case Store(mem) => s.(mem := mem)
  }

  lemma StepKeeps<R>(s: System<R>, step: Step<R>)
    requires Coherent(s.d) && CanStep(s, step)
    ensures step.Complete? ==> CompleteDevOp(s.d, s.mem).Completed?
    ensures Coherent(Next(s, step).d)
  {
    match step
    case WriteReg(regnum, data) => WriteRegKeeps(s.d, s.mem, regnum, data);
    case Complete => CompleteKeeps(s.d, s.mem);
    case SetCondition(_) => hide BlockNum;
    case Store(_) =>
  }

  /** A disk that never trusts its buffer: the tag is dropped, so every read goes to the image. */
  function Uncached(d: Disk): Disk { d.(tag := NoSector) }

  function Forget<R>(s: System<R>): System<R> { s.(d := Uncached(s.d)) }

  lemma ForgetKeeps(d: Disk)
    requires Coherent(d)
    ensures Coherent(Uncached(d))
  {
    hide BlockNum;
  }

  /** What a command does apart from the tag depends on nothing the tag says. */
  lemma CommandForgets<R>(d: Disk, mem: Memory<R>, data: Word)
    ensures Uncached(WriteCommand(Uncached(d), mem, data)) == Uncached(WriteCommand(d, mem, data))
  {
    hide FromMemory, Fetches, InRange, Cyl, Op, Target, Head, Sect;
    if Op(data) == DREADBLK {
    } else if Op(data) == DWRITEBLK {
    } else {
    }
  }

  lemma WriteRegForgets<R>(d: Disk, mem: Memory<R>, regnum: nat, data: Word)
    ensures Uncached(WriteDevReg(Uncached(d), mem, regnum, data)) == Uncached(WriteDevReg(d, mem, regnum, data))
  {
    hide WriteCommand;
    CommandForgets(d, mem, data);
  }

  lemma CompleteForgets<R>(d: Disk, mem: Memory<R>)
    requires Coherent(d) && d.status == BUSY
    ensures CompleteDevOp(d, mem).Completed? && CompleteDevOp(Uncached(d), mem).Completed?
    ensures Uncached(CompleteDevOp(Uncached(d), mem).d) == Uncached(CompleteDevOp(d, mem).d)
    ensures CompleteDevOp(Uncached(d), mem).mem == CompleteDevOp(d, mem).mem
  {
    CompleteKeeps(d, mem);
    ForgetKeeps(d);
    if Reading(d) && d.isWorking {
      ReadDelivers(d, mem);
      ReadDelivers(Uncached(d), mem);
    }
    hide BlockNum, Coherent, Sized, WriteBlock, ToMemory, Sends, ReadBlock;
  }

  lemma StepForgets<R>(s: System<R>, step: Step<R>)
    requires Coherent(s.d) && CanStep(s, step)
    ensures CanStep(Forget(s), step)
    ensures step.Complete? ==> CompleteDevOp(s.d, s.mem).Completed? && CompleteDevOp(Uncached(s.d), s.mem).Completed?
    ensures Forget(Next(Forget(s), step)) == Forget(Next(s, step))
  {
    match step
    case WriteReg(regnum, data) => WriteRegForgets(s.d, s.mem, regnum, data);
    case Complete =>
      CompleteForgets(s.d, s.mem);
      hide CompleteDevOp;
    case _ =>
  }

  ghost predicate CanRun<R>(s: System<R>, steps: seq<Step<R>>)
    requires Coherent(s.d)
    decreases |steps|
  {
    steps == [] || (CanStep(s, steps[0]) && (StepKeeps(s, steps[0]); CanRun(Next(s, steps[0]), steps[1..])))
  }

  ghost function Run<R>(s: System<R>, steps: seq<Step<R>>): (r: System<R>)
    requires Coherent(s.d) && CanRun(s, steps)
    ensures Coherent(r.d)
    decreases |steps|
  {
    if steps == [] then s else StepKeeps(s, steps[0]); Run(Next(s, steps[0]), steps[1..])
  }

  ghost predicate CanRunUncached<R>(s: System<R>, steps: seq<Step<R>>)
    requires Coherent(s.d)
    decreases |steps|
  {
    steps == [] || (CanStep(s, steps[0]) &&
      (StepKeeps(s, steps[0]); ForgetKeeps(Next(s, steps[0]).d); CanRunUncached(Forget(Next(s, steps[0])), steps[1..])))
  }

  /** The same steps on a disk that forgets its tag after each of them. */
  ghost function RunUncached<R>(s: System<R>, steps: seq<Step<R>>): System<R>
    requires Coherent(s.d) && CanRunUncached(s, steps)
    decreases |steps|
  {
    if steps == [] then s
    else
      StepKeeps(s, steps[0]); ForgetKeeps(Next(s, steps[0]).d);
      RunUncached(Forget(Next(s, steps[0])), steps[1..])
  }

  /**
   * Over any run the buffered disk and the unbuffered one agree on everything but the tag: image, memory,
   * status, cylinder, interrupt request, even the buffer's words.
   */
  lemma {:induction false} BufferIsInvisible<R>(s: System<R>, steps: seq<Step<R>>)
    requires Coherent(s.d) && CanRun(s, steps)
    ensures Coherent(Uncached(s.d)) && CanRunUncached(Forget(s), steps)
    ensures RunUncached(Forget(s), steps) == Forget(Run(s, steps))
    decreases |steps|
  {
    ForgetKeeps(s.d);
    if steps != [] {
      StepKeeps(s, steps[0]);
      StepKeeps(Forget(s), steps[0]);
      StepForgets(s, steps[0]);
      hide Coherent, CanStep, Next, Forget;
      BufferIsInvisible(Next(s, steps[0]), steps[1..]);
    }
  }

  /** The command word names a head and a sector the disk has. */
  predicate Names(g: Geometry, word: Word) { word / 0x10000 % 0x100 < g.heads && word / 0x100 % 0x100 < g.sects }

  // ---- what programs see of it -----------------------------------------------------------------

  /**
   * What a command leaves in STATUS: busy for a reset, a seek to a cylinder and a transfer of a sector the disk has,
   * ready for an acknowledgement, and an error with an interrupt otherwise. It changes neither arm nor image; a busy
   * disk takes none.
   */
  lemma CommandShows<R>(d: Disk, mem: Memory<R>, data: Word)
    ensures var r := WriteDevReg(d, mem, 1, data); var op := data % 0x100;
      if d.status == 3 then r == d
      else
        && r.status == (if op == 0 then 3
                        else if op == 1 then 1
                        else if op == 2 then if data / 0x100 % 0x10000 < d.geo.cyls then 3 else 4
                        else if op == 3 then if Names(d.geo, data) then 3 else 5
                        else if op == 4 then if Names(d.geo, data) then 3 else 6
                        else 2)
        && (r.requested <==> r.status != 3 && r.status != 1)
        && r == d.(command := data, status := r.status, requested := r.requested, tag := r.tag, buffer := r.buffer)
  {
    hide FromMemory, Fetches;
  }

  /** Register 2 is DATA0, which a busy drive does not let be written; other registers cannot be written at all. */
  lemma OtherRegisters<R>(d: Disk, mem: Memory<R>, regnum: nat, data: Word)
    requires regnum != 1
    ensures WriteDevReg(d, mem, regnum, data) == if regnum == 2 && d.status != 3 then d.(data0 := data) else d
  {
  }

  /** What a completion leaves there: ready, or the error of the operation; and an interrupt. */
  lemma CompletionShows<R>(d: Disk, mem: Memory<R>)
    requires Coherent(d) && d.status == 3
    ensures var c := CompleteDevOp(d, mem); var op := d.command % 0x100;
      && c.Completed? && c.d.requested
      && c.d.status == (if op == 2 && !d.isWorking then 4
                        else if op == 3 && !d.isWorking then 5
                        else if op == 3 && !Sends(mem, d.data0) then 7
                        else if op == 4 && !d.isWorking then 6
                        else 1)
  {
    CompleteKeeps(d, mem);
    hide Coherent, BlockNum, ReadBlock, WriteBlock, ToMemory, Sends, Sized;
  }

  // ---- the arm --------------------------------------------------------------------------------

  predicate SeekEnds<R>(s: System<R>, step: Step<R>) { step.Complete? && Op(s.d.command) == DSEEKCYL }

  /** No seek completes in this run, though resets may. */
  ghost predicate NoSeekEnds<R>(s: System<R>, steps: seq<Step<R>>)
    requires Coherent(s.d) && CanRun(s, steps)
    decreases |steps|
  {
    steps == [] || (!SeekEnds(s, steps[0]) && (StepKeeps(s, steps[0]); NoSeekEnds(Next(s, steps[0]), steps[1..])))
  }

  lemma StepStays<R>(s: System<R>, step: Step<R>)
    requires Coherent(s.d) && CanStep(s, step) && !SeekEnds(s, step)
    ensures step.Complete? ==> CompleteDevOp(s.d, s.mem).Completed?
    ensures Next(s, step).d.currCyl == s.d.currCyl
  {
    StepKeeps(s, step);
    hide Coherent, BlockNum, FromMemory, ToMemory, Fetches, Sends, Cyl, Head, Sect, InRange;
  }

  /** Only the end of a seek moves the arm: a reset, complete or not, leaves the cylinder as it is. */
  lemma {:induction false} OnlySeeksMove<R>(s: System<R>, steps: seq<Step<R>>)
    requires Coherent(s.d) && CanRun(s, steps) && NoSeekEnds(s, steps)
    ensures Run(s, steps).d.currCyl == s.d.currCyl
    decreases |steps|
  {
    hide Coherent, CanStep, Next, SeekEnds;
    if steps != [] {
      StepKeeps(s, steps[0]);
      StepStays(s, steps[0]);
      OnlySeeksMove(Next(s, steps[0]), steps[1..]);
    }
  }

  /** Where the arm is after a completion, if that is of a seek: a drive that does not work stops half way. */
  function ArmAfter<R>(s: System<R>, step: Step<R>, at: nat): nat {
    if step.Complete? && s.d.command % 0x100 == 2 then
      var wanted := s.d.command / 0x100 % 0x10000;
      if s.d.isWorking then wanted else (wanted + at) / 2
    else at
  }

  /** Where the completed seeks of a run leave an arm that was at `at`. */
  ghost function Arm<R>(s: System<R>, steps: seq<Step<R>>, at: nat): nat
    requires Coherent(s.d) && CanRun(s, steps)
    decreases |steps|
  {
    if steps == [] then at
    else StepKeeps(s, steps[0]); Arm(Next(s, steps[0]), steps[1..], ArmAfter(s, steps[0], at))
  }

  lemma StepMoves<R>(s: System<R>, step: Step<R>)
    requires Coherent(s.d) && CanStep(s, step)
    ensures step.Complete? ==> CompleteDevOp(s.d, s.mem).Completed?
    ensures Next(s, step).d.currCyl == ArmAfter(s, step, s.d.currCyl)
  {
    StepKeeps(s, step);
    hide Coherent, BlockNum, FromMemory, ToMemory, Fetches, Sends, Head, Sect, InRange;
  }

  /** Over any run the current cylinder is where the completed seeks, and nothing else, have put it. */
  lemma {:induction false} ArmInRuns<R>(s: System<R>, steps: seq<Step<R>>)
    requires Coherent(s.d) && CanRun(s, steps)
    ensures Run(s, steps).d.currCyl == Arm(s, steps, s.d.currCyl)
    decreases |steps|
  {
    hide Coherent, CanStep, Next, ArmAfter;
    if steps != [] {
      StepKeeps(s, steps[0]);
      StepMoves(s, steps[0]);
      ArmInRuns(Next(s, steps[0]), steps[1..]);
    }
  }

  // ---- a sector, from the command words to memory and back -----------------------------------------

  /** The block number of a sector in the image. */
  function Number(g: Geometry, cyl: nat, head: nat, sect: nat): nat { cyl * g.heads * g.sects + head * g.sects + sect }

  /** The words of the sector in the image. */
  ghost predicate SectorIs(d: Disk, cyl: nat, head: nat, sect: nat, b: Block) {
    var at := 7 + Number(d.geo, cyl, head, sect) * 0x400;
    at + 0x400 <= |d.image| && forall k: nat | k < 0x400 :: d.image[at + k] == b[k]
  }

  /** An accepted seek of a working drive ends ready, at the cylinder the command names. */
  lemma SeekArrives<R>(s: System<R>, seek: Word)
    requires Coherent(s.d) && s.d.status != BUSY && s.d.isWorking
    requires seek % 0x100 == 2 && seek / 0x100 % 0x10000 < s.d.geo.cyls
    ensures var steps := [WriteReg(1, seek), Complete];
      && CanRun(s, steps)
      && Run(s, steps) == s.(d := s.d.(command := seek, status := 1, requested := true, currCyl := seek / 0x100 % 0x10000))
  {
    var steps := [WriteReg(1, seek), Complete];
    hide Coherent, FromMemory, Fetches, Head, Sect, InRange;
    var s1 := Next(s, steps[0]);
    WriteRegKeeps(s.d, s.mem, 1, seek);
    assert CanStep(s1, Complete);
    StepKeeps(s1, Complete);
    TwoSteps(s, WriteReg(1, seek), Complete);
  }

  lemma OneStep<R>(s: System<R>, a: Step<R>)
    requires Coherent(s.d) && CanStep(s, a)
    requires a.Complete? ==> CompleteDevOp(s.d, s.mem).Completed?
    ensures CanRun(s, [a]) && Run(s, [a]) == Next(s, a)
  {
    hide Coherent, CanStep, Next;
    StepKeeps(s, a);
    assert [a][1..] == [];
  }

  lemma TwoSteps<R>(s: System<R>, a: Step<R>, b: Step<R>)
    requires Coherent(s.d) && CanStep(s, a)
    requires a.Complete? ==> CompleteDevOp(s.d, s.mem).Completed?
    requires Coherent(Next(s, a).d) && CanStep(Next(s, a), b)
    requires b.Complete? ==> CompleteDevOp(Next(s, a).d, Next(s, a).mem).Completed?
    ensures CanRun(s, [a, b]) && Run(s, [a, b]) == Next(Next(s, a), b)
  {
    hide Coherent, CanStep, Next;
    StepKeeps(s, a);
    OneStep(Next(s, a), b);
    assert [a, b][1..] == [b];
  }

  lemma {:induction false} RunAppend<R>(s: System<R>, xs: seq<Step<R>>, ys: seq<Step<R>>)
    requires Coherent(s.d) && CanRun(s, xs) && CanRun(Run(s, xs), ys)
    ensures CanRun(s, xs + ys) && Run(s, xs + ys) == Run(Run(s, xs), ys)
    decreases |xs|
  {
    hide Coherent, CanStep, Next;
    if xs == [] {
      assert xs + ys == ys;
    } else {
      StepKeeps(s, xs[0]);
      assert (xs + ys)[0] == xs[0] && (xs + ys)[1..] == xs[1..] + ys;
      RunAppend(Next(s, xs[0]), xs[1..], ys);
    }
  }

  lemma TargetIs(d: Disk, word: Word)
    requires Fits(d) && Names(d.geo, word) && d.command == word
    ensures InRange(d.geo, word) && Exists(d.geo, Target(d))
    ensures BlockNum(d.geo, Target(d)) == Number(d.geo, d.currCyl, word / 0x10000 % 0x100, word / 0x100 % 0x100)
    ensures Holds(d.image, HEADER, BlockNum(d.geo, Target(d)))
    ensures SectorIs(d, d.currCyl, word / 0x10000 % 0x100, word / 0x100 % 0x100,
                     ReadBlock(d.image, HEADER, BlockNum(d.geo, Target(d))))
  {
    hide Number, BlockNum;
    SectorHeld(d.geo, d.image, Target(d));
    NumberIs(d.geo, d.currCyl, word / 0x10000 % 0x100, word / 0x100 % 0x100);
  }

  lemma NumberIs(g: Geometry, cyl: nat, head: nat, sect: nat)
    ensures BlockNum(g, Sector(cyl, head, sect)) == Number(g, cyl, head, sect)
  {
  }

  lemma ThreeSteps<R>(s: System<R>, a: Step<R>, bs: seq<Step<R>>)
    requires Coherent(s.d) && CanStep(s, a)
    requires a.Complete? ==> CompleteDevOp(s.d, s.mem).Completed?
    requires Coherent(Next(s, a).d) && CanRun(Next(s, a), bs)
    ensures CanRun(s, [a] + bs) && Run(s, [a] + bs) == Run(Next(s, a), bs)
  {
    hide Coherent, CanStep, Next;
    OneStep(s, a);
    RunAppend(s, [a], bs);
  }

  lemma StartsRead<R>(s: System<R>, read: Word)
    requires Coherent(s.d) && s.d.status != BUSY && read % 0x100 == 3 && Names(s.d.geo, read)
    ensures var d := WriteDevReg(s.d, s.mem, 1, read);
      && Coherent(d) && Reading(d) && d == s.d.(command := read, status := 3, requested := false, tag := d.tag)
  {
    WriteRegKeeps(s.d, s.mem, 1, read);
    hide Coherent, BlockNum;
  }

  lemma ReadEnds<R>(d: Disk, mem: Memory<R>) returns (b: Block)
    requires Coherent(d) && Reading(d) && d.isWorking && Names(d.geo, d.command) && InRam(mem, d.data0)
    ensures var c := CompleteDevOp(d, mem);
      && c.Completed? && c.d.status == 1 && c.d.image == d.image && c.d.currCyl == d.currCyl
      && InRam(c.mem, d.data0) && RamHas(c.mem, d.data0, b)
    ensures SectorIs(d, d.currCyl, d.command / 0x10000 % 0x100, d.command / 0x100 % 0x100, b)
  {
    hide CompleteDevOp, ToMemory, SectorIs, RamHas, InRam, BlockNum, ReadBlock, Sends, Names, BufferOk;
    TargetIs(d, d.command);
    ReadDelivers(d, mem);
    b := ReadBlock(d.image, HEADER, BlockNum(d.geo, Target(d)));
    SentToRam(mem, b, d.data0);
    InRamSends(mem, d.data0);
  }

  /** A command, a change of memory, and the end of the operation. */
  function Operation<R>(word: Word, mem: Memory<R>): seq<Step<R>> { [WriteReg(1, word), Store(mem), Complete] }

  lemma OperationRuns<R>(s: System<R>, word: Word, mem: Memory<R>)
    requires Coherent(s.d) && Coherent(WriteDevReg(s.d, s.mem, 1, word)) && WriteDevReg(s.d, s.mem, 1, word).status == BUSY
    requires CompleteDevOp(WriteDevReg(s.d, s.mem, 1, word), mem).Completed?
    ensures CanRun(s, Operation(word, mem))
    ensures var c := CompleteDevOp(WriteDevReg(s.d, s.mem, 1, word), mem); Run(s, Operation(word, mem)) == System(c.d, c.mem)
  {
    hide Coherent, CompleteDevOp, WriteDevReg, Run, CanRun;
    var s1 := Next(s, WriteReg(1, word));
    TwoSteps(s1, Store(mem), Complete);
    ThreeSteps(s, WriteReg(1, word), [Store(mem), Complete]);
    assert [WriteReg(1, word)] + [Store(mem), Complete] == Operation(word, mem);
  }

  /**
   * An accepted read ends ready, with the sector at the current cylinder and at the head and the sector the command
   * names in RAM at DATA0, whatever memory holds when it ends; the image is as before.
   */
  lemma ReadsSector<R>(s: System<R>, read: Word, mem: Memory<R>) returns (b: Block)
    requires Coherent(s.d) && s.d.status != BUSY && s.d.isWorking && read % 0x100 == 3 && Names(s.d.geo, read)
    requires InRam(mem, s.d.data0)
    ensures CanRun(s, Operation(read, mem))
    ensures var r := Run(s, Operation(read, mem));
      && r.d.status == 1 && r.d.image == s.d.image && r.d.currCyl == s.d.currCyl
      && InRam(r.mem, s.d.data0) && RamHas(r.mem, s.d.data0, b)
    ensures SectorIs(s.d, s.d.currCyl, read / 0x10000 % 0x100, read / 0x100 % 0x100, b)
  {
    hide Coherent, CompleteDevOp, WriteDevReg, RamHas, InRam, Run, CanRun, Operation, Number, Names;
    StartsRead(s, read);
    var d := WriteDevReg(s.d, s.mem, 1, read);
    b := ReadEnds(d, mem);
    OperationRuns(s, read, mem);
  }

  lemma StartsWrite<R>(s: System<R>, write: Word)
    requires Coherent(s.d) && s.d.status != BUSY && write % 0x100 == 4 && Names(s.d.geo, write)
    ensures var d := WriteDevReg(s.d, s.mem, 1, write);
      && Coherent(d) && Writing(d)
      && d == s.d.(command := write, status := 3, requested := false, tag := d.tag, buffer := FromMemory(s.mem, s.d.buffer, s.d.data0))
  {
    WriteRegKeeps(s.d, s.mem, 1, write);
    hide Coherent, BlockNum, FromMemory, Fetches;
  }

  lemma WriteEnds<R>(d: Disk, mem: Memory<R>)
    requires Coherent(d) && Writing(d) && d.isWorking && Names(d.geo, d.command)
    ensures var c := CompleteDevOp(d, mem);
      && c.Completed? && c.d.status == 1 && c.d.currCyl == d.currCyl && c.d.geo == d.geo && c.mem == mem
      && SectorIs(c.d, d.currCyl, d.command / 0x10000 % 0x100, d.command / 0x100 % 0x100, d.buffer)
      && OthersKept(d, c.d, d.currCyl, d.command / 0x10000 % 0x100, d.command / 0x100 % 0x100)
  {
    hide Names, BufferOk, Number, BlockNum;
    TargetIs(d, d.command);
    var n := BlockNum(d.geo, Target(d));
    var at := BlockAt(HEADER, n);
    assert CompleteDevOp(d, mem) == Completed(d.(image := WriteBlock(d.image, HEADER, n, d.buffer), status := READY, requested := true), mem);
  }

  /** Every word of the image outside the sector. */
  ghost predicate OthersKept(d: Disk, r: Disk, cyl: nat, head: nat, sect: nat) {
    var at := 7 + Number(d.geo, cyl, head, sect) * 0x400;
    |r.image| == |d.image| && forall j | 0 <= j < |d.image| && !(at <= j < at + 0x400) :: r.image[j] == d.image[j]
  }

  /**
   * An accepted write ends ready, with the block that RAM had at DATA0 when the command was given in the sector at the
   * current cylinder and at the head and the sector the command names; no other word of the image changes.
   */
  lemma WritesSector<R>(s: System<R>, write: Word, mem: Memory<R>) returns (b: Block)
    requires Coherent(s.d) && s.d.status != BUSY && s.d.isWorking && write % 0x100 == 4 && Names(s.d.geo, write)
    requires InRam(s.mem, s.d.data0)
    ensures RamHas(s.mem, s.d.data0, b)
    ensures CanRun(s, Operation(write, mem))
    ensures var r := Run(s, Operation(write, mem));
      && r.d.status == 1 && r.d.currCyl == s.d.currCyl && r.d.geo == s.d.geo && r.mem == mem
      && SectorIs(r.d, s.d.currCyl, write / 0x10000 % 0x100, write / 0x100 % 0x100, b)
      && OthersKept(s.d, r.d, s.d.currCyl, write / 0x10000 % 0x100, write / 0x100 % 0x100)
  {
    hide Coherent, CompleteDevOp, WriteDevReg, RamHas, InRam, Run, CanRun, Operation, Number, Names, SectorIs, FromMemory;
    StartsWrite(s, write);
    var d := WriteDevReg(s.d, s.mem, 1, write);
    b := FromMemory(s.mem, s.d.buffer, s.d.data0);
    FetchedFromRam(s.mem, s.d.buffer, s.d.data0);
    WriteEnds(d, mem);
    OperationRuns(s, write, mem);
  }

  /**
   * After an accepted seek to a cylinder and an accepted read of a head and a sector RAM at DATA0 holds that very
   * sector of the image, the three numbers read from the two command words.
   */
  lemma SeekThenRead<R>(s: System<R>, seek: Word, read: Word, mem: Memory<R>) returns (b: Block)
    requires Coherent(s.d) && s.d.status != BUSY && s.d.isWorking
    requires seek % 0x100 == 2 && seek / 0x100 % 0x10000 < s.d.geo.cyls
    requires read % 0x100 == 3 && Names(s.d.geo, read) && InRam(mem, s.d.data0)
    ensures var steps := [WriteReg(1, seek), Complete] + Operation(read, mem);
      CanRun(s, steps) && Run(s, steps).d.status == 1 && InRam(Run(s, steps).mem, s.d.data0)
      && RamHas(Run(s, steps).mem, s.d.data0, b)
    ensures SectorIs(s.d, seek / 0x100 % 0x10000, read / 0x10000 % 0x100, read / 0x100 % 0x100, b)
  {
    hide Coherent, RamHas, InRam, Run, CanRun, Operation, Number, Names;
    SeekArrives(s, seek);
    var s1 := Run(s, [WriteReg(1, seek), Complete]);
    b := ReadsSector(s1, read, mem);
    RunAppend(s, [WriteReg(1, seek), Complete], Operation(read, mem));
  }

  // ---- transfers that fail ----------------------------------------------------------------------

  /** What an accepted write leaves: READY, and this block in its sector. */
  ghost predicate Stores<R>(s: System<R>, data: Word, b: Block) {
    var d := WriteDevReg(s.d, s.mem, COMMAND, data);
    var c := CompleteDevOp(d, s.mem);
    && c.Completed? && c.d.status == READY && Exists(d.geo, Target(d))
    && Holds(c.d.image, HEADER, BlockNum(d.geo, Target(d)))
    && ReadBlock(c.d.image, HEADER, BlockNum(d.geo, Target(d))) == b
  }

  /**
   * A write whose transfer fails is not called off: success is reported always, but the sector stored is the
   * block memory has at DATA0 exactly if that is aligned and every word of it can be read. From a misaligned
   * DATA0 the old buffer is stored; otherwise the words read, all ones at the failing word, and old words.
   */
  lemma FailedTransferStillWrites<R>(s: System<R>, data: Word) returns (b: Block)
    requires Coherent(s.d) && s.d.status != BUSY && s.d.isWorking
    requires Op(data) == DWRITEBLK && InRange(s.d.geo, data)
    ensures Stores(s, data, b)
    ensures HasBlock(s.mem, s.d.data0, b) <==> Fetches(s.mem, s.d.data0)
    ensures s.d.data0 % 4 != 0 ==> b == s.d.buffer
    ensures s.d.data0 % 4 == 0 && !Fetches(s.mem, s.d.data0) ==>
      CutShort(s.mem, s.d.data0, s.d.buffer, b, ReadRun(s.mem, s.d.data0, 0))
  {
    hide Stores, Coherent, FromMemory, HasBlock, CutShort, ReadRun, Fetches, Op, InRange;
    b := FromMemory(s.mem, s.d.buffer, s.d.data0);
    StoresBuffer(s, data);
    FetchLeaves(s.mem, s.d.buffer, s.d.data0);
  }

  lemma StoresBuffer<R>(s: System<R>, data: Word)
    requires Coherent(s.d) && s.d.status != BUSY && s.d.isWorking
    requires Op(data) == DWRITEBLK && InRange(s.d.geo, data)
    ensures Stores(s, data, FromMemory(s.mem, s.d.buffer, s.d.data0))
  {
    hide Coherent, CompleteDevOp, FromMemory, Fetches, ReadBlock, BlockNum, Exists, Target;
    var d := WriteDevReg(s.d, s.mem, COMMAND, data);
    assert d.buffer == FromMemory(s.mem, s.d.buffer, s.d.data0) && Writing(d) && d.isWorking;
    WriteRegKeeps(s.d, s.mem, COMMAND, data);
    Fit(d);
    TargetHeld(d);
    WriteStores(d, s.mem, Target(d));
  }

  lemma Fit(d: Disk)
    requires Coherent(d)
    ensures Fits(d)
  {
  }

  /** A new disk over a sized image, with at least one cylinder, is coherent. */
  function New(geo: Geometry, image: Image): Disk {
    Disk(geo, READY, 0, 0, 0, NoSector, seq(BLOCKSIZE, _ => 0), image, true, false)
  }

  lemma NewIsCoherent(geo: Geometry, image: Image)
    requires Sized(geo, image) && geo.cyls > 0
    ensures Coherent(New(geo, image))
  {
  }

  /** Such a write: a new disk, DATA0 one past an address, memory all 1 there, and a sector of zeros. */
  lemma StaleWordsStored<R>(mem: Memory<R>, image: Image)
    requires |image| == HEADER + BLOCKSIZE && |mem.ram| >= BLOCKSIZE
    requires forall k: nat | k < BLOCKSIZE :: mem.ram[k] == 1
    ensures var d := WriteDevReg(New(Geometry(1, 1, 1), image), mem, DATA0, RAMBASE + 1);
      && Stores(System(d, mem), DWRITEBLK, seq(BLOCKSIZE, _ => 0))
      && !HasBlock(mem, d.data0, seq(BLOCKSIZE, _ => 0))
  {
    hide Stores, HasBlock, FromMemory, ReadRun, Fetches, CutShort;
    var geo := Geometry(1, 1, 1);
    NewIsCoherent(geo, image);
    var d := WriteDevReg(New(geo, image), mem, DATA0, RAMBASE + 1);
    WriteRegKeeps(New(geo, image), mem, DATA0, RAMBASE + 1);
    var b := FailedTransferStillWrites(System(d, mem), DWRITEBLK);
    Misaligned(mem, d.data0);
  }
}
