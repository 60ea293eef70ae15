/** The flash object of device.cc, updated in place and proved against Flash. */
module FlashDevices {
  import opened Words
  import opened Dma
  import opened Images
  import opened Spec = Flash

  class FlashDevice<R> {
    const blocks: nat
    const bus: Bus<R>
    const flashBuf: array<Word>
    var status: Word
    var command: Word
    var data0: Word
    var blockBuf: nat
    var flashFile: Image
    var isWorking: bool
    var requested: bool

    ghost predicate Valid()
      reads this
    {
      && bus.Valid() && flashBuf.Length == BLOCKSIZE && flashBuf != bus.ram && flashBuf != bus.biosdata
      && blocks <= 0xFF_FFFF
    }

    /** MAXWORDVAL in the tag stands for an empty buffer. */
    ghost function View(): Flash
      reads this, flashBuf
      requires Valid()
    {
      Flash(blocks, status, command, data0, if blockBuf == MAX_WORD then NoBlock else Held(blockBuf),
            flashBuf[..], flashFile, isWorking, requested)
    }

    constructor (blocks: nat, bus: Bus<R>, flashFile: Image)
      requires bus.Valid() && Sized(blocks, flashFile)
      ensures Valid() && View() == New(blocks, flashFile) && fresh(flashBuf)
    {
      this.blocks, this.bus, this.flashFile := blocks, bus, flashFile;
      flashBuf := new Word[BLOCKSIZE](_ => 0);
      status, command, data0 := READY, 0, 0;
      blockBuf := MAX_WORD;
      isWorking, requested := true, false;
      new;
      assert flashBuf[..] == seq(BLOCKSIZE, _ => 0);
    }

    method StartRead(data: Word)
      requires Valid() && command == data && Op(data) == FREADBLK
      modifies this
      ensures Valid() && View() == WriteCommand(old(View()), bus.View(), data)
    {
      requested := false;
      var block := Target(data);
      if block < blocks {
        if block != blockBuf {
          blockBuf := MAX_WORD;
        }
        status := BUSY;
      } else {
        status := FREADERR;
        requested := true;
      }
    }

    method StartWrite(data: Word)
      requires Valid() && command == data && Op(data) == FWRITEBLK
      modifies this, flashBuf, bus.ram, bus.biosdata, bus`regs
      ensures Valid() && View() == WriteCommand(old(View()), old(bus.View()), data)
      ensures bus.View() == old(bus.View())
    {
      hide FromMemory, Fetches, ToMemory, Sends;
      requested := false;
      var block := Target(data);
      if block < blocks {
        var error := bus.DMATransfer(flashBuf, data0, false);
        if error {
          blockBuf := MAX_WORD;
        } else {
          blockBuf := block;
        }
        status := BUSY;
      } else {
        status := FWRITERR;
        requested := true;
      }
    }

    method WriteDevReg(regnum: nat, data: Word)
      requires Valid()
      modifies this, flashBuf, bus.ram, bus.biosdata, bus`regs
      ensures Valid() && View() == Spec.WriteDevReg(old(View()), old(bus.View()), regnum, data)
      ensures bus.View() == old(bus.View())
    {
      hide FromMemory, Fetches;
      if status == BUSY { return; }
      if regnum == COMMAND {
        command := data;
        var op := data % 0x100;
        if op == RESET {
          requested := false;
          status := BUSY;
        } else if op == ACK {
          requested := false;
          status := READY;
        } else if op == FREADBLK {
          StartRead(data);
        } else if op == FWRITEBLK {
          StartWrite(data);
        } else {
          status := ILOPERR;
          requested := true;
        }
      } else if regnum == DATA0 {
        data0 := data;
      }
    }

    method LoadBlock(block: nat) returns (ok: bool)
      requires Valid()
      modifies flashBuf
      ensures ok == Holds(flashFile, HEADER, block)
      ensures flashBuf[..] == if ok then ReadBlock(flashFile, HEADER, block) else old(flashBuf[..])
    {
      ok := Holds(flashFile, HEADER, block);
      if ok {
        forall i | 0 <= i < BLOCKSIZE { flashBuf[i] := flashFile[BlockAt(HEADER, block) + i]; }
        assert flashBuf[..] == ReadBlock(flashFile, HEADER, block);
      }
    }

    method FinishRead() returns (ok: bool)
      requires Valid()
      modifies this, flashBuf, bus.ram, bus.biosdata, bus`regs
      ensures Valid()
      ensures var c := CompleteRead(old(View()), old(bus.View()));
        ok == c.Completed? && (ok ==> View() == c.d.(requested := old(requested)) && bus.View() == c.mem)
    {
      var block := Target(command);
      if isWorking {
        if blockBuf == MAX_WORD {
          ok := LoadBlock(block);
          if !ok { return; }
        }
        blockBuf := block;
        var error := bus.DMATransfer(flashBuf, data0, true);
        status := if error then FDMAERR else READY;
      } else {
        blockBuf := MAX_WORD;
        status := FREADERR;
      }
      return true;
    }

    method FinishWrite() returns (ok: bool)
      requires Valid()
      modifies this
      ensures Valid()
      ensures var c := CompleteWrite(old(View()), bus.View());
        ok == c.Completed? && (ok ==> View() == c.d.(requested := old(requested)))
    {
      var block := Target(command);
      if isWorking {
        if !Holds(flashFile, HEADER, block) { return false; }
        flashFile := WriteBlock(flashFile, HEADER, block, flashBuf[..]);
        status := READY;
      } else {
        blockBuf := MAX_WORD;
        status := FWRITERR;
      }
      return true;
    }

    /** `ok` is false where the emulator panics. */
    method CompleteDevOp() returns (ok: bool)
      requires Valid()
      modifies this, flashBuf, bus.ram, bus.biosdata, bus`regs
      ensures Valid()
      ensures var c := Spec.CompleteDevOp(old(View()), old(bus.View()));
        ok == c.Completed? && (ok ==> View() == c.d && bus.View() == c.mem)
    {
      hide ToMemory, Sends, ReadBlock, WriteBlock;
      ok := true;
      var op := command % 0x100;
      if op == RESET {
        status := READY;
        blockBuf := MAX_WORD;
      } else if op == FREADBLK {
        ok := FinishRead();
      } else if op == FWRITEBLK {
        ok := FinishWrite();
      } else {
        ok := false;
      }
      requested := true;
    }
  }
}
