/** The disk object of device.cc, updated in place and proved against Disk. */
module DiskDevices {
  import opened Words
  import opened Dma
  import opened Images
  import opened Spec = Disk

  class DiskDevice<R> {
    const geo: Geometry
    const bus: Bus<R>
    const diskBuf: array<Word>
    var status: Word
    var command: Word
    var data0: Word
    var currCyl: nat
    var cylBuf: nat
    var headBuf: nat
    var sectBuf: nat
    var diskFile: Image
    var isWorking: bool
    var requested: bool

    ghost predicate Valid()
      reads this
    {
      && bus.Valid() && diskBuf.Length == BLOCKSIZE && diskBuf != bus.ram && diskBuf != bus.biosdata
      && currCyl < geo.cyls <= 0xFFFF
    }

    /** MAXWORDVAL in the cylinder tag stands for an empty buffer. */
    ghost function View(): Disk
      reads this, diskBuf
      requires Valid()
    {
      Disk(geo, status, command, data0, currCyl,
           if cylBuf == MAX_WORD then NoSector else Sector(cylBuf, headBuf, sectBuf),
           diskBuf[..], diskFile, isWorking, requested)
    }

    constructor (geo: Geometry, bus: Bus<R>, diskFile: Image)
      requires bus.Valid() && Sized(geo, diskFile) && geo.cyls > 0
      ensures Valid() && View() == New(geo, diskFile) && fresh(diskBuf)
    {
      this.geo, this.bus, this.diskFile := geo, bus, diskFile;
      diskBuf := new Word[BLOCKSIZE](_ => 0);
      status, command, data0, currCyl := READY, 0, 0, 0;
      cylBuf, headBuf, sectBuf := MAX_WORD, MAX_WORD, MAX_WORD;
      isWorking, requested := true, false;
      new;
      assert diskBuf[..] == seq(BLOCKSIZE, _ => 0);
    }

    method InvalidateBuffer()
      modifies this`cylBuf, this`headBuf, this`sectBuf
      ensures cylBuf == headBuf == sectBuf == MAX_WORD
    {
      cylBuf, headBuf, sectBuf := MAX_WORD, MAX_WORD, MAX_WORD;
    }

    method StartRead(data: Word)
      requires Valid() && command == data && Op(data) == DREADBLK
      modifies this
      ensures Valid() && View() == WriteCommand(old(View()), bus.View(), data)
    {
      requested := false;
      var head, sect := Head(data), Sect(data);
      if head < geo.heads && sect < geo.sects {
        if !(currCyl == cylBuf && head == headBuf && sect == sectBuf) {
          InvalidateBuffer();
        }
        status := BUSY;
      } else {
        status := DREADERR;
        requested := true;
      }
    }

    method StartWrite(data: Word)
      requires Valid() && command == data && Op(data) == DWRITEBLK
      modifies this, diskBuf, bus.ram, bus.biosdata, bus`regs
      ensures Valid() && View() == WriteCommand(old(View()), old(bus.View()), data)
      ensures bus.View() == old(bus.View())
    {
      hide FromMemory, Fetches, ToMemory, Sends;
      requested := false;
      var head, sect := Head(data), Sect(data);
      if head < geo.heads && sect < geo.sects {
        var error := bus.DMATransfer(diskBuf, data0, false);
        if error {
          InvalidateBuffer();
        } else {
          cylBuf, headBuf, sectBuf := currCyl, head, sect;
        }
        status := BUSY;
      } else {
        status := DWRITERR;
        requested := true;
      }
    }

    method WriteDevReg(regnum: nat, data: Word)
      requires Valid()
      modifies this, diskBuf, bus.ram, bus.biosdata, bus`regs
      ensures Valid() && View() == Spec.WriteDevReg(old(View()), old(bus.View()), regnum, data)
      ensures bus.View() == old(bus.View())
    {
      hide FromMemory, Fetches;
      if status == BUSY { return; }
      if regnum == COMMAND {
        command := data;
        var op := data % 0x100;
        if op == RESET {
          requested := false;
          status := BUSY;
        } else if op == ACK {
          requested := false;
          status := READY;
        } else if op == DSEEKCYL {
          requested := false;
          if Cyl(data) < geo.cyls {
            status := BUSY;
          } else {
            status := DSEEKERR;
            requested := true;
          }
        } else if op == DREADBLK {
          StartRead(data);
        } else if op == DWRITEBLK {
          StartWrite(data);
        } else {
          status := ILOPERR;
          requested := true;
        }
      } else if regnum == DATA0 {
        data0 := data;
      }
    }

    method LoadBlock(block: nat) returns (ok: bool)
      requires Valid()
      modifies diskBuf
      ensures ok == Holds(diskFile, HEADER, block)
      ensures diskBuf[..] == if ok then ReadBlock(diskFile, HEADER, block) else old(diskBuf[..])
    {
      ok := Holds(diskFile, HEADER, block);
      if ok {
        forall i | 0 <= i < BLOCKSIZE { diskBuf[i] := diskFile[BlockAt(HEADER, block) + i]; }
        assert diskBuf[..] == ReadBlock(diskFile, HEADER, block);
      }
    }

    method FinishRead() returns (ok: bool)
      requires Valid()
      modifies this, diskBuf, bus.ram, bus.biosdata, bus`regs
      ensures Valid()
      ensures var c := CompleteRead(old(View()), old(bus.View()));
        ok == c.Completed? && (ok ==> View() == c.d.(requested := old(requested)) && bus.View() == c.mem)
    {
      var head, sect := Head(command), Sect(command);
      if isWorking {
        var block := BlockNum(geo, Sector(currCyl, head, sect));
        hide BlockNum;
        if cylBuf == MAX_WORD {
          ok := LoadBlock(block);
          if !ok { return; }
        }
        cylBuf, headBuf, sectBuf := currCyl, head, sect;
        var error := bus.DMATransfer(diskBuf, data0, true);
        status := if error then DDMAERR else READY;
      } else {
        InvalidateBuffer();
        status := DREADERR;
      }
      return true;
    }

    method FinishWrite() returns (ok: bool)
      requires Valid()
      modifies this
      ensures Valid()
      ensures var c := CompleteWrite(old(View()), bus.View());
        ok == c.Completed? && (ok ==> View() == c.d.(requested := old(requested)))
    {
      var head, sect := Head(command), Sect(command);
      if isWorking {
        var block := BlockNum(geo, Sector(currCyl, head, sect));
        hide BlockNum;
        if !Holds(diskFile, HEADER, block) { return false; }
        diskFile := WriteBlock(diskFile, HEADER, block, diskBuf[..]);
        status := READY;
      } else {
        InvalidateBuffer();
        status := DWRITERR;
      }
      return true;
    }

    /** `ok` is false where the emulator panics. */
    method CompleteDevOp() returns (ok: bool)
      requires Valid()
      requires Op(command) == DSEEKCYL ==> Cyl(command) < geo.cyls
      modifies this, diskBuf, bus.ram, bus.biosdata, bus`regs
      ensures Valid()
      ensures var c := Spec.CompleteDevOp(old(View()), old(bus.View()));
        ok == c.Completed? && (ok ==> View() == c.d && bus.View() == c.mem)
    {
      hide ToMemory, Sends, ReadBlock, WriteBlock;
      ok := true;
      var op := command % 0x100;
      if op == RESET {
        status := READY;
        InvalidateBuffer();
      } else if op == DSEEKCYL {
        if isWorking {
          currCyl := Cyl(command);
          status := READY;
        } else {
          currCyl := (Cyl(command) + currCyl) / 2;
          status := DSEEKERR;
        }
      } else if op == DREADBLK {
        ok := FinishRead();
      } else if op == DWRITEBLK {
        ok := FinishWrite();
      } else {
        ok := false;
      }
      requested := true;
    }
  }
}
