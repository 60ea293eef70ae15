/** The terminal object of device.cc, updated in place and proved against Terminal. */
module TerminalDevices {
  import opened Words
  import opened Spec = Terminal

  /** The registers and buffer as the emulator updates them; `calls` is what it asked of the bus, in order. */
  class TerminalDevice {
    var recvStatus: Word
    var recvCommand: Word
    var tranStatus: Word
    var tranCommand: Word
    var recvBuf: Buffer
    var recvBp: nat
    var recvCTime: nat
    var tranCTime: nat
    var recvIntPend: bool
    var tranIntPend: bool
    var isWorking: bool
    var calls: seq<BusCall>

    function View(): Terminal
      reads this
    {
      Terminal(recvStatus, recvCommand, tranStatus, tranCommand, recvBuf, recvBp,
               recvCTime, tranCTime, recvIntPend, tranIntPend, isWorking)
    }

    constructor ()
      ensures View() == New() && calls == []
    {
      recvStatus, recvCommand, tranStatus, tranCommand := READY, 0, READY, 0;
      recvBuf, recvBp := Null, 0;
      recvCTime, tranCTime := 0, 0;
      recvIntPend, tranIntPend, isWorking := false, false, true;
      calls := [];
    }

    method ScheduleIOEvent(tod: nat, delay: nat) returns (at: nat)
      modifies this`calls
      ensures at == tod + delay && calls == old(calls) + [Schedule(delay)]
    {
      calls := calls + [Schedule(delay)];
      at := tod + delay;
    }

    method WriteRecv(tod: nat, clock: ClockRate, data: Word)
      requires recvStatus != BUSY
      modifies this
      ensures var (t, o) := Spec.WriteRecvCommand(old(View()), tod, clock, data);
        View() == t && calls == old(calls) + CallsOf(o, old(tranIntPend))
    {
      recvCommand := data;
      if data == RESET {
        if !tranIntPend { calls := calls + [IntAck]; }
        recvIntPend := false;
        recvCTime := ScheduleIOEvent(tod, TERMRESETTIME * clock);
        recvStatus := BUSY;
      } else if data == ACK {
        if !tranIntPend { calls := calls + [IntAck]; }
        recvIntPend := false;
        recvStatus := READY;
      } else if data == RECVCHR {
        if !tranIntPend { calls := calls + [IntAck]; }
        recvIntPend := false;
        recvCTime := ScheduleIOEvent(tod, RECVCHRTIME * clock);
        recvStatus := BUSY;
      } else {
        recvStatus := ILOPERR;
        calls := calls + [IntReq];
        recvIntPend := true;
      }
    }

    method WriteTran(tod: nat, clock: ClockRate, data: Word)
      requires tranStatus != BUSY
      modifies this
      ensures var (t, o) := Spec.WriteTranCommand(old(View()), tod, clock, data);
        View() == t && calls == old(calls) + CallsOf(o, old(recvIntPend))
    {
      tranCommand := data;
      var command := data % 0x100;
      if command == RESET {
        if !recvIntPend { calls := calls + [IntAck]; }
        tranIntPend := false;
        tranCTime := ScheduleIOEvent(tod, TERMRESETTIME * clock);
        tranStatus := BUSY;
      } else if command == ACK {
        if !recvIntPend { calls := calls + [IntAck]; }
        tranIntPend := false;
        tranStatus := READY;
      } else if command == TRANCHR {
        if !recvIntPend { calls := calls + [IntAck]; }
        tranIntPend := false;
        tranCTime := ScheduleIOEvent(tod, TRANCHRTIME * clock);
        tranStatus := BUSY;
      } else {
        tranStatus := ILOPERR;
        calls := calls + [IntReq];
        tranIntPend := true;
      }
    }

    method WriteDevReg(tod: nat, clock: ClockRate, regnum: nat, data: Word)
      modifies this
      ensures View() == Spec.WriteDevReg(old(View()), tod, clock, regnum, data).0
      ensures calls == old(calls) + Spec.WriteDevReg(old(View()), tod, clock, regnum, data).1
    {
      if regnum == RECVCOMMAND {
        if recvStatus != BUSY { WriteRecv(tod, clock, data); }
      } else if regnum == TRANCOMMAND {
        if tranStatus != BUSY { WriteTran(tod, clock, data); }
      }
    }

    /** `ok` is false where the emulator panics; `devMod` is the status register the completion rewrote. */
    method CompleteDevOp(tod: nat, clock: ClockRate) returns (ok: bool, devMod: nat)
      requires recvBuf.Chars? ==> recvBp <= |recvBuf.text|
      modifies this
      ensures var c := Spec.CompleteDevOp(old(View()), tod, clock);
        && ok == c.Done?
        && (ok ==> View() == c.t && calls == old(calls) + c.calls && devMod == if c.receiver then RECVSTATUS else TRANSTATUS)
    {
      ok, devMod := true, RECVSTATUS;
      var doRecv;
      if recvStatus == BUSY && tranStatus == BUSY {
        doRecv := recvCTime <= tranCTime;
      } else {
        doRecv := recvStatus == BUSY;
      }
      if doRecv {
        if recvCommand == RESET {
          recvStatus := READY;
          recvIntPend := true;
          calls := calls + [IntReq];
        } else if recvCommand == RECVCHR {
          if recvBuf.Null? || recvBp == |recvBuf.text| {
            recvCTime := ScheduleIOEvent(tod, RECVCHRTIME * clock);
          } else {
            if isWorking {
              recvStatus := ReceivedStatus(recvBuf.text[recvBp]);
              recvBp := recvBp + 1;
            } else {
              recvStatus := RECVERR;
            }
            recvIntPend := true;
            calls := calls + [IntReq];
          }
        } else {
          return false, RECVSTATUS;
        }
      } else {
        var command := tranCommand % 0x100;
        if command == RESET {
          tranStatus := READY;
        } else if command == TRANCHR {
          tranStatus := tranCommand / 0x100 % 0x100 * 0x100 + if isWorking then TRANSMD else TRANERR;
        } else {
          return false, TRANSTATUS;
        }
        calls := calls + [IntReq];
        tranIntPend := true;
        devMod := TRANSTATUS;
      }
    }

    method Input(line: seq<CChar>)
      requires recvBuf.Chars? ==> recvBp <= |recvBuf.text|
      modifies this`recvBuf, this`recvBp
      ensures View() == Spec.Input(old(View()), line)
    {
      ghost var unread := Unread(View());
      if recvBuf.Chars? && recvBp == |recvBuf.text| {
        recvBuf := Null;
      }
      if recvBuf.Null? {
        recvBuf := Chars(line + [NEWLINE]);
        assert unread == [];
        assert unread + line + [NEWLINE] == line + [NEWLINE];
      } else {
        recvBuf := Chars(recvBuf.text[recvBp..] + line + [NEWLINE]);
      }
      recvBp := 0;
    }
  }
}
