/** The terminal device of device.cc: two sub-devices, one completion callback, one interrupt. */
module Terminal {
  import opened Words

  const READY: Word := 1
  const ILOPERR: Word := 2
  const BUSY: Word := 3
  const RESET: Word := 0
  const ACK: Word := 1
  const TRANCHR: Word := 2
  const RECVCHR: Word := 2
  const RECVERR: Word := 4
  const TRANERR: Word := 4
  const RECVD: Word := 5
  const TRANSMD: Word := 5
  const TERMRESETTIME := 400
  const TRANCHRTIME := 80
  const RECVCHRTIME := 80

  // Register numbers.
  const RECVSTATUS := 0
  const RECVCOMMAND := 1
  const TRANSTATUS := 2
  const TRANCOMMAND := 3

  /** A character of a C string, never the terminating zero. */
  type CChar = c: int | -128 <= c < 128 && c != 0 witness 1
  const NEWLINE: CChar := 10

  datatype Buffer = Null | Chars(text: seq<CChar>)

  type ClockRate = r: nat | 1 <= r <= 99 witness 1

  datatype Terminal = Terminal(
    recvStatus: Word,
    recvCommand: Word,
    tranStatus: Word,
    tranCommand: Word,
    recvBuf: Buffer,
    recvBp: nat,
    recvCTime: nat,
    tranCTime: nat,
    recvIntPend: bool,
    tranIntPend: bool,
    isWorking: bool)

  /** What the device asks of the bus, in order. */
  datatype BusCall = IntReq | IntAck | Schedule(delay: nat)

  /** Result of a completion; None stands for the panic on an unknown operation. */
  datatype Completion = Panic | Done(t: Terminal, calls: seq<BusCall>, receiver: bool)

  function New(): Terminal {
    Terminal(READY, 0, READY, 0, Null, 0, 0, 0, false, false, true)
  }

  /** What writing a command leads to: an error interrupt, an acknowledgement, or an operation under way. */
  datatype Outcome = Rejected | Acknowledged | Started(delay: nat)

  /** An acknowledgement lowers the shared interrupt only if the other sub-device does not hold it up. */
  function CallsOf(o: Outcome, otherPending: bool): seq<BusCall> {
    match o
    case Rejected => [IntReq]
    case Acknowledged => if otherPending then [] else [IntAck]
    case Started(delay) => if otherPending then [Schedule(delay)] else [IntAck, Schedule(delay)]
  }

  function WriteRecvCommand(t: Terminal, tod: nat, clock: ClockRate, data: Word): (Terminal, Outcome) {
    var t1 := t.(recvCommand := data);
    if data == RESET then
      (t1.(recvIntPend := false, recvCTime := tod + TERMRESETTIME * clock, recvStatus := BUSY), Started(TERMRESETTIME * clock))
    else if data == ACK then
      (t1.(recvIntPend := false, recvStatus := READY), Acknowledged)
    else if data == RECVCHR then
      (t1.(recvIntPend := false, recvCTime := tod + RECVCHRTIME * clock, recvStatus := BUSY), Started(RECVCHRTIME * clock))
    else
      (t1.(recvStatus := ILOPERR, recvIntPend := true), Rejected)
  }

  function WriteTranCommand(t: Terminal, tod: nat, clock: ClockRate, data: Word): (Terminal, Outcome) {
    var t1 := t.(tranCommand := data);
    if data % 0x100 == RESET then
      (t1.(tranIntPend := false, tranCTime := tod + TERMRESETTIME * clock, tranStatus := BUSY), Started(TERMRESETTIME * clock))
    else if data % 0x100 == ACK then
      (t1.(tranIntPend := false, tranStatus := READY), Acknowledged)
    else if data % 0x100 == TRANCHR then
      (t1.(tranIntPend := false, tranCTime := tod + TRANCHRTIME * clock, tranStatus := BUSY), Started(TRANCHRTIME * clock))
    else
      (t1.(tranStatus := ILOPERR, tranIntPend := true), Rejected)
  }

  /** Only the command registers are writable, each only while its sub-device is not busy. */
  function WriteDevReg(t: Terminal, tod: nat, clock: ClockRate, regnum: nat, data: Word): (Terminal, seq<BusCall>) {
    if regnum == RECVCOMMAND && t.recvStatus != BUSY then
      var (t1, o) := WriteRecvCommand(t, tod, clock, data);
      (t1, CallsOf(o, t.tranIntPend))
    else if regnum == TRANCOMMAND && t.tranStatus != BUSY then
      var (t1, o) := WriteTranCommand(t, tod, clock, data);
      (t1, CallsOf(o, t.recvIntPend))
    else (t, [])
  }

  function Unread(t: Terminal): seq<CChar> {
    if t.recvBuf.Null? || t.recvBp > |t.recvBuf.text| then [] else t.recvBuf.text[t.recvBp..]
  }

  /** `(Word) c << 8 | RECVD`: the character is sign-extended first. */
  function ReceivedStatus(c: CChar): Word { c % TWO32 * 0x100 % TWO32 + RECVD }

  function DoRecv(t: Terminal): bool {
    if t.recvStatus == BUSY && t.tranStatus == BUSY then t.recvCTime <= t.tranCTime else t.recvStatus == BUSY
  }

  function CompleteRecv(t: Terminal, tod: nat, clock: ClockRate): Completion {
    if t.recvCommand == RESET then
      Done(t.(recvStatus := READY, recvIntPend := true), [IntReq], true)
    else if t.recvCommand == RECVCHR then
      if Unread(t) == [] then
        Done(t.(recvCTime := tod + RECVCHRTIME * clock), [Schedule(RECVCHRTIME * clock)], true)
      else if t.isWorking then
        Done(t.(recvStatus := ReceivedStatus(Unread(t)[0]), recvBp := t.recvBp + 1, recvIntPend := true), [IntReq], true)
      else
        Done(t.(recvStatus := RECVERR, recvIntPend := true), [IntReq], true)
    else Panic
  }

  function CompleteTran(t: Terminal): Completion {
    var data := t.tranCommand / 0x100 % 0x100 * 0x100;
    if t.tranCommand % 0x100 == RESET then
      Done(t.(tranStatus := READY, tranIntPend := true), [IntReq], false)
    else if t.tranCommand % 0x100 == TRANCHR then
      Done(t.(tranStatus := data + (if t.isWorking then TRANSMD else TRANERR), tranIntPend := true), [IntReq], false)
    else Panic
  }

  function CompleteDevOp(t: Terminal, tod: nat, clock: ClockRate): Completion {
    if DoRecv(t) then CompleteRecv(t, tod, clock) else CompleteTran(t)
  }

  /** A new line of input goes after what is still unread. */
  function Input(t: Terminal, line: seq<CChar>): Terminal {
    t.(recvBuf := Chars(Unread(t) + line + [NEWLINE]), recvBp := 0)
  }

  // ---- the terminal on its bus ----------------------------------------------------------

  /**
   * The terminal with its outstanding events, its interrupt request, what was typed and what programs then read in
   * RECVSTATUS, and the characters programs asked to transmit and those that TRANSTATUS then answered for.
   */
  datatype System = System(
    t: Terminal,
    tod: nat,
    clock: ClockRate,
    events: multiset<nat>,
    requested: bool,
    typed: seq<CChar>,
    received: seq<int>,
    asked: seq<nat>,
    answered: seq<nat>,
    panicked: bool)

  datatype Step =
    | Write(regnum: nat, data: Word)
    | Fire
    | Tick
    | Type(line: seq<CChar>)
    | SetCondition(working: bool)

  function Call(s: System, call: BusCall): System {
    match call
    case IntReq => s.(requested := true)
    case IntAck => s.(requested := false)
    case Schedule(delay) => s.(events := s.events + multiset{s.tod + delay})
  }

  function Calls(s: System, calls: seq<BusCall>): System
    decreases |calls|
  {
    if calls == [] then s else Calls(Call(s, calls[0]), calls[1..])
  }

  lemma NoCall(s: System)
    ensures Calls(s, []) == s
  {
  }

  lemma OneCall(s: System, a: BusCall)
    ensures Calls(s, [a]) == Call(s, a)
  {
    assert [a][1..] == [];
  }

  lemma TwoCalls(s: System, a: BusCall, b: BusCall)
    ensures Calls(s, [a, b]) == Call(Call(s, a), b)
  {
    assert [a, b][1..] == [b];
    OneCall(Call(s, a), b);
  }

  /** A completion event runs at its deadline; the clock moves only when none is due. */
  predicate CanStep(s: System, step: Step) {
    match step
    case Fire => s.tod in s.events
    case Tick => s.tod !in s.events
    case _ => true
  }

  function Next(s: System, step: Step): System {
    match step
    case Write(r, data) =>
      var (t, calls) := WriteDevReg(s.t, s.tod, s.clock, r, data);
      Calls(s.(t := t, asked := s.asked + Asked(s.t, r, data)), calls)
    case Fire =>
      (match CompleteDevOp(s.t, s.tod, s.clock)
       case Panic => s.(panicked := true)
       case Done(_, calls, _) => Calls(Fired(s), calls))
    case Tick => s.(tod := s.tod + 1)
    case Type(line) => s.(t := Input(s.t, line), typed := s.typed + line + [NEWLINE])
    case SetCondition(w) => s.(t := s.t.(isWorking := w))
  }

  function EventIf(busy: bool, at: nat): multiset<nat> { if busy then multiset{at} else multiset{} }

  /** The events the busy sub-devices are waiting for. */
  function Outstanding(t: Terminal): multiset<nat> {
    EventIf(t.recvStatus == BUSY, t.recvCTime) + EventIf(t.tranStatus == BUSY, t.tranCTime)
  }

  /** One event per busy sub-device, at its own completion time, for an operation the completion knows. */
  ghost predicate EventsOk(s: System) {
    && s.events == Outstanding(s.t)
    && (s.t.recvStatus == BUSY ==> s.t.recvCTime >= s.tod && (s.t.recvCommand == RESET || s.t.recvCommand == RECVCHR))
    && (s.t.tranStatus == BUSY ==> s.t.tranCTime >= s.tod && (s.t.tranCommand % 0x100 == RESET || s.t.tranCommand % 0x100 == TRANCHR))
  }

  /** The one interrupt the sub-devices share is up exactly while one of them wants it. */
  ghost predicate RequestOk(s: System) { s.requested <==> s.t.recvIntPend || s.t.tranIntPend }

  /** What was received, then what is still unread, is what was typed. */
  ghost predicate TextOk(s: System) {
    && (s.t.recvBuf.Chars? ==> s.t.recvBp <= |s.t.recvBuf.text|)
    && s.received + Unread(s.t) == s.typed
  }

  /** The character of a transmission under way. */
  function InFlight(t: Terminal): seq<nat> {
    if t.tranStatus == BUSY && t.tranCommand % 0x100 == 2 then [t.tranCommand / 0x100 % 0x100] else []
  }

  /** What was to be transmitted has been answered for, in order, but for the transmission under way. */
  ghost predicate OutputOk(s: System) { s.asked == s.answered + InFlight(s.t) }

  ghost predicate InputSide(s: System) { EventsOk(s) && RequestOk(s) && TextOk(s) && !s.panicked }

  ghost predicate Inv(s: System) { InputSide(s) && OutputOk(s) }

  function Powered(clock: ClockRate): System { System(New(), 0, clock, multiset{}, false, [], [], [], [], false) }

  /** A new terminal works, and both its halves are ready and want no interrupt. */
  lemma NewIsReady()
    ensures var t := New();
      t.recvStatus == 1 && t.tranStatus == 1 && Unread(t) == [] && t.isWorking && !t.recvIntPend && !t.tranIntPend
  {
  }

  /** A completion never panics and is charged to the sub-device whose own time has come, to the receiver if both have. */
  lemma FireIsCharged(s: System)
    requires EventsOk(s) && CanStep(s, Fire)
    ensures var c := CompleteDevOp(s.t, s.tod, s.clock);
      && c.Done?
      && (c.receiver <==> s.t.recvStatus == BUSY && s.t.recvCTime == s.tod)
      && (!c.receiver ==> s.t.tranStatus == BUSY && s.t.tranCTime == s.tod)
  {
  }

  /** The register shows the character typed. */
  lemma ReceivedNotBusy(c: CChar)
    ensures ReceivedStatus(c) % 0x100 == RECVD && CharOf(ReceivedStatus(c)) == c
  {
    assert c % TWO32 == if c < 0 then TWO32 + c else c;
    assert ReceivedStatus(c) == if c < 0 then TWO32 + 0x100 * c + RECVD else 0x100 * c + RECVD;
  }

  /** Taking the fired event out leaves the other sub-device's. */
  lemma FiredEvent(s: System)
    requires EventsOk(s) && CanStep(s, Fire)
    ensures var c := CompleteDevOp(s.t, s.tod, s.clock);
      c.Done? && s.events - multiset{s.tod} ==
        if c.receiver then EventIf(s.t.tranStatus == BUSY, s.t.tranCTime) else EventIf(s.t.recvStatus == BUSY, s.t.recvCTime)
  {
    FireIsCharged(s);
  }

  /** The character RECVSTATUS shows in bits 8 to 15, as a signed byte. */
  function CharOf(status: Word): int {
    var b := status / 0x100 % 0x100;
    if b < 0x80 then b else b - 0x100
  }

  /** The character a receiver's completion hands to the processor: the register says there is one, and which. */
  function Got(t: Terminal, receiver: bool): seq<int> {
    if receiver && t.recvStatus % 0x100 == 5 then [CharOf(t.recvStatus)] else []
  }

  /** The character a command asks to transmit. */
  function Asked(t: Terminal, regnum: nat, data: Word): seq<nat> {
    if regnum == TRANCOMMAND && t.tranStatus != BUSY && data % 0x100 == 2 then [data / 0x100 % 0x100] else []
  }

  /** The character a transmitter's completion answers for, as transmitted or in error. */
  function Answered(t: Terminal, receiver: bool): seq<nat> {
    if !receiver && (t.tranStatus % 0x100 == 5 || t.tranStatus % 0x100 == 4) then [t.tranStatus / 0x100 % 0x100] else []
  }

  function Fired(s: System): System
    requires CompleteDevOp(s.t, s.tod, s.clock).Done?
  {
    var c := CompleteDevOp(s.t, s.tod, s.clock);
    s.(t := c.t, events := s.events - multiset{s.tod},
       received := s.received + Got(c.t, c.receiver), answered := s.answered + Answered(c.t, c.receiver))
  }

  /** Every completion makes one call: a request, or the receiver's next poll. */
  lemma FireStep(s: System)
    requires EventsOk(s) && CanStep(s, Fire)
    ensures var c := CompleteDevOp(s.t, s.tod, s.clock);
      c.Done? && |c.calls| == 1 && Next(s, Fire) == Call(Fired(s), c.calls[0]) && Next(s, Fire).panicked == s.panicked
  {
    hide Got, Answered, ReceivedStatus, Unread;
    FireIsCharged(s);
    var c := CompleteDevOp(s.t, s.tod, s.clock);
    OneCall(Fired(s), c.calls[0]);
    assert c.calls == [c.calls[0]];
  }

  lemma ReadOn(received: seq<int>, got: seq<int>, rest: seq<CChar>, typed: seq<CChar>)
    requires received + (got + rest) == typed
    ensures (received + got) + rest == typed
  {
  }

  lemma GotAndRest(s: System)
    requires TextOk(s) && CompleteDevOp(s.t, s.tod, s.clock).Done?
    requires s.t.recvStatus == BUSY || s.t.tranStatus == BUSY
    ensures var c := CompleteDevOp(s.t, s.tod, s.clock);
      && Got(c.t, c.receiver) + Unread(c.t) == Unread(s.t)
      && (c.t.recvBuf.Chars? ==> c.t.recvBp <= |c.t.recvBuf.text|)
  {
    hide ReceivedStatus, CharOf, CompleteTran;
    TranLeavesText(s.t);
    if Unread(s.t) != [] {
      ReceivedNotBusy(Unread(s.t)[0]);
      assert Unread(s.t) == [Unread(s.t)[0]] + Unread(s.t)[1..];
    }
  }

  lemma TranLeavesText(t: Terminal)
    ensures var c := CompleteTran(t); c.Done? ==> !c.receiver && c.t.recvBuf == t.recvBuf && c.t.recvBp == t.recvBp
  {
  }

  lemma FiredText(s: System)
    requires TextOk(s) && CompleteDevOp(s.t, s.tod, s.clock).Done?
    requires s.t.recvStatus == BUSY || s.t.tranStatus == BUSY
    ensures TextOk(Fired(s))
  {
    hide CompleteDevOp, Unread, Got;
    var c := CompleteDevOp(s.t, s.tod, s.clock);
    GotAndRest(s);
    ReadOn(s.received, Got(c.t, c.receiver), Unread(c.t), s.typed);
  }

  lemma CallText(s: System, call: BusCall)
    requires TextOk(s)
    ensures TextOk(Call(s, call))
  {
    hide Unread;
  }

  lemma FireKeepsText(s: System)
    requires EventsOk(s) && TextOk(s) && CanStep(s, Fire)
    ensures CompleteDevOp(s.t, s.tod, s.clock).Done? && TextOk(Next(s, Fire))
  {
    hide Calls, Next, CompleteDevOp, Unread, Got, TextOk, Fired, Call;
    FireStep(s);
    FireIsCharged(s);
    FiredText(s);
    CallText(Fired(s), CompleteDevOp(s.t, s.tod, s.clock).calls[0]);
  }

  /** Fresh work of the receiver adds its event to the transmitter's. */
  lemma RecvOutstanding(t: Terminal, u: Terminal)
    requires t.recvStatus != BUSY && u.tranStatus == t.tranStatus && u.tranCTime == t.tranCTime
    ensures Outstanding(u) == if u.recvStatus == BUSY then Outstanding(t) + multiset{u.recvCTime} else Outstanding(t)
  {
  }

  lemma TranOutstanding(t: Terminal, u: Terminal)
    requires t.tranStatus != BUSY && u.recvStatus == t.recvStatus && u.recvCTime == t.recvCTime
    ensures Outstanding(u) == if u.tranStatus == BUSY then Outstanding(t) + multiset{u.tranCTime} else Outstanding(t)
  {
  }

  lemma RecvCompletion(t: Terminal, tod: nat, clock: ClockRate)
    requires t.recvCommand == RESET || t.recvCommand == RECVCHR
    ensures var c := CompleteRecv(t, tod, clock);
      && c.Done? && |c.calls| == 1 && c.receiver
      && c.t == t.(recvStatus := c.t.recvStatus, recvBp := c.t.recvBp, recvCTime := c.t.recvCTime, recvIntPend := c.t.recvIntPend)
      && if t.recvCommand == RECVCHR && Unread(t) == []
         then c.calls[0] == Schedule(c.t.recvCTime - tod) && c.t.recvCTime > tod && c.t.recvStatus == t.recvStatus && c.t.recvIntPend == t.recvIntPend
         else c.calls[0] == IntReq && c.t.recvStatus != BUSY && c.t.recvIntPend
  {
    if Unread(t) != [] { ReceivedNotBusy(Unread(t)[0]); }
    hide ReceivedStatus;
  }

  lemma RecvFireKeeps(s: System)
    requires EventsOk(s) && RequestOk(s) && CanStep(s, Fire) && DoRecv(s.t)
    ensures CompleteDevOp(s.t, s.tod, s.clock).Done? && EventsOk(Next(s, Fire)) && RequestOk(Next(s, Fire))
  {
    hide Calls, Next, CompleteTran, CompleteRecv, Unread, Got, Outstanding;
    FireIsCharged(s);
    RecvFired(s);
    FireStep(s);
    RecvCompletion(s.t, s.tod, s.clock);
    RecvOutstanding(s.t.(recvStatus := READY), CompleteRecv(s.t, s.tod, s.clock).t);
  }

  lemma RecvFired(s: System)
    requires EventsOk(s) && CanStep(s, Fire) && DoRecv(s.t)
    ensures s.events - multiset{s.tod} == Outstanding(s.t.(recvStatus := READY))
  {
    hide CompleteTran, CompleteRecv, Unread;
    FireIsCharged(s);
    FiredEvent(s);
    RecvCompletion(s.t, s.tod, s.clock);
  }

  lemma TranCompletion(t: Terminal)
    requires t.tranCommand % 0x100 == RESET || t.tranCommand % 0x100 == TRANCHR
    ensures var c := CompleteTran(t);
      && c.Done? && c.calls == [IntReq] && !c.receiver && c.t.tranStatus != BUSY && c.t.tranIntPend
      && c.t == t.(tranStatus := c.t.tranStatus, tranIntPend := true)
  {
  }

  lemma TranFired(s: System)
    requires EventsOk(s) && CanStep(s, Fire) && !DoRecv(s.t)
    ensures s.events - multiset{s.tod} == Outstanding(s.t.(tranStatus := READY))
    ensures s.t.tranCommand % 0x100 == RESET || s.t.tranCommand % 0x100 == TRANCHR
  {
    hide CompleteTran, CompleteRecv, Unread;
    FireIsCharged(s);
    FiredEvent(s);
    TranCompletion(s.t);
  }

  lemma TranFireKeeps(s: System)
    requires EventsOk(s) && RequestOk(s) && CanStep(s, Fire) && !DoRecv(s.t)
    ensures CompleteDevOp(s.t, s.tod, s.clock).Done? && EventsOk(Next(s, Fire)) && RequestOk(Next(s, Fire))
  {
    hide Calls, Next, CompleteTran, CompleteRecv, Unread, Got, Outstanding;
    FireIsCharged(s);
    TranFired(s);
    FireStep(s);
    TranCompletion(s.t);
    TranOutstanding(s.t.(tranStatus := READY), CompleteTran(s.t).t);
  }

  lemma RequestEffect(s: System)
    ensures Calls(s, [IntReq]) == s.(requested := true)
    ensures Calls(s, [IntAck]) == s.(requested := false)
    ensures Calls(s, []) == s
  {
    hide Calls;
    OneCall(s, IntReq);
    OneCall(s, IntAck);
    NoCall(s);
  }

  lemma StartEffect(s: System, delay: nat, other: bool)
    ensures Calls(s, if other then [Schedule(delay)] else [IntAck, Schedule(delay)]) ==
      s.(events := s.events + multiset{s.tod + delay}, requested := other && s.requested)
  {
    hide Calls;
    if other { OneCall(s, Schedule(delay)); } else { TwoCalls(s, IntAck, Schedule(delay)); }
  }

  lemma OutcomeEffect(s: System, o: Outcome, other: bool)
    ensures Calls(s, CallsOf(o, other)) == s.(
      events := if o.Started? then s.events + multiset{s.tod + o.delay} else s.events,
      requested := if o.Rejected? then true else other && s.requested)
  {
    hide Calls, Call;
    RequestEffect(s);
    if o.Started? { StartEffect(s, o.delay, other); }
  }

  lemma SameText(s: System, r: System)
    requires TextOk(s) && r.t.recvBuf == s.t.recvBuf && r.t.recvBp == s.t.recvBp
    requires r.received == s.received && r.typed == s.typed
    ensures TextOk(r)
  {
  }

  /** A command starts its own sub-device, and touches nothing of the other. */
  predicate RecvStarted(t: Terminal, u: Terminal, tod: nat, o: Outcome) {
    && u == t.(recvCommand := u.recvCommand, recvStatus := u.recvStatus, recvCTime := u.recvCTime, recvIntPend := o.Rejected?)
    && (u.recvStatus == BUSY <==> o.Started?)
    && (o.Started? ==> u.recvCTime == tod + o.delay && (u.recvCommand == RESET || u.recvCommand == RECVCHR))
  }

  lemma RecvCommand(t: Terminal, tod: nat, clock: ClockRate, data: Word)
    ensures var (u, o) := WriteRecvCommand(t, tod, clock, data); RecvStarted(t, u, tod, o)
  {
  }

  lemma RecvStartEvents(s: System, u: Terminal, o: Outcome)
    requires EventsOk(s) && s.t.recvStatus != BUSY && RecvStarted(s.t, u, s.tod, o)
    ensures EventsOk(Calls(s.(t := u), CallsOf(o, s.t.tranIntPend)))
  {
    hide Calls, CallsOf, Outstanding;
    OutcomeEffect(s.(t := u), o, s.t.tranIntPend);
    RecvOutstanding(s.t, u);
  }

  lemma RecvWriteKeeps(s: System, data: Word)
    requires InputSide(s) && s.t.recvStatus != BUSY
    ensures var (t, o) := WriteRecvCommand(s.t, s.tod, s.clock, data); InputSide(Calls(s.(t := t), CallsOf(o, s.t.tranIntPend)))
  {
    var (t, o) := WriteRecvCommand(s.t, s.tod, s.clock, data);
    RecvCommand(s.t, s.tod, s.clock, data);
    RecvStartEvents(s, t, o);
    OutcomeEffect(s.(t := t), o, s.t.tranIntPend);
    hide Calls, CallsOf, EventsOk, WriteRecvCommand;
    SameText(s, Calls(s.(t := t), CallsOf(o, s.t.tranIntPend)));
    hide TextOk;
  }

  /** A command starts its own sub-device, and touches nothing of the other. */
  predicate TranStarted(t: Terminal, u: Terminal, tod: nat, o: Outcome) {
    && u == t.(tranCommand := u.tranCommand, tranStatus := u.tranStatus, tranCTime := u.tranCTime, tranIntPend := o.Rejected?)
    && (u.tranStatus == BUSY <==> o.Started?)
    && (o.Started? ==> u.tranCTime == tod + o.delay && (u.tranCommand % 0x100 == RESET || u.tranCommand % 0x100 == TRANCHR))
  }

  lemma TranCommand(t: Terminal, tod: nat, clock: ClockRate, data: Word)
    ensures var (u, o) := WriteTranCommand(t, tod, clock, data); TranStarted(t, u, tod, o)
  {
  }

  lemma TranStartEvents(s: System, u: Terminal, o: Outcome)
    requires EventsOk(s) && s.t.tranStatus != BUSY && TranStarted(s.t, u, s.tod, o)
    ensures EventsOk(Calls(s.(t := u), CallsOf(o, s.t.recvIntPend)))
  {
    hide Calls, CallsOf, Outstanding;
    OutcomeEffect(s.(t := u), o, s.t.recvIntPend);
    TranOutstanding(s.t, u);
  }

  lemma TranWriteKeeps(s: System, data: Word)
    requires InputSide(s) && s.t.tranStatus != BUSY
    ensures var (t, o) := WriteTranCommand(s.t, s.tod, s.clock, data); InputSide(Calls(s.(t := t), CallsOf(o, s.t.recvIntPend)))
  {
    var (t, o) := WriteTranCommand(s.t, s.tod, s.clock, data);
    TranCommand(s.t, s.tod, s.clock, data);
    TranStartEvents(s, t, o);
    OutcomeEffect(s.(t := t), o, s.t.recvIntPend);
    hide Calls, CallsOf, EventsOk, WriteTranCommand;
    SameText(s, Calls(s.(t := t), CallsOf(o, s.t.recvIntPend)));
    hide TextOk;
  }

  /** The bus does not look at what was asked. */
  lemma {:induction false} CallsAsked(s: System, calls: seq<BusCall>, asked: seq<nat>)
    ensures Calls(s.(asked := asked), calls) == Calls(s, calls).(asked := asked)
    ensures Calls(s, calls).t == s.t && Calls(s, calls).asked == s.asked && Calls(s, calls).answered == s.answered
    decreases |calls|
  {
    if calls != [] { CallsAsked(Call(s, calls[0]), calls[1..], asked); }
  }

  lemma InputSideAsked(s: System, asked: seq<nat>)
    requires InputSide(s)
    ensures InputSide(s.(asked := asked))
  {
  }

  lemma WriteKeepsInput(s: System, regnum: nat, data: Word)
    requires InputSide(s)
    ensures InputSide(Next(s, Write(regnum, data)))
  {
    hide InputSide, WriteRecvCommand, WriteTranCommand, CallsOf, Calls;
    var (t, calls) := WriteDevReg(s.t, s.tod, s.clock, regnum, data);
    if regnum == RECVCOMMAND && s.t.recvStatus != BUSY {
      RecvWriteKeeps(s, data);
    } else if regnum == TRANCOMMAND && s.t.tranStatus != BUSY {
      TranWriteKeeps(s, data);
    } else {
      NoCall(s);
    }
    CallsAsked(s.(t := t), calls, s.asked + Asked(s.t, regnum, data));
    InputSideAsked(Calls(s.(t := t), calls), s.asked + Asked(s.t, regnum, data));
  }

  /** A command that starts a transmission puts its character in flight. */
  lemma TranInFlight(t: Terminal, tod: nat, clock: ClockRate, data: Word)
    ensures InFlight(WriteTranCommand(t, tod, clock, data).0) == if data % 0x100 == 2 then [data / 0x100 % 0x100] else []
  {
  }

  lemma RecvInFlight(t: Terminal, tod: nat, clock: ClockRate, data: Word)
    ensures InFlight(WriteRecvCommand(t, tod, clock, data).0) == InFlight(t)
  {
  }

  lemma WriteKeepsOutput(s: System, regnum: nat, data: Word)
    requires OutputOk(s)
    ensures OutputOk(Next(s, Write(regnum, data)))
  {
    hide Calls, CallsOf, WriteRecvCommand, WriteTranCommand, InFlight;
    var (t, calls) := WriteDevReg(s.t, s.tod, s.clock, regnum, data);
    TranInFlight(s.t, s.tod, s.clock, data);
    RecvInFlight(s.t, s.tod, s.clock, data);
    IdleInFlight(s.t);
    CallsAsked(s.(t := t, asked := s.asked + Asked(s.t, regnum, data)), calls, []);
  }

  lemma IdleInFlight(t: Terminal)
    ensures t.tranStatus != BUSY ==> InFlight(t) == []
  {
  }

  lemma WriteKeeps(s: System, regnum: nat, data: Word)
    requires Inv(s)
    ensures Inv(Next(s, Write(regnum, data)))
  {
    hide Next, InputSide, OutputOk;
    WriteKeepsInput(s, regnum, data);
    WriteKeepsOutput(s, regnum, data);
  }

  lemma TypeKeeps(s: System, line: seq<CChar>)
    requires Inv(s)
    ensures Inv(Next(s, Type(line)))
  {
    hide TextOk, Calls, CompleteDevOp, InFlight;
    SameInFlight(s.t, Next(s, Type(line)).t);
    TypeKeepsText(s, line);
  }

  lemma TypeKeepsText(s: System, line: seq<CChar>)
    requires TextOk(s)
    ensures TextOk(Next(s, Type(line)))
  {
    hide Calls, CompleteDevOp, Fired;
    var r := Next(s, Type(line));
    assert Unread(r.t) == Unread(s.t) + line + [NEWLINE];
    assert s.received + (Unread(s.t) + line + [NEWLINE]) == (s.received + Unread(s.t)) + line + [NEWLINE];
  }

  lemma FireKeepsInput(s: System)
    requires InputSide(s) && CanStep(s, Fire)
    ensures InputSide(Next(s, Fire))
  {
    hide Next, TextOk, EventsOk, RequestOk, CompleteDevOp;
    FireStep(s);
    FireKeepsText(s);
    if DoRecv(s.t) { RecvFireKeeps(s); } else { TranFireKeeps(s); }
  }

  /** The transmitter's completion answers for the character in flight: transmitted if it works, in error if not. */
  lemma TranAnswers(t: Terminal)
    requires t.tranStatus == BUSY && (t.tranCommand % 0x100 == RESET || t.tranCommand % 0x100 == TRANCHR)
    ensures var c := CompleteTran(t);
      && c.Done? && Answered(c.t, false) == InFlight(t) && InFlight(c.t) == []
      && (InFlight(t) != [] ==> c.t.tranStatus % 0x100 == if t.isWorking then 5 else 4)
  {
  }

  lemma CallLeaves(s: System, call: BusCall)
    ensures Call(s, call).t == s.t && Call(s, call).asked == s.asked && Call(s, call).answered == s.answered
  {
  }

  lemma FireKeepsOutput(s: System)
    requires EventsOk(s) && OutputOk(s) && CanStep(s, Fire)
    ensures OutputOk(Next(s, Fire))
  {
    hide Next, InFlight, Call, CompleteRecv, CompleteTran, Got, Unread, Outstanding;
    FireStep(s);
    FireIsCharged(s);
    CallLeaves(Fired(s), CompleteDevOp(s.t, s.tod, s.clock).calls[0]);
    if DoRecv(s.t) {
      RecvCompletion(s.t, s.tod, s.clock);
      SameInFlight(s.t, CompleteRecv(s.t, s.tod, s.clock).t);
    } else {
      TranCompletion(s.t);
      TranAnswers(s.t);
    }
  }

  lemma SameInFlight(t: Terminal, u: Terminal)
    requires u.tranStatus == t.tranStatus && u.tranCommand == t.tranCommand
    ensures InFlight(u) == InFlight(t)
  {
  }

  lemma FireKeeps(s: System)
    requires Inv(s) && CanStep(s, Fire)
    ensures Inv(Next(s, Fire))
  {
    hide Next, InputSide, OutputOk;
    FireKeepsInput(s);
    InputEvents(s);
    FireKeepsOutput(s);
  }

  lemma InputEvents(s: System)
    requires InputSide(s)
    ensures EventsOk(s)
  {
  }

  /**
   * What a receiver's completion shows: with RECVCHR and text waiting a character if it works and an error if not,
   * with RECVCHR and no text it stays busy, and a reset is always ready.
   */
  lemma ReceiveShows(t: Terminal, tod: nat, clock: ClockRate)
    requires t.recvStatus == BUSY && (t.recvCommand == RESET || t.recvCommand == RECVCHR)
    ensures var c := CompleteRecv(t, tod, clock);
      && c.Done?
      && (if t.recvCommand == 2 && Unread(t) == [] then c.calls == [Schedule(80 * clock)] && c.t.recvCTime == tod + 80 * clock
          else c.calls == [IntReq] && c.t.recvIntPend)
      && c.t.recvStatus % 0x100 == (if t.recvCommand == RESET then 1 else if Unread(t) == [] then 3 else if t.isWorking then 5 else 4)
      && (c.t.recvStatus % 0x100 == 5 ==> Unread(t) == [CharOf(c.t.recvStatus)] + Unread(c.t))
      && (c.t.recvStatus % 0x100 != 5 ==> Unread(c.t) == Unread(t))
  {
    hide ReceivedStatus, CharOf;
    if Unread(t) != [] { ReceivedNotBusy(Unread(t)[0]); }
  }

  lemma StepKeeps(s: System, step: Step)
    requires Inv(s) && CanStep(s, step)
    ensures Inv(Next(s, step))
  {
    match step
    case Write(r, data) => WriteKeeps(s, r, data);
    case Fire => FireKeeps(s);
    case Tick =>
    case Type(line) => TypeKeeps(s, line);
    case SetCondition(_) => SameText(s, Next(s, step)); SameInFlight(s.t, Next(s, step).t);
  }

  // ---- what programs see of it ------------------------------------------------------------

  /** The state and the bus calls a command leads to, by its operation, for a half that is not busy. */
  function Status(op: int): Word { if op == 0 || op == 2 then 3 else if op == 1 then 1 else 2 }

  function Delay(op: int, clock: ClockRate): nat { if op == 0 then 400 * clock else 80 * clock }

  function CommandCalls(op: int, clock: ClockRate, otherPending: bool): seq<BusCall> {
    if op != 0 && op != 1 && op != 2 then [IntReq]
    else (if otherPending then [] else [IntAck]) + if op == 1 then [] else [Schedule(Delay(op, clock))]
  }

  /**
   * A reset and a character's transfer make a half busy, for 400 and 80 microseconds; an acknowledgement makes it
   * ready; anything else is an error with an interrupt. The interrupt goes down unless the other half holds it up. The
   * other half is untouched; a busy half takes no command.
   */
  lemma CommandShows(t: Terminal, tod: nat, clock: ClockRate, regnum: nat, data: Word)
    ensures var (u, calls) := WriteDevReg(t, tod, clock, regnum, data); var op := data % 0x100;
      if regnum == 1 && t.recvStatus != 3 then
        && u == t.(recvCommand := data, recvStatus := Status(data), recvIntPend := data > 2,
                   recvCTime := if data == 0 || data == 2 then tod + Delay(data, clock) else t.recvCTime)
        && calls == CommandCalls(data, clock, t.tranIntPend)
      else if regnum == 3 && t.tranStatus != 3 then
        && u == t.(tranCommand := data, tranStatus := Status(op), tranIntPend := op > 2,
                   tranCTime := if op == 0 || op == 2 then tod + Delay(op, clock) else t.tranCTime)
        && calls == CommandCalls(op, clock, t.recvIntPend)
      else u == t && calls == []
  {
  }

  /** What a transmitter's completion shows: the character of the command, transmitted or in error, or ready. */
  lemma TransmitShows(t: Terminal)
    requires t.tranCommand % 0x100 == 0 || t.tranCommand % 0x100 == 2
    ensures var c := CompleteTran(t);
      && c.Done? && c.calls == [IntReq] && c.t == t.(tranStatus := c.t.tranStatus, tranIntPend := true)
      && (t.tranCommand % 0x100 == 0 ==> c.t.tranStatus == 1)
      && (t.tranCommand % 0x100 == 2 ==>
           && c.t.tranStatus / 0x100 == t.tranCommand / 0x100 % 0x100
           && c.t.tranStatus % 0x100 == if t.isWorking then 5 else 4)
  {
  }

  // ---- whole runs -------------------------------------------------------------------------

  predicate CanRun(s: System, steps: seq<Step>)
    decreases |steps|
  {
    steps == [] || (CanStep(s, steps[0]) && CanRun(Next(s, steps[0]), steps[1..]))
  }

  function Run(s: System, steps: seq<Step>): System
    decreases |steps|
  {
    if steps == [] then s else Run(Next(s, steps[0]), steps[1..])
  }

  lemma {:induction false} RunKeeps(s: System, steps: seq<Step>)
    requires Inv(s) && CanRun(s, steps)
    ensures Inv(Run(s, steps))
    decreases |steps|
  {
    hide Inv, CanStep, Next;
    if steps != [] {
      StepKeeps(s, steps[0]);
      RunKeeps(Next(s, steps[0]), steps[1..]);
    }
  }

  /**
   * After any run: one outstanding event per busy sub-device, at its own completion time; the shared
   * request up exactly while one of them wants it; no panic; and no character lost, changed or doubled: what
   * RECVSTATUS showed and what is unread is what was typed, and what TRANSTATUS answered for, with the character in
   * flight, is what was to be transmitted.
   */
  lemma TerminalRuns(clock: ClockRate, steps: seq<Step>)
    requires CanRun(Powered(clock), steps)
    ensures var s := Run(Powered(clock), steps);
      && s.events == EventIf(s.t.recvStatus == BUSY, s.t.recvCTime) + EventIf(s.t.tranStatus == BUSY, s.t.tranCTime)
      && (s.requested <==> s.t.recvIntPend || s.t.tranIntPend)
      && s.received + Unread(s.t) == s.typed
      && s.asked == s.answered + InFlight(s.t)
      && !s.panicked
  {
    RunKeeps(Powered(clock), steps);
  }
}
