/** The interrupt controller of mpic.cc together with the processors whose lines it drives. */
module Pic {
  import opened Words
  import opened Cpu

  const MAX_CPUS := 16
  const TPR_MASK := 15

  /** A controller source line, numbered from the bus timer's (line 2). */
  type SrcLine = x: nat | x < 6
  type Dev = x: nat | x < 8

  /** `lastTarget` is None for kInvalidCpuId. */
  datatype Source = Source(lastTarget: Option<nat>, destination: nat, dynamic: bool)

  type Byte = x: nat | x < 0x100

  datatype IpiMessage = IpiMessage(origin: nat, msg: Byte)

  type Bitmaps = s: seq<Word> | |s| == 5 witness [0, 0, 0, 0, 0]

  datatype CpuData = CpuData(ipMask: Word, idb: Bitmaps, inbox: seq<IpiMessage>, taskPriority: nat)

  datatype Pic = Pic(arbiter: nat, sources: seq<seq<Source>>, cpuData: seq<CpuData>) {
    ghost predicate Wf() {
      && 1 <= |cpuData| <= MAX_CPUS
      && arbiter < |cpuData|
      && |sources| == 6
      && (forall il: SrcLine :: |sources[il]| == 8)
      && (forall il: SrcLine, d: Dev :: sources[il][d].lastTarget.Some? ==> sources[il][d].lastTarget.value < |cpuData|)
    }

    function With(t: nat, cd: CpuData): Pic
      requires t < |cpuData|
    {
      this.(cpuData := cpuData[t := cd])
    }

    function WithSource(il: SrcLine, d: Dev, s: Source): Pic
      requires Wf()
    {
      this.(sources := sources[il := sources[il][d := s]])
    }
  }

  /** Controller and processors; they are indexed by the same processor numbers. */
  datatype Irq = Irq(pic: Pic, cpus: seq<Cpu>) {
    ghost predicate Wf() { pic.Wf() && |cpus| == |pic.cpuData| }

    function With(t: nat, cd: CpuData, c: Cpu): Irq
      requires t < |cpus| == |pic.cpuData|
    {
      Irq(pic.With(t, cd), cpus[t := c])
    }
  }

  function InitialPic(n: nat): Pic
    requires 1 <= n <= MAX_CPUS
  {
    Pic(0, seq(6, _ => seq(8, _ => Source(None, 0, false))),
        seq(n, _ => CpuData(0, [0, 0, 0, 0, 0], [], TPR_MASK)))
  }

  // ---- routing ------------------------------------------------------------

  function Ring(a: nat, i: nat, n: nat): nat { if a + i < n then a + i else a + i - n }

  lemma ModOnce(r: nat, n: nat)
    requires r < n
    ensures r % n == r && (r + n) % n == r
  {
    OneQuotient(n, r / n, r % n, 0, r);
    OneQuotient(n, (r + n) / n, (r + n) % n, 1, r);
  }

  lemma RingIsMod(a: nat, i: nat, n: nat)
    requires a < n && i <= n
    ensures (a + i) % n == Ring(a, i, n)
  {
    ModOnce(Ring(a, i, n), n);
  }

  /** The scan of StartIRQ after `i` rounds: strictly higher priority replaces the candidate. */
  function Scan(p: Pic, dest: nat, i: nat): (t: Option<nat>)
    requires p.arbiter < |p.cpuData| && i <= |p.cpuData|
    ensures t.Some? ==> t.value < |p.cpuData|
  {
    if i == 0 then None else
    var t := Scan(p, dest, i - 1);
    var id := Ring(p.arbiter, i - 1, |p.cpuData|);
    if BitVal(dest, id) && (t.None? || p.cpuData[id].taskPriority > p.cpuData[t.value].taskPriority)
    then Some(id) else t
  }

  function Target(p: Pic, s: Source): (t: Option<nat>)
    requires p.arbiter < |p.cpuData|
    ensures t.Some? ==> t.value < |p.cpuData|
  {
    if s.dynamic then Scan(p, s.destination, |p.cpuData|)
    else if s.destination < |p.cpuData| then Some(s.destination) else None
  }

  // ---- the operations --------------------------------------------------------

  function RaiseLine(s: Irq, il: SrcLine, d: Dev, t: nat): Irq
    requires t < |s.cpus| == |s.pic.cpuData|
  {
    var cd := s.pic.cpuData[t];
    var cd1 := cd.(ipMask := SetBit32(cd.ipMask, 2 + il),
                   idb := if il >= 1 then cd.idb[il - 1 := SetBit32(cd.idb[il - 1], d)] else cd.idb);
    s.With(t, cd1, AssertIRQ(s.cpus[t], 2 + il))
  }

  function StartIRQ(s: Irq, il: SrcLine, d: Dev): Irq
    requires s.Wf()
  {
    var src := s.pic.sources[il][d];
    match Target(s.pic, src)
    case None => s
    case Some(t) =>
      var p1 := if src.dynamic then s.pic.(arbiter := Ring(t, 1, |s.cpus|)) else s.pic;
      RaiseLine(s.(pic := p1.WithSource(il, d, src.(lastTarget := Some(t)))), il, d, t)
  }

  function DropLine(s: Irq, il: SrcLine, d: Dev, t: nat): Irq
    requires t < |s.cpus| == |s.pic.cpuData|
  {
    var cd := s.pic.cpuData[t];
    var cd1 := if il >= 1 then cd.(idb := cd.idb[il - 1 := ResetBit32(cd.idb[il - 1], d)]) else cd;
    if il >= 1 && cd1.idb[il - 1] != 0 then s.With(t, cd1, s.cpus[t])
    else s.With(t, cd1.(ipMask := ResetBit32(cd.ipMask, 2 + il)), DeassertIRQ(s.cpus[t], 2 + il))
  }

  function EndIRQ(s: Irq, il: SrcLine, d: Dev): Irq
    requires s.Wf()
  {
    var src := s.pic.sources[il][d];
    match src.lastTarget
    case None => s
    case Some(t) =>
      var s1 := DropLine(s, il, d, t);
      s1.(pic := s1.pic.(sources := s1.pic.sources[il := s1.pic.sources[il][d := src.(lastTarget := None)]]))
  }

  predicate HasSlot(inbox: seq<IpiMessage>, origin: nat) {
    forall m | m in inbox :: m.origin != origin
  }

  function Accept(s: Irq, t: nat, m: IpiMessage): Irq
    requires t < |s.cpus| == |s.pic.cpuData|
  {
    var cd := s.pic.cpuData[t];
    s.With(t, cd.(inbox := cd.inbox + [m], ipMask := SetBit32(cd.ipMask, IL_IPI)), AssertIRQ(s.cpus[t], IL_IPI))
  }

  function Recipients(outbox: Word): nat { outbox / 0x100 % TWO16 }

  function Message(outbox: Word): Byte { outbox % 0x100 }

  /** The recipients are bits 8 to 23. */
  lemma RecipientBit(outbox: Word, t: nat)
    requires t < MAX_CPUS
    ensures BitVal(Recipients(outbox), t) <==> BitVal(outbox, 8 + t)
  {
    assert Pow2(8) == 256 && Pow2(16) == TWO16;
    ModBits(outbox / 0x100, 16, t);
    BytesUp(outbox, t);
  }

  /** Delivery to the processors below `i`. */
  function DeliverBelow(s: Irq, origin: nat, outbox: Word, i: nat): (r: Irq)
    requires i <= |s.cpus| == |s.pic.cpuData|
    ensures |r.cpus| == |s.cpus| && |r.pic.cpuData| == |s.cpus|
  {
    if i == 0 then s else
    var r := DeliverBelow(s, origin, outbox, i - 1);
    if BitVal(Recipients(outbox), i - 1) && HasSlot(r.pic.cpuData[i - 1].inbox, origin)
    then Accept(r, i - 1, IpiMessage(origin, Message(outbox))) else r
  }

  function DeliverIPI(s: Irq, origin: nat, outbox: Word): Irq
    requires |s.cpus| == |s.pic.cpuData|
  {
    DeliverBelow(s, origin, outbox, |s.cpus|)
  }

  /** A write to the inbox register takes the first message off. */
  function InboxAck(s: Irq, t: nat): Irq
    requires t < |s.cpus| == |s.pic.cpuData|
  {
    var cd := s.pic.cpuData[t];
    if cd.inbox == [] then s
    else if |cd.inbox| > 1 then s.With(t, cd.(inbox := cd.inbox[1..]), s.cpus[t])
    else s.With(t, cd.(inbox := [], ipMask := ResetBit32(cd.ipMask, IL_IPI)), DeassertIRQ(s.cpus[t], IL_IPI))
  }

  /** The inbox register: message and origin of the first message, 0 when there is none. */
  function InboxRead(p: Pic, t: nat): nat
    requires t < |p.cpuData|
  {
    var q := p.cpuData[t].inbox;
    if q == [] then 0 else q[0].msg + q[0].origin * 0x100
  }

  function SetRoute(s: Irq, il: SrcLine, d: Dev, data: Word): Irq
    requires s.Wf()
  {
    s.(pic := s.pic.WithSource(il, d,
      s.pic.sources[il][d].(destination := data % TWO16, dynamic := BitVal(data, 28))))
  }

  function SetPriority(s: Irq, t: nat, data: Word): Irq
    requires t < |s.cpus| == |s.pic.cpuData|
  {
    s.(pic := s.pic.With(t, s.pic.cpuData[t].(taskPriority := data % 16)))
  }
}
