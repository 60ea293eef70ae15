/** The interrupt controller object of mpic.cc and the processors it drives, proved against Pic. */
module InterruptControllers {
  import opened Words
  import opened Cpu
  import opened Processors
  import opened Spec = Pic

  predicate Distinct(cpus: seq<Processor>) { forall i, j :: 0 <= i < j < |cpus| ==> cpus[i] != cpus[j] }

  function Views(cpus: seq<Processor>): (r: seq<Cpu>)
    reads cpus
    ensures |r| == |cpus| && forall i :: 0 <= i < |cpus| ==> r[i] == cpus[i].View()
  {
    if cpus == [] then [] else Views(cpus[..|cpus| - 1]) + [cpus[|cpus| - 1].View()]
  }

  class InterruptController {
    const cpus: seq<Processor>
    var arbiter: nat
    var sources: seq<seq<Source>>
    var cpuData: seq<CpuData>

    ghost predicate Valid()
      reads this
    {
      Distinct(cpus) && |cpus| == |cpuData| && Pic(arbiter, sources, cpuData).Wf()
    }

    function View(): Irq
      reads this, cpus
    {
      Irq(Pic(arbiter, sources, cpuData), Views(cpus))
    }

    constructor (cpus: seq<Processor>)
      requires Distinct(cpus) && 1 <= |cpus| <= MAX_CPUS
      ensures Valid() && View() == Irq(InitialPic(|cpus|), Views(cpus)) && this.cpus == cpus
    {
      this.cpus := cpus;
      arbiter := 0;
      sources := seq(6, _ => seq(8, _ => Source(None, 0, false)));
      cpuData := seq(|cpus|, _ => CpuData(0, [0, 0, 0, 0, 0], [], TPR_MASK));
    }

    /** The scan from the arbiter: the first of the processors with the greatest priority value. */
    method FindTarget(src: Source) returns (target: Option<nat>)
      requires Valid()
      ensures target == Target(View().pic, src)
    {
      target := None;
      if !src.dynamic {
        if src.destination < |cpuData| { target := Some(src.destination); }
      } else {
        for i := 0 to |cpuData|
          invariant target == Scan(View().pic, src.destination, i)
        {
          RingIsMod(arbiter, i, |cpuData|);
          var id := (arbiter + i) % |cpuData|;
          if BitVal(src.destination, id) {
            if target.None? || cpuData[id].taskPriority > cpuData[target.value].taskPriority {
              target := Some(id);
            }
          }
        }
      }
    }

    method Raise(il: SrcLine, d: Dev, t: nat)
      requires Valid() && t < |cpus|
      modifies this`cpuData, cpus[t]
      ensures Valid() && View() == RaiseLine(old(View()), il, d, t)
    {
      var cd := cpuData[t];
      cd := cd.(ipMask := SetBit32(cd.ipMask, 2 + il));
      if il >= 1 {
        cd := cd.(idb := cd.idb[il - 1 := SetBit32(cd.idb[il - 1], d)]);
      }
      cpuData := cpuData[t := cd];
      cpus[t].AssertIRQ(2 + il);
    }

    /** A dynamic delivery moves the arbiter past its target. */
    method MoveArbiter(src: Source, target: nat)
      requires Valid() && target < |cpus|
      modifies this`arbiter
      ensures Valid() && View() == old(View()).(pic := old(View()).pic.(arbiter := if src.dynamic then Ring(target, 1, |cpus|) else old(arbiter)))
    {
      if src.dynamic {
        RingIsMod(target, 1, |cpuData|);
        arbiter := (target + 1) % |cpuData|;
      }
    }

    method Record(il: SrcLine, d: Dev, src: Source)
      requires Valid() && (src.lastTarget.Some? ==> src.lastTarget.value < |cpus|)
      modifies this`sources
      ensures Valid() && View() == old(View()).(pic := old(View()).pic.WithSource(il, d, src))
    {
      sources := sources[il := sources[il][d := src]];
    }

    method StartIRQ(il: SrcLine, d: Dev)
      requires Valid()
      modifies this, cpus
      ensures Valid() && View() == Spec.StartIRQ(old(View()), il, d)
    {
      hide RaiseLine, Target, BitVal, InitialPic, Scan, Valid;
      ValidIs();
      var src := sources[il][d];
      var target := FindTarget(src);
      if target.None? { return; }
      MoveArbiter(src, target.value);
      Record(il, d, src.(lastTarget := target));
      Raise(il, d, target.value);
    }

    lemma ValidIs()
      requires Valid()
      ensures View().Wf() && View().pic.sources == sources && |View().cpus| == |cpus|
    {
    }

    method Drop(il: SrcLine, d: Dev, t: nat)
      requires Valid() && t < |cpus|
      modifies this`cpuData, cpus[t]
      ensures Valid() && View() == DropLine(old(View()), il, d, t)
    {
      if il >= 1 {
        var idb := cpuData[t].idb;
        cpuData := cpuData[t := cpuData[t].(idb := idb[il - 1 := ResetBit32(idb[il - 1], d)])];
        if cpuData[t].idb[il - 1] != 0 { return; }
      }
      cpuData := cpuData[t := cpuData[t].(ipMask := ResetBit32(cpuData[t].ipMask, 2 + il))];
      cpus[t].DeassertIRQ(2 + il);
    }

    method EndIRQ(il: SrcLine, d: Dev)
      requires Valid()
      modifies this, cpus
      ensures Valid() && View() == Spec.EndIRQ(old(View()), il, d)
    {
      var target := sources[il][d].lastTarget;
      if target.None? { return; }
      Drop(il, d, target.value);
      sources := sources[il := sources[il][d := sources[il][d].(lastTarget := None)]];
    }

    method FreeSlot(inbox: seq<IpiMessage>, origin: nat) returns (hasSlot: bool)
      ensures hasSlot == HasSlot(inbox, origin)
    {
      for k := 0 to |inbox|
        invariant forall j :: 0 <= j < k ==> inbox[j].origin != origin
      {
        if inbox[k].origin == origin { return false; }
      }
      return true;
    }

    method AcceptIPI(t: nat, m: IpiMessage)
      requires Valid() && t < |cpus|
      modifies this`cpuData, cpus[t]
      ensures Valid() && View() == Accept(old(View()), t, m)
    {
      var cd := cpuData[t];
      cpuData := cpuData[t := cd.(inbox := cd.inbox + [m], ipMask := SetBit32(cd.ipMask, IL_IPI))];
      cpus[t].AssertIRQ(IL_IPI);
    }

    method DeliverIPI(origin: nat, outbox: Word)
      requires Valid()
      modifies this`cpuData, cpus
      ensures Valid() && View() == Spec.DeliverIPI(old(View()), origin, outbox)
    {
      hide Accept, Recipients, Message, BitVal;
      var recipients := Recipients(outbox);
      for i := 0 to |cpus|
        invariant Valid() && View() == DeliverBelow(old(View()), origin, outbox, i)
      {
        if BitVal(recipients, i) {
          var hasSlot := FreeSlot(cpuData[i].inbox, origin);
          if hasSlot { AcceptIPI(i, IpiMessage(origin, Message(outbox))); }
        }
      }
    }

    /** A write to the inbox register: the first message is taken off, and the last one lowers the line. */
    method WriteInbox(t: nat)
      requires Valid() && t < |cpus|
      modifies this`cpuData, cpus[t]
      ensures Valid() && View() == InboxAck(old(View()), t)
    {
      hide ResetBit32;
      var cd := cpuData[t];
      if cd.inbox != [] {
        cd := cd.(inbox := cd.inbox[1..]);
        if cd.inbox == [] {
          cd := cd.(ipMask := ResetBit32(cd.ipMask, IL_IPI));
          cpus[t].DeassertIRQ(IL_IPI);
        }
        cpuData := cpuData[t := cd];
      }
    }

    method WriteRoute(il: SrcLine, d: Dev, data: Word)
      requires Valid()
      modifies this`sources
      ensures Valid() && View() == SetRoute(old(View()), il, d, data)
    {
      var s := sources[il][d];
      sources := sources[il := sources[il][d := s.(destination := data % TWO16, dynamic := BitVal(data, 28))]];
    }

    method WritePriority(t: nat, data: Word)
      requires Valid() && t < |cpus|
      modifies this`cpuData
      ensures Valid() && View() == SetPriority(old(View()), t, data)
    {
      cpuData := cpuData[t := cpuData[t].(taskPriority := data % 16)];
    }

    method ReadInbox(t: nat) returns (w: nat)
      requires Valid() && t < |cpus|
      ensures w == InboxRead(View().pic, t)
    {
      var cd := cpuData[t];
      if cd.inbox != [] {
        w := cd.inbox[0].msg + cd.inbox[0].origin * 0x100;
      } else {
        w := 0;
      }
    }
  }
}
