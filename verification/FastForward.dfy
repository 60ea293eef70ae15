/** Skipping idle time is the same as stepping through it. */
module FastForward {
  import opened Words
  import opened EventQueue
  import opened Cpu
  import opened InterruptLines
  import opened Bookkeeping
  import opened Kernel

  function Min(a: Word, b: Word): Word { if b < a then b else a }

  /** SystemBus::IdleCycles; the distance to the next event is cut to 32 bits. */
  function BusIdleCycles<W, D>(k: Kernel<W, D>): Word {
    if k.queue == [] then k.timer
    else if k.queue[0].deadline > k.tod then Min(k.timer, (k.queue[0].deadline - k.tod - 1) % TWO32)
    else 0
  }

  /** The least of `c` and the idle times of the processors below `i`. */
  function LeastIdle(c: Word, cpus: seq<Cpu>, i: nat): (r: Word)
    requires i <= |cpus|
    ensures r <= c && forall j | 0 <= j < i :: r <= IdleCycles(cpus[j])
    ensures r == c || exists j :: 0 <= j < i && r == IdleCycles(cpus[j])
  {
    if i == 0 then c else Min(LeastIdle(c, cpus, i - 1), IdleCycles(cpus[i - 1]))
  }

  function MachineIdleCycles<W, D>(k: Kernel<W, D>): Word {
    LeastIdle(BusIdleCycles(k), k.irq.cpus, |k.irq.cpus|)
  }

  function SkipCpu(c: Cpu, n: Word): Cpu {
    if c.IsHalted() then c else Skip(c, n)
  }

  function SkipCpus(cpus: seq<Cpu>, n: Word): (r: seq<Cpu>)
    ensures |r| == |cpus|
    ensures forall i | 0 <= i < |cpus| :: r[i] == SkipCpu(cpus[i], n)
  {
    seq(|cpus|, i requires 0 <= i < |cpus| => SkipCpu(cpus[i], n))
  }

  function MachineSkip<W, D>(k: Kernel<W, D>, n: Word): Kernel<W, D> {
    k.(tod := (k.tod + n) % TWO64, timer := Sub32(k.timer, n), irq := k.irq.(cpus := SkipCpus(k.irq.cpus, n)))
  }

  /** The assertion of Processor::Skip, for every processor skipped. */
  ghost predicate SkipAsserts<W, D>(k: Kernel<W, D>, n: Word) {
    forall i | 0 <= i < |k.irq.cpus| && !k.irq.cpus[i].IsHalted() ::
      k.irq.cpus[i].IsIdle() && n <= IdleCycles(k.irq.cpus[i])
  }

  ghost predicate AllAsleep<W, D>(k: Kernel<W, D>) {
    forall i | 0 <= i < |k.irq.cpus| :: k.irq.cpus[i].status != Running
  }

  /** An event waits for the very next tick. */
  predicate DueNext<W, D>(k: Kernel<W, D>) { k.queue != [] && k.queue[0].deadline == k.tod + 1 }

  /** What makes the idle time 0. */
  lemma IdleZeroCauses<W, D>(k: Kernel<W, D>)
    requires Settled(k)
    ensures MachineIdleCycles(k) == 0 <==>
      || k.timer == 0 || DueNext(k)
      || (exists i :: 0 <= i < |k.irq.cpus| && IdleCycles(k.irq.cpus[i]) == 0)
  {
    hide Inv, Shown, Accounted, InOrder, IdleCycles, DueCount, Sorted;
    DueCountSplits(k.queue, k.tod);
    if k.queue != [] {
      assert 0 <= k.queue[0].deadline - k.tod - 1 < TWO32;
    }
  }

  /** A sleeping processor's own timer line is already down, so lowering it changes nothing. */
  lemma QuietDeassert(c: Cpu)
    requires c.IsIdle() && IdleOk(c)
    ensures DeassertIRQ(c, IL_CPUTIMER) == c
  {
    NoIpIsNoLine(c.cp0[CAUSE]);
    var w, r := c.cp0[CAUSE], ResetBit32(c.cp0[CAUSE], 8 + IL_CPUTIMER);
    assert !IpBit(w, IL_CPUTIMER);
    Pow2Is32();
    SameBitsSameWord(w, r, 32);
    assert c.cp0[CAUSE := r] == c.cp0;
  }

  lemma QuietCycle(c: Cpu)
    requires IdleOk(c) && IdleCycles(c) > 0
    ensures (if c.IsHalted() then c else CpuTimer(c)) == SkipCpu(c, 1)
    ensures SkipCpu(c, 1).status == c.status
  {
    if c.IsIdle() {
      QuietDeassert(c);
    }
  }

  lemma CpuSkipAdds(c: Cpu, a: Word, b: Word)
    requires a + b < TWO32
    ensures SkipCpu(SkipCpu(c, a), b) == SkipCpu(c, a + b)
    ensures a <= IdleCycles(c) ==>
      IdleCycles(SkipCpu(c, a)) == if IdleCycles(c) == MAX_WORD && !(c.IsIdle() && BitVal(c.cp0[STATUS], TE)) then MAX_WORD else IdleCycles(c) - a
  {
    var t := c.cp0[TIMER];
    assert Sub32(Sub32(t, a), b) == Sub32(t, a + b);
  }

  lemma SkipCpusAdd(cpus: seq<Cpu>, a: Word, b: Word)
    requires a + b < TWO32
    ensures SkipCpus(SkipCpus(cpus, a), b) == SkipCpus(cpus, a + b)
  {
    hide SkipCpu, IdleCycles;
    var x, y := SkipCpus(SkipCpus(cpus, a), b), SkipCpus(cpus, a + b);
    forall i | 0 <= i < |x| ensures x[i] == y[i] { CpuSkipAdds(cpus[i], a, b); }
  }

  lemma ClocksAdd(tod: U64, timer: Word, a: Word, b: Word)
    requires a + b < TWO32 && tod + a + b < TWO64
    ensures ((tod + a) % TWO64 + b) % TWO64 == (tod + (a + b)) % TWO64
    ensures Sub32(Sub32(timer, a), b) == Sub32(timer, a + b)
  {
  }

  lemma SkipAdds<W, D>(k: Kernel<W, D>, a: Word, b: Word)
    requires a + b < TWO32 && k.tod + a + b < TWO64
    ensures MachineSkip(MachineSkip(k, a), b) == MachineSkip(k, a + b)
  {
    hide SkipCpus, Sub32;
    SkipCpusAdd(k.irq.cpus, a, b);
    ClocksAdd(k.tod, k.timer, a, b);
  }

  lemma SkipNothing<W, D>(k: Kernel<W, D>)
    ensures MachineSkip(k, 0) == k
  {
    var x := SkipCpus(k.irq.cpus, 0);
    forall i | 0 <= i < |x| ensures x[i] == k.irq.cpus[i] {
      var c := k.irq.cpus[i];
      assert c.cp0[TIMER := Sub32(c.cp0[TIMER], 0)] == c.cp0;
    }
    assert x == k.irq.cpus;
  }

  /** Settled: the timer and the distance to the next event, neither wrapping. */
  lemma BusIdleIs<W, D>(k: Kernel<W, D>)
    requires Settled(k)
    ensures k.queue != [] ==> 0 <= k.queue[0].deadline - k.tod - 1 < TWO32
    ensures BusIdleCycles(k) == if k.queue == [] then k.timer else Min(k.timer, k.queue[0].deadline - k.tod - 1)
  {
    hide Inv, Shown, Accounted, InOrder, Sorted, DueCount;
    DueCountSplits(k.queue, k.tod);
  }

  lemma DistanceLeft(deadline: U64, tod: U64, n: Word)
    requires tod + n < TWO64 && 0 <= deadline - tod - 1 < TWO32 && n <= deadline - tod - 1
    ensures (tod + n) % TWO64 == tod + n
    ensures (deadline - (tod + n) % TWO64 - 1) % TWO32 == deadline - tod - 1 - n
  {
  }

  lemma TimerLeft(timer: Word, n: Word)
    requires n <= timer
    ensures Sub32(timer, n) as int == timer - n
  {
  }

  lemma BusSkipLeaves<W, D>(k: Kernel<W, D>, n: Word)
    requires Settled(k) && HasRoom(k, n) && n <= BusIdleCycles(k)
    ensures BusIdleCycles(MachineSkip(k, n)) == BusIdleCycles(k) - n
  {
    hide Settled, SkipCpus, Sub32;
    BusIdleIs(k);
    TimerLeft(k.timer, n);
    if k.queue != [] {
      DistanceLeft(k.queue[0].deadline, k.tod, n);
      assert k.queue[0].deadline > k.tod + n;
    }
  }

  /** The least of values that all went down by `n`, but for those that stay at the top. */
  lemma LeastLeaves(c: Word, c': Word, cpus: seq<Cpu>, cpus': seq<Cpu>, n: Word)
    requires |cpus'| == |cpus| && n <= LeastIdle(c, cpus, |cpus|) && c' as int == c - n
    requires forall j | 0 <= j < |cpus| ::
      IdleCycles(cpus'[j]) == if IdleCycles(cpus[j]) == MAX_WORD && IdleCycles(cpus'[j]) == MAX_WORD then MAX_WORD else IdleCycles(cpus[j]) - n
    ensures LeastIdle(c', cpus', |cpus'|) as int == LeastIdle(c, cpus, |cpus|) - n
  {
    hide IdleCycles;
    var m, m' := LeastIdle(c, cpus, |cpus|), LeastIdle(c', cpus', |cpus'|);
    if m' as int != c' {
      var j :| 0 <= j < |cpus'| && m' == IdleCycles(cpus'[j]);
    }
    if m != c {
      var j :| 0 <= j < |cpus| && m == IdleCycles(cpus[j]);
    }
  }

  /** After skipping n cycles exactly n fewer are left. */
  lemma SkipLeaves<W, D>(k: Kernel<W, D>, n: Word)
    requires Settled(k) && HasRoom(k, n) && n <= MachineIdleCycles(k)
    ensures MachineIdleCycles(MachineSkip(k, n)) == MachineIdleCycles(k) - n
  {
    hide Settled, IdleCycles, SkipCpu, BusIdleCycles;
    BusSkipLeaves(k, n);
    var r := MachineSkip(k, n);
    forall j | 0 <= j < |k.irq.cpus|
      ensures var a, b := IdleCycles(k.irq.cpus[j]), IdleCycles(r.irq.cpus[j]);
        b == if a == MAX_WORD && b == MAX_WORD then MAX_WORD else a - n
    {
      CpuSkipAdds(k.irq.cpus[j], n, 0);
    }
    LeastLeaves(BusIdleCycles(k), BusIdleCycles(r), k.irq.cpus, r.irq.cpus, n);
  }

  /** The processors from `i` on, skipped. */
  function SkipFrom(cpus: seq<Cpu>, i: nat): (r: seq<Cpu>)
    requires i <= |cpus|
    ensures |r| == |cpus|
    ensures forall j | 0 <= j < |cpus| :: r[j] == if j < i then cpus[j] else SkipCpu(cpus[j], 1)
  {
    seq(|cpus|, j requires 0 <= j < |cpus| => if j < i then cpus[j] else SkipCpu(cpus[j], 1))
  }

  lemma QuietCpuCycle<W, D>(h: World<W, D>, k: Kernel<W, D>, i: nat)
    requires Ok(k) && i < |k.irq.cpus| && IdleCycles(k.irq.cpus[i]) > 0
    ensures CpuCycle(h, k, i) == k.(irq := SetCpu(k.irq, i, SkipCpu(k.irq.cpus[i], 1)))
  {
    assert CpuOk(k.irq, i);
    QuietCycle(k.irq.cpus[i]);
    if k.irq.cpus[i].IsHalted() {
      assert k.irq.cpus == k.irq.cpus[i := k.irq.cpus[i]];
    }
  }

  lemma {:induction false} QuietCpus<W, D>(h: World<W, D>, k: Kernel<W, D>, i: nat)
    requires Ok(k) && i <= |k.irq.cpus|
    requires forall j | i <= j < |k.irq.cpus| :: IdleCycles(k.irq.cpus[j]) > 0
    ensures Cpus(h, k, i) == k.(irq := k.irq.(cpus := SkipFrom(k.irq.cpus, i)))
    decreases |k.irq.cpus| - i
  {
    hide CpuCycle, Ok, IdleCycles, SkipCpu;
    if i == |k.irq.cpus| {
      assert SkipFrom(k.irq.cpus, i) == k.irq.cpus;
    } else {
      QuietCpuCycle(h, k, i);
      var k1 := CpuCycle(h, k, i);
      QuietCpus(h, k1, i + 1);
      assert SkipFrom(k1.irq.cpus, i + 1) == SkipFrom(k.irq.cpus, i);
    }
  }

  /** A tick that finds the timer running and no event due does nothing else. */
  lemma QuietTick<W, D>(h: World<W, D>, k: Kernel<W, D>)
    requires Settled(k) && HasRoom(k, 1) && k.timer > 0 && !DueNext(k)
    ensures ClockTick(h, k) == k.(tod := k.tod + 1, timer := k.timer - 1)
  {
    hide Inv, Shown, Accounted, InOrder, Sorted;
    DueCountSplits(k.queue, k.tod);
  }

  /** With idle time left, one round is one skipped cycle. */
  lemma QuietRound<W, D>(h: World<W, D>, k: Kernel<W, D>)
    requires Settled(k) && HasRoom(k, 1) && MachineIdleCycles(k) > 0
    ensures Round(h, k) == MachineSkip(k, 1)
  {
    hide ClockTick, Ok, IdleCycles, SkipCpu, MachineIdleCycles, MachineSkip, SkipFrom;
    AwakeNowhere(k);
    IdleZeroCauses(k);
    QuietTick(h, k);
    QuietCpus(h, ClockTick(h, k), 0);
    OneCycleSkip(k);
  }

  lemma AwakeNowhere<W, D>(k: Kernel<W, D>)
    requires MachineIdleCycles(k) > 0
    ensures forall i | 0 <= i < |k.irq.cpus| :: IdleCycles(k.irq.cpus[i]) > 0
    ensures k.timer > 0
  {
  }

  lemma OneCycleSkip<W, D>(k: Kernel<W, D>)
    requires k.timer > 0 && HasRoom(k, 1)
    ensures MachineSkip(k, 1) ==
      k.(tod := k.tod + 1, timer := k.timer - 1, irq := k.irq.(cpus := SkipFrom(k.irq.cpus, 0)))
  {
    assert SkipFrom(k.irq.cpus, 0) == SkipCpus(k.irq.cpus, 1);
  }

  /**
   * Fast-forward is faithful: for any n up to the idle time, skip(n) is n rounds, whatever the world
   * would do.
   */
  lemma {:induction false} SkipIsRounds<W, D>(h: World<W, D>, k: Kernel<W, D>, n: Word)
    requires Settled(k) && HasRoom(k, n) && n <= MachineIdleCycles(k)
    ensures Rounds(h, k, n) == MachineSkip(k, n)
  {
    hide Round, MachineSkip, MachineIdleCycles, Settled;
    if n == 0 {
      SkipNothing(k);
    } else {
      SkipLeaves(k, n - 1);
      SkipIsRounds(h, k, n - 1);
      OneMore(h, k, n, Rounds(h, k, n - 1));
    }
  }

  lemma OneMore<W, D>(h: World<W, D>, k: Kernel<W, D>, n: Word, r: Kernel<W, D>)
    requires Settled(r) && HasRoom(r, 1) && 0 < n && k.tod + n < TWO64
    requires r == MachineSkip(k, n - 1) && MachineIdleCycles(r) > 0
    ensures Round(h, r) == MachineSkip(k, n)
  {
    hide Round, MachineSkip, MachineIdleCycles, Settled;
    QuietRound(h, r);
    SkipAdds(k, n - 1, 1);
  }

  /** The assertion in Processor::Skip fails only for an empty skip with a processor running. */
  lemma SkipAssertsIff<W, D>(k: Kernel<W, D>, n: Word)
    requires n <= MachineIdleCycles(k)
    ensures SkipAsserts(k, n) <==> n > 0 || AllAsleep(k)
  {
  }

  function Sum(ns: seq<Word>): nat {
    if ns == [] then 0 else ns[0] + Sum(ns[1..])
  }

  function Skips<W, D>(k: Kernel<W, D>, ns: seq<Word>): Kernel<W, D>
    decreases |ns|
  {
    if ns == [] then k else Skips(MachineSkip(k, ns[0]), ns[1..])
  }

  lemma {:induction false} SkipsAdd<W, D>(k: Kernel<W, D>, ns: seq<Word>)
    requires Sum(ns) < TWO32 && k.tod + Sum(ns) < TWO64
    ensures Skips(k, ns) == MachineSkip(k, Sum(ns))
    decreases |ns|
  {
    hide MachineSkip;
    if ns == [] {
      SkipNothing(k);
    } else {
      ClockAfter(k, ns[0]);
      SkipsAdd(MachineSkip(k, ns[0]), ns[1..]);
      SkipAdds(k, ns[0], Sum(ns[1..]));
    }
  }

  lemma ClockAfter<W, D>(k: Kernel<W, D>, n: Word)
    requires k.tod + n < TWO64
    ensures MachineSkip(k, n).tod == k.tod + n
  {
  }

  /** Skips done in any chunks within the idle time land where the rounds do. */
  lemma ChunkedSkips<W, D>(h: World<W, D>, k: Kernel<W, D>, ns: seq<Word>)
    requires Settled(k) && HasRoom(k, Sum(ns)) && Sum(ns) <= MachineIdleCycles(k)
    ensures Skips(k, ns) == Rounds(h, k, Sum(ns))
  {
    hide Rounds, MachineSkip, MachineIdleCycles, Settled, Skips, Sum;
    SkipsAdd(k, ns);
    SkipIsRounds(h, k, Sum(ns));
  }
}
