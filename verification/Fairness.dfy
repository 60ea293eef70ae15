/** Dynamic routing serves equally important processors in turn. */
module Fairness {
  import opened Words
  import opened Cpu
  import opened Pic
  import opened Bookkeeping
  import opened ControllerRuns
  import opened Finite

  /** How many steps clockwise from `a` to `t` on a ring of `n`. */
  function Dist(a: nat, t: nat, n: nat): nat
    requires a < n && t < n
  {
    if t >= a then t - a else t - a + n
  }

  /** Allowed by the mask, and no allowed processor has a greater priority value. */
  predicate IsBest(p: Pic, dest: nat, t: nat) {
    t < |p.cpuData| && BitVal(dest, t) &&
    forall u: nat | u < |p.cpuData| && BitVal(dest, u) :: p.cpuData[u].taskPriority <= p.cpuData[t].taskPriority
  }

  ghost function Eligible(p: Pic, dest: nat): (s: set<nat>)
    ensures forall t: nat :: t in s <==> IsBest(p, dest, t)
  {
    set t | t in Below(|p.cpuData|) && IsBest(p, dest, t)
  }

  lemma EligibleIgnoresArbiter(p: Pic, a: nat, dest: nat)
    ensures Eligible(p.(arbiter := a), dest) == Eligible(p, dest)
  {
    assert forall v: nat :: IsBest(p.(arbiter := a), dest, v) == IsBest(p, dest, v);
  }

  lemma {:induction false} ScanIs(p: Pic, dest: nat, i: nat)
    requires p.arbiter < |p.cpuData| && i <= |p.cpuData|
    ensures var n := |p.cpuData|; var t := Scan(p, dest, i);
      match t
      case None => forall u: nat | u < n && Dist(p.arbiter, u, n) < i :: !BitVal(dest, u)
      case Some(t) =>
        && BitVal(dest, t) && Dist(p.arbiter, t, n) < i
        && (forall u: nat | u < n && Dist(p.arbiter, u, n) < i && BitVal(dest, u) ::
             && p.cpuData[u].taskPriority <= p.cpuData[t].taskPriority
             && (p.cpuData[u].taskPriority == p.cpuData[t].taskPriority ==>
                   Dist(p.arbiter, t, n) <= Dist(p.arbiter, u, n)))
  {
    if i > 0 {
      ScanIs(p, dest, i - 1);
      assert Dist(p.arbiter, Ring(p.arbiter, i - 1, |p.cpuData|), |p.cpuData|) == i - 1;
    }
  }

  /** A dynamic delivery goes to the first eligible processor clockwise from the arbiter. */
  lemma DynamicTarget(p: Pic, s: Source)
    requires p.arbiter < |p.cpuData| && s.dynamic
    ensures Target(p, s).Some? <==> exists u: nat :: u < |p.cpuData| && BitVal(s.destination, u)
    ensures Target(p, s).Some? <==> Eligible(p, s.destination) != {}
    ensures Target(p, s).Some? ==>
      var t := Target(p, s).value;
      t in Eligible(p, s.destination) &&
      forall u | u in Eligible(p, s.destination) :: Dist(p.arbiter, t, |p.cpuData|) <= Dist(p.arbiter, u, |p.cpuData|)
  {
    hide Scan, BitVal;
    ScanIs(p, s.destination, |p.cpuData|);
    assert forall u: nat | u < |p.cpuData| :: Dist(p.arbiter, u, |p.cpuData|) < |p.cpuData|;
    if Target(p, s).Some? {
      assert IsBest(p, s.destination, Target(p, s).value);
      assert BitVal(s.destination, Target(p, s).value);
    } else {
      forall u: nat | u < |p.cpuData|
        ensures !BitVal(s.destination, u)
      {
        assert Dist(p.arbiter, u, |p.cpuData|) < |p.cpuData|;
      }
    }
  }

  /** The targets of `m` dynamic deliveries in a row. */
  function Rounds(p: Pic, dest: nat, m: nat): (r: seq<nat>)
    requires p.arbiter < |p.cpuData|
    decreases m
  {
    if m == 0 then [] else
    match Scan(p, dest, |p.cpuData|)
    case None => []
    case Some(t) => [t] + Rounds(p.(arbiter := Ring(t, 1, |p.cpuData|)), dest, m - 1)
  }

  /** The nearer part of the eligible processors, seen from `a`, is served. */
  ghost predicate ServedUpTo(p: Pic, dest: nat, a: nat, off: nat, served: set<nat>) {
    && a < |p.cpuData| && off <= |p.cpuData|
    && p.arbiter == Ring(a, off, |p.cpuData|) && p.arbiter < |p.cpuData|
    && served <= Eligible(p, dest)
    && (forall t | t in Eligible(p, dest) :: t in served <==> Dist(a, t, |p.cpuData|) < off)
  }

  lemma FirstUnserved(p: Pic, dest: nat, a: nat, off: nat, served: set<nat>) returns (t: nat)
    requires ServedUpTo(p, dest, a, off, served) && served != Eligible(p, dest)
    ensures Scan(p, dest, |p.cpuData|) == Some(t) && t in Eligible(p, dest) - served && t < |p.cpuData|
    ensures forall v | v in Eligible(p, dest) - served ::
      v < |p.cpuData| && off <= Dist(a, t, |p.cpuData|) <= Dist(a, v, |p.cpuData|)
  {
    hide Scan, IsBest;
    var n := |p.cpuData|;
    var u := Missing(served, Eligible(p, dest));
    DynamicTarget(p, Source(None, dest, true));
    t := Scan(p, dest, n).value;
    BestIsProcessor(p, dest);
    NearestIsNext(p, a, off, t, u);
    forall v | v in Eligible(p, dest) - served
      ensures v < n && off <= Dist(a, t, n) <= Dist(a, v, n)
    {
      NearestIsNext(p, a, off, t, v);
    }
  }

  lemma BestIsProcessor(p: Pic, dest: nat)
    ensures forall v | v in Eligible(p, dest) :: v < |p.cpuData|
  {
    hide BitVal;
  }

  /** Seen from `a`, what is nearest to the arbiter, `off` steps on, comes next among what is not nearer than that. */
  lemma NearestIsNext(p: Pic, a: nat, off: nat, t: nat, v: nat)
    requires a < |p.cpuData| && off <= |p.cpuData| && p.arbiter == Ring(a, off, |p.cpuData|) && p.arbiter < |p.cpuData|
    requires t < |p.cpuData| && v < |p.cpuData| && off <= Dist(a, v, |p.cpuData|)
    requires Dist(p.arbiter, t, |p.cpuData|) <= Dist(p.arbiter, v, |p.cpuData|)
    ensures off <= Dist(a, t, |p.cpuData|) <= Dist(a, v, |p.cpuData|)
  {
  }

  lemma ServeOne(p: Pic, dest: nat, a: nat, off: nat, served: set<nat>) returns (t: nat)
    requires ServedUpTo(p, dest, a, off, served) && served != Eligible(p, dest)
    ensures Scan(p, dest, |p.cpuData|) == Some(t) && t in Eligible(p, dest) - served
    ensures var p1 := p.(arbiter := Ring(t, 1, |p.cpuData|));
      && Eligible(p1, dest) == Eligible(p, dest)
      && ServedUpTo(p1, dest, a, Dist(a, t, |p.cpuData|) + 1, served + {t})
  {
    hide Scan, IsBest, Eligible;
    var n := |p.cpuData|;
    t := FirstUnserved(p, dest, a, off, served);
    EligibleIgnoresArbiter(p, Ring(t, 1, n), dest);
    BestIsProcessor(p, dest);
    forall v | v in Eligible(p, dest) ensures v in served + {t} <==> Dist(a, v, n) < Dist(a, t, n) + 1 {
      if v !in served && v != t { DistDiffers(a, v, t, n); }
    }
  }

  lemma DistDiffers(a: nat, u: nat, v: nat, n: nat)
    requires a < n && u < n && v < n && u != v
    ensures Dist(a, u, n) != Dist(a, v, n)
  {
  }

  /** Deliveries go on to serve the rest once each, and the number they take is the size of the rest. */
  lemma {:induction false} ServeRest(p: Pic, dest: nat, a: nat, off: nat, served: set<nat>, best: set<nat>)
    returns (m: nat)
    requires ServedUpTo(p, dest, a, off, served) && best == Eligible(p, dest)
    ensures TakesRest(Rounds(p, dest, m), served, best) && |Rounds(p, dest, m)| == m
    decreases best - served
  {
    hide Scan, BitVal, Eligible;
    if served == best {
      m := 0;
    } else {
      var t := ServeOne(p, dest, a, off, served);
      var p1 := p.(arbiter := Ring(t, 1, |p.cpuData|));
      var m1 := ServeRest(p1, dest, a, Dist(a, t, |p.cpuData|) + 1, served + {t}, best);
      TakesRestMore(t, Rounds(p1, dest, m1), served, best);
      m := m1 + 1;
    }
  }

  lemma RoundRobin(p: Pic, dest: nat)
    requires p.arbiter < |p.cpuData|
    ensures EachOnce(Rounds(p, dest, |Eligible(p, dest)|), Eligible(p, dest))
  {
    var best := Eligible(p, dest);
    var m := ServeRest(p, dest, p.arbiter, 0, {}, best);
    var r := Rounds(p, dest, m);
    TakesRestOnce(r, {}, best);
    assert best - {} == best;
    DistinctCount(r);
  }

  // ---- whole runs -----------------------------------------------------------

  /** Where an operation's interrupt goes when its source is routed dynamically. */
  function DynamicDelivery(s: Irq, op: PicOp): seq<nat>
    requires s.Wf()
  {
    if op.Raise? && IsSource(op.il, op.d) && s.pic.sources[op.il][op.d].dynamic then
      var t := Target(s.pic, s.pic.sources[op.il][op.d]);
      if t.Some? then [t.value] else []
    else []
  }

  ghost function Next(s: Irq, op: PicOp): (r: Irq)
    requires Inv(s)
    ensures Inv(r) && |r.cpus| == |s.cpus|
  {
    ApplyKeeps(s, op);
    Apply(s, op)
  }

  ghost function Deliveries(s: Irq, ops: seq<PicOp>): seq<nat>
    requires Inv(s)
    decreases |ops|
  {
    if ops == [] then [] else DynamicDelivery(s, ops[0]) + Deliveries(Next(s, ops[0]), ops[1..])
  }

  /** Routes and priorities stay, and every dynamic source raised has the mask `dest`. */
  ghost predicate Steady(s: Irq, ops: seq<PicOp>, dest: nat)
    requires Inv(s)
    decreases |ops|
  {
    ops == [] || (
      && !ops[0].Route? && !ops[0].Priority?
      && (ops[0].Raise? && s.pic.sources[ops[0].il][ops[0].d].dynamic ==> s.pic.sources[ops[0].il][ops[0].d].destination == dest)
      && Steady(Next(s, ops[0]), ops[1..], dest))
  }

  ghost predicate SamePriorities(p: Pic, q: Pic) {
    && |p.cpuData| == |q.cpuData|
    && (forall t | 0 <= t < |p.cpuData| :: p.cpuData[t].taskPriority == q.cpuData[t].taskPriority)
  }

  lemma {:induction false} ScanOnPriorities(p: Pic, q: Pic, dest: nat, i: nat)
    requires SamePriorities(p, q) && p.arbiter == q.arbiter < |p.cpuData| && i <= |p.cpuData|
    ensures Scan(p, dest, i) == Scan(q, dest, i)
  {
    if i > 0 {
      ScanOnPriorities(p, q, dest, i - 1);
    }
  }

  lemma {:induction false} RoundsOnPriorities(p: Pic, q: Pic, dest: nat, m: nat)
    requires SamePriorities(p, q) && p.arbiter == q.arbiter < |p.cpuData|
    ensures Rounds(p, dest, m) == Rounds(q, dest, m)
    decreases m
  {
    if m > 0 {
      ScanOnPriorities(p, q, dest, |p.cpuData|);
      var t := Scan(p, dest, |p.cpuData|);
      if t.Some? {
        var a := Ring(t.value, 1, |p.cpuData|);
        RoundsOnPriorities(p.(arbiter := a), q.(arbiter := a), dest, m - 1);
      }
    }
  }

  /** A steady operation moves the arbiter exactly when it is a dynamic delivery. */
  lemma SteadyStep(s: Irq, op: PicOp)
    requires Inv(s) && !op.Route? && !op.Priority?
    ensures SamePriorities(s.pic, Next(s, op).pic)
    ensures var ts := DynamicDelivery(s, op);
      Next(s, op).pic.arbiter == if ts == [] then s.pic.arbiter else Ring(ts[0], 1, |s.cpus|)
  {
    if op.Deliver? && op.origin < |s.cpus| {
      DeliverSources(s, op.origin, op.outbox, |s.cpus|);
    }
  }

  lemma RoundsMore(s: Irq, s1: Irq, first: seq<nat>, rest: seq<nat>, dest: nat)
    requires s.Wf() && s1.Wf() && SamePriorities(s.pic, s1.pic)
    requires first == [] || (first == [first[0]] && Scan(s.pic, dest, |s.cpus|) == Some(first[0]))
    requires s1.pic.arbiter == if first == [] then s.pic.arbiter else Ring(first[0], 1, |s.cpus|)
    requires rest == Rounds(s1.pic, dest, |rest|)
    ensures first + rest == Rounds(s.pic, dest, |first + rest|)
  {
    hide Scan, SamePriorities;
    RoundsOnPriorities(WithArbiterOf(s.pic, s1.pic), s1.pic, dest, |rest|);
    if first == [] {
      assert WithArbiterOf(s.pic, s1.pic) == s.pic && first + rest == rest;
    } else {
      assert first + rest == [first[0]] + rest;
    }
  }

  function WithArbiterOf(p: Pic, q: Pic): (r: Pic)
    ensures SamePriorities(p, q) ==> SamePriorities(r, q)
    ensures r.arbiter == q.arbiter && |r.cpuData| == |p.cpuData|
  {
    p.(arbiter := q.arbiter)
  }

  lemma {:induction false} SteadyDeliveries(s: Irq, ops: seq<PicOp>, dest: nat)
    requires Inv(s) && Steady(s, ops, dest)
    ensures Deliveries(s, ops) == Rounds(s.pic, dest, |Deliveries(s, ops)|)
    decreases |ops|
  {
    if ops != [] {
      var s1 := Next(s, ops[0]);
      SteadyStep(s, ops[0]);
      SteadyDeliveries(s1, ops[1..], dest);
      RoundsMore(s, s1, DynamicDelivery(s, ops[0]), Deliveries(s1, ops[1..]), dest);
    }
  }

  /** Any stretch of the rounds is the rounds from some arbiter position. */
  lemma {:induction false} RoundsWindow(p: Pic, dest: nat, m: nat, i: nat, k: nat) returns (q: Pic)
    requires p.arbiter < |p.cpuData| && i + k <= |Rounds(p, dest, m)| && |Rounds(p, dest, m)| == m
    ensures q == p.(arbiter := q.arbiter) && q.arbiter < |q.cpuData|
    ensures Rounds(p, dest, m)[i..i + k] == Rounds(q, dest, k)
    decreases m
  {
    hide Scan, BitVal;
    if m > 0 && (i > 0 || k < m) {
      var t := Scan(p, dest, |p.cpuData|).value;
      var p1 := p.(arbiter := Ring(t, 1, |p.cpuData|));
      if i > 0 {
        q := RoundsWindow(p1, dest, m - 1, i - 1, k);
      } else {
        q := p;
        if k > 0 {
          var q1 := RoundsWindow(p1, dest, m - 1, 0, k - 1);
          RoundsPrefix(p1, dest, m - 1, k - 1);
        }
      }
    } else {
      q := p;
    }
  }

  lemma {:induction false} RoundsPrefix(p: Pic, dest: nat, m: nat, k: nat)
    requires p.arbiter < |p.cpuData| && k <= |Rounds(p, dest, m)|
    ensures Rounds(p, dest, m)[..k] == Rounds(p, dest, k)
    decreases m
  {
    if m > 0 && k > 0 {
      var t := Scan(p, dest, |p.cpuData|).value;
      RoundsPrefix(p.(arbiter := Ring(t, 1, |p.cpuData|)), dest, m - 1, k - 1);
    }
  }

  lemma WindowOnce(p: Pic, dest: nat, ds: seq<nat>, i: nat, k: nat)
    requires p.arbiter < |p.cpuData| && ds == Rounds(p, dest, |ds|)
    requires k == |Eligible(p, dest)| && i + k <= |ds|
    ensures EachOnce(ds[i..i + k], Eligible(p, dest))
  {
    var q := RoundsWindow(p, dest, |ds|, i, k);
    EligibleIgnoresArbiter(p, q.arbiter, dest);
    RoundRobin(q, dest);
  }

  /** While mask and priorities stay, any |eligible| dynamic deliveries in a row hit each eligible processor once. */
  lemma FairWindow(s: Irq, ops: seq<PicOp>, dest: nat, i: nat, k: nat)
    requires Inv(s) && Steady(s, ops, dest)
    requires k == |Eligible(s.pic, dest)| && i + k <= |Deliveries(s, ops)|
    ensures EachOnce(Deliveries(s, ops)[i..i + k], Eligible(s.pic, dest))
  {
    SteadyDeliveries(s, ops, dest);
    WindowOnce(s.pic, dest, Deliveries(s, ops), i, k);
  }

  /** A new controller of two processors, one source routed dynamically to both: two raises reach one each. */
  lemma TurnsAreTaken(cpus: seq<Cpu>)
    requires |cpus| == 2 && Inv(Irq(InitialPic(2), cpus))
    ensures var s := Next(Irq(InitialPic(2), cpus), Route(1, 0, 0x1000_0003)); var ops := [Raise(1, 0), Raise(1, 0)];
      && Steady(s, ops, 3) && Deliveries(s, ops) == [0, 1] && Eligible(s.pic, 3) == {0, 1}
  {
    hide Owned, CpuOk, RaiseLine;
    var s := RoutedToBoth(cpus);
    var op := Raise(1, 0);
    TurnOf(s, 0);
    var s1 := Next(s, op);
    TurnOf(s1, 1);
    assert [op, op][1..] == [op] && [op][1..] == [];
    assert Steady(Next(s1, op), [], 3) && Deliveries(Next(s1, op), []) == [];
    assert Steady(s1, [op], 3) && Deliveries(s1, [op]) == [1] + [];
    BothEligible(s.pic);
  }

  /** Source 0 of line 3 goes to processors 0 and 1 in turn, next to `a`. */
  ghost predicate TurnIs(s: Irq, a: nat) {
    && Inv(s) && |s.cpus| == 2 && s.pic.arbiter == a
    && s.pic.sources[1][0].destination == 3 && s.pic.sources[1][0].dynamic
    && s.pic.cpuData[0].taskPriority == s.pic.cpuData[1].taskPriority
  }

  lemma RoutedToBoth(cpus: seq<Cpu>) returns (s: Irq)
    requires |cpus| == 2 && Inv(Irq(InitialPic(2), cpus))
    ensures s == Next(Irq(InitialPic(2), cpus), Route(1, 0, 0x1000_0003)) && TurnIs(s, 0)
  {
    hide Owned, CpuOk;
    s := Next(Irq(InitialPic(2), cpus), Route(1, 0, 0x1000_0003));
    PolicyBit();
  }

  lemma PolicyBit()
    ensures BitVal(0x1000_0003, 28)
  {
    BytesUp(0x1000_0003, 20);
    BytesUp(0x10_0000, 12);
    BytesUp(0x1000, 4);
  }

  lemma BothAllowed()
    ensures BitVal(3, 0) && BitVal(3, 1)
  {
  }

  lemma TurnOf(s: Irq, a: nat)
    requires TurnIs(s, a) && a < 2
    ensures DynamicDelivery(s, Raise(1, 0)) == [a] && TurnIs(Next(s, Raise(1, 0)), 1 - a)
  {
    hide BitVal, Owned, CpuOk, RaiseLine;
    BothAllowed();
    var p := s.pic;
    assert Scan(p, 3, 1) == Some(a);
    assert Scan(p, 3, 2) == Some(a);
    RaisedTurn(s, a);
  }

  lemma RaisedTurn(s: Irq, a: nat)
    requires TurnIs(s, a) && a < 2 && Target(s.pic, s.pic.sources[1][0]) == Some(a)
    ensures TurnIs(Next(s, Raise(1, 0)), 1 - a)
  {
    hide BitVal, Owned, CpuOk, Target, SetBit32, AssertIRQ;
  }

  lemma BothEligible(p: Pic)
    requires |p.cpuData| == 2 && p.cpuData[0].taskPriority == p.cpuData[1].taskPriority
    ensures Eligible(p, 3) == {0, 1}
  {
    hide BitVal;
    BothAllowed();
    assert IsBest(p, 3, 0) && IsBest(p, 3, 1);
  }
}
