/** Interprocessor messages from outbox to inbox over whole machine runs. */
module MessageRuns {
  import opened Words
  import opened EventQueue
  import opened Pic
  import opened Bookkeeping
  import opened ControllerRuns
  import opened Kernel
  import opened Traces
  import opened MachineRuns
  import Fairness

  // ---- every message is delivered once, one latency after it was sent ------------------------------

  lemma SendsInRuns<W, D(!new)>(h: World<W, D>, k0: Kernel<W, D>, n: nat)
    requires Unused(k0) && HasRoom(k0, n)
    ensures var r := Rounds(h, k0, n); SendsOk(r) && MailSettled(r) && r.latency == k0.latency && r.tod + TWO32 <= TWO64
  {
    hide Rounds, Explains, Ticks, Inv, Run, Fairness.Deliveries;
    assert SendsOk(k0) && MailSettled(k0);
    RoundsExtend(h, k0, n);
    hide SendsOk, MailSettled;
  }

  /**
   * In every run each message has been delivered exactly as often as it was sent once its latency is over,
   * in that very tick, and not at all before; nothing else is ever delivered.
   */
  lemma MessagesArriveOnce<W, D(!new)>(h: World<W, D>, k0: Kernel<W, D>, n: nat, e: Ev<D>)
    requires Unused(k0) && HasRoom(k0, n)
    ensures var r := Rounds(h, k0, n);
      multiset(Delivered<D>(r.hist.log))[e] ==
        if e.callback.IpiDelivery? && e.deadline <= r.tod then multiset(Outgoing<D>(r.hist.sent, k0.latency))[e] else 0
  {
    hide Rounds, Delivered, Outgoing, Messages, Settled, Inv, InOrder;
    var r := Rounds(h, k0, n);
    SendsInRuns(h, k0, n);
    EventsRunOnTime(h, k0, n);
    if e.callback.IpiDelivery? {
      MessagesCount(r.hist.ran, e);
    } else {
      OnlyMessages(r.hist.ran, e);
    }
  }

  lemma {:induction false} OnlyMessages<D>(q: seq<Ev<D>>, e: Ev<D>)
    requires !e.callback.IpiDelivery?
    ensures multiset(Messages(q))[e] == 0
  {
    if q != [] { OnlyMessages(q[..|q| - 1], e); }
  }

  /** Entry `a` of the log delivers what `m` put in an outbox, one latency later. */
  predicate Delivers(a: Applied, m: Sent, latency: Delay) {
    a.op == Deliver(m.origin, m.outbox) && a.at as int == m.at + latency
  }

  lemma {:induction false} DeliveredAt<D>(log: seq<Applied>, e: Ev<D>) returns (i: nat)
    requires e in Delivered<D>(log)
    ensures i < |log| && log[i].op.Deliver? && e == Event(log[i].at, IpiDelivery(log[i].op.origin, log[i].op.outbox))
  {
    var a := log[|log| - 1];
    if a.op.Deliver? && e == Event(a.at, IpiDelivery(a.op.origin, a.op.outbox)) {
      i := |log| - 1;
    } else {
      i := DeliveredAt(log[..|log| - 1], e);
    }
  }

  /** Every message is delivered once its time has come. */
  lemma SentArrives<W, D(!new)>(h: World<W, D>, k0: Kernel<W, D>, n: nat, x: nat) returns (i: nat)
    requires Unused(k0) && HasRoom(k0, n) && x < |Rounds(h, k0, n).hist.sent|
    requires Rounds(h, k0, n).hist.sent[x].at + k0.latency <= Rounds(h, k0, n).tod
    ensures var r := Rounds(h, k0, n); i < |r.hist.log| && Delivers(r.hist.log[i], r.hist.sent[x], k0.latency)
  {
    hide Rounds, Delivered, Settled, Inv, InitialPic;
    var r := Rounds(h, k0, n);
    SendsInRuns(h, k0, n);
    var m := r.hist.sent[x];
    var e: Ev<D> := Event(Deadline(m.at, k0.latency), IpiDelivery(m.origin, m.outbox));
    assert m.at <= r.tod;
    assert e.deadline == m.at + k0.latency;
    assert Outgoing<D>(r.hist.sent, k0.latency)[x] == e;
    assert e in multiset(Outgoing<D>(r.hist.sent, k0.latency));
    MessagesArriveOnce(h, k0, n, e);
    assert e in multiset(Delivered<D>(r.hist.log));
    i := DeliveredAt(r.hist.log, e);
  }

  // ---- messages stay in the order they were sent ----------------------------------------------------

  /** What the `i`th operation adds to the mailbox of `t`. */
  ghost function AcceptedAt(s: Irq, ops: seq<PicOp>, i: nat, t: nat): seq<IpiMessage>
    requires Inv(s) && t < |s.cpus| && i < |ops|
  {
    Accepted(Run(s, ops[..i]), ops[i], t)
  }

  /** How many messages the mailbox of `t` accepted before the `i`th operation. */
  ghost function Place(s: Irq, ops: seq<PicOp>, i: nat, t: nat): nat
    requires Inv(s) && t < |s.cpus| && i <= |ops|
  {
    |AllAccepted(s, ops[..i], t)|
  }

  lemma AcceptedMore(s: Irq, ops: seq<PicOp>, i: nat, t: nat)
    requires Inv(s) && t < |s.cpus| && i < |ops|
    ensures AllAccepted(s, ops[..i + 1], t) == AllAccepted(s, ops[..i], t) + AcceptedAt(s, ops, i, t)
  {
    hide Inv, Accepted, Run;
    assert ops[..i + 1][..i] == ops[..i];
  }

  lemma {:induction false} AcceptedPrefix(s: Irq, ops: seq<PicOp>, i: nat, j: nat, t: nat)
    requires Inv(s) && t < |s.cpus| && i <= j <= |ops|
    ensures AllAccepted(s, ops[..i], t) <= AllAccepted(s, ops[..j], t)
    decreases j - i
  {
    hide Inv, AllAccepted, AcceptedAt;
    if i < j {
      AcceptedPrefix(s, ops, i, j - 1, t);
      AcceptedMore(s, ops, j - 1, t);
    }
  }

  /** A message the `i`th operation put in the mailbox is the one at that operation's place. */
  lemma AcceptedPlace(s: Irq, ops: seq<PicOp>, i: nat, t: nat, m: IpiMessage)
    requires Inv(s) && t < |s.cpus| && i < |ops| && AcceptedAt(s, ops, i, t) == [m]
    ensures Place(s, ops, i, t) < |AllAccepted(s, ops, t)| && AllAccepted(s, ops, t)[Place(s, ops, i, t)] == m
    ensures Place(s, ops, i + 1, t) == Place(s, ops, i, t) + 1
  {
    hide Inv, AllAccepted, AcceptedAt;
    AcceptedMore(s, ops, i, t);
    AcceptedPrefix(s, ops, i + 1, |ops|, t);
    assert ops[..|ops|] == ops;
  }

  lemma PlacesInOrder(s: Irq, ops: seq<PicOp>, i: nat, j: nat, t: nat)
    requires Inv(s) && t < |s.cpus| && i < j < |ops| && AcceptedAt(s, ops, i, t) != []
    ensures Place(s, ops, i, t) < Place(s, ops, j, t)
  {
    hide Inv, AllAccepted;
    AcceptedPlace(s, ops, i, t, AcceptedAt(s, ops, i, t)[0]);
    AcceptedPrefix(s, ops, i + 1, j, t);
  }

  /** From an empty mailbox, what is taken is the first part of what was accepted. */
  lemma TakenInOrder(s: Irq, ops: seq<PicOp>, t: nat)
    requires Inv(s) && t < |s.cpus| && InboxOf(s, t) == []
    ensures AllTaken(s, ops, t) <= AllAccepted(s, ops, t)
  {
    hide Inv, AllTaken, AllAccepted, Run;
    MailboxIsFifo(s, ops, t);
    assert [] + AllAccepted(s, ops, t) == AllAccepted(s, ops, t);
  }

  /**
   * Of two messages sent in different ticks that processor `t` accepted, the one sent first comes first in what
   * `t` accepted and in what it took.
   */
  lemma MessagesInSendOrder<W, D(!new)>(h: World<W, D>, k0: Kernel<W, D>, n: nat, x: Sent, y: Sent, i: nat, j: nat, t: nat)
    requires Unused(k0) && HasRoom(k0, n) && t < |k0.irq.cpus|
    requires x in Rounds(h, k0, n).hist.sent && y in Rounds(h, k0, n).hist.sent && x.at < y.at
    requires i < |Rounds(h, k0, n).hist.log| && Delivers(Rounds(h, k0, n).hist.log[i], x, k0.latency)
    requires j < |Rounds(h, k0, n).hist.log| && Delivers(Rounds(h, k0, n).hist.log[j], y, k0.latency)
    requires AcceptedAt(k0.irq, Ops(Rounds(h, k0, n).hist.log), i, t) != []
    requires AcceptedAt(k0.irq, Ops(Rounds(h, k0, n).hist.log), j, t) != []
    ensures var ops := Ops(Rounds(h, k0, n).hist.log);
      var a, b := Place(k0.irq, ops, i, t), Place(k0.irq, ops, j, t);
      var accepted, taken := AllAccepted(k0.irq, ops, t), AllTaken(k0.irq, ops, t);
      && Rounds(h, k0, n).irq.pic == Run(k0.irq, ops).pic
      && a < b < |accepted|
      && accepted[a] == IpiMessage(x.origin, x.outbox % 0x100) && accepted[b] == IpiMessage(y.origin, y.outbox % 0x100)
      && taken <= accepted
      && (b < |taken| ==> taken[a] == accepted[a] && taken[b] == accepted[b])
  {
    hide Rounds, Run, Settled, InitialPic, AllAccepted, AllTaken, Inv, Went, Fairness.Deliveries;
    var log := Rounds(h, k0, n).hist.log;
    var ops := Ops(log);
    ControllerIsLog(h, k0, n);
    WholeLog(h, k0, n);
    assert i < j;
    AcceptedIs(k0.irq, ops, i, t);
    AcceptedIs(k0.irq, ops, j, t);
    AcceptedPlace(k0.irq, ops, i, t, IpiMessage(x.origin, x.outbox % 0x100));
    AcceptedPlace(k0.irq, ops, j, t, IpiMessage(y.origin, y.outbox % 0x100));
    PlacesInOrder(k0.irq, ops, i, j, t);
    EmptyAtFirst(k0, t);
    TakenInOrder(k0.irq, ops, t);
  }

  lemma AcceptedIs(s: Irq, ops: seq<PicOp>, i: nat, t: nat)
    requires Inv(s) && t < |s.cpus| && i < |ops| && AcceptedAt(s, ops, i, t) != []
    ensures ops[i].Deliver? && AcceptedAt(s, ops, i, t) == [IpiMessage(ops[i].origin, ops[i].outbox % 0x100)]
  {
  }

  lemma EmptyAtFirst<W, D(!new)>(k: Kernel<W, D>, t: nat)
    requires Unused(k) && t < |k.irq.cpus|
    ensures t < |k.irq.pic.cpuData| && InboxOf(k.irq, t) == []
  {
  }
}
