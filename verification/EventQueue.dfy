/** The sorted event list of event.cc: its meaning on sequences, and the linked list itself. */
module EventQueue {
  import opened Words

  datatype Event<C> = Event(deadline: U64, callback: C)

  /** `ts + inc` on a 64-bit clock and a 32-bit delay. */
  function Deadline(tod: U64, delay: Word): U64 {
    (tod + delay) % TWO64
  }

  ghost predicate Sorted<C>(q: seq<Event<C>>) {
    forall i, j | 0 <= i < j < |q| :: q[i].deadline <= q[j].deadline
  }

  /** How many leading events are due by time `d`. */
  function DueCount<C>(q: seq<Event<C>>, d: int): (n: nat)
    ensures n <= |q|
  {
    if q == [] || q[0].deadline > d then 0 else 1 + DueCount(q[1..], d)
  }

  lemma {:induction false} DueCountIs<C>(q: seq<Event<C>>, d: int, n: nat)
    requires n <= |q|
    requires forall i | 0 <= i < n :: q[i].deadline <= d
    requires n < |q| ==> q[n].deadline > d
    ensures DueCount(q, d) == n
  {
    if n > 0 {
      DueCountIs(q[1..], d, n - 1);
    }
  }

  lemma {:induction false} DueCountSplits<C>(q: seq<Event<C>>, d: int)
    ensures forall i | 0 <= i < DueCount(q, d) :: q[i].deadline <= d
    ensures DueCount(q, d) < |q| ==> q[DueCount(q, d)].deadline > d
  {
    if q != [] && q[0].deadline <= d {
      DueCountSplits(q[1..], d);
    }
  }

  /** A tie with the head goes before it; every other tie goes after its equals. */
  function InsertPos<C>(q: seq<Event<C>>, d: int): (n: nat)
    ensures n <= |q|
  {
    if q == [] || d <= q[0].deadline then 0 else DueCount(q, d)
  }

  function InsertAt<T>(s: seq<T>, n: nat, x: T): (r: seq<T>)
    requires n <= |s|
    ensures |r| == |s| + 1 && r[n] == x
    ensures forall i | 0 <= i < n :: r[i] == s[i]
    ensures forall i | n < i < |r| :: r[i] == s[i - 1]
  {
    s[..n] + [x] + s[n..]
  }

  lemma InsertedIn<T>(s: seq<T>, n: nat, x: T)
    requires n <= |s|
    ensures forall y | y in InsertAt(s, n, x) :: y == x || y in s
  {
    var r := InsertAt(s, n, x);
    forall y | y in r ensures y == x || y in s {
      var i :| 0 <= i < |r| && r[i] == y;
    }
  }

  /** Insertion by a scan from the head. */
  function Insert<C>(q: seq<Event<C>>, e: Event<C>): (r: seq<Event<C>>)
    ensures |r| == |q| + 1
  {
    InsertAt(q, InsertPos(q, e.deadline), e)
  }

  lemma InsertFirst<C>(q: seq<Event<C>>, e: Event<C>)
    requires q == [] || e.deadline <= q[0].deadline
    ensures Insert(q, e) == [e] + q
  {
  }

  lemma InsertSorted<C>(q: seq<Event<C>>, e: Event<C>)
    requires Sorted(q)
    ensures Sorted(Insert(q, e))
  {
    DueCountSplits(q, e.deadline);
    var n := InsertPos(q, e.deadline);
    assert forall i | 0 <= i < n :: q[i].deadline <= e.deadline;
    assert n < |q| ==> e.deadline <= q[n].deadline;
  }

  /** Of two events with one deadline the later insertion overtakes exactly when that is the head's deadline. */
  lemma TieOrder<C>(q: seq<Event<C>>, e: Event<C>, i: nat)
    requires Sorted(q) && i < |q| && q[i].deadline == e.deadline
    ensures InsertPos(q, e.deadline) <= i <==> q[0].deadline == e.deadline
  {
    DueCountSplits(q, e.deadline);
  }

  lemma InsertAdds<C>(q: seq<Event<C>>, e: Event<C>)
    ensures multiset(Insert(q, e)) == multiset(q) + multiset{e}
  {
    var n := InsertPos(q, e.deadline);
    assert q == q[..n] + q[n..];
  }

  /** An event later than `d` leaves the due prefix, and a due head, where they are. */
  lemma {:induction false} InsertLater<C>(q: seq<Event<C>>, e: Event<C>, d: int)
    requires Sorted(q) && d < e.deadline
    ensures DueCount(Insert(q, e), d) == DueCount(q, d)
    ensures DueCount(q, d) > 0 ==> Insert(q, e)[0] == q[0]
  {
    DueCountSplits(q, d);
    DueCountSplits(q, e.deadline);
    DueCountIs(Insert(q, e), d, DueCount(q, d));
  }

  class EventNode<C> {
    const deadline: U64
    const callback: C
    var next: EventNode?<C>

    constructor (ts: U64, inc: Word, callback: C)
      ensures deadline == Deadline(ts, inc) && this.callback == callback && next == null
    {
      deadline := Deadline(ts, inc);
      this.callback := callback;
      next := null;
    }

    function Value(): Event<C> {
      Event(deadline, callback)
    }
  }

  ghost function Values<C>(nodes: seq<EventNode<C>>): (q: seq<Event<C>>)
    ensures |q| == |nodes| && forall i | 0 <= i < |q| :: q[i] == nodes[i].Value()
  {
    seq(|nodes|, i requires 0 <= i < |nodes| => nodes[i].Value())
  }

  lemma ValuesInsert<C>(nodes: seq<EventNode<C>>, n: nat, ins: EventNode<C>)
    requires n <= |nodes|
    ensures Values(InsertAt(nodes, n, ins)) == InsertAt(Values(nodes), n, ins.Value())
  {
  }

  class EventList<C> {
    var head: EventNode?<C>
    var lastIns: EventNode?<C>
    ghost var nodes: seq<EventNode<C>>

    ghost predicate Linked(i: nat)
      requires i < |nodes|
      reads this, nodes[i]
    {
      nodes[i].next == NodeAt(i + 1)
    }

    /** Acyclic, sorted, `lastIns` null exactly when empty and otherwise a member. */
    ghost predicate Valid()
      reads this, nodes
    {
      && (forall i, j | 0 <= i < j < |nodes| :: nodes[i] != nodes[j])
      && head == NodeAt(0)
      && (forall i | 0 <= i < |nodes| :: Linked(i))
      && Sorted(Contents())
      && (lastIns == null <==> nodes == [])
      && (lastIns != null ==> lastIns in nodes)
    }

    ghost function NodeAt(i: nat): EventNode?<C>
      reads this
    {
      if i < |nodes| then nodes[i] else null
    }

    ghost function Contents(): (q: seq<Event<C>>)
      reads this
    {
      Values(nodes)
    }

    constructor ()
      ensures Valid() && Contents() == [] && nodes == []
    {
      head, lastIns, nodes := null, null, [];
    }

    predicate IsEmpty()
      reads this
    {
      head == null
    }

    lemma EarlierNodes(n: nat)
      requires Valid() && n < |nodes|
      ensures forall i | 0 <= i < n :: nodes[i].Value().deadline <= nodes[n].deadline
    {
      forall i | 0 <= i < n
        ensures nodes[i].Value().deadline <= nodes[n].deadline
      {
        assert Contents()[i].deadline <= Contents()[n].deadline;
      }
    }

    /** The search of InsertQ for a time later than the head's: the finger is only a shortcut. */
    method FindPlace(deadline: U64) returns (q: EventNode<C>, ghost n: nat)
      requires Valid() && head != null && head.deadline < deadline
      ensures 0 < n <= |nodes| && q == nodes[n - 1]
      ensures n == InsertPos(Contents(), deadline)
    {
      hide Sorted, DueCount;
      var p: EventNode?<C>;
      n := 0;
      if lastIns != null && !(deadline <= lastIns.deadline) {
        p := lastIns;
        n :| 0 <= n < |nodes| && nodes[n] == lastIns;
        EarlierNodes(n);
      } else {
        p := head;
      }
      q := p;
      ghost var start := n;
      while p != null && p.deadline <= deadline
        invariant start <= n <= |nodes|
        invariant p == NodeAt(n)
        invariant if n == start then q == p else q == nodes[n - 1]
        invariant forall i | 0 <= i < n :: nodes[i].Value().deadline <= deadline
        invariant n == start ==> nodes[n].deadline < deadline
        decreases |nodes| - n
      {
        assert Linked(n);
        q := p;
        p := p.next;
        n := n + 1;
      }
      DueCountIs(Contents(), deadline, n);
    }

    /** `ins` becomes the head. */
    method PutFirst(ins: EventNode<C>)
      requires Valid() && ins !in nodes && ins.next == null
      requires Sorted([ins.Value()] + Contents())
      modifies this, ins
      ensures Valid() && nodes == [ins] + old(nodes)
    {
      ins.next := head;
      head := ins;
      lastIns := ins;
      nodes := [ins] + nodes;
      forall i | 0 <= i < |nodes| ensures Linked(i) {
        if i > 0 {
          assert old(Linked(i - 1));
        }
      }
      assert Contents() == [ins.Value()] + old(Contents());
    }

    /** Once `ins` stands between its neighbours, everything else still does. */
    twostate lemma LinksStay(new ins: EventNode<C>, n: nat)
      requires old(Valid()) && 0 < n <= old(|nodes|) && nodes == InsertAt(old(nodes), n, ins)
      requires forall x: EventNode<C> | x in old(nodes) && x != old(nodes)[n - 1] :: x.next == old(x.next)
      requires old(nodes)[n - 1].next == ins && ins.next == if n < old(|nodes|) then old(nodes)[n] else null
      ensures forall i | 0 <= i < |nodes| :: Linked(i)
    {
      hide Sorted;
      forall i | 0 <= i < |nodes| ensures Linked(i) {
        if i < n - 1 {
          assert old(Linked(i));
        } else if i > n {
          assert old(Linked(i - 1));
        }
      }
    }

    lemma StaysDistinct(old': seq<EventNode<C>>, n: nat, ins: EventNode<C>)
      requires (forall i, j | 0 <= i < j < |old'| :: old'[i] != old'[j]) && n <= |old'| && ins !in old'
      ensures var r := InsertAt(old', n, ins);
        (forall i, j | 0 <= i < j < |r| :: r[i] != r[j]) && (n > 0 ==> r[0] == old'[0]) && ins in r
    {
      var r := InsertAt(old', n, ins);
      assert r[n] == ins;
    }

    /** `ins` becomes the successor of `q`, the node just before position `n`. */
    method PutAfter(ins: EventNode<C>, q: EventNode<C>, ghost n: nat)
      requires Valid() && ins !in nodes && 0 < n <= |nodes| && q == nodes[n - 1]
      requires Sorted(InsertAt(Contents(), n, ins.Value()))
      modifies this, ins, q
      ensures Valid() && nodes == InsertAt(old(nodes), n, ins)
    {
      hide Sorted, InsertAt;
      assert Linked(n - 1);
      ins.next := q.next;
      q.next := ins;
      lastIns := ins;
      nodes := InsertAt(nodes, n, ins);
      ValuesInsert(old(nodes), n, ins);
      StaysDistinct(old(nodes), n, ins);
      LinksStay(ins, n);
    }

    /** `ins` goes behind the head, where its time puts it. */
    method PutLater(ins: EventNode<C>)
      requires Valid() && head != null && head.deadline < ins.deadline && ins !in nodes && ins.next == null
      modifies this, ins, nodes
      ensures Valid() && Contents() == Insert(old(Contents()), ins.Value())
      ensures forall n | n in nodes :: n in old(nodes) || n == ins
    {
      hide Linked, Sorted, DueCount, InsertAt, InsertPos;
      InsertSorted(Contents(), ins.Value());
      assert Contents() != [] && Contents()[0].deadline < ins.deadline;
      var q, n := FindPlace(ins.deadline);
      ValuesInsert(nodes, n, ins);
      InsertedIn(nodes, n, ins);
      PutAfter(ins, q, n);
    }

    /** Insertion gives the very sequence that a scan from the head gives. */
    method InsertQ(tod: U64, delay: Word, callback: C) returns (deadline: U64)
      requires Valid()
      modifies this, nodes
      ensures Valid()
      ensures deadline == Deadline(tod, delay)
      ensures Contents() == Insert(old(Contents()), Event(deadline, callback))
      ensures forall n | n in nodes :: n in old(nodes) || fresh(n)
    {
      hide Linked, Sorted, DueCount, InsertAt, InsertPos, Insert;
      var ins := new EventNode(tod, delay, callback);
      deadline := ins.deadline;
      if IsEmpty() || ins.deadline <= head.deadline {
        InsertSorted(Contents(), ins.Value());
        InsertFirst(Contents(), ins.Value());
        PutFirst(ins);
        assert Contents() == [ins.Value()] + old(Contents());
      } else {
        PutLater(ins);
      }
    }

    method RemoveHead()
      requires Valid()
      modifies this
      ensures Valid()
      ensures Contents() == if old(Contents()) == [] then [] else old(Contents())[1..]
      ensures nodes == if old(nodes) == [] then [] else old(nodes)[1..]
    {
      if !IsEmpty() {
        var p := head;
        assert Linked(0);
        head := head.next;
        if p == lastIns {
          lastIns := head;
        }
        nodes := nodes[1..];
        forall i | 0 <= i < |nodes| ensures Linked(i) {
          assert old(Linked(i + 1));
        }
      }
    }
  }
}
