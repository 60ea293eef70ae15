/** Breakpoints and suspects of stoppoint.cc and stoppoint.h: a list of points and an ordered index over them. */
module Stoppoints {
  import opened Words

  datatype AddressRange = AddressRange(asid: Word, start: Word, end: Word) {
    predicate Ok() { start <= end }

    /** The index order: by address space, then by start; the end plays no part. */
    predicate LessThan(other: AddressRange) {
      asid < other.asid || (asid == other.asid && start < other.start)
    }

    predicate Overlaps(r: AddressRange) { !(asid != r.asid || r.end < start || r.start > end) }

    predicate Contains(a: Word, addr: Word) { a == asid && start <= addr <= end }
  }

  /** AM_EXEC, AM_WRITE, AM_READ, as bits of a number. */
  type AccessMode = m: nat | m < 8

  /** `mode & other` is not zero. */
  predicate Shares(mode: AccessMode, other: AccessMode) {
    || (mode % 2 == 1 && other % 2 == 1)
    || (mode / 2 % 2 == 1 && other / 2 % 2 == 1)
    || (mode / 4 == 1 && other / 4 == 1)
  }

  class Stoppoint {
    const id: Word
    const range: AddressRange
    var enabled: bool
    var accessMode: AccessMode

    constructor (id: Word, range: AddressRange, mode: AccessMode)
      ensures this.id == id && this.range == range && enabled && accessMode == mode
    {
      this.id, this.range, enabled, accessMode := id, range, true, mode;
    }

    predicate Matches(asid: Word, addr: Word, mode: AccessMode)
      reads this
    {
      enabled && range.Contains(asid, addr) && Shares(accessMode, mode)
    }
  }

  /** Two ranges overlap exactly if some address of some address space lies in both, ends included. */
  lemma OverlapIsShared(r: AddressRange, s: AddressRange)
    requires r.Ok() && s.Ok()
    ensures r.Overlaps(s) <==> exists addr: Word :: r.Contains(s.asid, addr) && s.Contains(r.asid, addr)
    ensures forall a: Word, addr: Word :: r.Contains(a, addr) <==> a == r.asid && r.start <= addr && addr <= r.end
  {
    if r.Overlaps(s) {
      var addr := if r.start < s.start then s.start else r.start;
      assert r.Contains(s.asid, addr) && s.Contains(r.asid, addr);
    }
  }

  /** Two modes share an access exactly if some bit is set in both. */
  lemma SharesIff(mode: AccessMode, other: AccessMode)
    ensures Shares(mode, other) <==> exists b: nat :: b < 3 && BitVal(mode, b) && BitVal(other, b)
  {
    LowBits(mode);
    LowBits(other);
  }

  lemma LowBits(m: AccessMode)
    ensures BitVal(m, 0) == (m % 2 == 1) && BitVal(m, 1) == (m / 2 % 2 == 1) && BitVal(m, 2) == (m / 4 == 1)
  {
    assert m / 2 / 2 == m / 4;
  }

  // ---- sequences of points ------------------------------------------------------------------

  /** No address belongs to two points, nor to none of a point's own. */
  predicate Disjoint(points: seq<Stoppoint>) {
    && (forall i :: 0 <= i < |points| ==> points[i].range.Ok())
    && (forall i, j :: 0 <= i < j < |points| ==> !points[i].range.Overlaps(points[j].range))
  }

  predicate InOrder(index: seq<Stoppoint>) {
    forall i, j :: 0 <= i < j < |index| ==> index[i].range.LessThan(index[j].range)
  }

  predicate SamePoints(points: seq<Stoppoint>, index: seq<Stoppoint>) {
    && |points| == |index|
    && (forall p :: p in points ==> p in index)
    && (forall p :: p in index ==> p in points)
  }

  predicate IdsIncrease(points: seq<Stoppoint>) {
    forall i, j :: 0 <= i < j < |points| ==> points[i].id < points[j].id
  }

  /** The first index entry not before (asid, start), as the ordered map's lower_bound. */
  function LowerBound(index: seq<Stoppoint>, asid: Word, start: Word): (k: nat)
    ensures k <= |index|
    ensures forall i :: 0 <= i < k ==> index[i].range.LessThan(AddressRange(asid, start, start))
    ensures k < |index| ==> !index[k].range.LessThan(AddressRange(asid, start, start))
  {
    if index == [] || !index[0].range.LessThan(AddressRange(asid, start, start)) then 0
    else
      var k := LowerBound(index[1..], asid, start);
      assert forall i :: 1 <= i < 1 + k ==> index[i] == index[1..][i - 1];
      1 + k
  }

  /** Everything from the lower bound on is not before the key. */
  lemma AfterLowerBound(index: seq<Stoppoint>, asid: Word, start: Word)
    requires InOrder(index)
    ensures forall i :: LowerBound(index, asid, start) <= i < |index| ==>
      !index[i].range.LessThan(AddressRange(asid, start, start))
  {
  }

  /** The entry Probe looks at: the lower bound, or the one before it when that starts later. */
  function Candidate(index: seq<Stoppoint>, asid: Word, addr: Word): (k: nat)
    requires index != []
    ensures k < |index|
  {
    var k := LowerBound(index, asid, addr);
    if k == |index| || (AddressRange(asid, addr, addr).LessThan(index[k].range) && k != 0) then k - 1 else k
  }

  /** Two ranges in order overlap if the first contains an address the second starts at or before. */
  lemma StartsInside(r: AddressRange, s: AddressRange, asid: Word, addr: Word)
    requires r.Ok() && s.Ok() && r.LessThan(s) && r.Contains(asid, addr)
    requires !AddressRange(asid, addr, addr).LessThan(s)
    ensures r.Overlaps(s)
  {
  }

  /** No entry but the candidate can contain the address: the predecessor lookup misses nothing. */
  lemma OnlyTheCandidate(index: seq<Stoppoint>, asid: Word, addr: Word, i: nat)
    requires index != [] && InOrder(index) && Disjoint(index) && i < |index|
    requires index[i].range.Contains(asid, addr)
    ensures i == Candidate(index, asid, addr)
  {
    AfterLowerBound(index, asid, addr);
    var k := Candidate(index, asid, addr);
    if i < k { StartsInside(index[i].range, index[k].range, asid, addr); }
  }

  function Max(a: Word, b: Word): Word { if a < b then b else a }

  /** One more than each id, in 32 bits, and at least 0. */
  function NextId(points: seq<Stoppoint>): (r: Word)
  {
    if points == [] then 0 else Max(NextId(points[..|points| - 1]), (points[|points| - 1].id + 1) % TWO32)
  }

  /** The next id is above every id in use unless one of them is already the last 32-bit number. */
  lemma {:induction false} NextIdIsAbove(points: seq<Stoppoint>, i: nat)
    requires i < |points|
    ensures points[i].id != MAX_WORD ==> points[i].id < NextId(points)
  {
    var n := |points| - 1;
    if i < n { NextIdIsAbove(points[..n], i); }
  }

  /** A new id keeps the ids increasing exactly when no id in use is the last 32-bit number. */
  lemma NewIdKeepsOrder(points: seq<Stoppoint>, p: Stoppoint, id: Word)
    requires IdsIncrease(points) && p.id == Max(id, NextId(points))
    ensures IdsIncrease(points + [p]) <==> forall i :: 0 <= i < |points| ==> points[i].id != MAX_WORD
  {
    forall i | 0 <= i < |points|
      ensures points[i].id != MAX_WORD ==> points[i].id < p.id
    {
      NextIdIsAbove(points, i);
    }
    forall i | 0 <= i < |points| && IdsIncrease(points + [p])
      ensures points[i].id != MAX_WORD
    {
      assert (points + [p])[i].id < (points + [p])[|points|].id;
    }
  }

  /** After the last 32-bit id the next one is 0 again, below the one before it. */
  lemma IdsCanWrap(p: Stoppoint, q: Stoppoint)
    requires p.id == MAX_WORD && q.id == Max(0, NextId([p]))
    ensures q.id == 0 && !IdsIncrease([p] + [q])
  {
    assert [p][..0] == [];
    NewIdKeepsOrder([p], q, 0);
    assert [p][0].id == MAX_WORD;
  }

  /** The points of one address space that start within [start, end], in index order. */
  function Starting(index: seq<Stoppoint>, asid: Word, start: Word, end: Word): (r: seq<Stoppoint>)
  {
    if index == [] then []
    else
      (if index[0].range.asid == asid && start <= index[0].range.start <= end then [index[0]] else [])
      + Starting(index[1..], asid, start, end)
  }

  lemma {:induction false} StartingIsExact(index: seq<Stoppoint>, asid: Word, start: Word, end: Word, p: Stoppoint)
    ensures p in Starting(index, asid, start, end) <==>
      p in index && p.range.asid == asid && start <= p.range.start <= end
  {
    if index != [] {
      StartingIsExact(index[1..], asid, start, end, p);
      assert index == [index[0]] + index[1..];
    }
  }

  lemma StartingInPoints(points: seq<Stoppoint>, index: seq<Stoppoint>, asid: Word, start: Word, end: Word)
    requires SamePoints(points, index)
    ensures forall p :: p in Starting(index, asid, start, end) <==>
      p in points && p.range.asid == asid && start <= p.range.start <= end
  {
    forall p | p in Starting(index, asid, start, end) || p in points
      ensures p in Starting(index, asid, start, end) <==> p in points && p.range.asid == asid && start <= p.range.start <= end
    {
      StartingIsExact(index, asid, start, end, p);
    }
  }

  /** In a sorted index the points starting in an interval stand together. */
  lemma StartingSlice(index: seq<Stoppoint>, first: nat, k: nat, asid: Word, start: Word, end: Word)
    requires first <= k <= |index| && InOrder(index)
    requires forall i :: 0 <= i < first ==> index[i].range.LessThan(AddressRange(asid, start, start))
    requires forall i :: first <= i < |index| ==> !index[i].range.LessThan(AddressRange(asid, start, start))
    requires forall i :: first <= i < k ==> !AddressRange(asid, end, end).LessThan(index[i].range)
    requires k < |index| ==> AddressRange(asid, end, end).LessThan(index[k].range)
    ensures Starting(index, asid, start, end) == index[first..k] && InOrder(index[first..k])
  {
    hide Starting, InOrder;
    SliceInOrder(index, first, k);
    LaterIsAfter(index, k, AddressRange(asid, end, end));
    NoneStarting(index[..first], asid, start, end);
    NoneStarting(index[k..], asid, start, end);
    AllStarting(index[first..k], asid, start, end);
    ThreeParts(index, first, k, asid, start, end);
  }

  lemma SliceInOrder(index: seq<Stoppoint>, first: nat, k: nat)
    requires first <= k <= |index| && InOrder(index)
    ensures InOrder(index[first..k])
  {
    var slice := index[first..k];
    forall i, j | 0 <= i < j < |slice| ensures slice[i].range.LessThan(slice[j].range) {
      assert index[first + i].range.LessThan(index[first + j].range);
    }
  }

  lemma LaterIsAfter(index: seq<Stoppoint>, k: nat, key: AddressRange)
    requires InOrder(index) && (k < |index| ==> key.LessThan(index[k].range))
    ensures forall i :: k <= i < |index| ==> key.LessThan(index[i].range)
  {
    forall i | k <= i < |index| ensures key.LessThan(index[i].range) {
      if i > k { assert index[k].range.LessThan(index[i].range); }
    }
  }

  lemma ThreeParts(index: seq<Stoppoint>, first: nat, k: nat, asid: Word, start: Word, end: Word)
    requires first <= k <= |index|
    requires Starting(index[..first], asid, start, end) == [] && Starting(index[k..], asid, start, end) == []
    ensures Starting(index, asid, start, end) == Starting(index[first..k], asid, start, end)
  {
    hide Starting;
    StartingSplit(index, first, asid, start, end);
    StartingSplit(index[first..], k - first, asid, start, end);
    TwoCuts(index, first, k);
    assert [] + Starting(index[first..k], asid, start, end) == Starting(index[first..k], asid, start, end);
  }

  lemma TwoCuts(index: seq<Stoppoint>, first: nat, k: nat)
    requires first <= k <= |index|
    ensures index[first..][..k - first] == index[first..k]
    ensures index[first..][k - first..] == index[k..]
  {
  }

  lemma {:induction false} AllStarting(index: seq<Stoppoint>, asid: Word, start: Word, end: Word)
    requires forall i :: 0 <= i < |index| ==> index[i].range.asid == asid && start <= index[i].range.start <= end
    ensures Starting(index, asid, start, end) == index
  {
    if index != [] { AllStarting(index[1..], asid, start, end); }
  }

  lemma {:induction false} StartingSplit(index: seq<Stoppoint>, k: nat, asid: Word, start: Word, end: Word)
    requires k <= |index|
    ensures Starting(index, asid, start, end) == Starting(index[..k], asid, start, end) + Starting(index[k..], asid, start, end)
  {
    if k == 0 {
      assert index[..0] == [] && index[0..] == index;
    } else {
      StartingSplit(index[1..], k - 1, asid, start, end);
      assert index[1..][..k - 1] == index[..k][1..] && index[1..][k - 1..] == index[k..];
    }
  }

  lemma {:induction false} NoneStarting(index: seq<Stoppoint>, asid: Word, start: Word, end: Word)
    requires forall i :: 0 <= i < |index| ==> !(index[i].range.asid == asid && start <= index[i].range.start <= end)
    ensures Starting(index, asid, start, end) == []
  {
    if index != [] { NoneStarting(index[1..], asid, start, end); }
  }

  /** The list and its index hold the same points, so the index's points are disjoint too. */
  lemma IndexIsDisjoint(points: seq<Stoppoint>, index: seq<Stoppoint>)
    requires Disjoint(points) && SamePoints(points, index) && InOrder(index)
    ensures Disjoint(index)
  {
    forall i | 0 <= i < |index|
      ensures index[i].range.Ok()
    {
      assert index[i] in points;
    }
    forall i, j | 0 <= i < j < |index|
      ensures !index[i].range.Overlaps(index[j].range)
    {
      assert index[i] in points && index[j] in points;
      assert index[i].range.LessThan(index[j].range);
    }
  }

  ghost predicate Indexed(points: seq<Stoppoint>, index: seq<Stoppoint>) {
    Disjoint(points) && InOrder(index) && SamePoints(points, index)
  }

  /** Adding a point clear of the others, at its lower bound in the index, keeps list and index matched. */
  lemma InsertKeeps(points: seq<Stoppoint>, index: seq<Stoppoint>, p: Stoppoint)
    requires Indexed(points, index) && p.range.Ok()
    requires forall q :: q in points ==> !q.range.Overlaps(p.range)
    ensures var k := LowerBound(index, p.range.asid, p.range.start);
      Indexed(points + [p], index[..k] + [p] + index[k..])
  {
    var k := LowerBound(index, p.range.asid, p.range.start);
    var r := index[..k] + [p] + index[k..];
    AfterLowerBound(index, p.range.asid, p.range.start);
    forall i | 0 <= i < |index|
      ensures if i < k then index[i].range.LessThan(p.range) else p.range.LessThan(index[i].range)
    {
      assert index[i] in points;
    }
    hide LowerBound;
    assert InOrder(r);
    forall q | q in points + [p]
      ensures q in r
    {
      if q != p { assert q in index; assert q in index[..k] || q in index[k..]; }
    }
    forall q | q in r
      ensures q in points + [p]
    {
      if q != p { assert q in index; }
    }
  }

  /** A listed point stands in the index at the lower bound of its own key, and nowhere else. */
  lemma PlaceInIndex(points: seq<Stoppoint>, index: seq<Stoppoint>, p: Stoppoint)
    requires Indexed(points, index) && p in points
    ensures var k := LowerBound(index, p.range.asid, p.range.start);
      k < |index| && index[k] == p && p !in index[..k] && p !in index[k + 1..]
  {
    var i :| 0 <= i < |index| && index[i] == p;
    AfterLowerBound(index, p.range.asid, p.range.start);
    assert forall j :: 0 <= j < i ==> index[j].range.LessThan(p.range);
    assert forall j :: i < j < |index| ==> p.range.LessThan(index[j].range);
  }

  lemma Without<T>(s: seq<T>, n: nat)
    requires n < |s| && s[n] !in s[..n] && s[n] !in s[n + 1..]
    ensures forall q :: q in s[..n] + s[n + 1..] <==> q in s && q != s[n]
  {
    assert s == s[..n] + [s[n]] + s[n + 1..];
  }

  lemma WithoutKeepsDisjoint(points: seq<Stoppoint>, n: nat)
    requires Disjoint(points) && n < |points|
    ensures Disjoint(points[..n] + points[n + 1..])
    ensures points[n] !in points[..n] && points[n] !in points[n + 1..]
  {
    forall i | 0 <= i < |points| && i != n
      ensures points[i] != points[n]
    {
      assert if i < n then !points[i].range.Overlaps(points[n].range) else !points[n].range.Overlaps(points[i].range);
    }
  }

  lemma RemoveKeeps(points: seq<Stoppoint>, index: seq<Stoppoint>, n: nat)
    requires Indexed(points, index) && n < |points|
    ensures var k := LowerBound(index, points[n].range.asid, points[n].range.start);
      k < |index| && index[k] == points[n] && Indexed(points[..n] + points[n + 1..], index[..k] + index[k + 1..])
  {
    PlaceInIndex(points, index, points[n]);
    var k := LowerBound(index, points[n].range.asid, points[n].range.start);
    hide LowerBound;
    WithoutKeepsDisjoint(points, n);
    Without(points, n);
    Without(index, k);
    hide Disjoint;
    var rest, r := points[..n] + points[n + 1..], index[..k] + index[k + 1..];
    assert InOrder(r);
    forall q | q in rest
      ensures q in r
    {
      assert q in points && q in index;
    }
    forall q | q in r
      ensures q in rest
    {
      assert q in index && q in points;
    }
  }
}
