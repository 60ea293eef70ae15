/** The stoppoint set object of stoppoint.cc. The ordered map is a sequence kept sorted by key. */
module StoppointSets {
  import opened Words
  import opened Stoppoints

  class StoppointSet {
    var points: seq<Stoppoint>
    var addressMap: seq<Stoppoint>

    ghost predicate Valid()
      reads this
    {
      Indexed(points, addressMap)
    }

    constructor ()
      ensures Valid() && points == []
    {
      points, addressMap := [], [];
    }

    method Find(asid: Word, addr: Word) returns (p: Stoppoint?)
      requires Valid()
      ensures p != null ==> p in points && p.range.asid == asid && p.range.start == addr
      ensures p == null ==> forall q :: q in points ==> !(q.range.asid == asid && q.range.start == addr)
    {
      var k := LowerBound(addressMap, asid, addr);
      AfterLowerBound(addressMap, asid, addr);
      if k < |addressMap| && !AddressRange(asid, addr, addr).LessThan(addressMap[k].range) {
        return addressMap[k];
      } else {
        forall q | q in points
          ensures !(q.range.asid == asid && q.range.start == addr)
        {
          assert q in addressMap;
          var i :| 0 <= i < |addressMap| && addressMap[i] == q;
          assert k < i ==> addressMap[k].range.LessThan(q.range);
        }
        return null;
      }
    }

    method CanInsert(range: AddressRange) returns (ok: bool)
      ensures ok <==> forall p :: p in points ==> !p.range.Overlaps(range)
    {
      for i := 0 to |points|
        invariant forall j :: 0 <= j < i ==> !points[j].range.Overlaps(range)
      {
        if points[i].range.Overlaps(range) { return false; }
      }
      return true;
    }

    method NextFreeId() returns (id: Word)
      ensures id == NextId(points)
    {
      id := 0;
      for i := 0 to |points|
        invariant id == NextId(points[..i])
      {
        id := Max(id, (points[i].id + 1) % TWO32);
        assert points[..i + 1][..i] == points[..i];
      }
      assert points[..|points|] == points;
    }

    /** With an explicit id; the set may still choose a higher one. */
    method AddWithId(range: AddressRange, mode: AccessMode, id: Word, enabled: bool) returns (ok: bool)
      requires Valid() && range.Ok()
      modifies this
      ensures Valid()
      ensures ok <==> forall p :: p in old(points) ==> !p.range.Overlaps(range)
      ensures !ok ==> points == old(points) && addressMap == old(addressMap)
      ensures ok ==> |points| == |old(points)| + 1 && points[..|old(points)|] == old(points)
      ensures ok ==> var p := points[|old(points)|];
        fresh(p) && p.range == range && p.enabled == enabled && p.accessMode == mode && p.id == Max(id, NextId(old(points)))
      ensures ok && old(IdsIncrease(points)) ==>
        (IdsIncrease(points) <==> forall i :: 0 <= i < |old(points)| ==> old(points)[i].id != MAX_WORD)
    {
      ok := CanInsert(range);
      if ok {
        var next := NextFreeId();
        var p := new Stoppoint(Max(id, next), range, mode);
        p.enabled := enabled;
        InsertKeeps(points, addressMap, p);
        if IdsIncrease(points) { NewIdKeepsOrder(points, p, id); }
        var k := LowerBound(addressMap, range.asid, range.start);
        points := points + [p];
        addressMap := addressMap[..k] + [p] + addressMap[k..];
      }
    }

    method Add(range: AddressRange, mode: AccessMode) returns (ok: bool)
      requires Valid() && range.Ok()
      modifies this
      ensures Valid()
      ensures ok <==> forall p :: p in old(points) ==> !p.range.Overlaps(range)
      ensures !ok ==> points == old(points)
      ensures ok ==> |points| == |old(points)| + 1 && points[..|old(points)|] == old(points)
      ensures ok ==> var p := points[|old(points)|];
        fresh(p) && p.range == range && p.enabled && p.accessMode == mode && p.id == NextId(old(points))
    {
      var id := NextFreeId();
      ok := AddWithId(range, mode, id, true);
    }

    method Remove(n: nat)
      requires Valid() && n < |points|
      modifies this
      ensures Valid() && points == old(points[..n] + points[n + 1..])
      ensures old(IdsIncrease(points)) ==> IdsIncrease(points)
    {
      var p := points[n];
      RemoveKeeps(points, addressMap, n);
      var k := LowerBound(addressMap, p.range.asid, p.range.start);
      addressMap := addressMap[..k] + addressMap[k + 1..];
      points := points[..n] + points[n + 1..];
    }

    method Clear()
      modifies this
      ensures Valid() && points == []
    {
      addressMap := [];
      points := [];
    }

    method SetEnabled(n: nat, setting: bool)
      requires n < |points|
      modifies points[n]
      ensures points[n].enabled == setting && points[n].accessMode == old(points[n].accessMode)
    {
      if points[n].enabled != setting { points[n].enabled := setting; }
    }

    /** The predecessor lookup finds the one enabled point that contains the address and shares the mode. */
    method Probe(asid: Word, addr: Word, mode: AccessMode) returns (hit: Stoppoint?)
      requires Valid()
      ensures hit != null ==> hit in points && hit.Matches(asid, addr, mode)
      ensures forall p :: p in points && p.Matches(asid, addr, mode) ==> p == hit
    {
      if points == [] { return null; }
      IndexIsDisjoint(points, addressMap);
      var k := LowerBound(addressMap, asid, addr);
      if k == |addressMap| || (AddressRange(asid, addr, addr).LessThan(addressMap[k].range) && k != 0) {
        k := k - 1;
      }
      var p := addressMap[k];
      forall q | q in points && q.range.Contains(asid, addr)
        ensures q == p
      {
        assert q in addressMap;
        var i :| 0 <= i < |addressMap| && addressMap[i] == q;
        OnlyTheCandidate(addressMap, asid, addr, i);
      }
      if p.Matches(asid, addr, mode) { return p; } else { return null; }
    }

    /** The points of one address space starting in [start, end]: all of them, and in index order. */
    method GetStoppointsInRange(asid: Word, start: Word, end: Word) returns (out: seq<Stoppoint>)
      requires Valid()
      ensures out == Starting(addressMap, asid, start, end)
      ensures InOrder(out)
      ensures forall p :: p in out <==> p in points && p.range.asid == asid && start <= p.range.start <= end
    {
      var k := LowerBound(addressMap, asid, start);
      AfterLowerBound(addressMap, asid, start);
      out := [];
      ghost var first := k;
      hide LowerBound, SamePoints, Disjoint, InOrder, Starting;
      var last := AddressRange(asid, end, end);
      while k < |addressMap| && (addressMap[k].range.LessThan(last) || !last.LessThan(addressMap[k].range))
        invariant first <= k <= |addressMap|
        invariant out == addressMap[first..k]
        invariant forall i :: first <= i < k ==> !last.LessThan(addressMap[i].range)
      {
        out := out + [addressMap[k]];
        k := k + 1;
      }
      StartingSlice(addressMap, first, k, asid, start, end);
      hide *;
      StartingInPoints(points, addressMap, asid, start, end);
    }
  }
}
