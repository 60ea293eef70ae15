/** Counting facts about finite sets of processor numbers. */
module Finite {

  /** The numbers below `n`. */
  ghost function Below(n: nat): (s: set<nat>)
    ensures |s| == n
    ensures forall i: nat :: i in s <==> i < n
  {
    if n == 0 then {} else Below(n - 1) + {n - 1}
  }

  lemma {:induction false} SubsetCount<T>(a: set<T>, b: set<T>)
    requires a <= b
    ensures |a| <= |b|
  {
    if a != {} {
      var x :| x in a;
      SubsetCount(a - {x}, b - {x});
    }
  }

  ghost function Elements<T>(s: seq<T>): set<T> { set x | x in s }

  /** A sequence without repetitions has as many elements as its set. */
  lemma {:induction false} DistinctCount<T>(s: seq<T>)
    requires forall i, j | 0 <= i < j < |s| :: s[i] != s[j]
    ensures |Elements(s)| == |s|
  {
    if s != [] {
      var k := |s| - 1;
      DistinctCount(s[..k]);
      assert s == s[..k] + [s[k]];
      assert Elements(s) == Elements(s[..k]) + {s[k]};
    }
  }

  lemma Missing<T>(a: set<T>, b: set<T>) returns (x: T)
    requires a <= b && a != b
    ensures x in b && x !in a
  {
    assert !(b <= a);
    x :| x in b && x !in a;
  }

  ghost predicate EachOnce<T>(s: seq<T>, of: set<T>) {
    && (forall i, j | 0 <= i < j < |s| :: s[i] != s[j])
    && Elements(s) == of
  }

  lemma EachOnceMore<T>(x: T, s: seq<T>, of: set<T>)
    requires EachOnce(s, of) && x !in of
    ensures EachOnce([x] + s, {x} + of)
  {
    assert Elements([x] + s) == {x} + Elements(s);
    forall j | 0 <= j < |s| ensures s[j] != x { assert s[j] in Elements(s); }
  }

  lemma SplitOff<T>(all: set<T>, done: set<T>, x: T)
    requires x in all && x !in done
    ensures all - done == {x} + (all - (done + {x})) && x !in all - (done + {x})
  {
  }

  /** The sequence takes the elements of `all` not yet in `done`, one at a time, until none is left. */
  ghost predicate TakesRest<T>(s: seq<T>, done: set<T>, all: set<T>)
    decreases |s|
  {
    if s == [] then done == all
    else s[0] in all && s[0] !in done && TakesRest(s[1..], done + {s[0]}, all)
  }

  lemma TakesRestMore<T>(x: T, s: seq<T>, done: set<T>, all: set<T>)
    requires x in all && x !in done && TakesRest(s, done + {x}, all)
    ensures TakesRest([x] + s, done, all)
  {
    assert ([x] + s)[1..] == s;
  }

  lemma {:induction false} TakesRestOnce<T>(s: seq<T>, done: set<T>, all: set<T>)
    requires TakesRest(s, done, all)
    ensures EachOnce(s, all - done)
    decreases |s|
  {
    if s == [] {
      assert all - done == {};
    } else {
      TakesRestOnce(s[1..], done + {s[0]}, all);
      SplitOff(all, done, s[0]);
      EachOnceMore(s[0], s[1..], all - (done + {s[0]}));
      assert s == [s[0]] + s[1..];
    }
  }
}
