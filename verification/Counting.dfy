/** Finite counting: `n` distinct numbers below `n` are all of them. */
module Counting {

  function Upto(n: nat): (s: set<nat>)
    ensures |s| == n
    ensures forall x: nat :: x in s <==> x < n
  {
    if n == 0 then {} else Upto(n - 1) + {n - 1}
  }

  lemma {:induction false} SubsetSize<T>(a: set<T>, b: set<T>)
    requires a <= b
    ensures |a| <= |b|
  {
    if a != {} {
      var x :| x in a;
      SubsetSize(a - {x}, b - {x});
    }
  }

  predicate Distinct<T(==)>(s: seq<T>) {
    forall i, j :: 0 <= i < j < |s| ==> s[i] != s[j]
  }

  lemma {:induction false} DistinctSize<T>(s: seq<T>)
    requires Distinct(s)
    ensures |set x | x in s| == |s|
  {
    if s != [] {
      var front := s[..|s| - 1];
      DistinctSize(front);
      assert (set x | x in s) == (set x | x in front) + {s[|s| - 1]};
    }
  }

  lemma DistinctFill(s: seq<nat>, i: nat)
    requires Distinct(s) && (forall x :: x in s ==> x < |s|) && i < |s|
    ensures i in s
  {
    var members := set x | x in s;
    DistinctSize(s);
    if i !in s {
      assert members <= Upto(|s|) - {i};
      SubsetSize(members, Upto(|s|) - {i});
    }
  }
}
