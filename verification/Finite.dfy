/** Counting arguments on sets of indices. */
module Finite {

  function Below(n: nat): (r: set<nat>)
    ensures forall i: nat :: i in r <==> i < n
    ensures |r| == n
  {
    if n == 0 then {} else Below(n - 1) + {n - 1}
  }

  lemma {:induction false} SubsetSize<T>(a: set<T>, b: set<T>)
    requires a <= b
    ensures |a| <= |b|
    ensures |a| == |b| ==> a == b
    decreases |b|
  {
    if a != b {
      var x :| x in b && x !in a;
      assert a <= b - {x};
      SubsetSize(a, b - {x});
    }
  }

  ghost predicate Distinct<T>(s: seq<T>) {
    forall i, j :: 0 <= i < j < |s| ==> s[i] != s[j]
  }

  lemma {:induction false} DistinctSize<T>(s: seq<T>)
    requires Distinct(s)
    ensures |set x | x in s| == |s|
    decreases |s|
  {
    if s != [] {
      var last := |s| - 1;
      DistinctSize(s[..last]);
      assert (set x | x in s) == (set x | x in s[..last]) + {s[last]};
    }
  }

  /** The indices below `n`, each once, in some order. */
  ghost predicate Perm(s: seq<nat>, n: nat) {
    |s| == n && Distinct(s) && forall k :: 0 <= k < n ==> s[k] < n
  }

  lemma PermOnto(s: seq<nat>, n: nat)
    requires Perm(s, n)
    ensures forall i: nat :: i < n ==> i in s
  {
    var seen := set x | x in s;
    DistinctSize(s);
    SubsetSize(seen, Below(n));
    forall i: nat | i < n ensures i in s { assert i in seen; }
  }
}
