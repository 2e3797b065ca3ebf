/** Sequences without repeated elements. */
module Distinct {

  ghost predicate NoRepeats<T>(xs: seq<T>) {
    forall i, j | 0 <= i < j < |xs| :: xs[i] != xs[j]
  }

  /** They have no more elements than the sets they are drawn from. */
  lemma {:induction false} DistinctFit<T>(xs: seq<T>, s: set<T>)
    requires NoRepeats(xs) && forall x | x in xs :: x in s
    ensures |xs| <= |s|
  {
    if xs != [] {
      var x, rest := xs[|xs| - 1], xs[..|xs| - 1];
      assert forall y | y in rest :: y in s - {x};
      DistinctFit(rest, s - {x});
    }
  }

  lemma {:induction false} CountDistinct<T>(xs: seq<T>, x: T)
    requires NoRepeats(xs)
    ensures multiset(xs)[x] == if x in xs then 1 else 0
  {
    if xs != [] {
      var rest, last := xs[..|xs| - 1], xs[|xs| - 1];
      CountDistinct(rest, x);
      assert xs == rest + [last];
    }
  }

  /** A set drawn from a sequence is no larger than it. */
  lemma {:induction false} CoveredBy<T>(s: set<T>, xs: seq<T>)
    requires forall x | x in s :: x in xs
    ensures |s| <= |xs|
  {
    if xs != [] {
      var n := |xs| - 1;
      CoveredBy(s - {xs[n]}, xs[..n]);
    }
  }

  lemma SmallerSet<T>(s: set<T>, t: set<T>, x: T)
    requires (forall y | y in s :: y in t) && x in t && x !in s
    ensures |s| < |t|
  {
    var rest := t - {x};
    assert rest == s + (rest - s);
  }

  /** The numbers below `n`. */
  ghost function Below(n: nat): (s: set<nat>)
    ensures |s| == n && forall i: nat :: i in s <==> i < n
  {
    if n == 0 then {} else Below(n - 1) + {n - 1}
  }
}
