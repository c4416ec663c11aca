/** Sums of a weight over the positions of a sequence, and how they change. */
module Sums {

  function Sum<T>(f: (int, T) -> int, xs: seq<T>): int {
    if xs == [] then 0 else Sum(f, xs[..|xs| - 1]) + f(|xs| - 1, xs[|xs| - 1])
  }

  lemma {:induction false} SumCongruent<T>(f: (int, T) -> int, g: (int, T) -> int, a: seq<T>, b: seq<T>)
    requires |a| == |b|
    requires forall i :: 0 <= i < |a| ==> f(i, a[i]) == g(i, b[i])
    ensures Sum(f, a) == Sum(g, b)
  {
    if a != [] {
      SumCongruent(f, g, a[..|a| - 1], b[..|b| - 1]);
    }
  }

  /** The sum moves exactly as the one position that moved. */
  lemma {:induction false} SumOneChange<T>(f: (int, T) -> int, a: seq<T>, b: seq<T>, k: nat)
    requires k < |a| == |b|
    requires forall i :: 0 <= i < |a| && i != k ==> f(i, a[i]) == f(i, b[i])
    ensures Sum(f, b) - Sum(f, a) == f(k, b[k]) - f(k, a[k])
  {
    var n := |a| - 1;
    if k == n {
      SumCongruent(f, f, a[..n], b[..n]);
    } else {
      SumOneChange(f, a[..n], b[..n], k);
    }
  }

  /** A pointwise difference sums to the difference. */
  lemma {:induction false} SumSplit<T>(f: (int, T) -> int, h: (int, T) -> int, a: seq<T>, b: seq<T>)
    requires |a| == |b|
    requires forall i :: 0 <= i < |a| ==> f(i, a[i]) == f(i, b[i]) + h(i, a[i])
    ensures Sum(f, a) == Sum(f, b) + Sum(h, a)
  {
    if a != [] {
      SumSplit(f, h, a[..|a| - 1], b[..|b| - 1]);
    }
  }

  /** Writes of one party laid over the concurrent writes of others: both changes add up. */
  lemma {:induction false} SumMerge<T>(f: (int, T) -> int, base: seq<T>, cur: seq<T>, after: seq<T>, merged: seq<T>)
    requires |base| == |cur| == |after| == |merged|
    requires forall i :: 0 <= i < |base| ==>
      || (after[i] == base[i] && merged[i] == cur[i])
      || (cur[i] == base[i] && merged[i] == after[i])
    ensures Sum(f, merged) - Sum(f, cur) == Sum(f, after) - Sum(f, base)
  {
    if base != [] {
      var n := |base| - 1;
      SumMerge(f, base[..n], cur[..n], after[..n], merged[..n]);
    }
  }

  lemma {:induction false} SumNonNegative<T>(f: (int, T) -> int, a: seq<T>)
    requires forall i :: 0 <= i < |a| ==> f(i, a[i]) >= 0
    ensures Sum(f, a) >= 0
    ensures forall i :: 0 <= i < |a| ==> Sum(f, a) >= f(i, a[i])
  {
    if a != [] {
      SumNonNegative(f, a[..|a| - 1]);
      forall i | 0 <= i < |a| ensures Sum(f, a) >= f(i, a[i]) {
        if i < |a| - 1 {
          assert a[..|a| - 1][i] == a[i];
        }
      }
    }
  }

  /** A sum of non-negative weights is zero exactly when every weight is. */
  lemma {:induction false} SumZero<T>(f: (int, T) -> int, a: seq<T>)
    requires forall i :: 0 <= i < |a| ==> f(i, a[i]) >= 0
    ensures Sum(f, a) == 0 <==> forall i :: 0 <= i < |a| ==> f(i, a[i]) == 0
  {
    SumNonNegative(f, a);
    if forall i :: 0 <= i < |a| ==> f(i, a[i]) == 0 {
      SumAllZero(f, a);
    }
  }

  lemma {:induction false} SumAllZero<T>(f: (int, T) -> int, a: seq<T>)
    requires forall i :: 0 <= i < |a| ==> f(i, a[i]) == 0
    ensures Sum(f, a) == 0
  {
    if a != [] {
      SumAllZero(f, a[..|a| - 1]);
    }
  }

  /** Pointwise smaller weights with the same total are equal everywhere. */
  lemma {:induction false} SumMonotone<T>(f: (int, T) -> int, a: seq<T>, b: seq<T>)
    requires |a| == |b|
    requires forall i :: 0 <= i < |a| ==> f(i, b[i]) <= f(i, a[i])
    ensures Sum(f, b) <= Sum(f, a)
    ensures Sum(f, b) == Sum(f, a) ==> forall i :: 0 <= i < |a| ==> f(i, b[i]) == f(i, a[i])
  {
    if a != [] {
      var n := |a| - 1;
      SumMonotone(f, a[..n], b[..n]);
      if Sum(f, b) == Sum(f, a) {
        forall i | 0 <= i < |a| ensures f(i, b[i]) == f(i, a[i]) {
          if i < n {
            assert a[..n][i] == a[i] && b[..n][i] == b[i];
          }
        }
      }
    }
  }
}
