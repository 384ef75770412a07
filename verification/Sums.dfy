/** Sums over a sequence of processes, used to count how many are in a phase. */
module Sums {
  function Sum<T>(xs: seq<T>, weight: T -> int): int {
    if xs == [] then 0 else Sum(xs[..|xs| - 1], weight) + weight(xs[|xs| - 1])
  }

  lemma {:induction false} SumUpdate<T>(xs: seq<T>, i: nat, x: T, weight: T -> int)
    requires i < |xs|
    ensures Sum(xs[i := x], weight) == Sum(xs, weight) - weight(xs[i]) + weight(x)
  {
    var n := |xs| - 1;
    if i < n {
      SumUpdate(xs[..n], i, x, weight);
      assert xs[i := x][..n] == xs[..n][i := x];
    } else {
      assert xs[i := x][..n] == xs[..n];
    }
  }

  lemma SumAppend<T>(xs: seq<T>, x: T, weight: T -> int)
    ensures Sum(xs + [x], weight) == Sum(xs, weight) + weight(x)
  {
    assert (xs + [x])[..|xs|] == xs;
  }

  lemma {:induction false} SumLess<T>(xs: seq<T>, light: T -> int, heavy: T -> int)
    requires forall x :: x in xs ==> light(x) <= heavy(x)
    ensures Sum(xs, light) <= Sum(xs, heavy)
  {
    if xs != [] {
      SumLess(xs[..|xs| - 1], light, heavy);
    }
  }

  lemma {:induction false} SumOfSums<T>(xs: seq<T>, total: T -> int, left: T -> int, right: T -> int)
    requires forall x :: x in xs ==> total(x) == left(x) + right(x)
    ensures Sum(xs, total) == Sum(xs, left) + Sum(xs, right)
  {
    if xs != [] {
      SumOfSums(xs[..|xs| - 1], total, left, right);
    }
  }

  /** A sum of non-negative weights bounds each of them. */
  lemma {:induction false} SumBounds<T>(xs: seq<T>, i: nat, weight: T -> int)
    requires i < |xs| && forall x :: x in xs ==> weight(x) >= 0
    ensures 0 <= weight(xs[i]) <= Sum(xs, weight)
  {
    var n := |xs| - 1;
    SumNonNegative(xs[..n], weight);
    if i < n {
      SumBounds(xs[..n], i, weight);
    }
  }

  lemma {:induction false} SumNonNegative<T>(xs: seq<T>, weight: T -> int)
    requires forall x :: x in xs ==> weight(x) >= 0
    ensures Sum(xs, weight) >= 0
  {
    if xs != [] {
      SumNonNegative(xs[..|xs| - 1], weight);
    }
  }

  lemma {:induction false} SumConstant<T>(xs: seq<T>, weight: T -> int, c: int)
    requires forall x :: x in xs ==> weight(x) == c
    ensures Sum(xs, weight) == |xs| * c
  {
    if xs != [] {
      SumConstant(xs[..|xs| - 1], weight, c);
    }
  }
}
