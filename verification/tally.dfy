/** Sums of weights over a sequence, and sizes of sets. */
module Tally {

  function Total<T>(xs: seq<T>, weigh: T -> int): int {
    if xs == [] then 0 else Total(xs[..|xs| - 1], weigh) + weigh(xs[|xs| - 1])
  }

  lemma TotalAppend<T>(xs: seq<T>, x: T, weigh: T -> int)
    ensures Total(xs + [x], weigh) == Total(xs, weigh) + weigh(x)
  {
    assert (xs + [x])[..|xs|] == xs;
  }

  lemma {:induction false} TotalUpdate<T>(xs: seq<T>, i: nat, x: T, weigh: T -> int)
    requires i < |xs|
    ensures Total(xs[i := x], weigh) == Total(xs, weigh) - weigh(xs[i]) + weigh(x)
  {
    var n := |xs| - 1;
    if i < n {
      assert xs[i := x][..n] == xs[..n][i := x];
      TotalUpdate(xs[..n], i, x, weigh);
    } else {
      assert xs[i := x][..n] == xs[..n];
    }
  }

  lemma {:induction false} TotalBounds<T>(xs: seq<T>, weigh: T -> int, cap: int)
    requires forall x :: x in xs ==> 0 <= weigh(x) <= cap
    ensures 0 <= Total(xs, weigh) <= cap * |xs|
  {
    if xs != [] {
      TotalBounds(xs[..|xs| - 1], weigh, cap);
      assert cap * |xs| == cap * (|xs| - 1) + cap;
    }
  }

  /** If no weight exceeds 1 and some weight is 0, the total is less than the length. */
  lemma {:induction false} TotalBelow<T>(xs: seq<T>, weigh: T -> int, i: nat)
    requires i < |xs| && weigh(xs[i]) == 0
    requires forall x :: x in xs ==> 0 <= weigh(x) <= 1
    ensures Total(xs, weigh) < |xs|
  {
    var n := |xs| - 1;
    if i < n {
      TotalBelow(xs[..n], weigh, i);
    } else {
      TotalBounds(xs[..n], weigh, 1);
    }
  }

  lemma {:induction false} TotalConstant<T>(xs: seq<T>, weigh: T -> int, w: int)
    requires forall x :: x in xs ==> weigh(x) == w
    ensures Total(xs, weigh) == w * |xs|
  {
    if xs != [] {
      TotalConstant(xs[..|xs| - 1], weigh, w);
      assert w * |xs| == w * (|xs| - 1) + w;
    }
  }

  lemma {:induction false} SubsetSmaller<T>(a: set<T>, b: set<T>)
    requires a <= b
    ensures |a| <= |b|
  {
    if x :| x in a {
      SubsetSmaller(a - {x}, b - {x});
    }
  }
}
