/** Sums of a natural-valued measure over a sequence: counters and termination measures
    of the two transition systems are stated with it. */
module Totals {

  function Total<T>(xs: seq<T>, f: T -> nat): nat {
    if xs == [] then 0 else Total(xs[..|xs| - 1], f) + f(xs[|xs| - 1])
  }

  lemma {:induction false} TotalAppend<T>(xs: seq<T>, x: T, f: T -> nat)
    ensures Total(xs + [x], f) == Total(xs, f) + f(x)
  {
    assert (xs + [x])[..|xs|] == xs;
  }

  lemma {:induction false} TotalUpdate<T>(xs: seq<T>, i: nat, x: T, f: T -> nat)
    requires i < |xs|
    ensures Total(xs[i := x], f) + f(xs[i]) == Total(xs, f) + f(x)
  {
    var last := |xs| - 1;
    if i == last {
      assert xs[i := x][..last] == xs[..last];
    } else {
      assert xs[i := x][..last] == xs[..last][i := x];
      TotalUpdate(xs[..last], i, x, f);
    }
  }

  /** A single element never exceeds the sum. */
  lemma {:induction false} TotalAtLeast<T>(xs: seq<T>, i: nat, f: T -> nat)
    requires i < |xs|
    ensures f(xs[i]) <= Total(xs, f)
  {
    if i < |xs| - 1 {
      TotalAtLeast(xs[..|xs| - 1], i, f);
    }
  }

  /** Two distinct elements together never exceed the sum. */
  lemma {:induction false} TotalAtLeastTwo<T>(xs: seq<T>, i: nat, j: nat, f: T -> nat)
    requires i < j < |xs|
    ensures f(xs[i]) + f(xs[j]) <= Total(xs, f)
  {
    if j < |xs| - 1 {
      TotalAtLeastTwo(xs[..|xs| - 1], i, j, f);
    } else {
      TotalAtLeast(xs[..|xs| - 1], i, f);
    }
  }

  /** A positive sum has a positive element. */
  lemma {:induction false} TotalWitness<T>(xs: seq<T>, f: T -> nat) returns (i: nat)
    requires Total(xs, f) > 0
    ensures i < |xs| && f(xs[i]) > 0
  {
    var last := |xs| - 1;
    if f(xs[last]) > 0 {
      i := last;
    } else {
      i := TotalWitness(xs[..last], f);
    }
  }

  /** Pointwise addition of measures adds the sums. */
  lemma {:induction false} TotalSplit<T>(xs: seq<T>, f: T -> nat, g: T -> nat, h: T -> nat)
    requires forall i :: 0 <= i < |xs| ==> f(xs[i]) == g(xs[i]) + h(xs[i])
    ensures Total(xs, f) == Total(xs, g) + Total(xs, h)
  {
    if xs != [] {
      TotalSplit(xs[..|xs| - 1], f, g, h);
    }
  }
}
