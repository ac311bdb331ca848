/** Sums and means of lists. */
module Sums {

  function Sum(xs: seq<nat>): nat {
    if |xs| == 0 then 0 else Sum(xs[..|xs| - 1]) + xs[|xs| - 1]
  }

  function SumR(xs: seq<real>): real {
    if |xs| == 0 then 0.0 else SumR(xs[..|xs| - 1]) + xs[|xs| - 1]
  }

  function Mean(xs: seq<real>): real
    requires |xs| > 0
  {
    SumR(xs) / |xs| as real
  }

  lemma {:induction false} ZeroSum(xs: seq<nat>)
    requires forall i :: 0 <= i < |xs| ==> xs[i] == 0
    ensures Sum(xs) == 0
  {
    if |xs| > 0 {
      ZeroSum(xs[..|xs| - 1]);
    }
  }

  lemma {:induction false} ZeroSumR(xs: seq<real>)
    requires forall i :: 0 <= i < |xs| ==> xs[i] == 0.0
    ensures SumR(xs) == 0.0
  {
    if |xs| > 0 {
      ZeroSumR(xs[..|xs| - 1]);
    }
  }

  lemma {:induction false} SumUpdate(xs: seq<nat>, i: nat, x: nat)
    requires i < |xs|
    ensures Sum(xs[i := x]) == Sum(xs) - xs[i] + x
  {
    var n := |xs| - 1;
    if i < n {
      SumUpdate(xs[..n], i, x);
      assert xs[i := x][..n] == xs[..n][i := x];
    } else {
      assert xs[i := x][..n] == xs[..n];
    }
  }

  lemma {:induction false} SumUpdateR(xs: seq<real>, i: nat, x: real)
    requires i < |xs|
    ensures SumR(xs[i := x]) == SumR(xs) - xs[i] + x
  {
    var n := |xs| - 1;
    if i < n {
      SumUpdateR(xs[..n], i, x);
      assert xs[i := x][..n] == xs[..n][i := x];
    } else {
      assert xs[i := x][..n] == xs[..n];
    }
  }
}
