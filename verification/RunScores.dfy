/**
 The summary of repeated runs (eval/eval_high_tasks_sglang.py:682-709): pass@k averaged over samples, and
 accuracy averaged over runs, are two ways of counting the same matrix of scores.
 */
module RunScores {
  import opened Wrappers
  import opened Binomials
  import opened Fractions
  import opened PassAtK
  import opened Sums

  /** One row a run, one column a sample. */
  type Scores = seq<seq<bool>>

  ghost predicate Matrix(m: Scores, samples: nat) {
    forall r :: 0 <= r < |m| ==> |m[r]| == samples
  }

  function Bit(b: bool): nat { if b then 1 else 0 }

  function Correct(row: seq<bool>): nat {
    if |row| == 0 then 0 else Correct(row[..|row| - 1]) + Bit(row[|row| - 1])
  }

  /** How many runs got sample i right. */
  function Column(m: Scores, samples: nat, i: nat): (c: nat)
    requires Matrix(m, samples) && i < samples
    ensures c <= |m|
  {
    if |m| == 0 then 0 else Column(m[..|m| - 1], samples, i) + Bit(m[|m| - 1][i])
  }

  function Columns(m: Scores, samples: nat): (c: seq<nat>)
    requires Matrix(m, samples)
    ensures |c| == samples && forall i :: 0 <= i < samples ==> c[i] == Column(m, samples, i)
  {
    seq(samples, i requires 0 <= i < samples => Column(m, samples, i))
  }

  // ---- rounding ----

  /** round(x, 6): to a multiple of 10^-6, ties to even. */
  function Round6(x: real): (r: real)
    ensures -0.0000005 <= r - x <= 0.0000005
    ensures r == (r * 1000000.0).Floor as real / 1000000.0
    ensures r - x == 0.0000005 || x - r == 0.0000005 ==> (r * 1000000.0).Floor % 2 == 0
  {
    var y := x * 1000000.0;
    var low := y.Floor;
    var rest := y - low as real;
    var n := if rest < 0.5 then low else if rest > 0.5 then low + 1 else if low % 2 == 0 then low else low + 1;
    n as real / 1000000.0
  }

  // ---- the code ----

  function Accuracy(row: seq<bool>): real {
    if |row| == 0 then 0.0 else Correct(row) as real / |row| as real
  }

  /** correct_counts: the runs are added up row by row. */
  method CorrectCounts(m: Scores, samples: nat) returns (counts: seq<nat>)
    requires Matrix(m, samples)
    ensures counts == Columns(m, samples)
  {
    counts := seq(samples, i => 0);
    for r := 0 to |m|
      invariant Matrix(m[..r], samples)
      invariant counts == Columns(m[..r], samples)
    {
      assert m[..r + 1][..r] == m[..r];
      ghost var before := counts;
      for i := 0 to samples
        invariant |counts| == samples
        invariant forall q :: 0 <= q < i ==> counts[q] == before[q] + Bit(m[r][q])
        invariant forall q :: i <= q < samples ==> counts[q] == before[q]
      {
        counts := counts[i := counts[i] + Bit(m[r][i])];
      }
    }
    assert m[..|m|] == m;
  }

  /** The per-sample estimates, before averaging. */
  function Rates(m: Scores, samples: nat, k: nat): (r: seq<real>)
    requires Matrix(m, samples) && k <= |m|
    ensures |r| == samples
  {
    seq(samples, i requires 0 <= i < samples => PassRate(|m|, Column(m, samples, i), k))
  }

  function MeanRate(m: Scores, samples: nat, k: nat): real
    requires Matrix(m, samples) && k <= |m|
  {
    if samples == 0 then 0.0 else Mean(Rates(m, samples, k))
  }

  method ComputeDatasetPassAtK(m: Scores, samples: nat) returns (result: map<nat, Option<real>>)
    requires Matrix(m, samples)
    ensures forall k :: k in result <==> k in PASS_K_VALUES
    ensures forall k :: k in result ==>
                          result[k] == if k > |m| then None
                                       else if samples == 0 then Some(0.0)
                                       else Some(Round6(MeanRate(m, samples, k)))
  {
    result := map[];
    var counts := CorrectCounts(m, samples);
    for j := 0 to |PASS_K_VALUES|
      invariant forall k :: k in result <==> k in PASS_K_VALUES[..j]
      invariant forall k :: k in result ==>
                              result[k] == if k > |m| then None
                                           else if samples == 0 then Some(0.0)
                                           else Some(Round6(MeanRate(m, samples, k)))
    {
      var k := PASS_K_VALUES[j];
      assert PASS_K_VALUES[..j + 1] == PASS_K_VALUES[..j] + [k];
      if |m| == 0 || k > |m| {
        result := result[k := None];
      } else {
        var values: seq<real> := [];
        for i := 0 to samples
          invariant values == Rates(m, samples, k)[..i]
        {
          var v := EstimatePassAtK(|m|, counts[i], k);
          values := values + [v.value];
        }
        assert values == Rates(m, samples, k);
        result := result[k := Some(if samples == 0 then 0.0 else Round6(Mean(values)))];
      }
    }
    assert PASS_K_VALUES[..|PASS_K_VALUES|] == PASS_K_VALUES;
  }

  // ---- what is counted ----

  function Right(row: seq<bool>): set<nat> {
    set i: nat | i < |row| && row[i]
  }

  lemma RightStep(row: seq<bool>)
    requires |row| > 0
    ensures |Right(row)| == |Right(row[..|row| - 1])| + Bit(row[|row| - 1])
  {
    var n := |row| - 1;
    var before := Right(row[..n]);
    assert n !in before;
    if row[n] {
      assert Right(row) == before + {n};
    } else {
      assert Right(row) == before;
    }
  }

  lemma {:induction false} CorrectIsRight(row: seq<bool>)
    ensures Correct(row) == |Right(row)|
  {
    if |row| > 0 {
      CorrectIsRight(row[..|row| - 1]);
      RightStep(row);
    }
  }

  lemma CorrectIsCount(row: seq<bool>)
    ensures Correct(row) == |set i: nat | i < |row| && row[i]|
  {
    CorrectIsRight(row);
    assert Right(row) == set i: nat | i < |row| && row[i];
  }

  function ColumnOf(m: Scores, samples: nat, i: nat): (r: seq<bool>)
    requires Matrix(m, samples) && i < samples
    ensures |r| == |m|
  {
    seq(|m|, r requires 0 <= r < |m| => m[r][i])
  }

  lemma {:induction false} ColumnIsCorrect(m: Scores, samples: nat, i: nat)
    requires Matrix(m, samples) && i < samples
    ensures Column(m, samples, i) == Correct(ColumnOf(m, samples, i))
  {
    if |m| > 0 {
      ColumnIsCorrect(m[..|m| - 1], samples, i);
      assert ColumnOf(m, samples, i)[..|m| - 1] == ColumnOf(m[..|m| - 1], samples, i);
    }
  }

  /** A sample's count is the number of runs that got it right. */
  lemma ColumnIsCount(m: Scores, samples: nat, i: nat)
    requires Matrix(m, samples) && i < samples
    ensures Column(m, samples, i) == |set r: nat | r < |m| && m[r][i]|
  {
    var column := ColumnOf(m, samples, i);
    ColumnIsCorrect(m, samples, i);
    CorrectIsCount(column);
    assert (set r: nat | r < |column| && column[r]) == set r: nat | r < |m| && m[r][i];
  }

  // ---- double counting ----

  lemma {:induction false} ColumnsOfMore(m: Scores, row: seq<bool>, samples: nat, n: nat)
    requires Matrix(m, samples) && |row| == samples && n <= samples
    ensures Matrix(m + [row], samples)
    ensures Sum(Columns(m + [row], samples)[..n]) == Sum(Columns(m, samples)[..n]) + Correct(row[..n])
  {
    var a, b := Columns(m + [row], samples), Columns(m, samples);
    if n > 0 {
      ColumnsOfMore(m, row, samples, n - 1);
      assert a[..n][..n - 1] == a[..n - 1] && b[..n][..n - 1] == b[..n - 1] && row[..n][..n - 1] == row[..n - 1];
      assert (m + [row])[..|m|] == m;
    }
  }

  function Corrects(m: Scores): (r: seq<nat>)
    ensures |r| == |m|
  {
    seq(|m|, r requires 0 <= r < |m| => Correct(m[r]))
  }

  /** The correct answers counted by sample and counted by run are the same number. */
  lemma {:induction false} DoubleCount(m: Scores, samples: nat)
    requires Matrix(m, samples)
    ensures Sum(Columns(m, samples)) == Sum(Corrects(m))
  {
    if |m| == 0 {
      ZeroSum(Columns(m, samples));
    } else {
      var init, row := m[..|m| - 1], m[|m| - 1];
      DoubleCount(init, samples);
      assert init + [row] == m;
      ColumnsOfMore(init, row, samples, samples);
      assert Columns(m, samples)[..samples] == Columns(m, samples);
      assert Columns(init, samples)[..samples] == Columns(init, samples) && row[..samples] == row;
      assert Corrects(m)[..|m| - 1] == Corrects(init);
    }
  }

  lemma {:induction false} BinomOne(n: nat)
    ensures Binom(n, 1) == n
  {
    if n > 0 {
      BinomOne(n - 1);
    }
  }

  lemma PassAtOne(n: nat, c: nat)
    requires c <= n && n > 0
    ensures PassRate(n, c, 1) == c as real / n as real
  {
    BinomOne(n);
    BinomOne(n - c);
    ShareStep(c, n - c, n);
  }

  lemma {:induction false} SumScaled(xs: seq<real>, ns: seq<nat>, d: real)
    requires d > 0.0 && |xs| == |ns|
    requires forall i :: 0 <= i < |xs| ==> xs[i] == ns[i] as real / d
    ensures SumR(xs) == Sum(ns) as real / d
  {
    if |xs| > 0 {
      var n := |xs| - 1;
      SumScaled(xs[..n], ns[..n], d);
      AddFractions(Sum(ns[..n]) as real, ns[n] as real, d);
    }
  }

  function Accuracies(m: Scores): (r: seq<real>)
    ensures |r| == |m|
  {
    seq(|m|, r requires 0 <= r < |m| => Accuracy(m[r]))
  }

  /** Mean pass@1 over the samples is mean accuracy over the runs. */
  lemma PassAtOneIsMeanAccuracy(m: Scores, samples: nat)
    requires Matrix(m, samples) && |m| > 0
    ensures MeanRate(m, samples, 1) == Mean(Accuracies(m))
  {
    if samples == 0 {
      ZeroSumR(Accuracies(m));
    } else {
      forall i | 0 <= i < samples
        ensures Rates(m, samples, 1)[i] == Columns(m, samples)[i] as real / |m| as real
      {
        PassAtOne(|m|, Column(m, samples, i));
      }
      SumScaled(Rates(m, samples, 1), Columns(m, samples), |m| as real);
      SumScaled(Accuracies(m), Corrects(m), samples as real);
      DoubleCount(m, samples);
      SwapDivisions(Sum(Corrects(m)) as real, |m| as real, samples as real);
    }
  }

  // ---- with the code's rounding ----

  /** The stored accuracies are rounded before they are averaged. */
  function StoredAccuracies(m: Scores): (r: seq<real>)
    ensures |r| == |m|
  {
    seq(|m|, r requires 0 <= r < |m| => Round6(Accuracy(m[r])))
  }

  lemma {:induction false} SumsClose(xs: seq<real>, ys: seq<real>, eps: real)
    requires |xs| == |ys|
    requires forall i :: 0 <= i < |xs| ==> -eps <= xs[i] - ys[i] <= eps
    ensures -(eps * |xs| as real) <= SumR(xs) - SumR(ys) <= eps * |xs| as real
  {
    if |xs| > 0 {
      var n := |xs| - 1;
      SumsClose(xs[..n], ys[..n], eps);
      OneMore(eps, |xs|);
      CloseStep(SumR(xs[..n]), SumR(ys[..n]), xs[n], ys[n], eps * n as real, eps);
    }
  }

  lemma CloseStep(a: real, b: real, x: real, y: real, e: real, eps: real)
    requires -e <= a - b <= e && -eps <= x - y <= eps
    ensures -(e + eps) <= (a + x) - (b + y) <= e + eps
  {
  }

  lemma MeansClose(xs: seq<real>, ys: seq<real>, eps: real)
    requires |xs| == |ys| > 0 && eps >= 0.0
    requires forall i :: 0 <= i < |xs| ==> -eps <= xs[i] - ys[i] <= eps
    ensures -eps <= Mean(xs) - Mean(ys) <= eps
  {
    SumsClose(xs, ys, eps);
    var n := |xs| as real;
    AddFractions(SumR(xs) - SumR(ys), SumR(ys), n);
    Bounded(SumR(xs) - SumR(ys), n, eps);
  }

  /** The reported mean accuracy and the reported pass@1 differ by at most 1.5e-6. */
  lemma ReportsAgree(m: Scores, samples: nat)
    requires Matrix(m, samples) && |m| > 0
    ensures -0.0000015 <= Round6(Mean(StoredAccuracies(m))) - Round6(MeanRate(m, samples, 1)) <= 0.0000015
  {
    PassAtOneIsMeanAccuracy(m, samples);
    MeansClose(StoredAccuracies(m), Accuracies(m), 0.0000005);
  }
}
