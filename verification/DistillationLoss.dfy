/**
 What the distillation loss of Stage 2 computes (src/modeling/modeling_stage2.py:26-77): its value in terms of the
 logits, where it vanishes, how low it can get, and what the temperature does.  The sparse loss has the same values
 by SparseLossRefinesDense.
 */
module DistillationLoss {
  import opened SparseDistillation
  import opened Sums
  import opened Wrappers

  // ---- the temperature ----

  /** Logits multiplied by a number, and divided by one. */
  function Times(z: Row, x: real): (r: Row)
    ensures |r| == |z|
  {
    seq(|z|, v requires 0 <= v < |z| => z[v] * x)
  }

  function Over(z: Row, x: real): (r: Row)
    requires x != 0.0
    ensures |r| == |z|
  {
    seq(|z|, v requires 0 <= v < |z| => z[v] / x)
  }

  function Scaled(logits: seq<Row>, x: real): (r: seq<Row>)
    ensures |r| == |logits|
  {
    seq(|logits|, t requires 0 <= t < |logits| => Times(logits[t], x))
  }

  lemma MulDiv(x: real, y: real)
    requires y != 0.0
    ensures x * y / y == x
  {
  }

  /** Tempering divides; at temperature 1 it changes nothing. */
  lemma TemperedIs(z: Row, temperature: real)
    requires temperature != 0.0
    ensures Tempered(z, temperature) == Over(z, temperature)
    ensures Tempered(Times(z, temperature), temperature) == z
  {
    forall v | 0 <= v < |z|
      ensures Over(Times(z, temperature), temperature)[v] == z[v]
    {
      MulDiv(z[v], temperature);
    }
  }

  lemma Square(x: real, loss: real)
    ensures ScaledBack(loss, x) == Product(x * x, ScaledBack(loss, 1.0)) && ScaledBack(0.0, x) == 0.0
  {
  }

  lemma SameTokens(o: Ops, logits: seq<Row>, targets: seq<Row>, temperature: real, eps: real)
    requires temperature != 0.0 && Rows(logits, targets, eps)
    ensures Rows(Scaled(logits, temperature), targets, eps)
    ensures DensePerToken(o, Scaled(logits, temperature), targets, temperature, eps) == DensePerToken(o, logits, targets, 1.0, eps)
  {
    var scaled := Scaled(logits, temperature);
    forall t | 0 <= t < |logits|
      ensures DenseKlOfToken(o, scaled[t], targets[t], temperature, eps) == DenseKlOfToken(o, logits[t], targets[t], 1.0, eps)
    {
      TemperedIs(logits[t], temperature);
    }
  }

  /** Logits that are T times as large, at temperature T, give T squared times the loss. */
  lemma TemperatureScales(o: Ops, logits: seq<Row>, targets: seq<Row>, mask: Option<seq<bool>>, temperature: real, eps: real)
    requires temperature != 0.0 && |logits| > 0 && Rows(logits, targets, eps)
    requires mask.Some? ==> |mask.value| == |logits|
    ensures Rows(Scaled(logits, temperature), targets, eps)
    ensures KdKlLoss(o, Scaled(logits, temperature), targets, mask, temperature, eps)
            == Product(temperature * temperature, KdKlLoss(o, logits, targets, mask, 1.0, eps))
  {
    SameTokens(o, logits, targets, temperature, eps);
    Square(temperature, Averaged(DensePerToken(o, logits, targets, 1.0, eps), mask));
  }

  // ---- the value ----

  function Exps(o: Ops, z: Row): (r: Row)
    ensures |r| == |z|
  {
    seq(|z|, v requires 0 <= v < |z| => o.exp(z[v]))
  }

  lemma LogSoftmaxAt(o: Ops, z: Row, v: nat)
    requires v < |z|
    ensures LogSoftmax(o, z)[v] == z[v] - o.log(SumR(Exps(o, z)))
  {
    assert seq(|z|, u requires 0 <= u < |z| => o.exp(z[u])) == Exps(o, z);
  }

  /** The terms of the entropy of q, clamped below at eps, and of the product of q with z. */
  function Entropies(o: Ops, q: Row, eps: real): (r: Row)
    ensures |r| == |q|
  {
    seq(|q|, v requires 0 <= v < |q| => Product(q[v], o.log(if q[v] < eps then eps else q[v])))
  }

  function Products(q: Row, z: Row): (r: Row)
    requires |q| == |z|
    ensures |r| == |q|
  {
    seq(|q|, v requires 0 <= v < |q| => Product(q[v], z[v]))
  }

  lemma {:induction false} SumOfThree(xs: Row, a: Row, b: Row, q: Row, norm: real)
    requires |xs| == |a| == |b| == |q|
    requires forall v :: 0 <= v < |xs| ==> xs[v] == a[v] - b[v] + Product(q[v], norm)
    ensures SumR(xs) == SumR(a) - SumR(b) + Product(SumR(q), norm)
  {
    if |xs| > 0 {
      var n := |xs| - 1;
      SumOfThree(xs[..n], a[..n], b[..n], q[..n], norm);
      ProductSplits(SumR(q[..n]), q[n], norm);
    } else {
      ProductSplits(0.0, 0.0, norm);
    }
  }

  lemma EntryParts(o: Ops, q: real, logp: real, z: real, norm: real, eps: real)
    requires logp == z - norm
    ensures DenseEntry(o, q, logp, eps) == Product(q, o.log(if q < eps then eps else q)) - Product(q, z) + Product(q, norm)
  {
    var a := o.log(if q < eps then eps else q);
    assert q * (a - (z - norm)) == q * a - q * (z - norm);
  }

  /** The terms of the divergence of one token. */
  function Entries(o: Ops, q: Row, logp: Row, eps: real): (r: Row)
    requires |q| == |logp|
    ensures |r| == |q| && DenseKl(o, q, logp, eps) == SumR(r)
  {
    seq(|q|, v requires 0 <= v < |q| => DenseEntry(o, q[v], logp[v], eps))
  }

  lemma KlParts(o: Ops, q: Row, z: Row, eps: real)
    requires |q| == |z|
    ensures DenseKl(o, q, LogSoftmax(o, z), eps)
            == SumR(Entropies(o, q, eps)) - SumR(Products(q, z)) + Product(SumR(q), o.log(SumR(Exps(o, z))))
  {
    var xs, norm := Entries(o, q, LogSoftmax(o, z), eps), o.log(SumR(Exps(o, z)));
    forall v | 0 <= v < |q|
      ensures xs[v] == Entropies(o, q, eps)[v] - Products(q, z)[v] + Product(q[v], norm)
    {
      LogSoftmaxAt(o, z, v);
      EntryParts(o, q[v], LogSoftmax(o, z)[v], z[v], norm, eps);
    }
    SumOfThree(xs, Entropies(o, q, eps), Products(q, z), q, norm);
  }

  /**
   The divergence of one token: negative entropy, minus the product with the tempered logits, plus the log of
   the sum of their exps.
   */
  lemma DivergenceIs(o: Ops, logits: Row, target: Row, temperature: real, eps: real)
    requires temperature != 0.0 && |target| == |logits| && SumR(target) + eps != 0.0
    ensures var q, z := Over(target, SumR(target) + eps), Over(logits, temperature);
            DenseKlOfToken(o, logits, target, temperature, eps)
            == SumR(Entropies(o, q, eps)) - SumR(Products(q, z)) + SumR(q) * o.log(SumR(Exps(o, z)))
  {
    TemperedIs(logits, temperature);
    assert Normalized(target, eps) == Over(target, SumR(target) + eps);
    KlParts(o, Normalized(target, eps), Tempered(logits, temperature), eps);
  }

  /** Without a mask: T squared times the mean over the tokens. */
  lemma LossIsMean(o: Ops, logits: seq<Row>, targets: seq<Row>, temperature: real, eps: real)
    requires temperature != 0.0 && |logits| > 0 && Rows(logits, targets, eps)
    ensures Product(KdKlLoss(o, logits, targets, None, temperature, eps), |logits| as real)
            == Product(temperature * temperature, SumR(DensePerToken(o, logits, targets, temperature, eps)))
  {
    BackFromMean(SumR(DensePerToken(o, logits, targets, temperature, eps)), |logits| as real, temperature);
  }

  lemma BackFromMean(sum: real, n: real, temperature: real)
    requires n != 0.0
    ensures Product(ScaledBack(sum / n, temperature), n) == Product(temperature * temperature, sum)
  {
    var mean, factor := sum / n, temperature * temperature;
    assert mean * n == sum;
    assert mean * factor * n == factor * (mean * n);
  }

  /** The entries that a mask leaves valid, in order. */
  function Chosen<T>(xs: seq<T>, m: seq<bool>): (r: seq<T>)
    requires |xs| == |m|
    ensures |r| <= |xs|
  {
    if |xs| == 0 then []
    else
      var n := |xs| - 1;
      Chosen(xs[..n], m[..n]) + if m[n] then [xs[n]] else []
  }

  lemma {:induction false} ChosenTokens(o: Ops, logits: seq<Row>, targets: seq<Row>, m: seq<bool>, temperature: real, eps: real)
    requires temperature != 0.0 && Rows(logits, targets, eps) && |m| == |logits|
    ensures |Chosen(targets, m)| == |Chosen(logits, m)| && Rows(Chosen(logits, m), Chosen(targets, m), eps)
    ensures DensePerToken(o, Chosen(logits, m), Chosen(targets, m), temperature, eps)
            == Chosen(DensePerToken(o, logits, targets, temperature, eps), m)
  {
    if |logits| > 0 {
      var n := |logits| - 1;
      ChosenTokens(o, logits[..n], targets[..n], m[..n], temperature, eps);
      assert DensePerToken(o, logits, targets, temperature, eps)[..n] == DensePerToken(o, logits[..n], targets[..n], temperature, eps);
    }
  }

  lemma {:induction false} ChosenSums(kl: Row, m: seq<bool>)
    requires |kl| == |m|
    ensures SumR(Masked(kl, m)) == SumR(Chosen(kl, m))
    ensures SumR(Weights(m)) == |Chosen(kl, m)| as real
  {
    if |kl| > 0 {
      var n := |kl| - 1;
      ChosenSums(kl[..n], m[..n]);
      MaskedFront(kl, m, n);
      LastChosen(Chosen(kl[..n], m[..n]), kl[n], m[n]);
    }
  }

  lemma MaskedFront(kl: Row, m: seq<bool>, n: nat)
    requires |kl| == |m| && n <= |kl|
    ensures Masked(kl, m)[..n] == Masked(kl[..n], m[..n]) && Weights(m)[..n] == Weights(m[..n])
  {
    forall t | 0 <= t < n
      ensures Masked(kl, m)[t] == Masked(kl[..n], m[..n])[t] && Weights(m)[t] == Weights(m[..n])[t]
    {
    }
  }

  lemma LastChosen(front: Row, x: real, valid: bool)
    ensures SumR(front + if valid then [x] else []) == SumR(front) + x * Weight(valid)
    ensures |front + if valid then [x] else []| as real == |front| as real + Weight(valid)
  {
    if valid {
      assert (front + [x])[..|front|] == front;
    } else {
      assert front + [] == front;
    }
  }

  /** With a mask: the loss over the valid tokens alone, and zero when there is none. */
  lemma MaskSelects(o: Ops, logits: seq<Row>, targets: seq<Row>, m: seq<bool>, temperature: real, eps: real)
    requires temperature != 0.0 && |logits| > 0 && Rows(logits, targets, eps) && |m| == |logits|
    ensures |Chosen(targets, m)| == |Chosen(logits, m)| && Rows(Chosen(logits, m), Chosen(targets, m), eps)
    ensures KdKlLoss(o, logits, targets, Some(m), temperature, eps)
            == if Chosen(logits, m) == [] then 0.0
               else KdKlLoss(o, Chosen(logits, m), Chosen(targets, m), None, temperature, eps)
  {
    var kl := DensePerToken(o, logits, targets, temperature, eps);
    ChosenTokens(o, logits, targets, m, temperature, eps);
    ChosenSums(kl, m);
    AverageOfChosen(kl, m);
    Square(temperature, 0.0);
  }

  lemma AverageOfChosen(kl: Row, m: seq<bool>)
    requires |kl| == |m| > 0
    requires SumR(Masked(kl, m)) == SumR(Chosen(kl, m)) && SumR(Weights(m)) == |Chosen(kl, m)| as real
    ensures Averaged(kl, Some(m)) == if Chosen(kl, m) == [] then 0.0 else Averaged(Chosen(kl, m), None)
  {
    if Chosen(kl, m) != [] {
      assert |Chosen(kl, m)| as real >= 1.0;
    }
  }

  // ---- where it vanishes ----

  ghost predicate ExpAt(o: Ops, x: real) {
    o.exp(x) > 0.0 && o.log(o.exp(x)) == x
  }

  ghost predicate LogOfQuotient(o: Ops, a: real, b: real)
    requires b != 0.0
  {
    o.log(a / b) == o.log(a) - o.log(b)
  }

  /** exp and log as far as the results below need them. */
  ghost predicate ExpLog(o: Ops) {
    && (forall x :: ExpAt(o, x))
    && (forall a, b :: a > 0.0 && b > 0.0 ==> LogOfQuotient(o, a, b))
  }

  lemma {:induction false} SumPositive(xs: Row)
    requires |xs| > 0 && forall v :: 0 <= v < |xs| ==> xs[v] > 0.0
    ensures SumR(xs) > 0.0
  {
    if |xs| > 1 {
      SumPositive(xs[..|xs| - 1]);
    }
  }

  lemma ExpsPositive(o: Ops, z: Row)
    requires ExpLog(o) && |z| > 0
    ensures SumR(Exps(o, z)) > 0.0
  {
    forall v | 0 <= v < |z|
      ensures Exps(o, z)[v] > 0.0
    {
      assert ExpAt(o, z[v]);
    }
    SumPositive(Exps(o, z));
  }

  /** The teacher's normalised probabilities are the softmax of the tempered logits, and no less than eps. */
  ghost predicate Matched(o: Ops, logits: Row, target: Row, temperature: real, eps: real)
    requires temperature != 0.0 && |target| == |logits| && SumR(target) + eps != 0.0
  {
    var q, z := Over(target, SumR(target) + eps), Over(logits, temperature);
    forall v :: 0 <= v < |q| ==> Product(q[v], SumR(Exps(o, z))) == o.exp(z[v]) && q[v] >= eps
  }

  /** A matched entry adds nothing. */
  lemma MatchedEntry(o: Ops, q: real, z: real, total: real, eps: real)
    requires ExpLog(o) && total > 0.0 && Product(q, total) == o.exp(z) && q >= eps
    ensures DenseEntry(o, q, z - o.log(total), eps) == 0.0
  {
    assert ExpAt(o, z) && LogOfQuotient(o, o.exp(z), total);
    MulDiv(q, total);
    assert o.exp(z) / total == q;
  }

  lemma PerfectToken(o: Ops, logits: Row, target: Row, temperature: real, eps: real)
    requires temperature != 0.0 && |target| == |logits| && SumR(target) + eps != 0.0 && ExpLog(o)
    requires Matched(o, logits, target, temperature, eps)
    ensures DenseKlOfToken(o, logits, target, temperature, eps) == 0.0
  {
    var q, z := Over(target, SumR(target) + eps), Over(logits, temperature);
    TemperedIs(logits, temperature);
    assert Normalized(target, eps) == q;
    var xs := Entries(o, q, LogSoftmax(o, z), eps);
    forall v | 0 <= v < |q|
      ensures xs[v] == 0.0
    {
      ExpsPositive(o, z);
      LogSoftmaxAt(o, z, v);
      MatchedEntry(o, q[v], z[v], SumR(Exps(o, z)), eps);
    }
    ZeroSumR(xs);
  }

  lemma ZeroAverage(kl: Row, mask: Option<seq<bool>>)
    requires |kl| > 0 && (mask.Some? ==> |mask.value| == |kl|)
    requires forall t :: 0 <= t < |kl| ==> kl[t] == 0.0
    ensures Averaged(kl, mask) == 0.0
  {
    ZeroSumR(kl);
    if mask.Some? {
      ZeroSumR(Masked(kl, mask.value));
    }
  }

  /** A student that matches the teacher on every token has loss zero, with any mask. */
  lemma PerfectStudent(o: Ops, logits: seq<Row>, targets: seq<Row>, mask: Option<seq<bool>>, temperature: real, eps: real)
    requires temperature != 0.0 && |logits| > 0 && Rows(logits, targets, eps) && ExpLog(o)
    requires mask.Some? ==> |mask.value| == |logits|
    requires forall t :: 0 <= t < |logits| ==> Matched(o, logits[t], targets[t], temperature, eps)
    ensures KdKlLoss(o, logits, targets, mask, temperature, eps) == 0.0
  {
    var kl := DensePerToken(o, logits, targets, temperature, eps);
    forall t | 0 <= t < |kl|
      ensures kl[t] == 0.0
    {
      PerfectToken(o, logits[t], targets[t], temperature, eps);
    }
    ZeroAverage(kl, mask);
    Square(temperature, 0.0);
  }

  // ---- how low it can get ----

  ghost predicate LogBelowAt(o: Ops, a: real) {
    o.log(a) <= a - 1.0
  }

  ghost predicate LogBelow(o: Ops) {
    forall a :: a > 0.0 ==> LogBelowAt(o, a)
  }

  lemma QuotientAdds(a: real, b: real, d: real)
    requires d != 0.0
    ensures (a + b) / d == a / d + b / d && 0.0 / d == 0.0
  {
  }

  lemma {:induction false} SumOver(xs: Row, d: real)
    requires d != 0.0
    ensures SumR(Over(xs, d)) == SumR(xs) / d
  {
    if |xs| > 0 {
      var n := |xs| - 1;
      SumOver(xs[..n], d);
      assert Over(xs, d)[..n] == Over(xs[..n], d);
      QuotientAdds(SumR(xs[..n]), xs[n], d);
    } else {
      QuotientAdds(0.0, 0.0, d);
    }
  }

  lemma {:induction false} SumAtLeast(xs: Row, q: Row, p: Row)
    requires |xs| == |q| == |p| && forall v :: 0 <= v < |xs| ==> xs[v] >= q[v] - p[v]
    ensures SumR(xs) >= SumR(q) - SumR(p)
  {
    if |xs| > 0 {
      var n := |xs| - 1;
      SumAtLeast(xs[..n], q[..n], p[..n]);
    }
  }

  lemma {:induction false} SumNonnegative(xs: Row)
    requires forall v :: 0 <= v < |xs| ==> xs[v] >= 0.0
    ensures SumR(xs) >= 0.0
  {
    if |xs| > 0 {
      SumNonnegative(xs[..|xs| - 1]);
    }
  }

  lemma Ratio(p: real, m: real)
    requires p > 0.0 && m > 0.0
    ensures p / m > 0.0 && p / m * m == p
  {
  }

  lemma NonnegativeProduct(x: real, y: real)
    requires x >= 0.0 && y >= 0.0
    ensures x * y >= 0.0
  {
  }

  lemma BoundProduct(q: real, a: real, m: real, r: real, p: real)
    requires 0.0 <= q <= m && r > 0.0 && r * m == p && a >= 1.0 - r
    ensures q * a >= q - p
  {
    NonnegativeProduct(q, a - (1.0 - r));
    NonnegativeProduct(m - q, r);
    assert q * (a - (1.0 - r)) == q * a - q + q * r;
    assert (m - q) * r == m * r - q * r;
  }

  /** q * (log m - log p) >= q - p for m >= q >= 0. */
  lemma EntryAtLeast(o: Ops, q: real, m: real, p: real)
    requires ExpLog(o) && LogBelow(o)
    requires 0.0 <= q <= m && m > 0.0 && p > 0.0
    ensures q * (o.log(m) - o.log(p)) >= q - p
  {
    Ratio(p, m);
    assert LogOfQuotient(o, p, m) && LogBelowAt(o, p / m);
    BoundProduct(q, o.log(m) - o.log(p), m, p / m, p);
  }

  lemma TokenEntry(o: Ops, q: real, z: real, total: real, eps: real)
    requires ExpLog(o) && LogBelow(o) && q >= 0.0 && eps > 0.0 && total > 0.0
    ensures DenseEntry(o, q, z - o.log(total), eps) >= q - o.exp(z) / total
  {
    assert ExpAt(o, z) && LogOfQuotient(o, o.exp(z), total);
    Ratio(o.exp(z), total);
    EntryAtLeast(o, q, MaxReal(q, eps), o.exp(z) / total);
  }

  lemma EpsTakes(s: real, eps: real)
    requires s + eps > 0.0
    ensures s / (s + eps) - 1.0 == -(eps / (s + eps))
  {
    QuotientAdds(s, eps, s + eps);
    SelfQuotient(s + eps);
  }

  lemma SelfQuotient(x: real)
    requires x != 0.0
    ensures x / x == 1.0
  {
  }

  lemma OverNonnegative(xs: Row, d: real)
    requires d > 0.0 && forall v :: 0 <= v < |xs| ==> xs[v] >= 0.0
    ensures forall v :: 0 <= v < |xs| ==> Over(xs, d)[v] >= 0.0
  {
  }

  /** The divergence of a token is not negative, up to what eps takes from the teacher's probabilities. */
  lemma AlmostNonnegative(o: Ops, logits: Row, target: Row, temperature: real, eps: real)
    requires temperature != 0.0 && |target| == |logits| > 0 && eps > 0.0
    requires ExpLog(o) && LogBelow(o) && forall v :: 0 <= v < |target| ==> target[v] >= 0.0
    ensures SumR(target) >= 0.0
    ensures DenseKlOfToken(o, logits, target, temperature, eps) >= -(eps / (SumR(target) + eps))
  {
    SumNonnegative(target);
    OverNonnegative(target, SumR(target) + eps);
    var q, z := Over(target, SumR(target) + eps), Over(logits, temperature);
    TemperedIs(logits, temperature);
    assert Normalized(target, eps) == q;
    ExpsPositive(o, z);
    SumOver(target, SumR(target) + eps);
    EpsTakes(SumR(target), eps);
    KlAtLeast(o, q, z, eps);
  }

  lemma KlAtLeast(o: Ops, q: Row, z: Row, eps: real)
    requires |q| == |z| > 0 && eps > 0.0 && ExpLog(o) && LogBelow(o)
    requires forall v :: 0 <= v < |q| ==> q[v] >= 0.0
    ensures DenseKl(o, q, LogSoftmax(o, z), eps) >= SumR(q) - 1.0
  {
    ExpsPositive(o, z);
    var p := Over(Exps(o, z), SumR(Exps(o, z)));
    forall v | 0 <= v < |q|
      ensures Entries(o, q, LogSoftmax(o, z), eps)[v] >= q[v] - p[v]
    {
      EntryBound(o, q, z, eps, v);
    }
    SumAtLeast(Entries(o, q, LogSoftmax(o, z), eps), q, p);
    SumOver(Exps(o, z), SumR(Exps(o, z)));
    SelfQuotient(SumR(Exps(o, z)));
  }

  lemma EntryBound(o: Ops, q: Row, z: Row, eps: real, v: nat)
    requires |q| == |z| && v < |q| && eps > 0.0 && ExpLog(o) && LogBelow(o) && q[v] >= 0.0 && SumR(Exps(o, z)) > 0.0
    ensures Entries(o, q, LogSoftmax(o, z), eps)[v] >= q[v] - Over(Exps(o, z), SumR(Exps(o, z)))[v]
  {
    LogSoftmaxAt(o, z, v);
    TokenEntry(o, q[v], z[v], SumR(Exps(o, z)), eps);
  }
}
