/**
 pass@k (eval/eval_high_tasks_sglang.py:671-709), over exact real numbers: the product loop, what it
 means, and how it relates to accuracy.
 */
module PassAtK {
  import DivMod
  import opened Wrappers
  import opened Binomials
  import opened Fractions

  const PASS_K_VALUES: seq<nat> := [1, 4, 8, 16, 32, 64]

  /** 1 - C(n - c, k) / C(n, k) */
  function PassRate(n: nat, c: nat, k: nat): real
    requires c <= n && k <= n
  {
    BinomPositive(n, k);
    1.0 - Binom(n - c, k) as real / Binom(n, k) as real
  }

  lemma FactorStep(product: real, b: real, b': real, target: real, v: real, k: real)
    requires v > 0.0 && product * b == target
    requires b' * (v - k) == v * b
    ensures product * (1.0 - k / v) * b' == target
  {
    var g := 1.0 - k / v;
    DivMul(k, v);
    assert g * v == v - k;
    assert (g * b') * v == (g * v) * b';
    Cancel(g * b', b, v);
    assert product * g * b' == product * (g * b');
  }

  ghost function BinomR(n: nat, k: nat): real {
    Binom(n, k) as real
  }

  lemma CastEquation(b: int, a: int, v: int, k: int)
    requires b * (v - k) == v * a
    ensures b as real * (v as real - k as real) == v as real * a as real
  {
    CastMul(b, v - k);
    CastMul(v, a);
    assert (v - k) as real == v as real - k as real;
  }

  lemma BinomRStep(v: nat, k: nat)
    requires v >= 1
    ensures BinomR(v, k) * (v as real - k as real) == v as real * BinomR(v - 1, k)
  {
    Absorb(v, k);
    CastEquation(Binom(v, k), Binom(v - 1, k), v, k);
  }

  lemma ProductStep(product: real, low: nat, value: nat, k: nat)
    requires value >= 1 && product * BinomR(value - 1, k) == BinomR(low, k)
    ensures product * (1.0 - k as real / value as real) * BinomR(value, k) == BinomR(low, k)
  {
    BinomRStep(value, k);
    FactorStep(product, BinomR(value - 1, k), BinomR(value, k), BinomR(low, k), value as real, k as real);
  }

  /** The product of (1 - k / v) for v from low + 1 to high is C(low, k) / C(high, k). */
  method Product(low: nat, high: nat, k: nat) returns (product: real)
    requires low <= high
    ensures product * BinomR(high, k) == BinomR(low, k)
  {
    product := 1.0;
    for value := low + 1 to high + 1
      invariant product * BinomR(value - 1, k) == BinomR(low, k)
    {
      ProductStep(product, low, value, k);
      product := product * (1.0 - k as real / value as real);
    }
  }

  /** None when there are fewer than k runs; otherwise exactly the closed form, early return included. */
  method EstimatePassAtK(numSamples: nat, numCorrect: nat, k: nat) returns (r: Option<real>)
    requires numCorrect <= numSamples
    ensures r == if k <= numSamples then Some(PassRate(numSamples, numCorrect, k)) else None
  {
    if numSamples < k {
      return None;
    }
    BinomPositive(numSamples, k);
    BinomPositive(numSamples - numCorrect, k);
    if numSamples - numCorrect < k {
      Quotient(0.0, BinomR(numSamples, k), 0.0);
      return Some(1.0);
    }
    var product := Product(numSamples - numCorrect, numSamples, k);
    Quotient(product, BinomR(numSamples, k), BinomR(numSamples - numCorrect, k));
    r := Some(1.0 - product);
  }

  // ---- what the number means ----

  /** The k-element selections of runs that contain a correct one. */
  ghost function Hits<T>(runs: set<T>, correct: set<T>, k: nat): set<set<T>> {
    set t | t in Subsets(runs, k) && t * correct != {}
  }

  /** pass@k is the share of the k-element selections of runs in which some run is correct. */
  lemma PassRateIsShareOfSelections<T>(runs: set<T>, correct: set<T>, k: nat)
    requires correct <= runs && k <= |runs|
    ensures |correct| <= |runs| && |Subsets(runs, k)| > 0
    ensures PassRate(|runs|, |correct|, k) == |Hits(runs, correct, k)| as real / |Subsets(runs, k)| as real
  {
    var wrong := runs - correct;
    assert runs == wrong + correct;
    SubsetsCount(runs, k);
    SubsetsCount(wrong, k);
    BinomPositive(|runs|, k);
    HitsAndMisses(runs, correct, k);
    ShareStep(|Hits(runs, correct, k)|, |Subsets(wrong, k)|, |Subsets(runs, k)|);
  }

  lemma HitsAndMisses<T>(runs: set<T>, correct: set<T>, k: nat)
    requires correct <= runs
    ensures |Hits(runs, correct, k)| + |Subsets(runs - correct, k)| == |Subsets(runs, k)|
  {
    var misses := Subsets(runs - correct, k);
    assert Subsets(runs, k) == Hits(runs, correct, k) + misses;
    assert Hits(runs, correct, k) !! misses;
  }

  lemma ShareStep(h: nat, w: nat, n: nat)
    requires n > 0 && h + w == n
    ensures 1.0 - w as real / n as real == h as real / n as real
  {
    var r := n as real;
    AddFractions(h as real, w as real, r);
    Quotient(1.0, r, r);
  }

  lemma RatioMonotone(a: nat, b: nat, c: nat, d: nat)
    requires b > 0 && d > 0 && a * d <= c * b
    ensures a as real / b as real <= c as real / d as real
  {
    CastMul(a, d);
    CastMul(c, b);
    RatioLe(a as real, b as real, c as real, d as real);
  }

  lemma InUnitInterval(n: nat, c: nat, k: nat)
    requires c <= n && k <= n
    ensures 0.0 <= PassRate(n, c, k) <= 1.0
  {
    BinomPositive(n, k);
    BinomMonotone(n - c, n, k);
    var a, b := Binom(n - c, k), Binom(n, k);
    RatioMonotone(a, b, 1, 1);
    RatioMonotone(0, 1, a, b);
  }

  /** More correct runs never lower it. */
  lemma MonotoneInCorrect(n: nat, c: nat, c': nat, k: nat)
    requires c <= c' <= n && k <= n
    ensures PassRate(n, c, k) <= PassRate(n, c', k)
  {
    BinomPositive(n, k);
    BinomMonotone(n - c', n - c, k);
    var b := Binom(n, k);
    DivMod.MulMonotone(Binom(n - c', k), Binom(n - c, k), b);
    RatioMonotone(Binom(n - c', k), b, Binom(n - c, k), b);
  }

  /** More attempts never lower it. */
  lemma {:induction false} MonotoneInK(n: nat, c: nat, k: nat, k': nat)
    requires c <= n && k <= k' <= n
    ensures PassRate(n, c, k) <= PassRate(n, c, k')
    decreases k'
  {
    if k < k' {
      MonotoneInK(n, c, k, k' - 1);
      OneMoreAttempt(n, c, k' - 1);
    }
  }

  lemma OneMoreAttempt(n: nat, c: nat, k: nat)
    requires c <= n && k + 1 <= n
    ensures PassRate(n, c, k) <= PassRate(n, c, k + 1)
  {
    BinomPositive(n, k);
    BinomPositive(n, k + 1);
    var m := n - c;
    if m < k {
      BinomPositive(m, k);
      BinomPositive(m, k + 1);
    } else {
      NextK(m, k);
      NextK(n, k);
      CrossStep(Binom(m, k), Binom(m, k + 1), Binom(n, k), Binom(n, k + 1), m - k, n - k, k + 1);
      RatioMonotone(Binom(m, k + 1), Binom(n, k + 1), Binom(m, k), Binom(n, k));
    }
  }

  lemma CrossStep(a: nat, a': nat, b: nat, b': nat, p: nat, q: nat, d: nat)
    requires d > 0 && p <= q && a' * d == a * p && b' * d == b * q
    ensures a' * b <= a * b'
  {
    assert (a' * b) * d == (a' * d) * b;
    assert (a * p) * b == p * (a * b);
    assert (a * b') * d == a * (b' * d);
    assert a * (b * q) == q * (a * b);
    DivMod.MulMonotone(p, q, a * b);
    LeCancelInt(a' * b, a * b', d);
  }
}
