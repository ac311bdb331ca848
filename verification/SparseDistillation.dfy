/**
 The soft-label loss and embedding of Stage 2 (src/modeling/modeling_stage2.py): the versions that work on the
 teacher's top-k entries against the versions that work on the whole vocabulary. Over the reals; exp and log are
 arbitrary functions.
 */
module SparseDistillation {
  import Sorting
  import opened Sums
  import opened Wrappers

  type Row = seq<real>

  datatype Ops = Ops(exp: real -> real, log: real -> real)

  function MaxReal(x: real, y: real): real {
    if x < y then y else x
  }

  // ---- the two losses ----

  function LogSoftmax(o: Ops, z: Row): (r: Row)
    ensures |r| == |z|
  {
    var norm := o.log(SumR(seq(|z|, v requires 0 <= v < |z| => o.exp(z[v]))));
    seq(|z|, v requires 0 <= v < |z| => z[v] - norm)
  }

  function Tempered(z: Row, temperature: real): (r: Row)
    requires temperature != 0.0
    ensures |r| == |z|
  {
    if temperature != 1.0 then seq(|z|, v requires 0 <= v < |z| => z[v] / temperature) else z
  }

  function Normalized(q: Row, eps: real): (r: Row)
    requires SumR(q) + eps != 0.0
    ensures |r| == |q|
  {
    seq(|q|, k requires 0 <= k < |q| => q[k] / (SumR(q) + eps))
  }

  /** q * (q.clamp_min(eps).log() - logp) */
  function DenseEntry(o: Ops, q: real, logp: real, eps: real): real {
    q * (o.log(MaxReal(q, eps)) - logp)
  }

  /** q * q.clamp_min(eps).log() - q * logp */
  function SparseEntry(o: Ops, q: real, logp: real, eps: real): real {
    q * o.log(MaxReal(q, eps)) - q * logp
  }

  function DenseKl(o: Ops, q: Row, logp: Row, eps: real): real
    requires |q| == |logp|
  {
    SumR(seq(|q|, v requires 0 <= v < |q| => DenseEntry(o, q[v], logp[v], eps)))
  }

  function SparseKl(o: Ops, q: Row, logp: Row, eps: real): real
    requires |q| == |logp|
  {
    SumR(seq(|q|, k requires 0 <= k < |q| => SparseEntry(o, q[k], logp[k], eps)))
  }

  function DenseKlOfToken(o: Ops, logits: Row, target: Row, temperature: real, eps: real): real
    requires temperature != 0.0 && |target| == |logits| && SumR(target) + eps != 0.0
  {
    DenseKl(o, Normalized(target, eps), LogSoftmax(o, Tempered(logits, temperature)), eps)
  }

  function Gather(xs: Row, indices: seq<nat>): (r: Row)
    requires forall k :: 0 <= k < |indices| ==> indices[k] < |xs|
    ensures |r| == |indices|
  {
    seq(|indices|, k requires 0 <= k < |indices| => xs[indices[k]])
  }

  function SparseKlOfToken(o: Ops, logits: Row, probs: Row, indices: seq<nat>, temperature: real, eps: real): real
    requires temperature != 0.0 && TopK(probs, indices, |logits|) && SumR(probs) + eps != 0.0
  {
    SparseKl(o, Normalized(probs, eps), Gather(LogSoftmax(o, Tempered(logits, temperature)), indices), eps)
  }

  predicate TopK(probs: Row, indices: seq<nat>, vocab: nat) {
    |probs| == |indices| && forall k :: 0 <= k < |indices| ==> indices[k] < vocab
  }

  predicate Rows(logits: seq<Row>, targets: seq<Row>, eps: real) {
    |targets| == |logits| && forall t :: 0 <= t < |targets| ==> |targets[t]| == |logits[t]| && SumR(targets[t]) + eps != 0.0
  }

  predicate TopKRows(logits: seq<Row>, probs: seq<Row>, indices: seq<seq<nat>>, eps: real) {
    && |probs| == |indices| == |logits|
    && forall t :: 0 <= t < |logits| ==> TopK(probs[t], indices[t], |logits[t]|) && SumR(probs[t]) + eps != 0.0
  }

  function DensePerToken(o: Ops, logits: seq<Row>, targets: seq<Row>, temperature: real, eps: real): (r: Row)
    requires temperature != 0.0 && Rows(logits, targets, eps)
    ensures |r| == |logits|
  {
    seq(|logits|, t requires 0 <= t < |logits| => DenseKlOfToken(o, logits[t], targets[t], temperature, eps))
  }

  function SparsePerToken(o: Ops, logits: seq<Row>, probs: seq<Row>, indices: seq<seq<nat>>, temperature: real, eps: real): (r: Row)
    requires temperature != 0.0 && TopKRows(logits, probs, indices, eps)
    ensures |r| == |logits|
  {
    seq(|logits|, t requires 0 <= t < |logits| => SparseKlOfToken(o, logits[t], probs[t], indices[t], temperature, eps))
  }

  /** The mean over the tokens, or over the valid ones. */
  function Averaged(kl: Row, mask: Option<seq<bool>>): real
    requires |kl| > 0 && (mask.Some? ==> |mask.value| == |kl|)
  {
    match mask
    case None => Mean(kl)
    case Some(m) => SumR(Masked(kl, m)) / MaxReal(SumR(Weights(m)), 1.0)
  }

  function Masked(kl: Row, m: seq<bool>): (r: Row)
    requires |kl| == |m|
    ensures |r| == |kl|
  {
    seq(|kl|, t requires 0 <= t < |kl| => kl[t] * Weight(m[t]))
  }

  function Weights(m: seq<bool>): (r: Row)
    ensures |r| == |m|
  {
    seq(|m|, t requires 0 <= t < |m| => Weight(m[t]))
  }

  function Weight(valid: bool): real {
    if valid then 1.0 else 0.0
  }

  function ScaledBack(loss: real, temperature: real): real {
    loss * (temperature * temperature)
  }

  /** kd_kl_loss, one row per token, with the optional mask of valid tokens. */
  function KdKlLoss(o: Ops, logits: seq<Row>, targets: seq<Row>, mask: Option<seq<bool>>, temperature: real, eps: real): real
    requires temperature != 0.0 && |logits| > 0 && Rows(logits, targets, eps)
    requires mask.Some? ==> |mask.value| == |logits|
  {
    ScaledBack(Averaged(DensePerToken(o, logits, targets, temperature, eps), mask), temperature)
  }

  /** kd_kl_loss_topk */
  function KdKlLossTopK(o: Ops, logits: seq<Row>, probs: seq<Row>, indices: seq<seq<nat>>, temperature: real, eps: real): real
    requires temperature != 0.0 && |logits| > 0 && TopKRows(logits, probs, indices, eps)
  {
    ScaledBack(Mean(SparsePerToken(o, logits, probs, indices, temperature, eps)), temperature)
  }

  // ---- scattering ----

  /** The top-k entries written into a row of zeros over the vocabulary; repeated indices accumulate. */
  function Scatter(vocab: nat, xs: Row, indices: seq<nat>): (r: Row)
    requires TopK(xs, indices, vocab)
    ensures |r| == vocab
  {
    if |xs| == 0 then seq(vocab, v => 0.0)
    else
      var k := |xs| - 1;
      var r := Scatter(vocab, xs[..k], indices[..k]);
      r[indices[k] := r[indices[k]] + xs[k]]
  }

  function Terms(g: (nat, real) -> real, row: Row): (r: Row)
    ensures |r| == |row|
  {
    seq(|row|, v requires 0 <= v < |row| => g(v, row[v]))
  }

  function TermsAt(g: (nat, real) -> real, indices: seq<nat>, xs: Row): (r: Row)
    requires |xs| == |indices|
    ensures |r| == |xs|
  {
    seq(|xs|, k requires 0 <= k < |xs| => g(indices[k], xs[k]))
  }

  lemma {:induction false} ScatterElsewhere(vocab: nat, xs: Row, indices: seq<nat>, v: nat)
    requires TopK(xs, indices, vocab) && v < vocab
    requires forall k :: 0 <= k < |indices| ==> indices[k] != v
    ensures Scatter(vocab, xs, indices)[v] == 0.0
  {
    if |xs| > 0 {
      ScatterElsewhere(vocab, xs[..|xs| - 1], indices[..|xs| - 1], v);
    }
  }

  /** Distinct indices: every entry stands at its index. */
  lemma {:induction false} ScatterPlaces(vocab: nat, xs: Row, indices: seq<nat>, j: nat)
    requires TopK(xs, indices, vocab) && Sorting.Distinct(indices) && j < |xs|
    ensures Scatter(vocab, xs, indices)[indices[j]] == xs[j]
  {
    var k := |xs| - 1;
    if j == k {
      ScatterElsewhere(vocab, xs[..k], indices[..k], indices[k]);
    } else {
      ScatterPlaces(vocab, xs[..k], indices[..k], j);
    }
  }

  /** A term that treats the new entry separately from what the place held before. */
  ghost predicate Splits(g: (nat, real) -> real, v: nat, x: real, y: real) {
    g(v, x + y) == g(v, x) + g(v, y)
  }

  /** One more scattered entry adds one more term. */
  lemma ScatterStep(g: (nat, real) -> real, row: Row, i: nat, x: real)
    requires i < |row| && Splits(g, i, row[i], x)
    ensures SumR(Terms(g, row[i := row[i] + x])) == SumR(Terms(g, row)) + g(i, x)
  {
    SumUpdateR(Terms(g, row), i, g(i, row[i] + x));
    assert Terms(g, row[i := row[i] + x]) == Terms(g, row)[i := g(i, row[i] + x)];
  }

  lemma TermsAtLast(g: (nat, real) -> real, indices: seq<nat>, xs: Row)
    requires |xs| == |indices| > 0
    ensures SumR(TermsAt(g, indices, xs))
            == SumR(TermsAt(g, indices[..|xs| - 1], xs[..|xs| - 1])) + g(indices[|xs| - 1], xs[|xs| - 1])
  {
    assert TermsAt(g, indices, xs)[..|xs| - 1] == TermsAt(g, indices[..|xs| - 1], xs[..|xs| - 1]);
  }

  lemma NoTerms(g: (nat, real) -> real, vocab: nat)
    requires forall v: nat :: v < vocab ==> g(v, 0.0) == 0.0
    ensures SumR(Terms(g, seq(vocab, v => 0.0))) == 0.0
  {
    assert Terms(g, seq(vocab, v => 0.0)) == seq(vocab, v => 0.0);
    ZeroSumR(seq(vocab, v => 0.0));
  }

  /** With distinct indices any term that vanishes at zero sums to the same over the vocabulary and over the top k. */
  lemma {:induction false} DistinctTerms(g: (nat, real) -> real, vocab: nat, xs: Row, indices: seq<nat>)
    requires TopK(xs, indices, vocab) && Sorting.Distinct(indices)
    requires forall v: nat :: v < vocab ==> g(v, 0.0) == 0.0
    ensures SumR(Terms(g, Scatter(vocab, xs, indices))) == SumR(TermsAt(g, indices, xs))
  {
    if |xs| == 0 {
      NoTerms(g, vocab);
    } else {
      var k := |xs| - 1;
      DistinctTerms(g, vocab, xs[..k], indices[..k]);
      ScatterElsewhere(vocab, xs[..k], indices[..k], indices[k]);
      assert 0.0 + xs[k] == xs[k];
      ScatterStep(g, Scatter(vocab, xs[..k], indices[..k]), indices[k], xs[k]);
      TermsAtLast(g, indices, xs);
    }
  }

  /** An additive term does so for any indices. */
  lemma {:induction false} AdditiveTerms(g: (nat, real) -> real, vocab: nat, xs: Row, indices: seq<nat>)
    requires TopK(xs, indices, vocab)
    requires forall v: nat :: v < vocab ==> g(v, 0.0) == 0.0
    requires forall v: nat, x, y :: v < vocab ==> Splits(g, v, x, y)
    ensures SumR(Terms(g, Scatter(vocab, xs, indices))) == SumR(TermsAt(g, indices, xs))
  {
    if |xs| == 0 {
      NoTerms(g, vocab);
    } else {
      var k := |xs| - 1;
      AdditiveTerms(g, vocab, xs[..k], indices[..k]);
      ScatterStep(g, Scatter(vocab, xs[..k], indices[..k]), indices[k], xs[k]);
      TermsAtLast(g, indices, xs);
    }
  }

  // ---- the losses agree ----

  lemma ScatterKeepsSum(vocab: nat, xs: Row, indices: seq<nat>)
    requires TopK(xs, indices, vocab)
    ensures SumR(Scatter(vocab, xs, indices)) == SumR(xs)
  {
    var g := (v: nat, x: real) => x;
    AdditiveTerms(g, vocab, xs, indices);
    assert Terms(g, Scatter(vocab, xs, indices)) == Scatter(vocab, xs, indices);
    assert TermsAt(g, indices, xs) == xs;
  }

  lemma Distribute(q: real, a: real, b: real)
    ensures q * (a - b) == q * a - q * b
  {
  }

  lemma EntriesAgree(o: Ops, q: real, logp: real, eps: real)
    ensures SparseEntry(o, q, logp, eps) == DenseEntry(o, q, logp, eps)
    ensures DenseEntry(o, 0.0, logp, eps) == 0.0
  {
    Distribute(q, o.log(MaxReal(q, eps)), logp);
  }

  /** What an entry of the target adds to the divergence. */
  function KlTerm(o: Ops, logp: Row, norm: real, eps: real): (nat, real) -> real
    requires norm != 0.0
  {
    (v: nat, x: real) => if v < |logp| then DenseEntry(o, x / norm, logp[v], eps) else 0.0
  }

  lemma ZeroOver(d: real)
    requires d != 0.0
    ensures 0.0 / d == 0.0
  {
  }

  /** One token: the sparse divergence is the dense one on the scattered target. */
  lemma TokenRefines(o: Ops, logits: Row, probs: Row, indices: seq<nat>, temperature: real, eps: real)
    requires temperature != 0.0 && TopK(probs, indices, |logits|) && Sorting.Distinct(indices) && SumR(probs) + eps != 0.0
    ensures var target := Scatter(|logits|, probs, indices);
            && SumR(target) + eps != 0.0
            && SparseKlOfToken(o, logits, probs, indices, temperature, eps)
               == DenseKlOfToken(o, logits, target, temperature, eps)
  {
    var vocab := |logits|;
    var target := Scatter(vocab, probs, indices);
    var logp := LogSoftmax(o, Tempered(logits, temperature));
    var norm := SumR(probs) + eps;
    ScatterKeepsSum(vocab, probs, indices);
    forall v: nat | v < vocab
      ensures KlTerm(o, logp, norm, eps)(v, 0.0) == 0.0
    {
      ZeroOver(norm);
      EntriesAgree(o, 0.0, logp[v], eps);
    }
    DistinctTerms(KlTerm(o, logp, norm, eps), vocab, probs, indices);
    DenseIsTerms(o, target, logp, eps);
    SparseIsTerms(o, probs, indices, logp, eps);
  }

  lemma DenseIsTerms(o: Ops, target: Row, logp: Row, eps: real)
    requires |target| == |logp| && SumR(target) + eps != 0.0
    ensures DenseKl(o, Normalized(target, eps), logp, eps) == SumR(Terms(KlTerm(o, logp, SumR(target) + eps, eps), target))
  {
    var q := Normalized(target, eps);
    assert Terms(KlTerm(o, logp, SumR(target) + eps, eps), target)
        == seq(|q|, v requires 0 <= v < |q| => DenseEntry(o, q[v], logp[v], eps));
  }

  lemma SparseIsTerms(o: Ops, probs: Row, indices: seq<nat>, logp: Row, eps: real)
    requires TopK(probs, indices, |logp|) && SumR(probs) + eps != 0.0
    ensures SparseKl(o, Normalized(probs, eps), Gather(logp, indices), eps)
            == SumR(TermsAt(KlTerm(o, logp, SumR(probs) + eps, eps), indices, probs))
  {
    var q, p := Normalized(probs, eps), Gather(logp, indices);
    forall k | 0 <= k < |q|
      ensures SparseEntry(o, q[k], p[k], eps) == DenseEntry(o, q[k], logp[indices[k]], eps)
    {
      EntriesAgree(o, q[k], p[k], eps);
    }
    assert TermsAt(KlTerm(o, logp, SumR(probs) + eps, eps), indices, probs)
        == seq(|q|, k requires 0 <= k < |q| => SparseEntry(o, q[k], p[k], eps));
  }

  function ScatterAll(logits: seq<Row>, probs: seq<Row>, indices: seq<seq<nat>>): (r: seq<Row>)
    requires |probs| == |indices| == |logits|
    requires forall t :: 0 <= t < |logits| ==> TopK(probs[t], indices[t], |logits[t]|)
    ensures |r| == |logits| && forall t :: 0 <= t < |logits| ==> |r[t]| == |logits[t]|
  {
    seq(|logits|, t requires 0 <= t < |logits| => Scatter(|logits[t]|, probs[t], indices[t]))
  }

  lemma PerTokenRefines(o: Ops, logits: seq<Row>, probs: seq<Row>, indices: seq<seq<nat>>, temperature: real, eps: real)
    requires temperature != 0.0 && TopKRows(logits, probs, indices, eps)
    requires forall t :: 0 <= t < |indices| ==> Sorting.Distinct(indices[t])
    ensures var targets := ScatterAll(logits, probs, indices);
            && Rows(logits, targets, eps)
            && SparsePerToken(o, logits, probs, indices, temperature, eps) == DensePerToken(o, logits, targets, temperature, eps)
  {
    var targets := ScatterAll(logits, probs, indices);
    forall t | 0 <= t < |logits|
      ensures SumR(targets[t]) + eps != 0.0
      ensures SparseKlOfToken(o, logits[t], probs[t], indices[t], temperature, eps)
              == DenseKlOfToken(o, logits[t], targets[t], temperature, eps)
    {
      TokenRefines(o, logits[t], probs[t], indices[t], temperature, eps);
    }
  }

  /** The sparse loss is the dense loss on the scattered targets: no [S, V] tensor is needed. */
  lemma SparseLossRefinesDense(o: Ops, logits: seq<Row>, probs: seq<Row>, indices: seq<seq<nat>>, temperature: real, eps: real)
    requires temperature != 0.0 && |logits| > 0 && TopKRows(logits, probs, indices, eps)
    requires forall t :: 0 <= t < |indices| ==> Sorting.Distinct(indices[t])
    ensures var targets := ScatterAll(logits, probs, indices);
            && Rows(logits, targets, eps)
            && KdKlLossTopK(o, logits, probs, indices, temperature, eps) == KdKlLoss(o, logits, targets, None, temperature, eps)
  {
    PerTokenRefines(o, logits, probs, indices, temperature, eps);
  }

  // ---- embeddings ----

  function Product(p: real, w: real): real {
    p * w
  }

  lemma ProductSplits(x: real, y: real, w: real)
    ensures Product(x + y, w) == Product(x, w) + Product(y, w) && Product(0.0, w) == 0.0
  {
  }

  /** Entry h of the top-k weighted embedding. */
  function WeightedEmbeddingFromTopK(probs: Row, indices: seq<nat>, weight: seq<Row>, h: nat): real
    requires TopK(probs, indices, |weight|) && forall v :: 0 <= v < |weight| ==> h < |weight[v]|
  {
    SumR(seq(|probs|, k requires 0 <= k < |probs| => Product(probs[k], weight[indices[k]][h])))
  }

  /** Entry h of the product of a probability row with the whole embedding matrix. */
  function DenseEmbedding(row: Row, weight: seq<Row>, h: nat): real
    requires |row| == |weight| && forall v :: 0 <= v < |weight| ==> h < |weight[v]|
  {
    SumR(seq(|row|, v requires 0 <= v < |row| => Product(row[v], weight[v][h])))
  }

  /** A single entry gives its row of the matrix, times its probability. */
  lemma EmbeddingOfOne(p: real, i: nat, weight: seq<Row>, h: nat)
    requires i < |weight| && forall v :: 0 <= v < |weight| ==> h < |weight[v]|
    ensures WeightedEmbeddingFromTopK([p], [i], weight, h) == p * weight[i][h]
  {
    var probs, indices := [p], [i];
    OneTerm(seq(|probs|, k requires 0 <= k < |probs| => Product(probs[k], weight[indices[k]][h])));
  }

  lemma OneTerm(terms: Row)
    requires |terms| == 1
    ensures SumR(terms) == terms[0]
  {
    assert terms[..0] == [];
  }

  /** The top-k embedding is the dense product, even when an index is repeated. */
  lemma EmbeddingRefinesDense(probs: Row, indices: seq<nat>, weight: seq<Row>, h: nat)
    requires TopK(probs, indices, |weight|) && forall v :: 0 <= v < |weight| ==> h < |weight[v]|
    ensures WeightedEmbeddingFromTopK(probs, indices, weight, h)
            == DenseEmbedding(Scatter(|weight|, probs, indices), weight, h)
  {
    var g := (v: nat, x: real) => if v < |weight| && h < |weight[v]| then Product(x, weight[v][h]) else 0.0;
    forall v: nat, x, y | v < |weight|
      ensures Splits(g, v, x, y) && g(v, 0.0) == 0.0
    {
      ProductSplits(x, y, weight[v][h]);
    }
    AdditiveTerms(g, |weight|, probs, indices);
    var row := Scatter(|weight|, probs, indices);
    assert Terms(g, row) == seq(|row|, v requires 0 <= v < |row| => Product(row[v], weight[v][h]));
    assert TermsAt(g, indices, probs) == seq(|probs|, k requires 0 <= k < |probs| => Product(probs[k], weight[indices[k]][h]));
  }

  /** Masking nothing away is averaging over all tokens. */
  lemma FullMaskIsMean(o: Ops, logits: seq<Row>, targets: seq<Row>, temperature: real, eps: real)
    requires temperature != 0.0 && |logits| > 0 && Rows(logits, targets, eps)
    ensures KdKlLoss(o, logits, targets, Some(seq(|logits|, t => true)), temperature, eps)
            == KdKlLoss(o, logits, targets, None, temperature, eps)
  {
    var n := |logits|;
    var m := seq(n, t => true);
    var kl := DensePerToken(o, logits, targets, temperature, eps);
    assert Weights(m) == seq(n, t => 1.0);
    AllValid(kl, m);
    SumOfOnes(n);
  }

  lemma AllValid(kl: Row, m: seq<bool>)
    requires |kl| == |m| && forall t :: 0 <= t < |m| ==> m[t]
    ensures Masked(kl, m) == kl
  {
  }

  lemma {:induction false} SumOfOnes(n: nat)
    ensures SumR(seq(n, t => 1.0)) == n as real
  {
    if n > 0 {
      assert seq(n, t => 1.0)[..n - 1] == seq(n - 1, t => 1.0);
      SumOfOnes(n - 1);
    }
  }
}
