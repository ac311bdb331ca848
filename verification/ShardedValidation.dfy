/**
 Validation accuracy over several processes (src/validation.py): every rank takes a strided shard of the examples,
 predicts it batch by batch and counts; the counts are added over all ranks.
 */
module ShardedValidation {
  import opened Wrappers
  import Dispatcher
  import DivMod

  /** examples[rank::step] */
  function Strided<T>(xs: seq<T>, rank: nat, step: nat): seq<T>
    requires step > 0
    decreases if rank < |xs| then |xs| - rank else 0
  {
    if rank >= |xs| then [] else [xs[rank]] + Strided(xs, rank + step, step)
  }

  function RankShardExamples<T>(examples: seq<T>, rank: nat, worldSize: int): Result<seq<T>> {
    if worldSize <= 0 then Failure("ValueError: world_size must be positive.")
    else Success(Strided(examples, rank, worldSize))
  }

  /** An example is predicted by a deterministic model and compared with its own answer. */
  datatype Model<!E, !P> = Model(predict: E -> P, correct: (P, E) -> bool)

  function CountCorrect<E, P>(m: Model<E, P>, predictions: seq<P>, examples: seq<E>): nat
    requires |predictions| == |examples|
  {
    if |examples| == 0 then 0
    else
      var n := |examples| - 1;
      CountCorrect(m, predictions[..n], examples[..n]) + if m.correct(predictions[n], examples[n]) then 1 else 0
  }

  /** The number of examples that the model gets right. */
  function Correct<E, P>(m: Model<E, P>, examples: seq<E>): nat {
    CountCorrect(m, Dispatcher.MapSeq(m.predict, examples), examples)
  }

  // ---- one rank ----

  /** _count_correct_predictions */
  method CountCorrectPredictions<E, P>(m: Model<E, P>, predictions: seq<P>, examples: seq<E>)
    returns (r: Result<(nat, nat)>)
    ensures |predictions| != |examples| ==> r.Failure?
    ensures |predictions| == |examples| ==> r == Success((CountCorrect(m, predictions, examples), |examples|))
  {
    if |predictions| != |examples| {
      return Failure("ValueError: Prediction count must match validation example count.");
    }
    var correct := 0;
    for i := 0 to |examples|
      invariant correct == CountCorrect(m, predictions[..i], examples[..i])
    {
      assert predictions[..i + 1][..i] == predictions[..i] && examples[..i + 1][..i] == examples[..i];
      correct := correct + if m.correct(predictions[i], examples[i]) then 1 else 0;
    }
    assert predictions[..|examples|] == predictions && examples[..|examples|] == examples;
    r := Success((correct, |examples|));
  }

  /** Predicting batch by batch; a step of zero is refused by range, a negative one gives no batch. */
  method GeneratePredictions<E, P>(m: Model<E, P>, examples: seq<E>, batchSize: int) returns (r: Result<seq<P>>)
    ensures batchSize > 0 ==> r == Success(Dispatcher.MapSeq(m.predict, examples))
    ensures batchSize == 0 ==> r.Failure?
    ensures batchSize < 0 ==> r == Success([])
  {
    if batchSize == 0 {
      return Failure("ValueError: range() arg 3 must not be zero");
    }
    var predictions := [];
    var start := 0;
    while batchSize > 0 && start < |examples|
      invariant 0 <= start <= |examples|
      invariant predictions == Dispatcher.MapSeq(m.predict, examples[..start])
      invariant batchSize < 0 ==> start == 0
      decreases |examples| - start
    {
      var end := if start + batchSize < |examples| then start + batchSize else |examples|;
      predictions := predictions + Dispatcher.MapSeq(m.predict, examples[start..end]);
      assert examples[..end] == examples[..start] + examples[start..end];
      start := end;
    }
    if batchSize > 0 {
      assert examples[..start] == examples;
    }
    r := Success(predictions);
  }

  /** What one rank contributes. */
  method LocalCounts<E, P>(m: Model<E, P>, examples: seq<E>, rank: nat, worldSize: int, batchSize: int)
    returns (r: Result<(nat, nat)>)
    ensures worldSize <= 0 ==> r.Failure?
    ensures worldSize > 0 && batchSize > 0 ==>
              r == Success(ShardCounts(m, examples, rank, worldSize))
    ensures worldSize > 0 && batchSize <= 0 ==>
              if Strided(examples, rank, worldSize) == [] then r == Success((0, 0)) else r.Failure?
  {
    var shard := RankShardExamples(examples, rank, worldSize);
    if shard.Failure? {
      return Failure(shard.error);
    }
    var localExamples := shard.value;
    var predictions := [];
    if localExamples != [] {
      var generated := GeneratePredictions(m, localExamples, batchSize);
      if generated.Failure? {
        return Failure(generated.error);
      }
      predictions := generated.value;
    }
    r := CountCorrectPredictions(m, predictions, localExamples);
  }

  // ---- all ranks ----

  function Added(a: (nat, nat), b: (nat, nat)): (nat, nat) {
    (a.0 + b.0, a.1 + b.1)
  }

  /** dist.all_reduce(SUM) over the counts of all ranks. */
  function AllReduce(counts: seq<(nat, nat)>): (nat, nat) {
    if |counts| == 0 then (0, 0) else Added(AllReduce(counts[..|counts| - 1]), counts[|counts| - 1])
  }

  /** The counts of one rank's shard. */
  function ShardCounts<E, P>(m: Model<E, P>, examples: seq<E>, rank: nat, worldSize: nat): (nat, nat)
    requires worldSize > 0
  {
    (Correct(m, Strided(examples, rank, worldSize)), |Strided(examples, rank, worldSize)|)
  }

  /** What the ranks contribute. */
  function AllCounts<E, P>(m: Model<E, P>, examples: seq<E>, worldSize: nat): (r: seq<(nat, nat)>)
    requires worldSize > 0
    ensures |r| == worldSize
  {
    seq(worldSize, rank requires 0 <= rank < worldSize => ShardCounts(m, examples, rank, worldSize))
  }

  /** correct / total, as the fraction's two parts would give it. */
  function Accuracy(counts: (nat, nat)): real {
    if counts.1 == 0 then 0.0 else counts.0 as real / counts.1 as real
  }

  // ---- a new example at the end goes to exactly one shard ----

  predicate Hits(n: nat, rank: nat, step: nat)
    requires step > 0
  {
    rank <= n && (n - rank) % step == 0
  }

  lemma {:induction false} StridedAppend<T>(xs: seq<T>, x: T, rank: nat, step: nat)
    requires step > 0
    ensures Strided(xs + [x], rank, step) == Strided(xs, rank, step) + if Hits(|xs|, rank, step) then [x] else []
    decreases if rank <= |xs| then |xs| - rank + 1 else 0
  {
    if rank < |xs| {
      StridedAppend(xs, x, rank + step, step);
      HitsLater(|xs|, rank, step);
    } else if rank == |xs| {
      assert Strided(xs + [x], rank + step, step) == [];
    }
  }

  lemma HitsLater(n: nat, rank: nat, step: nat)
    requires step > 0 && rank < n
    ensures Hits(n, rank + step, step) <==> Hits(n, rank, step)
  {
    var q, r := (n - rank) / step, (n - rank) % step;
    assert n - rank == q * step + r;
    if rank + step <= n {
      assert n - rank - step == (q - 1) * step + r;
      DivMod.Unique(n - rank - step, step, q - 1, r);
    } else {
      DivMod.Unique(n - rank, step, 0, n - rank);
    }
  }

  /** Among the ranks below the world size, exactly one takes position n. */
  lemma OneRankHits(n: nat, rank: nat, worldSize: nat)
    requires worldSize > 0 && rank < worldSize
    ensures Hits(n, rank, worldSize) <==> rank == n % worldSize
  {
    var q, r := n / worldSize, n % worldSize;
    assert n == q * worldSize + r;
    if Hits(n, rank, worldSize) {
      var p := (n - rank) / worldSize;
      assert n - rank == p * worldSize;
      DivMod.Unique(n, worldSize, p, rank);
    } else if rank == r {
      DivMod.Unique(n - rank, worldSize, q, 0);
    }
  }

  lemma CorrectAppend<E, P>(m: Model<E, P>, examples: seq<E>, x: E)
    ensures Correct(m, examples + [x]) == Correct(m, examples) + if m.correct(m.predict(x), x) then 1 else 0
  {
    var n := |examples|;
    assert Dispatcher.MapSeq(m.predict, examples + [x])[..n] == Dispatcher.MapSeq(m.predict, examples);
    assert (examples + [x])[..n] == examples;
  }

  function Outcome<E, P>(m: Model<E, P>, x: E): (nat, nat) {
    (if m.correct(m.predict(x), x) then 1 else 0, 1)
  }

  /** One more example changes the counts of the rank that takes it. */
  lemma ShardAppend<E, P>(m: Model<E, P>, examples: seq<E>, x: E, worldSize: nat, rank: nat)
    requires worldSize > 0 && rank < worldSize
    ensures ShardCounts(m, examples + [x], rank, worldSize)
            == Added(ShardCounts(m, examples, rank, worldSize),
                     if rank == |examples| % worldSize then Outcome(m, x) else (0, 0))
  {
    StridedAppend(examples, x, rank, worldSize);
    OneRankHits(|examples|, rank, worldSize);
    CorrectAppend(m, Strided(examples, rank, worldSize), x);
    assert Strided(examples, rank, worldSize) + [] == Strided(examples, rank, worldSize);
  }

  lemma {:induction false} AddToOne(counts: seq<(nat, nat)>, i: nat, c: (nat, nat))
    requires i < |counts|
    ensures AllReduce(counts[i := Added(counts[i], c)]) == Added(AllReduce(counts), c)
  {
    var n := |counts| - 1;
    var after := counts[i := Added(counts[i], c)];
    if i < n {
      AddToOne(counts[..n], i, c);
      assert after[..n] == counts[..n][i := Added(counts[..n][i], c)];
    } else {
      assert after[..n] == counts[..n];
    }
  }

  /** One more example adds its outcome once. */
  lemma AllCountsAppend<E, P>(m: Model<E, P>, examples: seq<E>, x: E, worldSize: nat)
    requires worldSize > 0
    ensures AllReduce(AllCounts(m, examples + [x], worldSize)) == Added(AllReduce(AllCounts(m, examples, worldSize)), Outcome(m, x))
  {
    var was, now, home := AllCounts(m, examples, worldSize), AllCounts(m, examples + [x], worldSize), |examples| % worldSize;
    forall rank | 0 <= rank < worldSize
      ensures now[rank] == was[home := Added(was[home], Outcome(m, x))][rank]
    {
      ShardAppend(m, examples, x, worldSize, rank);
    }
    assert now == was[home := Added(was[home], Outcome(m, x))];
    AddToOne(was, home, Outcome(m, x));
  }

  lemma {:induction false} NothingToAdd(counts: seq<(nat, nat)>)
    requires forall k :: 0 <= k < |counts| ==> counts[k] == (0, 0)
    ensures AllReduce(counts) == (0, 0)
  {
    if |counts| > 0 {
      NothingToAdd(counts[..|counts| - 1]);
    }
  }

  /** The reduced counts are the counts of one process over all examples. */
  lemma {:induction false} ShardedCountsAreTheCounts<E, P>(m: Model<E, P>, examples: seq<E>, worldSize: nat)
    requires worldSize > 0
    ensures AllReduce(AllCounts(m, examples, worldSize)) == (Correct(m, examples), |examples|)
  {
    if |examples| == 0 {
      assert forall r: nat :: r < worldSize ==> Strided(examples, r, worldSize) == [];
      NothingToAdd(AllCounts(m, examples, worldSize));
    } else {
      var front, x := examples[..|examples| - 1], examples[|examples| - 1];
      assert examples == front + [x];
      ShardedCountsAreTheCounts(m, front, worldSize);
      AllCountsAppend(m, front, x, worldSize);
      CorrectAppend(m, front, x);
    }
  }

  /** Every rank reports the accuracy of an unsharded validation, for any number of processes. */
  lemma ShardedAccuracyIsSequential<E, P>(m: Model<E, P>, examples: seq<E>, worldSize: nat)
    requires worldSize > 0
    ensures Accuracy(AllReduce(AllCounts(m, examples, worldSize)))
            == if |examples| == 0 then 0.0 else Correct(m, examples) as real / |examples| as real
  {
    ShardedCountsAreTheCounts(m, examples, worldSize);
  }

  // ---- the shards partition the examples ----

  lemma {:induction false} StridedIs<T>(xs: seq<T>, rank: nat, step: nat, j: nat)
    requires step > 0
    ensures j < |Strided(xs, rank, step)| <==> rank + j * step < |xs|
    ensures j < |Strided(xs, rank, step)| ==> Strided(xs, rank, step)[j] == xs[rank + j * step]
    decreases j
  {
    if rank < |xs| && j > 0 {
      StridedIs(xs, rank + step, step, j - 1);
      assert rank + step + (j - 1) * step == rank + j * step;
    } else if rank >= |xs| {
      assert j * step >= 0;
    }
  }

  /** Place j of the shard of a rank is example rank + j * worldSize; so example i is at one place of one shard. */
  lemma InOneShard<T>(xs: seq<T>, i: nat, worldSize: nat, rank: nat, j: nat)
    requires worldSize > 0 && i < |xs| && rank < worldSize
    ensures j < |Strided(xs, rank, worldSize)| && rank + j * worldSize == i
            <==> rank == i % worldSize && j == i / worldSize
    ensures rank + j * worldSize == i ==> j < |Strided(xs, rank, worldSize)| && Strided(xs, rank, worldSize)[j] == xs[i]
  {
    StridedIs(xs, rank, worldSize, j);
    assert i == (i / worldSize) * worldSize + i % worldSize;
    if rank + j * worldSize == i {
      DivMod.Unique(i, worldSize, j, rank);
    }
  }
}
