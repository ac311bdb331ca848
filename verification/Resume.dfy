/**
 The resumable evaluation of eval/eval_high_tasks_sglang.py: every finished run is written to one result file, and
 a new execution reads that file, drops the runs it cannot use and does the missing ones. A crash may come between
 any two writes.
 */
module Resume {
  import opened Sorting

  /**
   A stored run; keys are the fields that the record really has. Its accuracy and number of correct samples are
   functions of sampleCorrect and have no field of their own.
   */
  datatype Run = Run(keys: set<string>, runIndex: int, seed: int, total: nat, avgOutputLength: real, sampleCorrect: seq<bool>)

  const REQUIRED_KEYS: set<string> :=
    {"run_index", "seed", "accuracy", "correct", "total_samples", "avg_output_length", "sample_correct"}

  predicate ValidateRun(r: Run, expectedNumSamples: nat) {
    REQUIRED_KEYS <= r.keys && r.total == expectedNumSamples && |r.sampleCorrect| == expectedNumSamples
  }

  function MakeRunSeed(baseSeed: int, datasetIndex: int, runIndex: int): int {
    baseSeed + datasetIndex * 100000 + runIndex
  }

  /** Up to 100000 runs per dataset, no two runs of an evaluation share a seed. */
  lemma SeedsAreDistinct(baseSeed: int, d: int, i: int, d': int, i': int)
    requires 1 <= i <= 100000 && 1 <= i' <= 100000
    ensures MakeRunSeed(baseSeed, d, i) == MakeRunSeed(baseSeed, d', i') <==> d == d' && i == i'
  {
  }

  /** Seeds count up by one from run to run and by 100000 from dataset to dataset, from one above the base seed on. */
  lemma SeedSteps(baseSeed: int, d: int, i: int)
    ensures MakeRunSeed(baseSeed, 0, 1) == baseSeed + 1
    ensures MakeRunSeed(baseSeed, d, i + 1) == MakeRunSeed(baseSeed, d, i) + 1
    ensures MakeRunSeed(baseSeed, d + 1, i) == MakeRunSeed(baseSeed, d, i) + 100000
  {
  }

  /** x.get("run_index", -1) */
  function IndexOf(r: Run): int {
    if "run_index" in r.keys then r.runIndex else -1
  }

  function ByIndex(): Order<Run> { ByKey(IndexOf) }

  function Valid(runs: seq<Run>, n: nat): seq<Run> {
    if |runs| == 0 then []
    else Valid(runs[..|runs| - 1], n) + if ValidateRun(runs[|runs| - 1], n) then [runs[|runs| - 1]] else []
  }

  /** The runs that a new execution keeps: sorted and complete. */
  function Cleaned(runs: seq<Run>, n: nat): seq<Run> {
    Valid(SortBy(runs, ByIndex()), n)
  }

  // ---- one dataset ----

  /** What an evaluation returns: per sample whether it is right, and the average output length. */
  datatype Outcome = Outcome(scores: seq<bool>, avgLength: real)

  datatype Dataset = Dataset(name: string, numRuns: nat, numSamples: nat)

  /** The evaluation of a run is a function of its dataset, its index and its seed. */
  datatype Config = Config(datasets: seq<Dataset>, baseSeed: int, evaluate: (nat, int, int) -> Outcome) {
    /** An evaluation returns a score for every record (the evaluation raises an error otherwise). */
    ghost predicate Valid() {
      && (forall d, e :: 0 <= d < e < |datasets| ==> datasets[d].name != datasets[e].name)
      && (forall d: nat, i, s :: d < |datasets| ==> |evaluate(d, i, s).scores| == datasets[d].numSamples)
    }
  }

  /** The record of run i of dataset d. */
  function Record(c: Config, d: nat, i: int): (r: Run)
    ensures r.runIndex == i && r.seed == MakeRunSeed(c.baseSeed, d, i) && REQUIRED_KEYS <= r.keys
    ensures r.total == |r.sampleCorrect| == |c.evaluate(d, i, r.seed).scores|
  {
    var seed := MakeRunSeed(c.baseSeed, d, i);
    var out := c.evaluate(d, i, seed);
    Run(REQUIRED_KEYS, i, seed, |out.scores|, out.avgLength, out.scores)
  }

  function Completed(runs: seq<Run>): set<int> {
    if |runs| == 0 then {} else Completed(runs[..|runs| - 1]) + {runs[|runs| - 1].runIndex}
  }

  lemma {:induction false} InCompleted(runs: seq<Run>, i: int)
    ensures i in Completed(runs) <==> exists k :: 0 <= k < |runs| && runs[k].runIndex == i
  {
    if |runs| > 0 {
      InCompleted(runs[..|runs| - 1], i);
      if i in Completed(runs[..|runs| - 1]) {
        var k :| 0 <= k < |runs| - 1 && runs[..|runs| - 1][k].runIndex == i;
        assert runs[k].runIndex == i;
      }
    }
  }

  /** One turn of the loop. */
  function Turn(c: Config, d: nat, runs: seq<Run>, completed: set<int>, i: int): seq<Run> {
    if i in completed then runs else SortBy(runs + [Record(c, d, i)], ByIndex())
  }

  /** The run list after the loop has passed index upTo; completed is taken from the list before the loop. */
  function FillLoop(c: Config, d: nat, kept: seq<Run>, completed: set<int>, upTo: nat): seq<Run> {
    if upTo == 0 then kept
    else
      Turn(c, d, FillLoop(c, d, kept, completed, upTo - 1), completed, upTo)
  }

  function Fill(c: Config, d: nat, kept: seq<Run>, upTo: nat): seq<Run> {
    FillLoop(c, d, kept, Completed(kept), upTo)
  }

  // ---- sorting and cleaning ----

  lemma ByIndexIsTotal()
    ensures Total(ByIndex())
  {
  }

  lemma {:induction false} AllValidStays(runs: seq<Run>, n: nat)
    requires forall k :: 0 <= k < |runs| ==> ValidateRun(runs[k], n)
    ensures Valid(runs, n) == runs
  {
    if |runs| > 0 {
      DropLast(runs);
      AllValidStays(runs[..|runs| - 1], n);
    }
  }

  lemma {:induction false} ValidIsSorted(runs: seq<Run>, n: nat)
    requires Sorted(runs, ByIndex())
    ensures Sorted(Valid(runs, n), ByIndex())
    ensures forall r :: r in Valid(runs, n) <==> r in runs && ValidateRun(r, n)
  {
    if |runs| > 0 {
      var m := |runs| - 1;
      DropLast(runs);
      ValidIsSorted(runs[..m], n);
      forall k | 0 <= k < |Valid(runs[..m], n)|
        ensures ByIndex()(Valid(runs[..m], n)[k], runs[m])
      {
        assert Valid(runs[..m], n)[k] in runs[..m];
      }
    }
  }

  /** Cleaning keeps exactly the complete runs, sorted. */
  lemma CleanedIs(runs: seq<Run>, n: nat)
    ensures Sorted(Cleaned(runs, n), ByIndex())
    ensures forall r :: r in Cleaned(runs, n) <==> r in runs && ValidateRun(r, n)
  {
    ByIndexIsTotal();
    SortSorts(runs, ByIndex());
    ValidIsSorted(SortBy(runs, ByIndex()), n);
    forall r
      ensures r in SortBy(runs, ByIndex()) <==> r in runs
    {
      assert r in multiset(SortBy(runs, ByIndex())) <==> r in multiset(runs);
    }
  }

  /** A stored run is kept exactly when it has all its fields and a score for every sample. */
  lemma KeptExactly(runs: seq<Run>, n: nat, r: Run)
    ensures r in Cleaned(runs, n) <==>
              && r in runs && r.total == n && |r.sampleCorrect| == n
              && {"run_index", "seed", "accuracy", "correct", "total_samples", "avg_output_length", "sample_correct"} <= r.keys
  {
    CleanedIs(runs, n);
  }

  /** A list that an execution may hold in memory: sorted, complete records only. */
  ghost predicate Clean(runs: seq<Run>, n: nat) {
    Sorted(runs, ByIndex()) && forall k :: 0 <= k < |runs| ==> ValidateRun(runs[k], n)
  }

  lemma CleanStays(runs: seq<Run>, n: nat)
    requires Clean(runs, n)
    ensures Cleaned(runs, n) == runs
  {
    SortedStays(runs, ByIndex());
    AllValidStays(runs, n);
  }

  lemma CleanedIsClean(runs: seq<Run>, n: nat)
    ensures Clean(Cleaned(runs, n), n)
  {
    CleanedIs(runs, n);
    forall k | 0 <= k < |Cleaned(runs, n)|
      ensures ValidateRun(Cleaned(runs, n)[k], n)
    {
      assert Cleaned(runs, n)[k] in Cleaned(runs, n);
    }
  }

  // ---- filling in the missing runs ----

  lemma SortKeepsValid(runs: seq<Run>, n: nat)
    requires forall k :: 0 <= k < |runs| ==> ValidateRun(runs[k], n)
    ensures forall k :: 0 <= k < |runs| ==> ValidateRun(SortBy(runs, ByIndex())[k], n)
  {
    ByIndexIsTotal();
    SortSorts(runs, ByIndex());
    forall k | 0 <= k < |runs|
      ensures ValidateRun(SortBy(runs, ByIndex())[k], n)
    {
      assert SortBy(runs, ByIndex())[k] in multiset(runs);
    }
  }

  lemma SortedClean(runs: seq<Run>, r: Run, n: nat)
    requires Clean(runs, n) && ValidateRun(r, n)
    ensures Clean(SortBy(runs + [r], ByIndex()), n)
  {
    ByIndexIsTotal();
    SortSorts(runs + [r], ByIndex());
    SortKeepsValid(runs + [r], n);
  }

  lemma {:induction false} FillLoopIsClean(c: Config, d: nat, kept: seq<Run>, completed: set<int>, upTo: nat)
    requires c.Valid() && d < |c.datasets| && Clean(kept, c.datasets[d].numSamples)
    ensures Clean(FillLoop(c, d, kept, completed, upTo), c.datasets[d].numSamples)
  {
    if upTo > 0 {
      FillLoopIsClean(c, d, kept, completed, upTo - 1);
      var r := Record(c, d, upTo);
      assert ValidateRun(r, c.datasets[d].numSamples);
      SortedClean(FillLoop(c, d, kept, completed, upTo - 1), r, c.datasets[d].numSamples);
    }
  }

  lemma FillIsClean(c: Config, d: nat, kept: seq<Run>, upTo: nat)
    requires c.Valid() && d < |c.datasets| && Clean(kept, c.datasets[d].numSamples)
    ensures Clean(Fill(c, d, kept, upTo), c.datasets[d].numSamples)
  {
    FillLoopIsClean(c, d, kept, Completed(kept), upTo);
  }

  lemma FillSkips(c: Config, d: nat, kept: seq<Run>, i: nat)
    requires i > 0 && i in Completed(kept)
    ensures Fill(c, d, kept, i) == Fill(c, d, kept, i - 1)
  {
  }

  lemma FillRecords(c: Config, d: nat, kept: seq<Run>, i: nat)
    requires i > 0 && i !in Completed(kept)
    ensures Fill(c, d, kept, i) == SortBy(Fill(c, d, kept, i - 1) + [Record(c, d, i)], ByIndex())
  {
  }

  lemma TurnAdds(c: Config, d: nat, runs: seq<Run>, completed: set<int>, i: int, r: Run)
    ensures multiset(Turn(c, d, runs, completed, i))[r]
            == multiset(runs)[r] + if i !in completed && r == Record(c, d, i) then 1 else 0
  {
    ByIndexIsTotal();
    SortSorts(runs + [Record(c, d, i)], ByIndex());
    assert multiset(runs + [Record(c, d, i)]) == multiset(runs) + multiset{Record(c, d, i)};
  }

  /** Nothing kept is lost, and every missing index is recorded once. */
  lemma {:induction false} FillAddsTheMissing(c: Config, d: nat, kept: seq<Run>, completed: set<int>, upTo: nat, r: Run)
    ensures multiset(FillLoop(c, d, kept, completed, upTo))[r]
            == multiset(kept)[r]
               + if 1 <= r.runIndex <= upTo && r.runIndex !in completed && r == Record(c, d, r.runIndex) then 1 else 0
  {
    if upTo > 0 {
      FillAddsTheMissing(c, d, kept, completed, upTo - 1, r);
      TurnAdds(c, d, FillLoop(c, d, kept, completed, upTo - 1), completed, upTo, r);
    }
  }

  // ---- which indices are in the list ----

  function RunIndices(runs: seq<Run>): (r: seq<int>)
    ensures |r| == |runs|
  {
    seq(|runs|, k requires 0 <= k < |runs| => runs[k].runIndex)
  }

  function Range(n: nat): (r: seq<int>)
    ensures |r| == n
  {
    seq(n, (k: nat) => k + 1)
  }

  lemma IndicesAppend(runs: seq<Run>, r: Run)
    ensures multiset(RunIndices(runs + [r])) == multiset(RunIndices(runs)) + multiset{r.runIndex}
  {
    assert RunIndices(runs + [r]) == RunIndices(runs) + [r.runIndex];
  }

  lemma {:induction false} IndicesInsert(runs: seq<Run>, r: Run)
    ensures multiset(RunIndices(Insert(runs, r, ByIndex()))) == multiset(RunIndices(runs)) + multiset{r.runIndex}
  {
    if |runs| == 0 || ByIndex()(runs[|runs| - 1], r) {
      IndicesAppend(runs, r);
    } else {
      var n := |runs| - 1;
      IndicesInsert(runs[..n], r);
      IndicesAppend(Insert(runs[..n], r, ByIndex()), runs[n]);
      IndicesAppend(runs[..n], runs[n]);
      DropLast(runs);
    }
  }

  lemma {:induction false} IndicesSort(runs: seq<Run>)
    ensures multiset(RunIndices(SortBy(runs, ByIndex()))) == multiset(RunIndices(runs))
  {
    if |runs| > 0 {
      var n := |runs| - 1;
      IndicesSort(runs[..n]);
      IndicesInsert(SortBy(runs[..n], ByIndex()), runs[n]);
      IndicesAppend(runs[..n], runs[n]);
      DropLast(runs);
    }
  }

  lemma TurnIndices(c: Config, d: nat, runs: seq<Run>, completed: set<int>, i: int)
    ensures multiset(RunIndices(Turn(c, d, runs, completed, i)))
            == multiset(RunIndices(runs)) + if i in completed then multiset{} else multiset{i}
  {
    if i !in completed {
      IndicesSort(runs + [Record(c, d, i)]);
      IndicesAppend(runs, Record(c, d, i));
    }
  }

  /** Index i is in the list once more when it was missing. */
  lemma {:induction false} FillIndices(c: Config, d: nat, kept: seq<Run>, completed: set<int>, upTo: nat, i: int)
    ensures multiset(RunIndices(FillLoop(c, d, kept, completed, upTo)))[i]
            == multiset(RunIndices(kept))[i] + if 1 <= i <= upTo && i !in completed then 1 else 0
  {
    if upTo > 0 {
      FillIndices(c, d, kept, completed, upTo - 1, i);
      TurnIndices(c, d, FillLoop(c, d, kept, completed, upTo - 1), completed, upTo);
    }
  }

  lemma CompletedCount(kept: seq<Run>, i: int)
    ensures i in Completed(kept) <==> multiset(RunIndices(kept))[i] > 0
  {
    InCompleted(kept, i);
    if i in Completed(kept) {
      var k :| 0 <= k < |kept| && kept[k].runIndex == i;
      assert RunIndices(kept)[k] in multiset(RunIndices(kept));
    }
    if i in multiset(RunIndices(kept)) {
      var k :| 0 <= k < |kept| && RunIndices(kept)[k] == i;
      assert kept[k].runIndex == i;
    }
  }

  /** The indices recorded on the way are the kept ones and those passed. */
  lemma CompletedIndices(c: Config, d: nat, kept: seq<Run>, upTo: nat, i: int)
    ensures i in Completed(Fill(c, d, kept, upTo)) <==> i in Completed(kept) || 1 <= i <= upTo
  {
    FillIndices(c, d, kept, Completed(kept), upTo, i);
    CompletedCount(kept, i);
    CompletedCount(Fill(c, d, kept, upTo), i);
  }

  // ---- going on after a crash ----

  /** Continuing from the list of an interrupted execution gives the list of an uninterrupted one. */
  lemma {:induction false} FillFromFill(c: Config, d: nat, kept: seq<Run>, done: nat, upTo: nat)
    ensures Fill(c, d, Fill(c, d, kept, done), upTo) == Fill(c, d, kept, if upTo < done then done else upTo)
  {
    if upTo > 0 {
      FillFromFill(c, d, kept, done, upTo - 1);
      CompletedIndices(c, d, kept, done, upTo);
    }
  }

  /** Reading back what a crashed execution wrote and going on loses nothing and repeats nothing. */
  lemma ResumeIsTransparent(c: Config, d: nat, stored: seq<Run>, done: nat, upTo: nat)
    requires c.Valid() && d < |c.datasets|
    ensures var n := c.datasets[d].numSamples;
            Fill(c, d, Cleaned(Fill(c, d, Cleaned(stored, n), done), n), upTo)
            == Fill(c, d, Cleaned(stored, n), if upTo < done then done else upTo)
  {
    var n := c.datasets[d].numSamples;
    CleanedIsClean(stored, n);
    FillIsClean(c, d, Cleaned(stored, n), done);
    CleanStays(Fill(c, d, Cleaned(stored, n), done), n);
    FillFromFill(c, d, Cleaned(stored, n), done, upTo);
  }

  // ---- when the file is complete ----

  lemma {:induction false} RangeCount(n: nat, i: int)
    ensures multiset(Range(n))[i] == if 1 <= i <= n then 1 else 0
  {
    if n > 0 {
      RangeCount(n - 1, i);
      assert Range(n) == Range(n - 1) + [n];
    }
  }

  lemma {:induction false} CountAtMostOnce(xs: seq<int>)
    ensures (forall a, b :: 0 <= a < b < |xs| ==> xs[a] != xs[b]) <==> forall i :: multiset(xs)[i] <= 1
  {
    if |xs| > 0 {
      var n := |xs| - 1;
      DropLast(xs);
      CountAtMostOnce(xs[..n]);
      assert xs[n] in xs[..n] <==> xs[n] in multiset(xs[..n]);
      if forall a, b :: 0 <= a < b < |xs| ==> xs[a] != xs[b] {
        assert xs[n] !in xs[..n];
      } else if forall a, b :: 0 <= a < b < n ==> xs[..n][a] != xs[..n][b] {
        assert xs[n] in xs[..n];
        assert multiset(xs)[xs[n]] == multiset(xs[..n])[xs[n]] + 1;
      } else {
        var i :| multiset(xs[..n])[i] > 1;
        assert multiset(xs)[i] > 1;
      }
    }
  }

  /** The kept runs have different indices, all within the target. */
  predicate Usable(kept: seq<Run>, numRuns: nat) {
    && (forall a, b :: 0 <= a < b < |kept| ==> kept[a].runIndex != kept[b].runIndex)
    && (forall a :: 0 <= a < |kept| ==> 1 <= kept[a].runIndex <= numRuns)
  }

  lemma UsableCounts(kept: seq<Run>, numRuns: nat)
    ensures Usable(kept, numRuns) <==> forall i :: multiset(RunIndices(kept))[i] <= if 1 <= i <= numRuns then 1 else 0
  {
    CountAtMostOnce(RunIndices(kept));
    forall a | 0 <= a < |kept|
      ensures multiset(RunIndices(kept))[kept[a].runIndex] >= 1
    {
      assert RunIndices(kept)[a] in multiset(RunIndices(kept));
    }
    forall i | multiset(RunIndices(kept))[i] > 0
      ensures exists a :: 0 <= a < |kept| && kept[a].runIndex == i
    {
      assert i in RunIndices(kept);
    }
    if Usable(kept, numRuns) {
      assert forall a, b :: 0 <= a < b < |RunIndices(kept)| ==> RunIndices(kept)[a] != RunIndices(kept)[b];
    } else if forall a :: 0 <= a < |kept| ==> 1 <= kept[a].runIndex <= numRuns {
      var a, b :| 0 <= a < b < |kept| && kept[a].runIndex == kept[b].runIndex;
      assert RunIndices(kept)[a] == RunIndices(kept)[b];
    }
  }

  lemma FinalCount(c: Config, d: nat, kept: seq<Run>, n: nat, i: int)
    ensures var k := multiset(RunIndices(kept))[i];
            && multiset(RunIndices(Fill(c, d, kept, n)))[i] == (if 1 <= i <= n && k == 0 then 1 else k)
            && multiset(Range(n))[i] == if 1 <= i <= n then 1 else 0
  {
    FillIndices(c, d, kept, Completed(kept), n, i);
    CompletedCount(kept, i);
    RangeCount(n, i);
  }

  lemma UsableCompletes(c: Config, d: nat, kept: seq<Run>)
    requires c.Valid() && d < |c.datasets| && Clean(kept, c.datasets[d].numSamples)
    requires Usable(kept, c.datasets[d].numRuns)
    ensures RunIndices(Fill(c, d, kept, c.datasets[d].numRuns)) == Range(c.datasets[d].numRuns)
  {
    var n := c.datasets[d].numRuns;
    var a, b := RunIndices(Fill(c, d, kept, n)), Range(n);
    UsableCounts(kept, n);
    forall i
      ensures multiset(a)[i] == multiset(b)[i]
    {
      FinalCount(c, d, kept, n, i);
    }
    assert multiset(a) == multiset(b);
    FillIsClean(c, d, kept, n);
    IndicesSorted(Fill(c, d, kept, n), c.datasets[d].numSamples);
    SortedUnique(a, b, AtMostInt());
  }

  lemma CompleteIsUsable(c: Config, d: nat, kept: seq<Run>, n: nat)
    requires RunIndices(Fill(c, d, kept, n)) == Range(n)
    ensures Usable(kept, n)
  {
    forall i
      ensures multiset(RunIndices(kept))[i] <= if 1 <= i <= n then 1 else 0
    {
      FinalCount(c, d, kept, n, i);
    }
    UsableCounts(kept, n);
  }

  /** A finished dataset holds the runs 1 to numRuns, each once, exactly when the runs it started from were usable. */
  lemma CompleteExactlyWhen(c: Config, d: nat, kept: seq<Run>)
    requires c.Valid() && d < |c.datasets| && Clean(kept, c.datasets[d].numSamples)
    ensures RunIndices(Fill(c, d, kept, c.datasets[d].numRuns)) == Range(c.datasets[d].numRuns)
            <==> Usable(kept, c.datasets[d].numRuns)
  {
    if Usable(kept, c.datasets[d].numRuns) {
      UsableCompletes(c, d, kept);
    } else if RunIndices(Fill(c, d, kept, c.datasets[d].numRuns)) == Range(c.datasets[d].numRuns) {
      CompleteIsUsable(c, d, kept, c.datasets[d].numRuns);
    }
  }

  function AtMostInt(): Order<int> { ByKey((i: int) => i) }

  lemma IndicesSorted(runs: seq<Run>, n: nat)
    requires Clean(runs, n)
    ensures Sorted(RunIndices(runs), AtMostInt())
  {
    assert forall k :: 0 <= k < |runs| ==> ValidateRun(runs[k], n) && IndexOf(runs[k]) == RunIndices(runs)[k];
    forall a, b | 0 <= a < b < |runs|
      ensures RunIndices(runs)[a] <= RunIndices(runs)[b]
    {
      assert ByIndex()(runs[a], runs[b]);
    }
  }

  function FirstRuns(c: Config, d: nat, n: nat): (r: seq<Run>)
    ensures |r| == n && forall k :: 0 <= k < n ==> r[k] == Record(c, d, k + 1)
  {
    seq(n, (k: nat) => Record(c, d, k + 1))
  }

  lemma FirstRunsStep(c: Config, d: nat, n: nat)
    ensures SortBy(FirstRuns(c, d, n) + [Record(c, d, n + 1)], ByIndex()) == FirstRuns(c, d, n + 1)
  {
    var runs := FirstRuns(c, d, n + 1);
    assert runs == FirstRuns(c, d, n) + [Record(c, d, n + 1)];
    assert forall k :: 0 <= k <= n ==> IndexOf(runs[k]) == k + 1;
    SortedStays(runs, ByIndex());
  }

  lemma {:induction false} LoopFromNothing(c: Config, d: nat, completed: set<int>, upTo: nat)
    requires completed == {}
    ensures FillLoop(c, d, [], completed, upTo) == FirstRuns(c, d, upTo)
  {
    if upTo > 0 {
      LoopFromNothing(c, d, completed, upTo - 1);
      FirstRunsStep(c, d, upTo - 1);
    }
  }

  /** From nothing, the loop appends the runs 1, 2, ... with their seeds. */
  lemma FillFromNothing(c: Config, d: nat, upTo: nat)
    ensures |Fill(c, d, [], upTo)| == upTo
    ensures forall k :: 0 <= k < upTo ==> Fill(c, d, [], upTo)[k] == Record(c, d, k + 1)
    ensures forall k :: 0 <= k < upTo ==>
              var r, out := Fill(c, d, [], upTo)[k], c.evaluate(d, k + 1, c.baseSeed + d * 100000 + k + 1);
              && r.runIndex == k + 1 && r.seed == c.baseSeed + d * 100000 + k + 1
              && r.sampleCorrect == out.scores && r.avgOutputLength == out.avgLength && r.total == |out.scores|
  {
    LoopFromNothing(c, d, Completed([]), upTo);
  }
}
