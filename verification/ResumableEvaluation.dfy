/**
 The main loop of eval/eval_high_tasks_sglang.py over its result file. A session is one execution that may crash
 after any number of writes to the file; only what was written survives.
 */
module ResumableEvaluation {
  import opened Wrappers
  import opened Sorting
  import opened Resume

  /** The "datasets" part of the result file: the stored runs per dataset name. */
  type Contents = map<string, seq<Run>>

  function Stored(file: Option<Contents>, name: string): seq<Run> {
    if file.Some? && name in file.value then file.value[name] else []
  }

  /** What an execution keeps of the file for dataset d. */
  function Kept(c: Config, d: nat, file: Option<Contents>): seq<Run>
    requires d < |c.datasets|
  {
    Cleaned(Stored(file, c.datasets[d].name), c.datasets[d].numSamples)
  }

  /** Dataset d holds the kept runs, filled up to index upTo. */
  ghost predicate FilledTo(c: Config, d: nat, kept: seq<Run>, after: Contents, upTo: nat)
    requires d < |c.datasets|
  {
    && c.datasets[d].name in after
    && upTo <= c.datasets[d].numRuns
    && after[c.datasets[d].name] == Fill(c, d, kept, upTo)
  }

  ghost predicate PartlyFilled(c: Config, d: nat, kept: seq<Run>, after: Contents)
    requires d < |c.datasets|
  {
    exists upTo: nat :: FilledTo(c, d, kept, after, upTo)
  }

  /** Datasets that are not evaluated here keep their stored runs. */
  ghost predicate OthersKept(c: Config, before: Option<Contents>, after: Contents) {
    forall name :: !Evaluated(c, name) ==> Stored(Some(after), name) == Stored(before, name)
  }

  predicate Evaluated(c: Config, name: string) {
    exists d :: 0 <= d < |c.datasets| && c.datasets[d].name == name
  }

  ghost predicate Progressing(c: Config, before: Option<Contents>, after: Contents) {
    && (forall d: nat :: d < |c.datasets| ==> PartlyFilled(c, d, Kept(c, d, before), after))
    && OthersKept(c, before, after)
  }

  /** What a session that may have crashed leaves in the file. */
  ghost predicate Progressed(c: Config, before: Option<Contents>, after: Option<Contents>) {
    after == before || (after.Some? && Progressing(c, before, after.value))
  }

  /** What a session that came to its end leaves in the file. */
  ghost predicate Finished(c: Config, before: Option<Contents>, after: Option<Contents>) {
    && after.Some? && OthersKept(c, before, after.value)
    && forall d: nat :: d < |c.datasets| ==> FilledTo(c, d, Kept(c, d, before), after.value, c.datasets[d].numRuns)
  }

  // ---- sessions in a row ----

  function Max(a: nat, b: nat): nat {
    if a < b then b else a
  }

  lemma FilledTwice(c: Config, d: nat, f0: Option<Contents>, f1: Contents, f2: Contents, done: nat, upTo: nat)
    requires c.Valid() && d < |c.datasets|
    requires FilledTo(c, d, Kept(c, d, f0), f1, done) && FilledTo(c, d, Kept(c, d, Some(f1)), f2, upTo)
    ensures FilledTo(c, d, Kept(c, d, f0), f2, Max(upTo, done))
  {
    ResumeIsTransparent(c, d, Stored(f0, c.datasets[d].name), done, upTo);
  }

  /** Two sessions in a row make the progress of one. */
  lemma ProgressTwice(c: Config, f0: Option<Contents>, f1: Option<Contents>, f2: Option<Contents>)
    requires c.Valid() && Progressed(c, f0, f1) && Progressed(c, f1, f2)
    ensures Progressed(c, f0, f2)
  {
    if f1 != f0 && f2 != f1 {
      forall d: nat | d < |c.datasets|
        ensures PartlyFilled(c, d, Kept(c, d, f0), f2.value)
      {
        assert PartlyFilled(c, d, Kept(c, d, f0), f1.value) && PartlyFilled(c, d, Kept(c, d, f1), f2.value);
        var done: nat :| FilledTo(c, d, Kept(c, d, f0), f1.value, done);
        var upTo: nat :| FilledTo(c, d, Kept(c, d, f1), f2.value, upTo);
        FilledTwice(c, d, f0, f1.value, f2.value, done, upTo);
      }
    }
  }

  /** A session that finishes after crashed ones leaves what an uninterrupted session would have left. */
  lemma FinishAfterProgress(c: Config, f0: Option<Contents>, f1: Option<Contents>, f2: Option<Contents>)
    requires c.Valid() && Progressed(c, f0, f1) && Finished(c, f1, f2)
    ensures Finished(c, f0, f2)
  {
    if f1 != f0 {
      forall d: nat | d < |c.datasets|
        ensures FilledTo(c, d, Kept(c, d, f0), f2.value, c.datasets[d].numRuns)
      {
        assert PartlyFilled(c, d, Kept(c, d, f0), f1.value);
        var done: nat :| FilledTo(c, d, Kept(c, d, f0), f1.value, done);
        FilledTwice(c, d, f0, f1.value, f2.value, done, c.datasets[d].numRuns);
      }
    }
  }

  // ---- the state of one session ----

  /** The runs that the session kept, per dataset. */
  ghost predicate IsKept(c: Config, before: Option<Contents>, kept: seq<seq<Run>>) {
    |kept| == |c.datasets| && forall d: nat {:trigger Kept(c, d, before)} :: d < |c.datasets| ==> kept[d] == Kept(c, d, before)
  }

  /** In memory: the datasets are filled as far as upTo says. */
  ghost predicate InMemory(c: Config, kept: seq<seq<Run>>, all: Contents, upTo: seq<nat>) {
    && |upTo| == |kept| == |c.datasets|
    && (forall d: nat {:trigger FilledTo(c, d, kept[d], all, upTo[d])} ::
          d < |c.datasets| ==> FilledTo(c, d, kept[d], all, upTo[d]))
  }

  lemma InMemoryProgresses(c: Config, before: Option<Contents>, kept: seq<seq<Run>>, all: Contents, upTo: seq<nat>)
    requires InMemory(c, kept, all, upTo) && IsKept(c, before, kept) && OthersKept(c, before, all)
    ensures Progressing(c, before, all)
  {
    forall d: nat | d < |c.datasets|
      ensures PartlyFilled(c, d, Kept(c, d, before), all)
    {
      assert FilledTo(c, d, kept[d], all, upTo[d]);
    }
  }

  /** The first n datasets are done, the others are as they were kept. */
  function Targets(c: Config, n: nat): (r: seq<nat>)
    ensures |r| == |c.datasets|
  {
    seq(|c.datasets|, d requires 0 <= d < |c.datasets| => if d < n then c.datasets[d].numRuns else 0)
  }

  lemma TargetsStep(c: Config, d: nat)
    requires d < |c.datasets|
    ensures Targets(c, d)[d] == 0 && Targets(c, d)[d := c.datasets[d].numRuns] == Targets(c, d + 1)
  {
  }

  lemma InMemoryFinishes(c: Config, before: Option<Contents>, kept: seq<seq<Run>>, all: Contents)
    requires InMemory(c, kept, all, Targets(c, |c.datasets|)) && IsKept(c, before, kept) && OthersKept(c, before, all)
    ensures Finished(c, before, Some(all))
  {
    forall d: nat | d < |c.datasets|
      ensures FilledTo(c, d, Kept(c, d, before), all, c.datasets[d].numRuns)
    {
      assert FilledTo(c, d, kept[d], all, Targets(c, |c.datasets|)[d]);
    }
  }

  lemma OtherName(c: Config, d: nat, e: nat)
    requires c.Valid() && d < |c.datasets| && e < |c.datasets|
    ensures c.datasets[d].name == c.datasets[e].name ==> d == e
  {
  }

  lemma OthersStayKept(c: Config, before: Option<Contents>, all: Contents, d: nat, runs: seq<Run>)
    requires d < |c.datasets| && OthersKept(c, before, all)
    ensures OthersKept(c, before, all[c.datasets[d].name := runs])
  {
    assert Evaluated(c, c.datasets[d].name);
    forall name | !Evaluated(c, name)
      ensures Stored(Some(all[c.datasets[d].name := runs]), name) == Stored(before, name)
    {
      assert Stored(Some(all), name) == Stored(before, name);
    }
  }

  /** Only dataset d changes. */
  lemma InMemoryStep(c: Config, kept: seq<seq<Run>>, all: Contents, upTo: seq<nat>, d: nat, runs: seq<Run>, next: nat)
    requires c.Valid() && InMemory(c, kept, all, upTo) && d < |c.datasets| && next <= c.datasets[d].numRuns
    requires runs == Fill(c, d, kept[d], next)
    ensures InMemory(c, kept, all[c.datasets[d].name := runs], upTo[d := next])
  {
    var after := all[c.datasets[d].name := runs];
    var upTo' := upTo[d := next];
    forall e: nat | e < |c.datasets|
      ensures FilledTo(c, e, kept[e], after, upTo'[e])
    {
      assert FilledTo(c, e, kept[e], all, upTo[e]);
      OtherName(c, d, e);
    }
  }

  /** How many of the indices 1 to n are not completed. */
  function CountMissing(completed: set<int>, n: nat): nat {
    if n == 0 then 0 else CountMissing(completed, n - 1) + if n in completed then 0 else 1
  }

  lemma {:induction false} CountMissingGrows(completed: set<int>, i: nat, j: nat)
    requires i <= j
    ensures CountMissing(completed, i) <= CountMissing(completed, j)
  {
    if i < j {
      CountMissingGrows(completed, i, j - 1);
    }
  }

  /** How many runs of dataset d are still to be done. */
  function ToDo(c: Config, d: nat, kept: seq<Run>): nat
    requires d < |c.datasets|
  {
    CountMissing(Completed(kept), c.datasets[d].numRuns)
  }

  /** The writes that the loop over the first n datasets makes. */
  function CostOf(c: Config, kept: seq<seq<Run>>, n: nat): nat
    requires n <= |c.datasets| == |kept|
  {
    if n == 0 then 0 else CostOf(c, kept, n - 1) + ToDo(c, n - 1, kept[n - 1])
  }

  lemma {:induction false} CostGrows(c: Config, kept: seq<seq<Run>>, i: nat, j: nat)
    requires i <= j <= |c.datasets| == |kept|
    ensures CostOf(c, kept, i) <= CostOf(c, kept, j)
  {
    if i < j {
      CostGrows(c, kept, i, j - 1);
    }
  }

  lemma CostStep(c: Config, kept: seq<seq<Run>>, d: nat)
    requires d < |c.datasets| == |kept|
    ensures CostOf(c, kept, d + 1) == CostOf(c, kept, d) + ToDo(c, d, kept[d])
    ensures CostOf(c, kept, d + 1) <= CostOf(c, kept, |c.datasets|)
  {
    CostGrows(c, kept, d + 1, |c.datasets|);
  }

  ghost function KeptAll(c: Config, before: Option<Contents>): (r: seq<seq<Run>>)
    ensures IsKept(c, before, r)
  {
    seq(|c.datasets|, d requires 0 <= d < |c.datasets| => Kept(c, d, before))
  }

  /** The runs that a session started on this file has to do. */
  ghost function RunsLeft(c: Config, file: Option<Contents>): nat {
    CostOf(c, KeptAll(c, file), |c.datasets|)
  }

  // ---- what is left after a crash ----

  lemma ReadsBack(c: Config, d: nat, before: Option<Contents>, all: Contents, upTo: nat)
    requires c.Valid() && d < |c.datasets| && FilledTo(c, d, Kept(c, d, before), all, upTo)
    ensures Kept(c, d, Some(all)) == Fill(c, d, Kept(c, d, before), upTo)
  {
    var n := c.datasets[d].numSamples;
    CleanedIsClean(Stored(before, c.datasets[d].name), n);
    FillIsClean(c, d, Kept(c, d, before), upTo);
    CleanStays(Fill(c, d, Kept(c, d, before), upTo), n);
  }

  lemma {:induction false} CountPassed(completed: set<int>, after: set<int>, upTo: nat, n: nat)
    requires forall i: int :: i in after <==> i in completed || 1 <= i <= upTo
    ensures CountMissing(after, n) + CountMissing(completed, if n < upTo then n else upTo) == CountMissing(completed, n)
  {
    if n > 0 {
      CountPassed(completed, after, upTo, n - 1);
    }
  }

  /** The indices that were recorded need not be done again. */
  lemma ToDoAfter(c: Config, d: nat, before: Option<Contents>, all: Contents, upTo: nat)
    requires c.Valid() && d < |c.datasets| && FilledTo(c, d, Kept(c, d, before), all, upTo)
    ensures ToDo(c, d, Kept(c, d, Some(all))) + CountMissing(Completed(Kept(c, d, before)), upTo) == ToDo(c, d, Kept(c, d, before))
  {
    var kept := Kept(c, d, before);
    ReadsBack(c, d, before, all, upTo);
    forall i: int
      ensures i in Completed(Fill(c, d, kept, upTo)) <==> i in Completed(kept) || 1 <= i <= upTo
    {
      CompletedIndices(c, d, kept, upTo, i);
    }
    CountPassed(Completed(kept), Completed(Fill(c, d, kept, upTo)), upTo, c.datasets[d].numRuns);
  }

  /** The writes that were made for the first n datasets when they are filled as far as upTo says. */
  function Made(c: Config, kept: seq<seq<Run>>, upTo: seq<nat>, n: nat): nat
    requires n <= |upTo| == |kept|
  {
    if n == 0 then 0 else Made(c, kept, upTo, n - 1) + CountMissing(Completed(kept[n - 1]), upTo[n - 1])
  }

  lemma OneCostAfter(c: Config, before: Option<Contents>, kept: seq<seq<Run>>, all: Contents, upTo: seq<nat>, d: nat)
    requires c.Valid() && IsKept(c, before, kept) && InMemory(c, kept, all, upTo) && d < |c.datasets|
    ensures ToDo(c, d, KeptAll(c, Some(all))[d]) + CountMissing(Completed(kept[d]), upTo[d]) == ToDo(c, d, kept[d])
  {
    assert kept[d] == Kept(c, d, before) && KeptAll(c, Some(all))[d] == Kept(c, d, Some(all));
    assert FilledTo(c, d, kept[d], all, upTo[d]);
    ToDoAfter(c, d, before, all, upTo[d]);
  }

  lemma {:induction false} CostAfter(c: Config, before: Option<Contents>, kept: seq<seq<Run>>, all: Contents, upTo: seq<nat>, n: nat)
    requires c.Valid() && IsKept(c, before, kept) && InMemory(c, kept, all, upTo) && n <= |c.datasets|
    ensures CostOf(c, KeptAll(c, Some(all)), n) + Made(c, kept, upTo, n) == CostOf(c, kept, n)
  {
    if n > 0 {
      CostAfter(c, before, kept, all, upTo, n - 1);
      OneCostAfter(c, before, kept, all, upTo, n - 1);
    }
  }

  /** The first d datasets are done, and of the next one the indices up to i. */
  lemma {:induction false} MadeUpTo(c: Config, kept: seq<seq<Run>>, upTo: seq<nat>, d: nat, i: nat, n: nat)
    requires d < |c.datasets| == |kept| && n <= |kept| && upTo == Targets(c, d)[d := i]
    ensures Made(c, kept, upTo, n) == if n <= d then CostOf(c, kept, n) else CostOf(c, kept, d) + CountMissing(Completed(kept[d]), i)
  {
    if n > 0 {
      MadeUpTo(c, kept, upTo, d, i, n - 1);
    }
  }

  lemma {:induction false} MadeTargets(c: Config, kept: seq<seq<Run>>, d: nat, n: nat)
    requires d <= |c.datasets| == |kept| && n <= |kept|
    ensures Made(c, kept, Targets(c, d), n) == CostOf(c, kept, if n <= d then n else d)
  {
    if n > 0 {
      MadeTargets(c, kept, d, n - 1);
    }
  }

  /** The runs left when the first d datasets are done. */
  lemma LeftAtTargets(c: Config, before: Option<Contents>, kept: seq<seq<Run>>, all: Contents, d: nat)
    requires c.Valid() && d <= |c.datasets| && IsKept(c, before, kept) && InMemory(c, kept, all, Targets(c, d))
    ensures RunsLeft(c, Some(all)) + CostOf(c, kept, d) == CostOf(c, kept, |c.datasets|)
  {
    CostAfter(c, before, kept, all, Targets(c, d), |c.datasets|);
    MadeTargets(c, kept, d, |c.datasets|);
  }

  lemma LeftAtIndex(c: Config, before: Option<Contents>, kept: seq<seq<Run>>, all: Contents, d: nat, i: nat)
    requires c.Valid() && d < |c.datasets| && IsKept(c, before, kept) && InMemory(c, kept, all, Targets(c, d)[d := i])
    ensures RunsLeft(c, Some(all)) + CostOf(c, kept, d) + CountMissing(Completed(kept[d]), i) == CostOf(c, kept, |c.datasets|)
  {
    CostAfter(c, before, kept, all, Targets(c, d)[d := i], |c.datasets|);
    MadeUpTo(c, kept, Targets(c, d)[d := i], d, i, |c.datasets|);
  }

  /** The first write of a session is the cleaned list, so this many runs are recorded before the given crashes. */
  function RunsRecorded(crashes: seq<nat>): nat {
    if |crashes| == 0 then 0
    else RunsRecorded(crashes[..|crashes| - 1]) + LessOne(crashes[|crashes| - 1])
  }

  function LessOne(writes: nat): nat {
    if writes == 0 then 0 else writes - 1
  }

  /** The runs that are left of the given number after the given crashes. */
  function LeftAfter(runs: nat, crashes: seq<nat>): nat {
    if RunsRecorded(crashes) < runs then runs - RunsRecorded(crashes) else 0
  }

  /** Session k gets the cleaned list, all runs that are still left and the summary written. */
  predicate EndsAt(runs: nat, crashes: seq<nat>, k: nat)
    requires k < |crashes|
  {
    crashes[k] >= LeftAfter(runs, crashes[..k]) + 2
  }

  lemma LeftStep(runs: nat, crashes: seq<nat>, k: nat)
    requires k < |crashes|
    ensures var left := LeftAfter(runs, crashes[..k]);
            LeftAfter(runs, crashes[..k + 1]) == if LessOne(crashes[k]) < left then left - LessOne(crashes[k]) else 0
  {
    assert crashes[..k + 1][..k] == crashes[..k];
  }

  lemma {:induction false} RecordedAtLeast(crashes: seq<nat>, k: nat)
    requires k <= |crashes| && forall j :: 0 <= j < k ==> crashes[j] >= 2
    ensures RunsRecorded(crashes[..k]) >= k
  {
    if k > 0 {
      RecordedAtLeast(crashes, k - 1);
      assert crashes[..k][..k - 1] == crashes[..k - 1];
    }
  }

  /** Sessions of two writes make progress: with one more of them than there are runs left, the evaluation ends. */
  lemma ShortSessionsEnd(runs: nat, crashes: seq<nat>)
    requires |crashes| > runs && forall j :: 0 <= j < |crashes| ==> crashes[j] >= 2
    ensures EndsAt(runs, crashes, runs)
  {
    RecordedAtLeast(crashes, runs);
  }

  /** The loop has passed index i - 1 of dataset d, and index i is there already. */
  lemma IndexSkipped(c: Config, kept: seq<seq<Run>>, all: Contents, upTo: seq<nat>, d: nat, i: nat)
    requires c.Valid() && d < |c.datasets| == |upTo| && 1 <= i <= c.datasets[d].numRuns
    requires InMemory(c, kept, all, upTo[d := i - 1]) && i in Completed(kept[d])
    ensures InMemory(c, kept, all, upTo[d := i])
  {
    var now := upTo[d := i - 1];
    assert FilledTo(c, d, kept[d], all, now[d]);
    FillSkips(c, d, kept[d], i);
    InMemoryStep(c, kept, all, now, d, all[c.datasets[d].name], i);
    assert all[c.datasets[d].name := all[c.datasets[d].name]] == all;
    assert now[d := i] == upTo[d := i];
  }

  /** The loop has passed index i - 1 of dataset d, and index i is recorded. */
  lemma IndexRecorded(c: Config, before: Option<Contents>, kept: seq<seq<Run>>, all: Contents, upTo: seq<nat>, d: nat, i: nat)
    requires c.Valid() && d < |c.datasets| == |upTo| && 1 <= i <= c.datasets[d].numRuns
    requires InMemory(c, kept, all, upTo[d := i - 1]) && i !in Completed(kept[d])
    requires IsKept(c, before, kept) && OthersKept(c, before, all)
    ensures c.datasets[d].name in all
    ensures var after := WithRun(c, d, all, i);
            InMemory(c, kept, after, upTo[d := i]) && OthersKept(c, before, after) && Progressing(c, before, after)
  {
    var now := upTo[d := i - 1];
    assert FilledTo(c, d, kept[d], all, now[d]);
    FillRecords(c, d, kept[d], i);
    var runs := WithRun(c, d, all, i)[c.datasets[d].name];
    InMemoryStep(c, kept, all, now, d, runs, i);
    assert now[d := i] == upTo[d := i];
    OthersStayKept(c, before, all, d, runs);
    InMemoryProgresses(c, before, kept, WithRun(c, d, all, i), upTo[d := i]);
  }

  /** The record of run i appended and the list sorted again. */
  function WithRun(c: Config, d: nat, all: Contents, i: int): Contents
    requires d < |c.datasets| && c.datasets[d].name in all
  {
    all[c.datasets[d].name := SortBy(all[c.datasets[d].name] + [Record(c, d, i)], ByIndex())]
  }

  class Session {
    var file: Option<Contents>

    constructor (file: Option<Contents>)
      ensures this.file == file
    {
      this.file := file;
    }

    /** Start-up: the stored runs of every dataset, sorted and filtered. */
    static method LoadRuns(c: Config, existing: Option<Contents>) returns (allResults: Contents)
      requires c.Valid()
      ensures InMemory(c, KeptAll(c, existing), allResults, Targets(c, 0))
      ensures OthersKept(c, existing, allResults)
    {
      allResults := if existing.Some? then existing.value else map[];
      for d := 0 to |c.datasets|
        invariant OthersKept(c, existing, allResults)
        invariant forall e :: 0 <= e < d ==> FilledTo(c, e, Kept(c, e, existing), allResults, 0)
        invariant forall e :: d <= e < |c.datasets| ==>
                    Stored(Some(allResults), c.datasets[e].name) == Stored(existing, c.datasets[e].name)
      {
        var name := c.datasets[d].name;
        forall e: nat | e < |c.datasets|
          ensures c.datasets[e].name == name ==> e == d
        {
          OtherName(c, d, e);
        }
        ghost var loaded := allResults;
        var runs := Cleaned(Stored(Some(allResults), name), c.datasets[d].numSamples);
        OthersStayKept(c, existing, allResults, d, runs);
        allResults := allResults[name := runs];
        assert allResults[name] == Kept(c, d, existing);
        forall e | 0 <= e < d
          ensures FilledTo(c, e, Kept(c, e, existing), allResults, 0)
        {
          assert FilledTo(c, e, Kept(c, e, existing), loaded, 0);
        }
      }
    }

    /** The loop over the run indices of one dataset; stops when no write is left before the crash. */
    method RunDataset(c: Config, d: nat, allResults: Contents, writes: nat,
                      ghost before: Option<Contents>, ghost kept: seq<seq<Run>>, ghost upTo: seq<nat>)
      returns (results: Contents, left: Option<nat>, ghost reached: nat)
      requires c.Valid() && d < |c.datasets|
      requires InMemory(c, kept, allResults, upTo) && upTo[d] == 0 && file == Some(allResults)
      requires IsKept(c, before, kept) && OthersKept(c, before, allResults) && Progressed(c, before, file)
      modifies this
      ensures Progressed(c, before, file) && OthersKept(c, before, results)
      ensures left == if writes < ToDo(c, d, kept[d]) then None else Some(writes - ToDo(c, d, kept[d]))
      ensures file.Some? && InMemory(c, kept, file.value, upTo[d := reached])
      ensures left.Some? ==> file == Some(results) && reached == c.datasets[d].numRuns
      ensures left.None? ==> CountMissing(Completed(kept[d]), reached) == writes
    {
      var numRuns := c.datasets[d].numRuns;
      results := allResults;
      var remaining := writes;
      assert FilledTo(c, d, kept[d], allResults, upTo[d]);
      assert upTo[d := 0] == upTo;
      var completed := Completed(results[c.datasets[d].name]);
      for runIndex := 1 to numRuns + 1
        invariant InMemory(c, kept, results, upTo[d := runIndex - 1])
        invariant Progressed(c, before, file) && OthersKept(c, before, results) && file == Some(results)
        invariant remaining == writes - CountMissing(completed, runIndex - 1)
      {
        CountMissingGrows(completed, runIndex, numRuns);
        if runIndex in completed {
          IndexSkipped(c, kept, results, upTo, d, runIndex);
          continue;
        }
        IndexRecorded(c, before, kept, results, upTo, d, runIndex);
        results := WithRun(c, d, results, runIndex);
        if remaining == 0 {
          return results, None, runIndex - 1;
        }
        file := Some(results);
        remaining := remaining - 1;
      }
      left, reached := Some(remaining), numRuns;
    }

    /** The loop over the datasets. */
    method RunAll(c: Config, allResults: Contents, writes: nat, ghost before: Option<Contents>, ghost kept: seq<seq<Run>>)
      returns (results: Contents, left: Option<nat>)
      requires c.Valid() && InMemory(c, kept, allResults, Targets(c, 0)) && file == Some(allResults)
      requires IsKept(c, before, kept) && OthersKept(c, before, allResults) && Progressed(c, before, file)
      modifies this
      ensures Progressed(c, before, file) && OthersKept(c, before, results)
      ensures left == if writes < CostOf(c, kept, |c.datasets|) then None else Some(writes - CostOf(c, kept, |c.datasets|))
      ensures left.Some? ==> InMemory(c, kept, results, Targets(c, |c.datasets|)) && file == Some(results)
      ensures left.None? ==> RunsLeft(c, file) + writes == CostOf(c, kept, |c.datasets|)
    {
      results, left := allResults, Some(writes);
      for d := 0 to |c.datasets|
        invariant CostOf(c, kept, d) <= writes && left == Some(writes - CostOf(c, kept, d))
        invariant InMemory(c, kept, results, Targets(c, d)) && OthersKept(c, before, results)
        invariant Progressed(c, before, file) && file == Some(results)
      {
        CostStep(c, kept, d);
        TargetsStep(c, d);
        ghost var reached;
        results, left, reached := RunDataset(c, d, results, left.value, before, kept, Targets(c, d));
        if left.None? {
          LeftAtIndex(c, before, kept, file.value, d, reached);
          return;
        }
      }
    }

    /** One execution that crashes after the given number of writes, unless it ends before. */
    method Execute(c: Config, writes: nat) returns (finished: bool)
      requires c.Valid()
      modifies this
      ensures Progressed(c, old(file), file)
      ensures finished ==> Finished(c, old(file), file)
      ensures finished <==> writes >= RunsLeft(c, old(file)) + 2
      ensures !finished ==> RunsLeft(c, file) == RunsLeft(c, old(file)) - LessOne(writes)
    {
      ghost var before, kept := file, KeptAll(c, file);
      var allResults := LoadRuns(c, file);
      if writes == 0 {
        return false;
      }
      InMemoryProgresses(c, before, kept, allResults, Targets(c, 0));
      file := Some(allResults);
      LeftAtTargets(c, before, kept, allResults, 0);
      var left;
      allResults, left := RunAll(c, allResults, writes - 1, before, kept);
      if left.None? {
        return false;
      }
      LeftAtTargets(c, before, kept, allResults, |c.datasets|);
      if left.value == 0 {
        return false;
      }
      InMemoryFinishes(c, before, kept, allResults);
      InMemoryProgresses(c, before, kept, allResults, Targets(c, |c.datasets|));
      file := Some(allResults);
      finished := true;
    }

    /** Sessions until one comes to its end: crash k happens after crashes[k] writes, unless session k ends before. */
    method Sessions(c: Config, crashes: seq<nat>) returns (finished: bool)
      requires c.Valid()
      modifies this
      ensures Progressed(c, old(file), file)
      ensures finished ==> Finished(c, old(file), file)
      ensures finished <==> exists k :: 0 <= k < |crashes| && EndsAt(RunsLeft(c, old(file)), crashes, k)
      ensures !finished ==> RunsLeft(c, file) == LeftAfter(RunsLeft(c, old(file)), crashes)
    {
      finished := false;
      var k := 0;
      ghost var runs := RunsLeft(c, file);
      while k < |crashes| && !finished
        invariant k <= |crashes|
        invariant Progressed(c, old(file), file)
        invariant finished ==> Finished(c, old(file), file)
        invariant finished <==> exists j :: 0 <= j < k && EndsAt(runs, crashes, j)
        invariant !finished ==> RunsLeft(c, file) == LeftAfter(runs, crashes[..k])
      {
        ghost var before := file;
        finished := Execute(c, crashes[k]);
        LeftStep(runs, crashes, k);
        assert finished <==> EndsAt(runs, crashes, k);
        ProgressTwice(c, old(file), before, file);
        if finished {
          FinishAfterProgress(c, old(file), before, file);
        }
        k := k + 1;
      }
      assert crashes[..|crashes|] == crashes;
    }
  }

  // ---- what the file says ----

  lemma FilledFromNothing(c: Config, d: nat, after: Contents, upTo: nat)
    requires d < |c.datasets| && FilledTo(c, d, [], after, upTo)
    ensures var runs := Stored(Some(after), c.datasets[d].name);
            |runs| == upTo <= c.datasets[d].numRuns && forall k :: 0 <= k < |runs| ==> runs[k] == Record(c, d, k + 1)
  {
    FillFromNothing(c, d, upTo);
  }

  /** Starting without a file, every state of the file lists runs 1, 2, ... of each dataset with their seeds. */
  lemma FromNoFile(c: Config, after: Option<Contents>, d: nat)
    requires c.Valid() && d < |c.datasets| && Progressed(c, None, after)
    ensures var runs := Stored(after, c.datasets[d].name);
            && |runs| <= c.datasets[d].numRuns
            && (forall k :: 0 <= k < |runs| ==> runs[k] == Record(c, d, k + 1))
            && (Finished(c, None, after) ==> |runs| == c.datasets[d].numRuns)
  {
    var kept := Kept(c, d, None);
    assert kept == [];
    if after.Some? {
      assert PartlyFilled(c, d, kept, after.value);
      var upTo: nat :| FilledTo(c, d, kept, after.value, upTo);
      FilledFromNothing(c, d, after.value, upTo);
      if Finished(c, None, after) {
        FilledFromNothing(c, d, after.value, c.datasets[d].numRuns);
      }
    }
  }

  /** Whatever the file held, a finished dataset has the runs 1 to numRuns exactly when what was kept of it was usable. */
  lemma FinishedExactlyWhen(c: Config, before: Option<Contents>, after: Option<Contents>, d: nat)
    requires c.Valid() && d < |c.datasets| && Finished(c, before, after)
    ensures RunIndices(Stored(after, c.datasets[d].name)) == Range(c.datasets[d].numRuns)
            <==> Usable(Kept(c, d, before), c.datasets[d].numRuns)
  {
    assert FilledTo(c, d, Kept(c, d, before), after.value, c.datasets[d].numRuns);
    CleanedIsClean(Stored(before, c.datasets[d].name), c.datasets[d].numSamples);
    CompleteExactlyWhen(c, d, Kept(c, d, before));
  }
}
