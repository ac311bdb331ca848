/** The checkpoint directory of src/checkpointing.py and the two functions that work on it. */
module CheckpointDirectory {
  import opened Wrappers
  import opened Retention
  import opened Sorting

  /** The sort key `_checkpoint_step(path) or -1`: step 0 becomes -1, which keeps the order. */
  function StepKey(): nat -> int {
    (step: nat) => if step == 0 then -1 else step
  }

  /** An element of metric_checkpoints: ranking metric, step key, and the directory. */
  type Entry = (real, int, nat)

  /** metric_checkpoints.sort(reverse=True): larger tuples first. */
  function LargestFirst(): Order<Entry> {
    (a: Entry, b: Entry) => a.0 > b.0 || (a.0 == b.0 && (a.1 > b.1 || (a.1 == b.1 && a.2 >= b.2)))
  }

  ghost predicate AscendingSteps(steps: seq<nat>) {
    forall i, j :: 0 <= i < j < |steps| ==> steps[i] < steps[j]
  }

  /** A listing in ranking order puts the first n places first. */
  lemma TopIsPrefix(r: Ranking, s: set<Checkpoint>, xs: seq<Checkpoint>, n: nat)
    requires forall c :: c in xs <==> c in s && Ranked(r, c)
    requires forall i, j :: 0 <= i < j < |xs| ==> Before(r, xs[i], xs[j])
    ensures var m := if n < |xs| then n else |xs|;
            forall i :: 0 <= i < |xs| ==> (xs[i] in Top(r, s, n) <==> i < m)
  {
    forall i | 0 <= i < |xs|
      ensures |Ahead(r, s, xs[i])| == i
    {
      assert forall c :: c in xs[..i] ==> exists j :: 0 <= j < i && xs[j] == c;
      assert Ahead(r, s, xs[i]) == set c | c in xs[..i];
      DistinctSize(xs[..i]);
    }
  }

  lemma {:induction false} DistinctSize<T>(xs: seq<T>)
    requires forall i, j :: 0 <= i < j < |xs| ==> xs[i] != xs[j]
    ensures |set x | x in xs| == |xs|
  {
    if |xs| > 0 {
      var n := |xs| - 1;
      DistinctSize(xs[..n]);
      assert (set x | x in xs) == (set x | x in xs[..n]) + {xs[n]};
      assert xs[n] !in xs[..n];
    }
  }

  /** For ascending steps the most recent ones come last. */
  lemma RecentIsSuffix(s: set<Checkpoint>, xs: seq<Checkpoint>, n: nat)
    requires forall c :: c in xs <==> c in s
    requires forall i, j :: 0 <= i < j < |xs| ==> xs[i].step < xs[j].step
    ensures forall i :: 0 <= i < |xs| ==> (xs[i] in Top(ByStep, s, n) <==> |xs| - n <= i)
  {
    var rev := seq(|xs|, i requires 0 <= i < |xs| => xs[|xs| - 1 - i]);
    forall c
      ensures c in rev <==> c in s
    {
      if c in s {
        var i :| 0 <= i < |xs| && xs[i] == c;
        assert rev[|xs| - 1 - i] == c;
      }
    }
    TopIsPrefix(ByStep, s, rev, n);
    assert forall i :: 0 <= i < |xs| ==> rev[|xs| - 1 - i] == xs[i];
  }

  // ---- directories as values ----

  /** Each checkpoint directory by its step, with the log history of its trainer state when that is readable. */
  type Dirs = map<nat, Option<seq<LogEntry>>>

  function At(dirs: Dirs, step: nat): Checkpoint
    requires step in dirs
  {
    Checkpoint(step, MetricOf(dirs[step], step))
  }

  function Checkpoints(dirs: Dirs): set<Checkpoint> {
    set step | step in dirs :: At(dirs, step)
  }

  ghost predicate Lists(steps: seq<nat>, s: set<nat>) {
    && (forall step :: step in steps <==> step in s)
    && (forall i, j :: 0 <= i < j < |steps| ==> steps[i] != steps[j])
  }

  ghost predicate ListsInOrder(steps: seq<nat>, s: set<nat>) {
    Lists(steps, s) && AscendingSteps(steps)
  }

  /** The members of a set, in no particular order. */
  method Enumerate(s: set<nat>) returns (found: seq<nat>)
    ensures Lists(found, s)
  {
    found := [];
    var rest := s;
    while rest != {}
      invariant forall step :: step in s <==> step in found || step in rest
      invariant forall step :: step in found ==> step !in rest
      invariant forall i, j :: 0 <= i < j < |found| ==> found[i] != found[j]
    {
      var step :| step in rest;
      found := found + [step];
      rest := rest - {step};
    }
  }

  /** A permutation of a list without repetition has none either, and the same members. */
  lemma PermutationKeeps<T>(xs: seq<T>, ys: seq<T>)
    requires multiset(xs) == multiset(ys)
    requires forall i, j :: 0 <= i < j < |xs| ==> xs[i] != xs[j]
    ensures forall i, j :: 0 <= i < j < |ys| ==> ys[i] != ys[j]
    ensures forall x :: x in xs <==> x in ys
  {
    DistinctMultiset(xs);
    forall i, j | 0 <= i < j < |ys|
      ensures ys[i] != ys[j]
    {
      if ys[i] == ys[j] {
        TwoCopies(ys, i, j);
      }
    }
    forall x
      ensures x in xs <==> x in ys
    {
      assert x in multiset(xs) <==> x in multiset(ys);
    }
  }

  /** sorted(..., key=_checkpoint_step or -1) */
  method SortSteps(found: seq<nat>, ghost s: set<nat>) returns (steps: seq<nat>)
    requires Lists(found, s)
    ensures ListsInOrder(steps, s)
  {
    steps := SortBy(found, ByKey(StepKey()));
    SortSorts(found, ByKey(StepKey()));
    PermutationKeeps(found, steps);
  }

  lemma RecentSteps(dirs: Dirs, checkpoints: seq<nat>, n: nat)
    requires ListsInOrder(checkpoints, dirs.Keys)
    ensures forall i :: 0 <= i < |checkpoints| ==> (At(dirs, checkpoints[i]) in Top(ByStep, Checkpoints(dirs), n) <==> |checkpoints| - n <= i)
  {
    var xs := seq(|checkpoints|, i requires 0 <= i < |checkpoints| => At(dirs, checkpoints[i]));
    forall c
      ensures c in xs <==> c in Checkpoints(dirs)
    {
      if c in Checkpoints(dirs) {
        var step :| step in dirs && At(dirs, step) == c;
        assert step in checkpoints;
        var i :| 0 <= i < |checkpoints| && checkpoints[i] == step;
        assert xs[i] == c;
      }
    }
    RecentIsSuffix(Checkpoints(dirs), xs, n);
    assert forall i :: 0 <= i < |checkpoints| ==> xs[i] == At(dirs, checkpoints[i]);
  }

  // ---- ranking by metric ----

  function EntryOf(greater: bool, c: Checkpoint): Entry
    requires c.metric.Some?
  {
    (if greater then c.metric.value else -c.metric.value, StepKey()(c.step), c.step)
  }

  /** The entries of exactly the checkpoints that have a metric. */
  ghost predicate Entries(greater: bool, dirs: Dirs, es: seq<Entry>) {
    && (forall e :: e in es ==> e.2 in dirs && At(dirs, e.2).metric.Some? && e == EntryOf(greater, At(dirs, e.2)))
    && (forall step :: step in dirs && At(dirs, step).metric.Some? ==> EntryOf(greater, At(dirs, step)) in es)
    && (forall i, j :: 0 <= i < j < |es| ==> es[i] != es[j])
  }

  /** The entries of the listed checkpoints. */
  ghost predicate EntriesOf(greater: bool, dirs: Dirs, steps: seq<nat>, es: seq<Entry>) {
    && (forall e :: e in es ==> e.2 in steps && e.2 in dirs && At(dirs, e.2).metric.Some? && e == EntryOf(greater, At(dirs, e.2)))
    && (forall step :: step in steps && step in dirs && At(dirs, step).metric.Some? ==> EntryOf(greater, At(dirs, step)) in es)
    && (forall i, j :: 0 <= i < j < |es| ==> es[i] != es[j])
  }

  lemma EntriesSkip(greater: bool, dirs: Dirs, steps: seq<nat>, es: seq<Entry>, step: nat)
    requires EntriesOf(greater, dirs, steps, es) && step in dirs && At(dirs, step).metric.None?
    ensures EntriesOf(greater, dirs, steps + [step], es)
  {
  }

  lemma EntriesAdd(greater: bool, dirs: Dirs, steps: seq<nat>, es: seq<Entry>, step: nat)
    requires EntriesOf(greater, dirs, steps, es) && step in dirs && At(dirs, step).metric.Some? && step !in steps
    ensures EntriesOf(greater, dirs, steps + [step], es + [EntryOf(greater, At(dirs, step))])
  {
    var e := EntryOf(greater, At(dirs, step));
    assert e !in es;
    forall x | x in es + [e]
      ensures x in es || x == e
    {
    }
    assert (es + [e])[|es|] == e;
    forall other | other in steps + [step] && other in dirs && At(dirs, other).metric.Some?
      ensures EntryOf(greater, At(dirs, other)) in es + [e]
    {
      if other != step {
        assert other in steps;
      }
    }
  }

  lemma NextStep(checkpoints: seq<nat>, keys: set<nat>, i: nat)
    requires ListsInOrder(checkpoints, keys) && i < |checkpoints|
    ensures checkpoints[i] in keys && checkpoints[i] !in checkpoints[..i]
    ensures checkpoints[..i + 1] == checkpoints[..i] + [checkpoints[i]]
  {
    assert checkpoints[i] in checkpoints;
  }

  /** The entry of one checkpoint; the metric is negated when smaller is better. */
  method RankingEntry(greater: bool, dirs: Dirs, step: nat) returns (e: Option<Entry>)
    requires step in dirs
    ensures e == if At(dirs, step).metric.Some? then Some(EntryOf(greater, At(dirs, step))) else None
  {
    var metric := ReadCheckpointMetric(dirs[step], step);
    if metric.None? {
      return None;
    }
    var rankingMetric := if greater then metric.value else -metric.value;
    e := Some((rankingMetric, StepKey()(step), step));
  }

  method MetricCheckpoints(greater: bool, dirs: Dirs, checkpoints: seq<nat>) returns (es: seq<Entry>)
    requires ListsInOrder(checkpoints, dirs.Keys)
    ensures Entries(greater, dirs, es)
  {
    es := [];
    for i := 0 to |checkpoints|
      invariant EntriesOf(greater, dirs, checkpoints[..i], es)
    {
      var step := checkpoints[i];
      NextStep(checkpoints, dirs.Keys, i);
      var e := RankingEntry(greater, dirs, step);
      if e.Some? {
        EntriesAdd(greater, dirs, checkpoints[..i], es, step);
        es := es + [e.value];
      } else {
        EntriesSkip(greater, dirs, checkpoints[..i], es, step);
      }
    }
    assert checkpoints[..|checkpoints|] == checkpoints;
  }

  lemma EntryOrder(greater: bool, a: Checkpoint, b: Checkpoint)
    requires a.metric.Some? && b.metric.Some? && a.step != b.step
    ensures LargestFirst()(EntryOf(greater, a), EntryOf(greater, b)) <==> Before(ByMetric(greater), a, b)
  {
  }

  lemma LargestFirstIsTotal()
    ensures Total(LargestFirst())
  {
  }

  /** The first n sorted entries are those of the n best checkpoints. */
  lemma BestIsPrefix(greater: bool, dirs: Dirs, sorted: seq<Entry>, n: nat)
    requires Entries(greater, dirs, sorted) && Sorted(sorted, LargestFirst())
    ensures forall i :: 0 <= i < |sorted| ==> sorted[i] in sorted && sorted[i].2 in dirs
    ensures forall i :: 0 <= i < |sorted| ==> (At(dirs, sorted[i].2) in Top(ByMetric(greater), Checkpoints(dirs), n) <==> i < n)
  {
    assert forall i :: 0 <= i < |sorted| ==> sorted[i] in sorted;
    var xs := seq(|sorted|, i requires 0 <= i < |sorted| => At(dirs, sorted[i].2));
    var r := ByMetric(greater);
    forall c
      ensures c in xs <==> c in Checkpoints(dirs) && Ranked(r, c)
    {
      if c in Checkpoints(dirs) && Ranked(r, c) {
        var step :| step in dirs && At(dirs, step) == c;
        var i :| 0 <= i < |sorted| && sorted[i] == EntryOf(greater, c);
        assert xs[i] == c;
      }
    }
    forall i, j | 0 <= i < j < |xs|
      ensures Before(r, xs[i], xs[j])
    {
      EntryOrder(greater, xs[i], xs[j]);
    }
    TopIsPrefix(r, Checkpoints(dirs), xs, n);
    assert forall i :: 0 <= i < |sorted| ==> xs[i] == At(dirs, sorted[i].2);
  }

  /** The directories of the n best metrics. */
  method BestSteps(greater: bool, dirs: Dirs, checkpoints: seq<nat>, n: nat) returns (best: set<nat>)
    requires ListsInOrder(checkpoints, dirs.Keys)
    ensures forall step :: step in best <==> step in dirs && At(dirs, step) in Top(ByMetric(greater), Checkpoints(dirs), n)
  {
    var es := MetricCheckpoints(greater, dirs, checkpoints);
    var sorted := SortBy(es, LargestFirst());
    LargestFirstIsTotal();
    SortSorts(es, LargestFirst());
    PermutationKeeps(es, sorted);
    var first := if n < |sorted| then sorted[..n] else sorted;
    BestAreFirst(greater, dirs, sorted, n, first);
    best := set e | e in first :: e.2;
  }

  lemma BestAreFirst(greater: bool, dirs: Dirs, sorted: seq<Entry>, n: nat, first: seq<Entry>)
    requires Entries(greater, dirs, sorted) && Sorted(sorted, LargestFirst())
    requires first == if n < |sorted| then sorted[..n] else sorted
    ensures forall e :: e in first ==> e.2 in dirs && At(dirs, e.2) in Top(ByMetric(greater), Checkpoints(dirs), n)
    ensures forall step :: step in dirs && At(dirs, step) in Top(ByMetric(greater), Checkpoints(dirs), n) ==>
                             exists e :: e in first && e.2 == step
  {
    BestIsPrefix(greater, dirs, sorted, n);
    forall step | step in dirs && At(dirs, step) in Top(ByMetric(greater), Checkpoints(dirs), n)
      ensures exists e :: e in first && e.2 == step
    {
      var i :| 0 <= i < |sorted| && sorted[i] == EntryOf(greater, At(dirs, step));
      assert first[i] in first;
    }
  }

  // ---- the two functions ----

  class CheckpointDir {
    var dirs: Dirs

    constructor ()
      ensures dirs == map[]
    {
      dirs := map[];
    }

    method ListCheckpoints() returns (steps: seq<nat>)
      ensures ListsInOrder(steps, dirs.Keys)
    {
      var found := Enumerate(dirs.Keys);
      steps := SortSteps(found, dirs.Keys);
    }

    /** The checkpoints that the policy keeps, by ascending step. */
    method Select(p: Policy) returns (kept: seq<nat>)
      ensures AscendingSteps(kept)
      ensures forall step :: step in kept <==> step in dirs && At(dirs, step) in Retention.Select(p, Checkpoints(dirs))
    {
      var checkpoints := ListCheckpoints();
      var bestLimit, recentLimit := Limit(p.bestTotalLimit), Limit(p.recentTotalLimit);
      var keep: set<nat> := {};
      RecentSteps(dirs, checkpoints, recentLimit);
      if recentLimit != 0 {
        var recent := if recentLimit < |checkpoints| then checkpoints[|checkpoints| - recentLimit..] else checkpoints;
        keep := set step | step in recent;
        LastOnes(checkpoints, recentLimit, recent);
      }
      assert forall step :: step in keep <==> step in dirs && At(dirs, step) in Top(ByStep, Checkpoints(dirs), recentLimit) by {
        assert forall step :: step in dirs ==> exists i :: 0 <= i < |checkpoints| && checkpoints[i] == step;
      }
      if bestLimit != 0 {
        var best := BestSteps(p.greaterIsBetter, dirs, checkpoints, bestLimit);
        keep := keep + best;
      }
      var listing := Enumerate(keep);
      kept := SortSteps(listing, keep);
    }

    /** Deletes every checkpoint outside the retention policy and leaves the others untouched. */
    method Rotate(p: Policy)
      modifies this
      ensures forall step :: step in dirs <==> step in old(dirs) && At(old(dirs), step) in Retention.Select(p, Checkpoints(old(dirs)))
      ensures forall step :: step in dirs ==> dirs[step] == old(dirs)[step]
      ensures Checkpoints(dirs) == Retention.Select(p, Checkpoints(old(dirs)))
    {
      var checkpoints := ListCheckpoints();
      var keep: seq<nat> := [];
      if checkpoints != [] {
        keep := Select(p);
      }
      for i := 0 to |checkpoints|
        invariant forall step :: step in dirs <==> step in old(dirs) && (step in keep || step !in checkpoints[..i])
        invariant forall step :: step in dirs ==> dirs[step] == old(dirs)[step]
      {
        assert checkpoints[..i + 1] == checkpoints[..i] + [checkpoints[i]];
        if checkpoints[i] !in keep {
          dirs := dirs - {checkpoints[i]};
        }
      }
      assert checkpoints[..|checkpoints|] == checkpoints;
      RotatedCheckpoints(p, old(dirs), dirs);
    }

    /**
     Training, from the start or resumed: every save is followed by a rotation.  What is left is one selection over
     the checkpoints that were there and the whole history.
     */
    method SaveAll(p: Policy, history: seq<Save>)
      requires NewSteps(dirs, history)
      modifies this
      ensures if history == [] then dirs == old(dirs)
              else Checkpoints(dirs) == Retention.Select(p, Checkpoints(old(dirs)) + All(Written(history)))
      ensures AsSaved(old(dirs), dirs, history)
    {
      for i := 0 to |history|
        invariant i == 0 ==> dirs == old(dirs)
        invariant Checkpoints(dirs) == OnlineFrom(p, Checkpoints(old(dirs)), Written(history[..i]))
        invariant AsSaved(old(dirs), dirs, history[..i])
      {
        SavedCheckpoints(old(dirs), dirs, history, i);
        dirs := dirs[history[i].step := history[i].state];
        Rotate(p);
      }
      assert history[..|history|] == history;
      if history != [] {
        ResumedEqualsOffline(p, Checkpoints(old(dirs)), Written(history));
      }
    }
  }

  // ---- a training run ----

  /** What one save writes: the step and the log history so far, if the trainer state is readable. */
  datatype Save = Save(step: nat, state: Option<seq<LogEntry>>)

  function Written(history: seq<Save>): (r: seq<Checkpoint>)
    ensures |r| == |history|
  {
    seq(|history|, i requires 0 <= i < |history| => Checkpoint(history[i].step, MetricOf(history[i].state, history[i].step)))
  }

  /** No save replaces a directory. */
  ghost predicate NewSteps(dirs: Dirs, history: seq<Save>) {
    && (forall i :: 0 <= i < |history| ==> history[i].step !in dirs)
    && (forall i, j :: 0 <= i < j < |history| ==> history[i].step != history[j].step)
  }

  /** Every directory is as it was before the run or as it was saved. */
  ghost predicate AsSaved(before: Dirs, dirs: Dirs, history: seq<Save>) {
    forall step :: step in dirs ==> (step in before && dirs[step] == before[step]) || Save(step, dirs[step]) in history
  }

  lemma SavedCheckpoints(before: Dirs, dirs: Dirs, history: seq<Save>, i: nat)
    requires NewSteps(before, history) && i < |history| && AsSaved(before, dirs, history[..i])
    ensures Checkpoints(dirs[history[i].step := history[i].state]) == Checkpoints(dirs) + {Written(history)[i]}
    ensures AsSaved(before, dirs[history[i].step := history[i].state], history[..i + 1])
    ensures Written(history[..i + 1]) == Written(history[..i]) + [Written(history)[i]]
  {
    var s := history[i];
    var after := dirs[s.step := s.state];
    assert history[..i + 1] == history[..i] + [s];
    assert s.step !in dirs;
    assert At(after, s.step) == Written(history)[i];
    forall c
      ensures c in Checkpoints(after) <==> c in Checkpoints(dirs) + {Written(history)[i]}
    {
      if c in Checkpoints(dirs) {
        var step :| step in dirs && At(dirs, step) == c;
        assert step in after && At(after, step) == c;
      }
    }
  }

  lemma LastOnes(xs: seq<nat>, n: nat, recent: seq<nat>)
    requires AscendingSteps(xs)
    requires recent == if n < |xs| then xs[|xs| - n..] else xs
    ensures forall i :: 0 <= i < |xs| ==> (xs[i] in recent <==> |xs| - n <= i)
    ensures forall x :: x in recent ==> x in xs
  {
    forall i | 0 <= i < |xs|
      ensures xs[i] in recent <==> |xs| - n <= i
    {
      if n < |xs| {
        if |xs| - n <= i {
          assert recent[i - (|xs| - n)] == xs[i];
        }
      }
    }
  }

  lemma RotatedCheckpoints(p: Policy, before: Dirs, after: Dirs)
    requires forall step :: step in after <==> step in before && At(before, step) in Retention.Select(p, Checkpoints(before))
    requires forall step :: step in after ==> after[step] == before[step]
    ensures Checkpoints(after) == Retention.Select(p, Checkpoints(before))
  {
    forall c
      ensures c in Checkpoints(after) <==> c in Retention.Select(p, Checkpoints(before))
    {
      if c in Retention.Select(p, Checkpoints(before)) {
        assert c in Checkpoints(before);
        var step :| step in before && At(before, step) == c;
        assert step in after && At(after, step) == c;
      }
    }
  }
}
