/**
 The bounded in-flight dispatcher of generate_latent_soft_label_lora_batch.py: one parent that fills
 an input queue and drains an output queue, and worker processes that take and finish tasks in
 any order.  A worker applies an arbitrary per-example function to its batch.
 */
module Dispatcher {
  import opened Wrappers
  import Sorting

  /** A task is a batch id (the index of its first example) with its examples. */
  type Task<X> = (nat, seq<X>)

  function MapSeq<X, Y>(f: X -> Y, xs: seq<X>): (r: seq<Y>)
    ensures |r| == |xs|
  {
    seq(|xs|, i requires 0 <= i < |xs| => f(xs[i]))
  }

  function Work<X, Y>(f: X -> Y, t: Task<X>): Task<Y> {
    (t.0, MapSeq(f, t.1))
  }

  function WorkAll<X, Y>(f: X -> Y, ts: seq<Task<X>>): (r: seq<Task<Y>>)
    ensures |r| == |ts|
  {
    seq(|ts|, i requires 0 <= i < |ts| => Work(f, ts[i]))
  }

  /** The results that one worker, and all workers together, will deliver. */
  ghost function WorkOf<X, Y>(f: X -> Y, v: Option<Task<X>>): multiset<Task<Y>> {
    match v case None => multiset{} case Some(t) => multiset{Work(f, t)}
  }

  ghost function WorkBusy<X, Y>(f: X -> Y, ws: seq<Option<Task<X>>>): multiset<Task<Y>> {
    if |ws| == 0 then multiset{} else WorkBusy(f, ws[..|ws| - 1]) + WorkOf(f, ws[|ws| - 1])
  }

  /** Cutting the input into consecutive batches, each with the index of its first example. */
  function Batches<X>(xs: seq<X>, size: nat, start: nat := 0): seq<Task<X>>
    requires size > 0 && start <= |xs|
    decreases |xs| - start
  {
    if start == |xs| then []
    else
      var end := if start + size < |xs| then start + size else |xs|;
      [(start, xs[start..end])] + Batches(xs, size, end)
  }

  function Flatten<Y>(ds: seq<Task<Y>>): seq<Y> {
    if |ds| == 0 then [] else Flatten(ds[..|ds| - 1]) + ds[|ds| - 1].1
  }

  /** results.sort(key=lambda x: x[0]) */
  function ByBatchId<Y>(): Sorting.Order<Task<Y>> { Sorting.ByKey((d: Task<Y>) => d.0) }

  // ---- the transition system ----

  datatype System<X, Y> = System(
    next: nat,                      // tasks dispatched so far
    pending: int,                   // the parent's in-flight counter
    input: seq<Task<X>>,            // the input queue
    workers: seq<Option<Task<X>>>,  // what each worker is busy with
    output: seq<Task<Y>>,           // the output queue
    results: seq<Task<Y>>)          // what the parent has collected

  datatype Config<!X, Y> = Config(tasks: seq<Task<X>>, f: X -> Y, size: nat) {
    const maxInFlight: nat := size * 4
  }

  function Init<X, Y>(c: Config<X, Y>): System<X, Y> {
    System(0, 0, [], seq(c.size, w => None), [], [])
  }

  predicate Done<X, Y>(c: Config<X, Y>, s: System<X, Y>) {
    |s.results| >= |c.tasks|
  }

  predicate CanDispatch<X, Y>(c: Config<X, Y>, s: System<X, Y>) {
    !Done(c, s) && s.next < |c.tasks| && s.pending < c.maxInFlight
  }

  ghost predicate Dispatch<X, Y>(c: Config<X, Y>, s: System<X, Y>, s': System<X, Y>) {
    && CanDispatch(c, s)
    && s' == s.(next := s.next + 1, pending := s.pending + 1, input := s.input + [c.tasks[s.next]])
  }

  /** The parent dispatches as long as it can; only then does it wait for a result. */
  ghost predicate Collect<X, Y>(c: Config<X, Y>, s: System<X, Y>, s': System<X, Y>) {
    && !Done(c, s) && !CanDispatch(c, s) && s.pending > 0
    && |s.output| > 0
    && s' == s.(pending := s.pending - 1, output := s.output[1..], results := s.results + [s.output[0]])
  }

  ghost predicate Take<X, Y>(s: System<X, Y>, s': System<X, Y>, w: nat) {
    && w < |s.workers| && s.workers[w].None? && |s.input| > 0
    && s' == s.(input := s.input[1..], workers := s.workers[w := Some(s.input[0])])
  }

  ghost predicate Finish<X, Y>(c: Config<X, Y>, s: System<X, Y>, s': System<X, Y>, w: nat) {
    && w < |s.workers| && s.workers[w].Some?
    && s' == s.(output := s.output + [Work(c.f, s.workers[w].value)], workers := s.workers[w := None])
  }

  ghost predicate Next<X(!new), Y(!new)>(c: Config<X, Y>, s: System<X, Y>, s': System<X, Y>) {
    || Dispatch(c, s, s')
    || Collect(c, s, s')
    || (exists w: nat :: Take(s, s', w))
    || (exists w: nat :: Finish(c, s, s', w))
  }

  /** Any interleaving of parent and workers, from the first state on. */
  ghost predicate IsRun<X(!new), Y(!new)>(c: Config<X, Y>, states: seq<System<X, Y>>) {
    && |states| > 0 && states[0] == Init(c)
    && forall k :: 0 < k < |states| ==> Next(c, states[k - 1], states[k])
  }

  /** The results still owed for the tasks that are queued, being worked on, or waiting to be collected. */
  ghost function Owed<X, Y>(c: Config<X, Y>, s: System<X, Y>): multiset<Task<Y>> {
    multiset(WorkAll(c.f, s.input)) + WorkBusy(c.f, s.workers) + multiset(s.output)
  }

  ghost predicate Inv<X, Y>(c: Config<X, Y>, s: System<X, Y>) {
    && |s.workers| == c.size
    && s.next <= |c.tasks|
    && 0 <= s.pending <= c.maxInFlight
    && s.pending == |Owed(c, s)|
    && s.next == s.pending + |s.results|
    // nothing lost, nothing duplicated
    && Owed(c, s) + multiset(s.results) == multiset(WorkAll(c.f, c.tasks[..s.next]))
  }

  // ---- every step keeps the invariant ----

  lemma WorkAllAppend<X, Y>(f: X -> Y, ts: seq<Task<X>>, t: Task<X>)
    ensures WorkAll(f, ts + [t]) == WorkAll(f, ts) + [Work(f, t)]
  {
  }

  lemma WorkAllHead<X, Y>(f: X -> Y, ts: seq<Task<X>>)
    requires |ts| > 0
    ensures WorkAll(f, ts) == [Work(f, ts[0])] + WorkAll(f, ts[1..])
  {
  }

  lemma {:induction false} WorkBusyUpdate<X, Y>(f: X -> Y, ws: seq<Option<Task<X>>>, w: nat, v: Option<Task<X>>)
    requires w < |ws|
    ensures WorkBusy(f, ws[w := v]) + WorkOf(f, ws[w]) == WorkBusy(f, ws) + WorkOf(f, v)
    decreases |ws|
  {
    var n := |ws| - 1;
    if w < n {
      WorkBusyUpdate(f, ws[..n], w, v);
      assert ws[w := v][..n] == ws[..n][w := v];
      var a, b, l := WorkBusy(f, ws[..n][w := v]), WorkBusy(f, ws[..n]), WorkOf(f, ws[n]);
      assert a + WorkOf(f, ws[w]) == b + WorkOf(f, v);
      assert (a + l) + WorkOf(f, ws[w]) == (a + WorkOf(f, ws[w])) + l == (b + l) + WorkOf(f, v);
    } else {
      assert ws[w := v][..n] == ws[..n];
    }
  }

  lemma {:induction false} NoWork<X, Y>(f: X -> Y, ws: seq<Option<Task<X>>>)
    ensures WorkBusy(f, ws) == multiset{} <==> forall w :: 0 <= w < |ws| ==> ws[w].None?
  {
    if |ws| > 0 {
      NoWork(f, ws[..|ws| - 1]);
      match ws[|ws| - 1]
      case None =>
      case Some(t) => assert Work(f, t) in WorkBusy(f, ws);
    }
  }

  lemma HeadMultiset<T>(xs: seq<T>)
    requires |xs| > 0
    ensures multiset(xs) == multiset{xs[0]} + multiset(xs[1..])
  {
    assert xs == [xs[0]] + xs[1..];
  }

  /** Worker steps only move owed results along. */
  lemma TakeKeeps<X, Y>(c: Config<X, Y>, s: System<X, Y>, s': System<X, Y>, w: nat)
    requires Take(s, s', w)
    ensures Owed(c, s') == Owed(c, s)
  {
    var d := Work(c.f, s.input[0]);
    WorkBusyUpdate(c.f, s.workers, w, Some(s.input[0]));
    WorkAllHead(c.f, s.input);
    var rest, busy := multiset(WorkAll(c.f, s.input[1..])), WorkBusy(c.f, s.workers);
    assert multiset(WorkAll(c.f, s.input)) == multiset{d} + rest;
    assert WorkBusy(c.f, s'.workers) == busy + multiset{d};
    assert rest + (busy + multiset{d}) == (multiset{d} + rest) + busy;
  }

  lemma FinishKeeps<X, Y>(c: Config<X, Y>, s: System<X, Y>, s': System<X, Y>, w: nat)
    requires Finish(c, s, s', w)
    ensures Owed(c, s') == Owed(c, s)
  {
    var d := Work(c.f, s.workers[w].value);
    WorkBusyUpdate(c.f, s.workers, w, None);
    var busy' := WorkBusy(c.f, s'.workers);
    assert WorkBusy(c.f, s.workers) == busy' + multiset{d};
    assert multiset(s'.output) == multiset(s.output) + multiset{d};
    var input := multiset(WorkAll(c.f, s.input));
    assert input + busy' + (multiset(s.output) + multiset{d}) == input + (busy' + multiset{d}) + multiset(s.output);
  }

  lemma DispatchKeeps<X, Y>(c: Config<X, Y>, s: System<X, Y>, s': System<X, Y>)
    requires Inv(c, s) && Dispatch(c, s, s')
    ensures Inv(c, s')
  {
    var t := c.tasks[s.next];
    WorkAllAppend(c.f, s.input, t);
    assert c.tasks[..s.next + 1] == c.tasks[..s.next] + [t];
    WorkAllAppend(c.f, c.tasks[..s.next], t);
    assert Owed(c, s') == Owed(c, s) + multiset{Work(c.f, t)};
  }

  lemma CollectKeeps<X, Y>(c: Config<X, Y>, s: System<X, Y>, s': System<X, Y>)
    requires Inv(c, s) && Collect(c, s, s')
    ensures Inv(c, s')
  {
    HeadMultiset(s.output);
    assert Owed(c, s) == Owed(c, s') + multiset{s.output[0]};
  }

  lemma StepKeeps<X(!new), Y(!new)>(c: Config<X, Y>, s: System<X, Y>, s': System<X, Y>)
    requires Inv(c, s) && Next(c, s, s')
    ensures Inv(c, s')
  {
    if Dispatch(c, s, s') {
      DispatchKeeps(c, s, s');
    } else if Collect(c, s, s') {
      CollectKeeps(c, s, s');
    } else if w: nat :| Take(s, s', w) {
      TakeKeeps(c, s, s', w);
    } else {
      var w: nat :| Finish(c, s, s', w);
      FinishKeeps(c, s, s', w);
    }
  }

  lemma IdleInv<X, Y>(c: Config<X, Y>, s: System<X, Y>)
    requires s.next == 0 && s.pending == 0 && s.input == [] && s.output == [] && s.results == []
    requires |s.workers| == c.size && forall w :: 0 <= w < |s.workers| ==> s.workers[w].None?
    ensures Inv(c, s)
  {
    NoWork(c.f, s.workers);
    assert c.tasks[..0] == [];
  }

  /** Safety: in every state of every run no task is lost or duplicated and at most 4 * size are in flight. */
  lemma {:induction false} EveryStateIsSafe<X(!new), Y(!new)>(c: Config<X, Y>, states: seq<System<X, Y>>)
    requires IsRun(c, states)
    ensures Inv(c, states[|states| - 1])
  {
    if |states| == 1 {
      IdleInv(c, states[0]);
    } else {
      EveryStateIsSafe(c, states[..|states| - 1]);
      StepKeeps(c, states[|states| - 2], states[|states| - 1]);
    }
  }

  lemma BusyUpdate<T>(ws: seq<Option<T>>)
    requires |ws| > 0
    ensures var n := |ws| - 1;
            |set w: nat | w < |ws| && ws[w].Some?| == |set w: nat | w < n && ws[w].Some?| + if ws[n].Some? then 1 else 0
  {
    var n := |ws| - 1;
    var before := set w: nat | w < n && ws[w].Some?;
    assert n !in before;
    if ws[n].Some? {
      assert (set w: nat | w < |ws| && ws[w].Some?) == before + {n};
    } else {
      assert (set w: nat | w < |ws| && ws[w].Some?) == before;
    }
  }

  lemma {:induction false} BusyCount<X, Y>(f: X -> Y, ws: seq<Option<Task<X>>>)
    ensures |WorkBusy(f, ws)| == |set w: nat | w < |ws| && ws[w].Some?|
  {
    if |ws| > 0 {
      var n := |ws| - 1;
      BusyCount(f, ws[..n]);
      BusyUpdate(ws);
      assert (set w: nat | w < |ws[..n]| && ws[..n][w].Some?) == set w: nat | w < n && ws[w].Some?;
    }
  }

  /** In numbers: what is in flight is queued, being worked on or waiting, at most 4 tasks per worker, and the rest is collected. */
  lemma CountsInRuns<X(!new), Y(!new)>(c: Config<X, Y>, states: seq<System<X, Y>>)
    requires IsRun(c, states)
    ensures var s := states[|states| - 1];
            && |s.workers| == c.size && s.next <= |c.tasks|
            && s.pending == |s.input| + |set w: nat | w < |s.workers| && s.workers[w].Some?| + |s.output|
            && 0 <= s.pending <= 4 * c.size
            && s.next == s.pending + |s.results|
  {
    EveryStateIsSafe(c, states);
    BusyCount(c.f, states[|states| - 1].workers);
  }

  /** And that many can be in flight: the parent dispatches 4 tasks per worker, if there are so many, before it waits. */
  lemma {:induction false} WindowFills<X(!new), Y(!new)>(c: Config<X, Y>, n: nat) returns (states: seq<System<X, Y>>)
    requires n <= 4 * c.size && n <= |c.tasks|
    ensures IsRun(c, states) && states[|states| - 1].pending == n == states[|states| - 1].next
    ensures states[|states| - 1].results == []
  {
    if n == 0 {
      states := [Init(c)];
    } else {
      var before := WindowFills(c, n - 1);
      var s := before[|before| - 1];
      var s' := s.(next := s.next + 1, pending := s.pending + 1, input := s.input + [c.tasks[s.next]]);
      assert Dispatch(c, s, s');
      states := before + [s'];
    }
  }

  // ---- progress ----

  /** What is left to do: a task costs four steps before it is collected. */
  ghost function Measure<X, Y>(c: Config<X, Y>, s: System<X, Y>): int {
    4 * (|c.tasks| - s.next) + 3 * |s.input| + 2 * |WorkBusy(c.f, s.workers)| + |s.output|
  }

  /** Every step of every process lowers the measure, so no run goes on for ever. */
  lemma StepDecreases<X(!new), Y(!new)>(c: Config<X, Y>, s: System<X, Y>, s': System<X, Y>)
    requires Inv(c, s) && Next(c, s, s')
    ensures 0 <= Measure(c, s') < Measure(c, s)
  {
    StepKeeps(c, s, s');
    if w: nat :| Take(s, s', w) {
      WorkBusyUpdate(c.f, s.workers, w, Some(s.input[0]));
    } else if w: nat :| Finish(c, s, s', w) {
      WorkBusyUpdate(c.f, s.workers, w, None);
    }
  }

  lemma {:induction false} RunsAreShort<X(!new), Y(!new)>(c: Config<X, Y>, states: seq<System<X, Y>>)
    requires IsRun(c, states)
    ensures |states| - 1 + Measure(c, states[|states| - 1]) <= 4 * |c.tasks|
  {
    if |states| == 1 {
      NoWork(c.f, states[0].workers);
    } else {
      var before := states[..|states| - 1];
      var s, s' := before[|before| - 1], states[|before|];
      assert IsRun(c, before) && Next(c, s, s');
      RunsAreShort(c, before);
      EveryStateIsSafe(c, before);
      StepDecreases(c, s, s');
    }
  }

  /** Until all results are in, some process can move. */
  lemma SomeStepIsEnabled<X(!new), Y(!new)>(c: Config<X, Y>, s: System<X, Y>) returns (s': System<X, Y>)
    requires c.size > 0 && Inv(c, s) && !Done(c, s)
    ensures Next(c, s, s')
  {
    if CanDispatch(c, s) {
      s' := s.(next := s.next + 1, pending := s.pending + 1, input := s.input + [c.tasks[s.next]]);
      assert Dispatch(c, s, s');
    } else if |s.output| > 0 {
      s' := s.(pending := s.pending - 1, output := s.output[1..], results := s.results + [s.output[0]]);
      assert Collect(c, s, s');
    } else {
      var w := WorkerCanMove(c, s);
      if s.workers[w].Some? {
        s' := s.(output := s.output + [Work(c.f, s.workers[w].value)], workers := s.workers[w := None]);
        assert Finish(c, s, s', w);
      } else {
        s' := s.(input := s.input[1..], workers := s.workers[w := Some(s.input[0])]);
        assert Take(s, s', w);
      }
    }
  }

  /** While results are owed and none is waiting, a worker is busy or can take a task. */
  lemma WorkerCanMove<X, Y>(c: Config<X, Y>, s: System<X, Y>) returns (w: nat)
    requires |s.workers| > 0 && |Owed(c, s)| > 0 && s.output == []
    ensures w < |s.workers| && (s.workers[w].Some? || |s.input| > 0)
  {
    if |s.input| > 0 {
      w := 0;
    } else {
      NoWork(c.f, s.workers);
      w :| w < |s.workers| && s.workers[w].Some?;
    }
  }

  // ---- the result ----

  /** Once all results are in, the queues are empty, the workers idle, and the results are those of all tasks. */
  lemma DoneIsQuiet<X, Y>(c: Config<X, Y>, s: System<X, Y>)
    requires Inv(c, s) && Done(c, s)
    ensures s.input == [] && s.output == [] && (forall w :: 0 <= w < |s.workers| ==> s.workers[w].None?)
    ensures multiset(s.results) == multiset(WorkAll(c.f, c.tasks))
  {
    assert c.tasks[..|c.tasks|] == c.tasks;
    assert s.pending == 0;
    NoWork(c.f, s.workers);
    assert multiset(s.output) <= Owed(c, s);
    assert |WorkAll(c.f, s.input)| == |multiset(WorkAll(c.f, s.input))| <= |Owed(c, s)|;
  }

  /** The batch ids ascend and lie in the input. */
  ghost predicate AscendingIds<X>(ts: seq<Task<X>>, from: nat, to: nat) {
    && (forall i :: 0 <= i < |ts| ==> from <= ts[i].0 < to)
    && (forall i, j :: 0 <= i < j < |ts| ==> ts[i].0 < ts[j].0)
  }

  lemma PrependAscending<X>(t: Task<X>, rest: seq<Task<X>>, from: nat, to: nat)
    requires t.0 < from && t.0 < to && AscendingIds(rest, from, to)
    ensures AscendingIds([t] + rest, t.0, to)
  {
  }

  lemma {:induction false} BatchesAscend<X>(xs: seq<X>, size: nat, start: nat)
    requires size > 0 && start <= |xs|
    ensures AscendingIds(Batches(xs, size, start), start, |xs|)
    decreases |xs| - start
  {
    if start < |xs| {
      var end := if start + size < |xs| then start + size else |xs|;
      BatchesAscend(xs, size, end);
      PrependAscending((start, xs[start..end]), Batches(xs, size, end), end, |xs|);
    }
  }

  /** Batch k starts at k * size and has size examples, unless fewer are left; together they reach the end. */
  lemma {:induction false} BatchAt<X>(xs: seq<X>, size: nat, start: nat, k: nat)
    requires size > 0 && start <= |xs|
    ensures k < |Batches(xs, size, start)| <==> start + k * size < |xs|
    ensures k < |Batches(xs, size, start)| ==>
              Batches(xs, size, start)[k]
              == (start + k * size, xs[start + k * size..if start + (k + 1) * size < |xs| then start + (k + 1) * size else |xs|])
    decreases k
  {
    if start < |xs| {
      var end := if start + size < |xs| then start + size else |xs|;
      if k > 0 {
        BatchAt(xs, size, end, k - 1);
        NextBatch(size, k);
      } else {
        assert 0 * size == 0 && 1 * size == size;
      }
    } else {
      assert k * size >= 0;
    }
  }

  lemma NextBatch(size: nat, k: nat)
    requires size > 0 && k > 0
    ensures k * size == (k - 1) * size + size && (k + 1) * size == k * size + size && (k - 1) * size >= 0
  {
    assert (k - 1) * size + size == k * size;
  }

  lemma {:induction false} FlattenConcat<Y>(a: seq<Task<Y>>, b: seq<Task<Y>>)
    ensures Flatten(a + b) == Flatten(a) + Flatten(b)
  {
    if |b| == 0 {
      assert a + b == a;
    } else {
      FlattenConcat(a, b[..|b| - 1]);
      assert (a + b)[..|a + b| - 1] == a + b[..|b| - 1];
    }
  }

  lemma FlattenOne<Y>(d: Task<Y>)
    ensures Flatten([d]) == d.1
  {
    assert [d][..0] == [];
  }

  /** Working batch by batch and flattening is the same as applying f to every example in order. */
  lemma {:induction false} FlattenBatches<X, Y>(f: X -> Y, xs: seq<X>, size: nat, start: nat)
    requires size > 0 && start <= |xs|
    ensures Flatten(WorkAll(f, Batches(xs, size, start))) == MapSeq(f, xs[start..])
    decreases |xs| - start
  {
    if start < |xs| {
      var end := if start + size < |xs| then start + size else |xs|;
      var t := (start, xs[start..end]);
      FlattenBatches(f, xs, size, end);
      var ts := Batches(xs, size, start);
      assert ts == [t] + Batches(xs, size, end) && ts[0] == t && ts[1..] == Batches(xs, size, end);
      WorkAllHead(f, ts);
      FlattenConcat([Work(f, t)], WorkAll(f, ts[1..]));
      FlattenOne(Work(f, t));
      MapSplit(f, xs, start, end);
    }
  }

  lemma MapSplit<X, Y>(f: X -> Y, xs: seq<X>, start: nat, end: nat)
    requires start <= end <= |xs|
    ensures MapSeq(f, xs[start..]) == MapSeq(f, xs[start..end]) + MapSeq(f, xs[end..])
  {
  }

  /** Sorting the collected results by batch id and flattening them gives f of every example, in input order. */
  lemma SortedResultsAreTheMap<X, Y(!new)>(f: X -> Y, xs: seq<X>, size: nat, results: seq<Task<Y>>)
    requires size > 0
    requires multiset(results) == multiset(WorkAll(f, Batches(xs, size)))
    ensures Flatten(Sorting.SortBy(results, ByBatchId())) == MapSeq(f, xs)
  {
    BatchesAscend(xs, size, 0);
    Sorting.SortRestores(results, WorkAll(f, Batches(xs, size)), ByBatchId());
    FlattenBatches(f, xs, size, 0);
    assert xs[0..] == xs;
  }

  /** Every run that has collected everything ends with both queues empty and yields map f. */
  lemma RunComputesTheMap<X(!new), Y(!new)>(xs: seq<X>, f: X -> Y, batchSize: nat, size: nat, states: seq<System<X, Y>>)
    requires batchSize > 0
    requires IsRun(Config(Batches(xs, batchSize), f, size), states)
    requires Done(Config(Batches(xs, batchSize), f, size), states[|states| - 1])
    ensures var s := states[|states| - 1];
            && s.input == [] && s.output == [] && (forall w :: 0 <= w < |s.workers| ==> s.workers[w].None?)
            && Flatten(Sorting.SortBy(s.results, ByBatchId())) == MapSeq(f, xs)
  {
    var c := Config(Batches(xs, batchSize), f, size);
    EveryStateIsSafe(c, states);
    DoneIsQuiet(c, states[|states| - 1]);
    SortedResultsAreTheMap(f, xs, batchSize, states[|states| - 1].results);
  }
}
