/**
 MultiprocessTransformerWrapper._gen (generate_latent_soft_label_lora_batch.py:351-418) as a loop over
 its queues.  Whenever the parent waits, the workers run in an order that nothing is assumed about.
 */
module LabelGenerator {
  import opened Wrappers
  import opened Dispatcher
  import Sorting

  lemma SameOwed<X, Y>(c: Config<X, Y>, s: System<X, Y>, s': System<X, Y>)
    requires Inv(c, s)
    requires s'.next == s.next && s'.pending == s.pending && s'.results == s.results && |s'.workers| == |s.workers|
    requires Owed(c, s') == Owed(c, s)
    ensures Inv(c, s')
  {
  }

  lemma OneCollected<X, Y>(c: Config<X, Y>, s: System<X, Y>, s': System<X, Y>, d: Task<Y>)
    requires Inv(c, s)
    requires s'.next == s.next && s'.pending == s.pending - 1 && s'.results == s.results + [d] && |s'.workers| == |s.workers|
    requires Owed(c, s') + multiset{d} == Owed(c, s)
    ensures Inv(c, s')
  {
  }

  class Wrapper<X, Y(!new)> {
    const f: X -> Y
    var inputQueue: seq<Task<X>>
    var workers: seq<Option<Task<X>>>
    var outputQueue: seq<Task<Y>>

    /** Both queues are empty and every worker waits for a task. */
    ghost predicate Idle()
      reads this
    {
      inputQueue == [] && outputQueue == [] && forall w :: 0 <= w < |workers| ==> workers[w].None?
    }

    /** The queues and workers, seen as a state of the transition system. */
    ghost function Sys(next: nat, pending: int, results: seq<Task<Y>>): System<X, Y>
      reads this
    {
      System(next, pending, inputQueue, workers, outputQueue, results)
    }

    ghost function Pending(): multiset<Task<Y>>
      reads this
    {
      Owed(Config([], f, |workers|), Sys(0, 0, []))
    }

    ghost function Effort(): nat
      reads this
    {
      2 * |inputQueue| + |WorkBusy(f, workers)|
    }

    constructor (mpSize: nat, f: X -> Y)
      ensures Idle() && |workers| == mpSize && this.f == f
    {
      this.f := f;
      inputQueue, outputQueue := [], [];
      workers := seq(mpSize, w => None);
    }

    /** The worker loop: put the finished batch. */
    method PutResult(w: nat)
      requires w < |workers| && workers[w].Some?
      modifies `workers, `outputQueue
      ensures |workers| == old(|workers|)
      ensures Pending() == old(Pending())
      ensures Effort() < old(Effort())
    {
      ghost var s := Sys(0, 0, []);
      WorkBusyUpdate(f, workers, w, None);
      outputQueue := outputQueue + [Work(f, workers[w].value)];
      workers := workers[w := None];
      FinishKeeps(Config([], f, |workers|), s, Sys(0, 0, []), w);
      assert WorkBusy(f, s.workers) == WorkBusy(f, workers) + multiset{Work(f, s.workers[w].value)};
    }

    /** The worker loop: get the next task. */
    method GetTask(w: nat)
      requires w < |workers| && workers[w].None? && |inputQueue| > 0
      modifies `inputQueue, `workers
      ensures |workers| == old(|workers|)
      ensures Pending() == old(Pending())
      ensures Effort() < old(Effort())
    {
      ghost var s := Sys(0, 0, []);
      WorkBusyUpdate(f, workers, w, Some(inputQueue[0]));
      workers := workers[w := Some(inputQueue[0])];
      inputQueue := inputQueue[1..];
      TakeKeeps(Config([], f, |workers|), s, Sys(0, 0, []), w);
      assert WorkBusy(f, workers) == WorkBusy(f, s.workers) + multiset{Work(f, s.input[0])};
    }

    method WorkerStep(w: nat)
      requires w < |workers| && (workers[w].Some? || |inputQueue| > 0)
      modifies `inputQueue, `workers, `outputQueue
      ensures |workers| == old(|workers|)
      ensures Pending() == old(Pending())
      ensures Effort() < old(Effort())
    {
      if workers[w].Some? {
        PutResult(w);
      } else {
        GetTask(w);
      }
    }

    /** The workers run for a while, in any order. */
    method RunWorkers()
      requires |workers| > 0
      modifies `inputQueue, `workers, `outputQueue
      ensures |workers| == old(|workers|)
      ensures Pending() == old(Pending())
    {
      while true
        invariant |workers| == old(|workers|)
        invariant Pending() == old(Pending())
        decreases Effort()
      {
        var w :| 0 <= w < |workers|;
        if workers[w].None? && inputQueue == [] {
          break;
        }
        if * {
          break;
        }
        WorkerStep(w);
      }
    }

    /** Blocks until a result is there and takes it. */
    method GetOutput() returns (d: Task<Y>)
      requires |workers| > 0 && |Pending()| > 0
      modifies `inputQueue, `workers, `outputQueue
      ensures |workers| == old(|workers|)
      ensures Pending() + multiset{d} == old(Pending())
    {
      RunWorkers();
      while outputQueue == []
        invariant |workers| == old(|workers|)
        invariant Pending() == old(Pending())
        decreases Effort()
      {
        ghost var any := WorkerCanMove(Config([], f, |workers|), Sys(0, 0, []));
        var w :| 0 <= w < |workers| && (workers[w].Some? || |inputQueue| > 0);
        WorkerStep(w);
      }
      d := outputQueue[0];
      HeadMultiset(outputQueue);
      outputQueue := outputQueue[1..];
      RunWorkers();
    }

    /** The (start, slice) pairs of range(0, n, batch_size); a negative step gives none. */
    static method MakeTasks(textInput: seq<X>, batchSize: int) returns (allTasks: seq<Task<X>>)
      requires batchSize != 0
      ensures allTasks == if batchSize > 0 then Batches(textInput, batchSize) else []
    {
      allTasks := [];
      var start := 0;
      while batchSize > 0 && start < |textInput|
        invariant 0 <= start <= |textInput|
        invariant batchSize > 0 ==> allTasks + Batches(textInput, batchSize, start) == Batches(textInput, batchSize)
        invariant batchSize < 0 ==> allTasks == []
        decreases |textInput| - start
      {
        var end := if start + batchSize < |textInput| then start + batchSize else |textInput|;
        allTasks := allTasks + [(start, textInput[start..end])];
        start := end;
      }
    }

    /** Dispatches as long as tasks remain and the bound on tasks in flight allows it. */
    method DispatchSome(allTasks: seq<Task<X>>, taskIdx: nat, pendingCount: nat, ghost results: seq<Task<Y>>)
      returns (taskIdx': nat, pendingCount': nat)
      requires |workers| > 0 && |results| < |allTasks|
      requires Inv(Config(allTasks, f, |workers|), Sys(taskIdx, pendingCount, results))
      modifies `inputQueue, `workers, `outputQueue
      ensures |workers| == old(|workers|)
      ensures Inv(Config(allTasks, f, |workers|), Sys(taskIdx', pendingCount', results))
      ensures pendingCount' > 0
    {
      taskIdx', pendingCount' := taskIdx, pendingCount;
      var mpSize := |workers|;
      ghost var c := Config(allTasks, f, mpSize);
      while taskIdx' < |allTasks| && pendingCount' < mpSize * 4
        invariant |workers| == mpSize
        invariant Inv(c, Sys(taskIdx', pendingCount', results))
        decreases |allTasks| - taskIdx'
      {
        ghost var s := Sys(taskIdx', pendingCount', results);
        inputQueue := inputQueue + [allTasks[taskIdx']];
        taskIdx' := taskIdx' + 1;
        pendingCount' := pendingCount' + 1;
        ghost var s' := Sys(taskIdx', pendingCount', results);
        DispatchKeeps(c, s, s');
        RunWorkers();
        SameOwed(c, s', Sys(taskIdx', pendingCount', results));
      }
    }

    /** Dispatches as much as the bound allows, then collects one result, until all are in. */
    method DispatchAndCollect(allTasks: seq<Task<X>>) returns (results: seq<Task<Y>>)
      requires Idle() && |workers| > 0
      modifies `inputQueue, `workers, `outputQueue
      ensures Idle() && |workers| == old(|workers|)
      ensures multiset(results) == multiset(WorkAll(f, allTasks))
    {
      results := [];
      var taskIdx, pendingCount := 0, 0;
      ghost var c := Config(allTasks, f, |workers|);
      IdleInv(c, Sys(0, 0, []));
      while |results| < |allTasks|
        invariant |workers| == c.size
        invariant Inv(c, Sys(taskIdx, pendingCount, results))
        decreases |allTasks| - |results|
      {
        taskIdx, pendingCount := DispatchSome(allTasks, taskIdx, pendingCount, results);
        if pendingCount > 0 {
          ghost var s := Sys(taskIdx, pendingCount, results);
          var d := GetOutput();
          results := results + [d];
          pendingCount := pendingCount - 1;
          OneCollected(c, s, Sys(taskIdx, pendingCount, results), d);
        }
      }
      DoneIsQuiet(c, Sys(taskIdx, pendingCount, results));
    }

    static method FlattenResults(results: seq<Task<Y>>) returns (flat: seq<Y>)
      ensures flat == Flatten(results)
    {
      flat := [];
      for i := 0 to |results|
        invariant flat == Flatten(results[..i])
      {
        flat := flat + results[i].1;
        assert results[..i + 1][..i] == results[..i];
      }
      assert results[..|results|] == results;
    }

    method Gen(textInput: seq<X>, batchSize: int) returns (r: Result<seq<Y>>)
      requires Idle() && |workers| > 0
      modifies `inputQueue, `workers, `outputQueue
      ensures Idle() && |workers| == old(|workers|)
      ensures batchSize == 0 ==> r.Failure?
      ensures batchSize < 0 ==> r == Success([])
      ensures batchSize > 0 ==> r == Success(MapSeq(f, textInput))
    {
      if batchSize == 0 {
        return Failure("ValueError: range() arg 3 must not be zero");
      }
      var allTasks := MakeTasks(textInput, batchSize);
      var results := DispatchAndCollect(allTasks);
      var flat := FlattenResults(Sorting.SortBy(results, ByBatchId()));
      if batchSize > 0 {
        SortedResultsAreTheMap(f, textInput, batchSize, results);
      }
      r := Success(flat);
    }
  }
}
