/**
 The length-sorting variant of _gen (eval/eval_decoder_hf_batch.py:399-439): sort the inputs by length, queue all
 batches, collect them in whatever order they finish, and write every result back to its original place.
 */
module SortedGeneration {
  import opened Wrappers
  import opened Dispatcher
  import opened LabelGenerator
  import Sorting

  function ByLength(lengths: seq<int>): Sorting.Order<nat> {
    Sorting.ByKey((i: nat) => if i < |lengths| then lengths[i] else 0)
  }

  /** sorted(range(n), key=...) */
  function SortedIndices(lengths: seq<int>): (r: seq<nat>)
    ensures |r| == |lengths|
  {
    Sorting.SortBy(Sorting.Indices(|lengths|), ByLength(lengths))
  }

  /** The sorted indices name every input, none beyond, shortest first. */
  lemma SortedIndicesCover(lengths: seq<int>)
    ensures var p := SortedIndices(lengths);
            && (forall k :: 0 <= k < |p| ==> p[k] < |lengths|)
            && (forall i :: 0 <= i < |lengths| ==> i in p)
            && (forall j, k :: 0 <= j < k < |p| ==> lengths[p[j]] <= lengths[p[k]])
  {
    var p, n := SortedIndices(lengths), |lengths|;
    Sorting.SortSorts(Sorting.Indices(n), ByLength(lengths));
    Sorting.IndicesOnce(n);
    forall k | 0 <= k < |p|
      ensures p[k] < n
    {
      assert p[k] in multiset(p);
    }
    forall i | 0 <= i < n
      ensures i in p
    {
      assert i in multiset(p);
    }
    forall j, k | 0 <= j < k < |p|
      ensures lengths[p[j]] <= lengths[p[k]]
    {
      assert ByLength(lengths)(p[j], p[k]);
    }
  }

  method Put<X, Y(!new)>(w: Wrapper<X, Y>, t: Task<X>)
    modifies w`inputQueue
    ensures w.Pending() == old(w.Pending()) + multiset{Work(w.f, t)}
  {
    WorkAllAppend(w.f, w.inputQueue, t);
    w.inputQueue := w.inputQueue + [t];
  }

  /** Puts all batches on the input queue, while the workers already run. */
  method PutAll<X, Y(!new)>(w: Wrapper<X, Y>, tasks: seq<Task<X>>)
    requires w.Idle() && |w.workers| > 0
    modifies w`inputQueue, w`workers, w`outputQueue
    ensures |w.workers| == old(|w.workers|)
    ensures w.Pending() == multiset(WorkAll(w.f, tasks))
  {
    NothingPending(w);
    for k := 0 to |tasks|
      invariant |w.workers| == old(|w.workers|)
      invariant w.Pending() == multiset(WorkAll(w.f, tasks[..k]))
    {
      assert tasks[..k + 1] == tasks[..k] + [tasks[k]];
      WorkAllAppend(w.f, tasks[..k], tasks[k]);
      Put(w, tasks[k]);
      w.RunWorkers();
    }
    assert tasks[..|tasks|] == tasks;
  }

  lemma NothingPending<X, Y(!new)>(w: Wrapper<X, Y>)
    requires w.Idle()
    ensures w.Pending() == multiset{}
  {
    NoWork(w.f, w.workers);
  }

  lemma QuietWhenNothingPending<X, Y(!new)>(w: Wrapper<X, Y>)
    requires |w.Pending()| == 0
    ensures w.Idle()
  {
    NoWork(w.f, w.workers);
    assert |WorkAll(w.f, w.inputQueue)| == |multiset(WorkAll(w.f, w.inputQueue))|;
    assert |w.outputQueue| == |multiset(w.outputQueue)|;
  }

  /** Collects as many results as there are batches, in the order in which they arrive. */
  method CollectAll<X, Y(!new)>(w: Wrapper<X, Y>, numBatches: nat) returns (collected: seq<Task<Y>>)
    requires |w.workers| > 0 && |w.Pending()| == numBatches
    modifies w`inputQueue, w`workers, w`outputQueue
    ensures multiset(collected) == old(w.Pending())
    ensures |w.workers| == old(|w.workers|) && w.Idle()
  {
    collected := [];
    ghost var owed := w.Pending();
    for k := 0 to numBatches
      invariant |w.workers| == old(|w.workers|)
      invariant |w.Pending()| == numBatches - k
      invariant w.Pending() + multiset(collected) == owed
    {
      var d := w.GetOutput();
      collected := collected + [d];
    }
    assert w.Pending() == multiset{};
    QuietWhenNothingPending(w);
  }

  /** Restoring the order: every position named by the permutation is written, with the result of its own input. */
  method Restore<X, Y>(f: X -> Y, textInput: seq<X>, order: seq<nat>, sortedTexts: seq<Y>) returns (out: array<Option<Y>>)
    requires |order| == |textInput| == |sortedTexts|
    requires forall k :: 0 <= k < |order| ==> order[k] < |textInput|
    requires forall k :: 0 <= k < |order| ==> sortedTexts[k] == f(textInput[order[k]])
    requires forall i :: 0 <= i < |textInput| ==> i in order
    ensures fresh(out) && out.Length == |textInput|
    ensures forall i :: 0 <= i < |textInput| ==> out[i] == Some(f(textInput[i]))
  {
    out := new Option<Y>[|textInput|](_ => None);
    for k := 0 to |order|
      invariant forall i :: 0 <= i < |textInput| ==> out[i] == None || out[i] == Some(f(textInput[i]))
      invariant forall j :: 0 <= j < k ==> out[order[j]].Some?
    {
      out[order[k]] := Some(sortedTexts[k]);
    }
    forall i | 0 <= i < |textInput|
      ensures out[i] == Some(f(textInput[i]))
    {
      assert i in order;
      var j :| 0 <= j < |order| && order[j] == i;
      assert out[order[j]].Some?;
    }
  }

  /** The whole call: the results come back in input order, no slot stays empty, and the queues are empty again. */
  method Gen<X, Y(!new)>(w: Wrapper<X, Y>, textInput: seq<X>, length: X -> int, batchSize: int) returns (r: Result<seq<Option<Y>>>)
    requires w.Idle() && |w.workers| > 0
    modifies w`inputQueue, w`workers, w`outputQueue
    ensures w.Idle() && |w.workers| == old(|w.workers|)
    ensures batchSize > 0 ==> r.Success? && |r.value| == |textInput|
                              && forall i :: 0 <= i < |textInput| ==> r.value[i] == Some(w.f(textInput[i]))
    ensures batchSize == 0 ==> r.Failure?
    ensures batchSize < 0 ==> if textInput == [] then r == Success([]) else r.Failure?
  {
    var n := |textInput|;
    var lengths := MapSeq(length, textInput);
    var order := SortedIndices(lengths);
    SortedIndicesCover(lengths);
    if batchSize == 0 {
      return Failure("ValueError: range() arg 3 must not be zero");
    }
    if batchSize < 0 {
      return if n == 0 then Success([]) else Failure("IndexError: list index out of range");
    }
    var sortedInput := seq(n, k requires 0 <= k < n => textInput[order[k]]);
    var tasks := Wrapper<X, Y>.MakeTasks(sortedInput, batchSize);
    PutAll(w, tasks);
    var collected := CollectAll(w, |tasks|);
    SortedResultsAreTheMap(w.f, sortedInput, batchSize, collected);
    var sortedTexts := Wrapper<X, Y>.FlattenResults(Sorting.SortBy(collected, ByBatchId()));
    var out := Restore(w.f, textInput, order, sortedTexts);
    r := Success(out[..]);
  }
}
