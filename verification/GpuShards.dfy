/**
 run_one_eval (eval/eval_high_tasks_sglang.py:606-643): the prompts are cut into one chunk per GPU in the order of
 the GPU list, and the prediction files are put back together in the order of the numbers read from their paths.
 */
module GpuShards {
  import opened Wrappers
  import DivMod
  import opened Search
  import opened Dispatcher
  import opened PredictionFiles
  import Sorting

  /** math.ceil(total_len / len(target_gpu_ids)) */
  function ChunkSize(n: nat, gpus: nat): nat
    requires gpus > 0
  {
    (n + gpus - 1) / gpus
  }

  /** The prompt indices of each GPU that gets any; the tag is the GPU number in the file name. */
  function Shards(n: nat, gpuIds: seq<nat>): seq<Task<nat>>
    requires n > 0 && |gpuIds| > 0
  {
    var chunks := Batches(Sorting.Indices(n), SizeIsPositive(n, |gpuIds|));
    seq(if |chunks| < |gpuIds| then |chunks| else |gpuIds|, i requires 0 <= i < |chunks| && i < |gpuIds| => (gpuIds[i], chunks[i].1))
  }

  /** The shards, or the error of the division or of the range with step 0. */
  function PromptShards(n: nat, gpuIds: seq<nat>): Result<seq<Task<nat>>> {
    if |gpuIds| == 0 then Failure("ZeroDivisionError")
    else if n == 0 then Failure("ValueError")
    else Success(Shards(n, gpuIds))
  }

  function SizeIsPositive(n: nat, gpus: nat): (r: nat)
    requires n > 0 && gpus > 0
    ensures r > 0 && r == ChunkSize(n, gpus)
  {
    assert (n + gpus - 1) / gpus >= 1;
    ChunkSize(n, gpus)
  }

  /** The prompt indices in the order of the GPU numbers. */
  function GpuOrder(n: nat, gpuIds: seq<nat>): seq<nat>
    requires n > 0 && |gpuIds| > 0
  {
    Flatten(Sorting.SortBy(Shards(n, gpuIds), ByBatchId()))
  }

  /** The key of the file that holds the answers of a shard. */
  function FileKey(dir: string, tag: string): Task<nat> -> Result<int> {
    (t: Task<nat>) => ReadKey(TempFile(dir, t.0, tag))
  }

  function ByReadKey(key: Task<nat> -> Result<int>): Sorting.Order<Task<nat>> {
    Sorting.ByKey((t: Task<nat>) => match key(t) { case Success(k) => k case Failure(_) => 0 })
  }

  /** The sorted list of files, or the error of the first key that cannot be read. */
  function SortFiles(key: Task<nat> -> Result<int>, arrived: seq<Task<nat>>): Result<seq<Task<nat>>> {
    if exists k :: 0 <= k < |arrived| && key(arrived[k]).Failure? then Failure("ValueError")
    else Success(Sorting.SortBy(arrived, ByReadKey(key)))
  }

  function Paths(dir: string, tag: string, files: seq<Task<nat>>): (r: seq<string>)
    ensures |r| == |files|
  {
    seq(|files|, k requires 0 <= k < |files| => TempFile(dir, files[k].0, tag))
  }

  function Gpus(files: seq<Task<nat>>): (r: seq<nat>)
    ensures |r| == |files|
  {
    seq(|files|, k requires 0 <= k < |files| => files[k].0)
  }

  /**
   For every position of the predictions, the index of the prompt that was answered there, or an error: of the sort, or
   because a file that was read and removed is to be read again.  arrived is the order in which the workers report.
   */
  function AnswerOrder(dir: string, tag: string, arrived: seq<Task<nat>>): Result<seq<nat>> {
    match SortFiles(FileKey(dir, tag), arrived)
    case Success(files) =>
      if Sorting.Distinct(Paths(dir, tag, files)) then Success(Flatten(files)) else Failure("FileNotFoundError")
    case Failure(e) => Failure(e)
  }

  /** The predictions in one file. */
  function FileOf<X, Y>(generate: (nat, X) -> Y, prompts: seq<X>, t: Task<nat>): (r: seq<Y>)
    requires forall k :: 0 <= k < |t.1| ==> t.1[k] < |prompts|
    ensures |r| == |t.1|
  {
    seq(|t.1|, k requires 0 <= k < |t.1| => generate(t.0, prompts[t.1[k]]))
  }

  // ---- the chunks ----

  /** Each chunk of the indices starts with its own start. */
  lemma {:induction false} ChunkStarts(n: nat, size: nat, start: nat)
    requires size > 0 && start <= n
    ensures forall k :: 0 <= k < |Batches(Sorting.Indices(n), size, start)| ==>
              var t := Batches(Sorting.Indices(n), size, start)[k]; |t.1| > 0 && t.1[0] == t.0
    decreases n - start
  {
    if start < n {
      ChunkStarts(n, size, if start + size < n then start + size else n);
    }
  }

  lemma {:induction false} ChunkCount(n: nat, size: nat, start: nat, g: nat)
    requires size > 0 && start <= n && n - start <= g * size
    ensures |Batches(Sorting.Indices(n), size, start)| <= g
    decreases n - start
  {
    if start < n {
      var end := if start + size < n then start + size else n;
      assert g > 0;
      assert (g - 1) * size == g * size - size;
      ChunkCount(n, size, end, g - 1);
    }
  }

  /** The chunk size is the quotient, rounded up. */
  lemma ChunkSizeIsCeiling(n: nat, g: nat)
    requires g > 0
    ensures n <= g * ChunkSize(n, g) < n + g
  {
    SizeIsEnough(n, g);
    var q, r := (n + g - 1) / g, (n + g - 1) % g;
    assert n + g - 1 == q * g + r;
  }

  lemma SizeIsEnough(n: nat, g: nat)
    requires g > 0
    ensures n <= g * ChunkSize(n, g)
  {
    var q, r := (n + g - 1) / g, (n + g - 1) % g;
    assert n + g - 1 == q * g + r;
  }

  lemma {:induction false} FlattenTags<Y>(a: seq<Task<Y>>, b: seq<Task<Y>>)
    requires |a| == |b| && forall k :: 0 <= k < |a| ==> a[k].1 == b[k].1
    ensures Flatten(a) == Flatten(b)
  {
    if |a| > 0 {
      FlattenTags(a[..|a| - 1], b[..|b| - 1]);
    }
  }

  /** No GPU is left without being asked while chunks remain: together the shards are all the prompts, in order. */
  lemma ShardsCoverThePrompts(n: nat, gpuIds: seq<nat>)
    requires n > 0 && |gpuIds| > 0
    ensures Flatten(Shards(n, gpuIds)) == Sorting.Indices(n)
    ensures |Shards(n, gpuIds)| == |Batches(Sorting.Indices(n), SizeIsPositive(n, |gpuIds|))| <= |gpuIds|
  {
    var size := SizeIsPositive(n, |gpuIds|);
    var chunks := Batches(Sorting.Indices(n), size);
    SizeIsEnough(n, |gpuIds|);
    ChunkCount(n, size, 0, |gpuIds|);
    FlattenTags(Shards(n, gpuIds), chunks);
    var id := (x: nat) => x;
    FlattenBatches(id, Sorting.Indices(n), size, 0);
    FlattenTags(WorkAll(id, chunks), chunks) by {
      forall k | 0 <= k < |chunks|
        ensures WorkAll(id, chunks)[k].1 == chunks[k].1
      {
        assert MapSeq(id, chunks[k].1) == chunks[k].1;
      }
    }
    assert MapSeq(id, Sorting.Indices(n)[0..]) == Sorting.Indices(n);
  }

  /** Different shards start at different prompts. */
  lemma ShardStarts(n: nat, gpuIds: seq<nat>)
    requires n > 0 && |gpuIds| > 0
    ensures var s := Shards(n, gpuIds);
            && (forall k :: 0 <= k < |s| ==> |s[k].1| > 0)
            && (forall j, k :: 0 <= j < |s| && 0 <= k < |s| && s[j].1[0] == s[k].1[0] ==> j == k)
  {
    var size := SizeIsPositive(n, |gpuIds|);
    ChunkStarts(n, size, 0);
    BatchesAscend(Sorting.Indices(n), size, 0);
    var chunks, s := Batches(Sorting.Indices(n), size), Shards(n, gpuIds);
    forall j, k | 0 <= j < |s| && 0 <= k < |s| && s[j].1[0] == s[k].1[0]
      ensures j == k
    {
      assert chunks[j].0 == chunks[k].0;
    }
  }

  // ---- when the predictions line up ----

  lemma FlattenFront<Y>(a: seq<Task<Y>>)
    requires |a| > 0
    ensures Flatten(a) == a[0].1 + Flatten(a[1..])
  {
    assert a == [a[0]] + a[1..];
    FlattenConcat([a[0]], a[1..]);
    FlattenOne(a[0]);
  }

  /** Lists of pieces that are told apart by their first element are equal when they flatten to the same. */
  lemma {:induction false} FlattenInjective<Y>(a: seq<Task<Y>>, b: seq<Task<Y>>)
    requires |a| == |b| && Flatten(a) == Flatten(b)
    requires forall k :: 0 <= k < |a| ==> |a[k].1| > 0 && |b[k].1| > 0
    requires forall j, k :: 0 <= j < |a| && 0 <= k < |b| && a[j].1[0] == b[k].1[0] ==> a[j] == b[k]
    ensures a == b
  {
    if |a| > 0 {
      FlattenFront(a);
      FlattenFront(b);
      assert Flatten(a)[0] == a[0].1[0] && Flatten(b)[0] == b[0].1[0];
      assert Flatten(a)[|a[0].1|..] == Flatten(a[1..]) && Flatten(b)[|b[0].1|..] == Flatten(b[1..]);
      FlattenInjective(a[1..], b[1..]);
    }
  }

  /** The GPUs that get a chunk are listed in ascending order. */
  ghost predicate ActiveAscending(n: nat, gpuIds: seq<nat>)
    requires n > 0 && |gpuIds| > 0
  {
    forall i, j :: 0 <= i < j < |Shards(n, gpuIds)| ==> gpuIds[i] < gpuIds[j]
  }

  lemma AscendingAligns(n: nat, gpuIds: seq<nat>)
    requires n > 0 && |gpuIds| > 0 && ActiveAscending(n, gpuIds)
    ensures GpuOrder(n, gpuIds) == Sorting.Indices(n)
  {
    ShardsCoverThePrompts(n, gpuIds);
    Sorting.SortRestores(Shards(n, gpuIds), Shards(n, gpuIds), ByBatchId());
  }

  lemma AlignedAscends(n: nat, gpuIds: seq<nat>)
    requires n > 0 && |gpuIds| > 0 && Sorting.Distinct(Gpus(Shards(n, gpuIds)))
    requires GpuOrder(n, gpuIds) == Sorting.Indices(n)
    ensures ActiveAscending(n, gpuIds)
  {
    var s := Shards(n, gpuIds);
    var sorted := Sorting.SortBy(s, ByBatchId());
    ShardsCoverThePrompts(n, gpuIds);
    ShardStarts(n, gpuIds);
    Sorting.SortSorts(s, ByBatchId());
    PermutedPieces(sorted, s);
    FlattenInjective(sorted, s);
    forall i, j | 0 <= i < j < |s|
      ensures gpuIds[i] < gpuIds[j]
    {
      assert ByBatchId<nat>()(sorted[i], sorted[j]) && Gpus(s)[i] != Gpus(s)[j];
    }
  }

  lemma PermutedPieces<Y>(a: seq<Task<Y>>, s: seq<Task<Y>>)
    requires multiset(a) == multiset(s) && |a| == |s|
    requires forall k :: 0 <= k < |s| ==> |s[k].1| > 0
    requires forall j, k :: 0 <= j < |s| && 0 <= k < |s| && s[j].1[0] == s[k].1[0] ==> j == k
    ensures forall k :: 0 <= k < |a| ==> |a[k].1| > 0
    ensures forall j, k :: 0 <= j < |a| && 0 <= k < |s| && |a[j].1| > 0 && a[j].1[0] == s[k].1[0] ==> a[j] == s[k]
  {
    forall j | 0 <= j < |a|
      ensures a[j] in s
    {
      assert a[j] in multiset(a);
    }
  }

  // ---- putting the files back together ----

  lemma FlattenAround<Y>(l: seq<Task<Y>>, x: Task<Y>, r: seq<Task<Y>>)
    ensures Flatten(l + [x] + r) == Flatten(l) + x.1 + Flatten(r)
  {
    FlattenConcat(l + [x], r);
    FlattenConcat(l, [x]);
    FlattenOne(x);
  }

  lemma MultisetAround<T>(l: seq<T>, m: seq<T>, r: seq<T>)
    ensures multiset(l + m + r) == multiset(l + r) + multiset(m)
  {
  }

  lemma DropSame<T>(a: seq<T>, l: seq<T>, r: seq<T>)
    requires |a| > 0 && multiset(a) == multiset(l + [a[|a| - 1]] + r)
    ensures multiset(a[..|a| - 1]) == multiset(l + r)
  {
    Sorting.DropLast(a);
    MultisetAround(l, [a[|a| - 1]], r);
    assert multiset(a[..|a| - 1]) == multiset(a) - multiset{a[|a| - 1]};
  }

  lemma FlattenWithout<Y>(l: seq<Task<Y>>, x: Task<Y>, r: seq<Task<Y>>)
    ensures multiset(Flatten(l + [x] + r)) == multiset(Flatten(l + r)) + multiset(x.1)
  {
    FlattenAround(l, x, r);
    FlattenConcat(l, r);
    MultisetAround(Flatten(l), x.1, Flatten(r));
  }

  /** The same files, in whatever order, hold the same answers equally often. */
  lemma {:induction false} FlattenPermutes<Y>(a: seq<Task<Y>>, b: seq<Task<Y>>)
    requires multiset(a) == multiset(b)
    ensures multiset(Flatten(a)) == multiset(Flatten(b))
  {
    if |a| == 0 {
      assert |b| == |multiset(b)|;
    } else {
      var n := |a| - 1;
      assert a[n] in multiset(a);
      var j :| 0 <= j < |b| && b[j] == a[n];
      var l, r := b[..j], b[j + 1..];
      assert b == l + [a[n]] + r;
      DropSame(a, l, r);
      FlattenWithout(l, a[n], r);
      FlattenPermutes(a[..n], l + r);
    }
  }

  lemma AllAnswered(n: nat, gpuIds: seq<nat>, dir: string, tag: string, arrived: seq<Task<nat>>)
    requires n > 0 && |gpuIds| > 0 && multiset(arrived) == multiset(Shards(n, gpuIds))
    requires SortFiles(FileKey(dir, tag), arrived).Success?
    ensures multiset(Flatten(SortFiles(FileKey(dir, tag), arrived).value)) == multiset(Sorting.Indices(n))
  {
    ShardsCoverThePrompts(n, gpuIds);
    Sorting.SortSorts(arrived, ByReadKey(FileKey(dir, tag)));
    FlattenPermutes(Sorting.SortBy(arrived, ByReadKey(FileKey(dir, tag))), Shards(n, gpuIds));
  }

  /** Whatever the directory and the order of arrival: without an error every prompt is answered exactly once. */
  lemma NoAnswerIsLost(n: nat, gpuIds: seq<nat>, dir: string, tag: string, arrived: seq<Task<nat>>)
    requires n > 0 && |gpuIds| > 0 && multiset(arrived) == multiset(Shards(n, gpuIds))
    requires AnswerOrder(dir, tag, arrived).Success?
    ensures multiset(AnswerOrder(dir, tag, arrived).value) == multiset(Sorting.Indices(n))
  {
    AllAnswered(n, gpuIds, dir, tag, arrived);
  }

  /** Distinct GPUs give one order of the files, however they arrive. */
  lemma SortedArrivals(s: seq<Task<nat>>, arrived: seq<Task<nat>>)
    requires Sorting.Distinct(Gpus(s)) && multiset(arrived) == multiset(s)
    ensures Sorting.SortBy(arrived, ByBatchId()) == Sorting.SortBy(s, ByBatchId())
  {
    var sorted := Sorting.SortBy(s, ByBatchId());
    Sorting.SortSorts(s, ByBatchId());
    GpusPermute(s, sorted);
    forall i, j | 0 <= i < j < |sorted|
      ensures ByBatchId<nat>()(sorted[i], sorted[j]) && !ByBatchId<nat>()(sorted[j], sorted[i])
    {
      assert Gpus(sorted)[i] != Gpus(sorted)[j];
    }
    Sorting.SortRestores(arrived, sorted, ByBatchId());
  }

  lemma GpusPermute(s: seq<Task<nat>>, files: seq<Task<nat>>)
    requires Sorting.Distinct(Gpus(s)) && multiset(files) == multiset(s)
    ensures Sorting.Distinct(Gpus(files))
  {
    forall i, j | 0 <= i < j < |files|
      ensures Gpus(files)[i] != Gpus(files)[j]
    {
      forall a, b | 0 <= a < b < |s|
        ensures s[a].0 != s[b].0
      {
        assert Gpus(s)[a] != Gpus(s)[b];
      }
      DifferentTags(s, files, i, j);
    }
  }

  /** Two files share a path exactly when they are of the same GPU. */
  lemma PathsOfGpus(dir: string, tag: string, files: seq<Task<nat>>)
    ensures Sorting.Distinct(Paths(dir, tag, files)) <==> Sorting.Distinct(Gpus(files))
  {
    forall i, j | 0 <= i < j < |files|
      ensures Paths(dir, tag, files)[i] == Paths(dir, tag, files)[j] <==> Gpus(files)[i] == Gpus(files)[j]
    {
      SamePath(dir, files[i].0, files[j].0, tag);
    }
  }

  /** Whether a file is read twice does not depend on the order of arrival. */
  lemma ReadTwice(dir: string, tag: string, s: seq<Task<nat>>, files: seq<Task<nat>>)
    requires multiset(files) == multiset(s)
    ensures Sorting.Distinct(Paths(dir, tag, files)) <==> Sorting.Distinct(Gpus(s))
  {
    PathsOfGpus(dir, tag, files);
    if Sorting.Distinct(Gpus(s)) {
      GpusPermute(s, files);
    } else if Sorting.Distinct(Gpus(files)) {
      GpusPermute(files, s);
    }
  }

  lemma DifferentTags(s: seq<Task<nat>>, sorted: seq<Task<nat>>, i: nat, j: nat)
    requires multiset(s) == multiset(sorted) && i < j < |sorted|
    requires forall a, b :: 0 <= a < b < |s| ==> s[a].0 != s[b].0
    ensures sorted[i].0 != sorted[j].0
  {
    if sorted[i].0 == sorted[j].0 {
      assert sorted[i] in multiset(s) && sorted[j] in multiset(s);
      var a :| 0 <= a < |s| && s[a] == sorted[i];
      var b :| 0 <= b < |s| && s[b] == sorted[j];
      assert a == b;
      Sorting.DistinctMultiset(s);
      Sorting.TwoCopies(sorted, i, j);
    }
  }

  // ---- when the predictions line up, for every order of arrival ----

  lemma SortByGpu(key: Task<nat> -> Result<int>, arrived: seq<Task<nat>>)
    requires forall t: Task<nat> :: key(t) == Success(t.0)
    ensures SortFiles(key, arrived) == Success(Sorting.SortBy(arrived, ByBatchId()))
  {
    Sorting.SortAgrees(arrived, ByReadKey(key), ByBatchId());
  }

  /** Without the mark in the directory the order is that of the GPU numbers; a GPU with two files is an error. */
  lemma PlainDirectory(n: nat, gpuIds: seq<nat>, dir: string, tag: string, arrived: seq<Task<nat>>)
    requires n > 0 && |gpuIds| > 0 && multiset(arrived) == multiset(Shards(n, gpuIds))
    requires !Has(dir, MARK)
    ensures Sorting.Distinct(Gpus(Shards(n, gpuIds))) ==> AnswerOrder(dir, tag, arrived) == Success(GpuOrder(n, gpuIds))
    ensures !Sorting.Distinct(Gpus(Shards(n, gpuIds))) ==> AnswerOrder(dir, tag, arrived).Failure?
  {
    var s := Shards(n, gpuIds);
    forall t: Task<nat>
      ensures FileKey(dir, tag)(t) == Success(t.0)
    {
      KeyOfTempFile(dir, t.0, tag);
    }
    SortByGpu(FileKey(dir, tag), arrived);
    Sorting.SortSorts(arrived, ByBatchId());
    ReadTwice(dir, tag, s, Sorting.SortBy(arrived, ByBatchId()));
    if Sorting.Distinct(Gpus(s)) {
      SortedArrivals(s, arrived);
    }
  }

  lemma SortOfTies(key: Task<nat> -> Result<int>, arrived: seq<Task<nat>>, k: Result<int>)
    requires |arrived| > 0 && forall t: Task<nat> :: key(t) == k
    ensures k.Success? ==> SortFiles(key, arrived) == Success(arrived)
    ensures k.Failure? ==> SortFiles(key, arrived).Failure?
  {
    assert key(arrived[0]) == k;
    Sorting.SortedStays(arrived, ByReadKey(key));
  }

  /** With the mark in the directory all files tie, so they are read as they arrive, or nothing is. */
  lemma MarkedDirectory(dir: string, tag: string, arrived: seq<Task<nat>>)
    requires Has(dir, MARK) && |arrived| > 0
    ensures AnswerOrder(dir, tag, arrived).Success? <==> ReadKey(Head(dir)).Success? && Sorting.Distinct(Gpus(arrived))
    ensures AnswerOrder(dir, tag, arrived).Success? ==> AnswerOrder(dir, tag, arrived).value == Flatten(arrived)
  {
    forall t: Task<nat>
      ensures FileKey(dir, tag)(t) == ReadKey(Head(dir))
    {
      KeyOfTempFile(dir, t.0, tag);
    }
    SortOfTies(FileKey(dir, tag), arrived, ReadKey(Head(dir)));
    PathsOfGpus(dir, tag, arrived);
  }

  /** There are prompts and GPUs, and every prediction stands at its prompt's index, in whatever order the workers finish. */
  ghost predicate AlwaysAligned(n: nat, gpuIds: seq<nat>, dir: string, tag: string) {
    && PromptShards(n, gpuIds).Success?
    && forall arrived :: multiset(arrived) == multiset(PromptShards(n, gpuIds).value) ==>
         AnswerOrder(dir, tag, arrived) == Success(Sorting.Indices(n))
  }

  lemma ProductExceeds(n: int, g: int)
    requires n > 1 && g > 1
    ensures n * g >= n + g
  {
    DivMod.MulAtLeast(n - 1, g - 1);
    assert (n - 1) * (g - 1) == n * g - n - g + 1;
  }

  lemma ChunkIsAll(n: nat, g: nat)
    requires n > 0 && g > 0
    ensures ChunkSize(n, g) >= n <==> n == 1 || g == 1
  {
    var q, r := (n + g - 1) / g, (n + g - 1) % g;
    assert n + g - 1 == q * g + r;
    if n > 1 && g > 1 {
      ProductExceeds(n, g);
      assert q * g < n * g;
      if q >= n {
        DivMod.MulMonotone(n, q, g);
        assert false;
      }
    } else if n == 1 {
      DivMod.Unique(g, g, 1, 0);
    }
  }

  /** One GPU gets everything exactly when there is one GPU or one prompt. */
  lemma OneShard(n: nat, gpuIds: seq<nat>)
    requires n > 0 && |gpuIds| > 0
    ensures |Shards(n, gpuIds)| > 0
    ensures |Shards(n, gpuIds)| == 1 <==> n == 1 || |gpuIds| == 1
  {
    var size, all := SizeIsPositive(n, |gpuIds|), Sorting.Indices(n);
    ShardsCoverThePrompts(n, gpuIds);
    ChunkIsAll(n, |gpuIds|);
    assert size >= n ==> Batches(all, size) == [(0, all[0..n])] + Batches(all, size, n);
    assert Batches(all, size, n) == [];
  }

  /** With the mark in the directory a second shard may come first. */
  lemma SecondComesFirst(n: nat, gpuIds: seq<nat>) returns (arrived: seq<Task<nat>>)
    requires n > 0 && |gpuIds| > 0 && |Shards(n, gpuIds)| > 1
    ensures multiset(arrived) == multiset(Shards(n, gpuIds))
    ensures Flatten(arrived) != Sorting.Indices(n)
  {
    var s := Shards(n, gpuIds);
    arrived := [s[1], s[0]] + s[2..];
    assert s == [s[0], s[1]] + s[2..];
    ShardStarts(n, gpuIds);
    ShardsCoverThePrompts(n, gpuIds);
    FlattenFront(s);
    FlattenFront(arrived);
    assert Flatten(s)[0] == s[0].1[0] && Flatten(arrived)[0] == s[1].1[0];
  }

  /**
   The predictions line up with the prompts, for every order in which the workers finish, if and only if there are
   prompts and GPUs, and the mark is not in the directory and the GPUs that get a chunk are listed in ascending order, or
   the mark is in the directory, there is a single chunk, and a number follows the mark.
   */
  lemma AlignedExactlyWhen(n: nat, gpuIds: seq<nat>, dir: string, tag: string)
    ensures AlwaysAligned(n, gpuIds, dir, tag)
       <==> && n > 0 && |gpuIds| > 0
            && if Has(dir, MARK) then (n == 1 || |gpuIds| == 1) && ReadKey(Head(dir)).Success? else ActiveAscending(n, gpuIds)
  {
    if n > 0 && |gpuIds| > 0 {
      if Has(dir, MARK) {
        AlignedWithMark(n, gpuIds, dir, tag);
      } else {
        AlignedWithoutMark(n, gpuIds, dir, tag);
      }
    }
  }

  lemma AlignedWithoutMark(n: nat, gpuIds: seq<nat>, dir: string, tag: string)
    requires n > 0 && |gpuIds| > 0 && !Has(dir, MARK)
    ensures AlwaysAligned(n, gpuIds, dir, tag) <==> ActiveAscending(n, gpuIds)
  {
    if ActiveAscending(n, gpuIds) {
      AscendingAligns(n, gpuIds);
      assert Sorting.Distinct(Gpus(Shards(n, gpuIds)));
      forall arrived | multiset(arrived) == multiset(Shards(n, gpuIds))
        ensures AnswerOrder(dir, tag, arrived) == Success(Sorting.Indices(n))
      {
        PlainDirectory(n, gpuIds, dir, tag, arrived);
      }
    } else if AlwaysAligned(n, gpuIds, dir, tag) {
      PlainDirectory(n, gpuIds, dir, tag, Shards(n, gpuIds));
      AlignedAscends(n, gpuIds);
    }
  }

  lemma OnlyOne<T>(a: seq<T>, b: seq<T>)
    requires multiset(a) == multiset(b) && |b| == 1
    ensures a == b
  {
    assert |a| == |multiset(a)| == |multiset(b)|;
    assert a[0] in multiset(b);
  }

  lemma AlignedWithMark(n: nat, gpuIds: seq<nat>, dir: string, tag: string)
    requires n > 0 && |gpuIds| > 0 && Has(dir, MARK)
    ensures AlwaysAligned(n, gpuIds, dir, tag) <==> (n == 1 || |gpuIds| == 1) && ReadKey(Head(dir)).Success?
  {
    var s := Shards(n, gpuIds);
    OneShard(n, gpuIds);
    ShardsCoverThePrompts(n, gpuIds);
    MarkedDirectory(dir, tag, s);
    if |s| > 1 {
      var arrived := SecondComesFirst(n, gpuIds);
      assert |arrived| == |multiset(arrived)| == |multiset(s)| == |s|;
      MarkedDirectory(dir, tag, arrived);
    } else {
      forall arrived | multiset(arrived) == multiset(s)
        ensures ReadKey(Head(dir)).Success? ==> AnswerOrder(dir, tag, arrived) == Success(Sorting.Indices(n))
      {
        OnlyOne(arrived, s);
      }
    }
  }

  /** Prediction i was generated, on some GPU, for the prompt at position i of the answer order. */
  ghost predicate AnswersIn<X, Y>(generate: (nat, X) -> Y, prompts: seq<X>, order: seq<nat>, predictions: seq<Y>) {
    && |predictions| == |order|
    && forall i :: 0 <= i < |order| ==> order[i] < |prompts| && AnsweredBy(generate, prompts[order[i]], predictions[i])
  }

  ghost predicate AnsweredBy<X, Y>(generate: (nat, X) -> Y, prompt: X, prediction: Y) {
    exists gpu: nat :: prediction == generate(gpu, prompt)
  }

  lemma AnswersAppend<X, Y>(generate: (nat, X) -> Y, prompts: seq<X>, order: seq<nat>, predictions: seq<Y>, t: Task<nat>)
    requires AnswersIn(generate, prompts, order, predictions)
    requires forall k :: 0 <= k < |t.1| ==> t.1[k] < |prompts|
    ensures AnswersIn(generate, prompts, order + t.1, predictions + FileOf(generate, prompts, t))
  {
    forall i | 0 <= i < |order + t.1|
      ensures AnsweredBy(generate, prompts[(order + t.1)[i]], (predictions + FileOf(generate, prompts, t))[i])
    {
      if i < |order| {
        assert AnsweredBy(generate, prompts[order[i]], predictions[i]);
      } else {
        assert FileOf(generate, prompts, t)[i - |order|] == generate(t.0, prompts[t.1[i - |order|]]);
      }
    }
  }

  lemma {:induction false} FlattenHas<Y>(a: seq<Task<Y>>, t: Task<Y>, k: nat)
    requires t in a && k < |t.1|
    ensures t.1[k] in Flatten(a)
  {
    var m := |a| - 1;
    if a[m] == t {
      assert Flatten(a)[|Flatten(a[..m])| + k] == t.1[k];
    } else {
      assert t in a[..m];
      FlattenHas(a[..m], t, k);
      assert t.1[k] in Flatten(a[..m]) + a[m].1;
    }
  }

  lemma FilesHoldIndices(files: seq<Task<nat>>, n: nat)
    requires multiset(Flatten(files)) == multiset(Sorting.Indices(n))
    ensures |Flatten(files)| == n
    ensures forall t, k :: t in files && 0 <= k < |t.1| ==> t.1[k] < n
  {
    assert |Flatten(files)| == |multiset(Flatten(files))| == |Sorting.Indices(n)|;
    forall t, k | t in files && 0 <= k < |t.1|
      ensures t.1[k] < n
    {
      FlattenHas(files, t, k);
      assert t.1[k] in multiset(Flatten(files));
    }
  }

  /** Reads the files one after the other, removes each, and extends the list of predictions. */
  method ReadFiles<X, Y>(generate: (nat, X) -> Y, prompts: seq<X>, dir: string, tag: string, tempFiles: seq<Task<nat>>)
    returns (r: Result<seq<Y>>)
    requires forall t, k :: t in tempFiles && 0 <= k < |t.1| ==> t.1[k] < |prompts|
    ensures r.Success? <==> Sorting.Distinct(Paths(dir, tag, tempFiles))
    ensures r.Success? ==> AnswersIn(generate, prompts, Flatten(tempFiles), r.value)
  {
    var predictions, removed := [], [];
    ghost var paths := Paths(dir, tag, tempFiles);
    for k := 0 to |tempFiles|
      invariant AnswersIn(generate, prompts, Flatten(tempFiles[..k]), predictions)
      invariant removed == paths[..k] && Sorting.Distinct(removed)
    {
      var path := TempFile(dir, tempFiles[k].0, tag);
      NextPath(paths, k);
      if path in removed {
        return Failure("FileNotFoundError");
      }
      assert tempFiles[..k + 1][..k] == tempFiles[..k];
      assert tempFiles[k] in tempFiles;
      AnswersAppend(generate, prompts, Flatten(tempFiles[..k]), predictions, tempFiles[k]);
      predictions := predictions + FileOf(generate, prompts, tempFiles[k]);
      removed := removed + [path];
    }
    assert tempFiles[..|tempFiles|] == tempFiles && paths[..|tempFiles|] == paths;
    r := Success(predictions);
  }

  lemma NextPath(paths: seq<string>, k: nat)
    requires k < |paths| && Sorting.Distinct(paths[..k])
    ensures paths[..k + 1] == paths[..k] + [paths[k]]
    ensures if paths[k] in paths[..k] then !Sorting.Distinct(paths) else Sorting.Distinct(paths[..k + 1])
  {
  }

  /** Sorts the files and reads them; arrived is the order in which the workers reported them. */
  method ReadPredictions<X, Y>(generate: (nat, X) -> Y, prompts: seq<X>, gpuIds: seq<nat>, dir: string, tag: string,
                               arrived: seq<Task<nat>>)
    returns (r: Result<seq<Y>>)
    requires |prompts| > 0 && |gpuIds| > 0
    requires multiset(arrived) == multiset(Shards(|prompts|, gpuIds))
    ensures r.Failure? <==> AnswerOrder(dir, tag, arrived).Failure?
    ensures r.Success? ==> AnswersIn(generate, prompts, AnswerOrder(dir, tag, arrived).value, r.value)
  {
    var sorted := SortFiles(FileKey(dir, tag), arrived);
    if sorted.Failure? {
      return Failure(sorted.error);
    }
    AllAnswered(|prompts|, gpuIds, dir, tag, arrived);
    FilesHoldIndices(sorted.value, |prompts|);
    var read := ReadFiles(generate, prompts, dir, tag, sorted.value);
    if read.Failure? {
      return Failure(read.error);
    }
    if |read.value| != |prompts| {
      return Failure("ValueError: predictions and data differ in length");
    }
    r := Success(read.value);
  }

  // ---- inputs that fail ----

  lemma TwoShards(a: nat, b: nat)
    ensures Shards(2, [a, b]) == [(a, [0]), (b, [1])]
  {
    var all := Sorting.Indices(2);
    assert Batches(all, 1, 2) == [];
    assert Batches(all, 1, 1) == [(1, all[1..2])];
    assert Batches(all, 1) == [(0, all[0..1]), (1, all[1..2])];
    assert all[0..1] == [0] && all[1..2] == [1];
    assert SizeIsPositive(2, 2) == 1;
  }

  lemma TwoFlat(s: Task<nat>, t: Task<nat>)
    ensures Flatten([s, t]) == s.1 + t.1
  {
    FlattenFront([s, t]);
    assert [s, t][1..] == [t];
    FlattenOne(t);
  }

  lemma TwoSorted(s: Task<nat>, t: Task<nat>)
    requires t.0 < s.0
    ensures Sorting.SortBy([s, t], ByBatchId()) == [t, s]
  {
    assert [s, t] == [s] + [t] && [t, s] == [t] + [s];
    Sorting.SortRestores([s, t], [t, s], ByBatchId());
  }

  /** With GPUs 1 and 0 in this order and two prompts, the two predictions come back swapped. */
  lemma TwoGpusSwapped()
    ensures GpuOrder(2, [1, 0]) == [1, 0]
  {
    TwoShards(1, 0);
    TwoSorted((1, [0]), (0, [1]));
    TwoFlat((0, [1]), (1, [0]));
  }

  lemma LateGpuSwapped()
    ensures multiset([(1, [1]), (0, [0])]) == multiset(Shards(2, [0, 1]))
    ensures Flatten([(1, [1]), (0, [0])]) == [1, 0] && Sorting.Distinct(Gpus([(1, [1]), (0, [0])]))
  {
    TwoShards(0, 1);
    TwoFlat((1, [1]), (0, [0]));
  }

  /**
   GPUs 0 and 1 ascend, and in the directory of a model that was trained on 8 GPUs with batches of 16 the predictions
   come back swapped when GPU 1 is done first, for every sampling configuration, dataset and run.
   */
  lemma DirectoryHidesGpu(samplingTag: string, dataset: string, run: nat, tag: string)
    ensures multiset([(1, [1]), (0, [0])]) == multiset(Shards(2, [0, 1]))
    ensures AnswerOrder(RunDir("ckpts/8_gpu_16_bs", samplingTag, dataset, run), tag, [(1, [1]), (0, [0])]) == Success([1, 0])
  {
    LateGpuSwapped();
    KeyOfTrainingRun(samplingTag, dataset, run);
    MarkedDirectory(RunDir("ckpts/8_gpu_16_bs", samplingTag, dataset, run), tag, [(1, [1]), (0, [0])]);
  }

  /** In the directory of this model every evaluation raises. */
  lemma DirectoryRaises(samplingTag: string, dataset: string, run: nat, tag: string, arrived: seq<Task<nat>>)
    requires |arrived| > 0
    ensures AnswerOrder(RunDir("multi_gpu_run_1", samplingTag, dataset, run), tag, arrived).Failure?
  {
    KeyOfOtherRun(samplingTag, dataset, run);
    MarkedDirectory(RunDir("multi_gpu_run_1", samplingTag, dataset, run), tag, arrived);
  }
}
