/**
 Soft labels on disk: generated in calls of 2000 examples, saved in files of 1000 named after their
 range, and reloaded by Stage 2 from an unordered directory listing
 (generate_latent_soft_label_lora_batch.py:477-508, src/stage2/data.py:82-117).
 */
module ChunkFiles {
  import opened Wrappers
  import opened Search
  import opened Decimals
  import opened Dispatcher
  import opened LabelGenerator
  import Sorting

  const GENERATE_SIZE := 2000
  const CHUNK_SIZE := 1000

  // ---- file names ----

  function FileName(start: nat, end: nat): string {
    "batch_" + ToDecimal(start) + "_" + ToDecimal(end) + ".pt"
  }

  /** The first range bound in a file name, or the ValueError of get_start_idx. */
  function GetStartIdx(basename: string): Result<nat> {
    var parts := Split(basename, "_");
    if |parts| < 3 || !AllDigits(parts[1]) then Failure("ValueError")
    else Success(FromDecimal(parts[1]))
  }

  lemma StartIdxOfFileName(start: nat, end: nat)
    ensures GetStartIdx(FileName(start, end)) == Success(start)
  {
    var rest := ToDecimal(end) + ".pt";
    assert FileName(start, end) == "batch" + "_" + (ToDecimal(start) + "_" + rest);
    FirstPieceEnds("batch", "_", ToDecimal(start) + "_" + rest);
    DigitsHaveNone(ToDecimal(start));
    FirstPieceEnds(ToDecimal(start), "_", rest);
    DecimalRoundTrip(start);
  }

  /** The names that the pattern batch_*.pt selects. */
  predicate IsChunkFile(name: string) {
    |name| >= 9 && name[..6] == "batch_" && name[|name| - 3..] == ".pt"
  }

  /** The pattern: anything between batch_ and .pt. */
  lemma ChunkFilePattern(name: string)
    ensures IsChunkFile(name) <==> exists m: string :: name == "batch_" + m + ".pt"
  {
    if IsChunkFile(name) {
      assert name == "batch_" + name[6..|name| - 3] + ".pt";
    }
  }

  lemma FileNameIsSelected(start: nat, end: nat)
    ensures IsChunkFile(FileName(start, end))
  {
  }

  // ---- the directory ----

  /** What a chunk file holds; other than a list is refused by the loader. */
  datatype Chunk<Y> = List(items: seq<Y>) | Other

  function ChunkName<Y>(t: Task<Y>): string {
    FileName(t.0, t.0 + |t.1|)
  }

  function Names<Y>(ts: seq<Task<Y>>): (r: seq<string>)
    ensures |r| == |ts|
  {
    seq(|ts|, i requires 0 <= i < |ts| => ChunkName(ts[i]))
  }

  /** The order that the loader sorts by. */
  function ByStart(): Sorting.Order<string> {
    Sorting.ByKey((name: string) => match GetStartIdx(name) { case Success(n) => n case Failure(_) => -1 })
  }

  /** The files that the loader finds. */
  function Selected<Y>(files: map<string, Chunk<Y>>): set<string> {
    set name | name in files && IsChunkFile(name)
  }

  /** The chunk files in the directory are exactly the given chunks, each under its own name. */
  ghost predicate Holds<Y>(files: map<string, Chunk<Y>>, ts: seq<Task<Y>>) {
    && (forall i :: 0 <= i < |ts| ==> ChunkName(ts[i]) in files && files[ChunkName(ts[i])] == List(ts[i].1))
    && (forall name :: name in Selected(files) ==> name in Names(ts))
  }

  /** Files of other names are as they were. */
  ghost predicate OthersKept<Y>(was: map<string, Chunk<Y>>, files: map<string, Chunk<Y>>, ts: seq<Task<Y>>) {
    forall name :: name !in Names(ts) ==> (name in files <==> name in was) && (name in files ==> files[name] == was[name])
  }

  function Below(n: nat): (r: set<int>)
    ensures forall i: int :: i in r <==> 0 <= i < n
  {
    if n == 0 then {} else Below(n - 1) + {n - 1}
  }

  /** The concatenated contents of the named files. */
  function Contents<Y>(files: map<string, Chunk<Y>>, names: seq<string>): seq<Y>
    requires forall i :: 0 <= i < |names| ==> names[i] in files && files[names[i]].List?
  {
    if |names| == 0 then [] else Contents(files, names[..|names| - 1]) + files[names[|names| - 1]].items
  }

  /** The chunks outside `todo` are on disk, and no other chunk file is. */
  ghost predicate Saved<Y>(files: map<string, Chunk<Y>>, ts: seq<Task<Y>>, todo: set<int>) {
    && (forall i :: 0 <= i < |ts| && i !in todo ==> ChunkName(ts[i]) in files && files[ChunkName(ts[i])] == List(ts[i].1))
    && (forall name :: name in Selected(files) ==> name in Names(ts))
  }

  lemma SaveOne<Y>(files: map<string, Chunk<Y>>, ts: seq<Task<Y>>, todo: set<int>, i: int)
    requires DistinctNames(ts) && 0 <= i < |ts|
    requires Saved(files, ts, todo)
    ensures Saved(files[ChunkName(ts[i]) := List(ts[i].1)], ts, todo - {i})
  {
    assert Names(ts)[i] == ChunkName(ts[i]);
    forall j | 0 <= j < |ts| && j !in todo && j != i
      ensures ChunkName(ts[j]) != ChunkName(ts[i])
    {
      if j < i {
        assert ChunkName(ts[j]) != ChunkName(ts[i]);
      } else {
        assert ChunkName(ts[i]) != ChunkName(ts[j]);
      }
    }
  }

  class Directory<Y> {
    var files: map<string, Chunk<Y>>

    constructor ()
      ensures files == map[]
    {
      files := map[];
    }

    /** The thread pool finishes the writes in any order. */
    method SaveChunks(tasks: seq<Task<Y>>)
      requires Selected(files) == {} && DistinctNames(tasks)
      modifies this
      ensures Holds(files, tasks) && OthersKept(old(files), files, tasks)
    {
      var todo := Below(|tasks|);
      while todo != {}
        invariant todo <= Below(|tasks|)
        invariant Saved(files, tasks, todo) && OthersKept(old(files), files, tasks)
      {
        var i :| i in todo;
        SaveOne(files, tasks, todo, i);
        assert Names(tasks)[i] == ChunkName(tasks[i]);
        files := files[ChunkName(tasks[i]) := List(tasks[i].1)];
        todo := todo - {i};
      }
    }

    /** The files that match the pattern, in no particular order. */
    method Glob() returns (listing: seq<string>)
      ensures multiset(listing) == multiset(Selected(files))
    {
      listing := [];
      var rest := Selected(files);
      while rest != {}
        invariant multiset(listing) + multiset(rest) == multiset(Selected(files))
      {
        var name :| name in rest;
        listing := listing + [name];
        rest := rest - {name};
      }
    }

    /** Appends the contents of the files in the given order. */
    method ReadFiles(sortedFiles: seq<string>) returns (r: Result<seq<Y>>)
      requires forall i :: 0 <= i < |sortedFiles| ==> sortedFiles[i] in files
      ensures r.Success? <==> forall i :: 0 <= i < |sortedFiles| ==> files[sortedFiles[i]].List?
      ensures r.Success? ==> r.value == Contents(files, sortedFiles)
    {
      var latentStates := [];
      for i := 0 to |sortedFiles|
        invariant forall k :: 0 <= k < i ==> files[sortedFiles[k]].List?
        invariant latentStates == Contents(files, sortedFiles[..i])
      {
        var chunkData := files[sortedFiles[i]];
        if chunkData.Other? {
          return Failure("ValueError: Latent chunk must contain a list");
        }
        assert sortedFiles[..i + 1][..i] == sortedFiles[..i];
        latentStates := latentStates + chunkData.items;
      }
      assert sortedFiles[..|sortedFiles|] == sortedFiles;
      r := Success(latentStates);
    }

    /** Reads the listed files in the order of their range bounds. */
    method ReadSorted(listing: seq<string>) returns (r: Result<seq<Y>>)
      requires multiset(listing) == multiset(Selected(files))
      ensures r.Success? <==> forall name :: name in Selected(files) ==> files[name].List?
      ensures r.Success? ==> exists sorted :: SortedListing(files, sorted) && r.value == Contents(files, sorted)
    {
      var sortedFiles := Sorting.SortBy(listing, ByStart());
      Sorting.SortSorts(listing, ByStart());
      InListing(files, sortedFiles);
      r := ReadFiles(sortedFiles);
    }

    method LoadAllChunks() returns (r: Result<seq<Y>>)
      ensures r.Failure? <==> Selected(files) == {} || exists name :: name in Selected(files) && (GetStartIdx(name).Failure? || files[name].Other?)
      ensures r.Success? ==> exists listing :: SortedListing(files, listing) && r.value == Contents(files, listing)
    {
      var listing := Glob();
      InListing(files, listing);
      if |listing| == 0 {
        return Failure("FileNotFoundError");
      }
      if exists i :: 0 <= i < |listing| && GetStartIdx(listing[i]).Failure? {
        return Failure("ValueError: Invalid latent chunk filename");
      }
      r := ReadSorted(listing);
    }
  }

  /** Every chunk file once, ordered by the range bound in its name. */
  ghost predicate SortedListing<Y>(files: map<string, Chunk<Y>>, listing: seq<string>) {
    && multiset(listing) == multiset(Selected(files))
    && (forall i :: 0 <= i < |listing| ==> listing[i] in files && files[listing[i]].List?)
    && Sorting.Sorted(listing, ByStart())
  }

  lemma InListing<Y>(files: map<string, Chunk<Y>>, listing: seq<string>)
    requires multiset(listing) == multiset(Selected(files))
    ensures forall i :: 0 <= i < |listing| ==> listing[i] in Selected(files)
    ensures forall name :: name in Selected(files) ==> name in listing
    ensures |listing| == 0 <==> Selected(files) == {}
  {
    forall i | 0 <= i < |listing|
      ensures listing[i] in Selected(files)
    {
      assert listing[i] in multiset(listing);
    }
    forall name | name in Selected(files)
      ensures name in listing
    {
      assert name in multiset(Selected(files));
    }
  }

  // ---- the round trip ----

  ghost predicate DistinctNames<Y>(ts: seq<Task<Y>>) {
    forall i, j :: 0 <= i < j < |ts| ==> ChunkName(ts[i]) != ChunkName(ts[j])
  }

  lemma NamesAscend<Y>(states: seq<Y>)
    ensures var ts := Batches(states, CHUNK_SIZE);
            && Sorting.Ascending(Names(ts), ByStart())
            && DistinctNames(ts)
            && (forall i :: 0 <= i < |ts| ==> GetStartIdx(ChunkName(ts[i])).Success?)
  {
    var ts := Batches(states, CHUNK_SIZE);
    BatchesAscend(states, CHUNK_SIZE, 0);
    forall i | 0 <= i < |ts|
      ensures GetStartIdx(ChunkName(ts[i])) == Success(ts[i].0)
    {
      StartIdxOfFileName(ts[i].0, ts[i].0 + |ts[i].1|);
    }
  }

  lemma {:induction false} ContentsOfNames<Y>(files: map<string, Chunk<Y>>, ts: seq<Task<Y>>)
    requires forall i :: 0 <= i < |ts| ==> ChunkName(ts[i]) in files && files[ChunkName(ts[i])] == List(ts[i].1)
    ensures Contents(files, Names(ts)) == Flatten(ts)
  {
    if |ts| > 0 {
      ContentsOfNames(files, ts[..|ts| - 1]);
      assert Names(ts)[..|ts| - 1] == Names(ts[..|ts| - 1]);
    }
  }

  lemma FlattenChunks<Y>(states: seq<Y>)
    ensures Flatten(Batches(states, CHUNK_SIZE)) == states
  {
    var id := (y: Y) => y;
    FlattenBatches(id, states, CHUNK_SIZE, 0);
    var ts := Batches(states, CHUNK_SIZE);
    forall i | 0 <= i < |ts|
      ensures WorkAll(id, ts)[i] == ts[i]
    {
      assert MapSeq(id, ts[i].1) == ts[i].1;
    }
    assert WorkAll(id, ts) == ts;
    assert MapSeq(id, states[0..]) == states;
  }

  lemma NamesAreKeys<Y>(files: map<string, Chunk<Y>>, ts: seq<Task<Y>>)
    requires Holds(files, ts) && DistinctNames(ts)
    ensures multiset(Names(ts)) == multiset(Selected(files))
  {
    var names := Names(ts);
    Sorting.DistinctMultiset(names);
    forall i | 0 <= i < |ts|
      ensures names[i] in Selected(files)
    {
      FileNameIsSelected(ts[i].0, ts[i].0 + |ts[i].1|);
    }
    assert Selected(files) == set x | x in names;
  }

  /** Any sorted listing of the saved chunks reads back the saved list. */
  lemma ReloadRestores<Y>(states: seq<Y>, files: map<string, Chunk<Y>>, listing: seq<string>)
    requires Holds(files, Batches(states, CHUNK_SIZE))
    requires SortedListing(files, listing)
    ensures Contents(files, listing) == states
  {
    var ts := Batches(states, CHUNK_SIZE);
    NamesAscend(states);
    NamesAreKeys(files, ts);
    Sorting.SortedUnique(listing, Names(ts), ByStart());
    ContentsOfNames(files, ts);
    FlattenChunks(states);
  }

  /**
   The whole pipeline, in a directory without chunk files: the reloaded list holds f of every example in data
   order, so Stage 2's length check passes; only for empty data is there nothing to load.
   */
  method GenerateSaveAndLoad<X, Y(!new)>(model: Wrapper<X, Y>, directory: Directory<Y>, data: seq<X>, batchSize: nat)
    returns (r: Result<seq<Y>>)
    requires model.Idle() && |model.workers| > 0 && batchSize > 0
    requires Selected(directory.files) == {}
    modifies model, directory
    ensures data == [] ==> r.Failure?
    ensures data != [] ==> r == Success(MapSeq(model.f, data))
  {
    var allLatentStates: seq<Y> := [];
    var start := 0;
    while start < |data|
      invariant 0 <= start <= |data|
      invariant model.Idle() && |model.workers| > 0
      invariant allLatentStates == MapSeq(model.f, data[..start])
      invariant Selected(directory.files) == {}
    {
      var end := if start + GENERATE_SIZE < |data| then start + GENERATE_SIZE else |data|;
      var latentStates := model.Gen(data[start..end], batchSize);
      allLatentStates := allLatentStates + latentStates.value;
      start := end;
    }
    assert data[..start] == data;
    var batchTasks := Wrapper<Y, Y>.MakeTasks(allLatentStates, CHUNK_SIZE);
    NamesAscend(allLatentStates);
    directory.SaveChunks(batchTasks);
    r := directory.LoadAllChunks();
    Reloaded(allLatentStates, directory.files);
    if data != [] {
      ghost var listing :| SortedListing(directory.files, listing) && r.value == Contents(directory.files, listing);
      ReloadRestores(allLatentStates, directory.files, listing);
    }
  }

  lemma Reloaded<Y>(states: seq<Y>, files: map<string, Chunk<Y>>)
    requires Holds(files, Batches(states, CHUNK_SIZE))
    ensures states == [] <==> Selected(files) == {}
    ensures forall name :: name in Selected(files) ==> GetStartIdx(name).Success? && files[name].List?
  {
    NamesAscend(states);
    var ts := Batches(states, CHUNK_SIZE);
    if |states| > 0 {
      FileNameIsSelected(ts[0].0, ts[0].0 + |ts[0].1|);
      assert ChunkName(ts[0]) in Selected(files);
    }
  }
}
