/**
 The temporary prediction files of run_one_eval (eval/eval_high_tasks_sglang.py:615-629): the path that a GPU's file
 gets, and the number by which the sort finds its place.
 */
module PredictionFiles {
  import opened Wrappers
  import opened Search
  import opened Decimals

  const MARK := "_gpu_"

  /** os.path.join for a file name that has no slash. */
  function Join(dir: string, name: string): string {
    dir + Slash(dir) + name
  }

  function Slash(dir: string): string {
    if dir == "" || dir[|dir| - 1] == '/' then "" else "/"
  }

  /** The output directory of one run (eval/eval_high_tasks_sglang.py:950). */
  function RunDir(outputDir: string, samplingTag: string, dataset: string, run: nat): string {
    Join(Join(Join(outputDir, "_temp_eval_" + samplingTag), dataset), "run" + ToDecimal(run))
  }

  /** The part of the path that all files of a run have in common. */
  function Head(dir: string): string {
    Join(dir, "temp_preds")
  }

  function TempFile(dir: string, gpu: nat, tag: string): string {
    Join(dir, "temp_preds_gpu_" + ToDecimal(gpu) + "_" + tag + ".json")
  }

  /** What follows the first mark, up to where it ends. */
  function KeyText(path: string, mark: string, end: string): Option<string>
    requires |mark| > 0 && |end| > 0
  {
    var parts := Split(path, mark);
    if |parts| < 2 then None else Some(Split(parts[1], end)[0])
  }

  /** The sort key of a path; it is taken from the whole path, not from the file name. */
  function ReadKey(path: string): Result<int> {
    match KeyText(path, MARK, "_")
    case None => Failure("IndexError")
    case Some(number) => ReadInt(number)
  }

  // ---- the key for any mark ----

  /** Text behind the front does not change where its first mark is, and what follows it. */
  lemma FrontFirst(head: string, mark: string, tail: string)
    requires |mark| > 0 && Has(head, mark) && head[|head| - 1] !in mark
    ensures FirstMatch(head + mark + tail, mark) == FirstMatch(head, mark)
    ensures FirstMatch(head, mark).value + |mark| < |head|
  {
    var f := FirstMatch(head, mark).value;
    assert head + mark + tail == head + (mark + tail);
    DisjointNoStraddle(head, mark + tail, mark);
    FirstMatchInFront(head, mark + tail, mark);
    MatchCharacter(head, mark, f, f + |mark| - 1);
  }

  /** A mark in the front decides the key, whatever follows. */
  lemma KeyInFront(head: string, mark: string, end: string, tail: string)
    requires |mark| > 0 && |end| > 0 && Has(head, mark) && head[|head| - 1] !in mark
    ensures KeyText(head + mark + tail, mark, end) == KeyText(head, mark, end)
  {
    FrontFirst(head, mark, tail);
    var f := FirstMatch(head, mark).value;
    SameTextAfter(head, mark, end, tail, f, head[f + |mark|..]);
  }

  lemma SameTextAfter(head: string, mark: string, end: string, tail: string, f: nat, rest: string)
    requires |mark| > 0 && |end| > 0 && FirstMatch(head, mark) == FirstMatch(head + mark + tail, mark) == Some(f)
    requires rest == head[f + |mark|..] && |rest| > 0 && rest[|rest| - 1] !in mark
    ensures KeyText(head + mark + tail, mark, end) == KeyText(head, mark, end)
  {
    assert (head + mark + tail)[f + |mark|..] == rest + mark + tail;
    TextAfter(head, mark, end, f, rest);
    TextAfter(head + mark + tail, mark, end, f, rest + mark + tail);
    FirstPieceEnds(rest, mark, tail);
  }

  lemma TextAfter(path: string, mark: string, end: string, f: nat, rest: string)
    requires |mark| > 0 && |end| > 0 && FirstMatch(path, mark) == Some(f) && path[f + |mark|..] == rest
    ensures KeyText(path, mark, end) == Some(Split(Split(rest, mark)[0], end)[0])
  {
    SplitAt(path, mark, f, rest);
  }

  /** Where the front has no mark, the key is the first number of the rest. */
  lemma KeyBehind(a: string, mark: string, end: string, tail: string)
    requires |mark| > 0 && |end| > 0 && !Has(a, mark) && |a| > 0 && a[|a| - 1] !in mark
    ensures Has(a + mark + tail, mark)
    ensures KeyText(a + mark + tail, mark, end) == Some(Split(Split(tail, mark)[0], end)[0])
  {
    FirstPieceEnds(a, mark, tail);
    HasInside(a, mark, tail, mark);
  }

  /** The first number is read up to where it ends, whatever follows. */
  lemma FirstNumber(number: string, mark: string, end: char, rest: string)
    requires |mark| > 0 && mark[0] == end && |number| > 0 && end !in number
    ensures Split(Split(number + [end] + rest, mark)[0], [end])[0] == number
  {
    var r := number + [end] + rest;
    LacksCharacter(number, [end], 0);
    match FirstMatch(r, mark)
    case None =>
      FirstPieceEnds(number, [end], rest);
    case Some(f) =>
      assert r[f + 0] == end;
      assert f >= |number| by {
        assert forall k :: 0 <= k < |number| ==> r[k] == number[k];
      }
      if f == |number| {
        assert r[..f] == number;
      } else {
        assert r[..f] == number + [end] + rest[..f - |number| - 1];
        FirstPieceEnds(number, [end], rest[..f - |number| - 1]);
      }
  }

  // ---- the key of a prediction file ----

  lemma TempFileParts(dir: string, gpu: nat, tag: string)
    ensures TempFile(dir, gpu, tag) == Head(dir) + MARK + (ToDecimal(gpu) + "_" + (tag + ".json"))
  {
    assert "temp_preds_gpu_" == "temp_preds" + MARK;
  }

  lemma FrontMatch(a: string, b: string, pattern: string)
    requires |pattern| > 0 && NoStraddle(a, b, pattern)
    ensures Has(a + b, pattern) <==> Has(a, pattern) || Has(b, pattern)
  {
    FirstMatchInFront(a, b, pattern);
    if Has(b, pattern) {
      HasInTail(a, b, pattern);
    } else if Has(a + b, pattern) && !Has(a, pattern) {
      var q := FirstMatch(a + b, pattern).value;
      assert q >= |a|;
      MatchInTail(a, b, pattern, q - |a|);
    }
  }

  /** A mark never lies across a slash. */
  lemma JoinMatch(dir: string, name: string)
    ensures Has(Join(dir, name), MARK) <==> Has(dir, MARK) || Has(name, MARK)
  {
    var slash := Slash(dir);
    LacksSlash(dir);
    FrontMatch(dir, slash, MARK);
    FrontMatch(dir + slash, name, MARK);
  }

  lemma LacksSlash(dir: string)
    ensures !Has(Slash(dir), MARK) && NoStraddle(dir, Slash(dir), MARK)
    ensures forall name :: NoStraddle(dir + Slash(dir), name, MARK)
  {
    DisjointHasNone(Slash(dir), MARK);
    if dir != "" {
      var front := dir + Slash(dir);
      assert front[|front| - 1] == '/';
      forall name
        ensures NoStraddle(front, name, MARK)
      {
        DisjointNoStraddle(front, name, MARK);
      }
      if Slash(dir) != "" {
        DisjointNoStraddle(dir, Slash(dir), MARK);
      }
    }
  }

  /** The mark is in the common part of the paths exactly when it is in the directory. */
  lemma HeadMatch(dir: string)
    ensures Has(Head(dir), MARK) == Has(dir, MARK)
    ensures |Head(dir)| > 0 && Head(dir)[|Head(dir)| - 1] !in MARK
  {
    JoinMatch(dir, "temp_preds");
    LacksCharacter("temp_preds", MARK, 1);
    EndsLike(dir + Slash(dir), "temp_preds");
  }

  lemma EndsLike(a: string, b: string)
    requires |b| > 0
    ensures a + b != "" && (a + b)[|a + b| - 1] == b[|b| - 1]
  {
  }

  /** The mark is in the directory of a run exactly when it is in the output directory, the sampling tag or the dataset's name. */
  lemma RunDirMatch(outputDir: string, samplingTag: string, dataset: string, run: nat)
    ensures Has(RunDir(outputDir, samplingTag, dataset, run), MARK)
       <==> Has(outputDir, MARK) || Has("_temp_eval_" + samplingTag, MARK) || Has(dataset, MARK)
  {
    JoinMatch(outputDir, "_temp_eval_" + samplingTag);
    JoinMatch(Join(outputDir, "_temp_eval_" + samplingTag), dataset);
    JoinMatch(Join(Join(outputDir, "_temp_eval_" + samplingTag), dataset), "run" + ToDecimal(run));
    DigitsLack(run);
    LacksCharacter("run" + ToDecimal(run), MARK, 0);
  }

  lemma KeyIsNumber(a: string, number: string, rest: string)
    requires |a| > 0 && a[|a| - 1] !in MARK && !Has(a, MARK) && |number| > 0 && '_' !in number
    ensures Has(a + MARK + (number + "_" + rest), MARK)
    ensures ReadKey(a + MARK + (number + "_" + rest)) == ReadInt(number)
  {
    KeyBehind(a, MARK, "_", number + "_" + rest);
    FirstNumber(number, MARK, '_', rest);
  }

  lemma DigitsLack(gpu: nat)
    ensures '_' !in ToDecimal(gpu)
  {
    assert AllDigits(ToDecimal(gpu));
  }

  /**
   The key of a file is its GPU number, for every tag, when the mark is not in the directory.  Otherwise it is what the
   directory says, the same for all GPUs.
   */
  lemma KeyOfTempFile(dir: string, gpu: nat, tag: string)
    ensures ReadKey(TempFile(dir, gpu, tag)) == if Has(dir, MARK) then ReadKey(Head(dir)) else Success(gpu)
  {
    var number, rest := ToDecimal(gpu), tag + ".json";
    TempFileParts(dir, gpu, tag);
    HeadMatch(dir);
    if Has(dir, MARK) {
      KeyInFront(Head(dir), MARK, "_", number + "_" + rest);
    } else {
      DigitsLack(gpu);
      ReadsPrinted(gpu);
      KeyIsNumber(Head(dir), number, rest);
    }
  }

  /** Two files share a path exactly when they are of the same GPU. */
  lemma SamePath(dir: string, gpu: nat, gpu': nat, tag: string)
    ensures TempFile(dir, gpu, tag) == TempFile(dir, gpu', tag) <==> gpu == gpu'
  {
    var front, rest := Head(dir) + MARK, "_" + (tag + ".json");
    PathAround(dir, gpu, tag);
    PathAround(dir, gpu', tag);
    if TempFile(dir, gpu, tag) == TempFile(dir, gpu', tag) {
      SameMiddle(front, ToDecimal(gpu), ToDecimal(gpu'), rest);
      DecimalRoundTrip(gpu);
      DecimalRoundTrip(gpu');
    }
  }

  lemma PathAround(dir: string, gpu: nat, tag: string)
    ensures TempFile(dir, gpu, tag) == Head(dir) + MARK + ToDecimal(gpu) + ("_" + (tag + ".json"))
  {
    TempFileParts(dir, gpu, tag);
  }

  lemma SameMiddle(a: string, b: string, b': string, c: string)
    requires a + b + c == a + b' + c
    ensures b == b'
  {
    assert |a + b + c| == |a + b' + c|;
    assert b == (a + b + c)[|a|..|a| + |b|];
    assert b' == (a + b' + c)[|a|..|a| + |b'|];
  }

  // ---- two output directories ----

  lemma Joined(base: string, dir: string, more: string, name: string) returns (rest: string)
    requires dir == base + more
    ensures Join(dir, name) == base + rest
  {
    rest := more + Slash(dir) + name;
    assert base + more + Slash(dir) + name == base + (more + Slash(dir) + name);
  }

  /** The common part of a run's paths begins with the output directory. */
  lemma RunHead(outputDir: string, samplingTag: string, dataset: string, run: nat) returns (rest: string)
    ensures Head(RunDir(outputDir, samplingTag, dataset, run)) == outputDir + rest
  {
    var one := Join(outputDir, "_temp_eval_" + samplingTag);
    var two := Join(one, dataset);
    rest := Joined(outputDir, outputDir, "", "_temp_eval_" + samplingTag);
    rest := Joined(outputDir, one, rest, dataset);
    rest := Joined(outputDir, two, rest, "run" + ToDecimal(run));
    rest := Joined(outputDir, Join(two, "run" + ToDecimal(run)), rest, "temp_preds");
  }

  lemma Regrouped(a: string, m: string, b: string, e: string, c: string, d: string)
    ensures a + m + (b + e + c) + d == a + m + (b + e + (c + d))
  {
  }

  /** The key that an output directory gives: what stands between the mark and the next underscore. */
  lemma KeyOfOutputDir(outputDir: string, a: string, number: string, rest: string, samplingTag: string, dataset: string, run: nat)
    requires |a| > 0 && a[|a| - 1] !in MARK && |number| > 0 && '_' !in a && '_' !in number
    requires outputDir == a + MARK + (number + "_" + rest)
    ensures Has(RunDir(outputDir, samplingTag, dataset, run), MARK)
    ensures ReadKey(Head(RunDir(outputDir, samplingTag, dataset, run))) == ReadInt(number)
  {
    var more := RunHead(outputDir, samplingTag, dataset, run);
    LacksCharacter(a, MARK, 0);
    Regrouped(a, MARK, number, "_", rest, more);
    KeyIsNumber(a, number, rest + more);
    HeadMatch(RunDir(outputDir, samplingTag, dataset, run));
  }

  lemma ReadsSixteen()
    ensures ReadInt("16") == Success(16)
  {
    ReadsPrinted(16);
    assert ToDecimal(1) == ['1'];
    assert ToDecimal(16) == ToDecimal(1) + ['6'];
    assert ToDecimal(16) == "16";
  }

  /** For the model of a training run on 8 GPUs with batches of 16 every key is 16. */
  lemma KeyOfTrainingRun(samplingTag: string, dataset: string, run: nat)
    ensures Has(RunDir("ckpts/8_gpu_16_bs", samplingTag, dataset, run), MARK)
    ensures ReadKey(Head(RunDir("ckpts/8_gpu_16_bs", samplingTag, dataset, run))) == Success(16)
  {
    KeyOfOutputDir("ckpts/8_gpu_16_bs", "ckpts/8", "16", "bs", samplingTag, dataset, run);
    ReadsSixteen();
  }

  lemma ReadsNoNumber()
    ensures ReadInt("run").Failure?
  {
    var s := "run";
    assert !IsDigit(s[0]) && !AllDigits(s);
  }

  /** For this model there is no number behind the mark. */
  lemma KeyOfOtherRun(samplingTag: string, dataset: string, run: nat)
    ensures Has(RunDir("multi_gpu_run_1", samplingTag, dataset, run), MARK)
    ensures ReadKey(Head(RunDir("multi_gpu_run_1", samplingTag, dataset, run))).Failure?
  {
    KeyOfOutputDir("multi_gpu_run_1", "multi", "run", "1", samplingTag, dataset, run);
    ReadsNoNumber();
  }
}
