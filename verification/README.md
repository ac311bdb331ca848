# Verified models of the latent-reasoning training and evaluation code

This project models the discrete parts of the repository around the language models: how training sequences, masks
and position ids are laid out, how work is handed to worker processes and collected again, what stays on disk, and
how runs are scored. Tokenizers, models and tensors appear only as arbitrary values and functions, so every result
holds for all of them. `dafny verify dfyconfig.toml` checks all files.

The main results:

- **Spacers are invisible** (`SpacerInvisibility`). In Stage 1 the decoder sees latent placeholders with explicit text
  between them. Under the block-written mask and the dual-track positions, the state of every prefix, placeholder and
  final-segment row that is not itself a pad token is, after any number of attention layers, the state that the
  compact sequence (the layout of validation and Stage 2, whose mask hides pad tokens) has at the row's position id.
  An abstract machine (`Attention`) makes this a simulation: the new state of a row is an arbitrary function of the
  list of visible positions and states. What the result asks for is exact, for states and not only for mask cells:
  the first match of `</think>` has to be the placed one (`MatchExactlyWhen`, also for samples that contain the pad
  token, which some models share with the end-of-sequence token; `EarlyMatch` is a failing sample of that kind),
  a pad row agrees only if nothing but padding comes before it (`PadExactlyWhen`), and against a compact run that does
  not hide padding a row agrees exactly when no row up to it is padding (`PlainExactlyWhen`).
- **The encoder mask isolates compress tokens** (`EncoderMask`): a row depends, through any number of layers, only on
  itself and on the ordinary text before it.
- **The dispatcher computes the map** (`Dispatcher`, `LabelGenerator`, `ChunkFiles`): for every interleaving of
  parent, workers and queues, no task is lost or duplicated, a bounded number is in flight, something can always
  move, and the sorted results are f of every example in order; through generation, chunk files and an unordered
  directory listing the loader gets the same list back. `SortedGeneration` does the same for the variant that sorts by
  length first, `GpuShards` and `PredictionFiles` for the prompt chunks of the evaluation, where it turns out when
  exactly the predictions line up with their prompts in whatever order the workers finish: the active GPUs are listed
  in ascending order and the directory has no `_gpu_` in it, or there is a single chunk and a number follows the
  `_gpu_`.
- **Rotation after every save equals one selection over the history** (`Retention`, `CheckpointDirectory`).
- **pass@k** (`Binomials`, `PassAtK`, `RunScores`): the product loop is 1 - C(n - c, k) / C(n, k), which is the share of
  k-element selections of runs with a correct one; mean pass@1 over samples is mean accuracy over runs.
- **A crashed evaluation can be resumed** (`Resume`, `ResumableEvaluation`): after any number of crashes between
  writes the file is what one uninterrupted session would have left, and it holds the runs 1 to n exactly when the
  kept part of the first file had distinct indices in that range. It is known exactly from the numbers of writes which
  session finishes, and sessions of two writes are enough to get there.
- **Boxed answers** (`BoxedAnswers`, `CotAnswer`): the three scanners agree on a closed last box, and the parser reads
  a formatted answer back exactly when the answer is balanced and free of what the parser deletes or trims.
- **Redirects, workload, distillation, validation** (`Redirects`, `Workload`, `SparseDistillation`,
  `ShardedValidation`): ring detection and resolved values, the multi-client protocol with the exact numbers of answers
  that it can leave unrecorded (`WorkloadLosses`) and what its prompts consist of (`WorkloadPrompts`), the sparse loss as
  a refinement of the dense one and the value of that (`DistillationLoss`), and sharded accuracy as sequential
  accuracy.

Where the code and what it says about itself differ, the model follows the code.

- The supervision mask is documented for a single match of the end marker and takes the first of several
  (`MatchExactlyWhen`, `EarlyMatch`).
- The multi-client benchmark promises a record of every answer. Its handler looks at the progress bar after its wait on
  the queue has ended, so it can leave answers behind: any number up to the smaller of `max_parallel` and the number
  of clients, and no other number (`LossExactlyWhen`). All answers are recorded in every run only if there is no client
  (`AllRecordedExactlyWhen`), and the sender can wait for ever exactly when there are at least `max_parallel` clients
  (`HangExactlyWhen`).
- The evaluation pairs predictions with records by index. The order of the GPU list can put them elsewhere
  (`TwoGpusSwapped`), and so can the directory, because the sort key is taken from the whole path
  (`DirectoryHidesGpu`, `DirectoryRaises`); `AlignedExactlyWhen` says when they are in place.

`Wrappers`, `Search`, `Decimals`, `DivMod`, `Fractions`, `Sums` and `Sorting` are the helper modules.

## Model

| member | source | states |
|---|---|---|
| Stage1Layout.InsertSpecialTokenEveryK | src/stage1/data.py:15-37 | the loop returns the text cut into blocks of k tokens with one placeholder after each, the number of blocks, and the same weaving for the labels; k = 0 raises |
| Stage1Layout.BlocksIsCeiling | src/stage1/data.py:26-34 | the count is the length divided by k, rounded up |
| Stage1Layout.WovenErases | src/stage1/data.py:20-33 | dropping the placeholders gives the text back, in order |
| Stage1Layout.WovenCounts | src/stage1/data.py:26-34 | there is exactly one placeholder per block, and a nonempty woven text ends in one |
| Stage1Layout.RemoveBeforeToken | src/stage1/data.py:316-333 | the result is the suffix from the first occurrence; it fails exactly when there is none |
| Stage1Layout.LatentBlockShape | src/stage1/data.py:478-481 | for nonempty text the latent block starts and ends with a placeholder and holds one per block; it fails exactly on empty text |
| Stage1Layout.LatentBlockText | src/stage1/data.py:478-481 | without its placeholders the latent block is the text after the first k tokens |
| Stage1Layout.LatentBlockAt | src/stage1/data.py:478-481 | text token t, from the k-th on, stands at index t - k + t / k of the block, behind exactly t / k placeholders |
| Stage1Layout.LayoutParts | src/stage2/data.py:233-246 | prefix, latent part and rest stand at the same starts in the training and the compact layout, and Stage 2 replaces the placeholders from its start index on |
| Stage1Layout.ComputeDualTrackPositionIds | src/stage1/data.py:346-391 | the loop computes, for every index, the position given by the placeholders so far and the distance to the last one |
| Stage1Layout.DualTrackRules | src/stage1/data.py:350-391 | a placeholder's position is the first placeholder's plus the number of placeholders before it; any other token has the position before it plus one |
| SupervisionMask.BuildSupervisionMask | src/stage1/data.py:168-289 | the in-place block writes compute one declarative visibility predicate at every cell; a marker longer than the sequence fails |
| SupervisionMask.WriteSegments | src/stage1/data.py:212-239 | after the segment writes a row sees what the window of its segment allows and nothing else changed |
| SupervisionMask.WriteFinal | src/stage1/data.py:241-251 | the final segment adds its own causal part, the initial segment and every placeholder, and nothing else |
| SupervisionMask.WritePlaceholders | src/stage1/data.py:253-272 | a placeholder row gains itself, the initial segment and the earlier placeholders, and nothing else |
| SupervisionMask.WritePad | src/stage1/data.py:274-281 | exactly the cells in pad rows and pad columns are cleared |
| SupervisionMask.PadIsolated | src/stage1/data.py:274-281 | no pad row sees anything and no row sees a pad column |
| SupervisionMask.TextRow | src/stage1/data.py:215-239 | text after a placeholder, before the next one and the final segment, sees that placeholder and the text from there up to itself, padding excepted |
| SupervisionMask.InitialRow | src/stage1/data.py:206-210 | a row before the first placeholder and the final segment is causal, padding excepted |
| SupervisionMask.PlaceholderRow | src/stage1/data.py:253-272 | a placeholder before the final segment sees the initial segment and the placeholders up to itself, padding excepted |
| SupervisionMask.FinalRow | src/stage1/data.py:241-251 | a row of the final segment behind all placeholders sees that segment so far, the initial segment and all placeholders, padding excepted |
| SupervisionMask.CausalExactlyWhen | src/stage1/data.py:241-272 | the mask is causal exactly when the final segment starts no earlier than the end of the initial one and no placeholder follows its start |
| Attention.Simulation | src/stage1/data.py:168-289 | if kept rows see exactly the kept rows up to themselves, then after any number of layers the kept states are the states of a causal run over the kept rows alone |
| Attention.CausalPrefix | src/validation.py:273-276 | under a causal mask, running a prefix gives the prefix of the run |
| SpacerInvisibility.PositionIsCompactIndex | src/stage1/data.py:346-391 | the dual-track position id of every row is its index in the compact sequence |
| SpacerInvisibility.SoftTokensInOrder | src/stage1/data.py:475-494 | the c-th placeholder of the compact sequence gets the c-th soft token, every other token its own embedding |
| SpacerInvisibility.MaskIsFaithful | src/stage1/data.py:168-289 | with any right padding, the rows of the compact sequence that are not padding see exactly such rows up to themselves |
| SpacerInvisibility.SpacersAreInvisible | src/stage1/data.py:168-391 | for any depth, any attention function and any padding of either sequence, the state of a row that is not padding is the state at its position id in the compact sequence under the mask that hides padding |
| SpacerInvisibility.SpacersAreInvisiblePlain | src/stage1/data.py:168-391 | with no padding up to the row, it is also the state under a plain causal mask |
| SpacerInvisibility.StageOneMatchesCompact | src/stage2/data.py:262-283 | the same for the sequence built from a reasoning text and a rate k, against the padded sequence and mask of Stage 2 with one placeholder per k tokens |
| SpacerInvisibility.EveryCompactRowIsReached | src/stage2/data.py:240-246 | every compact row is the row of exactly one training index |
| SpacerInvisibility.SmallSample | src/stage1/data.py:350-358 | the conditions of the main result are met by a sample with a spacer |
| SpacerInvisibility.MaskExactlyWhen | src/stage1/data.py:188-197 | rows see exactly the rows up to themselves if and only if the first match of the end marker is the placed one |
| SpacerInvisibility.MatchExactlyWhen | src/stage1/data.py:188-197 | the states of all rows that are not padding are those of the compact run that hides padding, for every depth, attention function and embedding, if and only if the first match of the end marker is the placed one |
| SpacerInvisibility.EarlyMatch | src/stage1/data.py:188-197 | a sample with the end marker in its prefix and the pad token at its end, whose first row gets a different state |
| SpacerInvisibility.PadExactlyWhen | src/stage1/data.py:274-281 | with padding, a row has the state of the compact run that hides padding, always, if and only if it is not padding or nothing but padding comes before it |
| SpacerInvisibility.PlainExactlyWhen | src/stage1/data.py:274-281 | against a compact run that does not hide padding: if and only if no row up to it is padding |
| EncoderMask.RowIsIsolated | src/stage1/data.py:120-165 | a row's state at any depth is the last state of a causal run over itself and the ordinary text before it |
| EncoderMask.NonInterference | src/stage1/data.py:120-165 | two inputs that agree on a row and on the ordinary text before it give it the same state, whatever their compress tokens, padding and later text are |
| EncoderMask.InfluencesExactly | src/stage1/data.py:120-165 | changing one input state can change the state of a row if and only if it is the row itself or an earlier token that is neither padding nor a compress token |
| EncoderMask.RightPaddingIsInvisible | src/stage1/data.py:151-156 | right padding does not change the state of any row before it |
| EncoderMask.CompressTokensMatchPlaceholders | src/stage1/data.py:475-494 | the encoder sequence has as many compress tokens as the training and compact sequences have placeholders |
| Dispatcher.EveryStateIsSafe | generate_latent_soft_label_lora_batch.py:375-405 | in every state of every interleaving tasks are neither lost nor duplicated, the in-flight counter is right and at most 4 * mp_size |
| Dispatcher.CountsInRuns | generate_latent_soft_label_lora_batch.py:375-405 | in every state of a run the tasks in flight are those queued, being worked on or waiting as results, at most four per worker, and the dispatched tasks are those in flight and those collected |
| Dispatcher.WindowFills | generate_latent_soft_label_lora_batch.py:375-405 | every number of tasks up to four per worker can be in flight before anything is collected |
| Dispatcher.SomeStepIsEnabled | generate_latent_soft_label_lora_batch.py:375-405 | with at least one worker some step is possible until everything is collected |
| Dispatcher.StepDecreases | generate_latent_soft_label_lora_batch.py:375-405 | every step lowers a measure |
| Dispatcher.RunsAreShort | generate_latent_soft_label_lora_batch.py:375-405 | no run takes more steps than a fixed number per task |
| Dispatcher.DoneIsQuiet | generate_latent_soft_label_lora_batch.py:375-405 | when everything is collected, both queues are empty and no worker is busy, so nothing leaks into the next call |
| Dispatcher.FlattenBatches | generate_latent_soft_label_lora_batch.py:357-361 | working on the batches and flattening is f of every example, in order |
| Dispatcher.BatchAt | generate_latent_soft_label_lora_batch.py:357-361 | batch k has the examples from k * size on, size of them or what is left, and there are as many batches as that takes |
| Dispatcher.SortedResultsAreTheMap | generate_latent_soft_label_lora_batch.py:411-418 | sorting any arrival order by batch id and flattening gives f of every example, in order |
| Dispatcher.RunComputesTheMap | generate_latent_soft_label_lora_batch.py:351-418 | every run that collects everything ends quiet and yields the map |
| LabelGenerator.Wrapper.Gen | generate_latent_soft_label_lora_batch.py:351-418 | the loop over mutable queues returns f of every example in order and leaves the queues empty; a batch size of 0 raises, a negative one gives nothing |
| LabelGenerator.Wrapper.DispatchAndCollect | generate_latent_soft_label_lora_batch.py:375-405 | the collected results are a permutation of the results of all tasks, and the wrapper is idle again |
| Decimals.DecimalRoundTrip | src/stage2/data.py:102-107 | reading back a printed number gives the number |
| Decimals.ReadsSigned | eval/eval_high_tasks_sglang.py:629 | reading a number takes a sign before it |
| Decimals.SkipsBlanks | eval/eval_high_tasks_sglang.py:629 | and skips blanks around it |
| ChunkFiles.StartIdxOfFileName | generate_latent_soft_label_lora_batch.py:500-503 | the loader finds the start index that the writer put into the file name |
| ChunkFiles.ChunkFilePattern | src/stage2/data.py:97-98 | a file is selected exactly when its name is batch_, anything, .pt |
| ChunkFiles.Directory.SaveChunks | generate_latent_soft_label_lora_batch.py:489-508 | whatever order the thread pool writes in, the chunk files are exactly the chunks under their names, and other files stay as they are |
| ChunkFiles.Directory.LoadAllChunks | src/stage2/data.py:95-117 | it fails exactly when no file matches the pattern, or one that does has a malformed name or does not hold a list; otherwise it concatenates every matching file once, by start index |
| ChunkFiles.ReloadRestores | src/stage2/data.py:95-117 | any listing of the saved chunks, once sorted, reads back the saved list |
| ChunkFiles.GenerateSaveAndLoad | generate_latent_soft_label_lora_batch.py:479-508 | generating in calls of 2000, saving in files of 1000 beside any other files and loading gives f of every example in order; no data gives a missing-file error |
| Retention.ReadCheckpointMetric | src/checkpointing.py:21-52 | the metric is the last matching log value, and only if that is a finite number |
| Retention.TopStable | src/checkpointing.py:65-93 | dropping checkpoints outside the first n places leaves the first n places as they are |
| Retention.OnlineEqualsOffline | src/checkpointing.py:65-120 | rotating after every save keeps exactly what one selection over the whole history keeps |
| Retention.ResumedEqualsOffline | src/checkpointing.py:65-120 | the same when checkpoints were there before: they count as part of the history |
| Retention.SelectIdempotent | src/checkpointing.py:96-120 | rotating again changes nothing |
| Retention.BestAndNewestSurvive | src/checkpointing.py:65-120 | the best checkpoint ever and the newest one are always kept when their limits are at least 1 |
| Retention.TopIsSmall | src/checkpointing.py:76-91 | with distinct steps the first n places hold at most n checkpoints |
| Retention.OnlineIsSmall | src/checkpointing.py:65-120 | at most the two limits together remain |
| Retention.SelectedExactly | src/checkpointing.py:65-93 | by counting: a checkpoint is selected exactly when fewer than the recent limit are newer, or fewer than the best limit have a larger metric (a smaller one when lower is better) or the same one at a later step |
| Retention.BestMetricSurvives | src/checkpointing.py:65-120 | a checkpoint whose metric no other exceeds, and no later one equals, survives every rotation; for lower is better likewise |
| CheckpointDirectory.CheckpointDir.ListCheckpoints | src/checkpointing.py:55-62 | the listing has every checkpoint directory once, by ascending step |
| CheckpointDirectory.CheckpointDir.Select | src/checkpointing.py:65-93 | sorting tuples and slicing selects exactly the best and the most recent checkpoints, by ascending step |
| CheckpointDirectory.CheckpointDir.Rotate | src/checkpointing.py:96-120 | exactly the checkpoints outside the selection are deleted, the others are untouched |
| CheckpointDirectory.CheckpointDir.SaveAll | src/stage2/trainer.py:23-30 | a training run, fresh or resumed, that rotates after every save ends with what one selection over the earlier checkpoints and its whole history keeps, each directory as it was |
| CheckpointDirectory.BestSteps | src/checkpointing.py:80-91 | the first entries of the reverse-sorted list belong to the n best checkpoints |
| CheckpointDirectory.RecentIsSuffix | src/checkpointing.py:77-78 | the last n of the listing are the n newest |
| PassAtK.EstimatePassAtK | eval/eval_high_tasks_sglang.py:671-679 | the loop and its early return compute 1 - C(n - c, k) / C(n, k), and nothing when there are fewer than k runs |
| PassAtK.Product | eval/eval_high_tasks_sglang.py:676-678 | the product of 1 - k / v is the quotient of two binomials |
| PassAtK.PassRateIsShareOfSelections | eval/eval_high_tasks_sglang.py:671-679 | the rate is the share of the k-element selections of runs that contain a correct one |
| PassAtK.InUnitInterval | eval/eval_high_tasks_sglang.py:671-679 | the rate lies between 0 and 1 |
| PassAtK.MonotoneInCorrect | eval/eval_high_tasks_sglang.py:671-679 | more correct runs never lower it |
| PassAtK.MonotoneInK | eval/eval_high_tasks_sglang.py:671-679 | more attempts, up to the number of runs, never lower it |
| Binomials.SubsetsCount | eval/eval_high_tasks_sglang.py:671-679 | the binomial coefficient counts the k-element subsets |
| RunScores.CorrectCounts | eval/eval_high_tasks_sglang.py:689-692 | adding up row by row gives every column's number of correct runs |
| RunScores.ColumnIsCount | eval/eval_high_tasks_sglang.py:689-692 | a sample's count is the number of runs that got it right |
| RunScores.CorrectIsCount | eval/eval_high_tasks_sglang.py:703-709 | a run's count is the number of its samples that are right |
| RunScores.Round6 | eval/eval_high_tasks_sglang.py:695-709 | the result is a multiple of a millionth, at most half of one away, and an even multiple on a tie |
| RunScores.ComputeDatasetPassAtK | eval/eval_high_tasks_sglang.py:682-701 | for each k of the list the result is the rounded mean of the estimates, or nothing when there are fewer than k runs |
| RunScores.DoubleCount | eval/eval_high_tasks_sglang.py:689-709 | correct answers counted by sample and by run are the same number |
| RunScores.PassAtOneIsMeanAccuracy | eval/eval_high_tasks_sglang.py:682-709 | mean pass@1 over the samples is mean accuracy over the runs |
| RunScores.ReportsAgree | eval/eval_high_tasks_sglang.py:682-709 | with all roundings of the code the two reported numbers differ by at most 0.0000015 |
| Resume.CleanedIs | eval/eval_high_tasks_sglang.py:903-909 | start-up keeps exactly the complete stored runs, sorted by index |
| Resume.KeptExactly | eval/eval_high_tasks_sglang.py:903-909 | a stored run is kept exactly when it has all its fields and a score for every sample |
| Resume.SeedsAreDistinct | eval/eval_high_tasks_sglang.py:748-749 | up to 100000 runs per dataset, two runs share a seed only if they are the same run |
| Resume.SeedSteps | eval/eval_high_tasks_sglang.py:748-749 | seeds go up by one from run to run and by 100000 from dataset to dataset, from one above the base seed on |
| Resume.FillAddsTheMissing | eval/eval_high_tasks_sglang.py:946-992 | the loop keeps every kept record and adds the record of every missing index once |
| Resume.CompletedIndices | eval/eval_high_tasks_sglang.py:940-948 | after index i the list has the kept indices and those from 1 to i |
| Resume.ResumeIsTransparent | eval/eval_high_tasks_sglang.py:890-992 | reading back what a crashed execution wrote and going on gives the list of an uninterrupted execution |
| Resume.CompleteExactlyWhen | eval/eval_high_tasks_sglang.py:936-995 | the finished list has the indices 1 to n, each once, if and only if the kept runs had distinct indices in that range |
| Resume.FillFromNothing | eval/eval_high_tasks_sglang.py:946-992 | without stored runs the list is run 1, run 2, ... with their seeds and with the scores that the evaluation returns for that seed |
| ResumableEvaluation.Session.LoadRuns | eval/eval_high_tasks_sglang.py:890-918 | start-up holds the kept runs of every dataset and leaves other datasets of the file alone |
| ResumableEvaluation.Session.RunDataset | eval/eval_high_tasks_sglang.py:937-995 | the loop does exactly the missing runs with one write each, and whenever it crashes the file holds a partly filled list |
| ResumableEvaluation.Session.Execute | eval/eval_high_tasks_sglang.py:890-995 | an execution finishes exactly when it gets as many writes as there are missing runs and two more; a crashed one has lowered the number of missing runs by its writes after the first |
| ResumableEvaluation.Session.Sessions | eval/eval_high_tasks_sglang.py:890-995 | for any list of crashes: exactly when some session gets the writes for the runs that the earlier ones left, it finishes, and the file is what a single uninterrupted session would have left |
| ResumableEvaluation.ShortSessionsEnd | eval/eval_high_tasks_sglang.py:890-995 | sessions of at least two writes each finish the evaluation when there is one more of them than missing runs |
| ResumableEvaluation.ProgressTwice | eval/eval_high_tasks_sglang.py:890-995 | two crashed sessions in a row make the progress of one |
| ResumableEvaluation.FinishAfterProgress | eval/eval_high_tasks_sglang.py:890-995 | a crash before a finishing session cannot be seen in the final file |
| ResumableEvaluation.FromNoFile | eval/eval_high_tasks_sglang.py:890-995 | from no file, every state of the file lists runs 1 to some m with their seeds and records, and a finished one all of them |
| ResumableEvaluation.FinishedExactlyWhen | eval/eval_high_tasks_sglang.py:890-995 | whatever the file held, a finished dataset has the runs 1 to n if and only if the kept ones were distinct and in range |
| GpuShards.ShardsCoverThePrompts | eval/eval_high_tasks_sglang.py:607-617 | rounding the chunk size up leaves no prompt without a GPU; the chunks in GPU-list order are the prompts |
| GpuShards.ChunkSizeIsCeiling | eval/eval_high_tasks_sglang.py:608 | the chunk size is the number of prompts divided by the number of GPUs, rounded up |
| PredictionFiles.KeyOfTempFile | eval/eval_high_tasks_sglang.py:615-629 | for every directory and tag, the sort key of a file is its GPU number if `_gpu_` is not in the directory, and otherwise the same for all GPUs |
| PredictionFiles.RunDirMatch | eval/eval_high_tasks_sglang.py:860-952 | `_gpu_` is in the directory of a run exactly when it is in the output directory, the sampling tag or the name of the dataset |
| GpuShards.PlainDirectory | eval/eval_high_tasks_sglang.py:619-639 | without `_gpu_` in the directory the answers come in the order of the GPU numbers, in whatever order the files arrive; two files of one GPU are an error |
| GpuShards.MarkedDirectory | eval/eval_high_tasks_sglang.py:619-639 | with it the answers come in the order of arrival, or reading raises |
| GpuShards.NoAnswerIsLost | eval/eval_high_tasks_sglang.py:619-643 | in any directory and order of arrival, if nothing raises then every prompt is answered exactly once |
| GpuShards.AlignedExactlyWhen | eval/eval_high_tasks_sglang.py:606-643 | the predictions stand at their prompts' indices for every order of arrival if and only if there are prompts and GPUs, and `_gpu_` is not in the directory and the active GPUs strictly ascend, or it is there, followed by a number, and one GPU or one prompt makes a single chunk |
| GpuShards.ReadPredictions | eval/eval_high_tasks_sglang.py:619-643 | it fails exactly when a key cannot be read or a file is listed twice; otherwise the predictions come in the order of the keys, each for its own prompt, and the length check passes |
| GpuShards.TwoGpusSwapped | eval/eval_high_tasks_sglang.py:606-643 | with the GPU list 1, 0 and two prompts the order of the answers is not the order of the prompts |
| GpuShards.DirectoryHidesGpu | eval/eval_high_tasks_sglang.py:615-629 | with ckpts/8_gpu_16_bs as output directory, any sampling tag, dataset and run, and GPUs 0 and 1, two predictions come back swapped when GPU 1 is done first |
| GpuShards.DirectoryRaises | eval/eval_high_tasks_sglang.py:615-629 | with multi_gpu_run_1 as output directory the sort raises for any sampling tag, dataset and run |
| BoxedAnswers.ScanBox | eval_utils/parser.py:416-428 | the character loop returns the text up to the first closing brace that matches no opening one, or all of it |
| BoxedAnswers.FindBox | eval_utils/parser.py:411-431 | the contents of the box after the last "boxed", or the stripped text before a dollar sign |
| BoxedAnswers.StripIs | eval_utils/parser.py:429-430 | only spaces go, at both ends, and the rest neither starts nor ends with one |
| BoxedAnswers.PlainBox | eval_utils/parser.py:429-430 | without a brace after "boxed" the answer is the stripped text up to the first dollar sign |
| BoxedAnswers.DepthIsDifference | eval_utils/parser.py:416-428 | the depth of a text is the number of its opening braces minus the number of its closing ones |
| BoxedAnswers.LastBoxedOnlyString | eval/eval_high_tasks_sglang.py:157-178 | the text from the last box start to the first brace that balances it, none if there is no such brace |
| BoxedAnswers.RemoveBoxed | eval/eval_high_tasks_sglang.py:146-154 | on success the input was the result in one of the two wrappings |
| BoxedAnswers.ExtractBoxedAnswers | sglang_latent_reasoning_pkg/benchmark/reasoning_benchmark/answer_extraction.py:182-197 | one answer for every piece whose box is closed, in order, with the brace kept before a percent sign |
| BoxedAnswers.ScannersAgree | eval_utils/parser.py:411-431 | on a closed last box all three scanners find the same contents and no assertion fails |
| BoxedAnswers.OpenBox | eval/eval_high_tasks_sglang.py:164-178 | on an open last box last_boxed_only_string finds nothing and find_box takes the whole rest |
| BoxedAnswers.AssertionExactlyWhen | eval/eval_high_tasks_sglang.py:146-178 | remove_boxed refuses what last_boxed_only_string found if and only if that is not a braced \boxed |
| CotAnswer.ParseAnswer | eval_utils/parser.py:499-536 | the statements compute the parse function: delete, find the box, drop line breaks, trim |
| CotAnswer.CleanKeeps | eval_utils/parser.py:528-534 | the trimming keeps a text if and only if it has no line break, no leading colon and no trailing period or slash |
| CotAnswer.NewlinesIs | eval_utils/parser.py:528 | exactly the line breaks and the spaces that follow one without a gap are removed; the rest stays in order |
| CotAnswer.TrimOrder | eval_utils/parser.py:529-534 | one leading colon, then one trailing period, then one trailing slash |
| CotAnswer.CleanKeepsDepth | eval_utils/parser.py:528-534 | the trimming never changes the number of open braces |
| CotAnswer.RoundTripExactlyWhen | src/stage1/data.py:88-93 | for a chain of thought without \boxed, parsing the formatted text gives the answer back if and only if the answer is balanced and free of "boxed", of the deleted pair of letters and of what is trimmed |
| Search.SplitJoins | eval_utils/parser.py:411-415 | joining the pieces of a split gives the text back, and no piece contains the separator |
| Search.DeleteIsSplit | eval_utils/parser.py:499-505 | deleting a pattern is joining the pieces around it with nothing |
| Redirects.Follow | sglang_latent_reasoning_pkg/benchmark/line_retrieval/gen_data.py:63-74 | following a chain ends for every redirect map: with the exact hops to the raw line, or without a link exactly when the chain never reaches one |
| Redirects.ResolveLinks | sglang_latent_reasoning_pkg/benchmark/line_retrieval/gen_data.py:56-76 | despite the updates in place every line ends with the original value of the line where its own walk stops, and the rings are exactly the lines that never reach a raw one |
| Redirects.ResolveAndGroup | sglang_latent_reasoning_pkg/benchmark/line_retrieval/gen_data.py:56-83 | links, rings, values and groups together |
| Redirects.GroupByNumHops | sglang_latent_reasoning_pkg/benchmark/line_retrieval/gen_data.py:78-83 | every line outside the rings is in the group of its hop count, in line order, and the groups hold nothing else |
| Redirects.GroupsPartition | sglang_latent_reasoning_pkg/benchmark/line_retrieval/gen_data.py:78-83 | no line is in two groups or twice in one |
| Redirects.CycleReturnsToStart | sglang_latent_reasoning_pkg/benchmark/line_retrieval/gen_data.py:63-74 | from a line on a cycle the first line met twice is that line, so its value is written back to itself |
| Redirects.StopIsUnique | sglang_latent_reasoning_pkg/benchmark/line_retrieval/gen_data.py:63-74 | a walk stops after one number of hops only |
| Redirects.OutcomeIsUnique | sglang_latent_reasoning_pkg/benchmark/line_retrieval/gen_data.py:56-76 | redirects and values decide the value, the link and the ring mark of every line: what ResolveLinks promises has one solution |
| Redirects.ResolvesLikeTarget | sglang_latent_reasoning_pkg/benchmark/line_retrieval/gen_data.py:63-74 | a redirect resolves if and only if its target does, with one hop more |
| Redirects.LinkIsShort | sglang_latent_reasoning_pkg/benchmark/line_retrieval/gen_data.py:63-74 | a link has fewer hops than there are lines |
| Workload.EveryStateIsSafe | sglang_latent_reasoning_pkg/benchmark/hicache/bench_multiturn.py:192-331 | in every interleaving each client is in exactly one place until its rounds are over, at most max_parallel requests are unanswered, conversations alternate and no input is lost or used twice |
| Workload.CountsInRuns | sglang_latent_reasoning_pkg/benchmark/hicache/bench_multiturn.py:192-331 | in every state of a run the unanswered requests are those sent, answered or counted but not recorded, at most max_parallel; conversations alternate between user and server; no client is past its rounds |
| Workload.PopNeverUnderflows | sglang_latent_reasoning_pkg/benchmark/hicache/bench_multiturn.py:316-319 | an input is left whenever a client needs one |
| Workload.RequestsFit | sglang_latent_reasoning_pkg/benchmark/hicache/bench_multiturn.py:271-276 | ready and sent requests never exceed clients times rounds |
| Workload.NeverStuck | sglang_latent_reasoning_pkg/benchmark/hicache/bench_multiturn.py:259-331 | while the handler is at work and rounds are left, a step other than stopping is possible, and one other than polling unless the handler has just timed out |
| Workload.StepDecreases | sglang_latent_reasoning_pkg/benchmark/hicache/bench_multiturn.py:259-331 | every step lowers a measure, except that the handler's time-outs and looks at the progress bar leave it alone |
| Workload.RunsAreShort | sglang_latent_reasoning_pkg/benchmark/hicache/bench_multiturn.py:259-331 | no interleaving takes more such steps than a fixed number, time-outs not counted |
| Workload.CompletedUsesEverything | sglang_latent_reasoning_pkg/benchmark/hicache/bench_multiturn.py:302-328 | when all rounds are recorded every client has had all of its rounds and every input was used exactly once |
| WorkloadPrompts.FirstPrompt | sglang_latent_reasoning_pkg/benchmark/hicache/bench_multiturn.py:227-236 | before any answer the prompt of a client is its own first input |
| WorkloadPrompts.NextPrompt | sglang_latent_reasoning_pkg/benchmark/hicache/bench_multiturn.py:302-324 | in every run the prompt of a client's next round is its prompt of this round, then the answer recorded for it, then the input it was given when it was put back |
| Workload.StopLeaves | sglang_latent_reasoning_pkg/benchmark/hicache/bench_multiturn.py:302-331 | when the handler has stopped, the unrecorded answers are those in the queue or about to enter it, at most `max_parallel` and at most one per client |
| Workload.SenderStopsExactlyWhen | sglang_latent_reasoning_pkg/benchmark/hicache/bench_multiturn.py:270-282 | after that the sender can stop if and only if fewer than `max_parallel` answers are unrecorded |
| WorkloadLosses.Reach | sglang_latent_reasoning_pkg/benchmark/hicache/bench_multiturn.py:259-331 | any distribution of recorded rounds over the clients is reached by some run |
| WorkloadLosses.LoseAnswers | sglang_latent_reasoning_pkg/benchmark/hicache/bench_multiturn.py:259-331 | a run that leaves any given number of answers in the queue, up to `max_parallel` and the number of clients |
| WorkloadLosses.LossExactlyWhen | sglang_latent_reasoning_pkg/benchmark/hicache/bench_multiturn.py:302-331 | some run leaves exactly that many answers unrecorded if and only if the number is at most `max_parallel` and at most the number of clients |
| WorkloadLosses.AllRecordedExactlyWhen | sglang_latent_reasoning_pkg/benchmark/hicache/bench_multiturn.py:302-331 | every run records every answer if and only if there is no client |
| WorkloadLosses.HangExactlyWhen | sglang_latent_reasoning_pkg/benchmark/hicache/bench_multiturn.py:269-331 | some run ends with the handler gone, the sender waiting and no step possible if and only if there are at least `max_parallel` clients |
| WorkloadLosses.LastAnswerCanBeLost | sglang_latent_reasoning_pkg/benchmark/hicache/bench_multiturn.py:262-331 | with one client, one round and one request at a time such a run exists and records nothing |
| SparseDistillation.ScatterPlaces | src/modeling/modeling_stage2.py:53-77 | with distinct indices every top-k entry stands at its index in the scattered row |
| SparseDistillation.ScatterElsewhere | src/modeling/modeling_stage2.py:53-77 | everywhere else the scattered row is zero |
| SparseDistillation.TokenRefines | src/modeling/modeling_stage2.py:26-77 | for one token the sparse divergence is the dense one on the scattered target, normalisation and clamp included |
| SparseDistillation.SparseLossRefinesDense | src/modeling/modeling_stage2.py:26-77 | kd_kl_loss_topk equals kd_kl_loss on the scattered targets, for distinct indices and any exp and log |
| SparseDistillation.FullMaskIsMean | src/modeling/modeling_stage2.py:44-48 | the masked mean with nothing masked is the mean |
| DistillationLoss.DivergenceIs | src/modeling/modeling_stage2.py:34-42 | for one token: negative clamped entropy of the normalised target, minus its product with the logits over the temperature, plus its sum times the log of the sum of their exps |
| DistillationLoss.LossIsMean | src/modeling/modeling_stage2.py:44-50 | without a mask the loss is temperature squared times the mean over the tokens |
| DistillationLoss.MaskSelects | src/modeling/modeling_stage2.py:44-48 | with a mask it is the loss over the valid tokens alone, and zero when there is none |
| DistillationLoss.TemperatureScales | src/modeling/modeling_stage2.py:34-50 | logits T times as large, at temperature T, give T squared times the loss at temperature 1 |
| DistillationLoss.PerfectStudent | src/modeling/modeling_stage2.py:26-50 | the loss is zero when the normalised targets are the softmax of the tempered logits and no less than eps |
| DistillationLoss.AlmostNonnegative | src/modeling/modeling_stage2.py:38-42 | for nonnegative targets a token's divergence is at least minus the share that eps takes from the target |
| SparseDistillation.EmbeddingRefinesDense | src/modeling/modeling_stage2.py:80-92 | the top-k weighted embedding is the dense product with the scattered row, even with repeated indices |
| SparseDistillation.EmbeddingOfOne | src/modeling/modeling_stage2.py:80-92 | a single entry gives its row of the matrix, times its probability |
| SortedGeneration.SortedIndicesCover | eval/eval_decoder_hf_batch.py:407-409 | the sorted indices name every input once, shortest first |
| SortedGeneration.CollectAll | eval/eval_decoder_hf_batch.py:420-426 | the collected results are all results, in some order, and the queues are empty |
| SortedGeneration.Restore | eval/eval_decoder_hf_batch.py:435-437 | every slot is written, with the result of its own input |
| SortedGeneration.Gen | eval/eval_decoder_hf_batch.py:399-439 | the call returns f of every input in input order for any length function, batch size and completion order |
| ShardedValidation.InOneShard | src/validation.py:34-37 | example i is at place i / world_size of the shard of rank i % world_size and nowhere else |
| ShardedValidation.GeneratePredictions | src/validation.py:286-343 | predicting batch by batch gives the predictions of all examples for every positive batch size |
| ShardedValidation.CountCorrectPredictions | src/validation.py:104-115 | the loop counts the correct predictions; different lengths raise |
| ShardedValidation.LocalCounts | src/validation.py:360-389 | a rank contributes the correct and total counts of its shard, whatever the batch size |
| ShardedValidation.ShardedCountsAreTheCounts | src/validation.py:34-52 | the reduced counts are the counts of one process over all examples |
| ShardedValidation.ShardedAccuracyIsSequential | src/validation.py:346-396 | every rank reports the accuracy of an unsharded validation |

## Left out

- SpacersAreInvisible: padding is on the right, as in the Stage 2 collator; left padding and the position ids that generation derives from a mask with pad tokens in the prompt are library behaviour. A row that sees nothing is a row without visible pairs here, while a softmax over such a row is library behaviour too.
- RemoveBoxed: the contract describes successful results; which inputs are refused is AssertionExactlyWhen, for boxes that last_boxed_only_string found.
- StepDecreases: scheduling fairness is not modelled; the measure bounds every run without it.
- LocalCounts: the model is a deterministic function per example, so left padding inside a batch has no effect in the model.
- AlignedExactlyWhen: keys are read from ASCII text. Reading a file that two workers wrote stops at its second reading, so which of the two contents it had first does not matter.
- LoadAllChunks: isdigit is modelled for ASCII digits.
- SaveAll: saves are of steps that are not there yet; saving a step again would replace its directory.
- MatchExactlyWhen: the pad token is not the first token of the end marker.
- EveryStateIsSafe: server answers are taken to succeed; an unsuccessful one ends the handler thread. Clients times rounds inputs are taken to be available, with at least one round and one request in parallel.
- NeverStuck: the two threads and the server are steps over one state value; the ready queue's lock and its choice of a policy become "any ready request".
- GenerateSaveAndLoad: the batch size is positive; what a batch size of 0 or below does is in Gen.
- SparseLossRefinesDense: real numbers stand for floats, log-softmax is written with arbitrary exp and log, and the batch and sequence dimensions of the dense loss are one list of tokens. The sum of a row plus eps must not be zero.
- ResolveAndGroup: the drawing of lines and targets is not modelled, only that targets are existing lines; nor are the few-shot suffix and the empty groups that its lookups add.
- ReportsAgree: real numbers stand for floats; an average output length is carried along without its rounding to one digit.
- Execute: a write to the result file is one atomic step, and a stored run's accuracy and correct count have no field of their own because they follow from its scores; torn writes, the summary file and prediction files are not modelled.
- Tokenizers, chat templates, models, LoRA merging, generation, bfloat16 and softmax numerics, Gumbel noise: arbitrary functions and values, or absent.
- Switching the model between training and evaluation mode around validation.
- The batch dimension of the masks and the cast to additive masks.
- Worker processes run to the next queue operation in one step; with mp_size 0 nothing moves and the parent waits forever, so the results ask for at least one worker.
- Files of earlier generation runs in the save directory, and checkpoint directories whose number has leading zeros.
- The generators and evaluators that repeat the modelled code: generate_latent_soft_label_hf_batch.py, eval/eval_encoder_hf_batch.py, eval/eval_union_hf_batch.py, eval/eval_latent_model_hf_batch.py, eval/eval_math500_sglang.py.
- symbolic_equal and the normalisers of strings for comparison: calls into computer algebra and rewriting rules without a specification.
- Argument parsing, logging, progress bars other than the one that ends the multi-client workload, and the macro average over datasets.
