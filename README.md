# Product-caption fine-tuning: a verified model of its control logic

This project models, in Dafny, the parts of the product-caption pipeline
(a BLIP captioner fine-tuned with LoRA adapters on e-commerce images) that are
plain control logic rather than calls into PyTorch, `transformers`, `peft`,
`evaluate` or PIL:

- **Sample store** (`src/dataset.py`). `load_jsonl` reads a JSON Lines file.
  `ProductCaptionDataset` keeps the rows whose `image_path` and `text` are both
  truthy, in file order. It answers `len` and Python-style indexing, negative
  indices included.
- **Batch collation** (`src/train_lora.py`, `BlipCollator` and the identical
  `collate_fn`). Every image of the batch is loaded, the texts are gathered,
  both go to the processor, and `labels` is a copy of `input_ids`.
- **Training control** (`src/train_lora.py`). The CUDA guard, the step budget
  (`steps_per_epoch`, `total_steps`, warmup), and the gradient-accumulation
  loop with its two-level stop. The loop is modelled on counters: micro-batches
  run, micro-batches pending in the accumulation window, optimiser steps applied,
  scheduler steps, and the size of every completed window.
- **Batch inference** (`src/predict.py`). A lazy JSON Lines reader and the
  batch loop. The loop skips rows without an image path and records
  missing images with an `"image_not_found"` marker. It captions the rest
  and stops after `--limit` captions. Single-image mode is modelled too.
- **Evaluation** (`src/evaluate.py`). The row filter that feeds the metrics,
  the `"n"` count of `compute_metrics`, and the exact line layout of the
  Markdown samples report.

The outside world enters as parameters:

- `decode` stands for `json.loads`. It returns `None` for a line that is not
  JSON and for a JSON value that is not an object. In prediction and
  evaluation a non-object row raises in the iteration that reads it;
  `load_jsonl` returns it, and the dataset constructor raises when it reads
  the row's fields.
- `imageExists` stands for `Path.exists`.
- `caption` stands for the captioner. It returns `None` when the captioner
  raises, for instance on an image PIL cannot open.
- `loadImage` and `encode` stand for PIL and the processor.
- `score` stands for the metric library.
- `nonFinite` says at which accumulation boundaries `GradScaler` skips the
  optimiser step.

A file is `Option<seq<string>>`, where `None` means the file does not exist.

JSON values are a datatype, and a decoded row is a `map<string, JsonValue>`.
`Truthy` is Python truthiness. `Str` is Python `str()`, with `repr` for nested
strings. `Strip` removes exactly the characters for which Python's
`str.isspace()` holds.

Python's integer semantics are written out:

- `//` and `%` floor for a negative `--grad_accum`;
- `rows[:limit]` counts from the end for a negative limit;
- `if args.limit and n >= args.limit` treats 0 as "no limit" and stops after
  the first caption for a negative limit.

Behaviour that is easy to misread:

- A row is kept on truthiness, not non-emptiness. `0`, `false`, `[]` and `{}`
  are dropped, while a truthy non-string such as `123` becomes the string `"123"`.
- An undecodable line is not skipped. `load_jsonl` raises, and so the whole
  load fails.
- The loop stops when the micro-batch counter reaches `total_steps`. That
  counter is not the optimiser-step count the budget was computed in (see
  Findings).
- With `total_steps <= 0`, one micro-batch still runs before the stop test.

## Model

| member | source | states |
|---|---|---|
| JsonLines.DecodeAll | src/dataset.py:15-21 | decoding a sequence of lines succeeds iff every line decodes, and then row i is the decoding of line i |
| JsonLines.LoadJsonl | src/dataset.py:12-21 | a missing file gives FileNotFound; otherwise the load succeeds iff every non-blank stripped line decodes, and returns exactly those rows in file order; an undecodable line gives MalformedLine |
| JsonLines.NonBlankSpec | src/dataset.py:16-19 | the lines kept are stripped, non-empty, in increasing file positions, one per non-blank input line, never more than the input |
| JsonLines.NonBlankSkipsOnlyWhitespace | src/dataset.py:17-19 | a line is skipped iff it consists only of whitespace characters |
| JsonLines.NonBlankPrefixFails | src/dataset.py:16-20 | once a line fails to decode, the load fails whatever lines follow |
| JsonLines.StripIdempotent | src/dataset.py:17 | stripping a stripped line changes nothing |
| Text.StripSpec | src/dataset.py:17 | `strip()` returns a contiguous slice of the line, everything cut away is whitespace, and the result neither starts nor ends with whitespace |
| Text.StripEmptyIff | src/dataset.py:17-19 | a stripped line is empty iff the line is all whitespace |
| Text.NatToStringRoundTrip | src/evaluate.py:49 | the decimal rendering of an entry number parses back to the number |
| Text.NatToStringInjective | src/evaluate.py:48-49 | distinct entry numbers render to distinct strings |
| Json.Get | src/dataset.py:37-38 | `r.get(key)` is the stored value, or null for a missing key |
| Json.GetOr | src/evaluate.py:78 | `r.get(key, default)` is the stored value, or the default for a missing key |
| Json.Truthy | src/dataset.py:39 | Python truthiness: the falsy values are exactly null, false, 0, "", [] and {} |
| Json.StrSpec | src/dataset.py:41 | `str()` keeps a string value unchanged and is empty only for the empty string |
| Json.TruthyStrNonEmpty | src/dataset.py:39-41 | every truthy value has a non-empty `str()` |
| Dataset.IsValidRow | src/dataset.py:37-40 | a row without an `image_path` or a `text` key is never kept |
| Dataset.ToSample | src/dataset.py:37-41 | a valid row becomes a Sample with both fields non-empty; string fields are kept verbatim |
| Dataset.CleanSpec | src/dataset.py:34-42 | the clean samples are the valid rows in order: sample j comes from the j-th valid row, every valid row yields one, and there are never more samples than rows |
| Dataset.CleanSamplesNonEmpty | src/dataset.py:39-42 | every clean sample has a non-empty image path and text |
| Dataset.ProductCaptionDataset.constructor | src/dataset.py:31-42 | the filtering loop leaves `rows` equal to the clean samples of the loaded rows |
| Dataset.ProductCaptionDataset.Len | src/dataset.py:44-45 | the length is the number of valid loaded rows, at most the number of rows |
| Dataset.ProductCaptionDataset.GetItem | src/dataset.py:47-48 | indices in [0, n) and [-n, 0) return the sample Python indexing selects; any other index raises IndexError |
| Dataset.OpenDataset | src/dataset.py:31-32 | constructing the dataset fails exactly when loading the file fails; otherwise its source rows are the decoded file |
| Collator.LoadImages | src/train_lora.py:19 | loading succeeds iff every image loads, giving image i for sample i; otherwise it names the first sample whose image fails |
| Collator.Texts | src/train_lora.py:20 | text i is the caption of sample i |
| Collator.Collate | src/train_lora.py:18-23 | collation succeeds iff every image loads; the batch carries the processor's encoding of the loaded images and texts, and `labels` equals `input_ids` |
| Training.FloorDiv | src/train_lora.py:87 | Python `//`: the quotient is the floor of a / b for either sign of b |
| Training.PyMod | src/train_lora.py:112 | Python `%`: the remainder has the divisor's sign and is zero iff the divisor divides the dividend |
| Training.Budget | src/train_lora.py:87-92 | `steps_per_epoch` counts complete windows and is at least 1; `total_steps` is the smaller of the cap and `steps_per_epoch * epochs`; warmup is the smaller of `--warmup_steps` and a fifth of `total_steps`, rounded down |
| Training.OnMicroBatch | src/train_lora.py:103-118 | one micro-batch advances `step` by one; the scheduler steps iff `step + 1` is a multiple of g, and then the window closes with its pending count plus one and the optimiser steps unless the gradients are non-finite; otherwise only the pending count grows |
| Training.CountersAfterSpec | src/train_lora.py:99-118 | after n micro-batches the scheduler has stepped n / g times, n % g gradients are pending, every completed window holds g micro-batches, and the optimiser stepped once per boundary whose gradients were finite |
| Training.AppliedAllFinite | src/train_lora.py:110-116 | with finite gradients at every boundary, every scheduler step is matched by an optimiser step |
| Training.AppliedAtMost | src/train_lora.py:110-116 | the optimiser never steps more often than the scheduler |
| Training.TrainLoop | src/train_lora.py:99-125 | the nested loop with both breaks leaves the counters of exactly `min(L * epochs, max(total_steps, 1))` micro-batches (none without data) |
| Training.RunCounters | src/train_lora.py:99-125 | at the end the micro-batch count is at most `max(total_steps, 1)`, scheduler steps are that count divided by g, and optimiser steps are at most scheduler steps |
| Training.TrainMain | src/train_lora.py:53-125 | a non-CUDA device fails before anything else; `--grad_accum 0` fails with ZeroDivisionError; otherwise the run has the computed budget and the loop's counters |
| Training.WrittenScheduleFallsShort | src/train_lora.py:88-125 | as written, with g >= 2 and at least one window of data, the scheduler steps fewer times than the `total_steps` it was configured with |
| Training.WrittenScheduleExample | src/train_lora.py:87-125 | 100 batches, `--grad_accum 4`, one epoch: `total_steps` is 25, 25 micro-batches run and the scheduler steps 6 times |
| Training.IntendedScheduleCompletes | src/train_lora.py:88-93 | stopping after `total_steps * g` micro-batches steps the scheduler exactly `total_steps` times with nothing pending |
| Training.TrainMainIntended | src/train_lora.py:53-125 | the same guards, budget and loop with the corrected stop test; with at least one window of data the scheduler steps exactly `total_steps` times and nothing is pending |
| Predict.MissingRecord | src/predict.py:77-80 | the record of a missing image keeps every field of the row, with `pred_text` null and `error` "image_not_found" |
| Predict.CaptionRecord | src/predict.py:82-87 | the record of a captioned image keeps every field of the row, with `pred_text` the caption and `error` null |
| Predict.HasImagePath | src/predict.py:73-75 | a row takes part only if it has a non-null `image_path` |
| Predict.PredictImage | src/predict.py:51-61 | single-image mode fails iff the image does not exist (ImageNotFound) or the captioner raises on it (CaptionFailed), and otherwise returns the caption |
| Predict.Step | src/predict.py:73-91 | one row fails the run iff it does not decode, or names an image by a non-string path, or names an existing image the captioner raises on; otherwise the predictions only grow, by at most one record, `n` grows by the captions added, and the loop stops only right after a caption that reaches a non-zero limit |
| Predict.PredictBatch | src/predict.py:63-91 | a missing input file raises; otherwise the loop's result equals the line-by-line specification `Batch` |
| Predict.BatchOutputShape | src/predict.py:72-91 | every output record has a non-empty string image path and either the caption the captioner returned for the image with a null error or the "image_not_found" marker with a null caption; with a positive limit there are at most `limit` captions |
| Predict.RecordFor | src/predict.py:76-87 | the record of a processable row keeps all its fields and is a success iff its image exists |
| Predict.Records | src/predict.py:72-87 | there is one record per row with a truthy image path |
| Predict.BatchMatchesReference | src/predict.py:63-91 | when every line decodes and every row naming an image has a string path and, if the image exists, a caption that does not raise, the output is the records of the rows naming an image, in order, cut right after the limit-th caption |
| Predict.RunFailsOnBadLine | src/predict.py:12-18 | with no limit, an undecodable line anywhere makes the whole batch fail |
| Predict.RunFailsOnUnprocessableRow | src/predict.py:73-86 | with no reachable limit, a row naming an image by a non-string path, or an existing image the captioner raises on, makes the whole batch fail |
| Predict.CapIsPrefix | src/predict.py:89-91 | the limit only truncates: the output is a prefix of the records |
| Predict.CapNoLimit | src/predict.py:90 | a limit of 0 keeps every record |
| Predict.CapStopsAtLimit | src/predict.py:89-91 | with a positive limit at most `limit` captions are kept, and records are dropped only right after the limit-th caption |
| Predict.CapNegativeLimit | src/predict.py:90 | a negative limit stops after the first caption |
| Evaluate.Usable | src/evaluate.py:74-80 | a usable row has both `text` and `pred_text`, and an `error` that is absent or null |
| Evaluate.SampleOf | src/evaluate.py:76-83 | the triple keeps the raw image path (default ""), string captions verbatim, and a usable row gives non-empty reference and prediction |
| Evaluate.CollectPairs | src/evaluate.py:65-83 | a missing file raises first; otherwise the loop succeeds iff every line decodes, `preds`, `refs` and `samples` are index-aligned, and the samples are the usable rows in order |
| Evaluate.CollectStep | src/evaluate.py:73-83 | one row either adds nothing or appends its triple to all three lists, keeping them aligned |
| Evaluate.CollectedSpec | src/evaluate.py:73-83 | sample j comes from the j-th row with null error and truthy `text` and `pred_text`; every such row contributes exactly once, in order |
| Evaluate.ErrorRowsContributeNothing | src/evaluate.py:74-75 | a row whose `error` is not null contributes nothing |
| Evaluate.CollectedNonEmpty | src/evaluate.py:79-83 | every collected reference and prediction is non-empty |
| Evaluate.ComputeMetrics | src/evaluate.py:20-36 | `n` is the number of predictions; the scores come from the metric library on both lists |
| Evaluate.SliceTo | src/evaluate.py:48 | Python `rows[:limit]`: the first min(limit, len) rows, or all but the last -limit for a negative limit |
| Evaluate.EntryLines | src/evaluate.py:49-53 | an entry is five lines |
| Evaluate.SaveSamplesMd | src/evaluate.py:45-54 | the text written is the concatenation of the report lines for the rows shown |
| Evaluate.EntriesLayout | src/evaluate.py:48-53 | entries occupy five lines each, the j-th being entry number j + 1 for row j |
| Evaluate.ReportLayout | src/evaluate.py:47-53 | the report is the header plus min(limit, len) entries (for limit >= 0), 1 + 5k lines, numbered consecutively from 1 in row order |
| Evaluate.HeadingAt | src/evaluate.py:47-49 | the heading of entry j + 1 is line 1 + 5j of the report |
| Evaluate.HeadingNumber | src/evaluate.py:49 | the number shown in an entry's heading reads back as the entry's number |
| Evaluate.HeadingsDistinct | src/evaluate.py:48-49 | no two entries share a heading |
| Evaluate.EvaluateMain | src/evaluate.py:57-87 | a missing file raises; otherwise `n` equals the number of usable rows and the report renders the collected samples |

## Left out

- Floating point: learning rates, the loss and its scaling, the cosine schedule's values, the `GradScaler` scale factor, and metric scores. The scheduler is counted in steps, the scaler appears only as "skip this optimiser step", and scores are an uninterpreted `score` result.
- Model, processor and LoRA setup (`BlipForConditionalGeneration`, `get_peft_model`, `model_wrapper`), `config.pick_device` (the device is an input), seeding, device transfer, `autocast`, and saving adapters.
- `DataLoader` shuffling and batching: the loop takes the number of batches per epoch as input, and `TrainMain` does not compose the dataset with the loader.
- Training progress printing every 50 steps, and the `print` calls of all entry points.
- Writing files (`write_jsonl`, `save_json`, `path.write_text`, directory creation). The predictions and the report text are returned as values. `json.dumps` formatting and key order are not modelled, since rows are maps.
- `Path` normalisation inside `str(img_path)`: the path string is handed to `imageExists` and `caption` unchanged.
- `repr` escaping of quotes and control characters inside nested strings, in `Json.Str`.
- Non-integer JSON numbers (and `NaN`, `Infinity`) are not representable in `Json.JsonValue`; `decode` never yields them, so a float field's truthiness and `str()` are not modelled.
- JsonLines.LoadJsonl: fails on a non-object line, which `load_jsonl` returns; its only caller, the dataset constructor, then raises on that row, so Dataset.OpenDataset fails in both.
- The exception a failing captioner raises: every such failure is the single error CaptionFailed.
- Collator.Collate: `labels` is a value copy of `input_ids`; the aliasing that `.clone()` prevents is not modelled.
- `load_image_rgb`'s RGB conversion and PIL errors other than "cannot load", which become `loadImage` returning `None`.
- Predict.RunFailsOnBadLine: stated only without a reachable limit; once the limit is reached, later lines are never read, so they cannot fail the run.
- Evaluate.EntryLines: its own contract states only the entry's length; the content of each line is stated by Evaluate.EntriesLayout and Evaluate.ReportLayout.

## Findings

| source | as written | input that shows it | evidently intended | confidence | as-written member | corrected member |
|---|---|---|---|---|---|---|
| src/train_lora.py:88-125 | `total_steps` is a number of optimiser steps, `min(max_train_steps, steps_per_epoch * epochs)`, but the loop stops when `step`, a count of micro-batches, reaches it | 100 batches per epoch, `--grad_accum 4`, 1 epoch, `--max_train_steps 2000`: `total_steps` is 25, the loop stops after 25 micro-batches, and the scheduler built for 25 steps has stepped 6 times | stop after `total_steps * grad_accum` micro-batches, so that the scheduler completes the `total_steps` steps it was configured with | not executed | Training.WrittenScheduleFallsShort | Training.IntendedScheduleCompletes |
