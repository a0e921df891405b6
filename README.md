# Translation evaluation pipeline: conversion and evaluation core

This project models the two scripts of the evaluation pipeline and proves
properties about the model:

- **Conversion** (`create_jsonl` in `BleuCometScript/prepare_data.py`). It
  takes a source file, a hypothesis file and one or more reference files.
  It strips every line and transposes the reference files into one
  reference set per line position. It refuses inputs whose counts disagree.
  Otherwise it writes one record `{"id", "src", "hyp", "ref"}` per position,
  with ids `segment_001`, `segment_002`, and so on.
- **Evaluation** (`bleu_comet_evaluator.py`). `load_data` reads the record
  store back into three parallel lists. `calculate_bleu` pads and
  transposes the reference sets into the matrix the lexical scorer expects.
  `calculate_comet` zips the lists into the neural scorer's input items.
  `save_results` builds one detail row per segment.

A file is modelled as the sequence of its lines, as Python iterates them. A
line of the record store is modelled by what `json.loads` makes of it:
`Invalid` (not JSON), `NonObject` (JSON but not an object) or an object whose
three keys may each be missing. The scores themselves stay abstract values.

Modules:

- `Wrappers`: `Option`.
- `Text`: `str.strip()`, `f"{n:03d}"` and `'; '.join`, with `str.split('; ')`
  as the join's partner.
- `Transpose`: `zip(*rows)`, and the shortest and longest row length.
- `PrepareData`: the conversion.
- `Evaluator`: the loader, the two reshapings and the detail rows.
- `Pipeline`: how the record store written by the conversion is read back
  by the evaluation.

The conversion's length check is weaker than what its own error message
(`BleuCometScript/prepare_data.py:33`) says: that the source, hypothesis
and reference files must have the same number of lines. The code compares
the source and hypothesis counts only with the length of
`list(zip(*references_list))`, which is the length of the shortest
reference file. So a longer reference file passes,
and its extra lines are dropped without notice. The model follows the code:
see `PrepareData.Aligned` and `PrepareData.LongerReferenceFileAccepted`.

## Model

| member | source | states |
|---|---|---|
| Text.Strip | BleuCometScript/prepare_data.py:17 | `line.strip()`: the result is the input minus whitespace only before and after it, and it neither starts nor ends with whitespace |
| Text.StripIdempotent | BleuCometScript/prepare_data.py:17 | stripping a stripped line changes nothing |
| Text.StripLines | BleuCometScript/prepare_data.py:17 | the list comprehension keeps the line count and strips line `k` into entry `k` |
| Text.Decimal | BleuCometScript/prepare_data.py:42 | the digit core of `{n:03d}` before padding: decimal digits with value `n`, and no leading zero unless the numeral is the single digit `0` |
| Text.ZeroPad3 | BleuCometScript/prepare_data.py:42 | `{n:03d}`: at least three digits with value `n`, and a leading zero only when padding to width three |
| Text.ZeroPad3Examples | BleuCometScript/prepare_data.py:42 | 1, 10 and 123 format as `001`, `010` and `123` |
| Text.Label | BleuCometScript/prepare_data.py:42 | a positional id `prefix + f"{i+1:03d}"` is its prefix followed by at least three digits whose value is the 1-based position, with a leading zero only when padding to width three |
| Text.LabelInjective | BleuCometScript/prepare_data.py:42 | two positions never share an id |
| Text.LabelWidth | BleuCometScript/prepare_data.py:42 | up to position 999 the id has exactly three digits |
| Text.SplitJoin | bleu_comet_evaluator.py:145 | splitting `'; '.join(refs)` on `"; "` gives back a non-empty list of references that contain no `;` |
| Text.Join | bleu_comet_evaluator.py:145 | `'; '.join(refs)`: the empty list joins to `""`, and for references free of `;` the result holds a `;` exactly when there are at least two references |
| Text.JoinEmptyNotRecovered | bleu_comet_evaluator.py:145 | an empty reference list joins to `""`, which splits into one empty part, so it is not recovered |
| Transpose.MinLen | BleuCometScript/prepare_data.py:30 | the shortest row is no longer than any row and is the length of some row |
| Transpose.MaxLen | bleu_comet_evaluator.py:53 | `max(len(r) for r in references)` is no shorter than any row and is the length of some row |
| Transpose.Zip | BleuCometScript/prepare_data.py:30 | `zip(*rows)` gives as many tuples as the shortest row has elements (none without rows), each of width `len(rows)`, with `t[k][j] == rows[j][k]` |
| Transpose.ZipInvolutive | BleuCometScript/prepare_data.py:30 | transposing twice gives back any list of rows that all have one non-zero length, including no rows at all |
| Transpose.ZipForgetsEmptyRows | BleuCometScript/prepare_data.py:30 | without non-empty rows the round trip fails: `[[], []]` comes back as `[]` |
| Transpose.ZipTruncates | BleuCometScript/prepare_data.py:30 | transposing twice gives back every row cut to the shortest one |
| PrepareData.StripFiles | BleuCometScript/prepare_data.py:22-25 | one stripped line list per reference file, in argument order |
| PrepareData.References | BleuCometScript/prepare_data.py:30 | one reference set per line of the shortest reference file (none without reference files); set `k` holds line `k` of every stripped file, in file order |
| PrepareData.SegmentId | BleuCometScript/prepare_data.py:42 | `f"segment_{i+1:03d}"` is `segment_` followed by at least three digits denoting `i + 1`, with a leading zero only when padding to width three |
| PrepareData.CreateJsonl | BleuCometScript/prepare_data.py:15-47 | the conversion stops with the mismatch error exactly when the counts disagree; otherwise record `k` is the `k`-th id, stripped source, stripped hypothesis and reference set, for every position and in order |
| PrepareData.WriteRecords | BleuCometScript/prepare_data.py:39-47 | the writing loop emits, in order, one record per position with the id of that position and the fields at that position |
| PrepareData.Aligned | BleuCometScript/prepare_data.py:32 | the check passes exactly when the source and hypothesis counts are equal to the shortest reference file's length, or are zero when there are no reference files |
| PrepareData.LongerReferenceFileAccepted | BleuCometScript/prepare_data.py:30-32 | when the shortest reference file, wherever it stands among the arguments, matches the source, a longer reference file `j` passes the check: its first lines land in the reference sets and its lines from position `len(sources)` on land in none |
| PrepareData.AlignedReferenceFilesLongEnough | BleuCometScript/prepare_data.py:30-32 | after a passing check every reference file has at least as many lines as the source, and with no reference files the source and hypothesis are empty |
| PrepareData.SegmentIdsDistinct | BleuCometScript/prepare_data.py:42 | record ids are unique |
| PrepareData.FirstSegmentIds | BleuCometScript/prepare_data.py:42 | positions 0, 9 and 122 get `segment_001`, `segment_010` and `segment_123` |
| Evaluator.Step | bleu_comet_evaluator.py:23-33 | one line crashes the loader exactly when it is JSON but not an object (or the loader had already crashed); otherwise each list keeps its entries and gains the line's value for its key exactly when the line has every key up to its own: `src` for sources, `src` and `hyp` for hypotheses, all three for references |
| Evaluator.Load | bleu_comet_evaluator.py:19-37 | the loader never keeps more reference sets than hypotheses, more hypotheses than sources, or more sources than lines |
| Evaluator.LoadData | bleu_comet_evaluator.py:19-37 | the imperative loop with its `continue`s and the uncaught TypeError computes the line-by-line fold `Load` |
| Evaluator.CrashIsFinal | bleu_comet_evaluator.py:24-33 | once a line raised the uncaught TypeError, no later line matters |
| Evaluator.LoadCrashes | bleu_comet_evaluator.py:24-33 | loading fails exactly when some line is JSON but not an object |
| Evaluator.LoadCounts | bleu_comet_evaluator.py:25-27 | there is one source per line with `src`, one hypothesis per line with `src` and `hyp`, and one reference set per complete line |
| Evaluator.AlignedIffNoPartialLine | bleu_comet_evaluator.py:25-33 | the three lists have equal length exactly when no line has `src` but lacks `hyp` or `ref`, because the appends before the KeyError are kept |
| Evaluator.LoadValues | bleu_comet_evaluator.py:22-33 | for any file that loads without crashing, partially keyed lines included, the sources are the `src` values of the lines with `src`, the hypotheses the `hyp` values of the lines with `src` and `hyp`, and the reference sets the `ref` values of the complete lines, each in file order |
| Evaluator.LoadSkipsInvalid | bleu_comet_evaluator.py:22-30 | with only invalid or complete lines, the invalid ones are skipped and the complete ones give the lists in file order |
| Evaluator.LoadComplete | bleu_comet_evaluator.py:22-27 | a file of complete lines loads into one entry per line, in order |
| Evaluator.Slot | bleu_comet_evaluator.py:57 | slot `i` of a reference set is its `i`-th reference when there is one and `""` past its end, never a string from elsewhere |
| Evaluator.BleuReferences | bleu_comet_evaluator.py:53-57 | the padded matrix has as many rows as the largest reference set |
| Evaluator.PadTranspose | bleu_comet_evaluator.py:53-57 | the nested loops fail (as `max()` does) exactly when there are no reference sets; otherwise they give `maxRefs` rows of width `len(references)` with entry `[i][j]` equal to slot `i` of set `j`, or `""` past its end; this is `BleuReferences` |
| Evaluator.AppendSlots | bleu_comet_evaluator.py:56-57 | one pass of the inner loop appends slot `i` of one reference set (or `""`) to row `i` and leaves the rest of each row as it was |
| Evaluator.PaddedRowsAreBleuReferences | bleu_comet_evaluator.py:53-57 | any matrix satisfying the loop's index equations is `BleuReferences` |
| Evaluator.NoPaddingWhenRectangular | bleu_comet_evaluator.py:53-57 | when every line has the same number of references, nothing is padded and the matrix is the plain transpose |
| Evaluator.PaddingExample | bleu_comet_evaluator.py:57 | `[["a","b"],["c"]]` becomes `[["a","c"],["b",""]]` |
| Evaluator.Zip3 | bleu_comet_evaluator.py:90-92 | `zip(sources, hypotheses, references)` gives as many items as the shortest list has entries, and item `k` takes entry `k` of each list |
| Evaluator.CometInputs | bleu_comet_evaluator.py:89-92 | the appending loop builds exactly the zipped items |
| Evaluator.DetailTable | bleu_comet_evaluator.py:140-147 | there is no table without scores or data, and a length error when the columns differ in length; otherwise row `i` carries id `i`, the `i`-th source and hypothesis, the `i`-th joined reference set and the `i`-th score |
| Evaluator.DetailId | bleu_comet_evaluator.py:142 | `f"seg{i+1:03d}"` is `seg` followed by at least three digits denoting `i + 1`, with a leading zero only when padding to width three |
| Evaluator.DetailIdsDistinct | bleu_comet_evaluator.py:142 | detail row ids are unique |
| Evaluator.DetailReferenceRecoverable | bleu_comet_evaluator.py:145 | the reference column keeps every reference of a non-empty set whose references contain no `;` |
| Pipeline.Encode | BleuCometScript/prepare_data.py:41-47 | a written record reaches the loader as an object with all three keys |
| Pipeline.Store | BleuCometScript/prepare_data.py:39-47 | the store has one line per record, each an object with all three keys |
| Pipeline.StoreRoundTrip | bleu_comet_evaluator.py:22-27 | loading a store of written records gives back their `src`, `hyp` and `ref` fields, one entry per record, in order |
| Pipeline.ConvertedStoreLoadsBack | BleuCometScript/prepare_data.py:39-47 | the store written by a passing conversion loads back as the stripped sources, the stripped hypotheses and the reference sets |
| Pipeline.ConvertedBleuMatrix | bleu_comet_evaluator.py:53-57 | for a converted store, the lexical scorer's matrix is the stripped reference files themselves, each cut to the number of records, with no padding |
| Pipeline.PartialLineBreaksDetails | bleu_comet_evaluator.py:140-147 | a store line with `src` but without `hyp` or `ref` makes the detail table fail with a length error |
| Pipeline.StoreDetails | bleu_comet_evaluator.py:140-147 | from a store of records and one score per record, detail row `i` carries record `i`'s fields, its joined references and its score |
| Pipeline.DetailIdMatchesSegmentId | bleu_comet_evaluator.py:142 | detail id `seg…` and record id `segment_…` of a position carry the same digits |

## Left out

- File access is left out:
  - opening and reading the input files, and writing the JSONL file, the CSV file and the Markdown file;
  - `mkdir` of the output directory;
  - the `FileNotFoundError` handlers with their message and `exit(1)`.

  Files are sequences of lines, and the record store is the sequence of records written.
- JSON encoding and decoding are left out as text, and so is `ensure_ascii=False`. A store line is modelled by its parse result (`Evaluator.Parsed`).
- The loader models values as typed: `src` and `hyp` are strings and `ref` is a list of strings. Other JSON value types under those keys are not modelled.
- The catch-all `except Exception` of `create_jsonl` is left out. It only covers I/O failures, and those are not modelled.
- A write that fails part-way is left out, which means a partially written output file is not modelled.
- The scorers are left out: `sacrebleu.corpus_bleu`, and COMET model download, loading and `predict`. So are the arithmetic of their scores, floating point, the summary table and its formatting. Segment scores are an opaque type parameter.
- Also left out:
  - `main`'s argument parsing and `tqdm` progress bars;
  - `print` messages;
  - `main`'s early return when no sources are loaded. Only the pieces `main` hands on are modelled: the `data` dictionary as `Pipeline.DataOf`. `Pipeline.DataOf` is glue that only packs the loaded lists into that dictionary, and it exists only for loaded lists: a loader that crashed ends the run before `save_results`.
- Transpose.ZipInvolutive: the round trip is stated only for rows of one non-zero length (or no rows at all), because `zip` of empty rows loses the row count (`Transpose.ZipForgetsEmptyRows`).
- Pipeline.Encode: the JSON round trip is taken as given, not proved. `json.dumps` of a record followed by `json.loads` of the written line is assumed to give one object with the record's `src`, `hyp` and `ref` values. The `id` field is written but never read back.
- Text.Strip: `str.isspace` is modelled for the characters Python counts as whitespace. Strings are sequences of code points, with no encoding.
