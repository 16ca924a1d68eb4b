# ASR_Experiments data preparation, modelled in Dafny

This project models the four data-preparation scripts of the ASR_Experiments
repository. It proves properties about them.

- `process_wav_files` (pre-process.py) walks a directory tree of recordings. It skips
  files whose name holds an excluded speaker, resamples to 16 kHz, and writes each
  file whole or as 20-second windows that overlap by 2 seconds.
- `apply_vad` (vad_pyannote.py) runs a voice-activity detector over every `.wav` file.
  It keeps the speech turns that are long enough, writes their audio back to back, and
  writes an RTTM file of the kept turns. `write_rttm` produces the RTTM lines.
- `normalize_text` and `normalize_corpus` (simple_normalization.py) lower-case a
  transcription, isolate its punctuation, drop other symbols, and collapse whitespace.
  The corpus rewrite applies this to the `text` column of a CSV file.
- `extract_transcriptions` (eaf_to_csv.py) turns the annotations of an ELAN file into
  CSV records: audio name, start and end in seconds, stripped text, dialect tag.

Modules:

| module | file | what it holds |
|---|---|---|
| `Results` | results.dfy | `Result` and `Option` |
| `Text` | text.dfy | `str.lower`, the `\w`/`\s` classes, `str.strip` |
| `Digits` | digits.dfy | `str(n)`, `{i:02d}`, `{x:.3f}`, the `repr` of `ms / 1000.0`, and readers for each |
| `Paths` | paths.dfy | `in`, `endswith`, `os.path.splitext`/`basename`/`join`, `split`/`join` on a separator |
| `Arith` | arith.dfy | division and multiplication facts |
| `Chunker` | chunker.dfy | `process_wav_files` |
| `Rttm` | rttm.dfy | `write_rttm` and a reader for its lines |
| `Vad` | vad.dfy | `apply_vad` |
| `Normalize` | normalize.dfy | `normalize_text` |
| `Corpus` | corpus.dfy | `normalize_corpus` |
| `EafExport` | eaf.dfy | `extract_transcriptions` |

How the outside world is modelled:

- Audio is a sequence of samples of an arbitrary type.
- The directory walk is the sequence of `(root, filename)` pairs that `os.walk` yields.
- These collaborators are function parameters: the loader (`librosa.load`), the
  resampler (`librosa.resample`), and the voice-activity detector.
- Files written are returned as records: path, samples and rate, or the RTTM lines.
- The lines printed by `process_wav_files` and `apply_vad` are returned as a log. The
  closing messages of `normalize_corpus` and `extract_transcriptions` are not modelled.
- A CSV file is its records, already split into fields.
- An ELAN file is its tiers, each a sequence of `(start, end, text)` annotations with
  times in whole milliseconds.
- Python exceptions become `Err` values carrying the message Python would give.

Where the docstrings and the code disagree, the model follows the code:

- simple_normalization.py promises that `"bu,"` becomes `"bu"`. The code isolates the
  comma instead, and `Normalize.CommaIsolated` proves the code's result, `"bu ,"`.
- pre-process.py describes chunks of 10 to 20 seconds. The code writes only full
  20-second windows, and the samples after the last full window are never written
  (`Chunker.SplitCount`).
- The RTTM line has ten space-separated fields, so it reads back only when the file
  stem and the label hold no space. The labels never do, so `Vad.RttmLinesReadBack`
  requires only that the input name holds none.
- If `max_duration` is at most the hard-coded 2-second overlap, the window loop of
  pre-process.py never ends. The model returns this as an explicit `Hangs` outcome
  (`Chunker.AdvancesIff`, `Chunker.SplitWithoutAdvanceHangs`). The outcome carries the
  stuck loop, and `Chunker.StuckWrite` gives the file each pass writes: with
  `min_duration <= max_duration` the first pass writes `<stem>_chunk0.wav`; with
  `C == O` every pass writes the first window again under the next number; with
  `C < O` the start goes negative and NumPy slicing counts the window from the end.
- With `sample_rate == 0` both scripts divide by zero, provided librosa returns at a
  target rate of 0: pre-process.py for every file once the load and the resample return
  (line 58), vad_pyannote.py for the first turn of a file once `librosa.load(..., sr=0)`
  returns (line 43). The model reports `division by zero` for those files
  (`Chunker.ZeroRateFails`, `Vad.VadFile`).

## Model

| member | source | states |
|---|---|---|
| Text.LowerString | simple_normalization.py:24 | the result has the input's length and lower-cases it character by character, so no character of the result is upper-case |
| Text.LowerStringFixed | simple_normalization.py:24 | lower-casing leaves a string unchanged exactly when it has no upper-case letter, and lower-casing twice is lower-casing once |
| Text.Strip | eaf_to_csv.py:32 | the result is the slice of the input after the leading whitespace; everything outside it is whitespace; it neither starts nor ends with whitespace |
| Text.StripEmptyIffBlank | eaf_to_csv.py:32 | `text.strip()` is empty exactly when the text is all whitespace |
| Digits.NatToString | pre-process.py:80 | `str(n)` is a non-empty digit string, one digit exactly for n < 10, with no leading zero unless n is 0 |
| Digits.NatToStringInjective | pre-process.py:80 | different chunk numbers give different decimal renderings |
| Digits.Pad2 | vad_pyannote.py:46 | `{i:02d}` is at least two digits and is `str(i)` from 10 on |
| Digits.Pad2Injective | vad_pyannote.py:46 | different indices give different padded renderings |
| Digits.Fixed3 | vad_pyannote.py:18 | `{x:.3f}` of whole milliseconds is at least five characters: digits (after a `-` for a negative value), a dot fourth from the end, and three decimal digits |
| Digits.Fixed3RoundTrip | vad_pyannote.py:18 | the `.3f` rendering of any whole number of milliseconds reads back as that number |
| Digits.SecondsRepr | eaf_to_csv.py:35-36 | `ms / 1000.0` written by `csv.writer`: a whole number of seconds is written with `.0` |
| Digits.SecondsReprRoundTrip | eaf_to_csv.py:35-36 | the seconds written read back as the original milliseconds |
| Paths.Splitext | pre-process.py:62 | `os.path.splitext` splits the path into two parts whose concatenation is the path; the extension is empty, or a dot followed by neither a dot nor a `/` |
| Paths.Basename | vad_pyannote.py:18 | `os.path.basename` is the longest suffix of the path with no `/`: it is the whole path or preceded by a `/` |
| Paths.PathJoin | pre-process.py:47 | `os.path.join(a, b)` ends with `b` |
| Paths.ContainsIff | pre-process.py:43 | `pat in s` holds exactly when `pat` occurs at some position of `s` |
| Paths.WavNameIff | pre-process.py:41 | `filename.lower().endswith('.wav')` holds exactly when the name has at least four characters and its last four lower-case to `.wav`, whatever their case |
| Paths.BasenameOfJoin | vad_pyannote.py:57-58 | the basename of `join(dir, name)` is `name` when `name` has no `/` |
| Paths.StemOfExtended | vad_pyannote.py:57-58 | the stem of `stem + ".rttm"` is `stem` when the stem has a non-dot character |
| Paths.StemFree | vad_pyannote.py:57 | the stem of a name holds no character the name does not hold |
| Paths.SplitJoin | vad_pyannote.py:18 | splitting a space-joined line gives back its fields when no field holds a space |
| Chunker.WindowingOf | pre-process.py:67-68 | the window and the minimum are `max_duration` and `min_duration` seconds at the target rate, and the overlap is two seconds at that rate whatever the durations are |
| Chunker.Normalised | pre-process.py:54-55 | a buffer already at the target rate is not resampled |
| Chunker.ChunkWalk | pre-process.py:72-87 | every file the window loop writes holds exactly one full window of samples, at the target rate |
| Chunker.ProcessFile | pre-process.py:49-91 | a file fails exactly when the loader fails (with its message) or the rate is 0 (`division by zero`); it hangs exactly when it loads, the rate is positive, the buffer is longer than a window and the window does not advance, and then its loop works on its own windowing, stem and buffer; every file written is at the target rate and at most one window long |
| Chunker.ZeroRateFails | pre-process.py:58 | with `sample_rate == 0` every loaded candidate is reported with `division by zero`, is loaded once, and writes nothing |
| Chunker.AdvancesIff | pre-process.py:67-87 | the window start advances, so the loop ends, exactly when `max_duration > 2` |
| Chunker.LongEnoughIff | pre-process.py:77 | every full window passes the minimum check exactly when `min_duration <= max_duration` |
| Chunker.ChunkWalkTooShort | pre-process.py:72-87 | when windows fail the minimum check, the loop writes nothing |
| Chunker.ChunkWalkClosedForm | pre-process.py:72-87 | from any start, the loop writes one file per remaining full window; the k-th file is the window at the k-th step, numbered counter + k |
| Chunker.WindowsCoverAllButTail | pre-process.py:72 | a buffer longer than a window gets at least one window, the last one fits, and fewer than `C - O` samples are left after it |
| Chunker.WholeFile | pre-process.py:60-64 | a buffer of at most one window is written once, whole, as `<stem>.wav` at the target rate; it is the loaded buffer itself when no resample was due |
| Chunker.SplitWithoutAdvanceHangs | pre-process.py:65-87 | a longer buffer with `C <= O` makes the file hang on a loop over its own windowing, stem and buffer, and the loop test holds on every pass, so the loop never ends |
| Chunker.SliceBound | pre-process.py:74 | a NumPy slice bound in range is itself, a negative one within the length counts from the end, and one before the start is 0; the result is never past the end |
| Chunker.PySlice | pre-process.py:74 | `audio[a:b]` with bounds in order and in range is the plain slice, and never longer than the buffer |
| Chunker.StuckWrite | pre-process.py:72-84 | a pass of the stuck loop writes exactly when its NumPy slice reaches the minimum length; the file is at the target rate, no longer than the buffer, named with the number of passes before it that wrote, and the counter goes up by one exactly when the pass writes |
| Chunker.LoopNeverExits | pre-process.py:72-87 | with `C <= O` the start after any number of passes is at most 0 and the loop test still holds |
| Chunker.StuckFirstWrite | pre-process.py:72-84 | the first pass of a stuck loop with `min_duration <= max_duration` writes `<stem>_chunk0.wav` with the first `C` samples |
| Chunker.StuckInPlace | pre-process.py:72-87 | with `C == O` the start stays at 0 and every pass so far has written a chunk |
| Chunker.StuckRepeats | pre-process.py:72-87 | with `C == O` pass k writes the first window again as `<stem>_chunk<k>.wav` |
| Chunker.StartFalls | pre-process.py:87 | with `C < O` the start after k >= 1 passes is at most `C - O` |
| Chunker.StuckCountsFromEnd | pre-process.py:72-87 | with `C < O` the start is negative from the second pass on, and a window whose bounds are both negative is read counting from the end of the buffer |
| Chunker.SplitIsWalk | pre-process.py:65-87 | a longer buffer with `C > O` yields the files of the window loop from the first window |
| Chunker.SplitTooShort | pre-process.py:77 | with `min_duration > max_duration` a longer buffer yields no file |
| Chunker.SplitCount | pre-process.py:67-87 | a longer buffer yields `(n - C) / (C - O) + 1` chunks, the last one fits, and the dropped tail is shorter than `C - O` |
| Chunker.SplitChunk | pre-process.py:72-84 | chunk k holds the `C` samples from `k * (C - O)`, is named `<stem>_chunk<k>.wav`, and is at the target rate |
| Chunker.ConsecutiveChunksOverlap | pre-process.py:86-87 | the last `O` samples of chunk k are the first `O` samples of chunk k + 1 |
| Chunker.ChunkNameInjective | pre-process.py:78-81 | two chunk names of the same stem are equal only for the same chunk number |
| Chunker.ChunkPathsDistinct | pre-process.py:78-84 | within one file, no two chunks are written to the same path |
| Chunker.VisitEntry | pre-process.py:40-91 | a finished entry is accounted for (a load exactly for a candidate, an exclusion exactly for an excluded `.wav` name, one count per file written); an entry hangs exactly when it is a candidate whose file hangs, and then it has only loaded its path |
| Chunker.Walk | pre-process.py:39-40 | the walk finishes exactly when every entry's step finishes; a hang comes from an entry whose step hangs, with that entry's name and loop |
| Chunker.RunBatch | pre-process.py:39-91 | the batch finishes exactly when no candidate file hangs, and a hang names a candidate entry |
| Chunker.ProcessWavFiles | pre-process.py:33-94 | the run finishes exactly when the batch does; then it has loaded exactly the candidates, counted the excluded `.wav` names, and its last line reports the files written and the exclusions |
| Chunker.WalkAccounting | pre-process.py:39-91 | over any walk whose steps are accounted for, the loader sees the candidates' paths in order, `excluded` counts the excluded `.wav` names, and `processed` counts files written |
| Chunker.BatchAccounting | pre-process.py:39-91 | a finished batch loads exactly the non-excluded `.wav` paths in walk order; `excluded_files` counts excluded `.wav` names; `processed_files` counts files written, not inputs |
| Chunker.WalkAppend | pre-process.py:39-40 | the walk over two stretches is the first stretch's effects followed by the second's, and a hang in the second keeps what the first did |
| Chunker.BatchAppend | pre-process.py:39-40 | the batch over two stretches of the walk is the two batches merged; a hang in the second keeps the first's effects |
| Chunker.FailedFileReported | pre-process.py:89-91 | a file the loader rejects gives one error line naming it and its message, and contributes nothing else |
| Chunker.WalkAround | pre-process.py:39-40 | one finished entry between two finished stretches puts its effects between theirs |
| Chunker.FailureIsIsolated | pre-process.py:49-91 | a failing file between two finished stretches of the walk leaves their files and counts unchanged, adds its error line between their lines, and the walk carries on |
| Rttm.Fields | vad_pyannote.py:18 | every line has exactly ten fields |
| Rttm.Line | vad_pyannote.py:18 | a line ends with its newline |
| Rttm.LineFields | vad_pyannote.py:18 | without the newline, a line whose id and label hold no space splits on spaces into exactly its ten fields |
| Rttm.FileId | vad_pyannote.py:18 | the file id has no `/` and is a prefix of the RTTM file's basename |
| Rttm.WriteRttm | vad_pyannote.py:14-18 | one newline-terminated line per segment, in annotation order, each the segment's line under the file id from the RTTM path |
| Rttm.LineRoundTrip | vad_pyannote.py:18 | a line reads back as its file id, onset, duration `end - start` and speaker when the id and the label hold no space |
| Rttm.WrittenLineReadBack | vad_pyannote.py:14-18 | every line of a written file reads back as its segment under the file id of the RTTM path |
| Vad.ClampStart | vad_pyannote.py:41 | the clamped start is non-negative and not before the truncated start |
| Vad.ClampEnd | vad_pyannote.py:42 | the clamped end is within the buffer and not after the truncated end |
| Vad.KeepsIsDurationTest | vad_pyannote.py:43-44 | for a positive rate, a turn is kept exactly when its clamped span in seconds is at least the threshold in seconds, in exact arithmetic |
| Vad.SpeakerLabel | vad_pyannote.py:46 | the label holds no space |
| Vad.LabelsInjective | vad_pyannote.py:46 | different timeline indices get different labels |
| Vad.SelectUpTo | vad_pyannote.py:40-46 | after m turns, every entry comes from a turn before m that passes the duration test, with that turn's clamped bounds and times; every passing turn before m has an entry; indices strictly increase |
| Vad.Select | vad_pyannote.py:40-46 | every kept range lies within the buffer |
| Vad.SelectEmptyIffNoneKept | vad_pyannote.py:40-46 | the loop keeps no turn exactly when no turn passes the duration test |
| Vad.Slices | vad_pyannote.py:45 | one slice per kept turn, each the buffer between its clamped bounds and as long as `end - start` |
| Vad.Annotation | vad_pyannote.py:46 | one segment per kept turn, with the turn's own unclamped times and the label of its timeline index; two segments share a label exactly when they come from the same turn |
| Vad.VadFile | vad_pyannote.py:31-63 | a load or detector failure is reported with its message; otherwise a file fails exactly when the rate is 0 and the detector found a turn, with `division by zero`, and reports no speech exactly when it does not fail and keeps no turn; a file with speech saves its audio under its own name, its RTTM file under `rttm/<stem>.rttm`, at the target rate, with as many RTTM lines as the segments reported |
| Vad.Report | vad_pyannote.py:48-63 | each outcome prints one line, marked `[!]`, `[✓]` or `[X]`, and only a file with speech leaves outputs |
| Vad.ApplyVad | vad_pyannote.py:20-63 | the batch prints one line per `.wav` file and writes at most one output per line |
| Vad.VadEntry | vad_pyannote.py:25-63 | a `.wav` name gets exactly one printed line and other names none; at most one output per line |
| Vad.NothingWrittenIffNoneKept | vad_pyannote.py:40-58 | for a detector that returns: no audio and no RTTM file is written exactly when no turn passes the duration test and the rate is positive or there is no turn (at rate 0 a turn divides by zero); speech is written exactly when the rate is positive and some turn passes |
| Vad.EmptyTurnsDropped | vad_pyannote.py:41-44 | with a positive threshold, a turn whose end is not after its start is dropped, and every kept slice is non-empty |
| Vad.ConcatOfSlices | vad_pyannote.py:54 | the speech written is as long as the kept ranges together, and begins with the first kept slice |
| Vad.ConcatAppend | vad_pyannote.py:54 | concatenating two lists of slices is concatenating their concatenations |
| Vad.SliceAtOffset | vad_pyannote.py:45-54 | each kept slice sits in the speech written at the running offset: the k-th starts where the first k kept ranges end |
| Vad.WavHasNonDot | vad_pyannote.py:27 | a `.wav` name has a character that is not a dot |
| Vad.RttmFileIdIsStem | vad_pyannote.py:18 | the file id in every RTTM line is the stem of the input `.wav` name |
| Vad.RttmLineOfTurn | vad_pyannote.py:37-58 | the k-th RTTM line is the line of the k-th kept turn, under the input's stem, with the turn's own times and the label of its timeline index |
| Vad.RttmLinesReadBack | vad_pyannote.py:37-58 | when the input name holds no space, each RTTM line reads back as its kept turn: the input's stem, the turn's own onset and duration, and `SPEAKER_NN` with its timeline index |
| Vad.FoldCount | vad_pyannote.py:25-28 | over any walk whose steps each report once per `.wav` name, the lines number the `.wav` names |
| Vad.FoldAppend | vad_pyannote.py:25-26 | the fold over two stretches is the first stretch's outputs and lines followed by the second's |
| Vad.VadAppend | vad_pyannote.py:25-26 | the batch over two stretches of the walk is the first's outputs and lines followed by the second's |
| Vad.FoldAround | vad_pyannote.py:25-26 | one entry between two stretches puts its outputs and lines between theirs |
| Vad.LoadFailureReported | vad_pyannote.py:62-63 | a `.wav` file that cannot be loaded gives one `[X]` line and no output |
| Vad.LoadFailureIsolated | vad_pyannote.py:31-63 | a load failure between two stretches leaves their outputs unchanged and adds only its `[X]` line between their lines |
| Normalize.PadChars | simple_normalization.py:25 | isolating punctuation only adds spaces |
| Normalize.Pad | simple_normalization.py:25 | isolating punctuation never shortens the text, and leaves a text without marks unchanged |
| Normalize.PadSep | simple_normalization.py:25 | after isolating, every mark has whitespace on each side and none is at either end |
| Normalize.DeleteChars | simple_normalization.py:26 | the cleaning keeps only allowed characters of its input |
| Normalize.Delete | simple_normalization.py:26 | the cleaning never lengthens the text and leaves only allowed characters |
| Normalize.DeleteSep | simple_normalization.py:26 | the cleaning keeps the marks apart |
| Normalize.DeleteAllowed | simple_normalization.py:26 | the cleaning leaves a string of allowed characters unchanged |
| Normalize.CollapseFrom | simple_normalization.py:27 | after whitespace, the result does not start with whitespace; a first non-space character is kept; a first whitespace becomes `' '` |
| Normalize.CollapseTidy | simple_normalization.py:27 | after collapsing, all whitespace is `' '` and no two spaces are adjacent |
| Normalize.CollapseChars | simple_normalization.py:27 | collapsing only adds spaces |
| Normalize.CollapseSep | simple_normalization.py:27 | collapsing keeps the marks apart |
| Normalize.NormalizeText | simple_normalization.py:23-28 | the result neither starts nor ends with whitespace |
| Normalize.NormalizeChars | simple_normalization.py:23-28 | the result holds only allowed characters, no upper-case letter, and no whitespace but `' '` |
| Normalize.NormalizeShape | simple_normalization.py:23-28 | in the result, whitespace is single spaces and every mark stands apart from its neighbours |
| Normalize.PadContent | simple_normalization.py:25 | isolating punctuation leaves the non-space content unchanged |
| Normalize.DeleteContent | simple_normalization.py:26 | the cleaning removes exactly the unwanted symbols from the non-space content |
| Normalize.CollapseContent | simple_normalization.py:27 | collapsing leaves the non-space content unchanged |
| Normalize.StripContent | simple_normalization.py:28 | stripping leaves the non-space content unchanged |
| Normalize.NormalizeContent | simple_normalization.py:23-28 | apart from whitespace, the result is exactly the lower-cased input with the unwanted symbols removed, in order |
| Normalize.StripAround | simple_normalization.py:28 | stripping whitespace from around a string without edge whitespace gives that string back |
| Normalize.CollapsePadTidy | simple_normalization.py:25-27 | padding and collapsing a tidy string whose marks stand apart gives it back, with one space added next to a mark at either end |
| Normalize.NormalizeIdempotent | simple_normalization.py:23-28 | normalising twice gives the same result as normalising once |
| Normalize.CommaIsolated | simple_normalization.py:23-28 | `"Bu,"` normalises to `"bu ,"` |
| Corpus.LastIndex | simple_normalization.py:35 | the last header position below n holding the key, or -1 if there is none |
| Corpus.RowDict | simple_normalization.py:40 | the row dict has exactly the header names as keys; each maps to the field at its last header position, or `None` past the record's end |
| Corpus.NormalizeRow | simple_normalization.py:40-43 | a written row has one field per header name; a failing row fails with the `KeyError`, `AttributeError` or `ValueError` message, and with the `KeyError` one when the header has no `text` |
| Corpus.NormalizeCorpus | simple_normalization.py:31-43 | with no record, `writeheader` fails and nothing is written; otherwise the header is written first |
| Corpus.RowOkIff | simple_normalization.py:40-43 | a row is written exactly when the header names `text`, the record reaches its last `text` position, and the record is not longer than the header |
| Corpus.RowFields | simple_normalization.py:40-43 | a written row has one field per header name: the normalised text under `text`, and elsewhere the value of the name's last position |
| Corpus.LastIndexDistinct | simple_normalization.py:35 | with distinct names, each name's last position is its only position |
| Corpus.OnlyTextChanges | simple_normalization.py:40-43 | with distinct names and a complete record, the row is written with `text` normalised and every other field unchanged |
| Corpus.NonBlank | simple_normalization.py:40 | the records the reader yields are non-empty |
| Corpus.Rows | simple_normalization.py:40-43 | no more rows are written than there are records, and the loop ends without an exception exactly when every non-empty record goes through |
| Corpus.RowsWritten | simple_normalization.py:40-43 | the rows written are the rewritten rows in order, up to the first failing row; the error is that row's, and nothing after it is written |
| Corpus.CorpusSucceedsIff | simple_normalization.py:31-43 | the run has no exception exactly when there is a header and every non-empty record goes through; it then writes the header and one row per record |
| EafExport.Record | eaf_to_csv.py:33-39 | each record has the header's five fields, the audio name first and the dialect tag last |
| EafExport.ExtractTranscriptions | eaf_to_csv.py:26-28 | the header is the first record |
| EafExport.ExportedOf | eaf_to_csv.py:32 | the filtered annotations are all exported |
| EafExport.TierRecords | eaf_to_csv.py:31-39 | the inner loop writes at most one record per annotation, exactly one when all are exported, each of five fields with the audio name first and the tag last |
| EafExport.TiersRecords | eaf_to_csv.py:30-39 | every record of the nested loops has five fields, the audio name first and the tag last |
| EafExport.ExportedAppend | eaf_to_csv.py:30-32 | filtering distributes over concatenation |
| EafExport.TierIsFilterMap | eaf_to_csv.py:31-39 | the inner loop writes one record per exported annotation of the tier, in order |
| EafExport.TiersAreFilterMap | eaf_to_csv.py:30-39 | the nested loops write one record per exported annotation, tier after tier, and nothing else |
| EafExport.ExportedIffNotBlank | eaf_to_csv.py:32 | an annotation is left out exactly when its text is all whitespace |
| EafExport.RecordFields | eaf_to_csv.py:33-39 | a record has the given audio name and tag, the stripped non-empty text without edge whitespace, and times that read back as the annotation's milliseconds |
| EafExport.ExtractedRecords | eaf_to_csv.py:23-39 | the file is the header and then one record per exported annotation, in tier order |
| EafExport.TimesExample | eaf_to_csv.py:35-36 | 1500 ms and 2000 ms are written as `1.5` and `2.0` |

## Left out

- Audio decoding, resampling, the detector and file writing are parameters or returned records. librosa, soundfile, pyannote and pympi are not part of this model.
- `check_dependencies` and the command-line entry points of the scripts are not modelled. They hold no logic about the data.
- The ELAN reader (`pympi.Elan.Eaf`, `get_tier_names`, `get_annotation_data_for_tier`) is not part of this model. Its tier order, reference tiers and missing time slots are out of scope; the tiers arrive as annotation lists.
- CSV parsing and quoting are out of scope: records arrive split into fields, and records are returned as fields.
- `os.makedirs` is not modelled. Write failures, and an `sf.write` that raises, are not modelled: writing always succeeds in the model.
- Name collisions between inputs of different directories that share a filename are not modelled: both outputs appear in the returned records.
- Concurrency and filesystem changes during the walk are out of scope.
- Chunker.Config: durations are whole seconds and the sample rate is a natural number. `len(chunk) / sample_rate >= min_duration` is modelled exactly, as `len(chunk) >= sample_rate * min_duration`. With a rate of 0 the model reports `division by zero` after the resample in pre-process.py and after the load in vad_pyannote.py; a `librosa.resample` or a `librosa.load(..., sr=0)` that raises first, with its own message, is not modelled.
- Chunker.Normalised: the resampler is a total function, so a `librosa.resample` that raises (caught at pre-process.py:89-90) is not modelled: in the model no file fails while resampling.
- Chunker.SplitWithoutAdvanceHangs: the files a stuck loop writes are not part of the `before` summary of the `Hangs` outcome, since they never stop; they are given pass by pass by `Chunker.StuckWrite` on the loop the outcome carries.
- The closing `print` of `normalize_corpus` and of `extract_transcriptions` is not modelled. Those functions return only the records they write.
- Vad.Turn: detector times arrive already truncated to samples (`int(t * sample_rate)`) and rounded to whole milliseconds. The minimum duration is whole milliseconds (500 for 0.5 s). Floating-point rounding of these products is not modelled.
- Digits.Fixed3: `.3f` is exact for whole milliseconds. The rounding of non-integral millisecond values is not modelled.
- Digits.SecondsRepr: the `repr` of `ms / 1000.0` is taken to be the exact decimal. That holds while doubles are less than a millisecond apart, below 2^43 seconds (about 8.8e12 s); beyond that `repr` may print a shorter or a different decimal, and from 1e16 seconds it switches to exponent notation. Neither is modelled.
- Text.IsWord, Text.IsUpper and Text.Lower: the character classes are exact for U+0000 to U+00FF. Above that, every character counts as a word character that lower-casing leaves alone. Python's full Unicode tables and multi-character lower-case forms are not modelled.
- Text.IsSpace: whitespace is exact for U+0000 to U+00FF. Unicode whitespace above U+00FF is not modelled.
- Corpus.NormalizeRow: the `KeyError`, `AttributeError`, `ValueError` and `TypeError` messages are the Python messages for a `text` column. Other exceptions, such as a decoding error, are not modelled.
