/** `process_wav_files` of pre-process.py: walk the input tree, keep `.wav` files, skip
    the excluded speakers, load and resample each remaining file, and write it either
    whole or as fixed-length overlapping chunks. Decoding, resampling and writing are
    parameters or returned records; the directory walk is a sequence of
    (directory, filename) pairs in the order `os.walk` yields them. */
module Chunker {
  import opened Results
  import opened Text
  import opened Digits
  import opened Paths
  import opened Arith

  /** The keyword parameters of `process_wav_files`, in seconds and hertz. */
  datatype Config = Config(minDuration: nat, maxDuration: nat, sampleRate: nat)

  const Defaults: Config := Config(10, 20, 16000)

  /** The sample counts the window loop works with. */
  datatype Windowing = Windowing(size: nat, overlap: nat, minLen: nat, rate: nat)

  /** `chunk_size = sample_rate * max_duration`; the overlap is `sample_rate * 2`,
      hard-coded whatever the durations are; a window is written when it holds at
      least `sample_rate * min_duration` samples. */
  function WindowingOf(cfg: Config): (w: Windowing)
    ensures w.rate == cfg.sampleRate
    ensures w.size == cfg.maxDuration * w.rate && w.minLen == cfg.minDuration * w.rate
    ensures w.overlap == 2 * w.rate
  {
    Windowing(cfg.sampleRate * cfg.maxDuration, cfg.sampleRate * 2,
              cfg.sampleRate * cfg.minDuration, cfg.sampleRate)
  }

  /** The window start moves forward (and so the loop ends) only when a window is
      longer than the overlap. */
  predicate Advances(w: Windowing) { w.size > w.overlap }

  function Step(w: Windowing): (step: nat)
    requires Advances(w)
    ensures step > 0
  {
    w.size - w.overlap
  }

  /** `len(chunk) / sample_rate >= min_duration` for a full window. */
  predicate LongEnough(w: Windowing) { w.size >= w.minLen }

  /** One `(root, filename)` pair produced by the directory walk. */
  datatype Entry = Entry(root: string, name: string)

  function InputPath(e: Entry): string { PathJoin(e.root, e.name) }

  /** What `librosa.load(path, sr=None, mono=True)` returns. */
  datatype Decoded<S> = Decoded(samples: seq<S>, rate: nat)

  /** One `sf.write(path, samples, rate)` call. */
  datatype OutFile<S> = OutFile(path: string, samples: seq<S>, rate: nat)

  /** `'Emilie_K' in filename or 'Fabiano' in filename`: case-sensitive, on the bare
      filename. */
  predicate IsExcludedName(name: string)
  {
    Contains(name, "Emilie_K") || Contains(name, "Fabiano")
  }

  /** Output name of a file kept whole. */
  function WholeName(stem: string): string { stem + ".wav" }

  /** Output name of the `k`-th written chunk. */
  function ChunkName(stem: string, k: nat): string { stem + "_chunk" + NatToString(k) + ".wav" }

  /** The buffer after the conditional resample: untouched when the source rate is
      already the target rate. */
  function Normalised<S>(d: Decoded<S>, target: nat, resample: (seq<S>, nat, nat) -> seq<S>): (a: seq<S>)
    ensures d.rate == target ==> a == d.samples
  {
    if d.rate != target then resample(d.samples, d.rate, target) else d.samples
  }

  function WalkMeasure(n: nat, start: nat): nat { if start <= n then n - start + 1 else 0 }

  /** The file written for the window starting at `at`, with chunk number `k`. */
  function ChunkFile<S>(w: Windowing, outDir: string, stem: string, audio: seq<S>, at: nat, k: nat): OutFile<S>
    requires at + w.size <= |audio|
  {
    OutFile(PathJoin(outDir, ChunkName(stem, k)), audio[at..at + w.size], w.rate)
  }

  /** The `while start + chunk_size <= len(audio)` loop, from window start `start` with
      chunk counter `num`: each full window is written when long enough (which also
      bumps the counter), then the start moves to `end - overlap`. */
  function ChunkWalk<S>(w: Windowing, outDir: string, stem: string, audio: seq<S>, start: nat, num: nat): (out: seq<OutFile<S>>)
    requires Advances(w)
    ensures forall i :: 0 <= i < |out| ==> |out[i].samples| == w.size && out[i].rate == w.rate
    decreases WalkMeasure(|audio|, start)
  {
    if start + w.size <= |audio| then
      var end := start + w.size;
      var chunk := audio[start..end];
      if |chunk| >= w.minLen then
        [OutFile(PathJoin(outDir, ChunkName(stem, num)), chunk, w.rate)]
        + ChunkWalk(w, outDir, stem, audio, end - w.overlap, num + 1)
      else
        ChunkWalk(w, outDir, stem, audio, end - w.overlap, num)
    else []
  }

  /** Number of full windows of `size` samples, `step` apart, that fit in `n` samples. */
  function WindowCount(n: nat, size: nat, step: nat): nat
    requires step > 0
  {
    if size <= n then (n - size) / step + 1 else 0
  }

  /** A window loop that never ends, with what it works on: the windowing, the output
      directory, the stem of the file's name and the resampled buffer. */
  datatype Stuck<S> = Stuck(w: Windowing, outDir: string, stem: string, audio: seq<S>)

  /** The outcome of one file inside the `try` block. */
  datatype FileOutcome<S> = Written(files: seq<OutFile<S>>) | Failed(msg: string) | Diverges(loop: Stuck<S>)

  /** What `str(e)` gives for the `ZeroDivisionError` of an `int / int` by zero. */
  const DivisionByZero := "division by zero"

  /** One non-excluded `.wav` file: load, resample, compute the duration (which divides
      by `sample_rate`), then keep whole or split. */
  function ProcessFile<S>(cfg: Config, outDir: string, name: string, d: Result<Decoded<S>>,
                          resample: (seq<S>, nat, nat) -> seq<S>): (r: FileOutcome<S>)
    ensures r.Failed? <==> d.Err? || cfg.sampleRate == 0
    ensures d.Err? ==> r == Failed(d.msg)
    ensures d.Ok? && cfg.sampleRate == 0 ==> r == Failed(DivisionByZero)
    ensures r.Diverges? <==>
              && d.Ok? && cfg.sampleRate > 0 && !Advances(WindowingOf(cfg))
              && |Normalised(d.value, cfg.sampleRate, resample)| > WindowingOf(cfg).size
    ensures r.Diverges? ==>
              r.loop == Stuck(WindowingOf(cfg), outDir, Stem(name), Normalised(d.value, cfg.sampleRate, resample))
    ensures r.Written? ==>
              forall i :: 0 <= i < |r.files| ==>
                r.files[i].rate == cfg.sampleRate && |r.files[i].samples| <= WindowingOf(cfg).size
  {
    match d
    case Err(m) => Failed(m)
    case Ok(dec) =>
      var audio := Normalised(dec, cfg.sampleRate, resample);
      var stem := Stem(name);
      var w := WindowingOf(cfg);
      if cfg.sampleRate == 0 then Failed(DivisionByZero)
      else if |audio| <= w.size then
        Written([OutFile(PathJoin(outDir, WholeName(stem)), audio, cfg.sampleRate)])
      else if !Advances(w) then Diverges(Stuck(w, outDir, stem, audio))
      else Written(ChunkWalk(w, outDir, stem, audio, 0, 0))
  }

  /** Everything the batch does that can be observed: files written, the two counters,
      the paths handed to the loader, and the lines printed. */
  datatype Summary<S> = Summary(written: seq<OutFile<S>>, processed: nat, excluded: nat,
                                loaded: seq<string>, log: seq<string>)

  /** A run either finishes or is stuck for ever in the window loop of one file:
      `before` is everything observable up to the moment that loop starts (the stuck
      file's own load included), and the loop then writes, pass after pass, the files
      `StuckWrite(loop, 0)`, `StuckWrite(loop, 1)`, ... */
  datatype Run<S> = Finished(summary: Summary<S>) | Hangs(before: Summary<S>, stuckOn: string, loop: Stuck<S>)

  function Merge<S>(a: Summary<S>, b: Summary<S>): Summary<S>
  {
    Summary(a.written + b.written, a.processed + b.processed, a.excluded + b.excluded,
            a.loaded + b.loaded, a.log + b.log)
  }

  function Nothing<S>(): Summary<S> { Summary([], 0, 0, [], []) }

  function ErrorLine(name: string, msg: string): string
  {
    "Erreur lors du traitement de " + name + " : " + msg
  }

  /** The body of `for filename in files` for one entry. */
  function VisitEntry<S>(cfg: Config, outDir: string, e: Entry, load: string -> Result<Decoded<S>>,
                         resample: (seq<S>, nat, nat) -> seq<S>): (r: Run<S>)
    ensures r.Finished? ==> Accounted(e, r.summary)
    ensures r.Hangs? <==> IsCandidate(e) && ProcessFile(cfg, outDir, e.name, load(InputPath(e)), resample).Diverges?
    ensures r.Hangs? ==> r.stuckOn == e.name && r.before == Summary([], 0, 0, [InputPath(e)], [])
  {
    if !IsWavName(e.name) then Finished(Nothing())
    else if IsExcludedName(e.name) then Finished(Summary([], 0, 1, [], []))
    else
      var path := InputPath(e);
      match ProcessFile(cfg, outDir, e.name, load(path), resample)
      case Failed(m) => Finished(Summary([], 0, 0, [path], [ErrorLine(e.name, m)]))
      case Written(fs) => Finished(Summary(fs, |fs|, 0, [path], []))
      case Diverges(l) => Hangs(Summary([], 0, 0, [path], []), e.name, l)
  }

  /** The per-entry step with the configuration and collaborators fixed. */
  function Visitor<S>(cfg: Config, outDir: string, load: string -> Result<Decoded<S>>,
                      resample: (seq<S>, nat, nat) -> seq<S>): Entry -> Run<S>
  {
    e => VisitEntry(cfg, outDir, e, load, resample)
  }

  /** The walk over all entries, in order: outcomes are merged, and a hang stops
      everything after it. */
  function Walk<S>(visit: Entry -> Run<S>, entries: seq<Entry>): (r: Run<S>)
    ensures r.Finished? <==> forall i :: 0 <= i < |entries| ==> visit(entries[i]).Finished?
    ensures r.Hangs? ==>
              exists i :: && 0 <= i < |entries| && visit(entries[i]).Hangs?
                          && visit(entries[i]).stuckOn == r.stuckOn && visit(entries[i]).loop == r.loop
    decreases |entries|
  {
    if entries == [] then Finished(Nothing())
    else
      match visit(entries[0])
      case Hangs(b, n, l) => Hangs(b, n, l)
      case Finished(first) =>
        match Walk(visit, entries[1..])
        case Finished(rest) => Finished(Merge(first, rest))
        case Hangs(b, n, l) => Hangs(Merge(first, b), n, l)
  }

  /** The two nested loops of `process_wav_files` over the walk. */
  function RunBatch<S>(cfg: Config, outDir: string, entries: seq<Entry>, load: string -> Result<Decoded<S>>,
                       resample: (seq<S>, nat, nat) -> seq<S>): (r: Run<S>)
    ensures r.Finished? <==>
              forall i :: 0 <= i < |entries| && IsCandidate(entries[i]) ==>
                !ProcessFile(cfg, outDir, entries[i].name, load(InputPath(entries[i])), resample).Diverges?
    ensures r.Hangs? ==> exists i :: 0 <= i < |entries| && IsCandidate(entries[i]) && entries[i].name == r.stuckOn
  {
    Walk(Visitor(cfg, outDir, load, resample), entries)
  }

  function SummaryLine(processed: nat, excluded: nat): string
  {
    "Traitement terminé. " + NatToString(processed) + " fichiers traités, "
    + NatToString(excluded) + " fichiers exclus."
  }

  /** `process_wav_files`: the batch followed by the closing summary line. */
  function ProcessWavFiles<S>(cfg: Config, outDir: string, entries: seq<Entry>, load: string -> Result<Decoded<S>>,
                              resample: (seq<S>, nat, nat) -> seq<S>): (r: Run<S>)
    ensures r.Finished? <==> RunBatch(cfg, outDir, entries, load, resample).Finished?
    ensures r.Finished? ==>
              var s := r.summary;
              && s.loaded == CandidatePaths(entries)
              && s.excluded == ExcludedCount(entries)
              && s.processed == |s.written|
              && |s.log| >= 1 && s.log[|s.log| - 1] == SummaryLine(|s.written|, ExcludedCount(entries))
  {
    match RunBatch(cfg, outDir, entries, load, resample)
    case Finished(s) =>
      BatchAccounting(cfg, outDir, entries, load, resample);
      Finished(s.(log := s.log + [SummaryLine(s.processed, s.excluded)]))
    case Hangs(b, n, l) => Hangs(b, n, l)
  }

  // ---------------------------------------------------------------------------
  // The window walk

  /** Full windows left from window start `start`. */
  function WindowsFrom(n: nat, size: nat, step: nat, start: nat): nat
    requires step > 0
  {
    if start + size <= n then (n - start - size) / step + 1 else 0
  }

  lemma WindowCountFromZero(n: nat, size: nat, step: nat)
    requires step > 0
    ensures WindowCount(n, size, step) == WindowsFrom(n, size, step, 0)
  {
  }

  lemma WindowsFromStep(n: nat, size: nat, step: nat, start: nat)
    requires step > 0 && start + size <= n
    ensures WindowsFrom(n, size, step, start) == WindowsFrom(n, size, step, start + step) + 1
  {
    var x := n - start - size;
    if x >= step {
      var q, r := (x - step) / step, (x - step) % step;
      assert x == (q + 1) * step + r;
      DivByParts(x, step, q + 1, r);
    } else {
      DivByParts(x, step, 0, x);
    }
  }

  /** A walk whose windows are too short for `min_duration` writes nothing. */
  lemma {:induction false} ChunkWalkTooShort<S>(w: Windowing, outDir: string, stem: string, audio: seq<S>, start: nat, num: nat)
    requires Advances(w) && !LongEnough(w)
    ensures ChunkWalk(w, outDir, stem, audio, start, num) == []
    decreases WalkMeasure(|audio|, start)
  {
    if start + w.size <= |audio| {
      ChunkWalkTooShort(w, outDir, stem, audio, start + w.size - w.overlap, num);
    }
  }

  /** The walk from `start` with counter `num`, when windows are long enough, writes
      one file per remaining full window, the `k`-th being the window at
      `start + k*step` (the `k`-th point of the progression) numbered `num + k`. */
  lemma {:induction false} ChunkWalkClosedForm<S>(w: Windowing, outDir: string, stem: string, audio: seq<S>, start: nat, num: nat)
    requires Advances(w) && LongEnough(w)
    ensures var out := ChunkWalk(w, outDir, stem, audio, start, num);
            && |out| == WindowsFrom(|audio|, w.size, Step(w), start)
            && forall k :: 0 <= k < |out| ==>
                 && Progression(start, Step(w), k) + w.size <= |audio|
                 && out[k] == ChunkFile(w, outDir, stem, audio, Progression(start, Step(w), k), num + k)
    decreases WalkMeasure(|audio|, start)
  {
    hide PathJoin, ChunkName;
    var step := Step(w);
    var out := ChunkWalk(w, outDir, stem, audio, start, num);
    if start + w.size <= |audio| {
      var next := start + step;
      WindowsFromStep(|audio|, w.size, step, start);
      ChunkWalkClosedForm(w, outDir, stem, audio, next, num + 1);
      var rest := ChunkWalk(w, outDir, stem, audio, next, num + 1);
      assert out == [ChunkFile(w, outDir, stem, audio, start, num)] + rest;
      forall k | 0 <= k < |out|
        ensures Progression(start, step, k) + w.size <= |audio|
        ensures out[k] == ChunkFile(w, outDir, stem, audio, Progression(start, step, k), num + k)
      {
        if k > 0 {
          assert out[k] == rest[k - 1];
          ProgressionShift(start, step, k);
        }
      }
    }
  }

  /** With `C > O`, a buffer longer than one window gets at least one window, the last
      window fits, and what is dropped after it is shorter than the advance `C - O`. */
  lemma WindowsCoverAllButTail(n: nat, size: nat, step: nat)
    requires step > 0 && n > size
    ensures var c := WindowCount(n, size, step);
            && c >= 1
            && (c - 1) * step + size <= n
            && n - ((c - 1) * step + size) < step
  {
    var q, r := (n - size) / step, (n - size) % step;
    assert n - size == q * step + r;
  }

  /** `len(chunk) / sample_rate >= min_duration` holds of every full window exactly
      when `min_duration <= max_duration`. */
  lemma LongEnoughIff(cfg: Config)
    requires cfg.sampleRate > 0
    ensures LongEnough(WindowingOf(cfg)) <==> cfg.minDuration <= cfg.maxDuration
  {
    ScaleMonotone(cfg.sampleRate, cfg.minDuration, cfg.maxDuration);
  }

  /** The walk advances, and so terminates, exactly when `max_duration` exceeds the
      hard-coded two-second overlap. */
  lemma AdvancesIff(cfg: Config)
    requires cfg.sampleRate > 0
    ensures Advances(WindowingOf(cfg)) <==> cfg.maxDuration > 2
  {
    ScaleMonotone(cfg.sampleRate, cfg.maxDuration, 2);
  }

  // ---------------------------------------------------------------------------
  // One file

  /** A buffer of at most `sample_rate * max_duration` samples is written whole, once,
      as `<stem>.wav`, and is the loaded buffer itself when no resampling was due. */
  lemma WholeFile<S>(cfg: Config, outDir: string, name: string, dec: Decoded<S>,
                     resample: (seq<S>, nat, nat) -> seq<S>)
    requires cfg.sampleRate > 0
    requires |Normalised(dec, cfg.sampleRate, resample)| <= WindowingOf(cfg).size
    ensures var out := ProcessFile(cfg, outDir, name, Ok(dec), resample);
            && out.Written? && |out.files| == 1
            && out.files[0].path == PathJoin(outDir, Stem(name) + ".wav")
            && out.files[0].rate == cfg.sampleRate
            && (dec.rate == cfg.sampleRate ==> out.files[0].samples == dec.samples)
            && (dec.rate != cfg.sampleRate ==>
                  out.files[0].samples == resample(dec.samples, dec.rate, cfg.sampleRate))
  {
  }

  /** With `sample_rate == 0` the duration computation raises for every loaded file,
      before anything is written. */
  lemma ZeroRateFails<S>(cfg: Config, outDir: string, e: Entry, load: string -> Result<Decoded<S>>,
                         resample: (seq<S>, nat, nat) -> seq<S>)
    requires cfg.sampleRate == 0 && IsCandidate(e)
    ensures var msg := if load(InputPath(e)).Err? then load(InputPath(e)).msg else DivisionByZero;
            VisitEntry(cfg, outDir, e, load, resample)
            == Finished(Summary([], 0, 0, [InputPath(e)], [ErrorLine(e.name, msg)]))
  {
  }

  // ---------------------------------------------------------------------------
  // The window loop when it does not advance

  /** `start` after `k` passes of the loop body, as a Python int: each pass sets it to
      `start + C - O`, so it never grows when `C <= O` and goes negative when `C < O`. */
  function StartAfter(w: Windowing, k: nat): int
  {
    if k == 0 then 0 else StartAfter(w, k - 1) + w.size - w.overlap
  }

  /** A NumPy slice bound resolved against an array of length `n`: a negative bound
      counts from the end, and a bound out of range is clamped to `0..n`. */
  function SliceBound(i: int, n: nat): (j: nat)
    ensures j <= n
    ensures 0 <= i <= n ==> j == i
    ensures i < 0 && i + n >= 0 ==> j == i + n
    ensures i + n < 0 ==> j == 0
  {
    if i < 0 then (if i + n < 0 then 0 else i + n) else if i > n then n else i
  }

  /** `audio[a:b]` on a NumPy array. */
  function PySlice<S>(s: seq<S>, a: int, b: int): (r: seq<S>)
    ensures 0 <= a <= b <= |s| ==> r == s[a..b]
    ensures |r| <= |s|
  {
    var i, j := SliceBound(a, |s|), SliceBound(b, |s|);
    if i < j then s[i..j] else []
  }

  /** The `chunk` of pass `k` of a stuck loop. */
  function PassChunk<S>(st: Stuck<S>, k: nat): seq<S>
  {
    PySlice(st.audio, StartAfter(st.w, k), StartAfter(st.w, k) + st.w.size)
  }

  /** The chunk counter at the start of pass `k`: the passes before it that wrote. */
  function ChunksBefore<S>(st: Stuck<S>, k: nat): nat
  {
    if k == 0 then 0
    else ChunksBefore(st, k - 1) + (if |PassChunk(st, k - 1)| >= st.w.minLen then 1 else 0)
  }

  /** The `sf.write` of pass `k`, if its chunk is long enough. */
  function StuckWrite<S>(st: Stuck<S>, k: nat): (r: Option<OutFile<S>>)
    ensures r.Some? <==> |PassChunk(st, k)| >= st.w.minLen
    ensures r.Some? ==> st.w.minLen <= |r.value.samples| <= |st.audio| && r.value.rate == st.w.rate
    ensures r.Some? ==> r.value.path == PathJoin(st.outDir, ChunkName(st.stem, ChunksBefore(st, k)))
    ensures ChunksBefore(st, k + 1) == ChunksBefore(st, k) + (if r.Some? then 1 else 0)
  {
    var chunk := PassChunk(st, k);
    if |chunk| >= st.w.minLen then
      Some(OutFile(PathJoin(st.outDir, ChunkName(st.stem, ChunksBefore(st, k))), chunk, st.w.rate))
    else None
  }

  /** With `C <= O` the start never grows past 0, so the loop test
      `start + chunk_size <= len(audio)` holds on every pass once it held on the first. */
  lemma {:induction false} LoopNeverExits(w: Windowing, n: nat, k: nat)
    requires !Advances(w) && w.size <= n
    ensures StartAfter(w, k) <= 0 && StartAfter(w, k) + w.size <= n
  {
    if k > 0 {
      LoopNeverExits(w, n, k - 1);
    }
  }

  /** A longer buffer with `C <= O` enters the window loop and never leaves it: the
      file's outcome is a loop on its own windowing, stem and buffer, whose test holds on
      every pass. */
  lemma SplitWithoutAdvanceHangs<S>(cfg: Config, outDir: string, name: string, dec: Decoded<S>,
                                    resample: (seq<S>, nat, nat) -> seq<S>)
    requires cfg.sampleRate > 0
    requires |Normalised(dec, cfg.sampleRate, resample)| > WindowingOf(cfg).size
    requires !Advances(WindowingOf(cfg))
    ensures var w, audio := WindowingOf(cfg), Normalised(dec, cfg.sampleRate, resample);
            && ProcessFile(cfg, outDir, name, Ok(dec), resample) == Diverges(Stuck(w, outDir, Stem(name), audio))
            && forall k: nat :: StartAfter(w, k) + w.size <= |audio|
  {
    var w, audio := WindowingOf(cfg), Normalised(dec, cfg.sampleRate, resample);
    forall k: nat ensures StartAfter(w, k) + w.size <= |audio| {
      LoopNeverExits(w, |audio|, k);
    }
  }

  /** The first pass of a stuck loop writes `<stem>_chunk0.wav` with the first `C`
      samples when `min_duration <= max_duration`. */
  lemma StuckFirstWrite<S>(st: Stuck<S>)
    requires LongEnough(st.w) && st.w.size <= |st.audio|
    ensures StuckWrite(st, 0) == Some(OutFile(PathJoin(st.outDir, ChunkName(st.stem, 0)), st.audio[..st.w.size], st.w.rate))
  {
  }

  lemma {:induction false} StuckInPlace<S>(st: Stuck<S>, k: nat)
    requires st.w.size == st.w.overlap && LongEnough(st.w) && st.w.size <= |st.audio|
    ensures StartAfter(st.w, k) == 0 && ChunksBefore(st, k) == k
  {
    if k > 0 {
      StuckInPlace(st, k - 1);
    }
  }

  /** With `C == O` (and `min_duration <= max_duration`) every pass writes the same first
      window again, under the next chunk number. */
  lemma StuckRepeats<S>(st: Stuck<S>, k: nat)
    requires st.w.size == st.w.overlap && LongEnough(st.w) && st.w.size <= |st.audio|
    ensures StuckWrite(st, k) == Some(OutFile(PathJoin(st.outDir, ChunkName(st.stem, k)), st.audio[..st.w.size], st.w.rate))
  {
    StuckInPlace(st, k);
  }

  lemma {:induction false} StartFalls(w: Windowing, k: nat)
    requires w.size < w.overlap && k >= 1
    ensures StartAfter(w, k) <= (w.size - w.overlap) as int
  {
    if k > 1 {
      StartFalls(w, k - 1);
    }
  }

  /** With `C < O` the start is negative from the second pass on, and NumPy reads a
      window whose bounds are both negative counting from the end of the buffer. */
  lemma StuckCountsFromEnd<S>(st: Stuck<S>, k: nat)
    requires st.w.size < st.w.overlap && k >= 1
    ensures StartAfter(st.w, k) < 0
    ensures var a, n := StartAfter(st.w, k), |st.audio|;
            a + n >= 0 && a + st.w.size < 0 ==> PassChunk(st, k) == st.audio[n + a..n + a + st.w.size]
  {
    StartFalls(st.w, k);
  }

  /** The files a longer buffer yields when `C > O`: the walk from the first window. */
  function SplitOutput<S>(cfg: Config, outDir: string, name: string, dec: Decoded<S>,
                          resample: (seq<S>, nat, nat) -> seq<S>): seq<OutFile<S>>
    requires Advances(WindowingOf(cfg))
  {
    ChunkWalk(WindowingOf(cfg), outDir, Stem(name), Normalised(dec, cfg.sampleRate, resample), 0, 0)
  }

  lemma SplitIsWalk<S>(cfg: Config, outDir: string, name: string, dec: Decoded<S>,
                       resample: (seq<S>, nat, nat) -> seq<S>)
    requires cfg.sampleRate > 0
    requires Advances(WindowingOf(cfg))
    requires |Normalised(dec, cfg.sampleRate, resample)| > WindowingOf(cfg).size
    ensures ProcessFile(cfg, outDir, name, Ok(dec), resample)
            == Written(SplitOutput(cfg, outDir, name, dec, resample))
  {
  }

  /** With `min_duration > max_duration` no window passes the minimum check. */
  lemma SplitTooShort<S>(cfg: Config, outDir: string, name: string, dec: Decoded<S>,
                         resample: (seq<S>, nat, nat) -> seq<S>)
    requires cfg.sampleRate > 0 && cfg.minDuration > cfg.maxDuration
    requires Advances(WindowingOf(cfg))
    ensures SplitOutput(cfg, outDir, name, dec, resample) == []
  {
    LongEnoughIff(cfg);
    ChunkWalkTooShort(WindowingOf(cfg), outDir, Stem(name), Normalised(dec, cfg.sampleRate, resample), 0, 0);
  }

  /** With `min_duration <= max_duration` every full window is written: there are
      `(n - C) / (C - O) + 1 >= 1` of them, the last one fits, and the samples after
      it number fewer than `C - O`. */
  lemma SplitCount<S>(cfg: Config, outDir: string, name: string, dec: Decoded<S>,
                      resample: (seq<S>, nat, nat) -> seq<S>)
    requires cfg.sampleRate > 0 && cfg.minDuration <= cfg.maxDuration
    requires Advances(WindowingOf(cfg))
    requires |Normalised(dec, cfg.sampleRate, resample)| > WindowingOf(cfg).size
    ensures var w, n := WindowingOf(cfg), |Normalised(dec, cfg.sampleRate, resample)|;
            var c := |SplitOutput(cfg, outDir, name, dec, resample)|;
            && c == (n - w.size) / Step(w) + 1
            && c >= 1
            && (c - 1) * Step(w) + w.size <= n
            && n - ((c - 1) * Step(w) + w.size) < Step(w)
  {
    var w, audio := WindowingOf(cfg), Normalised(dec, cfg.sampleRate, resample);
    LongEnoughIff(cfg);
    ChunkWalkClosedForm(w, outDir, Stem(name), audio, 0, 0);
    WindowsCoverAllButTail(|audio|, w.size, Step(w));
  }

  /** The `k`-th file of a walk from the first window, with the start multiplied out. */
  lemma WalkChunk<S>(w: Windowing, outDir: string, stem: string, audio: seq<S>, k: nat)
    requires Advances(w) && LongEnough(w)
    requires k < |ChunkWalk(w, outDir, stem, audio, 0, 0)|
    ensures k * Step(w) + w.size <= |audio|
    ensures ChunkWalk(w, outDir, stem, audio, 0, 0)[k] == ChunkFile(w, outDir, stem, audio, k * Step(w), k)
  {
    ChunkWalkClosedForm(w, outDir, stem, audio, 0, 0);
    ProgressionIs(0, Step(w), k);
  }

  /** With `min_duration <= max_duration` the `k`-th file is the `C` samples starting
      at `k * (C - O)`, named `<stem>_chunk<k>.wav`, at the target rate. */
  lemma SplitChunk<S>(cfg: Config, outDir: string, name: string, dec: Decoded<S>,
                      resample: (seq<S>, nat, nat) -> seq<S>, k: nat)
    requires cfg.sampleRate > 0 && cfg.minDuration <= cfg.maxDuration
    requires Advances(WindowingOf(cfg))
    requires k < |SplitOutput(cfg, outDir, name, dec, resample)|
    ensures var w, audio := WindowingOf(cfg), Normalised(dec, cfg.sampleRate, resample);
            var f := SplitOutput(cfg, outDir, name, dec, resample)[k];
            && k * Step(w) + w.size <= |audio|
            && f.path == PathJoin(outDir, Stem(name) + "_chunk" + NatToString(k) + ".wav")
            && f.samples == audio[k * Step(w)..k * Step(w) + w.size]
            && |f.samples| == w.size
            && f.rate == cfg.sampleRate
  {
    hide PathJoin, NatToString, Stem, Normalised, ChunkWalk;
    var w, audio := WindowingOf(cfg), Normalised(dec, cfg.sampleRate, resample);
    LongEnoughIff(cfg);
    WalkChunk(w, outDir, Stem(name), audio, k);

    var f := SplitOutput(cfg, outDir, name, dec, resample)[k];
    var at := k * Step(w);
    assert f == ChunkFile(w, outDir, Stem(name), audio, at, k);
    assert f.samples == audio[at..at + w.size];
    assert f.path == PathJoin(outDir, ChunkName(Stem(name), k));
  }

  /** Consecutive chunks share exactly the overlap: the last `O` samples of chunk `k`
      are the first `O` samples of chunk `k + 1`. */
  lemma ConsecutiveChunksOverlap<S>(cfg: Config, outDir: string, name: string, dec: Decoded<S>,
                                    resample: (seq<S>, nat, nat) -> seq<S>, k: nat)
    requires cfg.sampleRate > 0 && cfg.minDuration <= cfg.maxDuration
    requires Advances(WindowingOf(cfg))
    requires k + 1 < |SplitOutput(cfg, outDir, name, dec, resample)|
    ensures var w, files := WindowingOf(cfg), SplitOutput(cfg, outDir, name, dec, resample);
            |files[k].samples| == w.size && |files[k + 1].samples| == w.size
            && files[k].samples[Step(w)..] == files[k + 1].samples[..w.overlap]
  {
    hide PathJoin, NatToString, Stem, Normalised, ChunkWalk;
    var w, audio := WindowingOf(cfg), Normalised(dec, cfg.sampleRate, resample);
    SplitChunk(cfg, outDir, name, dec, resample, k);
    SplitChunk(cfg, outDir, name, dec, resample, k + 1);
    MulPred(k + 1, Step(w));
  }

  lemma ChunkNameInjective(stem: string, i: nat, j: nat)
    requires ChunkName(stem, i) == ChunkName(stem, j)
    ensures i == j
  {
    var a, b := ChunkName(stem, i), ChunkName(stem, j);
    var p := |stem| + 6;
    assert a[p..|a| - 4] == NatToString(i);
    assert b[p..|b| - 4] == NatToString(j);
    NatToStringInjective(i, j);
  }

  lemma JoinInjective(dir: string, x: string, y: string)
    requires NoSlash(x) && NoSlash(y) && PathJoin(dir, x) == PathJoin(dir, y)
    ensures x == y
  {
    BasenameOfJoin(dir, x);
    BasenameOfJoin(dir, y);
  }

  /** Chunk numbers never repeat within a file, so neither do the chunk paths. */
  lemma ChunkPathsDistinct(outDir: string, stem: string, i: nat, j: nat)
    requires NoSlash(stem) && i != j
    ensures PathJoin(outDir, ChunkName(stem, i)) != PathJoin(outDir, ChunkName(stem, j))
  {
    hide PathJoin;
    if PathJoin(outDir, ChunkName(stem, i)) == PathJoin(outDir, ChunkName(stem, j)) {
      JoinInjective(outDir, ChunkName(stem, i), ChunkName(stem, j));
      ChunkNameInjective(stem, i, j);
    }
  }

  // ---------------------------------------------------------------------------
  // The batch

  /** Entries that reach the loader: `.wav` names that are not excluded. */
  predicate IsCandidate(e: Entry) { IsWavName(e.name) && !IsExcludedName(e.name) }

  /** The input paths of the candidates, in walk order. */
  function CandidatePaths(entries: seq<Entry>): seq<string>
    decreases |entries|
  {
    if entries == [] then []
    else (if IsCandidate(entries[0]) then [InputPath(entries[0])] else [])
         + CandidatePaths(entries[1..])
  }

  /** `.wav` entries whose name holds an excluded speaker. */
  function ExcludedCount(entries: seq<Entry>): nat
    decreases |entries|
  {
    if entries == [] then 0
    else (if IsWavName(entries[0].name) && IsExcludedName(entries[0].name) then 1 else 0)
         + ExcludedCount(entries[1..])
  }

  /** What a finished entry may contribute: a loader call exactly for a candidate, one
      exclusion exactly for an excluded `.wav` name, one processed count per written
      file, and nothing at all for any other entry. */
  predicate Accounted<S>(e: Entry, x: Summary<S>)
  {
    && x.loaded == (if IsCandidate(e) then [InputPath(e)] else [])
    && x.excluded == (if IsWavName(e.name) && IsExcludedName(e.name) then 1 else 0)
    && x.processed == |x.written|
    && (!IsCandidate(e) ==> x.written == [] && x.log == [])
  }

  lemma {:induction false} WalkAccounting<S>(visit: Entry -> Run<S>, entries: seq<Entry>)
    requires forall e :: visit(e).Finished? ==> Accounted(e, visit(e).summary)
    requires Walk(visit, entries).Finished?
    ensures var s := Walk(visit, entries).summary;
            && s.loaded == CandidatePaths(entries)
            && s.excluded == ExcludedCount(entries)
            && s.processed == |s.written|
    decreases |entries|
  {
    if entries != [] {
      WalkAccounting(visit, entries[1..]);
    }
  }

  /** In a finished batch the loader saw exactly the candidates' paths, in order (so no
      non-`.wav` and no excluded file is ever loaded), `excluded_files` counts the
      excluded `.wav` names, and `processed_files` counts written files, not inputs. */
  lemma BatchAccounting<S>(cfg: Config, outDir: string, entries: seq<Entry>,
                           load: string -> Result<Decoded<S>>,
                           resample: (seq<S>, nat, nat) -> seq<S>)
    requires RunBatch(cfg, outDir, entries, load, resample).Finished?
    ensures var s := RunBatch(cfg, outDir, entries, load, resample).summary;
            && s.loaded == CandidatePaths(entries)
            && s.excluded == ExcludedCount(entries)
            && s.processed == |s.written|
  {
    WalkAccounting(Visitor(cfg, outDir, load, resample), entries);
  }

  lemma MergeAssoc<S>(a: Summary<S>, b: Summary<S>, c: Summary<S>)
    ensures Merge(a, Merge(b, c)) == Merge(Merge(a, b), c)
  {
    assert a.written + (b.written + c.written) == (a.written + b.written) + c.written;
    assert a.loaded + (b.loaded + c.loaded) == (a.loaded + b.loaded) + c.loaded;
    assert a.log + (b.log + c.log) == (a.log + b.log) + c.log;
  }

  lemma {:induction false} WalkAppend<S>(visit: Entry -> Run<S>, a: seq<Entry>, b: seq<Entry>)
    requires Walk(visit, a).Finished?
    ensures var x := Walk(visit, a).summary;
            match Walk(visit, b)
            case Finished(y) => Walk(visit, a + b) == Finished(Merge(x, y))
            case Hangs(h, n, l) => Walk(visit, a + b) == Hangs(Merge(x, h), n, l)
    decreases |a|
  {
    if a == [] {
      assert a + b == b;
      var x := Walk(visit, a).summary;
      assert x == Nothing();
      match Walk(visit, b)
      case Finished(y) => assert Merge(x, y) == y;
      case Hangs(h, n, l) => assert Merge(x, h) == h;
    } else {
      var ab := a + b;
      assert ab[0] == a[0];
      assert ab[1..] == a[1..] + b;
      var first := visit(a[0]).summary;
      var x' := Walk(visit, a[1..]).summary;
      WalkAppend(visit, a[1..], b);
      match Walk(visit, b)
      case Finished(y) => MergeAssoc(first, x', y);
      case Hangs(h, n, l) => MergeAssoc(first, x', h);
    }
  }

  /** The walk is compositional: running two stretches of the walk one after the other
      is running their concatenation, and a hang in the second one keeps what the first
      one did. */
  lemma BatchAppend<S>(cfg: Config, outDir: string, a: seq<Entry>, b: seq<Entry>,
                       load: string -> Result<Decoded<S>>,
                       resample: (seq<S>, nat, nat) -> seq<S>)
    requires RunBatch(cfg, outDir, a, load, resample).Finished?
    ensures var x := RunBatch(cfg, outDir, a, load, resample).summary;
            match RunBatch(cfg, outDir, b, load, resample)
            case Finished(y) => RunBatch(cfg, outDir, a + b, load, resample) == Finished(Merge(x, y))
            case Hangs(h, n, l) => RunBatch(cfg, outDir, a + b, load, resample) == Hangs(Merge(x, h), n, l)
  {
    WalkAppend(Visitor(cfg, outDir, load, resample), a, b);
  }

  /** A file the loader rejects is reported once and contributes nothing else. */
  lemma FailedFileReported<S>(cfg: Config, outDir: string, e: Entry, load: string -> Result<Decoded<S>>,
                              resample: (seq<S>, nat, nat) -> seq<S>)
    requires IsCandidate(e) && load(InputPath(e)).Err?
    ensures VisitEntry(cfg, outDir, e, load, resample)
            == Finished(Summary([], 0, 0, [InputPath(e)], [ErrorLine(e.name, load(InputPath(e)).msg)]))
  {
  }

  lemma WalkOne<S>(visit: Entry -> Run<S>, e: Entry)
    ensures visit(e).Finished? ==> Walk(visit, [e]) == visit(e)
  {
    assert [e][1..] == [];
    if visit(e).Finished? {
      assert Merge(visit(e).summary, Nothing()) == visit(e).summary;
    }
  }

  lemma WalkAround<S>(visit: Entry -> Run<S>, a: seq<Entry>, e: Entry, b: seq<Entry>, mid: Summary<S>)
    requires visit(e) == Finished(mid)
    requires Walk(visit, a).Finished? && Walk(visit, b).Finished?
    ensures Walk(visit, a + [e] + b)
            == Finished(Merge(Walk(visit, a).summary, Merge(mid, Walk(visit, b).summary)))
  {
    hide Walk;
    WalkOne(visit, e);
    WalkAppend(visit, [e], b);
    WalkAppend(visit, a, [e] + b);
    assert a + [e] + b == a + ([e] + b);
  }

  /** A failing file between two finished stretches of the walk costs only its own
      outputs: the files written are those of the other entries, and the walk goes on
      after it. */
  lemma FailureIsIsolated<S>(cfg: Config, outDir: string, a: seq<Entry>, e: Entry, b: seq<Entry>,
                             load: string -> Result<Decoded<S>>, resample: (seq<S>, nat, nat) -> seq<S>)
    requires IsCandidate(e) && load(InputPath(e)).Err?
    requires RunBatch(cfg, outDir, a, load, resample).Finished?
    requires RunBatch(cfg, outDir, b, load, resample).Finished?
    ensures var all := RunBatch(cfg, outDir, a + [e] + b, load, resample);
            var x, y := RunBatch(cfg, outDir, a, load, resample).summary, RunBatch(cfg, outDir, b, load, resample).summary;
            && all.Finished?
            && all.summary.written == x.written + y.written
            && all.summary.processed == x.processed + y.processed
            && all.summary.log == x.log + [ErrorLine(e.name, load(InputPath(e)).msg)] + y.log
  {
    hide VisitEntry, Walk, ErrorLine, InputPath, IsCandidate;
    var visit := Visitor(cfg, outDir, load, resample);
    var fail := Summary([], 0, 0, [InputPath(e)], [ErrorLine(e.name, load(InputPath(e)).msg)]);
    FailedFileReported(cfg, outDir, e, load, resample);
    assert visit(e) == Finished(fail);
    WalkAround(visit, a, e, b, fail);
    var x, y := Walk(visit, a).summary, Walk(visit, b).summary;
    assert x == RunBatch(cfg, outDir, a, load, resample).summary;
    assert y == RunBatch(cfg, outDir, b, load, resample).summary;
    var m := Merge(x, Merge(fail, y));
    assert RunBatch(cfg, outDir, a + [e] + b, load, resample) == Finished(m);
    var line := ErrorLine(e.name, load(InputPath(e)).msg);
    assert m.written == x.written + ([] + y.written);
    assert [] + y.written == y.written;
    assert m.log == x.log + ([line] + y.log);
  }
}

