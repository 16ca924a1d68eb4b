/** `apply_vad` of vad_pyannote.py: for every `.wav` file, run the voice-activity
    detector, turn each detected speech turn into clamped sample bounds, keep the turns
    long enough, write the concatenated speech and an RTTM file of the kept turns.
    The detector and the loader are parameters; each detected turn arrives with its
    sample bounds already truncated by `int(t * sample_rate)` and its start and end in
    whole milliseconds. */
module Vad {
  import opened Results
  import opened Text
  import opened Digits
  import opened Paths
  import Rttm
  import Arith

  /** One turn of `vad_result.get_timeline()`. */
  datatype Turn = Turn(startSample: int, endSample: int, startMs: nat, endMs: nat)

  /** `sample_rate` and `min_segment_duration` (the latter in milliseconds). */
  datatype VadConfig = VadConfig(sampleRate: nat, minSegmentMs: nat)

  const VadDefaults: VadConfig := VadConfig(16000, 500)

  /** `max(0, int(turn.start * sample_rate))`. */
  function ClampStart(t: Turn): (s: nat)
    ensures s >= t.startSample
  {
    if t.startSample < 0 then 0 else t.startSample
  }

  /** `min(len(audio), int(turn.end * sample_rate))`. */
  function ClampEnd(t: Turn, n: nat): (e: int)
    ensures e <= n && e <= t.endSample
  {
    if t.endSample < n then t.endSample else n
  }

  /** `(end - start) / sample_rate >= min_segment_duration`, with the threshold in
      milliseconds. */
  predicate Keeps(cfg: VadConfig, n: nat, t: Turn)
  {
    1000 * (ClampEnd(t, n) - ClampStart(t)) >= cfg.minSegmentMs * cfg.sampleRate
  }

  /** For a positive rate the integer test is the duration test itself: the clamped
      span in seconds against the threshold in seconds, in exact arithmetic. */
  lemma KeepsIsDurationTest(cfg: VadConfig, n: nat, t: Turn)
    ensures cfg.sampleRate > 0 ==>
              (Keeps(cfg, n, t) <==>
                 (ClampEnd(t, n) - ClampStart(t)) as real / cfg.sampleRate as real
                 >= cfg.minSegmentMs as real / 1000.0)
  {
    if cfg.sampleRate > 0 {
      var d := ClampEnd(t, n) - ClampStart(t);
      Arith.RealRatioAtLeast(d as real, cfg.sampleRate as real, cfg.minSegmentMs as real, 1000.0);
      assert (cfg.minSegmentMs * cfg.sampleRate) as real == cfg.minSegmentMs as real * cfg.sampleRate as real;
    }
  }

  /** A kept turn: its timeline index, its clamped sample bounds, and its own times. */
  datatype Kept = Kept(index: nat, s: nat, e: nat, startMs: nat, endMs: nat)

  /** `f"SPEAKER_{i:02d}"`. */
  function SpeakerLabel(i: nat): (l: string)
    ensures FreeOf(l, ' ')
  {
    var l := "SPEAKER_" + Pad2(i);
    assert forall j :: 8 <= j < |l| ==> l[j] == Pad2(i)[j - 8];
    l
  }

  /** Distinct indices get distinct labels. */
  lemma LabelsInjective()
    ensures forall i, j :: SpeakerLabel(i) == SpeakerLabel(j) ==> i == j
  {
    forall i, j | SpeakerLabel(i) == SpeakerLabel(j) ensures i == j {
      assert SpeakerLabel(i)[8..] == Pad2(i);
      assert SpeakerLabel(j)[8..] == Pad2(j);
      Pad2Injective(i, j);
    }
  }

  /** The entry recorded for a kept turn with timeline index `i`. */
  function KeptOf(cfg: VadConfig, n: nat, t: Turn, i: nat): (k: Kept)
    requires Keeps(cfg, n, t)
    ensures k.s <= k.e <= n
  {
    Kept(i, ClampStart(t), ClampEnd(t, n), t.startMs, t.endMs)
  }

  /** The loop `for i, turn in enumerate(timeline)` after its first `m` turns: the
      entries appended so far. Each comes from the turn at its index and that turn
      passes the test; every turn that passes is there; indices strictly increase. */
  function SelectUpTo(cfg: VadConfig, n: nat, turns: seq<Turn>, m: nat): (ks: seq<Kept>)
    requires m <= |turns|
    ensures forall k :: 0 <= k < |ks| ==>
              ks[k].index < m && Keeps(cfg, n, turns[ks[k].index])
              && ks[k] == KeptOf(cfg, n, turns[ks[k].index], ks[k].index)
    ensures forall i :: 0 <= i < m && Keeps(cfg, n, turns[i]) ==>
              exists k :: 0 <= k < |ks| && ks[k].index == i
    ensures forall j, k :: 0 <= j < k < |ks| ==> ks[j].index < ks[k].index
    decreases m
  {
    if m == 0 then []
    else
      var before := SelectUpTo(cfg, n, turns, m - 1);
      var t := turns[m - 1];
      if Keeps(cfg, n, t) then
        var ks := before + [KeptOf(cfg, n, t, m - 1)];
        assert forall k :: 0 <= k < |before| ==> ks[k] == before[k];
        assert ks[|before|].index == m - 1;
        ks
      else before
  }

  /** The kept turns of the whole timeline. */
  function Select(cfg: VadConfig, n: nat, turns: seq<Turn>): (ks: seq<Kept>)
    ensures forall k :: 0 <= k < |ks| ==> ks[k].s <= ks[k].e <= n
  {
    SelectUpTo(cfg, n, turns, |turns|)
  }

  /** `speech_segments`: the kept slices of the buffer, in timeline order. */
  function Slices<S>(audio: seq<S>, ks: seq<Kept>): (r: seq<seq<S>>)
    requires forall k :: 0 <= k < |ks| ==> ks[k].s <= ks[k].e <= |audio|
    ensures |r| == |ks|
    ensures forall k :: 0 <= k < |ks| ==> r[k] == audio[ks[k].s..ks[k].e]
    ensures forall k :: 0 <= k < |ks| ==> |r[k]| == ks[k].e - ks[k].s
  {
    seq(|ks|, k requires 0 <= k < |ks| => audio[ks[k].s..ks[k].e])
  }

  /** `np.concatenate(...)`. */
  function Concat<S>(parts: seq<seq<S>>): seq<S>
    decreases |parts|
  {
    if parts == [] then [] else parts[0] + Concat(parts[1..])
  }

  /** The annotation built alongside: unclamped turn times, labelled by timeline index,
      so two entries share a label exactly when they share an index. */
  function Annotation(ks: seq<Kept>): (a: seq<Rttm.Segment>)
    ensures |a| == |ks|
    ensures forall k :: 0 <= k < |ks| ==>
              a[k] == Rttm.Segment(ks[k].startMs, ks[k].endMs, SpeakerLabel(ks[k].index))
    ensures forall j, k :: 0 <= j < |ks| && 0 <= k < |ks| ==>
              (a[j].speaker == a[k].speaker <==> ks[j].index == ks[k].index)
  {
    LabelsInjective();
    seq(|ks|, k requires 0 <= k < |ks| => Rttm.Segment(ks[k].startMs, ks[k].endMs, SpeakerLabel(ks[k].index)))
  }

  /** An audio file or an RTTM file written for one input. */
  datatype Saved<S> = Saved(audioPath: string, speech: seq<S>, rate: nat, rttmPath: string, rttm: seq<string>)

  /** The outcome of one `.wav` file. */
  datatype VadOutcome<S> = NoSpeech | Wrote(saved: Saved<S>, segments: nat) | Failed(msg: string)

  function RttmDir(outDir: string): string { PathJoin(outDir, "rttm") }

  function RttmPath(outDir: string, filename: string): string
  {
    PathJoin(RttmDir(outDir), Stem(filename) + ".rttm")
  }

  /** What `str(e)` gives for the `ZeroDivisionError` of an `int / int` by zero. */
  const DivisionByZero := "division by zero"

  /** The `try` block for one file, given what the loader and the detector returned.
      With `sample_rate == 0` the duration of the first turn divides by zero. */
  function VadFile<S>(cfg: VadConfig, outDir: string, filename: string,
                      loaded: Result<seq<S>>, detect: seq<S> -> Result<seq<Turn>>): (r: VadOutcome<S>)
    ensures loaded.Err? ==> r == Failed(loaded.msg)
    ensures loaded.Ok? && detect(loaded.value).Err? ==> r == Failed(detect(loaded.value).msg)
    ensures loaded.Ok? && detect(loaded.value).Ok? ==>
              (r.Failed? <==> cfg.sampleRate == 0 && detect(loaded.value).value != [])
    ensures r.Failed? && loaded.Ok? && detect(loaded.value).Ok? ==> r.msg == DivisionByZero
    ensures loaded.Ok? && detect(loaded.value).Ok? ==>
              (r.NoSpeech? <==> (cfg.sampleRate > 0 || detect(loaded.value).value == [])
                                && Select(cfg, |loaded.value|, detect(loaded.value).value) == [])
    ensures r.Wrote? ==>
              && r.segments > 0 && |r.saved.rttm| == r.segments && r.saved.rate == cfg.sampleRate
              && r.saved.audioPath == PathJoin(outDir, filename) && r.saved.rttmPath == RttmPath(outDir, filename)
  {
    match loaded
    case Err(m) => Failed(m)
    case Ok(audio) =>
      match detect(audio)
      case Err(m) => Failed(m)
      case Ok(turns) =>
        var ks := Select(cfg, |audio|, turns);
        if cfg.sampleRate == 0 && turns != [] then Failed(DivisionByZero)
        else if ks == [] then NoSpeech
        else
          var rttmPath := RttmPath(outDir, filename);
          Wrote(Saved(PathJoin(outDir, filename), Concat(Slices(audio, ks)), cfg.sampleRate,
                      rttmPath, Rttm.WriteRttm(rttmPath, Annotation(ks))),
                |ks|)
  }

  /** What the batch leaves behind: the files written and the lines printed. */
  datatype VadSummary<S> = VadSummary(saved: seq<Saved<S>>, log: seq<string>)

  /** The one line printed for a `.wav` file, marked `[!]`, `[✓]` or `[X]` by outcome,
      and the outputs of a file with speech. */
  function Report<S>(filename: string, o: VadOutcome<S>): (r: VadSummary<S>)
    ensures |r.log| == 1
    ensures r.saved == (if o.Wrote? then [o.saved] else [])
    ensures |r.log[0]| >= 4 && r.log[0][..4] == (if o.NoSpeech? then "[!] " else if o.Wrote? then "[✓] " else "[X] ")
  {
    match o
    case NoSpeech =>
      var l := "[!] Aucun segment valide détecté dans " + filename;
      assert l[0] == '[' && l[1] == '!' && l[2] == ']' && l[3] == ' ';
      assert l[..4] == "[!] ";
      VadSummary([], [l])
    case Wrote(sv, k) =>
      var l := "[✓] " + filename + " traité : " + NatToString(k) + " segments parlés détectés";
      assert l[..4] == "[✓] ";
      VadSummary([sv], [l])
    case Failed(m) =>
      var l := "[X] Erreur avec " + filename + " : " + m;
      assert l[0] == '[' && l[1] == 'X' && l[2] == ']' && l[3] == ' ';
      assert l[..4] == "[X] ";
      VadSummary([], [l])
  }

  /** One entry of the walk: a `.wav` file is loaded from `root/name` and reported on
      with exactly one line; any other file is passed over in silence. */
  function VadEntry<S>(cfg: VadConfig, outDir: string, e: (string, string),
                       load: string -> Result<seq<S>>, detect: seq<S> -> Result<seq<Turn>>): (r: VadSummary<S>)
    ensures |r.log| == (if IsWavName(e.1) then 1 else 0)
    ensures |r.saved| <= |r.log|
  {
    if IsWavName(e.1) then Report(e.1, VadFile(cfg, outDir, e.1, load(PathJoin(e.0, e.1)), detect))
    else VadSummary([], [])
  }

  function Then<S>(x: VadSummary<S>, y: VadSummary<S>): VadSummary<S>
  {
    VadSummary(x.saved + y.saved, x.log + y.log)
  }

  /** The entries' reports, one after the other. */
  function Fold<S>(visit: ((string, string)) -> VadSummary<S>, entries: seq<(string, string)>): VadSummary<S>
    decreases |entries|
  {
    if entries == [] then VadSummary([], []) else Then(visit(entries[0]), Fold(visit, entries[1..]))
  }

  function VadVisitor<S>(cfg: VadConfig, outDir: string, load: string -> Result<seq<S>>,
                         detect: seq<S> -> Result<seq<Turn>>): ((string, string)) -> VadSummary<S>
  {
    e => VadEntry(cfg, outDir, e, load, detect)
  }

  /** `apply_vad` over the walk: `(root, filename)` pairs in walk order; `load` is
      `librosa.load(path, sr=sample_rate)`. */
  function ApplyVad<S>(cfg: VadConfig, outDir: string, entries: seq<(string, string)>,
                       load: string -> Result<seq<S>>, detect: seq<S> -> Result<seq<Turn>>): (r: VadSummary<S>)
    ensures |r.log| == WavCount(entries)
    ensures |r.saved| <= |r.log|
  {
    FoldCount(VadVisitor(cfg, outDir, load, detect), entries);
    Fold(VadVisitor(cfg, outDir, load, detect), entries)
  }

  /** The number of `.wav` names among the entries. */
  function WavCount(entries: seq<(string, string)>): nat
    decreases |entries|
  {
    if entries == [] then 0 else (if IsWavName(entries[0].1) then 1 else 0) + WavCount(entries[1..])
  }

  // ---------------------------------------------------------------------------
  // Properties of the per-turn loop

  /** The enumerate loop keeps no turn exactly when no turn passes the test. */
  lemma SelectEmptyIffNoneKept(cfg: VadConfig, n: nat, turns: seq<Turn>)
    ensures Select(cfg, n, turns) == [] <==> forall i :: 0 <= i < |turns| ==> !Keeps(cfg, n, turns[i])
  {
    var ks := Select(cfg, n, turns);
    if ks != [] {
      assert Keeps(cfg, n, turns[ks[0].index]);
    }
  }

  /** For a detector that returns, no audio and no RTTM file is written exactly when no
      turn passes the test, unless the rate is 0 and a turn was found: then the first
      duration divides by zero. Speech is written exactly when the rate is positive and
      some turn passes. */
  lemma NothingWrittenIffNoneKept<S>(cfg: VadConfig, outDir: string, filename: string,
                                     audio: seq<S>, detect: seq<S> -> Result<seq<Turn>>)
    ensures detect(audio).Ok? ==>
              var turns, r := detect(audio).value, VadFile(cfg, outDir, filename, Ok(audio), detect);
              && (r.NoSpeech? <==> (cfg.sampleRate > 0 || turns == [])
                                   && forall i :: 0 <= i < |turns| ==> !Keeps(cfg, |audio|, turns[i]))
              && (r.Wrote? <==> cfg.sampleRate > 0 && exists i :: 0 <= i < |turns| && Keeps(cfg, |audio|, turns[i]))
  {
    if detect(audio).Ok? {
      SelectEmptyIffNoneKept(cfg, |audio|, detect(audio).value);
    }
  }

  /** With a positive threshold, a turn whose truncated end is not after its truncated
      start is never kept, and every kept slice is non-empty. */
  lemma EmptyTurnsDropped(cfg: VadConfig, n: nat, t: Turn)
    requires cfg.minSegmentMs > 0 && cfg.sampleRate > 0
    ensures t.endSample <= t.startSample ==> !Keeps(cfg, n, t)
    ensures Keeps(cfg, n, t) ==> ClampStart(t) < ClampEnd(t, n)
  {
    assert cfg.minSegmentMs * cfg.sampleRate > 0 by {
      Arith.MulAtLeast(cfg.minSegmentMs, cfg.sampleRate);
    }
  }

  /** Total length of the kept sample ranges. */
  function KeptSamples(ks: seq<Kept>): int
    decreases |ks|
  {
    if ks == [] then 0 else (ks[0].e - ks[0].s) + KeptSamples(ks[1..])
  }

  /** The speech written is as long as the kept spans together, and starts with the
      first kept slice. */
  lemma {:induction false} ConcatOfSlices<S>(audio: seq<S>, ks: seq<Kept>)
    requires forall k :: 0 <= k < |ks| ==> ks[k].s <= ks[k].e <= |audio|
    ensures |Concat(Slices(audio, ks))| == KeptSamples(ks)
    ensures ks != [] ==> Concat(Slices(audio, ks))[..ks[0].e - ks[0].s] == audio[ks[0].s..ks[0].e]
    decreases |ks|
  {
    if ks != [] {
      var parts := Slices(audio, ks);
      assert parts[1..] == Slices(audio, ks[1..]);
      ConcatOfSlices(audio, ks[1..]);
    }
  }

  lemma {:induction false} ConcatAppend<S>(a: seq<seq<S>>, b: seq<seq<S>>)
    ensures Concat(a + b) == Concat(a) + Concat(b)
    decreases |a|
  {
    if a != [] {
      assert (a + b)[1..] == a[1..] + b;
      ConcatAppend(a[1..], b);
    } else {
      assert a + b == b;
    }
  }

  /** Each kept slice sits in the speech written at the running offset: the `k`-th
      starts where the first `k` kept spans end. */
  lemma SliceAtOffset<S>(audio: seq<S>, ks: seq<Kept>, k: nat)
    requires forall j :: 0 <= j < |ks| ==> ks[j].s <= ks[j].e <= |audio|
    requires k < |ks|
    ensures var c, off := Concat(Slices(audio, ks)), KeptSamples(ks[..k]);
            && 0 <= off && off + (ks[k].e - ks[k].s) <= |c|
            && c[off..off + (ks[k].e - ks[k].s)] == audio[ks[k].s..ks[k].e]
  {
    var parts := Slices(audio, ks);
    assert parts == parts[..k] + [parts[k]] + parts[k + 1..];
    ConcatAppend(parts[..k] + [parts[k]], parts[k + 1..]);
    ConcatAppend(parts[..k], [parts[k]]);
    assert [parts[k]][1..] == [];
    assert Concat([parts[k]]) == parts[k];
    assert parts[..k] == Slices(audio, ks[..k]);
    ConcatOfSlices(audio, ks[..k]);
    var pre := Concat(parts[..k]);
    var c := Concat(parts);
    assert c == pre + parts[k] + Concat(parts[k + 1..]);
    assert c[|pre|..|pre| + |parts[k]|] == parts[k];
  }

  // ---------------------------------------------------------------------------
  // The RTTM file of one input

  lemma WavHasNonDot(name: string)
    requires IsWavName(name)
    ensures HasNonDot(name, 0, |name|)
  {
    var l := LowerString(name);
    assert l[|l| - 1] == 'v';
    assert name[|name| - 1] != '.';
  }

  /** The file id written in every line is the stem of the input `.wav` name. */
  lemma RttmFileIdIsStem(outDir: string, filename: string)
    requires NoSlash(filename) && IsWavName(filename)
    ensures Rttm.FileId(RttmPath(outDir, filename)) == Stem(filename)
  {
    hide PathJoin, Basename, Splitext, LowerString, RFind, IsWavName, HasNonDot, NoSlash;
    var stem := Stem(filename);
    WavHasNonDot(filename);
    StemHasNonDot(filename);
    RttmNameOfStem(stem);
    BasenameOfJoin(RttmDir(outDir), stem + ".rttm");
  }

  /** Appending `.rttm` to a slash-free stem that has a non-dot character gives a
      slash-free name whose stem is that stem. */
  lemma RttmNameOfStem(stem: string)
    requires NoSlash(stem) && HasNonDot(stem, 0, |stem|)
    ensures NoSlash(stem + ".rttm") && Stem(stem + ".rttm") == stem
  {
    assert NoSlash(stem + ".rttm");
    StemOfExtended(stem, ".rttm");
  }

  /** What the RTTM line of timeline turn `i` of file `fileId` should read back as: the
      turn's own onset and duration, and the label of its index. */
  function TurnRecord(fileId: string, turns: seq<Turn>, i: nat): Rttm.Record
    requires i < |turns|
  {
    Rttm.Record(fileId, turns[i].startMs, turns[i].endMs - turns[i].startMs, SpeakerLabel(i))
  }

  /** The segment the annotation holds for timeline turn `i`. */
  function TurnSegment(turns: seq<Turn>, i: nat): Rttm.Segment
    requires i < |turns|
  {
    Rttm.Segment(turns[i].startMs, turns[i].endMs, SpeakerLabel(i))
  }

  /** The `k`-th line of the RTTM file written for a file with speech is the line of
      the `k`-th kept turn: the input's stem as file id, the turn's own times, and the
      label of its timeline index. */
  lemma RttmLineOfTurn<S>(cfg: VadConfig, outDir: string, filename: string, audio: seq<S>,
                          turns: seq<Turn>, k: nat)
    requires NoSlash(filename) && IsWavName(filename)
    requires k < |Select(cfg, |audio|, turns)|
    ensures Select(cfg, |audio|, turns)[k].index < |turns|
    ensures Rttm.WriteRttm(RttmPath(outDir, filename), Annotation(Select(cfg, |audio|, turns)))[k]
            == Rttm.Line(Stem(filename), TurnSegment(turns, Select(cfg, |audio|, turns)[k].index))
  {
    var ks := Select(cfg, |audio|, turns);
    var i := ks[k].index;
    assert ks[k] == KeptOf(cfg, |audio|, turns[i], i);
    RttmFileIdIsStem(outDir, filename);
  }

  /** Every line of the RTTM file written for a file with speech reads back as its
      kept turn: the input's stem, the turn's own onset and duration `end - start`, and
      the label of its timeline index, provided the name holds no space. */
  lemma RttmLinesReadBack<S>(cfg: VadConfig, outDir: string, filename: string, audio: seq<S>,
                             turns: seq<Turn>, k: nat)
    requires NoSlash(filename) && IsWavName(filename) && FreeOf(filename, ' ')
    requires k < |Select(cfg, |audio|, turns)|
    ensures var i := Select(cfg, |audio|, turns)[k].index;
            && i < |turns|
            && Rttm.ParseLine(Rttm.WriteRttm(RttmPath(outDir, filename), Annotation(Select(cfg, |audio|, turns)))[k])
               == Some(TurnRecord(Stem(filename), turns, i))
  {
    hide Rttm.ParseLine, Rttm.Line, Rttm.WriteRttm, Select, Annotation, Stem, RttmPath;
    var i := Select(cfg, |audio|, turns)[k].index;
    RttmLineOfTurn(cfg, outDir, filename, audio, turns, k);
    StemFree(filename, ' ');
    Rttm.LineRoundTrip(Stem(filename), TurnSegment(turns, i));
  }

  // ---------------------------------------------------------------------------
  // The batch

  lemma {:induction false} FoldCount<S>(visit: ((string, string)) -> VadSummary<S>, entries: seq<(string, string)>)
    requires forall e :: |visit(e).log| == (if IsWavName(e.1) then 1 else 0) && |visit(e).saved| <= |visit(e).log|
    ensures |Fold(visit, entries).log| == WavCount(entries)
    ensures |Fold(visit, entries).saved| <= |Fold(visit, entries).log|
    decreases |entries|
  {
    if entries != [] {
      FoldCount(visit, entries[1..]);
    }
  }

  lemma {:induction false} FoldAppend<S>(visit: ((string, string)) -> VadSummary<S>, a: seq<(string, string)>, b: seq<(string, string)>)
    ensures Fold(visit, a + b) == Then(Fold(visit, a), Fold(visit, b))
    decreases |a|
  {
    var x, y := Fold(visit, a), Fold(visit, b);
    if a == [] {
      assert a + b == b;
      assert x.saved + y.saved == y.saved && x.log + y.log == y.log;
    } else {
      assert (a + b)[1..] == a[1..] + b;
      FoldAppend(visit, a[1..], b);
      var h, t := visit(a[0]), Fold(visit, a[1..]);
      assert h.saved + (t.saved + y.saved) == (h.saved + t.saved) + y.saved;
      assert h.log + (t.log + y.log) == (h.log + t.log) + y.log;
    }
  }

  /** The batch over two stretches of the walk is the first stretch's outputs and
      lines followed by the second's. */
  lemma VadAppend<S>(cfg: VadConfig, outDir: string, a: seq<(string, string)>, b: seq<(string, string)>,
                     load: string -> Result<seq<S>>, detect: seq<S> -> Result<seq<Turn>>)
    ensures ApplyVad(cfg, outDir, a + b, load, detect)
            == Then(ApplyVad(cfg, outDir, a, load, detect), ApplyVad(cfg, outDir, b, load, detect))
  {
    FoldAppend(VadVisitor(cfg, outDir, load, detect), a, b);
  }

  /** One entry between two stretches adds its own outputs and lines between theirs. */
  lemma FoldAround<S>(visit: ((string, string)) -> VadSummary<S>, a: seq<(string, string)>, e: (string, string),
                      b: seq<(string, string)>, mid: VadSummary<S>)
    requires visit(e) == mid
    ensures Fold(visit, a + [e] + b).saved == Fold(visit, a).saved + mid.saved + Fold(visit, b).saved
    ensures Fold(visit, a + [e] + b).log == Fold(visit, a).log + mid.log + Fold(visit, b).log
  {
    assert [e][1..] == [];
    assert Fold(visit, [e]) == Then(mid, VadSummary([], []));
    assert mid.saved + [] == mid.saved && mid.log + [] == mid.log;
    FoldAppend(visit, [e], b);
    FoldAppend(visit, a, [e] + b);
    assert a + [e] + b == a + ([e] + b);
    var x, y := Fold(visit, a), Fold(visit, b);
    assert x.saved + (mid.saved + y.saved) == x.saved + mid.saved + y.saved;
    assert x.log + (mid.log + y.log) == x.log + mid.log + y.log;
  }

  /** A `.wav` file that cannot be loaded gets one `[X]` line and no output. */
  lemma LoadFailureReported<S>(cfg: VadConfig, outDir: string, e: (string, string),
                               load: string -> Result<seq<S>>, detect: seq<S> -> Result<seq<Turn>>)
    requires IsWavName(e.1) && load(PathJoin(e.0, e.1)).Err?
    ensures VadEntry(cfg, outDir, e, load, detect)
            == VadSummary([], ["[X] Erreur avec " + e.1 + " : " + load(PathJoin(e.0, e.1)).msg])
  {
  }

  /** A `.wav` file that cannot be loaded costs only its own outputs: it adds the one
      line `[X] Erreur avec <name> : <message>` and the walk carries on. */
  lemma LoadFailureIsolated<S>(cfg: VadConfig, outDir: string, a: seq<(string, string)>, e: (string, string),
                               b: seq<(string, string)>,
                               load: string -> Result<seq<S>>, detect: seq<S> -> Result<seq<Turn>>)
    requires IsWavName(e.1) && load(PathJoin(e.0, e.1)).Err?
    ensures var all := ApplyVad(cfg, outDir, a + [e] + b, load, detect);
            var x, y := ApplyVad(cfg, outDir, a, load, detect), ApplyVad(cfg, outDir, b, load, detect);
            && all.saved == x.saved + y.saved
            && all.log == x.log + ["[X] Erreur avec " + e.1 + " : " + load(PathJoin(e.0, e.1)).msg] + y.log
  {
    var visit := VadVisitor(cfg, outDir, load, detect);
    var mid := VadSummary([], ["[X] Erreur avec " + e.1 + " : " + load(PathJoin(e.0, e.1)).msg]);
    LoadFailureReported(cfg, outDir, e, load, detect);
    FoldAround(visit, a, e, b, mid);
    assert Fold(visit, a).saved + [] == Fold(visit, a).saved;
  }
}
