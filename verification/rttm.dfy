/** `write_rttm` of vad_pyannote.py: one NIST RTTM line per annotated segment, in the
    10-field layout of Appendix A of the NIST RT-09 Rich Transcription evaluation plan
    (type, file id, channel, onset, duration, orthography, speaker type, speaker name,
    confidence score, signal lookahead time). Times are whole milliseconds. */
module Rttm {
  import opened Results
  import opened Text
  import opened Digits
  import opened Paths

  /** One entry of the pyannote `Annotation`: the turn's own start and end, and its
      label. */
  datatype Segment = Segment(startMs: nat, endMs: nat, speaker: string)

  /** The ten fields of a line, with the two times given by their renderings. */
  function FieldsOf(fileId: string, onset: string, duration: string, speaker: string): (fs: seq<string>)
    ensures |fs| == 10
  {
    ["SPEAKER", fileId, "1", onset, duration, "<NA>", "<NA>", speaker, "<NA>", "<NA>"]
  }

  /** The ten fields of the line written for `seg` in file `fileId`. */
  function Fields(fileId: string, seg: Segment): (fs: seq<string>)
    ensures |fs| == 10
  {
    FieldsOf(fileId, Fixed3(seg.startMs), Fixed3(seg.endMs - seg.startMs), seg.speaker)
  }

  /** One newline-terminated line, fields separated by single spaces. */
  function Line(fileId: string, seg: Segment): (l: string)
    ensures |l| >= 1 && l[|l| - 1] == '\n'
  {
    JoinWith(Fields(fileId, seg), ' ') + "\n"
  }

  /** The file id is the name of the RTTM file without directory or extension. */
  function FileId(rttmPath: string): (id: string)
    ensures NoSlash(id) && id <= Basename(rttmPath)
  {
    StemFree(Basename(rttmPath), '/');
    Stem(Basename(rttmPath))
  }

  /** The contents `write_rttm(filename, annotation)` writes, in annotation order. */
  function WriteRttm(rttmPath: string, annotation: seq<Segment>): (lines: seq<string>)
    ensures |lines| == |annotation|
    ensures forall i :: 0 <= i < |lines| ==> lines[i] == Line(FileId(rttmPath), annotation[i])
    ensures forall i :: 0 <= i < |lines| ==> |lines[i]| >= 1 && lines[i][|lines[i]| - 1] == '\n'
  {
    seq(|annotation|, i requires 0 <= i < |annotation| => Line(FileId(rttmPath), annotation[i]))
  }

  /** What a reader of an RTTM speaker line gets back. */
  datatype Record = Record(fileId: string, onsetMs: int, durationMs: int, speaker: string)

  /** Reads one line: ten space-separated fields, the fixed ones as written, the two
      times in `.3f` form. */
  function ParseLine(line: string): (r: Option<Record>)
  {
    if |line| == 0 || line[|line| - 1] != '\n' then None
    else ParseFields(SplitOn(line[..|line| - 1], ' '))
  }

  function ParseFields(fs: seq<string>): Option<Record>
  {
    if |fs| != 10 || fs[0] != "SPEAKER" || fs[2] != "1" || fs[5] != "<NA>" || fs[6] != "<NA>"
       || fs[8] != "<NA>" || fs[9] != "<NA>" then None
    else
      match (ParseFixed3(fs[3]), ParseFixed3(fs[4]))
      case (Some(on), Some(dur)) => Some(Record(fs[1], on, dur, fs[7]))
      case _ => None
  }

  lemma FixedFree(ms: int)
    ensures FreeOf(Fixed3(ms), ' ')
  {
    var m: nat := if ms < 0 then -ms else ms;
    var s := Fixed3Nat(m);
    assert FreeOf(NatToString(m / 1000), ' ');
    assert FreeOf(Pad3(m % 1000), ' ');
    assert s == NatToString(m / 1000) + "." + Pad3(m % 1000);
  }

  /** A line of fields without spaces is read back field by field. */
  lemma ParseJoined(fs: seq<string>)
    requires |fs| >= 1 && forall i :: 0 <= i < |fs| ==> FreeOf(fs[i], ' ')
    ensures ParseLine(JoinWith(fs, ' ') + "\n") == ParseFields(fs)
  {
    var line := JoinWith(fs, ' ') + "\n";
    assert line[..|line| - 1] == JoinWith(fs, ' ');
    SplitJoin(fs, ' ');
  }

  lemma FieldsFree(fileId: string, seg: Segment)
    requires FreeOf(fileId, ' ') && FreeOf(seg.speaker, ' ')
    ensures forall i :: 0 <= i < 10 ==> FreeOf(Fields(fileId, seg)[i], ' ')
  {
    hide Fixed3, FreeOf, FieldsOf;
    FixedFree(seg.startMs);
    FixedFree(seg.endMs - seg.startMs);
    FieldsOfFree(fileId, Fixed3(seg.startMs), Fixed3(seg.endMs - seg.startMs), seg.speaker);
  }

  lemma FieldsOfFree(fileId: string, onset: string, duration: string, speaker: string)
    requires FreeOf(fileId, ' ') && FreeOf(onset, ' ') && FreeOf(duration, ' ') && FreeOf(speaker, ' ')
    ensures forall i :: 0 <= i < 10 ==> FreeOf(FieldsOf(fileId, onset, duration, speaker)[i], ' ')
  {
    var fs := FieldsOf(fileId, onset, duration, speaker);
    assert FreeOf("SPEAKER", ' ') && FreeOf("1", ' ') && FreeOf("<NA>", ' ');
    forall i | 0 <= i < 10 ensures FreeOf(fs[i], ' ') {
      assert fs[i] in {"SPEAKER", fileId, "1", onset, duration, "<NA>", speaker};
    }
  }

  /** Without the newline, a line whose file id and label hold no space splits on
      spaces into exactly its ten fields. */
  lemma LineFields(fileId: string, seg: Segment)
    requires FreeOf(fileId, ' ') && FreeOf(seg.speaker, ' ')
    ensures var l := Line(fileId, seg);
            && SplitOn(l[..|l| - 1], ' ') == Fields(fileId, seg)
            && |SplitOn(l[..|l| - 1], ' ')| == 10
  {
    var l := Line(fileId, seg);
    assert l[..|l| - 1] == JoinWith(Fields(fileId, seg), ' ');
    FieldsFree(fileId, seg);
    SplitJoin(Fields(fileId, seg), ' ');
  }

  /** The fixed fields of a written line pass, so the line is read by its two times. */
  lemma ParseFieldsOf(fileId: string, onset: string, duration: string, speaker: string)
    ensures ParseFields(FieldsOf(fileId, onset, duration, speaker))
            == match (ParseFixed3(onset), ParseFixed3(duration))
               case (Some(on), Some(dur)) => Some(Record(fileId, on, dur, speaker))
               case _ => None
  {
    hide ParseFixed3;
  }

  lemma ParseOwnFields(fileId: string, seg: Segment)
    ensures ParseFields(Fields(fileId, seg))
            == Some(Record(fileId, seg.startMs, seg.endMs - seg.startMs, seg.speaker))
  {
    hide Fixed3, ParseFixed3, Fixed3Nat, ParseThousandths;
    var on, dur := seg.startMs as int, seg.endMs - seg.startMs;
    Fixed3RoundTrip(on);
    Fixed3RoundTrip(dur);
    ParseFieldsOf(fileId, Fixed3(on), Fixed3(dur), seg.speaker);
  }

  /** A written line reads back as the segment it came from, with duration
      `end - start`, whenever the file id and label contain no space. */
  lemma LineRoundTrip(fileId: string, seg: Segment)
    requires FreeOf(fileId, ' ') && FreeOf(seg.speaker, ' ')
    ensures ParseLine(Line(fileId, seg))
            == Some(Record(fileId, seg.startMs, seg.endMs - seg.startMs, seg.speaker))
  {
    FieldsFree(fileId, seg);
    ParseJoined(Fields(fileId, seg));
    ParseOwnFields(fileId, seg);
  }

  /** Every line of a written file reads back as its segment, under the file id
      taken from the RTTM path. */
  lemma WrittenLineReadBack(rttmPath: string, annotation: seq<Segment>, k: nat, fileId: string, seg: Segment)
    requires k < |annotation| && annotation[k] == seg && FileId(rttmPath) == fileId
    requires FreeOf(fileId, ' ') && FreeOf(seg.speaker, ' ')
    ensures ParseLine(WriteRttm(rttmPath, annotation)[k])
            == Some(Record(fileId, seg.startMs, seg.endMs - seg.startMs, seg.speaker))
  {
    LineRoundTrip(fileId, seg);
  }
}
