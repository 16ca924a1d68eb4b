/** `extract_transcriptions` in `eaf_to_csv.py`: one CSV record per non-empty
    annotation of an ELAN file, tier after tier. The ELAN reader is not part of this
    model: the tiers arrive as their annotations, in the order the reader gives them,
    with times in whole milliseconds. */
module EafExport {
  import opened Results
  import opened Text
  import opened Digits

  /** `(start, end, text)` as the reader yields it for an aligned tier. */
  datatype Annotation = Annotation(startMs: nat, endMs: nat, text: string)

  /** The first record written. */
  const Header: seq<string> := ["audio", "start", "end", "text", "variety"]

  /** `if text.strip()`: an annotation is exported unless its text is all whitespace. */
  predicate Exported(a: Annotation) { Strip(a.text) != [] }

  /** The record for one annotation: the audio name, both times as the `str` of
      `ms / 1000.0`, the stripped text, the dialect tag. */
  function Record(audio: string, dialect: string, a: Annotation): (r: seq<string>)
    ensures |r| == |Header| && r[0] == audio && r[4] == dialect
  {
    [audio, SecondsRepr(a.startMs), SecondsRepr(a.endMs), Strip(a.text), dialect]
  }

  /** The inner loop over the annotations of one tier. */
  function TierRecords(audio: string, dialect: string, anns: seq<Annotation>): (r: seq<seq<string>>)
    ensures |r| <= |anns|
    ensures (forall k :: 0 <= k < |anns| ==> Exported(anns[k])) ==> |r| == |anns|
    ensures forall k :: 0 <= k < |r| ==> |r[k]| == |Header| && r[k][0] == audio && r[k][4] == dialect
    decreases |anns|
  {
    if anns == [] then []
    else (if Exported(anns[0]) then [Record(audio, dialect, anns[0])] else [])
         + TierRecords(audio, dialect, anns[1..])
  }

  /** The outer loop over the tiers. */
  function TiersRecords(audio: string, dialect: string, tiers: seq<seq<Annotation>>): (r: seq<seq<string>>)
    ensures forall k :: 0 <= k < |r| ==> |r[k]| == |Header| && r[k][0] == audio && r[k][4] == dialect
    decreases |tiers|
  {
    if tiers == [] then []
    else TierRecords(audio, dialect, tiers[0]) + TiersRecords(audio, dialect, tiers[1..])
  }

  /** Everything the CSV file holds. */
  function ExtractTranscriptions(audio: string, dialect: string, tiers: seq<seq<Annotation>>): (rows: seq<seq<string>>)
    ensures rows != [] && rows[0] == Header
  {
    [Header] + TiersRecords(audio, dialect, tiers)
  }

  // ---------------------------------------------------------------------------
  // Reference definition: filter the flattened annotations, then map

  /** The annotations of all tiers, tier after tier. */
  function Flatten(tiers: seq<seq<Annotation>>): seq<Annotation>
    decreases |tiers|
  {
    if tiers == [] then [] else tiers[0] + Flatten(tiers[1..])
  }

  /** The exported annotations, in order. */
  function ExportedOf(anns: seq<Annotation>): (r: seq<Annotation>)
    ensures forall k :: 0 <= k < |r| ==> Exported(r[k])
    decreases |anns|
  {
    if anns == [] then []
    else (if Exported(anns[0]) then [anns[0]] else []) + ExportedOf(anns[1..])
  }

  function Records(audio: string, dialect: string, anns: seq<Annotation>): (r: seq<seq<string>>)
    ensures |r| == |anns|
    ensures forall k :: 0 <= k < |anns| ==> r[k] == Record(audio, dialect, anns[k])
  {
    seq(|anns|, k requires 0 <= k < |anns| => Record(audio, dialect, anns[k]))
  }

  lemma RecordsAppend(audio: string, dialect: string, a: seq<Annotation>, b: seq<Annotation>)
    ensures Records(audio, dialect, a + b) == Records(audio, dialect, a) + Records(audio, dialect, b)
  {
    hide Record;
    var l, r := Records(audio, dialect, a + b), Records(audio, dialect, a) + Records(audio, dialect, b);
    assert forall k :: 0 <= k < |l| ==> l[k] == r[k];
  }

  lemma {:induction false} ExportedAppend(a: seq<Annotation>, b: seq<Annotation>)
    ensures ExportedOf(a + b) == ExportedOf(a) + ExportedOf(b)
    decreases |a|
  {
    hide Exported;
    if a == [] {
      assert a + b == b;
    } else {
      assert (a + b)[1..] == a[1..] + b;
      ExportedAppend(a[1..], b);
    }
  }

  lemma {:induction false} TierIsFilterMap(audio: string, dialect: string, anns: seq<Annotation>)
    ensures TierRecords(audio, dialect, anns) == Records(audio, dialect, ExportedOf(anns))
    decreases |anns|
  {
    hide Exported, Record;
    if anns != [] {
      TierIsFilterMap(audio, dialect, anns[1..]);
      var head := if Exported(anns[0]) then [anns[0]] else [];
      RecordsAppend(audio, dialect, head, ExportedOf(anns[1..]));
    }
  }

  /** The nested loops write one record per exported annotation, in tier order and in
      order within each tier, and nothing else. */
  lemma {:induction false} TiersAreFilterMap(audio: string, dialect: string, tiers: seq<seq<Annotation>>)
    ensures TiersRecords(audio, dialect, tiers) == Records(audio, dialect, ExportedOf(Flatten(tiers)))
    decreases |tiers|
  {
    if tiers != [] {
      TiersAreFilterMap(audio, dialect, tiers[1..]);
      TierIsFilterMap(audio, dialect, tiers[0]);
      ExportedAppend(tiers[0], Flatten(tiers[1..]));
      RecordsAppend(audio, dialect, ExportedOf(tiers[0]), ExportedOf(Flatten(tiers[1..])));
    }
  }

  // ---------------------------------------------------------------------------
  // Properties of the file written

  /** An annotation is left out exactly when its text is all whitespace. */
  lemma ExportedIffNotBlank(a: Annotation)
    ensures Exported(a) <==> !Blank(a.text)
  {
    StripEmptyIffBlank(a.text);
  }

  /** The record of an exported annotation: the audio name and tag given, a text that
      is the stripped annotation and is neither empty nor padded with whitespace, and
      times that read back as the annotation's milliseconds. */
  lemma RecordFields(audio: string, dialect: string, a: Annotation)
    requires Exported(a)
    ensures var r := Record(audio, dialect, a);
            && r[0] == audio && r[4] == dialect
            && r[3] == Strip(a.text) && r[3] != []
            && !IsSpace(r[3][0]) && !IsSpace(r[3][|r[3]| - 1])
            && ParseThousandths(r[1]) == Some(a.startMs)
            && ParseThousandths(r[2]) == Some(a.endMs)
  {
    SecondsReprRoundTrip(a.startMs);
    SecondsReprRoundTrip(a.endMs);
  }

  /** The file holds the header and then one record per exported annotation, in
      tier order, and nothing else. */
  lemma ExtractedRecords(audio: string, dialect: string, tiers: seq<seq<Annotation>>)
    ensures var rows := ExtractTranscriptions(audio, dialect, tiers);
            var ex := ExportedOf(Flatten(tiers));
            && |rows| == 1 + |ex|
            && forall k :: 0 <= k < |ex| ==> rows[k + 1] == Record(audio, dialect, ex[k])
  {
    hide Exported, Record;
    TiersAreFilterMap(audio, dialect, tiers);
    var ex := ExportedOf(Flatten(tiers));
    var recs := Records(audio, dialect, ex);
    var rows := ExtractTranscriptions(audio, dialect, tiers);
    assert rows == [Header] + recs;
    assert forall k :: 0 <= k < |ex| ==> rows[k + 1] == recs[k];
  }

  /** An annotation of 1.5 s to 2 s is written as `1.5` and `2.0`. */
  lemma TimesExample()
    ensures Record("a.wav", "CM", Annotation(1500, 2000, "bu")) [1..3] == ["1.5", "2.0"]
  {
    assert 1500 / 1000 == 1 && 1500 % 1000 == 500 && 2000 / 1000 == 2 && 2000 % 1000 == 0;
    assert NatToString(1) == "1" && NatToString(2) == "2";
    assert Pad3(500) == "500";
    assert TrimFraction("500") == "5";
    assert SecondsRepr(1500) == "1.5";
    assert SecondsRepr(2000) == "2.0";
  }
}
