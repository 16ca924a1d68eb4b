/** `normalize_corpus` in `simple_normalization.py`: read the CSV records with a
    `DictReader`, rewrite the `text` entry of every row with `normalize_text`, and
    write the rows back with a `DictWriter` over the same header. The CSV file is
    given as its records (the header first), already split into fields. */
module Corpus {
  import opened Results
  import opened Normalize

  /** `COLUMN_NAME`. */
  const Column: string := "text"

  const KeyErrorMsg: string := "KeyError: 'text'"
  const NoneErrorMsg: string := "AttributeError: 'NoneType' object has no attribute 'lower'"
  const ExtraErrorMsg: string := "ValueError: dict contains fields not in fieldnames: None"
  const NoHeaderMsg: string := "TypeError: 'NoneType' object is not iterable"

  /** The last position below `n` where `key` is in the header, or -1. */
  function LastIndex(header: seq<string>, key: string, n: nat): (i: int)
    requires n <= |header|
    ensures -1 <= i < n
    ensures i >= 0 ==> header[i] == key
    ensures forall j :: i < j < n ==> header[j] != key
    decreases n
  {
    if n == 0 then -1
    else if header[n - 1] == key then n - 1
    else LastIndex(header, key, n - 1)
  }

  /** The value `DictReader` gives to header position `i`: the field, or the missing
      value `None` when the record is shorter. */
  function CellAt(vals: seq<string>, i: nat): Option<string>
  {
    if i < |vals| then Some(vals[i]) else None
  }

  /** The row dict after the first `n` header positions. `DictReader` assigns the
      fields of a record in header order and then `None` to the positions past its
      end, so when a name repeats the later position wins. */
  function RowDict(header: seq<string>, vals: seq<string>, n: nat): (d: map<string, Option<string>>)
    requires n <= |header|
    ensures forall k :: k in d <==> LastIndex(header, k, n) >= 0
    ensures forall k :: k in d ==> d[k] == CellAt(vals, LastIndex(header, k, n))
    decreases n
  {
    if n == 0 then map[]
    else RowDict(header, vals, n - 1)[header[n - 1] := CellAt(vals, n - 1)]
  }

  /** What `csv.writer` writes for a value: `None` becomes the empty field. */
  function Written(o: Option<string>): string
  {
    match o
    case None => ""
    case Some(s) => s
  }

  /** One iteration of the loop: look up `row['text']`, normalise it, and write the
      row's values in header order. A record longer than the header keeps its extra
      fields under the key `None`, which `writerow` refuses. */
  function NormalizeRow(header: seq<string>, vals: seq<string>): (r: Result<seq<string>>)
    ensures r.Ok? ==> |r.value| == |header|
    ensures r.Err? ==> r.msg == KeyErrorMsg || r.msg == NoneErrorMsg || r.msg == ExtraErrorMsg
    ensures Column !in header ==> r == Err(KeyErrorMsg)
  {
    var d := RowDict(header, vals, |header|);
    if Column !in d then Err(KeyErrorMsg)
    else
      match d[Column]
      case None => Err(NoneErrorMsg)
      case Some(t) =>
        var d2 := d[Column := Some(NormalizeText(t))];
        if |vals| > |header| then Err(ExtraErrorMsg)
        else
          Ok(seq(|header|, i requires 0 <= i < |header| =>
                 assert LastIndex(header, header[i], |header|) >= i;
                 Written(d2[header[i]])))
  }

  /** What the script leaves in the output file: the records written, and the
      exception that stopped it, if any. Rows written before the exception stay. */
  datatype Output = Output(records: seq<seq<string>>, error: Option<string>)

  /** The loop over the data records, each rewritten by `rewrite`; `DictReader`
      skips empty records, and the first exception ends the loop. */
  function Rows(rewrite: seq<string> -> Result<seq<string>>, rows: seq<seq<string>>): (out: Output)
    ensures |out.records| <= |rows|
    ensures out.error == None <==> forall k :: 0 <= k < |rows| && rows[k] != [] ==> rewrite(rows[k]).Ok?
    decreases |rows|
  {
    if rows == [] then Output([], None)
    else if rows[0] == [] then Rows(rewrite, rows[1..])
    else
      match rewrite(rows[0])
      case Err(m) => Output([], Some(m))
      case Ok(r) =>
        var rest := Rows(rewrite, rows[1..]);
        Output([r] + rest.records, rest.error)
  }

  function NormalizeRows(header: seq<string>, rows: seq<seq<string>>): Output
  {
    Rows(vals => NormalizeRow(header, vals), rows)
  }

  /** `normalize_corpus`: without any record there is no header, and `writeheader`
      fails on the missing field names; otherwise the header is written first. */
  function NormalizeCorpus(records: seq<seq<string>>): (out: Output)
    ensures records == [] ==> out == Output([], Some(NoHeaderMsg))
    ensures records != [] ==> out.records != [] && out.records[0] == records[0]
  {
    if records == [] then Output([], Some(NoHeaderMsg))
    else
      var rest := NormalizeRows(records[0], records[1..]);
      Output([records[0]] + rest.records, rest.error)
  }

  // ---------------------------------------------------------------------------
  // One row

  /** A row goes through exactly when the header names `text`, the record reaches the
      last `text` position, and the record is not longer than the header. */
  lemma RowOkIff(header: seq<string>, vals: seq<string>)
    ensures var t := LastIndex(header, Column, |header|);
            NormalizeRow(header, vals).Ok? <==> 0 <= t < |vals| <= |header|
  {
  }

  /** Each written field is the value the row dict holds for its name, with the
      `text` entry normalised; a repeated name takes the value of its last position. */
  lemma RowFields(header: seq<string>, vals: seq<string>)
    requires NormalizeRow(header, vals).Ok?
    ensures var o := NormalizeRow(header, vals).value;
            var t := LastIndex(header, Column, |header|);
            && |o| == |header|
            && forall i :: 0 <= i < |header| ==>
                 o[i] == if header[i] == Column then NormalizeText(vals[t])
                         else Written(CellAt(vals, LastIndex(header, header[i], |header|)))
  {
  }

  predicate Distinct(header: seq<string>)
  {
    forall i, j :: 0 <= i < j < |header| ==> header[i] != header[j]
  }

  lemma LastIndexDistinct(header: seq<string>, i: nat)
    requires Distinct(header) && i < |header|
    ensures LastIndex(header, header[i], |header|) == i
  {
  }

  /** With distinct column names and a complete record, the row is written back with
      the `text` field normalised and every other field unchanged, in header order. */
  lemma OnlyTextChanges(header: seq<string>, vals: seq<string>)
    requires Distinct(header) && Column in header && |vals| == |header|
    ensures NormalizeRow(header, vals).Ok?
    ensures var o := NormalizeRow(header, vals).value;
            && |o| == |vals|
            && forall i :: 0 <= i < |vals| ==>
                 o[i] == if header[i] == Column then NormalizeText(vals[i]) else vals[i]
  {
    var c :| 0 <= c < |header| && header[c] == Column;
    LastIndexDistinct(header, c);
    RowOkIff(header, vals);
    RowFields(header, vals);
    var o := NormalizeRow(header, vals).value;
    forall i | 0 <= i < |vals|
      ensures o[i] == if header[i] == Column then NormalizeText(vals[i]) else vals[i]
    {
      LastIndexDistinct(header, i);
      if header[i] == Column {
        assert i == c;
      } else {
        assert CellAt(vals, i) == Some(vals[i]);
      }
    }
  }

  // ---------------------------------------------------------------------------
  // The whole file

  /** The records `DictReader` yields: the non-empty ones. */
  function NonBlank(rows: seq<seq<string>>): (nb: seq<seq<string>>)
    ensures forall k :: 0 <= k < |nb| ==> nb[k] != []
    decreases |rows|
  {
    if rows == [] then []
    else if rows[0] == [] then NonBlank(rows[1..])
    else [rows[0]] + NonBlank(rows[1..])
  }

  /** The rows written are the rewritten rows in input order, up to the first row
      that fails; the failure, if any, is that row's, and nothing after it is written. */
  lemma {:induction false} RowsWritten(rewrite: seq<string> -> Result<seq<string>>, rows: seq<seq<string>>)
    ensures var out := Rows(rewrite, rows);
            var nb := NonBlank(rows);
            && |out.records| <= |nb|
            && (forall k :: 0 <= k < |out.records| ==> rewrite(nb[k]) == Ok(out.records[k]))
            && (out.error == None ==> |out.records| == |nb|)
            && (out.error.Some? ==> |out.records| < |nb| && rewrite(nb[|out.records|]) == Err(out.error.value))
    decreases |rows|
  {
    if rows != [] {
      RowsWritten(rewrite, rows[1..]);
      if rows[0] != [] {
        var nb := NonBlank(rows);
        var rest := Rows(rewrite, rows[1..]);
        assert nb == [rows[0]] + NonBlank(rows[1..]);
        match rewrite(rows[0])
        case Err(m) =>
        case Ok(r) =>
          var out := Rows(rewrite, rows);
          assert out.records == [r] + rest.records;
          assert forall k :: 1 <= k < |out.records| ==> out.records[k] == rest.records[k - 1] && nb[k] == NonBlank(rows[1..])[k - 1];
      }
    }
  }

  /** The run finishes without an exception exactly when there is a header and every
      non-empty record goes through; it then writes the header and one row per record. */
  lemma CorpusSucceedsIff(records: seq<seq<string>>)
    ensures var out := NormalizeCorpus(records);
            out.error == None <==>
              records != [] && forall k :: 0 <= k < |NonBlank(records[1..])| ==>
                                 NormalizeRow(records[0], NonBlank(records[1..])[k]).Ok?
    ensures var out := NormalizeCorpus(records);
            out.error == None ==> |out.records| == 1 + |NonBlank(records[1..])|
  {
    if records != [] {
      RowsWritten(vals => NormalizeRow(records[0], vals), records[1..]);
    }
  }
}
