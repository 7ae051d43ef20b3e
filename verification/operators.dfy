/** The actions that consume the traversal's batches: count them, save them
    as JSON lines, save them as CSV, or tally them by delivery-start date. */
module Operators {
  import opened Results
  import opened Text
  import opened Decimal
  import opened Values
  import opened Dates
  import opened Query
  import opened Traversal

  /** The operator functions by which an action is carried out. */
  datatype Operator = CountAds | SaveToFile | SaveToCsv | StartTimeTrending

  function OperatorName(op: Operator): string {
    match op
    case CountAds => "count"
    case SaveToFile => "save"
    case SaveToCsv => "save_to_csv"
    case StartTimeTrending => "start_time_trending"
  }

  /** `get_operators()`: action name to operator. */
  function OperatorTable(): (m: map<string, Operator>)
    ensures m.Keys == {"count", "save", "save_to_csv", "start_time_trending"}
    ensures forall op :: OperatorName(op) in m && m[OperatorName(op)] == op
    ensures forall name | name in m :: OperatorName(m[name]) == name
  {
    map["count" := CountAds, "save" := SaveToFile,
        "save_to_csv" := SaveToCsv, "start_time_trending" := StartTimeTrending]
  }

  /** A `strftime("%Y%m%d-%H%M%S")` stamp: digits and dashes. */
  predicate IsTimestamp(ts: string) {
    forall i | 0 <= i < |ts| :: IsDigit(ts[i]) || ts[i] == '-'
  }

  /** `output_file_path`, with the clock reading passed in: the stamped file
      name in the output directory, the extension appended unless the name
      already ends with it. */
  function OutputFilePath(keyword: string, outputPath: string, extension: string, timestamp: string): (path: string)
    ensures EndsWith(path, extension)
  {
    var name := timestamp + "-" + keyword;
    var fileName := if EndsWith(name, extension) then name else name + extension;
    assert (name + extension)[|name + extension| - |extension|..] == extension;
    outputPath + "/" + fileName
  }

  /** For the extensions used (a dot, then letters) and a real timestamp, the
      file name is `<timestamp>-<keyword>` with the extension added exactly
      when the keyword lacks it, so it is never doubled. */
  lemma ExtensionNeverDoubled(keyword: string, outputPath: string, extension: string, timestamp: string)
    requires IsTimestamp(timestamp)
    requires |extension| > 0 && extension[0] == '.'
    ensures EndsWith(keyword, extension) ==>
      OutputFilePath(keyword, outputPath, extension, timestamp) == outputPath + "/" + timestamp + "-" + keyword
    ensures !EndsWith(keyword, extension) ==>
      OutputFilePath(keyword, outputPath, extension, timestamp) == outputPath + "/" + timestamp + "-" + keyword + extension
  {
    var name := timestamp + "-" + keyword;
    if |extension| <= |keyword| {
      assert name[|name| - |extension|..] == keyword[|keyword| - |extension|..];
    }
  }

  // ---------------------------------------------------------------------
  // What an operator produces
  // ---------------------------------------------------------------------

  /** Why an operator stops. */
  datatype ExportFault =
    | Usage(message: string)          // wrong number of action arguments
    | Raised(fault: Fault)            // raised by the traversal or by the date tally
    | ResponsesExhausted              // the modelled server ran out of responses
    | FieldsNotText                   // `fields` is False: no `split`
    | EmptyListCell(field: string)    // IndexError on `value[0]`
    | NonTextListItem(field: string)  // TypeError in `",".join(value)`

  /** A file written: text lines, or a CSV header and rows of optional cells
      (`None` is written as an empty cell). */
  datatype File =
    | TextFile(path: string, lines: seq<string>)
    | CsvFile(path: string, header: seq<string>, rows: seq<seq<Option<string>>>)

  /** The file left on disk, if any, and either the total the operator reports
      or why it stopped. */
  datatype Export = Export(file: Option<File>, status: Result<nat, ExportFault>)

  /** How the consumed traversal ended, as seen by the consumer. */
  function EndOf(outcome: Outcome): (r: Option<ExportFault>)
    ensures r.None? <==> outcome.Done?
  {
    match outcome
    case Done => None
    case Failed(f) => Some(Raised(f))
    case OutOfResponses => Some(ResponsesExhausted)
  }

  /** All records of all batches, in order. */
  function Flatten(batches: seq<seq<Record>>): seq<Record> {
    if |batches| == 0 then [] else batches[0] + Flatten(batches[1..])
  }

  /** The running `count += len(ad_archives)` over all batches. */
  function Total(batches: seq<seq<Record>>): nat
    decreases |batches|
  {
    if |batches| == 0 then 0 else Total(batches[..|batches| - 1]) + |batches[|batches| - 1]|
  }

  lemma {:induction false} FlattenSnoc(batches: seq<seq<Record>>, b: seq<Record>)
    ensures Flatten(batches + [b]) == Flatten(batches) + b
    decreases |batches|
  {
    if |batches| == 0 {
      assert Flatten([b]) == b + Flatten([]);
    } else {
      assert (batches + [b])[1..] == batches[1..] + [b];
      FlattenSnoc(batches[1..], b);
    }
  }

  /** The total counted batch by batch is the number of records. */
  lemma {:induction false} TotalCountsRecords(batches: seq<seq<Record>>)
    ensures Total(batches) == |Flatten(batches)|
    decreases |batches|
  {
    if |batches| > 0 {
      var init := batches[..|batches| - 1];
      TotalCountsRecords(init);
      assert batches == init + [batches[|batches| - 1]];
      FlattenSnoc(init, batches[|batches| - 1]);
    }
  }

  /** The guard of the file-writing operators, checked before anything else. */
  function ArgsGuard(args: seq<string>, action: string): (r: Option<ExportFault>)
    ensures r.None? <==> |args| == 1
    ensures r.Some? ==> r.value == Usage(action + " action takes 1 argument: output_keyword")
  {
    if |args| != 1 then Some(Usage(action + " action takes 1 argument: output_keyword")) else None
  }

  // ---------------------------------------------------------------------
  // count
  // ---------------------------------------------------------------------

  /** `count_ads`: reports the number of records when the traversal finishes,
      and writes no file. */
  function CountAdsOf(run: Run): (e: Export)
    ensures e.file.None?
    ensures e.status.Ok? <==> run.outcome.Done?
    ensures e.status.Ok? ==> e.status.value == |Flatten(run.batches)|
  {
    TotalCountsRecords(run.batches);
    match EndOf(run.outcome)
    case None => Export(None, Ok(Total(run.batches)))
    case Some(f) => Export(None, Err(f))
  }

  // ---------------------------------------------------------------------
  // save
  // ---------------------------------------------------------------------

  /** One `json.dumps(data)` line per record. */
  function JsonLines(records: seq<Record>, dumps: Encoder): (lines: seq<string>)
    ensures |lines| == |records|
    ensures forall i | 0 <= i < |records| :: lines[i] == dumps(Dict(records[i]))
  {
    if |records| == 0 then [] else [dumps(Dict(records[0]))] + JsonLines(records[1..], dumps)
  }

  /** `save_to_file`: one JSON line per record yielded (also those yielded
      before a failure, which stay on disk), and the record count. */
  function SaveToFileOf(run: Run, args: seq<string>, outputPath: string, timestamp: string, dumps: Encoder): (e: Export)
    ensures |args| != 1 ==> e == Export(None, Err(Usage("save_to_file" + " action takes 1 argument: output_keyword")))
    ensures |args| == 1 ==> e.file.Some? && e.file.value.TextFile?
    ensures |args| == 1 ==> e.file.value.path == OutputFilePath(args[0], outputPath, ".json", timestamp)
    ensures |args| == 1 ==> |e.file.value.lines| == |Flatten(run.batches)|
    ensures |args| == 1 ==> forall i | 0 <= i < |Flatten(run.batches)| ::
      e.file.value.lines[i] == dumps(Dict(Flatten(run.batches)[i]))
    ensures |args| == 1 ==> (e.status.Ok? <==> run.outcome.Done?)
    ensures e.status.Ok? ==> e.status.value == |Flatten(run.batches)|
  {
    match ArgsGuard(args, "save_to_file")
    case Some(f) => Export(None, Err(f))
    case None =>
      var path := OutputFilePath(args[0], outputPath, ".json", timestamp);
      var file := TextFile(path, JsonLines(Flatten(run.batches), dumps));
      TotalCountsRecords(run.batches);
      match EndOf(run.outcome)
      case None => Export(Some(file), Ok(Total(run.batches)))
      case Some(f) => Export(Some(file), Err(f))
  }

  // ---------------------------------------------------------------------
  // save_to_csv
  // ---------------------------------------------------------------------

  function Texts(items: seq<Value>): (r: seq<string>)
    requires forall i | 0 <= i < |items| :: items[i].Str?
    ensures |r| == |items|
    ensures forall i | 0 <= i < |items| :: r[i] == items[i].text
  {
    if |items| == 0 then [] else [items[0].text] + Texts(items[1..])
  }

  /** The text of one CSV cell: a mapping, or a list whose first element is a
      mapping, is JSON-encoded; another list is joined with commas (its items
      must be strings); anything else is `str()` of it. */
  function Cell(field: string, v: Value, dumps: Encoder): (r: Result<string, ExportFault>)
    ensures v.Dict? ==> r == Ok(dumps(v))
    ensures v.List? && |v.items| == 0 ==> r == Err(EmptyListCell(field))
    ensures v.List? && |v.items| > 0 && v.items[0].Dict? ==> r == Ok(dumps(v))
    ensures v.List? && |v.items| > 0 && !v.items[0].Dict? ==>
      (r.Ok? <==> forall i | 0 <= i < |v.items| :: v.items[i].Str?)
    ensures v.Str? ==> r == Ok(v.text)
    ensures v.Scalar? ==> r == Ok(v.repr)
  {
    match v
    case Dict(_) => Ok(dumps(v))
    case List(items) =>
      if |items| == 0 then Err(EmptyListCell(field))
      else if items[0].Dict? then Ok(dumps(v))
      else if forall i | 0 <= i < |items| :: items[i].Str? then Ok(Join(Texts(items), ","))
      else Err(NonTextListItem(field))
    case Str(s) => Ok(s)
    case Scalar(s) => Ok(s)
  }

  /** A list of strings without commas is recovered by splitting its cell on
      commas: the cell is the comma-join of exactly those strings. */
  lemma ListCellSplits(field: string, items: seq<Value>, dumps: Encoder)
    requires |items| > 0
    requires forall i | 0 <= i < |items| :: items[i].Str? && ',' !in items[i].text
    ensures Cell(field, List(items), dumps).Ok?
    ensures Split(Cell(field, List(items), dumps).value, ',') == Texts(items)
  {
    assert Cell(field, List(items), dumps) == Ok(Join(Texts(items), [',']));
    SplitJoin(Texts(items), ',');
  }

  /** The position of the first header whose present field cannot be encoded,
      or `|headers|` when there is none. */
  function FirstBadCell(rec: Record, headers: seq<string>, dumps: Encoder): (j: nat)
    ensures j <= |headers|
    ensures forall k | 0 <= k < j :: headers[k] in rec ==> Cell(headers[k], rec[headers[k]], dumps).Ok?
    ensures j < |headers| ==> headers[j] in rec && Cell(headers[j], rec[headers[j]], dumps).Err?
    decreases |headers|
  {
    if |headers| == 0 then 0
    else if headers[0] in rec && Cell(headers[0], rec[headers[0]], dumps).Err? then 0
    else 1 + FirstBadCell(rec, headers[1..], dumps)
  }

  /** One data row: a cell per header, in header order, `None` where the
      record lacks the field; the first cell that cannot be encoded raises. */
  function Row(rec: Record, headers: seq<string>, dumps: Encoder): (r: Result<seq<Option<string>>, ExportFault>)
    ensures r.Ok? <==> forall i | 0 <= i < |headers| :: headers[i] in rec ==> Cell(headers[i], rec[headers[i]], dumps).Ok?
    ensures r.Ok? ==> |r.value| == |headers|
    ensures r.Ok? ==> forall i | 0 <= i < |headers| ::
      && (r.value[i].None? <==> headers[i] !in rec)
      && (headers[i] in rec ==> r.value[i] == Some(Cell(headers[i], rec[headers[i]], dumps).value))
    ensures r.Err? ==> var j := FirstBadCell(rec, headers, dumps);
      j < |headers| && r.error == Cell(headers[j], rec[headers[j]], dumps).error
    decreases |headers|
  {
    if |headers| == 0 then Ok([])
    else
      var field := headers[0];
      var first: Result<Option<string>, ExportFault> :=
        if field in rec then
          (match Cell(field, rec[field], dumps)
           case Ok(s) => Ok(Some(s))
           case Err(f) => Err(f))
        else Ok(None);
      match first
      case Err(f) => Err(f)
      case Ok(cell) =>
        match Row(rec, headers[1..], dumps)
        case Err(f) =>
          assert FirstBadCell(rec, headers, dumps) == 1 + FirstBadCell(rec, headers[1..], dumps);
          Err(f)
        case Ok(rest) =>
          assert forall i | 1 <= i < |headers| :: headers[i] == headers[1..][i - 1];
          Ok([cell] + rest)
  }

  /** The rows written for `records`: one per record until the first record
      whose row raises, and that fault. */
  function CsvRows(records: seq<Record>, headers: seq<string>, dumps: Encoder): (r: (seq<seq<Option<string>>>, Option<ExportFault>))
    ensures r.1.None? ==> |r.0| == |records|
    ensures r.1.Some? ==> |r.0| < |records| && Row(records[|r.0|], headers, dumps) == Err(r.1.value)
    ensures forall i | 0 <= i < |r.0| :: Row(records[i], headers, dumps) == Ok(r.0[i])
    decreases |records|
  {
    if |records| == 0 then ([], None)
    else
      match Row(records[0], headers, dumps)
      case Err(f) => ([], Some(f))
      case Ok(row) =>
        var rest := CsvRows(records[1..], headers, dumps);
        RowsShift(records, headers, dumps, row, rest.0);
        assert rest.1.Some? ==> records[1..][|rest.0|] == records[|rest.0| + 1];
        ([row] + rest.0, rest.1)
  }

  lemma RowsShift(records: seq<Record>, headers: seq<string>, dumps: Encoder,
                  row: seq<Option<string>>, rows: seq<seq<Option<string>>>)
    requires |rows| < |records| && Row(records[0], headers, dumps) == Ok(row)
    requires forall i | 0 <= i < |rows| :: Row(records[1..][i], headers, dumps) == Ok(rows[i])
    ensures forall i | 0 <= i < |rows| + 1 :: Row(records[i], headers, dumps) == Ok(([row] + rows)[i])
  {
    var all := [row] + rows;
    forall i | 0 <= i < |rows| + 1
      ensures Row(records[i], headers, dumps) == Ok(all[i])
    {
      if i > 0 {
        assert records[i] == records[1..][i - 1];
        assert all[i] == rows[i - 1];
      }
    }
  }

  /** Every record's row can be encoded. */
  predicate RowsEncode(records: seq<Record>, headers: seq<string>, dumps: Encoder) {
    forall i | 0 <= i < |records| :: Row(records[i], headers, dumps).Ok?
  }

  /** All rows are written exactly when every row can be encoded. */
  lemma CsvRowsComplete(records: seq<Record>, headers: seq<string>, dumps: Encoder)
    ensures CsvRows(records, headers, dumps).1.None? <==> RowsEncode(records, headers, dumps)
  {
    var r := CsvRows(records, headers, dumps);
    if r.1.Some? {
      assert !Row(records[|r.0|], headers, dumps).Ok?;
    }
  }

  /** `save_to_csv`: the header is the field list split on commas, then one row
      per record yielded. A cell that cannot be encoded stops the writing; so
      does a failing traversal, after the rows of the batches it did yield. */
  function SaveToCsvOf(run: Run, args: seq<string>, outputPath: string, fields: Option<string>,
                       timestamp: string, dumps: Encoder): (e: Export)
    ensures |args| != 1 ==> e == Export(None, Err(Usage("save_to_csv" + " action takes 1 argument: output_keyword")))
    ensures |args| == 1 && fields.None? ==> e == Export(None, Err(FieldsNotText))
    ensures |args| == 1 && fields.Some? ==> e.file.Some? && e.file.value.CsvFile?
    ensures |args| == 1 && fields.Some? ==>
      && e.file.value.path == OutputFilePath(args[0], outputPath, ".csv", timestamp)
      && e.file.value.header == Split(fields.value, ',')
      && |e.file.value.rows| <= |Flatten(run.batches)|
      && forall i | 0 <= i < |e.file.value.rows| ::
           Row(Flatten(run.batches)[i], e.file.value.header, dumps) == Ok(e.file.value.rows[i])
    ensures e.status.Ok? ==>
      && run.outcome.Done? && e.file.Some? && e.file.value.CsvFile?
      && |e.file.value.rows| == |Flatten(run.batches)| == e.status.value
    ensures |args| == 1 && fields.Some? ==>
      (e.status.Ok? <==> run.outcome.Done? && RowsEncode(Flatten(run.batches), Split(fields.value, ','), dumps))
    ensures |args| == 1 && fields.Some? && RowsEncode(Flatten(run.batches), Split(fields.value, ','), dumps) ==>
      && |e.file.value.rows| == |Flatten(run.batches)|
      && (e.status.Err? ==> Some(e.status.error) == EndOf(run.outcome))
    ensures |args| == 1 && fields.Some? && !RowsEncode(Flatten(run.batches), Split(fields.value, ','), dumps) ==>
      var n := |e.file.value.rows|;
      && n < |Flatten(run.batches)|
      && Row(Flatten(run.batches)[n], Split(fields.value, ','), dumps).Err?
      && e.status == Err(Row(Flatten(run.batches)[n], Split(fields.value, ','), dumps).error)
  {
    match ArgsGuard(args, "save_to_csv")
    case Some(f) => Export(None, Err(f))
    case None =>
      match fields
      case None => Export(None, Err(FieldsNotText))
      case Some(text) =>
        var headers := Split(text, ',');
        var path := OutputFilePath(args[0], outputPath, ".csv", timestamp);
        var written := CsvRows(Flatten(run.batches), headers, dumps);
        var file := CsvFile(path, headers, written.0);
        CsvRowsComplete(Flatten(run.batches), headers, dumps);
        TotalCountsRecords(run.batches);
        if written.1.Some? then Export(Some(file), Err(written.1.value))
        else match EndOf(run.outcome)
          case None => Export(Some(file), Ok(Total(run.batches)))
          case Some(f) => Export(Some(file), Err(f))
  }

  // ---------------------------------------------------------------------
  // start_time_trending
  // ---------------------------------------------------------------------

  /** A histogram in first-seen key order, as a `Counter` keeps it. */
  type Histogram = seq<(string, nat)>

  function CountSum(h: Histogram): nat {
    if |h| == 0 then 0 else h[0].1 + CountSum(h[1..])
  }

  predicate DistinctKeys(h: Histogram) {
    forall i, j | 0 <= i < j < |h| :: h[i].0 != h[j].0
  }

  /** Count one more `k`. */
  function Bump(h: Histogram, k: string): (b: Histogram)
    requires DistinctKeys(h)
    ensures |b| == |h| + (if k in Firsts(h) then 0 else 1)
    ensures forall i | 0 <= i < |h| :: b[i].0 == h[i].0 && b[i].1 == h[i].1 + (if h[i].0 == k then 1 else 0)
    ensures k !in Firsts(h) ==> b[|h|] == (k, 1)
    ensures CountSum(b) == CountSum(h) + 1
    decreases |h|
  {
    if |h| == 0 then [(k, 1)]
    else if h[0].0 == k then
      assert k !in Firsts(h[1..]);
      [(k, h[0].1 + 1)] + h[1..]
    else
      assert k in Firsts(h) <==> k in Firsts(h[1..]);
      [h[0]] + Bump(h[1..], k)
  }

  /** `Counter.update` over the keys, one at a time. */
  function Tally(keys: seq<string>): (h: Histogram)
    ensures DistinctKeys(h)
    decreases |keys|
  {
    if |keys| == 0 then []
    else
      var h := Tally(keys[..|keys| - 1]);
      BumpDistinct(h, keys[|keys| - 1]);
      Bump(h, keys[|keys| - 1])
  }

  lemma BumpDistinct(h: Histogram, k: string)
    requires DistinctKeys(h)
    ensures DistinctKeys(Bump(h, k))
  {
    var b := Bump(h, k);
    forall i, j | 0 <= i < j < |b|
      ensures b[i].0 != b[j].0
    {
      if j < |h| {
        assert b[i].0 == h[i].0 && b[j].0 == h[j].0;
      } else {
        assert k !in Firsts(h) && b[j].0 == k;
        assert Firsts(h)[i] == h[i].0 == b[i].0;
      }
    }
  }

  /** The tally lists each distinct key once, in order of first occurrence. */
  lemma {:induction false} TallyKeys(keys: seq<string>)
    ensures Firsts(Tally(keys)) == Distinct(keys)
    decreases |keys|
  {
    if |keys| > 0 {
      var init := keys[..|keys| - 1];
      var k := keys[|keys| - 1];
      var h := Tally(init);
      TallyKeys(init);
      assert Tally(keys) == Bump(h, k);
      BumpKeys(h, k);
    }
  }

  lemma {:induction false} BumpKeys(h: Histogram, k: string)
    requires DistinctKeys(h)
    ensures Firsts(Bump(h, k)) == if k in Firsts(h) then Firsts(h) else Firsts(h) + [k]
    decreases |h|
  {
    if |h| > 0 && h[0].0 != k {
      var t := h[1..];
      assert DistinctKeys(t) by {
        forall i, j | 0 <= i < j < |t| ensures t[i].0 != t[j].0 {
          assert t[i] == h[i + 1] && t[j] == h[j + 1];
        }
      }
      BumpKeys(t, k);
      assert Firsts(h) == [h[0].0] + Firsts(t);
      assert Bump(h, k) == [h[0]] + Bump(t, k);
      assert Firsts(Bump(h, k)) == [h[0].0] + Firsts(Bump(t, k));
      assert k in Firsts(h) <==> k in Firsts(t);
    }
  }

  /** Each key of the tally comes with the number of times it occurs. */
  lemma {:induction false} TallyCountsOccurrences(keys: seq<string>)
    ensures forall i | 0 <= i < |Tally(keys)| :: Tally(keys)[i].1 == Occurrences(keys, Tally(keys)[i].0)
    decreases |keys|
  {
    if |keys| > 0 {
      var init := keys[..|keys| - 1];
      var k := keys[|keys| - 1];
      var h := Tally(init);
      TallyCountsOccurrences(init);
      var b := Bump(h, k);
      assert Tally(keys) == b;
      forall i | 0 <= i < |b| ensures b[i].1 == Occurrences(keys, b[i].0) {
        if i == |h| {
          TallyKeys(init);
          assert k !in init;
          OccurrencesAbsent(init, k);
        }
      }
    }
  }

  /** The counts of the tally add up to the number of keys. */
  lemma {:induction false} TallySum(keys: seq<string>)
    ensures CountSum(Tally(keys)) == |keys|
    decreases |keys|
  {
    if |keys| > 0 {
      TallySum(keys[..|keys| - 1]);
    }
  }

  lemma {:induction false} OccurrencesAbsent(s: seq<string>, x: string)
    requires x !in s
    ensures Occurrences(s, x) == 0
    decreases |s|
  {
    if |s| > 0 {
      assert s[..|s| - 1][..] == s[..|s| - 1];
      assert forall y | y in s[..|s| - 1] :: y in s;
      OccurrencesAbsent(s[..|s| - 1], x);
    }
  }

  /** The delivery-start date of a record, when it has a readable one. */
  function StartDate(rec: Record): Option<Date> {
    if StartTimeField in rec && rec[StartTimeField].Str? then ParseIso(rec[StartTimeField].text) else None
  }

  /** The date key of one record: its delivery-start date, read and printed
      back as `YYYY-MM-DD`. A record without the field, or with an unreadable
      one, raises. */
  function StartDateKey(rec: Record): (r: Result<string, ExportFault>)
    ensures r.Ok? <==> StartDate(rec).Some?
    ensures r.Ok? ==> r.value == FormatIso(StartDate(rec).value) && ParseIso(r.value) == StartDate(rec)
    ensures StartTimeField !in rec ==> r == Err(Raised(MissingKey(StartTimeField)))
    ensures StartTimeField in rec && !rec[StartTimeField].Str? ==> r == Err(Raised(StartTimeNotText))
    ensures StartTimeField in rec && rec[StartTimeField].Str? && StartDate(rec).None? ==>
      r == Err(Raised(BadDate(rec[StartTimeField].text)))
  {
    if StartTimeField !in rec then Err(Raised(MissingKey(StartTimeField)))
    else match rec[StartTimeField]
      case Str(text) =>
        (match ParseIso(text)
         case None => Err(Raised(BadDate(text)))
         case Some(d) =>
           ParseFormatRoundTrip(d);
           Ok(FormatIso(d)))
      case _ => Err(Raised(StartTimeNotText))
  }

  /** The keys of all records, or the fault of the first record without one. */
  function StartDateKeys(records: seq<Record>): (r: Result<seq<string>, ExportFault>)
    ensures r.Ok? <==> forall i | 0 <= i < |records| :: StartDateKey(records[i]).Ok?
    ensures r.Ok? ==> |r.value| == |records|
    ensures r.Ok? ==> forall i | 0 <= i < |records| :: StartDateKey(records[i]) == Ok(r.value[i])
    ensures r.Err? ==> exists i | 0 <= i < |records| :: StartDateKey(records[i]) == Err(r.error)
    decreases |records|
  {
    if |records| == 0 then Ok([])
    else
      match StartDateKey(records[0])
      case Err(f) => Err(f)
      case Ok(k) =>
        match StartDateKeys(records[1..])
        case Err(f) =>
          KeyFaultShifts(records, f);
          Err(f)
        case Ok(ks) =>
          KeysShift(records, k, ks);
          Ok([k] + ks)
  }

  lemma KeyFaultShifts(records: seq<Record>, f: ExportFault)
    requires |records| > 0
    requires exists i | 0 <= i < |records| - 1 :: StartDateKey(records[1..][i]) == Err(f)
    ensures exists i | 0 <= i < |records| :: StartDateKey(records[i]) == Err(f)
  {
    var i :| 0 <= i < |records| - 1 && StartDateKey(records[1..][i]) == Err(f);
    assert records[1..][i] == records[i + 1];
  }

  lemma KeysShift(records: seq<Record>, k: string, ks: seq<string>)
    requires |records| > 0 && |ks| == |records| - 1
    requires StartDateKey(records[0]) == Ok(k)
    requires forall i | 0 <= i < |records| - 1 :: StartDateKey(records[1..][i]) == Ok(ks[i])
    ensures forall i | 0 <= i < |records| :: StartDateKey(records[i]) == Ok(([k] + ks)[i])
  {
    var hasKey := (r, key) => StartDateKey(r) == Ok(key);
    RelatedShift(records, k, ks, hasKey);
  }

  /** Two readable records get the same key exactly when they start on the
      same day: the key is a canonical spelling, so `2021-1-5` and
      `2021-01-05` are counted together. */
  lemma SameKeyIffSameDate(a: Record, b: Record)
    ensures StartDateKey(a).Ok? && StartDateKey(b).Ok? ==>
      (StartDateKey(a).value == StartDateKey(b).value <==> StartDate(a) == StartDate(b))
  {
  }

  /** Every key is the printed form of the date it reads back as. */
  lemma CanonicalKeys(records: seq<Record>, keys: seq<string>)
    requires |keys| == |records|
    requires forall i | 0 <= i < |records| :: StartDateKey(records[i]) == Ok(keys[i])
    ensures forall x | x in keys :: ParseIso(x).Some? && x == FormatIso(ParseIso(x).value)
  {
    forall x | x in keys
      ensures ParseIso(x).Some? && x == FormatIso(ParseIso(x).value)
    {
      var k :| 0 <= k < |keys| && keys[k] == x;
      assert StartDateKey(records[k]) == Ok(x);
    }
  }

  /** How many records start on day `d`. */
  function DatedCount(records: seq<Record>, d: Date): nat
    decreases |records|
  {
    if |records| == 0 then 0
    else DatedCount(records[..|records| - 1], d) + (if StartDate(records[|records| - 1]) == Some(d) then 1 else 0)
  }

  /** The occurrences of a date's key among the keys are the records that
      start on that date. */
  lemma {:induction false} KeyCountsDates(records: seq<Record>, keys: seq<string>, d: Date)
    requires Valid(d)
    requires |keys| == |records|
    requires forall i | 0 <= i < |records| :: StartDateKey(records[i]) == Ok(keys[i])
    ensures Occurrences(keys, FormatIso(d)) == DatedCount(records, d)
    decreases |records|
  {
    if |records| > 0 {
      var n := |records| - 1;
      KeyCountsDates(records[..n], keys[..n], d);
      ParseFormatRoundTrip(d);
      assert StartDateKey(records[n]) == Ok(keys[n]);
      assert keys[n] == FormatIso(d) <==> StartDate(records[n]) == Some(d);
    }
  }

  /** The `date, count` lines written for a histogram. */
  function TrendLines(h: Histogram): (lines: seq<string>)
    ensures |lines| == |h|
    ensures forall i | 0 <= i < |h| :: lines[i] == h[i].0 + ", " + NatToText(h[i].1)
  {
    if |h| == 0 then [] else [h[0].0 + ", " + NatToText(h[0].1)] + TrendLines(h[1..])
  }

  /** `count_start_time_trending`: tally the records by start date after the
      traversal ends; the file is written only then, with a `date, count`
      header and one line per distinct date. */
  function StartTimeTrendingOf(run: Run, args: seq<string>, outputPath: string, timestamp: string): (e: Export)
    ensures |args| != 1 ==> e == Export(None, Err(Usage("start_time_trending" + " action takes 1 argument: output_keyword")))
    ensures e.file.Some? <==> e.status.Ok?
    ensures e.status.Ok? ==> run.outcome.Done? && e.status.value == |Flatten(run.batches)|
    ensures e.status.Ok? ==>
      && e.file.value.TextFile?
      && e.file.value.path == OutputFilePath(args[0], outputPath, ".csv", timestamp)
      && |e.file.value.lines| >= 1 && e.file.value.lines[0] == "date, count"
    ensures |args| == 1 ==>
      (e.status.Ok? <==> run.outcome.Done? && StartDateKeys(Flatten(run.batches)).Ok?)
    ensures |args| == 1 && StartDateKeys(Flatten(run.batches)).Err? ==>
      e.status == Err(StartDateKeys(Flatten(run.batches)).error)
    ensures |args| == 1 && StartDateKeys(Flatten(run.batches)).Ok? && !run.outcome.Done? ==>
      Some(e.status.error) == EndOf(run.outcome)
  {
    match ArgsGuard(args, "start_time_trending")
    case Some(f) => Export(None, Err(f))
    case None =>
      var path := OutputFilePath(args[0], outputPath, ".csv", timestamp);
      match StartDateKeys(Flatten(run.batches))
      case Err(f) => Export(None, Err(f))
      case Ok(dates) =>
        match EndOf(run.outcome)
        case Some(f) => Export(None, Err(f))
        case None =>
          TotalCountsRecords(run.batches);
          Export(Some(TextFile(path, ["date, count"] + TrendLines(Tally(dates)))), Ok(Total(run.batches)))
  }

  /** After the header, the trending file has one line per start day of the
      records, in first-seen order: each line's date is printed as
      `YYYY-MM-DD`, no day has two lines, and each count is the number of
      records that start that day; the counts add up to the record total. */
  lemma TrendingHistogram(run: Run, args: seq<string>, outputPath: string, timestamp: string)
    ensures var e := StartTimeTrendingOf(run, args, outputPath, timestamp);
      e.status.Ok? ==>
      var records := Flatten(run.batches);
      var dates := StartDateKeys(records).value;
      var h := Tally(dates);
      && e.file.value.lines == ["date, count"] + TrendLines(h)
      && Firsts(h) == Distinct(dates)
      && (forall i | 0 <= i < |h| :: ParseIso(h[i].0).Some? && h[i].0 == FormatIso(ParseIso(h[i].0).value))
      && (forall i, j | 0 <= i < j < |h| :: ParseIso(h[i].0) != ParseIso(h[j].0))
      && (forall i | 0 <= i < |h| :: h[i].1 == DatedCount(records, ParseIso(h[i].0).value))
      && CountSum(h) == e.status.value
  {
    if StartTimeTrendingOf(run, args, outputPath, timestamp).status.Err? {
      return;
    }
    var records := Flatten(run.batches);
    var dates := StartDateKeys(records).value;
    var h := Tally(dates);
    TallyKeys(dates);
    TallyCountsOccurrences(dates);
    TallySum(dates);
    TotalCountsRecords(run.batches);
    CanonicalKeys(records, dates);
    forall i | 0 <= i < |h|
      ensures ParseIso(h[i].0).Some? && h[i].0 == FormatIso(ParseIso(h[i].0).value)
      ensures h[i].1 == DatedCount(records, ParseIso(h[i].0).value)
    {
      assert Firsts(h)[i] == h[i].0;
      assert h[i].0 in dates;
      KeyCountsDates(records, dates, ParseIso(h[i].0).value);
    }
    forall i, j | 0 <= i < j < |h|
      ensures ParseIso(h[i].0) != ParseIso(h[j].0)
    {
      assert h[i].0 != h[j].0;
    }
  }

  /** On the records of any traversal that ends normally, the trending action
      succeeds: the filter has already read every date it keeps. */
  lemma TrendingSucceedsAfterTraversal(t: Config, responses: seq<Response>, args: seq<string>,
                                       outputPath: string, timestamp: string)
    ensures var run := GenerateAdArchives(t, responses);
      |args| == 1 && run.outcome.Done? ==> StartTimeTrendingOf(run, args, outputPath, timestamp).status.Ok?
  {
    match ParseIso(t.afterDate)
    case None =>
    case Some(cutoff) =>
      TrendingReadsWalkedDates(InitialUrl(t), cutoff, t.retryLimit, Fresh, responses);
  }

  /** Every record is dated on or after the cutoff. */
  predicate AllStartOnOrAfter(records: seq<Record>, cutoff: Date) {
    forall i | 0 <= i < |records| :: StartsOnOrAfter(records[i], cutoff)
  }

  lemma FilteredPageStarts(data: seq<Record>, cutoff: Date)
    requires FilterPage(data, cutoff).Ok?
    ensures AllStartOnOrAfter(FilterPage(data, cutoff).value, cutoff)
  {
    var kept := FilterPage(data, cutoff).value;
    forall i | 0 <= i < |kept| ensures StartsOnOrAfter(kept[i], cutoff) {
      assert multiset(kept)[kept[i]] > 0;
    }
  }

  lemma AllStartConcat(a: seq<Record>, b: seq<Record>, cutoff: Date)
    requires AllStartOnOrAfter(a, cutoff) && AllStartOnOrAfter(b, cutoff)
    ensures AllStartOnOrAfter(a + b, cutoff)
  {
    var all := a + b;
    forall i | 0 <= i < |all| ensures StartsOnOrAfter(all[i], cutoff) {
      if i >= |a| {
        assert all[i] == b[i - |a|];
      }
    }
  }

  lemma {:induction false} HarvestStarts(responses: seq<Response>, cutoff: Date)
    ensures AllStartOnOrAfter(Flatten(Harvest(responses, cutoff)), cutoff)
    decreases |responses|
  {
    if |responses| > 0 {
      var y := Yield(responses[0], cutoff);
      var rest := Harvest(responses[1..], cutoff);
      HarvestStarts(responses[1..], cutoff);
      if |y| > 0 {
        FilteredPageStarts(responses[0].data.value, cutoff);
        assert Harvest(responses, cutoff) == [y[0]] + rest;
        assert Flatten([y[0]] + rest) == y[0] + Flatten(rest) by {
          assert ([y[0]] + rest)[1..] == rest;
        }
        AllStartConcat(y[0], Flatten(rest), cutoff);
      } else {
        assert Harvest(responses, cutoff) == rest;
      }
    }
  }

  lemma {:induction false} DatedRecordsHaveKeys(records: seq<Record>, cutoff: Date)
    requires AllStartOnOrAfter(records, cutoff)
    ensures StartDateKeys(records).Ok?
    ensures forall i | 0 <= i < |records| ::
      ParseIso(StartDateKeys(records).value[i]).Some?
      && OnOrAfter(ParseIso(StartDateKeys(records).value[i]).value, cutoff)
    decreases |records|
  {
    if |records| > 0 {
      DatedRecordsHaveKeys(records[1..], cutoff);
    }
  }

  /** The date tally never raises on what a traversal yields, and every date
      it counts is on or after the cutoff: the traversal's filter has already
      read each date and dropped the earlier ones. */
  lemma TrendingReadsWalkedDates(url: Url, cutoff: Date, limit: int, retry: RetryState, responses: seq<Response>)
    ensures var records := Flatten(Walk(url, cutoff, limit, retry, responses).batches);
      && StartDateKeys(records).Ok?
      && forall i | 0 <= i < |records| ::
           ParseIso(StartDateKeys(records).value[i]).Some?
           && OnOrAfter(ParseIso(StartDateKeys(records).value[i]).value, cutoff)
  {
    var run := Walk(url, cutoff, limit, retry, responses);
    WalkYieldsFilteredPages(url, cutoff, limit, retry, responses);
    HarvestStarts(responses[..|run.requested|], cutoff);
    DatedRecordsHaveKeys(Flatten(run.batches), cutoff);
  }
}
