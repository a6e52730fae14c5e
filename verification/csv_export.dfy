/** The delimited-text encoder inside `exportAsCSV`: a header line from
    the first record's keys, one line per record with string fields
    wrapped in double quotes and nothing escaped, lines joined by `\n`.
    The Blob, object URL and anchor click become a `Download` value. */
module CsvExport {
  import opened Basics
  import opened Text
  import opened JsObject

  /** `String(x)` for a JavaScript number (Number::toString). */
  type NumberText = real -> string

  /** The file a download hands to the browser. */
  datatype Download = Download(fileName: string, mediaType: string, content: string)

  const CsvMediaType := "text/csv;charset=utf-8;"

  /** `synthetic_data_${Date.now()}.csv`. */
  function CsvFileName(nowMs: nat): string {
    "synthetic_data_" + NatToString(nowMs) + ".csv"
  }

  /** One field as `values.join(',')` writes it: a string wrapped in
      quotes as is, a boolean or number by its `String` form, and `null`
      or a missing property (`undefined`) as nothing. */
  function FieldText(v: Option<Value>, show: NumberText): (f: string)
    ensures v.None? || v == Some(Null) ==> f == ""
    ensures v.Some? && v.value.Str? ==>
      |f| == |v.value.s| + 2 && f[0] == '"' && f[|f| - 1] == '"' && f[1..|f| - 1] == v.value.s
    ensures v.Some? && v.value.Bool? ==> f == (if v.value.b then "true" else "false")
    ensures v.Some? && v.value.Num? ==> f == show(v.value.x)
  {
    match v
    case None => ""
    case Some(Null) => ""
    case Some(Str(s)) => "\"" + s + "\""
    case Some(Bool(b)) => if b then "true" else "false"
    case Some(Num(x)) => show(x)
  }

  /** `headers.map(header => ...)` for one row. */
  function RowFields(row: Record, headers: seq<string>, show: NumberText): (fs: seq<string>)
    ensures |fs| == |headers|
    ensures forall i | 0 <= i < |headers| :: fs[i] == FieldText(Lookup(row, headers[i]), show)
  {
    if |headers| == 0 then []
    else [FieldText(Lookup(row, headers[0]), show)] + RowFields(row, headers[1..], show)
  }

  /** `values.join(',')`: one line as long as no field holds a newline,
      and its fields read back when none holds a comma. */
  function RowLine(row: Record, headers: seq<string>, show: NumberText): (line: string)
    ensures AllFree(RowFields(row, headers, show), '\n') ==> Free(line, '\n')
    ensures |headers| > 0 && AllFree(RowFields(row, headers, show), ',') ==>
      Split(line, ',') == RowFields(row, headers, show)
  {
    var fs := RowFields(row, headers, show);
    JoinedFields(fs);
    Join(fs, ',')
  }

  /** Comma-joined fields form one line when no field holds a newline, and
      split back into the fields when there is one at least and none holds
      a comma. */
  lemma JoinedFields(fs: seq<string>)
    ensures AllFree(fs, '\n') ==> Free(Join(fs, ','), '\n')
    ensures |fs| > 0 && AllFree(fs, ',') ==> Split(Join(fs, ','), ',') == fs
  {
    if AllFree(fs, '\n') {
      JoinFree(fs, ',', '\n');
    }
    if |fs| > 0 && AllFree(fs, ',') {
      SplitJoin(fs, ',');
    }
  }

  function RowLines(data: seq<Record>, headers: seq<string>, show: NumberText): (ls: seq<string>)
    ensures |ls| == |data|
    ensures forall i | 0 <= i < |data| :: ls[i] == RowLine(data[i], headers, show)
  {
    if |data| == 0 then []
    else [RowLine(data[0], headers, show)] + RowLines(data[1..], headers, show)
  }

  /** `csvRows` for a non-empty array: the header line, then one line per
      record, every record read through the first record's keys. */
  function CsvRows(data: seq<Record>, show: NumberText): (rows: seq<string>)
    requires |data| > 0
    ensures |rows| == 1 + |data|
    ensures rows[0] == Join(Keys(data[0]), ',')
    ensures forall i | 0 <= i < |data| :: rows[i + 1] == RowLine(data[i], Keys(data[0]), show)
  {
    [Join(Keys(data[0]), ',')] + RowLines(data, Keys(data[0]), show)
  }

  /** `exportAsCSV(data)`: nothing at all for an empty array, otherwise
      one CSV download whose content is the rows joined by newlines. */
  function ExportAsCsv(data: seq<Record>, show: NumberText, nowMs: nat): (r: Option<Download>)
    ensures r.None? <==> |data| == 0
    ensures r.Some? ==>
      && r.value.mediaType == CsvMediaType
      && r.value.fileName == CsvFileName(nowMs)
      && r.value.content == Join(CsvRows(data, show), '\n')
  {
    if |data| == 0 then None
    else Some(Download(CsvFileName(nowMs), CsvMediaType, Join(CsvRows(data, show), '\n')))
  }

  /** Reads CSV text back the naive way: lines, then comma-separated fields. */
  function ParseCsv(text: string): (table: seq<seq<string>>)
    ensures |table| == |Split(text, '\n')|
    ensures forall i | 0 <= i < |table| :: table[i] == Split(Split(text, '\n')[i], ',')
  {
    var lines := Split(text, '\n');
    seq(|lines|, i requires 0 <= i < |lines| => Split(lines[i], ','))
  }

  /** When no line contains a newline, the content has exactly one line per
      record plus the header, and the header is the first record's keys
      joined by commas. */
  lemma CsvLineCount(data: seq<Record>, show: NumberText, nowMs: nat)
    requires |data| > 0
    requires AllFree(CsvRows(data, show), '\n')
    ensures var lines := Split(ExportAsCsv(data, show, nowMs).value.content, '\n');
      && |lines| == 1 + |data|
      && lines[0] == Join(Keys(data[0]), ',')
  {
    SplitJoin(CsvRows(data, show), '\n');
  }

  /** Quoting does not escape: a string holding a comma turns one field
      into two when the row is read back, so the row no longer lines up
      with the header. */
  lemma UnescapedCommaSplitsField(show: NumberText, nowMs: nat)
    ensures var data := [[Entry("city", Str("Paris, TX"))]];
      var lines := Split(ExportAsCsv(data, show, nowMs).value.content, '\n');
      && |lines| == 2
      && |Split(lines[0], ',')| == 1
      && |Split(lines[1], ',')| == 2
  {
    var rows := ["city", "\"Paris, TX\""];
    CityRows(show);
    CityRowsSplit();
    SplitJoin(rows, '\n');
  }

  lemma CityRowsSplit()
    ensures AllFree(["city", "\"Paris, TX\""], '\n')
    ensures Split("city", ',') == ["city"]
    ensures Split("\"Paris, TX\"", ',') == ["\"Paris", " TX\""]
  {
    CityRowsFree();
    CitySplit();
    QuotedCommaSplit();
  }

  lemma CityRowsFree()
    ensures AllFree(["city", "\"Paris, TX\""], '\n')
  {
    var rows := ["city", "\"Paris, TX\""];
    assert Free(rows[0], '\n');
    assert Free(rows[1], '\n');
  }

  lemma CitySplit()
    ensures Split("city", ',') == ["city"]
  {
    SplitFree("city", ',');
  }

  lemma QuotedCommaSplit()
    ensures Split("\"Paris, TX\"", ',') == ["\"Paris", " TX\""]
  {
    assert "\"Paris, TX\"" == "\"Paris" + [','] + " TX\"";
    assert Free("\"Paris", ',');
    SplitAfterFree("\"Paris", ',', " TX\"");
    assert Free(" TX\"", ',');
    SplitFree(" TX\"", ',');
  }

  lemma CityKeys()
    ensures Keys([Entry("city", Str("Paris, TX"))]) == ["city"]
  {
    var rec := [Entry("city", Str("Paris, TX"))];
    assert !IsArrayIndex("city") by {
      assert !IsDigit("city"[3]);
    }
    assert CreationOrder(rec) == ["city"];
    KeysWithoutIndices(["city"]);
  }

  lemma CityFields(show: NumberText)
    ensures RowFields([Entry("city", Str("Paris, TX"))], ["city"], show) == ["\"Paris, TX\""]
  {
    var rec := [Entry("city", Str("Paris, TX"))];
    assert Lookup(rec, "city") == Some(Str("Paris, TX"));
    assert "\"" + "Paris, TX" + "\"" == "\"Paris, TX\"";
  }

  lemma CityRows(show: NumberText)
    ensures CsvRows([[Entry("city", Str("Paris, TX"))]], show) == ["city", "\"Paris, TX\""]
  {
    var data := [[Entry("city", Str("Paris, TX"))]];
    CityKeys();
    CityFields(show);
    var rows := CsvRows(data, show);
    assert rows[0] == Join(["city"], ',');
    assert rows[1] == Join(["\"Paris, TX\""], ',');
  }
}
