/** The preview card: nothing for missing or empty data, otherwise a table
    whose columns are the first record's keys and whose rows are the first
    100 records, every cell the `String` of the record's property. */
module DataPreview {
  import opened Basics
  import opened Text
  import opened JsObject
  import opened CsvExport

  /** How many records the table shows at most. */
  const PreviewLimit := 100

  /** The rendered card: header columns, one row of cell texts per shown
      record, and the two numbers of the caption. */
  datatype View = View(columns: seq<string>, rows: seq<seq<string>>, shown: nat, total: nat)

  /** `String(row[column])`: strings as they are, numbers by their
      `String` form, booleans as words, `null` and a missing property by
      name. */
  function CellText(v: Option<Value>, show: NumberText): (t: string)
    ensures v.Some? && v.value.Str? ==> t == v.value.s
    ensures v.None? ==> t == "undefined"
    ensures v == Some(Null) ==> t == "null"
    ensures v.Some? && v.value.Bool? ==> t == (if v.value.b then "true" else "false")
    ensures t == "" ==> v == Some(Str("")) || (v.Some? && v.value.Num? && show(v.value.x) == "")
  {
    match v
    case None => "undefined"
    case Some(Null) => "null"
    case Some(Str(s)) => s
    case Some(Bool(b)) => if b then "true" else "false"
    case Some(Num(x)) => show(x)
  }

  function Cells(row: Record, columns: seq<string>, show: NumberText): (cs: seq<string>)
    ensures |cs| == |columns|
    ensures forall j | 0 <= j < |columns| :: cs[j] == CellText(Lookup(row, columns[j]), show)
  {
    seq(|columns|, j requires 0 <= j < |columns| => CellText(Lookup(row, columns[j]), show))
  }

  /** `<DataPreview data={data}/>`. */
  function Preview(data: Option<seq<Record>>, show: NumberText): (v: Option<View>)
    ensures v.None? <==> data.None? || |data.value| == 0
    ensures v.Some? ==>
      && v.value.columns == Keys(data.value[0])
      && v.value.total == |data.value|
      && v.value.shown == Min(|data.value|, PreviewLimit)
      && |v.value.rows| == v.value.shown
      && forall i | 0 <= i < v.value.shown ::
           && |v.value.rows[i]| == |v.value.columns|
           && forall j | 0 <= j < |v.value.columns| ::
                v.value.rows[i][j] == CellText(Lookup(data.value[i], v.value.columns[j]), show)
  {
    match data
    case None => None
    case Some(d) =>
      if |d| == 0 then None
      else
        var columns := Keys(d[0]);
        var window := d[..Min(|d|, PreviewLimit)];
        Some(View(columns, seq(|window|, i requires 0 <= i < |window| => Cells(window[i], columns, show)), |window|, |d|))
  }

  /** Records past the first hundred never reach the table: the rows of a
      batch are the rows of its first hundred records. */
  lemma OnlyTheWindowIsShown(d: seq<Record>, show: NumberText)
    requires |d| > 0
    ensures var w := d[..Min(|d|, PreviewLimit)];
      && Preview(Some(d), show).value.rows == Preview(Some(w), show).value.rows
      && Preview(Some(d), show).value.columns == Preview(Some(w), show).value.columns
  {
    var w := d[..Min(|d|, PreviewLimit)];
    assert w[0] == d[0];
    var a := Preview(Some(d), show).value.rows;
    var b := Preview(Some(w), show).value.rows;
    forall i | 0 <= i < |a| ensures a[i] == b[i] {
      assert w[i] == d[i];
    }
  }

  /** A batch of at most a hundred records is shown whole. */
  lemma SmallBatchShownWhole(d: seq<Record>, show: NumberText)
    requires 0 < |d| <= PreviewLimit
    ensures var v := Preview(Some(d), show).value;
      v.shown == v.total == |d| == |v.rows|
  {
  }

  /** The table's header is the CSV header: when the first record has keys
      and none holds a comma or newline, the first line of the export splits
      into exactly the preview's columns. */
  lemma PreviewColumnsAreCsvHeader(d: seq<Record>, show: NumberText, nowMs: nat)
    requires |d| > 0 && |Keys(d[0])| > 0
    requires AllFree(Keys(d[0]), ',') && AllFree(Keys(d[0]), '\n')
    ensures ParseCsv(ExportAsCsv(d, show, nowMs).value.content)[0] == Preview(Some(d), show).value.columns
  {
    var rows := CsvRows(d, show);
    JoinFree(Keys(d[0]), ',', '\n');
    FirstLine(rows);
    SplitJoin(Keys(d[0]), ',');
  }

  /** The first of several newline-joined lines comes back first when it
      holds no newline, whatever the later lines hold. */
  lemma FirstLine(rows: seq<string>)
    requires |rows| > 1 && Free(rows[0], '\n')
    ensures Split(Join(rows, '\n'), '\n')[0] == rows[0]
  {
    SplitAfterFree(rows[0], '\n', Join(rows[1..], '\n'));
  }

  /** How a cell compares with the same value's CSV field: a string loses
      its quotes, numbers and booleans agree, and `null` or a missing
      property shows a word where the CSV leaves the field empty. */
  lemma CellVersusCsvField(v: Option<Value>, show: NumberText)
    ensures v.Some? && v.value.Str? ==> FieldText(v, show) == "\"" + CellText(v, show) + "\""
    ensures v.Some? && (v.value.Num? || v.value.Bool?) ==> FieldText(v, show) == CellText(v, show)
    ensures v.None? || v == Some(Null) ==> FieldText(v, show) == "" && CellText(v, show) != ""
  {
  }
}
