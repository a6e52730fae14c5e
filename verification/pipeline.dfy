/** Properties of the whole pipeline: what the CSV encoder makes of a
    batch the generator produced, and the two-column scenario of a small
    `id`/`active` schema. */
module Pipeline {
  import opened Basics
  import opened Text
  import opened JsObject
  import opened Schema
  import opened Samplers
  import opened Generation
  import opened CsvExport

  /** Some column carries every schema name last. */
  lemma {:induction false} LastColumnNamed(cols: seq<Column>, k: string) returns (j: int)
    requires k in Names(cols)
    ensures 0 <= j < |cols| && cols[j].name == k && LastWithName(cols, j)
  {
    var n := |cols| - 1;
    if cols[n].name == k {
      j := n;
    } else {
      var init := cols[..n];
      NameInPrefix(cols, k);
      j := LastColumnNamed(init, k);
      LastWithNameExtend(cols, j);
    }
  }

  lemma NameInPrefix(cols: seq<Column>, k: string)
    requires k in Names(cols) && cols[|cols| - 1].name != k
    ensures k in Names(cols[..|cols| - 1])
  {
    var init := cols[..|cols| - 1];
    var ns := Names(cols);
    var m :| 0 <= m < |ns| && ns[m] == k;
    assert m != |cols| - 1 by {
      assert ns[|cols| - 1] == cols[|cols| - 1].name;
    }
    assert init[m] == cols[m];
    assert Names(init)[m] == init[m].name;
  }

  lemma LastWithNameExtend(cols: seq<Column>, j: int)
    requires 0 <= j < |cols| - 1
    requires LastWithName(cols[..|cols| - 1], j)
    requires cols[|cols| - 1].name != cols[j].name
    ensures LastWithName(cols, j)
  {
    var init := cols[..|cols| - 1];
    forall j' | j < j' < |cols| ensures cols[j'].name != cols[j].name {
      if j' < |cols| - 1 {
        assert init[j'] == cols[j'] && init[j] == cols[j];
      }
    }
  }

  /** The characters a separator-free value may not hold. */
  predicate Plain(s: string) {
    Free(s, ',') && Free(s, '\n')
  }

  /** Every field of a generated value is free of commas and newlines as
      long as number rendering is. */
  lemma GeneratedFieldIsPlain(c: Column, v: Value, env: Env, show: NumberText)
    requires Conforms(c, v, env)
    requires forall x :: Plain(show(x))
    ensures Plain(FieldText(Some(v), show))
  {
    match v
    case Str(s) =>
      var f := FieldText(Some(v), show);
      assert f == "\"" + s + "\"";
      assert forall i | 0 <= i < |s| :: IsLetter(s[i]) || IsDigit(s[i]) || s[i] == '-' by {
        if KindOf(c.columnType) == DateKind {
          forall i | 0 <= i < |s| ensures IsLetter(s[i]) || IsDigit(s[i]) || s[i] == '-' {
            if i != 4 && i != 7 { assert IsDigit(s[i]); }
          }
        }
      }
      forall i | 0 <= i < |f| ensures f[i] != ',' && f[i] != '\n' {
        if 0 < i < |f| - 1 { assert f[i] == s[i - 1]; }
      }
    case Bool(b) =>
    case Num(x) =>
    case Null =>
  }

  /** Any batch whose header names and fields hold no comma or newline
      reads back as a rectangle: the header row is the first record's keys,
      and every other row has one field per header. */
  lemma CsvIsRectangular(data: seq<Record>, show: NumberText, nowMs: nat)
    requires |data| > 0 && |Keys(data[0])| > 0
    requires forall m | 0 <= m < |Keys(data[0])| :: Plain(Keys(data[0])[m])
    requires forall i, m | 0 <= i < |data| && 0 <= m < |Keys(data[0])| ::
      Plain(RowFields(data[i], Keys(data[0]), show)[m])
    ensures var table := ParseCsv(ExportAsCsv(data, show, nowMs).value.content);
      && |table| == 1 + |data|
      && table[0] == Keys(data[0])
      && forall i | 1 <= i < |table| :: |table[i]| == |table[0]|
  {
    var headers := Keys(data[0]);
    var rows := CsvRows(data, show);
    forall i | 0 <= i < |rows| ensures Free(rows[i], '\n') {
      if i == 0 {
        JoinFree(headers, ',', '\n');
      } else {
        var fs := RowFields(data[i - 1], headers, show);
        assert AllFree(fs, '\n') by {
          forall m | 0 <= m < |fs| ensures Free(fs[m], '\n') {
            assert Plain(fs[m]);
          }
        }
        JoinFree(fs, ',', '\n');
      }
    }
    SplitJoin(rows, '\n');
    var table := ParseCsv(ExportAsCsv(data, show, nowMs).value.content);
    SplitJoin(headers, ',');
    forall i | 1 <= i < |table| ensures |table[i]| == |headers| {
      var fs := RowFields(data[i - 1], headers, show);
      assert AllFree(fs, ',') by {
        forall m | 0 <= m < |fs| ensures Free(fs[m], ',') {
          assert Plain(fs[m]);
        }
      }
      assert Split(RowLine(data[i - 1], headers, show), ',') == fs;
    }
  }

  /** In a conforming record, the field under any schema name is plain. */
  lemma ConformingFieldIsPlain(rec: Record, cols: seq<Column>, env: Env, show: NumberText, k: string)
    requires RecordConforms(rec, cols, env) && k in Names(cols)
    requires forall x :: Plain(show(x))
    ensures Plain(FieldText(Lookup(rec, k), show))
  {
    var j := LastColumnNamed(cols, k);
    GeneratedFieldIsPlain(cols[j], Lookup(rec, k).value, env, show);
  }

  /** The CSV export of any non-empty generated batch reads back as a
      rectangle: a header row holding the schema's distinct names in
      `Object.keys` order, then one row per record with one field per
      header, provided names and rendered numbers hold no comma or newline. */
  lemma GeneratedCsvIsRectangular(cols: seq<Column>, config: GenerationConfig, env: Env, show: NumberText, nowMs: nat)
    requires GenerateSyntheticData(cols, config, env).Resolved?
    requires RecordCountOf(config) > 0 && |cols| > 0
    requires forall j | 0 <= j < |cols| :: Plain(cols[j].name)
    requires forall x :: Plain(show(x))
    ensures var data := GenerateSyntheticData(cols, config, env).data;
      var table := ParseCsv(ExportAsCsv(data, show, nowMs).value.content);
      && |table| == 1 + |data|
      && table[0] == ObjectKeyOrder(Distinct(Names(cols)))
      && forall i | 1 <= i < |table| :: |table[i]| == |table[0]|
  {
    var data := GenerateSyntheticData(cols, config, env).data;
    KeysAgreeAcrossRecords(cols, config, env, 0);
    var headers := Keys(data[0]);
    assert |headers| > 0 by {
      assert cols[0].name in Names(cols);
      assert cols[0].name in headers;
    }
    forall m | 0 <= m < |headers| ensures Plain(headers[m]) {
      assert headers[m] in headers;
      var j :| 0 <= j < |cols| && Names(cols)[j] == headers[m];
    }
    forall i, m | 0 <= i < |data| && 0 <= m < |headers|
      ensures Plain(RowFields(data[i], headers, show)[m])
    {
      assert headers[m] in headers;
      ConformingFieldIsPlain(data[i], cols, env, show, headers[m]);
    }
    CsvIsRectangular(data, show, nowMs);
  }

  /** A schema of a whole-number `id` between 1 and 5 and a boolean `active`. */
  function IdActiveSchema(): seq<Column> {
    [ Column("id", "number", Some(ColumnOptions(Some(1.0), Some(5.0), Some(0), None))),
      Column("active", "boolean", None) ]
  }

  lemma IdActiveNames()
    ensures Distinct(Names(IdActiveSchema())) == ["id", "active"]
  {
    var ns := Names(IdActiveSchema());
    assert ns == ["id", "active"];
    assert AppendNew([], ns) == AppendNew(["id"], ["active"]);
    assert AppendNew(["id"], ["active"]) == AppendNew(["id", "active"], []);
  }

  lemma IdActiveNotIndices()
    ensures !IsArrayIndex("id") && !IsArrayIndex("active")
  {
    assert !IsDigit("id"[1]);
    assert !IsDigit("active"[5]);
  }

  /** The header the `id`/`active` schema produces. */
  lemma IdActiveHeaders()
    ensures ObjectKeyOrder(Distinct(Names(IdActiveSchema()))) == ["id", "active"]
  {
    IdActiveNames();
    IdActiveNotIndices();
    KeysWithoutIndices(["id", "active"]);
  }

  /** The `id`/`active` schema never makes the generator throw. */
  lemma IdActiveNeverThrows()
    ensures forall j | 0 <= j < |IdActiveSchema()| :: !Throws(IdActiveSchema()[j])
  {
    var cols := IdActiveSchema();
    assert NumberSettingsOf(cols[0]) == NumberSettings(1.0, 5.0, 0);
  }

  /** Each record of the `id`/`active` schema holds a whole-number draw
      in [1, 5) under `id` and a boolean under `active`. */
  lemma IdActiveRecord(rec: Record, env: Env)
    requires RecordConforms(rec, IdActiveSchema(), env)
    ensures Lookup(rec, "id").Some? && Lookup(rec, "id").value.Num?
    ensures exists raw :: 1.0 <= raw < 5.0 && Lookup(rec, "id").value.x == env.round(raw, 0)
    ensures Lookup(rec, "active").Some? && Lookup(rec, "active").value.Bool?
  {
    var cols := IdActiveSchema();
    assert NumberSettingsOf(cols[0]) == NumberSettings(1.0, 5.0, 0);
    assert LastWithName(cols, 0) && LastWithName(cols, 1);
    assert Conforms(cols[0], Lookup(rec, "id").value, env);
    assert Conforms(cols[1], Lookup(rec, "active").value, env);
  }

  /** Three records of the `id`/`active` schema: the batch settles with
      three records, each `id` the rounding to whole numbers of a draw in
      [1, 5) and each `active` a boolean. */
  lemma IdActiveGenerates(config: GenerationConfig, env: Env)
    requires config.recordCount == 3
    ensures var r := GenerateSyntheticData(IdActiveSchema(), config, env);
      && r.Resolved? && |r.data| == 3
      && forall i | 0 <= i < 3 ::
           && Lookup(r.data[i], "id").Some? && Lookup(r.data[i], "id").value.Num?
           && (exists raw :: 1.0 <= raw < 5.0 && Lookup(r.data[i], "id").value.x == env.round(raw, 0))
           && Lookup(r.data[i], "active").Some? && Lookup(r.data[i], "active").value.Bool?
  {
    IdActiveNeverThrows();
    var r := GenerateSyntheticData(IdActiveSchema(), config, env);
    forall i | 0 <= i < 3
      ensures && Lookup(r.data[i], "id").Some? && Lookup(r.data[i], "id").value.Num?
              && (exists raw :: 1.0 <= raw < 5.0 && Lookup(r.data[i], "id").value.x == env.round(raw, 0))
              && Lookup(r.data[i], "active").Some? && Lookup(r.data[i], "active").value.Bool?
    {
      IdActiveRecord(r.data[i], env);
    }
  }

  /** The export of those three records reads back as four rows of two
      fields, the first being the header `id`, `active`. */
  lemma IdActiveExport(config: GenerationConfig, env: Env, show: NumberText, nowMs: nat)
    requires config.recordCount == 3
    requires forall x :: Plain(show(x))
    ensures GenerateSyntheticData(IdActiveSchema(), config, env).Resolved?
    ensures var table := ParseCsv(ExportAsCsv(GenerateSyntheticData(IdActiveSchema(), config, env).data, show, nowMs).value.content);
      && |table| == 4 && table[0] == ["id", "active"]
      && |table[1]| == |table[2]| == |table[3]| == 2
  {
    var cols := IdActiveSchema();
    IdActiveNeverThrows();
    assert forall j | 0 <= j < |cols| :: Plain(cols[j].name) by {
      assert Plain(cols[0].name) && Plain(cols[1].name);
    }
    GeneratedCsvIsRectangular(cols, config, env, show, nowMs);
    IdActiveHeaders();
  }
}
