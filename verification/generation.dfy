/** `generateSyntheticData`: for each of `recordCount` records, one fresh
    object filled column by column with the sampler the column's type
    selects. The simulated delay is not modelled; what the promise
    resolves with is. */
module Generation {
  import opened Basics
  import opened Text
  import opened JsObject
  import opened Schema
  import opened Samplers

  /** What the generator reads besides its arguments: `Math.random`, the
      behaviour of `Number(x.toFixed(d))`, and the clock. */
  datatype Env = Env(rng: DrawStream, round: Rounding, clock: Clock)

  /** The length the generator passes to `generateString`. */
  const StringLength := 8

  /** The settings a number column is sampled with. */
  datatype NumberSettings = NumberSettings(min: real, max: real, decimals: int)

  /** `column.options?.min ?? 0` and its two siblings. */
  function NumberSettingsOf(c: Column): NumberSettings {
    var o := c.options.GetOr(EmptyOptions);
    NumberSettings(o.min.GetOr(0.0), o.max.GetOr(100.0), o.decimals.GetOr(0))
  }

  /** Absent options, or absent fields, fall back to min 0, max 100 and
      0 decimals; present fields are used as given. */
  lemma NumberSettingsDefaults(c: Column)
    ensures c.options.None? ==> NumberSettingsOf(c) == NumberSettings(0.0, 100.0, 0)
    ensures c.options.Some? ==>
      && NumberSettingsOf(c).min == (if c.options.value.min.Some? then c.options.value.min.value else 0.0)
      && NumberSettingsOf(c).max == (if c.options.value.max.Some? then c.options.value.max.value else 100.0)
      && NumberSettingsOf(c).decimals == (if c.options.value.decimals.Some? then c.options.value.decimals.value else 0)
  {
  }

  /** How many `Math.random` calls the sampler for column c makes. */
  function DrawsFor(c: Column): nat {
    match KindOf(c.columnType)
    case StringKind => StringLength
    case UnknownKind => 0
    case _ => 1
  }

  /** A number column whose digit count `toFixed` rejects. */
  predicate Throws(c: Column) {
    KindOf(c.columnType) == NumberKind
    && !(0 <= NumberSettingsOf(c).decimals <= MaxFractionDigits)
  }

  /** What a value produced for column c looks like. */
  ghost predicate Conforms(c: Column, v: Value, env: Env) {
    match KindOf(c.columnType)
    case StringKind =>
      v.Str? && |v.s| == StringLength && forall i | 0 <= i < |v.s| :: IsLetter(v.s[i])
    case NumberKind =>
      var ns := NumberSettingsOf(c);
      && v.Num?
      && 0 <= ns.decimals <= MaxFractionDigits
      && exists raw :: InSampleRange(raw, ns.min, ns.max) && v.x == env.round(raw, ns.decimals)
    case BooleanKind => v.Bool?
    case DateKind => v.Str? && IsIsoDateText(v.s)
    case UnknownKind => v == Null
  }

  /** The `switch (column.type)` body: one value for column c, reading the
      draws from position pos on. */
  function SampleColumn(c: Column, env: Env, pos: nat): (r: Completion<(Value, nat)>)
    ensures r.Normal? <==> !Throws(c)
    ensures r.Normal? ==> Conforms(c, r.value.0, env) && r.value.1 == pos + DrawsFor(c)
  {
    match KindOf(c.columnType)
    case StringKind => Normal((Str(RandomString(StringLength, env.rng, pos)), pos + StringLength))
    case NumberKind =>
      var ns := NumberSettingsOf(c);
      (match GenerateNumber(ns.min, ns.max, ns.decimals, env.rng(pos), env.round)
       case RangeError => RangeError
       case Normal(x) => Normal((Num(x), pos + 1)))
    case BooleanKind => Normal((Bool(GenerateBoolean(env.rng(pos))), pos + 1))
    case DateKind => Normal((Str(GenerateDate(env.rng(pos), env.clock)), pos + 1))
    case UnknownKind => Normal((Null, pos))
  }

  /** The draws one record consumes. */
  function TotalDraws(cols: seq<Column>): nat {
    if |cols| == 0 then 0 else DrawsFor(cols[0]) + TotalDraws(cols[1..])
  }

  /** `columns.forEach(...)`: assigns each column's value into the record
      under construction, in schema order. */
  function BuildRecord(acc: Record, cols: seq<Column>, env: Env, pos: nat): (r: Completion<(Record, nat)>)
    ensures r.Normal? <==> forall j | 0 <= j < |cols| :: !Throws(cols[j])
    ensures r.Normal? ==> r.value.1 == pos + TotalDraws(cols)
    decreases |cols|
  {
    if |cols| == 0 then Normal((acc, pos))
    else
      match SampleColumn(cols[0], env, pos)
      case RangeError => RangeError
      case Normal((v, next)) =>
        assert forall j | 1 <= j < |cols| :: cols[1..][j - 1] == cols[j];
        BuildRecord(Put(acc, cols[0].name, v), cols[1..], env, next)
  }

  /** The keys of `ks` followed by each name not yet present, in order. */
  function AppendNew(ks: seq<string>, names: seq<string>): (r: seq<string>)
    ensures forall k :: k in r <==> k in ks || k in names
    decreases |names|
  {
    if |names| == 0 then ks
    else AppendNew(if names[0] in ks then ks else ks + [names[0]], names[1..])
  }

  /** The names in order of first occurrence, each once. */
  function Distinct(names: seq<string>): seq<string> {
    AppendNew([], names)
  }

  /** No name occurs twice. */
  predicate Unique(names: seq<string>) {
    forall i, j | 0 <= i < j < |names| :: names[i] != names[j]
  }

  /** Names that are already distinct come out unchanged. */
  lemma {:induction false} AppendNewUnique(ks: seq<string>, names: seq<string>)
    requires Unique(ks + names)
    ensures AppendNew(ks, names) == ks + names
    decreases |names|
  {
    if |names| > 0 {
      forall i | 0 <= i < |ks| ensures ks[i] != names[0] {
        assert (ks + names)[i] == ks[i] && (ks + names)[|ks|] == names[0];
      }
      assert (ks + [names[0]]) + names[1..] == ks + names;
      assert Unique((ks + [names[0]]) + names[1..]);
      assert (ks + [names[0]]) + names[1..] == ks + names;
      AppendNewUnique(ks + [names[0]], names[1..]);
    }
  }

  lemma DistinctOfUnique(names: seq<string>)
    requires Unique(names)
    ensures Distinct(names) == names
  {
    assert [] + names == names;
    AppendNewUnique([], names);
  }

  /** No later column has the same name as column j, so its value is the
      one the record keeps. */
  predicate LastWithName(cols: seq<Column>, j: int)
    requires 0 <= j < |cols|
  {
    forall j' | j < j' < |cols| :: cols[j'].name != cols[j].name
  }

  /** The value column c samples from the draws at `pos` on (null for a
      column whose sampler throws, which no finished record holds). */
  function ColumnSample(c: Column, env: Env, pos: nat): Value {
    match SampleColumn(c, env, pos)
    case Normal((v, _)) => v
    case RangeError => Null
  }

  /** Every column's sampler over one draw stream, as a function of the
      column and the draw position. */
  function Sampler(env: Env): (Column, nat) -> Value {
    (c: Column, at: nat) => ColumnSample(c, env, at)
  }

  /** For a column that does not throw, the sampler gives the value the
      `switch` body produces from the same draws. */
  lemma SamplerIsSampleColumn(c: Column, env: Env, at: nat)
    requires !Throws(c)
    ensures SampleColumn(c, env, at).Normal?
    ensures Sampler(env)(c, at) == SampleColumn(c, env, at).value.0
    ensures Conforms(c, Sampler(env)(c, at), env)
  {
  }

  /** What columns sample in schema order from one draw stream, each
      column reading the draws after the previous column's. */
  function Scan(cols: seq<Column>, sample: (Column, nat) -> Value, pos: nat): (vs: seq<Value>)
    ensures |vs| == |cols|
    decreases |cols|
  {
    if |cols| == 0 then []
    else [sample(cols[0], pos)] + Scan(cols[1..], sample, pos + DrawsFor(cols[0]))
  }

  /** Column j reads the draws from `pos` plus the draws of the columns
      before it. */
  lemma {:induction false} ScanAt(cols: seq<Column>, sample: (Column, nat) -> Value, pos: nat, j: int)
    requires 0 <= j < |cols|
    ensures Scan(cols, sample, pos)[j] == sample(cols[j], pos + TotalDraws(cols[..j]))
    decreases |cols|
  {
    if j == 0 {
      assert cols[..0] == [];
    } else {
      var rest := cols[1..];
      var next := pos + DrawsFor(cols[0]);
      ScanAt(rest, sample, next, j - 1);
      TotalDrawsPrefixTail(cols, j);
      assert rest[j - 1] == cols[j];
      assert Scan(cols, sample, pos)[j] == Scan(rest, sample, next)[j - 1];
    }
  }

  /** The values a record's columns sample. */
  function ColumnSamples(cols: seq<Column>, env: Env, pos: nat): (vs: seq<Value>)
    ensures |vs| == |cols|
  {
    Scan(cols, Sampler(env), pos)
  }

  /** The first column's sample, then the rest's from the draws after it. */
  lemma ColumnSamplesUnfold(cols: seq<Column>, env: Env, pos: nat, next: nat)
    requires |cols| > 0 && next == pos + DrawsFor(cols[0])
    ensures ColumnSamples(cols, env, pos) == [ColumnSample(cols[0], env, pos)] + ColumnSamples(cols[1..], env, next)
  {
  }

  /** Column j's sample is the one its sampler draws from position
      `pos` plus the draws of the columns before it. */
  lemma ColumnSampleAt(cols: seq<Column>, env: Env, pos: nat, j: int)
    requires 0 <= j < |cols|
    ensures ColumnSamples(cols, env, pos)[j] == Sampler(env)(cols[j], pos + TotalDraws(cols[..j]))
  {
    ScanAt(cols, Sampler(env), pos, j);
  }

  /** Each name holds exactly the value sampled for its last column. */
  predicate HoldsSamples(r: Record, cols: seq<Column>, env: Env, pos: nat) {
    && (forall j | 0 <= j < |cols| :: !Throws(cols[j]))
    && forall j | 0 <= j < |cols| && LastWithName(cols, j) ::
         Lookup(r, cols[j].name) == Some(ColumnSamples(cols, env, pos)[j])
  }

  /** The draws of a prefix: the first column's, then the rest's. */
  lemma TotalDrawsPrefixTail(cols: seq<Column>, j: int)
    requires 0 < j <= |cols|
    ensures TotalDraws(cols[..j]) == DrawsFor(cols[0]) + TotalDraws(cols[1..][..j - 1])
  {
    assert cols[..j][1..] == cols[1..][..j - 1];
  }

  /** Everything the generator promises about one finished record. */
  ghost predicate RecordConforms(r: Record, cols: seq<Column>, env: Env) {
    && WellFormed(r)
    && CreationOrder(r) == Distinct(Names(cols))
    && (forall k :: Lookup(r, k).Some? <==> k in Names(cols))
    && (forall j | 0 <= j < |cols| && LastWithName(cols, j) ::
          Lookup(r, cols[j].name).Some? && Conforms(cols[j], Lookup(r, cols[j].name).value, env))
  }

  /** Filling a record, apart from which draw each value came from. */
  lemma {:induction false} BuildRecordShape(acc: Record, cols: seq<Column>, env: Env, pos: nat)
    requires BuildRecord(acc, cols, env, pos).Normal?
    ensures var (r, next) := BuildRecord(acc, cols, env, pos).value;
      && CreationOrder(r) == AppendNew(CreationOrder(acc), Names(cols))
      && next == pos + TotalDraws(cols)
      && (WellFormed(acc) ==> WellFormed(r))
      && (forall k | k !in Names(cols) :: Lookup(r, k) == Lookup(acc, k))
      && (forall j | 0 <= j < |cols| && LastWithName(cols, j) ::
            Lookup(r, cols[j].name).Some? && Conforms(cols[j], Lookup(r, cols[j].name).value, env))
    decreases |cols|
  {
    if |cols| > 0 {
      var c := cols[0];
      var rest := cols[1..];
      var (v, next) := SampleColumn(c, env, pos).value;
      var acc' := Put(acc, c.name, v);
      assert BuildRecord(acc, cols, env, pos) == BuildRecord(acc', rest, env, next);
      BuildRecordShape(acc', rest, env, next);
      var (r, fin) := BuildRecord(acc, cols, env, pos).value;
      assert Names(cols) == [c.name] + Names(rest);
      if WellFormed(acc) {
        PutWellFormed(acc, c.name, v);
      }
      forall k | k !in Names(cols) ensures Lookup(r, k) == Lookup(acc, k) {
        assert k !in Names(rest);
        PutLookup(acc, c.name, v, k);
      }
      forall j | 0 <= j < |cols| && LastWithName(cols, j)
        ensures Lookup(r, cols[j].name).Some? && Conforms(cols[j], Lookup(r, cols[j].name).value, env)
      {
        if j == 0 {
          LastHeadNotLater(cols);
          PutLookup(acc, c.name, v, c.name);
        } else {
          LastWithNameTail(cols, j);
        }
      }
    }
  }

  /** Each value of a filled record is the sample of the last column with
      that name, taken from the draws that column reads. */
  lemma {:induction false} BuildRecordSamples(acc: Record, cols: seq<Column>, env: Env, pos: nat)
    requires BuildRecord(acc, cols, env, pos).Normal?
    ensures HoldsSamples(BuildRecord(acc, cols, env, pos).value.0, cols, env, pos)
    decreases |cols|
  {
    if |cols| > 0 {
      var c := cols[0];
      var rest := cols[1..];
      var (v, next) := SampleColumn(c, env, pos).value;
      var acc' := Put(acc, c.name, v);
      assert BuildRecord(acc, cols, env, pos) == BuildRecord(acc', rest, env, next);
      BuildRecordSamples(acc', rest, env, next);
      BuildRecordShape(acc', rest, env, next);
      var r := BuildRecord(acc, cols, env, pos).value.0;
      assert next == pos + DrawsFor(c);
      var tail := ColumnSamples(rest, env, next);
      var vs := ColumnSamples(cols, env, pos);
      ColumnSamplesUnfold(cols, env, pos, next);
      forall j | 0 <= j < |cols| && LastWithName(cols, j)
        ensures Lookup(r, cols[j].name) == Some(vs[j])
      {
        if j == 0 {
          LastHeadNotLater(cols);
          PutLookup(acc, c.name, v, c.name);
          assert Lookup(r, c.name) == Lookup(acc', c.name);
          assert vs[0] == v;
        } else {
          LastWithNameTail(cols, j);
          assert rest[j - 1] == cols[j];
          assert Lookup(r, rest[j - 1].name) == Some(tail[j - 1]);
          assert vs[j] == tail[j - 1];
        }
      }
    }
  }

  /** Filling a record: the names come after the existing ones in first
      occurrence order, untouched names keep their values, and each name
      holds the value sampled for its last column. */
  lemma BuildRecordSpec(acc: Record, cols: seq<Column>, env: Env, pos: nat)
    requires BuildRecord(acc, cols, env, pos).Normal?
    ensures var (r, next) := BuildRecord(acc, cols, env, pos).value;
      && CreationOrder(r) == AppendNew(CreationOrder(acc), Names(cols))
      && next == pos + TotalDraws(cols)
      && (WellFormed(acc) ==> WellFormed(r))
      && (forall k | k !in Names(cols) :: Lookup(r, k) == Lookup(acc, k))
      && (forall j | 0 <= j < |cols| && LastWithName(cols, j) ::
            Lookup(r, cols[j].name).Some? && Conforms(cols[j], Lookup(r, cols[j].name).value, env))
      && HoldsSamples(r, cols, env, pos)
  {
    BuildRecordShape(acc, cols, env, pos);
    BuildRecordSamples(acc, cols, env, pos);
  }

  lemma LastHeadNotLater(cols: seq<Column>)
    requires |cols| > 0 && LastWithName(cols, 0)
    ensures cols[0].name !in Names(cols[1..])
  {
    var rest := cols[1..];
    forall j' | 0 <= j' < |rest| ensures Names(rest)[j'] != cols[0].name {
      assert rest[j'] == cols[j' + 1];
    }
  }

  lemma LastWithNameTail(cols: seq<Column>, j: int)
    requires 0 < j < |cols| && LastWithName(cols, j)
    ensures cols[1..][j - 1] == cols[j] && LastWithName(cols[1..], j - 1)
  {
    var rest := cols[1..];
    forall j' | j - 1 < j' < |rest| ensures rest[j'].name != rest[j - 1].name {
      assert rest[j'] == cols[j' + 1];
    }
  }

  /** A record started from `{}` meets every promise. */
  lemma FreshRecordConforms(cols: seq<Column>, env: Env, pos: nat)
    requires BuildRecord([], cols, env, pos).Normal?
    ensures RecordConforms(BuildRecord([], cols, env, pos).value.0, cols, env)
    ensures HoldsSamples(BuildRecord([], cols, env, pos).value.0, cols, env, pos)
    ensures BuildRecord([], cols, env, pos).value.1 == pos + TotalDraws(cols)
  {
    BuildRecordSpec([], cols, env, pos);
  }

  /** The record loop: n fresh records, each reading the draws after the
      previous one's. */
  function BuildRecords(n: nat, cols: seq<Column>, env: Env, pos: nat): (r: Completion<(seq<Record>, nat)>)
    ensures r.Normal? <==> n == 0 || forall j | 0 <= j < |cols| :: !Throws(cols[j])
    ensures r.Normal? ==> |r.value.0| == n
  {
    if n == 0 then Normal(([], pos))
    else
      match BuildRecord([], cols, env, pos)
      case RangeError => RangeError
      case Normal((rec, next)) =>
        match BuildRecords(n - 1, cols, env, next)
        case RangeError => RangeError
        case Normal((recs, fin)) => Normal(([rec] + recs, fin))
  }

  /** Where record i starts reading the draws: after i records' worth. */
  function RecordStart(i: nat, cols: seq<Column>): nat {
    if i == 0 then 0 else RecordStart(i - 1, cols) + TotalDraws(cols)
  }

  /** Record i starts at i times the draws of one record. */
  lemma {:induction false} RecordStartIsProduct(i: nat, cols: seq<Column>)
    ensures RecordStart(i, cols) == i * TotalDraws(cols)
  {
    if i > 0 {
      RecordStartIsProduct(i - 1, cols);
      MulStep(i, TotalDraws(cols));
    }
  }

  lemma MulStep(i: int, t: int)
    ensures (i - 1) * t + t == i * t
  {
  }

  /** Record i of the loop is the record filled from the draws at its own
      starting position `at`. */
  lemma {:induction false} RecordIsFilledAt(n: nat, cols: seq<Column>, env: Env, pos: nat, i: nat, at: nat)
    requires BuildRecords(n, cols, env, pos).Normal? && i < n
    requires at == pos + RecordStart(i, cols)
    ensures BuildRecord([], cols, env, at).Normal?
    ensures BuildRecords(n, cols, env, pos).value.0[i] == BuildRecord([], cols, env, at).value.0
    decreases n
  {
    var next := BuildRecordsUnfold(n, cols, env, pos);
    var first := BuildRecord([], cols, env, pos).value.0;
    var rest := BuildRecords(n - 1, cols, env, next).value.0;
    var recs := BuildRecords(n, cols, env, pos).value.0;
    assert recs == [first] + rest;
    if i == 0 {
      assert at == pos;
      assert recs[0] == first;
    } else {
      assert at == next + RecordStart(i - 1, cols);
      RecordIsFilledAt(n - 1, cols, env, next, i - 1, at);
      assert recs[i] == rest[i - 1];
    }
  }

  /** One turn of the record loop: the first record, then the rest from
      the draws after it. */
  lemma BuildRecordsUnfold(n: nat, cols: seq<Column>, env: Env, pos: nat) returns (next: nat)
    requires BuildRecords(n, cols, env, pos).Normal? && n > 0
    ensures BuildRecord([], cols, env, pos).Normal? && next == BuildRecord([], cols, env, pos).value.1
    ensures next == pos + TotalDraws(cols)
    ensures BuildRecords(n - 1, cols, env, next).Normal?
    ensures BuildRecords(n, cols, env, pos).value.0 == [BuildRecord([], cols, env, pos).value.0] + BuildRecords(n - 1, cols, env, next).value.0
  {
    next := BuildRecord([], cols, env, pos).value.1;
  }

  /** Every record of the loop conforms to the schema. */
  lemma BuildRecordsConform(n: nat, cols: seq<Column>, env: Env, pos: nat)
    requires BuildRecords(n, cols, env, pos).Normal?
    ensures forall i: nat | i < n :: RecordConforms(BuildRecords(n, cols, env, pos).value.0[i], cols, env)
  {
    var recs := BuildRecords(n, cols, env, pos).value.0;
    forall i: nat | i < n ensures RecordConforms(recs[i], cols, env) {
      RecordConformsAt(n, cols, env, pos, i, pos + RecordStart(i, cols));
    }
  }

  /** Record i of the loop conforms to the schema and holds the samples
      taken from the draws at its own starting position. */
  lemma RecordConformsAt(n: nat, cols: seq<Column>, env: Env, pos: nat, i: nat, at: nat)
    requires BuildRecords(n, cols, env, pos).Normal? && i < n
    requires at == pos + RecordStart(i, cols)
    ensures RecordConforms(BuildRecords(n, cols, env, pos).value.0[i], cols, env)
    ensures HoldsSamples(BuildRecords(n, cols, env, pos).value.0[i], cols, env, at)
  {
    RecordIsFilledAt(n, cols, env, pos, i, at);
    FreshRecordConforms(cols, env, at);
  }

  /** How `generateSyntheticData`'s promise ends: it resolves with the
      records, or, when `toFixed` throws inside the timer callback, it
      never settles. */
  datatype Generated = Resolved(data: seq<Record>) | NeverSettles

  /** The number of iterations of `for (let i = 0; i < recordCount; i++)`. */
  function RecordCountOf(config: GenerationConfig): nat {
    if config.recordCount > 0 then config.recordCount else 0
  }

  /** `generateSyntheticData(columns, config)`, reading the draws from the
      start of the stream. */
  function GenerateSyntheticData(cols: seq<Column>, config: GenerationConfig, env: Env): (r: Generated)
    ensures r.Resolved? <==> config.recordCount <= 0 || forall j | 0 <= j < |cols| :: !Throws(cols[j])
    ensures r.Resolved? ==> |r.data| == RecordCountOf(config)
    ensures r.Resolved? ==> forall i | 0 <= i < |r.data| :: RecordConforms(r.data[i], cols, env)
  {
    match BuildRecords(RecordCountOf(config), cols, env, 0)
    case RangeError => NeverSettles
    case Normal((data, _)) =>
      BuildRecordsConform(RecordCountOf(config), cols, env, 0);
      Resolved(data)
  }

  /** Record i of a batch holds, under each name, exactly the value the
      last column of that name samples from the draws starting at
      i times the draws of one record. */
  lemma GeneratedRecordsHoldSamples(cols: seq<Column>, config: GenerationConfig, env: Env, i: nat)
    requires GenerateSyntheticData(cols, config, env).Resolved?
    requires i < |GenerateSyntheticData(cols, config, env).data|
    ensures RecordStart(i, cols) == i * TotalDraws(cols)
    ensures HoldsSamples(GenerateSyntheticData(cols, config, env).data[i], cols, env, RecordStart(i, cols))
  {
    RecordStartIsProduct(i, cols);
    var n := RecordCountOf(config);
    assert GenerateSyntheticData(cols, config, env).data == BuildRecords(n, cols, env, 0).value.0;
    RecordConformsAt(n, cols, env, 0, i, RecordStart(i, cols));
  }

  /** Only the record count of the configuration matters. */
  lemma OnlyRecordCountIsRead(cols: seq<Column>, c1: GenerationConfig, c2: GenerationConfig, env: Env)
    requires c1.recordCount == c2.recordCount
    ensures GenerateSyntheticData(cols, c1, env) == GenerateSyntheticData(cols, c2, env)
  {
  }

  /** Every record of a batch reports the same keys, `Object.keys` of the
      schema's distinct names, and has exactly the schema's names. */
  lemma KeysAgreeAcrossRecords(cols: seq<Column>, config: GenerationConfig, env: Env, i: int)
    requires GenerateSyntheticData(cols, config, env).Resolved?
    requires 0 <= i < |GenerateSyntheticData(cols, config, env).data|
    ensures var rec := GenerateSyntheticData(cols, config, env).data[i];
      && Keys(rec) == ObjectKeyOrder(Distinct(Names(cols)))
      && (forall k :: k in Keys(rec) <==> k in Names(cols))
  {
    var rec := GenerateSyntheticData(cols, config, env).data[i];
    assert RecordConforms(rec, cols, env);
    KeysShape(rec);
  }

  /** A column of an unrecognised type holds `null` in every record, and
      the batch is still complete. */
  lemma UnknownColumnsAreNull(cols: seq<Column>, config: GenerationConfig, env: Env, j: int)
    requires 0 <= j < |cols| && KindOf(cols[j].columnType) == UnknownKind && LastWithName(cols, j)
    requires forall j' | 0 <= j' < |cols| :: !Throws(cols[j'])
    ensures GenerateSyntheticData(cols, config, env).Resolved?
    ensures var data := GenerateSyntheticData(cols, config, env).data;
      |data| == RecordCountOf(config)
      && forall i | 0 <= i < |data| :: Lookup(data[i], cols[j].name) == Some(Null)
  {
    var data := GenerateSyntheticData(cols, config, env).data;
    forall i | 0 <= i < |data| ensures Lookup(data[i], cols[j].name) == Some(Null) {
      assert RecordConforms(data[i], cols, env);
    }
  }
}
