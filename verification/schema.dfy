/** The column schema the generator consumes (the `Column` and
    `GenerationConfig` interfaces of the data generation service). */
module Schema {
  import opened Basics
  import opened Text

  /** The loosely typed options bag shared by every column type; every
      field may be absent. */
  datatype ColumnOptions = ColumnOptions(
    min: Option<real>,
    max: Option<real>,
    decimals: Option<int>,
    values: Option<seq<string>>)

  /** The options object `{}`. */
  const EmptyOptions := ColumnOptions(None, None, None, None)

  /** One column: a name, a free-text type tag (`type`) and optional options. */
  datatype Column = Column(name: string, columnType: string, options: Option<ColumnOptions>)

  /** Parameters of one generation run; only `recordCount` is ever read
      by the generator. */
  datatype GenerationConfig = GenerationConfig(
    recordCount: int,
    modelType: string,
    variability: int,
    preserveRelationships: bool)

  /** The four type tags the generator recognises, and everything else. */
  datatype Kind = StringKind | NumberKind | BooleanKind | DateKind | UnknownKind

  /** The generator's `switch (column.type)`. */
  function KindOf(tag: string): Kind {
    if tag == "string" then StringKind
    else if tag == "number" then NumberKind
    else if tag == "boolean" then BooleanKind
    else if tag == "date" then DateKind
    else UnknownKind
  }

  /** The tag spelling of a recognised kind. */
  function TagOf(k: Kind): (tag: string)
    requires k != UnknownKind
    ensures KindOf(tag) == k
  {
    match k
    case StringKind => "string"
    case NumberKind => "number"
    case BooleanKind => "boolean"
    case DateKind => "date"
  }

  /** A tag is recognised exactly when it is the spelling of a kind. */
  lemma KindOfRecognises(tag: string)
    ensures KindOf(tag) != UnknownKind <==> exists k: Kind :: k != UnknownKind && TagOf(k) == tag
  {
    if KindOf(tag) != UnknownKind {
      assert TagOf(KindOf(tag)) == tag;
    }
  }

  /** The column names in schema order. */
  function Names(cols: seq<Column>): (ns: seq<string>)
    ensures |ns| == |cols|
    ensures forall j | 0 <= j < |cols| :: ns[j] == cols[j].name
  {
    if |cols| == 0 then [] else [cols[0].name] + Names(cols[1..])
  }
}
