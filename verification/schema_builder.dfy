/** The schema editor's list operations: append a column, remove by id,
    rename, change type (which resets the options) and merge options.
    Each is a pure update of the column list; the React state setter is
    left out. */
module SchemaBuilder {
  import opened Basics
  import opened Text
  import opened Schema

  /** The four type tags the editor offers. */
  predicate IsColumnType(t: string) {
    t == "string" || t == "number" || t == "boolean" || t == "date"
  }

  type ColumnType = t: string | IsColumnType(t) witness "string"

  /** An editor row: an id used as the React key and as the handle of
      every update, a name, a type and optional options. */
  datatype EditorColumn = EditorColumn(id: string, name: string, columnType: ColumnType, options: Option<ColumnOptions>)

  /** The list the editor starts with. */
  function InitialColumns(): seq<EditorColumn> {
    [ EditorColumn("1", "id", "number", Some(ColumnOptions(Some(1.0), Some(1000.0), None, None))),
      EditorColumn("2", "name", "string", None),
      EditorColumn("3", "age", "number", Some(ColumnOptions(Some(18.0), Some(65.0), None, None))) ]
  }

  /** The column ids in list order. */
  function Ids(cols: seq<EditorColumn>): (ids: seq<string>)
    ensures |ids| == |cols|
    ensures forall i | 0 <= i < |cols| :: ids[i] == cols[i].id
  {
    if |cols| == 0 then [] else [cols[0].id] + Ids(cols[1..])
  }

  /** No two columns share an id. */
  predicate DistinctIds(cols: seq<EditorColumn>) {
    forall i, j | 0 <= i < j < |cols| :: cols[i].id != cols[j].id
  }

  /** How many columns carry the given id. */
  function CountId(cols: seq<EditorColumn>, id: string): nat {
    if |cols| == 0 then 0
    else (if cols[0].id == id then 1 else 0) + CountId(cols[1..], id)
  }

  // ---------------------------------------------------------------------
  // Adding

  /** The new column's id and name for a given id. */
  function NewColumn(id: string): EditorColumn {
    EditorColumn(id, "column_" + id, "string", None)
  }

  /** `addColumn` as written: the id is the list length plus one, so it
      names a column that may already exist once a column was removed. */
  function AddColumn(cols: seq<EditorColumn>): (r: seq<EditorColumn>)
    ensures |r| == |cols| + 1 && r[..|cols|] == cols
    ensures r[|cols|].columnType == "string" && r[|cols|].options.None?
    ensures r[|cols|].name == "column_" + r[|cols|].id
    ensures r[|cols|].id == NatToString(|cols| + 1)
    ensures ParseNat(r[|cols|].id) == Some(|cols| + 1)
  {
    ParseNatToString(|cols| + 1);
    cols + [NewColumn(NatToString(|cols| + 1))]
  }

  /** The largest numeric id in the list, 0 when there is none. */
  function MaxId(cols: seq<EditorColumn>): (m: nat)
    ensures forall i | 0 <= i < |cols| && ParseNat(cols[i].id).Some? :: ParseNat(cols[i].id).value <= m
  {
    if |cols| == 0 then 0
    else
      var here := ParseNat(cols[|cols| - 1].id).GetOr(0);
      var rest := MaxId(cols[..|cols| - 1]);
      assert forall i | 0 <= i < |cols| - 1 :: cols[..|cols| - 1][i] == cols[i];
      if here > rest then here else rest
  }

  /** The corrected `addColumn`: the new id is one past the largest id in
      use, so it never names an existing column. */
  function AddColumnFresh(cols: seq<EditorColumn>): (r: seq<EditorColumn>)
    ensures |r| == |cols| + 1 && r[..|cols|] == cols
    ensures r[|cols|].columnType == "string" && r[|cols|].options.None?
    ensures r[|cols|].name == "column_" + r[|cols|].id
    ensures forall i | 0 <= i < |cols| :: cols[i].id != r[|cols|].id
  {
    var id := NatToString(MaxId(cols) + 1);
    ParseNatToString(MaxId(cols) + 1);
    cols + [NewColumn(id)]
  }

  /** Adding with fresh ids keeps ids distinct. */
  lemma AddColumnFreshKeepsIdsDistinct(cols: seq<EditorColumn>)
    requires DistinctIds(cols)
    ensures DistinctIds(AddColumnFresh(cols))
  {
    var r := AddColumnFresh(cols);
    forall i, j | 0 <= i < j < |r| ensures r[i].id != r[j].id {
      assert r[i] == cols[i];
      if j < |cols| { assert r[j] == cols[j]; }
    }
  }

  /** The ids `"1"` to `"n"` in order: what the editor's list looks like
      as long as nothing was removed. */
  predicate NumberedInOrder(cols: seq<EditorColumn>) {
    forall i | 0 <= i < |cols| :: cols[i].id == NatToString(i + 1)
  }

  lemma {:induction false} MaxIdOfNumbered(cols: seq<EditorColumn>)
    requires NumberedInOrder(cols)
    ensures MaxId(cols) == |cols|
  {
    if |cols| > 0 {
      var init := cols[..|cols| - 1];
      assert NumberedInOrder(init) by {
        forall i | 0 <= i < |init| ensures init[i].id == NatToString(i + 1) {
          assert init[i] == cols[i];
        }
      }
      MaxIdOfNumbered(init);
      ParseNatToString(|cols|);
    }
  }

  /** Until a column is removed the two definitions agree, so the
      correction changes nothing the editor did right. */
  lemma FreshAgreesWhileNumbered(cols: seq<EditorColumn>)
    requires NumberedInOrder(cols)
    ensures AddColumnFresh(cols) == AddColumn(cols)
    ensures NumberedInOrder(AddColumn(cols))
  {
    MaxIdOfNumbered(cols);
  }

  // ---------------------------------------------------------------------
  // Removing

  /** `removeColumn(id)`: keep the columns whose id differs. */
  function RemoveColumn(cols: seq<EditorColumn>, id: string): (r: seq<EditorColumn>)
    ensures forall c :: c in r <==> c in cols && c.id != id
    ensures |r| == |cols| - CountId(cols, id)
  {
    if |cols| == 0 then []
    else if cols[0].id == id then RemoveColumn(cols[1..], id)
    else [cols[0]] + RemoveColumn(cols[1..], id)
  }

  /** Removal works piecewise, so the survivors keep their relative order. */
  lemma {:induction false} RemoveColumnConcat(a: seq<EditorColumn>, b: seq<EditorColumn>, id: string)
    ensures RemoveColumn(a + b, id) == RemoveColumn(a, id) + RemoveColumn(b, id)
  {
    if |a| > 0 {
      assert (a + b)[1..] == a[1..] + b;
      RemoveColumnConcat(a[1..], b, id);
      if a[0].id != id {
        calc {
          RemoveColumn(a + b, id);
          [a[0]] + RemoveColumn(a[1..] + b, id);
          [a[0]] + (RemoveColumn(a[1..], id) + RemoveColumn(b, id));
          ([a[0]] + RemoveColumn(a[1..], id)) + RemoveColumn(b, id);
        }
      }
    } else {
      assert a + b == b;
    }
  }

  /** Removing an id that no column carries changes nothing, and removing
      twice is removing once. */
  lemma {:induction false} RemoveColumnAbsent(cols: seq<EditorColumn>, id: string)
    requires forall i | 0 <= i < |cols| :: cols[i].id != id
    ensures RemoveColumn(cols, id) == cols
  {
    if |cols| > 0 {
      RemoveColumnAbsent(cols[1..], id);
      assert [cols[0]] + cols[1..] == cols;
    }
  }

  lemma RemoveColumnIdempotent(cols: seq<EditorColumn>, id: string)
    ensures RemoveColumn(RemoveColumn(cols, id), id) == RemoveColumn(cols, id)
  {
    var r := RemoveColumn(cols, id);
    forall i | 0 <= i < |r| ensures r[i].id != id {
      assert r[i] in r;
    }
    RemoveColumnAbsent(r, id);
  }

  /** The remove button is enabled only while more than one column is listed. */
  predicate RemoveEnabled(cols: seq<EditorColumn>) {
    |cols| > 1
  }

  lemma {:induction false} CountIdDistinct(cols: seq<EditorColumn>, id: string)
    requires DistinctIds(cols)
    ensures CountId(cols, id) <= 1
  {
    if |cols| > 0 {
      CountIdDistinct(cols[1..], id);
      if cols[0].id == id {
        forall i | 0 <= i < |cols[1..]| ensures cols[1..][i].id != id {
          assert cols[1..][i] == cols[i + 1];
        }
        RemoveColumnAbsent(cols[1..], id);
      }
    }
  }

  /** With distinct ids, a removal the button allows leaves a column. */
  lemma GuardedRemovalKeepsAColumn(cols: seq<EditorColumn>, id: string)
    requires DistinctIds(cols) && RemoveEnabled(cols)
    ensures |RemoveColumn(cols, id)| >= 1
    ensures DistinctIds(RemoveColumn(cols, id))
  {
    CountIdDistinct(cols, id);
    RemoveKeepsIdsDistinct(cols, id);
  }

  lemma HeadIdNotKept(cols: seq<EditorColumn>, id: string)
    requires |cols| > 0 && DistinctIds(cols)
    ensures forall c | c in RemoveColumn(cols[1..], id) :: c.id != cols[0].id
  {
    forall c | c in RemoveColumn(cols[1..], id) ensures c.id != cols[0].id {
      assert c in cols[1..];
      var k :| 0 <= k < |cols[1..]| && cols[1..][k] == c;
      assert cols[k + 1] == c;
    }
  }

  lemma DistinctIdsTail(cols: seq<EditorColumn>)
    requires |cols| > 0 && DistinctIds(cols)
    ensures DistinctIds(cols[1..])
  {
    var tail := cols[1..];
    forall i, j | 0 <= i < j < |tail| ensures tail[i].id != tail[j].id {
      assert tail[i] == cols[i + 1] && tail[j] == cols[j + 1];
    }
  }

  lemma {:induction false} RemoveKeepsIdsDistinct(cols: seq<EditorColumn>, id: string)
    requires DistinctIds(cols)
    ensures DistinctIds(RemoveColumn(cols, id))
  {
    if |cols| > 0 {
      DistinctIdsTail(cols);
      RemoveKeepsIdsDistinct(cols[1..], id);
      if cols[0].id != id {
        var rt := RemoveColumn(cols[1..], id);
        var r := [cols[0]] + rt;
        assert RemoveColumn(cols, id) == r;
        HeadIdNotKept(cols, id);
        forall i, j | 0 <= i < j < |r| ensures r[i].id != r[j].id {
          assert r[j] == rt[j - 1];
          if i == 0 {
            assert rt[j - 1] in rt;
          } else {
            assert r[i] == rt[i - 1];
          }
        }
      }
    }
  }

  // ---------------------------------------------------------------------
  // Updating

  /** Replace every column carrying the id by its image under f. */
  function Patch(cols: seq<EditorColumn>, id: string, f: EditorColumn -> EditorColumn): (r: seq<EditorColumn>)
    ensures |r| == |cols|
    ensures forall i | 0 <= i < |cols| :: r[i] == if cols[i].id == id then f(cols[i]) else cols[i]
  {
    seq(|cols|, i requires 0 <= i < |cols| => if cols[i].id == id then f(cols[i]) else cols[i])
  }

  /** `updateColumnName(id, name)`: every column with the id is renamed;
      ids, types, options, length and order stay. */
  function UpdateColumnName(cols: seq<EditorColumn>, id: string, name: string): (r: seq<EditorColumn>)
    ensures |r| == |cols| && Ids(r) == Ids(cols)
    ensures forall i | 0 <= i < |cols| ::
      && r[i].columnType == cols[i].columnType
      && r[i].options == cols[i].options
      && r[i].name == (if cols[i].id == id then name else cols[i].name)
  {
    Patch(cols, id, (c: EditorColumn) => c.(name := name))
  }

  /** The options a type change installs: a 0 to 100 range for numbers,
      the empty options object for the other types. */
  function ResetOptions(t: ColumnType): ColumnOptions {
    if t == "number" then ColumnOptions(Some(0.0), Some(100.0), None, None) else EmptyOptions
  }

  /** `updateColumnType(id, t)`: every column with the id takes the type
      and freshly reset options; names, ids and other columns stay. */
  function UpdateColumnType(cols: seq<EditorColumn>, id: string, t: ColumnType): (r: seq<EditorColumn>)
    ensures |r| == |cols| && Ids(r) == Ids(cols)
    ensures forall i | 0 <= i < |cols| :: r[i].name == cols[i].name
    ensures forall i | 0 <= i < |cols| && cols[i].id != id :: r[i] == cols[i]
    ensures forall i | 0 <= i < |cols| && cols[i].id == id ::
      && r[i].columnType == t
      && r[i].options == Some(if t == "number" then ColumnOptions(Some(0.0), Some(100.0), None, None) else EmptyOptions)
  {
    Patch(cols, id, (c: EditorColumn) => c.(columnType := t, options := Some(ResetOptions(t))))
  }

  /** `{ ...base, ...patch }` over the four option keys: a key the patch
      holds wins, every other key keeps its old value; a missing options
      object spreads as `{}`. */
  function MergeOptions(base: Option<ColumnOptions>, patch: ColumnOptions): (o: ColumnOptions)
    ensures patch.min.Some? ==> o.min == patch.min
    ensures patch.max.Some? ==> o.max == patch.max
    ensures patch.decimals.Some? ==> o.decimals == patch.decimals
    ensures patch.values.Some? ==> o.values == patch.values
    ensures patch.min.None? ==> o.min == base.GetOr(EmptyOptions).min
    ensures patch.max.None? ==> o.max == base.GetOr(EmptyOptions).max
    ensures patch.decimals.None? ==> o.decimals == base.GetOr(EmptyOptions).decimals
    ensures patch.values.None? ==> o.values == base.GetOr(EmptyOptions).values
  {
    var b := base.GetOr(EmptyOptions);
    ColumnOptions(
      if patch.min.Some? then patch.min else b.min,
      if patch.max.Some? then patch.max else b.max,
      if patch.decimals.Some? then patch.decimals else b.decimals,
      if patch.values.Some? then patch.values else b.values)
  }

  /** `updateColumnOptions(id, patch)`: every column with the id gets its
      options merged with the patch; nothing else changes. */
  function UpdateColumnOptions(cols: seq<EditorColumn>, id: string, patch: ColumnOptions): (r: seq<EditorColumn>)
    ensures |r| == |cols| && Ids(r) == Ids(cols)
    ensures forall i | 0 <= i < |cols| :: r[i].name == cols[i].name && r[i].columnType == cols[i].columnType
    ensures forall i | 0 <= i < |cols| && cols[i].id != id :: r[i] == cols[i]
    ensures forall i | 0 <= i < |cols| && cols[i].id == id :: r[i].options == Some(MergeOptions(cols[i].options, patch))
  {
    Patch(cols, id, (c: EditorColumn) => c.(options := Some(MergeOptions(c.options, patch))))
  }

  /** The patch later keys win in: spreading p then q is spreading one
      patch in which q's keys win over p's. */
  function ComposePatches(p: ColumnOptions, q: ColumnOptions): ColumnOptions {
    MergeOptions(Some(p), q)
  }

  /** Two merges in a row are one merge of the composed patch. */
  lemma MergeOptionsTwice(base: Option<ColumnOptions>, p: ColumnOptions, q: ColumnOptions)
    ensures MergeOptions(Some(MergeOptions(base, p)), q) == MergeOptions(base, ComposePatches(p, q))
  {
  }

  /** Merging the same patch twice changes nothing the second time. */
  lemma UpdateColumnOptionsIdempotent(cols: seq<EditorColumn>, id: string, patch: ColumnOptions)
    ensures UpdateColumnOptions(UpdateColumnOptions(cols, id, patch), id, patch) == UpdateColumnOptions(cols, id, patch)
  {
    var once := UpdateColumnOptions(cols, id, patch);
    var twice := UpdateColumnOptions(once, id, patch);
    forall i | 0 <= i < |cols| ensures twice[i] == once[i] {
      if cols[i].id == id {
        MergeOptionsTwice(cols[i].options, patch, patch);
      }
    }
  }

  /** A type change discards any options edited before it. */
  lemma TypeChangeDiscardsOptionEdits(cols: seq<EditorColumn>, id: string, patch: ColumnOptions, t: ColumnType)
    ensures UpdateColumnType(UpdateColumnOptions(cols, id, patch), id, t) == UpdateColumnType(cols, id, t)
  {
    var a := UpdateColumnType(UpdateColumnOptions(cols, id, patch), id, t);
    var b := UpdateColumnType(cols, id, t);
    forall i | 0 <= i < |cols| ensures a[i] == b[i] {
    }
  }

  /** Renaming twice keeps only the last name. */
  lemma UpdateColumnNameLastWins(cols: seq<EditorColumn>, id: string, a: string, b: string)
    ensures UpdateColumnName(UpdateColumnName(cols, id, a), id, b) == UpdateColumnName(cols, id, b)
  {
    var x := UpdateColumnName(UpdateColumnName(cols, id, a), id, b);
    var y := UpdateColumnName(cols, id, b);
    forall i | 0 <= i < |cols| ensures x[i] == y[i] {
    }
  }

  // ---------------------------------------------------------------------
  // Editing sessions

  /** One user action in the editor. */
  datatype Edit =
    | Add
    | Remove(id: string)
    | Rename(id: string, name: string)
    | Retype(id: string, t: ColumnType)
    | SetOptions(id: string, patch: ColumnOptions)

  /** One action as the editor performs it; `add` is the given append,
      and a removal the disabled button refuses changes nothing. */
  function Apply(cols: seq<EditorColumn>, e: Edit, add: seq<EditorColumn> -> seq<EditorColumn>): seq<EditorColumn> {
    match e
    case Add => add(cols)
    case Remove(id) => if RemoveEnabled(cols) then RemoveColumn(cols, id) else cols
    case Rename(id, name) => UpdateColumnName(cols, id, name)
    case Retype(id, t) => UpdateColumnType(cols, id, t)
    case SetOptions(id, patch) => UpdateColumnOptions(cols, id, patch)
  }

  function Run(cols: seq<EditorColumn>, edits: seq<Edit>, add: seq<EditorColumn> -> seq<EditorColumn>): seq<EditorColumn>
    decreases |edits|
  {
    if |edits| == 0 then cols else Run(Apply(cols, edits[0], add), edits[1..], add)
  }

  /** The editor's invariant with fresh ids: at least one column, and no
      two columns share an id. */
  predicate Healthy(cols: seq<EditorColumn>) {
    |cols| >= 1 && DistinctIds(cols)
  }

  lemma InitialColumnsHealthy()
    ensures Healthy(InitialColumns())
    ensures NumberedInOrder(InitialColumns())
  {
  }

  lemma ApplyFreshKeepsHealthy(cols: seq<EditorColumn>, e: Edit)
    requires Healthy(cols)
    ensures Healthy(Apply(cols, e, AddColumnFresh))
  {
    match e
    case Add => AddColumnFreshKeepsIdsDistinct(cols);
    case Remove(id) =>
      if RemoveEnabled(cols) { GuardedRemovalKeepsAColumn(cols, id); }
    case Rename(id, name) =>
      var r := UpdateColumnName(cols, id, name);
      assert forall i | 0 <= i < |r| :: r[i].id == Ids(r)[i] == Ids(cols)[i];
    case Retype(id, t) =>
      var r := UpdateColumnType(cols, id, t);
      assert forall i | 0 <= i < |r| :: r[i].id == Ids(r)[i] == Ids(cols)[i];
    case SetOptions(id, patch) =>
      var r := UpdateColumnOptions(cols, id, patch);
      assert forall i | 0 <= i < |r| :: r[i].id == Ids(r)[i] == Ids(cols)[i];
  }

  /** With the corrected append, no sequence of edits empties the list or
      gives two columns the same id. */
  lemma {:induction false} RunFreshKeepsHealthy(cols: seq<EditorColumn>, edits: seq<Edit>)
    requires Healthy(cols)
    ensures Healthy(Run(cols, edits, AddColumnFresh))
    decreases |edits|
  {
    if |edits| > 0 {
      ApplyFreshKeepsHealthy(cols, edits[0]);
      RunFreshKeepsHealthy(Apply(cols, edits[0], AddColumnFresh), edits[1..]);
    }
  }

  /** With the append as written, four clicks from the initial list reach
      an empty schema: remove column 1, add (which reuses id 3), remove
      column 2, then remove id 3, which the enabled button takes to mean
      both remaining columns. */
  lemma AddColumnAsWrittenEmptiesTheList()
    ensures var edits := [Remove("1"), Add, Remove("2"), Remove("3")];
      Run(InitialColumns(), edits, AddColumn) == []
  {
    var c0 := InitialColumns();
    var c1 := Apply(c0, Remove("1"), AddColumn);
    assert c1 == [c0[1], c0[2]];
    var c2 := Apply(c1, Add, AddColumn);
    assert NatToString(3) == "3";
    assert c2 == [c0[1], c0[2], NewColumn("3")];
    var c3 := Apply(c2, Remove("2"), AddColumn);
    assert c2[0].id == "2" && c2[1].id == "3" && c2[2].id == "3";
    assert c2[1..][1..] == [NewColumn("3")];
    assert RemoveColumn([NewColumn("3")], "2") == [NewColumn("3")];
    assert RemoveColumn(c2[1..], "2") == [c0[2]] + RemoveColumn(c2[1..][1..], "2");
    assert c3 == RemoveColumn(c2[1..], "2");
    assert c3 == [c0[2], NewColumn("3")];
    assert RemoveEnabled(c3);
    var c4 := Apply(c3, Remove("3"), AddColumn);
    assert c4 == [];
    var edits := [Remove("1"), Add, Remove("2"), Remove("3")];
    assert Run(InitialColumns(), edits, AddColumn) == Run(c1, edits[1..], AddColumn);
    assert Run(c1, edits[1..], AddColumn) == Run(c2, edits[2..], AddColumn);
    assert Run(c2, edits[2..], AddColumn) == Run(c3, edits[3..], AddColumn);
    assert Run(c3, edits[3..], AddColumn) == Run(c4, [], AddColumn);
  }
}
