/** The slice of JavaScript's object semantics that the generated records
    rely on: a record is a plain object `Record<string, any>` whose own
    properties remember the order in which they were created, property
    assignment overwrites in place, and `Object.keys` lists array-index
    keys first (ascending by numeric value) and every other key after them
    in creation order. Reads see own properties only: a name that is not
    an own property reads as `undefined` here, whereas JavaScript goes on
    to the prototype chain, where `toString` or `constructor` would find
    `Object.prototype`'s functions. */
module JsObject {
  import opened Basics
  import opened Text

  /** The values a record can hold: what the samplers produce plus `null`. */
  datatype Value = Str(s: string) | Num(x: real) | Bool(b: bool) | Null

  datatype Entry = Entry(key: string, value: Value)

  /** Own properties of a record in creation order. */
  type Record = seq<Entry>

  /** Property names in creation order. */
  function CreationOrder(r: Record): (ks: seq<string>)
    ensures |ks| == |r|
    ensures forall i | 0 <= i < |r| :: ks[i] == r[i].key
  {
    if |r| == 0 then [] else [r[0].key] + CreationOrder(r[1..])
  }

  /** No property name occurs twice, as in every JavaScript object. */
  predicate WellFormed(r: Record) {
    forall i, j | 0 <= i < j < |r| :: r[i].key != r[j].key
  }

  /** `r[k]` for an own property `k`: its value; None, standing for
      `undefined`, when `k` is not an own property (exact for every name
      that `Object.prototype` does not carry). */
  function Lookup(r: Record, k: string): (v: Option<Value>)
    ensures v.Some? <==> k in CreationOrder(r)
  {
    if |r| == 0 then None
    else if r[0].key == k then Some(r[0].value)
    else Lookup(r[1..], k)
  }

  /** `r[k] = v`: overwrites an existing property where it stands, or
      creates a new one after all existing properties. */
  function Put(r: Record, k: string, v: Value): (r': Record)
    ensures CreationOrder(r') ==
      (if k in CreationOrder(r) then CreationOrder(r) else CreationOrder(r) + [k])
  {
    if |r| == 0 then [Entry(k, v)]
    else if r[0].key == k then [Entry(k, v)] + r[1..]
    else
      assert CreationOrder(r) == [r[0].key] + CreationOrder(r[1..]);
      [r[0]] + Put(r[1..], k, v)
  }

  /** After `r[k] = v`, property `k` reads `v` and every other property
      reads what it read before. */
  lemma {:induction false} PutLookup(r: Record, k: string, v: Value, k': string)
    ensures Lookup(Put(r, k, v), k') == (if k' == k then Some(v) else Lookup(r, k'))
  {
    if |r| > 0 && r[0].key != k {
      PutLookup(r[1..], k, v, k');
      assert Put(r, k, v)[1..] == Put(r[1..], k, v);
    }
  }

  /** Assignment never creates a duplicate property name. */
  lemma PutWellFormed(r: Record, k: string, v: Value)
    requires WellFormed(r)
    ensures WellFormed(Put(r, k, v))
  {
    var r' := Put(r, k, v);
    forall i, j | 0 <= i < j < |r'| ensures r'[i].key != r'[j].key {
      assert CreationOrder(r')[i] == r'[i].key && CreationOrder(r')[j] == r'[j].key;
      if k !in CreationOrder(r) {
        if j == |r| {
          assert CreationOrder(r)[i] == r[i].key;
        }
      }
    }
  }

  // ---------------------------------------------------------------------
  // Object.keys

  /** The largest array index is 2^32 - 2 (section 6.1.7 of ECMA-262). */
  const MaxArrayIndex: nat := 0x1_0000_0000 - 2

  /** A canonical decimal string for an integer in [0, 2^32 - 2]. */
  predicate IsArrayIndex(k: string) {
    match ParseNat(k)
    case None => false
    case Some(n) => n <= MaxArrayIndex && NatToString(n) == k
  }

  /** The numeric value of an array-index key (0 for other keys). */
  function IndexValue(k: string): nat {
    ParseNat(k).GetOr(0)
  }

  predicate Ascending(ks: seq<string>) {
    forall i, j | 0 <= i < j < |ks| :: IndexValue(ks[i]) <= IndexValue(ks[j])
  }

  function IndexKeys(ks: seq<string>): (r: seq<string>)
    ensures forall i | 0 <= i < |r| :: IsArrayIndex(r[i])
  {
    if |ks| == 0 then []
    else if IsArrayIndex(ks[0]) then [ks[0]] + IndexKeys(ks[1..])
    else IndexKeys(ks[1..])
  }

  function NamedKeys(ks: seq<string>): (r: seq<string>)
    ensures forall i | 0 <= i < |r| :: !IsArrayIndex(r[i])
  {
    if |ks| == 0 then []
    else if IsArrayIndex(ks[0]) then NamedKeys(ks[1..])
    else [ks[0]] + NamedKeys(ks[1..])
  }

  /** Every key lands in exactly one of the two groups. */
  lemma {:induction false} PartitionKeys(ks: seq<string>)
    ensures multiset(IndexKeys(ks)) + multiset(NamedKeys(ks)) == multiset(ks)
  {
    if |ks| > 0 {
      PartitionKeys(ks[1..]);
      assert ks == [ks[0]] + ks[1..];
    }
  }

  predicate AllAtLeast(lo: nat, ks: seq<string>) {
    forall i | 0 <= i < |ks| :: lo <= IndexValue(ks[i])
  }

  /** Inserts `k` into an ascending list, before the first larger-or-equal key. */
  function InsertIndex(k: string, sorted: seq<string>): (r: seq<string>)
    ensures multiset(r) == multiset(sorted) + multiset{k}
    ensures |r| == |sorted| + 1
  {
    if |sorted| == 0 then [k]
    else if IndexValue(k) <= IndexValue(sorted[0]) then [k] + sorted
    else
      assert sorted == [sorted[0]] + sorted[1..];
      [sorted[0]] + InsertIndex(k, sorted[1..])
  }

  lemma {:induction false} InsertIndexBound(lo: nat, k: string, sorted: seq<string>)
    requires AllAtLeast(lo, sorted) && lo <= IndexValue(k)
    ensures AllAtLeast(lo, InsertIndex(k, sorted))
  {
    if |sorted| > 0 && IndexValue(k) > IndexValue(sorted[0]) {
      InsertIndexBound(lo, k, sorted[1..]);
      assert InsertIndex(k, sorted)[1..] == InsertIndex(k, sorted[1..]);
    }
  }

  /** Insertion keeps a list ascending. */
  lemma {:induction false} InsertIndexAscending(k: string, sorted: seq<string>)
    requires Ascending(sorted)
    ensures Ascending(InsertIndex(k, sorted))
  {
    if |sorted| > 0 {
      var r := InsertIndex(k, sorted);
      if IndexValue(k) <= IndexValue(sorted[0]) {
        assert AllAtLeast(IndexValue(k), sorted);
        forall i, j | 0 <= i < j < |r| ensures IndexValue(r[i]) <= IndexValue(r[j]) {
          if i > 0 { assert r[i] == sorted[i - 1] && r[j] == sorted[j - 1]; }
          else { assert r[j] == sorted[j - 1]; }
        }
      } else {
        var tail := InsertIndex(k, sorted[1..]);
        InsertIndexAscending(k, sorted[1..]);
        assert AllAtLeast(IndexValue(sorted[0]), sorted[1..]);
        InsertIndexBound(IndexValue(sorted[0]), k, sorted[1..]);
        assert r == [sorted[0]] + tail;
        forall i, j | 0 <= i < j < |r| ensures IndexValue(r[i]) <= IndexValue(r[j]) {
          assert r[j] == tail[j - 1];
          if i > 0 { assert r[i] == tail[i - 1]; }
        }
      }
    }
  }

  function SortIndexKeys(ks: seq<string>): (r: seq<string>)
    ensures Ascending(r)
    ensures multiset(r) == multiset(ks)
    ensures |r| == |ks|
  {
    if |ks| == 0 then []
    else
      assert ks == [ks[0]] + ks[1..];
      InsertIndexAscending(ks[0], SortIndexKeys(ks[1..]));
      InsertIndex(ks[0], SortIndexKeys(ks[1..]))
  }

  /** The order `Object.keys` reports for properties created in order `ks`
      (OrdinaryOwnPropertyKeys, section 10.1.11.1 of ECMA-262). */
  function ObjectKeyOrder(ks: seq<string>): (r: seq<string>)
    ensures multiset(r) == multiset(ks)
    ensures |r| == |ks|
  {
    PartitionKeys(ks);
    assert |IndexKeys(ks)| + |NamedKeys(ks)| == |ks| by {
      assert |multiset(IndexKeys(ks))| + |multiset(NamedKeys(ks))| == |multiset(ks)|;
    }
    SortIndexKeys(IndexKeys(ks)) + NamedKeys(ks)
  }

  /** `Object.keys(r)`: every own property once, array-index keys first. */
  function Keys(r: Record): (ks: seq<string>)
    ensures |ks| == |r|
    ensures multiset(ks) == multiset(CreationOrder(r))
  {
    ObjectKeyOrder(CreationOrder(r))
  }

  /** The reported keys are exactly the record's property names. */
  lemma KeysAreCreationKeys(r: Record)
    ensures multiset(Keys(r)) == multiset(CreationOrder(r))
    ensures forall k :: k in Keys(r) <==> Lookup(r, k).Some?
  {
    var ks := CreationOrder(r);
    forall k ensures k in Keys(r) <==> k in ks {
      assert k in Keys(r) <==> k in multiset(Keys(r));
      assert k in ks <==> k in multiset(ks);
    }
  }

  /** The reported keys start with the array-index keys in ascending
      numeric order. */
  lemma KeysIndexPrefix(r: Record)
    ensures var n := |IndexKeys(CreationOrder(r))|;
      n <= |Keys(r)| && Ascending(Keys(r)[..n])
      && (forall i | 0 <= i < n :: IsArrayIndex(Keys(r)[i]))
      && Keys(r)[n..] == NamedKeys(CreationOrder(r))
  {
    var ks := CreationOrder(r);
    var sorted := SortIndexKeys(IndexKeys(ks));
    assert Keys(r) == sorted + NamedKeys(ks);
    assert |sorted| == |IndexKeys(ks)|;
    assert Keys(r)[..|sorted|] == sorted;
    assert Keys(r)[|sorted|..] == NamedKeys(ks);
    forall i | 0 <= i < |sorted| ensures IsArrayIndex(sorted[i]) {
      assert sorted[i] in multiset(IndexKeys(ks));
    }
  }

  /** The reported keys are the array-index keys in ascending numeric order
      followed by the other keys in creation order, and they are exactly
      the record's property names. */
  lemma KeysShape(r: Record)
    ensures multiset(Keys(r)) == multiset(CreationOrder(r))
    ensures forall k :: k in Keys(r) <==> Lookup(r, k).Some?
    ensures var n := |IndexKeys(CreationOrder(r))|;
      n <= |Keys(r)| && Ascending(Keys(r)[..n])
      && (forall i | 0 <= i < n :: IsArrayIndex(Keys(r)[i]))
      && Keys(r)[n..] == NamedKeys(CreationOrder(r))
  {
    KeysAreCreationKeys(r);
    KeysIndexPrefix(r);
  }

  /** Without array-index names, `Object.keys` is plain creation order. */
  lemma {:induction false} KeysWithoutIndices(ks: seq<string>)
    requires forall i | 0 <= i < |ks| :: !IsArrayIndex(ks[i])
    ensures ObjectKeyOrder(ks) == ks
  {
    NoIndexKeys(ks);
  }

  lemma {:induction false} NoIndexKeys(ks: seq<string>)
    requires forall i | 0 <= i < |ks| :: !IsArrayIndex(ks[i])
    ensures IndexKeys(ks) == [] && NamedKeys(ks) == ks
  {
    if |ks| > 0 {
      NoIndexKeys(ks[1..]);
      assert ks == [ks[0]] + ks[1..];
    }
  }
}
