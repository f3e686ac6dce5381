/** Decoding of the warehouse's typed cells and construction of the
    column-keyed result rows. */
module FieldDecoder {
  import opened Types
  import opened DataApi

  /** The values a field's tags carry, in the decoder's priority order:
      string, long, double, boolean. The null flag carries no value. */
  function Carried(f: Field): seq<Value> {
    (if f.stringValue.Some? then [Str(f.stringValue.value)] else [])
    + (if f.longValue.Some? then [Long(f.longValue.value)] else [])
    + (if f.doubleValue.Some? then [Double(f.doubleValue.value)] else [])
    + (if f.booleanValue.Some? then [Bool(f.booleanValue.value)] else [])
  }

  /** The per-field decoder: the first present tag wins, null otherwise. */
  function Decode(f: Field): (v: Value)
    ensures v == if Carried(f) == [] then Null else Carried(f)[0]
  {
    if f.stringValue.Some? then Str(f.stringValue.value)
    else if f.longValue.Some? then Long(f.longValue.value)
    else if f.doubleValue.Some? then Double(f.doubleValue.value)
    else if f.booleanValue.Some? then Bool(f.booleanValue.value)
    else Null
  }

  /** How the warehouse represents a value: exactly one tag set. */
  function Encode(v: Value): Field {
    match v
    case Str(s) => Field(Some(s), None, None, None, None)
    case Long(n) => Field(None, Some(n), None, None, None)
    case Double(d) => Field(None, None, Some(d), None, None)
    case Bool(b) => Field(None, None, None, Some(b), None)
    case Null => Field(None, None, None, None, Some(true))
  }

  /** A field as the warehouse sends it: one value tag, or only the null flag. */
  predicate WellFormed(f: Field) {
    (|Carried(f)| == 1 && f.isNull.None?) || (Carried(f) == [] && f.isNull == Some(true))
  }

  /** Decoding inverts the warehouse's encoding of every value. */
  lemma DecodeEncode(v: Value)
    ensures WellFormed(Encode(v))
    ensures Decode(Encode(v)) == v
  {
  }

  /** Every well-formed field is the encoding of what it decodes to. */
  lemma EncodeDecode(f: Field)
    requires WellFormed(f)
    ensures Encode(Decode(f)) == f
  {
  }

  /** The decoder always yields a value, and null exactly when no value tag is set. */
  lemma DecodeNullIffNoValueTag(f: Field)
    ensures Decode(f) == Null <==>
      f.stringValue.None? && f.longValue.None? && f.doubleValue.None? && f.booleanValue.None?
  {
  }

  /** A cell with both a string and a long tag decodes to the string. */
  lemma StringTagWins()
    ensures Decode(Field(Some("5"), Some(5), None, None, None)) == Str("5")
    ensures Decode(Field(None, None, None, None, Some(true))) == Null
  {
  }

  /** The key `row[columns[index]]` writes to: past the last column,
      `columns[index]` is undefined and JavaScript uses the key "undefined". */
  function ColumnKey(columns: seq<string>, i: nat): string {
    if i < |columns| then columns[i] else "undefined"
  }

  /** The row built from a record: field i stored under column i, a later
      field overwriting an earlier one with the same key. */
  function RowOf(columns: seq<string>, record: seq<Field>): Row
    decreases |record|
  {
    if record == [] then map[]
    else RowOf(columns, record[..|record| - 1])[ColumnKey(columns, |record| - 1) := Decode(record[|record| - 1])]
  }

  /** `ColumnMetadata.map(col => col.name || '')`. */
  function ColumnNames(meta: seq<ColumnMetadata>): (names: seq<string>)
    ensures |names| == |meta|
    ensures forall i :: 0 <= i < |meta| ==> names[i] == OrElse(meta[i].name, "")
  {
    if meta == [] then []
    else ColumnNames(meta[..|meta| - 1]) + [OrElse(meta[|meta| - 1].name, "")]
  }

  /** The row has one key per field position, no other. */
  lemma {:induction false} RowOfKeys(columns: seq<string>, record: seq<Field>)
    ensures RowOf(columns, record).Keys == set i | 0 <= i < |record| :: ColumnKey(columns, i)
    decreases |record|
  {
    if record != [] {
      var n := |record| - 1;
      RowOfKeys(columns, record[..n]);
      assert forall i :: 0 <= i < n ==> record[..n][i] == record[i];
    }
  }

  /** The field at i is the value under its key when no later field has the same key. */
  lemma {:induction false} RowOfLastWrite(columns: seq<string>, record: seq<Field>, i: nat)
    requires i < |record|
    requires forall j :: i < j < |record| ==> ColumnKey(columns, j) != ColumnKey(columns, i)
    ensures ColumnKey(columns, i) in RowOf(columns, record)
    ensures RowOf(columns, record)[ColumnKey(columns, i)] == Decode(record[i])
    decreases |record|
  {
    var n := |record| - 1;
    if i < n {
      RowOfLastWrite(columns, record[..n], i);
    }
  }

  /** With distinct column names and one field per column, the row has
      exactly the declared columns as keys and field i under column i. */
  lemma {:induction false} RowOfDistinctColumns(columns: seq<string>, record: seq<Field>)
    requires |record| == |columns|
    requires forall a, b :: 0 <= a < b < |columns| ==> columns[a] != columns[b]
    ensures RowOf(columns, record).Keys == set c | c in columns
    ensures |RowOf(columns, record)| == |columns|
    ensures forall i :: 0 <= i < |record| ==> RowOf(columns, record)[columns[i]] == Decode(record[i])
  {
    RowOfKeys(columns, record);
    forall c | c in columns
      ensures c in RowOf(columns, record)
    {
      var i :| 0 <= i < |columns| && columns[i] == c;
      assert ColumnKey(columns, i) == c;
    }
    forall i | 0 <= i < |record|
      ensures RowOf(columns, record)[columns[i]] == Decode(record[i])
    {
      RowOfLastWrite(columns, record, i);
    }
    RowOfSize(columns, record, |record|);
    assert record[..|record|] == record;
  }

  lemma {:induction false} RowOfSize(columns: seq<string>, record: seq<Field>, n: nat)
    requires n <= |record| <= |columns|
    requires forall a, b :: 0 <= a < b < |columns| ==> columns[a] != columns[b]
    ensures |RowOf(columns, record[..n])| == n
  {
    if n > 0 {
      RowOfSize(columns, record, n - 1);
      assert record[..n][..n - 1] == record[..n - 1];
      RowOfKeys(columns, record[..n - 1]);
      assert columns[n - 1] !in RowOf(columns, record[..n - 1]);
    }
  }

  /** The rows of a fetched result: one per record, built in order
      (`resultResponse.Records` absent gives no rows). */
  method BuildRows(columns: seq<string>, records: Option<seq<seq<Field>>>) returns (rows: seq<Row>)
    ensures records.None? ==> rows == []
    ensures records.Some? ==> |rows| == |records.value|
    ensures records.Some? ==> forall j :: 0 <= j < |rows| ==> rows[j] == RowOf(columns, records.value[j])
  {
    rows := [];
    if records.Some? {
      var all := records.value;
      for j := 0 to |all|
        invariant |rows| == j
        invariant forall m :: 0 <= m < j ==> rows[m] == RowOf(columns, all[m])
      {
        var record := all[j];
        var row: Row := map[];
        for index := 0 to |record|
          invariant row == RowOf(columns, record[..index])
        {
          assert record[..index + 1][..index] == record[..index];
          var columnName := ColumnKey(columns, index);
          var value := Decode(record[index]);
          row := row[columnName := value];
        }
        assert record[..|record|] == record;
        rows := rows + [row];
      }
    }
  }
}
