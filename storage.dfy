/** The database vocabulary the helpers share: column declarations, cell
    values, ContentValues, cursor getters, and a table of rows with its
    row-id counter. SQLite itself and TransactionManager are not part of
    this model; a table is the sequence of its rows in row-id order. */
module Storage {
  import opened Base

  /** The column type strings of StorageUtils. */
  datatype ColumnType =
    | Primary                // INTEGER PRIMARY KEY
    | PrimaryAutoincrement   // INTEGER PRIMARY KEY AUTOINCREMENT
    | TextNotNullUnique
    | TextNull
    | TextNotNull
    | Blob
    | IntegerNotNull
    | Real

  /** One (name, type) pair of a getColumnInfo list. */
  datatype Column = Column(name: string, colType: ColumnType)

  datatype Value =
    | IntegerValue(n: Int64)
    | RealValue(d: Double)
    | TextValue(s: string)
    | BlobValue(b: seq<bv8>)
    | NullValue

  /** A row, as ContentValues or as the cursor sees it: column name to value. */
  type Row = map<string, Value>

  /** RecordHelper.PRIMARY_COLUMN_NAME. RecordHelper is not part of this
      model; only the name being one fixed string matters. */
  const PRIMARY_COLUMN_NAME: string := "row_id"

  function ColumnNames(cols: seq<Column>): (names: seq<string>)
    ensures |names| == |cols| && forall k :: 0 <= k < |cols| ==> names[k] == cols[k].name
  {
    seq(|cols|, k requires 0 <= k < |cols| => cols[k].name)
  }

  /** `after` is `before` with exactly the columns of `cols` set: a
      populateSpecificContentValues that writes its declared columns and
      nothing else. */
  ghost predicate WritesExactly(before: Row, after: Row, cols: seq<Column>)
  {
    && after.Keys == before.Keys + (set k | 0 <= k < |cols| :: cols[k].name)
    && forall key :: key in before && key !in ColumnNames(cols) ==> after[key] == before[key]
  }

  /** ContentValues: filled with put before an insert. */
  class ContentValues {
    var values: Row

    constructor ()
      ensures values == map[]
    {
      values := map[];
    }

    method Put(key: string, v: Value)
      modifies this
      ensures values == old(values)[key := v]
    {
      values := values[key := v];
    }
  }

  // ---- cursor getters (StorageUtils.getCursor*) ----

  function CursorLong(row: Row, column: string): (r: Result<Int64>)
    ensures r.Ok? <==> column in row && row[column].IntegerValue?
    ensures r.Ok? ==> row[column] == IntegerValue(r.value)
  {
    if column in row && row[column].IntegerValue? then Ok(row[column].n) else Err(Malformed)
  }

  /** getInt on an INTEGER column: the low 32 bits of the stored long (a narrowing cast). */
  function CursorInt(row: Row, column: string): (r: Result<Int32>)
    ensures r.Ok? <==> column in row && row[column].IntegerValue?
    ensures r.Ok? ==> (r.value - row[column].n) % 0x1_0000_0000 == 0
  {
    if column in row && row[column].IntegerValue? then
      var low := row[column].n % 0x1_0000_0000;
      Ok(if low < 0x8000_0000 then low else low - 0x1_0000_0000)
    else Err(Malformed)
  }

  function CursorDouble(row: Row, column: string): (r: Result<Double>)
    ensures r.Ok? <==> column in row && row[column].RealValue?
    ensures r.Ok? ==> row[column] == RealValue(r.value)
  {
    if column in row && row[column].RealValue? then Ok(row[column].d) else Err(Malformed)
  }

  /** getString: SQL NULL reads as a null string. */
  function CursorString(row: Row, column: string): (r: Result<Option<string>>)
    ensures r.Ok? <==> column in row && (row[column].TextValue? || row[column].NullValue?)
    ensures r == Ok(None) <==> column in row && row[column].NullValue?
    ensures r.Ok? && r.value.Some? ==> row[column] == TextValue(r.value.value)
  {
    if column in row && row[column].TextValue? then Ok(Some(row[column].s))
    else if column in row && row[column].NullValue? then Ok(None)
    else Err(Malformed)
  }

  /** getBlob: SQL NULL reads as a null array. */
  function CursorBlob(row: Row, column: string): (r: Result<Option<seq<bv8>>>)
    ensures r.Ok? <==> column in row && (row[column].BlobValue? || row[column].NullValue?)
    ensures r == Ok(None) <==> column in row && row[column].NullValue?
    ensures r.Ok? && r.value.Some? ==> row[column] == BlobValue(r.value.value)
  {
    if column in row && row[column].BlobValue? then Ok(Some(row[column].b))
    else if column in row && row[column].NullValue? then Ok(None)
    else Err(Malformed)
  }

  // ---- tables ----

  function RowIdOf(row: Row): Option<Int64>
  {
    if PRIMARY_COLUMN_NAME in row && row[PRIMARY_COLUMN_NAME].IntegerValue?
    then Some(row[PRIMARY_COLUMN_NAME].n) else None
  }

  predicate IsUnique(columns: seq<Column>, c: string)
  {
    exists k :: 0 <= k < |columns| && columns[k].name == c && columns[k].colType == TextNotNullUnique
  }

  /** Inserting `values` would repeat a value already held in a UNIQUE column. */
  predicate Conflicts(rows: seq<Row>, columns: seq<Column>, values: Row)
  {
    exists k, i :: 0 <= k < |columns| && columns[k].colType == TextNotNullUnique && columns[k].name in values
                   && 0 <= i < |rows| && columns[k].name in rows[i]
                   && rows[i][columns[k].name] == values[columns[k].name]
  }

  /** A table: its declared columns, its rows in row-id order, and the next
      row id to hand out. */
  class Table {
    const name: string
    const columns: seq<Column>
    var rows: seq<Row>
    var nextRowId: int

    /** Row ids start at 1 and ascend; no two rows share a value in a UNIQUE column. */
    ghost predicate Valid()
      reads this
    {
      && 1 <= nextRowId <= 0x8000_0000_0000_0000
      && (forall i :: 0 <= i < |rows| ==> RowIdOf(rows[i]).Some? && 1 <= RowIdOf(rows[i]).value < nextRowId)
      && (forall i, j :: 0 <= i < j < |rows| ==> RowIdOf(rows[i]).value < RowIdOf(rows[j]).value)
      && (forall c, i, j :: IsUnique(columns, c) && 0 <= i < j < |rows| && c in rows[i] && c in rows[j]
                            ==> rows[i][c] != rows[j][c])
    }

    /** CreateTableRequest: an empty table with the given columns. */
    constructor (name: string, columns: seq<Column>)
      ensures Valid() && this.name == name && this.columns == columns && rows == [] && nextRowId == 1
    {
      this.name := name;
      this.columns := columns;
      rows := [];
      nextRowId := 1;
    }

    /** TransactionManager.insert of an UpsertTableRequest: one new row with
        the next row id, or no change when the ids are exhausted or a
        UNIQUE column would repeat. */
    method Insert(values: Row) returns (r: Result<Int64>)
      requires Valid()
      modifies this
      ensures Valid()
      ensures r.Err? <==> old(nextRowId) == 0x8000_0000_0000_0000 || Conflicts(old(rows), columns, values)
      ensures r.Err? ==> rows == old(rows) && nextRowId == old(nextRowId)
      ensures r.Err? ==> r.error == if old(nextRowId) == 0x8000_0000_0000_0000 then DatabaseFull else ConstraintViolation
      ensures r.Ok? ==> && r.value == old(nextRowId)
                        && rows == old(rows) + [values[PRIMARY_COLUMN_NAME := IntegerValue(r.value)]]
                        && nextRowId == old(nextRowId) + 1
    {
      if nextRowId == 0x8000_0000_0000_0000 {
        return Err(DatabaseFull);
      }
      if Conflicts(rows, columns, values) {
        return Err(ConstraintViolation);
      }
      var id: Int64 := nextRowId;
      var row := values[PRIMARY_COLUMN_NAME := IntegerValue(id)];
      forall c, i | IsUnique(columns, c) && 0 <= i < |rows| && c in rows[i] && c in row
        ensures rows[i][c] != row[c]
      {
        if c != PRIMARY_COLUMN_NAME {
          var k :| 0 <= k < |columns| && columns[k].name == c && columns[k].colType == TextNotNullUnique;
          assert !(columns[k].name in values && columns[k].name in rows[i]
                   && rows[i][columns[k].name] == values[columns[k].name]);
        }
      }
      rows := rows + [row];
      nextRowId := nextRowId + 1;
      r := Ok(id);
    }
  }
}
