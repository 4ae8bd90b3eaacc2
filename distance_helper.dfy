/** DistanceRecordHelper: the distance table's name, its one type-specific
    column, and the marshalling of a record's distance to and from a row. */
module DistanceHelper {
  import opened Base
  import opened Storage

  const DISTANCE_RECORD_TABLE_NAME: string := "distance_record_table"
  const DISTANCE_COLUMN_NAME: string := "distance"

  /** The part of a DistanceRecordInternal this helper reads and sets. */
  class DistanceRecordInternal {
    var distance: Double

    constructor (distance: Double)
      ensures this.distance == distance
    {
      this.distance := distance;
    }
  }

  function MainTableName(): (name: string)
    ensures name == DISTANCE_RECORD_TABLE_NAME
  {
    DISTANCE_RECORD_TABLE_NAME
  }

  /** getIntervalRecordColumnInfo: the type-specific columns. */
  function IntervalRecordColumnInfo(): (cols: seq<Column>)
    ensures ColumnNames(cols) == [DISTANCE_COLUMN_NAME] && cols[0].colType == Real
  {
    [Column(DISTANCE_COLUMN_NAME, Real)]
  }

  /** populateSpecificContentValues: puts the record's distance under the
      declared column and nothing else. */
  method PopulateSpecificContentValues(contentValues: ContentValues, record: DistanceRecordInternal)
    modifies contentValues
    ensures WritesExactly(old(contentValues.values), contentValues.values, IntervalRecordColumnInfo())
    ensures CursorDouble(contentValues.values, DISTANCE_COLUMN_NAME) == Ok(record.distance)
  {
    contentValues.Put(DISTANCE_COLUMN_NAME, RealValue(record.distance));
    assert (set k | 0 <= k < |IntervalRecordColumnInfo()| :: IntervalRecordColumnInfo()[k].name) == {DISTANCE_COLUMN_NAME} by {
      assert IntervalRecordColumnInfo()[0].name == DISTANCE_COLUMN_NAME;
    }
    assert ColumnNames(IntervalRecordColumnInfo()) == [DISTANCE_COLUMN_NAME];
  }

  /** populateSpecificRecordValue: the record's distance from the row's
      distance column; a row without a REAL there leaves the record as it was. */
  method PopulateSpecificRecordValue(row: Row, record: DistanceRecordInternal) returns (r: Outcome)
    modifies record
    ensures r.Pass? <==> CursorDouble(row, DISTANCE_COLUMN_NAME).Ok?
    ensures r.Pass? ==> row[DISTANCE_COLUMN_NAME] == RealValue(record.distance)
    ensures r.Fail? ==> record.distance == old(record.distance)
  {
    var d := CursorDouble(row, DISTANCE_COLUMN_NAME);
    if d.Err? {
      return Fail(d.error);
    }
    record.distance := d.value;
    r := Pass;
  }

  /** Writing a record's distance into content values and reading those
      values into another record gives back the same distance. */
  method DistanceRoundTrip(record: DistanceRecordInternal, target: DistanceRecordInternal) returns (r: Outcome)
    requires record != target
    modifies target
    ensures r.Pass? && target.distance == record.distance
  {
    var contentValues := new ContentValues();
    PopulateSpecificContentValues(contentValues, record);
    r := PopulateSpecificRecordValue(contentValues.values, target);
  }
}
