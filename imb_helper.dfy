/** IntermenstrualBleedingRecordHelper: the table's name and no
    type-specific columns, so marshalling changes nothing. */
module IntermenstrualBleedingHelper {
  import opened Base
  import opened Storage

  const INTERMENSTRUAL_BLEEDING_RECORD_TABLE_NAME: string := "intermenstrual_bleeding_record_table"

  /** The part of an IntermenstrualBleedingRecordInternal a row could set:
      the instant record's time (not set by this helper). */
  class IntermenstrualBleedingRecordInternal {
    var time: Int64

    constructor (time: Int64)
      ensures this.time == time
    {
      this.time := time;
    }
  }

  function MainTableName(): (name: string)
    ensures name == INTERMENSTRUAL_BLEEDING_RECORD_TABLE_NAME
  {
    INTERMENSTRUAL_BLEEDING_RECORD_TABLE_NAME
  }

  /** getInstantRecordColumnInfo: no type-specific columns. */
  function InstantRecordColumnInfo(): (cols: seq<Column>)
    ensures ColumnNames(cols) == []
  {
    []
  }

  /** populateSpecificContentValues puts the declared columns, which are
      none, so the content values stay as they were. */
  method PopulateSpecificContentValues(contentValues: ContentValues, record: IntermenstrualBleedingRecordInternal)
    modifies contentValues
    ensures WritesExactly(old(contentValues.values), contentValues.values, InstantRecordColumnInfo())
    ensures contentValues.values == old(contentValues.values)
  {
  }

  /** populateSpecificRecordValue reads no column and sets nothing. */
  method PopulateSpecificRecordValue(row: Row, record: IntermenstrualBleedingRecordInternal)
    modifies record
    ensures unchanged(record)
  {
  }
}
