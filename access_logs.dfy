/** AccessLogsHelper: the access_logs_table, one row per insert or read
    request, with the record types as comma-joined decimal text, and the
    reader that turns every row back into an AccessLog. */
module AccessLogs {
  import opened Base
  import opened Storage
  import opened AppInfo

  const TABLE_NAME: string := "access_logs_table"
  const RECORD_TYPE_COLUMN_NAME: string := "record_type"
  const APP_ID_COLUMN_NAME: string := "app_id"
  const ACCESS_TIME_COLUMN_NAME: string := "access_time"
  const OPERATION_TYPE_COLUMN_NAME: string := "operation_type"
  const NUM_COLS: nat := 5

  /** The separator addAccessLog joins with; the reader splits on the same one. */
  const DELIMITER: char := ','

  /** getColumnInfo: the autoincrement key, then four NOT NULL columns. */
  function ColumnInfo(): (cols: seq<Column>)
    ensures |cols| == NUM_COLS
    ensures cols[0] == Column(PRIMARY_COLUMN_NAME, PrimaryAutoincrement)
    ensures forall k :: 1 <= k < |cols| ==> cols[k].colType in {IntegerNotNull, TextNotNull}
    ensures forall k, l :: 0 <= k < l < |cols| ==> cols[k].name != cols[l].name
  {
    [ Column(PRIMARY_COLUMN_NAME, PrimaryAutoincrement),
      Column(APP_ID_COLUMN_NAME, IntegerNotNull),
      Column(RECORD_TYPE_COLUMN_NAME, TextNotNull),
      Column(ACCESS_TIME_COLUMN_NAME, IntegerNotNull),
      Column(OPERATION_TYPE_COLUMN_NAME, IntegerNotNull) ]
  }

  // ---- decimal text, as String.valueOf and Integer.parseInt ----

  predicate IsDigit(c: char)
  {
    '0' <= c <= '9'
  }

  predicate AllDigits(s: string)
  {
    forall k :: 0 <= k < |s| ==> IsDigit(s[k])
  }

  /** The decimal digits of n, most significant first, no leading zeros. */
  function NatToString(n: nat): (s: string)
    ensures |s| >= 1 && AllDigits(s)
    decreases n
  {
    if n < 10 then [('0' as int + n) as char]
    else NatToString(n / 10) + [('0' as int + n % 10) as char]
  }

  /** String.valueOf(int): a leading '-' for negatives. */
  function IntToString(x: int): (s: string)
    ensures |s| >= 1 && DELIMITER !in s
  {
    if x < 0 then "-" + NatToString(-x) else NatToString(x)
  }

  /** The value of a string of decimal digits. */
  function DigitsValue(s: string): nat
    requires AllDigits(s)
  {
    if s == [] then 0 else DigitsValue(s[..|s| - 1]) * 10 + (s[|s| - 1] as int - '0' as int)
  }

  /** Integer.parseInt: an optional sign, then at least one digit, and a
      value in the int range; anything else is a NumberFormatException. */
  function ParseInt(s: string): (r: Result<Int32>)
    ensures r.Ok? ==> |s| >= 1
  {
    var negative := |s| >= 1 && s[0] == '-';
    var digits := if |s| >= 1 && (s[0] == '-' || s[0] == '+') then s[1..] else s;
    if digits == [] || !AllDigits(digits) then Err(NumberFormat)
    else
      var v: int := if negative then -(DigitsValue(digits) as int) else DigitsValue(digits);
      if InInt32(v) then Ok(v) else Err(NumberFormat)
  }

  lemma {:induction false} DigitsOfNat(n: nat)
    ensures DigitsValue(NatToString(n)) == n
    decreases n
  {
    var s := NatToString(n);
    if n >= 10 {
      DigitsOfNat(n / 10);
      assert s[..|s| - 1] == NatToString(n / 10);
    }
  }

  /** Integer.parseInt undoes String.valueOf on every int. */
  lemma ParseIntToString(x: Int32)
    ensures ParseInt(IntToString(x)) == Ok(x)
  {
    var magnitude: nat := if x < 0 then -(x as int) else x as int;
    DigitsOfNat(magnitude);
    if x < 0 {
      assert IntToString(x)[1..] == NatToString(magnitude);
    } else {
      assert IntToString(x)[0] != '-' && IntToString(x)[0] != '+';
    }
  }

  // ---- joining and splitting on the delimiter ----

  /** Collectors.joining: the parts with the separator between them; "" for none. */
  function Join(parts: seq<string>, sep: char): (s: string)
    ensures parts == [] ==> s == []
    ensures |parts| >= 1 ==> parts[0] <= s
    ensures |parts| >= 2 ==> |parts[0]| < |s| && s[|parts[0]|] == sep
  {
    if parts == [] then ""
    else if |parts| == 1 then parts[0]
    else parts[0] + [sep] + Join(parts[1..], sep)
  }

  /** Every field between separators, empty ones included; at least one. */
  function Split(s: string, sep: char): (fields: seq<string>)
    ensures |fields| >= 1
  {
    if s == [] then [""]
    else
      var rest := Split(s[1..], sep);
      if s[0] == sep then [""] + rest else [[s[0]] + rest[0]] + rest[1..]
  }

  lemma {:induction false} SplitPlain(a: string, sep: char)
    requires sep !in a
    ensures Split(a, sep) == [a]
  {
    if a != [] {
      SplitPlain(a[1..], sep);
      assert [a[0]] + a[1..] == a;
    }
  }

  lemma {:induction false} SplitAt(a: string, sep: char, b: string)
    requires sep !in a
    ensures Split(a + [sep] + b, sep) == [a] + Split(b, sep)
  {
    if a == [] {
      assert a + [sep] + b == [sep] + b;
      assert ([sep] + b)[1..] == b;
    } else {
      SplitAt(a[1..], sep, b);
      assert (a + [sep] + b)[1..] == a[1..] + [sep] + b;
      assert [a[0]] + a[1..] == a;
    }
  }

  /** Splitting a join of separator-free parts gives the parts back. */
  lemma {:induction false} SplitJoin(parts: seq<string>, sep: char)
    requires |parts| >= 1
    requires forall k :: 0 <= k < |parts| ==> sep !in parts[k]
    ensures Split(Join(parts, sep), sep) == parts
  {
    if |parts| == 1 {
      SplitPlain(parts[0], sep);
    } else {
      SplitJoin(parts[1..], sep);
      SplitAt(parts[0], sep, Join(parts[1..], sep));
      assert [parts[0]] + parts[1..] == parts;
    }
  }

  /** The text addAccessLog stores for a record-type list. */
  function JoinTypes(types: seq<Int32>): (s: string)
    ensures s == [] <==> types == []
    ensures |types| >= 1 ==> IntToString(types[0]) <= s
  {
    Join(seq(|types|, k requires 0 <= k < |types| => IntToString(types[k])), DELIMITER)
  }

  /** Each field parsed, the first bad one failing. */
  function ParseAll(fields: seq<string>): (r: Result<seq<Int32>>)
    ensures r.Ok? ==> |r.value| == |fields| && forall k :: 0 <= k < |fields| ==> ParseInt(fields[k]) == Ok(r.value[k])
    ensures r.Err? ==> exists k :: 0 <= k < |fields| && ParseInt(fields[k]).Err?
  {
    if fields == [] then Ok([])
    else
      var head :- ParseInt(fields[0]);
      var tail :- ParseAll(fields[1..]);
      Ok([head] + tail)
  }

  /** getCursorIntegerList: an empty text is the empty list, any other is
      split on the delimiter and every field parsed. */
  function ParseIntegerList(s: string): (r: Result<seq<Int32>>)
    ensures r == Ok([]) <==> s == []
  {
    if s == [] then Ok([]) else ParseAll(Split(s, DELIMITER))
  }

  /** Reading the record-type column back gives the list addAccessLog stored. */
  lemma TypesRoundTrip(types: seq<Int32>)
    ensures ParseIntegerList(JoinTypes(types)) == Ok(types)
  {
    var parts := seq(|types|, k requires 0 <= k < |types| => IntToString(types[k]));
    if types != [] {
      assert |Join(parts, DELIMITER)| >= 1 by {
        if |parts| > 1 {
          assert Join(parts, DELIMITER) == parts[0] + [DELIMITER] + Join(parts[1..], DELIMITER);
        }
      }
      SplitJoin(parts, DELIMITER);
      forall k | 0 <= k < |types| ensures ParseInt(parts[k]) == Ok(types[k]) {
        ParseIntToString(types[k]);
      }
      ParseAllOf(parts, types);
    }
  }

  lemma {:induction false} ParseAllOf(fields: seq<string>, values: seq<Int32>)
    requires |fields| == |values|
    requires forall k :: 0 <= k < |fields| ==> ParseInt(fields[k]) == Ok(values[k])
    ensures ParseAll(fields) == Ok(values)
  {
    if fields != [] {
      assert ParseInt(fields[0]) == Ok(values[0]);
      forall k | 0 <= k < |fields| - 1 ensures ParseInt(fields[1..][k]) == Ok(values[1..][k]) {
        assert fields[1..][k] == fields[k + 1] && values[1..][k] == values[k + 1];
      }
      ParseAllOf(fields[1..], values[1..]);
      assert [values[0]] + values[1..] == values;
    }
  }

  // ---- the rows ----

  datatype AccessLog = AccessLog(packageName: string, recordTypes: seq<Int32>, accessTime: Int64, operationType: Int32)

  /** The ContentValues addAccessLog fills, before the insert adds the row id. */
  function LogValues(types: seq<Int32>, appId: Int64, accessTime: Int64, operationType: Int32): Row
  {
    map[RECORD_TYPE_COLUMN_NAME := TextValue(JoinTypes(types)),
        APP_ID_COLUMN_NAME := IntegerValue(appId),
        ACCESS_TIME_COLUMN_NAME := IntegerValue(accessTime),
        OPERATION_TYPE_COLUMN_NAME := IntegerValue(operationType)]
  }

  /** String.valueOf of a possibly null package name. */
  function NameOrNull(name: Option<string>): string
  {
    if name.Some? then name.value else "null"
  }

  /** One row as queryAccessLogs reads it, with `packageName` already
      looked up: the record types, the access time, the operation type. */
  function LogOfRow(row: Row, packageName: string): (r: Result<AccessLog>)
    ensures r.Ok? ==> r.value.packageName == packageName
  {
    var text :- CursorString(row, RECORD_TYPE_COLUMN_NAME);
    var types :- if text.Some? then ParseIntegerList(text.value) else Err(NullPointer);
    var accessTime :- CursorLong(row, ACCESS_TIME_COLUMN_NAME);
    var operationType :- CursorInt(row, OPERATION_TYPE_COLUMN_NAME);
    Ok(AccessLog(packageName, types, accessTime, operationType))
  }

  /** One row as queryAccessLogs reads it against application_info_table's rows. */
  ghost function ReadLog(row: Row, infos: seq<AppInfoInternal>): Result<AccessLog>
  {
    var appId :- CursorLong(row, APP_ID_COLUMN_NAME);
    LogOfRow(row, NameOrNull(PackageFor(infos, appId)))
  }

  /** queryAccessLogs: every row in cursor order, the first unreadable one failing. */
  ghost function ReadLogs(rows: seq<Row>, infos: seq<AppInfoInternal>): (r: Result<seq<AccessLog>>)
    ensures r.Ok? ==> |r.value| == |rows| && forall k :: 0 <= k < |rows| ==> ReadLog(rows[k], infos) == Ok(r.value[k])
  {
    if rows == [] then Ok([])
    else
      var front :- ReadLogs(rows[..|rows| - 1], infos);
      var last :- ReadLog(rows[|rows| - 1], infos);
      Ok(front + [last])
  }

  /** A row that fails to read makes the whole query fail with its error. */
  lemma {:induction false} ReadLogsStop(rows: seq<Row>, infos: seq<AppInfoInternal>, i: nat)
    requires i < |rows| && ReadLogs(rows[..i], infos).Ok? && ReadLog(rows[i], infos).Err?
    ensures ReadLogs(rows, infos) == Err(ReadLog(rows[i], infos).error)
  {
    var n := |rows| - 1;
    ReadLogsLast(rows, infos);
    if i == n {
      assert rows[..n] == rows[..i];
    } else {
      assert rows[..n][..i] == rows[..i];
      ReadLogsStop(rows[..n], infos, i);
    }
  }

  lemma ReadLogsLast(rows: seq<Row>, infos: seq<AppInfoInternal>)
    requires rows != []
    ensures var front := ReadLogs(rows[..|rows| - 1], infos);
            var last := ReadLog(rows[|rows| - 1], infos);
            ReadLogs(rows, infos) == if front.Err? then Err(front.error)
                                     else if last.Err? then Err(last.error)
                                     else Ok(front.value + [last.value])
  {
  }

  /** Appending a row appends its log. */
  lemma ReadLogsAppend(rows: seq<Row>, row: Row, infos: seq<AppInfoInternal>)
    requires ReadLogs(rows, infos).Ok? && ReadLog(row, infos).Ok?
    ensures ReadLogs(rows + [row], infos) == Ok(ReadLogs(rows, infos).value + [ReadLog(row, infos).value])
  {
    assert (rows + [row])[..|rows|] == rows;
  }

  lemma CursorIntOfInt(row: Row, column: string, x: Int32)
    requires column in row && row[column] == IntegerValue(x)
    ensures CursorInt(row, column) == Ok(x)
  {
    var r := CursorInt(row, column);
    assert (r.value - x) % 0x1_0000_0000 == 0;
  }

  /** The row addAccessLog stores reads back as the log it was written from:
      the record types, time and operation, and the package when it had an
      application_info_table row ("null" when it had none). */
  lemma LogRoundTrip(types: seq<Int32>, packageName: string, accessTime: Int64, operationType: Int32,
                     infos: seq<AppInfoInternal>, rowId: Int64)
    requires Cacheable(infos)
    ensures ReadLog(LogValues(types, IdFor(infos, packageName), accessTime, operationType)[PRIMARY_COLUMN_NAME := IntegerValue(rowId)], infos)
            == Ok(AccessLog(if packageName in Packages(infos) then packageName else "null", types, accessTime, operationType))
  {
    var row := LogValues(types, IdFor(infos, packageName), accessTime, operationType)[PRIMARY_COLUMN_NAME := IntegerValue(rowId)];
    PackageOfIdFor(infos, packageName);
    TypesRoundTrip(types);
    CursorIntOfInt(row, OPERATION_TYPE_COLUMN_NAME, operationType);
  }

  /** addAccessLog: one row holding the joined record types, the package's
      app id (DEFAULT_LONG when it has none; getAppInfoId never inserts),
      the time, and the operation type. The insert fails only when the row
      ids are used up. */
  method AddAccessLog(packageName: string, recordTypes: seq<Int32>, operationType: Int32, nowMillis: Int64,
                      appInfo: AppInfoHelper, logs: Table)
    returns (r: Outcome)
    requires appInfo.Valid() && logs.Valid() && logs.columns == ColumnInfo() && logs != appInfo.table
    modifies appInfo, logs
    ensures appInfo.Valid() && logs.Valid() && appInfo.table.rows == old(appInfo.table.rows)
    ensures r.Fail? <==> old(logs.nextRowId) == 0x8000_0000_0000_0000
    ensures r.Fail? ==> logs.rows == old(logs.rows)
    ensures r.Pass? ==> logs.rows == old(logs.rows) + [
              LogValues(recordTypes, IdFor(appInfo.TableInfos(), packageName), nowMillis, operationType)
                [PRIMARY_COLUMN_NAME := IntegerValue(old(logs.nextRowId))]]
  {
    var contentValues := new ContentValues();
    contentValues.Put(RECORD_TYPE_COLUMN_NAME, TextValue(JoinTypes(recordTypes)));
    var appId := appInfo.GetAppInfoId(packageName);
    contentValues.Put(APP_ID_COLUMN_NAME, IntegerValue(appId));
    contentValues.Put(ACCESS_TIME_COLUMN_NAME, IntegerValue(nowMillis));
    contentValues.Put(OPERATION_TYPE_COLUMN_NAME, IntegerValue(operationType));
    assert contentValues.values == LogValues(recordTypes, appId, nowMillis, operationType);
    assert !Conflicts(logs.rows, logs.columns, contentValues.values);
    var inserted := logs.Insert(contentValues.values);
    r := if inserted.Ok? then Pass else Fail(inserted.error);
  }

  /** One turn of queryAccessLogs' cursor loop: the app id, its package
      name through getPackageName, then the rest of the row. */
  method ReadRow(appInfo: AppInfoHelper, row: Row) returns (r: Result<AccessLog>)
    requires appInfo.Valid()
    modifies appInfo
    ensures appInfo.Valid() && appInfo.table.rows == old(appInfo.table.rows)
    ensures r == ReadLog(row, appInfo.TableInfos())
  {
    var appId := CursorLong(row, APP_ID_COLUMN_NAME);
    if appId.Err? {
      return Err(appId.error);
    }
    var packageName := appInfo.GetPackageName(appId.value);
    r := LogOfRow(row, NameOrNull(packageName));
  }

  /** queryAccessLogs: one log per row of access_logs_table, in cursor order,
      each with the package name its app id has in application_info_table. */
  method QueryAccessLogs(appInfo: AppInfoHelper, logs: Table) returns (r: Result<seq<AccessLog>>)
    requires appInfo.Valid()
    modifies appInfo
    ensures appInfo.Valid() && appInfo.table.rows == old(appInfo.table.rows)
    ensures r == ReadLogs(logs.rows, appInfo.TableInfos())
  {
    var rows := logs.rows;
    ghost var infos := appInfo.TableInfos();
    var accessLogs: seq<AccessLog> := [];
    var i := 0;
    while i < |rows|
      invariant 0 <= i <= |rows| && rows == logs.rows
      invariant appInfo.Valid() && appInfo.table.rows == old(appInfo.table.rows) && appInfo.TableInfos() == infos
      invariant ReadLogs(rows[..i], infos) == Ok(accessLogs)
    {
      var accessLog := ReadRow(appInfo, rows[i]);
      if accessLog.Err? {
        ReadLogsStop(rows, infos, i);
        return Err(accessLog.error);
      }
      assert rows[..i + 1] == rows[..i] + [rows[i]];
      ReadLogsAppend(rows[..i], rows[i], infos);
      accessLogs := accessLogs + [accessLog.value];
      i := i + 1;
    }
    assert rows[..i] == rows;
    r := Ok(accessLogs);
  }

  /** Logging a request and then querying gives every earlier log and, last,
      the one just written. */
  lemma AddThenQuery(rows: seq<Row>, infos: seq<AppInfoInternal>, packageName: string, types: seq<Int32>,
                     accessTime: Int64, operationType: Int32, rowId: Int64)
    requires Cacheable(infos) && ReadLogs(rows, infos).Ok?
    ensures ReadLogs(rows + [LogValues(types, IdFor(infos, packageName), accessTime, operationType)
                              [PRIMARY_COLUMN_NAME := IntegerValue(rowId)]], infos)
            == Ok(ReadLogs(rows, infos).value
                  + [AccessLog(if packageName in Packages(infos) then packageName else "null", types, accessTime, operationType)])
  {
    LogRoundTrip(types, packageName, accessTime, operationType, infos, rowId);
    ReadLogsAppend(rows, LogValues(types, IdFor(infos, packageName), accessTime, operationType)
                           [PRIMARY_COLUMN_NAME := IntegerValue(rowId)], infos);
  }
}
