/** AppInfoHelper: the application_info_table and its two in-memory maps,
    package name to AppInfoInternal and row id to package name, filled
    lazily from the table and extended when an unknown package is first seen. */
module AppInfo {
  import opened Base
  import opened Storage

  const TABLE_NAME: string := "application_info_table"
  const APPLICATION_COLUMN_NAME: string := "app_name"
  const PACKAGE_COLUMN_NAME: string := "package_name"
  const APP_ICON_COLUMN_NAME: string := "app_icon"

  /** getColumnInfo: the table's columns, in creation order. */
  function ColumnInfo(): (cols: seq<Column>)
    ensures |cols| == 4 && cols[0] == Column(PRIMARY_COLUMN_NAME, Primary)
    ensures forall k :: 0 <= k < |cols| && cols[k].colType == TextNotNullUnique ==> cols[k].name == PACKAGE_COLUMN_NAME
    ensures forall k, l :: 0 <= k < l < |cols| ==> cols[k].name != cols[l].name
  {
    [ Column(PRIMARY_COLUMN_NAME, Primary),
      Column(PACKAGE_COLUMN_NAME, TextNotNullUnique),
      Column(APPLICATION_COLUMN_NAME, TextNull),
      Column(APP_ICON_COLUMN_NAME, Blob) ]
  }

  /** Of the four columns only the package name is UNIQUE. */
  lemma UniqueColumnIsPackage(c: string)
    ensures IsUnique(ColumnInfo(), c) <==> c == PACKAGE_COLUMN_NAME
  {
    if c == PACKAGE_COLUMN_NAME {
      assert ColumnInfo()[1].name == c;
    }
  }

  datatype AppInfoInternal = AppInfoInternal(id: Int64, packageName: string, name: Option<string>, icon: Option<seq<bv8>>)

  /** What PackageManager reports for an installed package: its label and
      its icon, already compressed to bytes. */
  datatype InstalledApp = InstalledApp(appLabel: string, icon: seq<bv8>)

  /** A row populateAppInfoMap can read: an id, a non-null package name, a
      name or null, an icon or null. */
  predicate WellFormedRow(row: Row)
  {
    && CursorLong(row, PRIMARY_COLUMN_NAME).Ok?
    && CursorString(row, PACKAGE_COLUMN_NAME).Ok? && CursorString(row, PACKAGE_COLUMN_NAME).value.Some?
    && CursorString(row, APPLICATION_COLUMN_NAME).Ok?
    && CursorBlob(row, APP_ICON_COLUMN_NAME).Ok?
  }

  /** The AppInfoInternal one cursor row yields. */
  function RowInfo(row: Row): AppInfoInternal
    requires WellFormedRow(row)
  {
    AppInfoInternal(
      CursorLong(row, PRIMARY_COLUMN_NAME).value,
      CursorString(row, PACKAGE_COLUMN_NAME).value.value,
      CursorString(row, APPLICATION_COLUMN_NAME).value,
      CursorBlob(row, APP_ICON_COLUMN_NAME).value)
  }

  predicate WellFormedRows(rows: seq<Row>)
  {
    forall i :: 0 <= i < |rows| ==> WellFormedRow(rows[i])
  }

  function Infos(rows: seq<Row>): (infos: seq<AppInfoInternal>)
    requires WellFormedRows(rows)
    ensures |infos| == |rows| && forall i :: 0 <= i < |rows| ==> infos[i] == RowInfo(rows[i])
  {
    seq(|rows|, i requires 0 <= i < |rows| => RowInfo(rows[i]))
  }

  // ---- the two maps, as the cursor loop builds them ----

  /** mAppInfoMap after putting each info in order. */
  function AppMapOf(infos: seq<AppInfoInternal>): map<string, AppInfoInternal>
  {
    if infos == [] then map[]
    else AppMapOf(infos[..|infos| - 1])[infos[|infos| - 1].packageName := infos[|infos| - 1]]
  }

  /** mIdPackageNameMap after putting each (id, package) in order. */
  function IdMapOf(infos: seq<AppInfoInternal>): map<Int64, string>
  {
    if infos == [] then map[]
    else IdMapOf(infos[..|infos| - 1])[infos[|infos| - 1].id := infos[|infos| - 1].packageName]
  }

  ghost function Packages(infos: seq<AppInfoInternal>): set<string>
  {
    set i | 0 <= i < |infos| :: infos[i].packageName
  }

  ghost function Ids(infos: seq<AppInfoInternal>): set<Int64>
  {
    set i | 0 <= i < |infos| :: infos[i].id
  }

  ghost predicate DistinctPackages(infos: seq<AppInfoInternal>)
  {
    forall i, j :: 0 <= i < j < |infos| ==> infos[i].packageName != infos[j].packageName
  }

  ghost predicate DistinctIds(infos: seq<AppInfoInternal>)
  {
    forall i, j :: 0 <= i < j < |infos| ==> infos[i].id != infos[j].id
  }

  lemma PackagesSnoc(infos: seq<AppInfoInternal>)
    requires infos != []
    ensures Packages(infos) == Packages(infos[..|infos| - 1]) + {infos[|infos| - 1].packageName}
    ensures Ids(infos) == Ids(infos[..|infos| - 1]) + {infos[|infos| - 1].id}
  {
    var n := |infos| - 1;
    var front := infos[..n];
    forall p | p in Packages(infos) ensures p in Packages(front) + {infos[n].packageName} {
      var i :| 0 <= i < |infos| && infos[i].packageName == p;
      if i < n {
        assert front[i] == infos[i];
      }
    }
    forall p | p in Packages(front) ensures p in Packages(infos) {
      var i :| 0 <= i < |front| && front[i].packageName == p;
      assert infos[i] == front[i];
    }
    forall d | d in Ids(infos) ensures d in Ids(front) + {infos[n].id} {
      var i :| 0 <= i < |infos| && infos[i].id == d;
      if i < n {
        assert front[i] == infos[i];
      }
    }
    forall d | d in Ids(front) ensures d in Ids(infos) {
      var i :| 0 <= i < |front| && front[i].id == d;
      assert infos[i] == front[i];
    }
  }

  /** The maps hold exactly the packages and the ids of the rows. */
  lemma {:induction false} MapKeys(infos: seq<AppInfoInternal>)
    ensures AppMapOf(infos).Keys == Packages(infos)
    ensures IdMapOf(infos).Keys == Ids(infos)
  {
    if infos != [] {
      MapKeys(infos[..|infos| - 1]);
      PackagesSnoc(infos);
    }
  }

  /** With distinct packages, each package maps to its own row. */
  lemma {:induction false} AppMapAt(infos: seq<AppInfoInternal>, i: nat)
    requires DistinctPackages(infos) && i < |infos|
    ensures infos[i].packageName in AppMapOf(infos) && AppMapOf(infos)[infos[i].packageName] == infos[i]
  {
    var n := |infos| - 1;
    if i < n {
      AppMapAt(infos[..n], i);
    }
  }

  /** With distinct ids, each id maps to its own row's package. */
  lemma {:induction false} IdMapAt(infos: seq<AppInfoInternal>, i: nat)
    requires DistinctIds(infos) && i < |infos|
    ensures infos[i].id in IdMapOf(infos) && IdMapOf(infos)[infos[i].id] == infos[i].packageName
  {
    var n := |infos| - 1;
    if i < n {
      IdMapAt(infos[..n], i);
    }
  }

  /** The maps hold exactly the packages and ids of the rows; with distinct
      packages each package maps to its own row, with distinct ids each id
      to its own row's package. */
  lemma MapsOf(infos: seq<AppInfoInternal>)
    ensures AppMapOf(infos).Keys == Packages(infos)
    ensures IdMapOf(infos).Keys == Ids(infos)
    ensures DistinctPackages(infos) ==>
              forall i :: 0 <= i < |infos| ==> AppMapOf(infos)[infos[i].packageName] == infos[i]
    ensures DistinctIds(infos) ==>
              forall i :: 0 <= i < |infos| ==> IdMapOf(infos)[infos[i].id] == infos[i].packageName
  {
    MapKeys(infos);
    if DistinctPackages(infos) {
      forall i | 0 <= i < |infos| ensures AppMapOf(infos)[infos[i].packageName] == infos[i] {
        AppMapAt(infos, i);
      }
    }
    if DistinctIds(infos) {
      forall i | 0 <= i < |infos| ensures IdMapOf(infos)[infos[i].id] == infos[i].packageName {
        IdMapAt(infos, i);
      }
    }
  }

  /** The two maps are mutual inverses: each cached package's id leads back
      to it, and each cached id's package has that id. */
  ghost predicate MutualInverse(appMap: map<string, AppInfoInternal>, idMap: map<Int64, string>)
  {
    && (forall p :: p in appMap ==> appMap[p].packageName == p && appMap[p].id in idMap && idMap[appMap[p].id] == p)
    && (forall d :: d in idMap ==> idMap[d] in appMap && appMap[idMap[d]].id == d)
  }

  lemma MapsInverse(infos: seq<AppInfoInternal>)
    requires DistinctPackages(infos) && DistinctIds(infos)
    ensures MutualInverse(AppMapOf(infos), IdMapOf(infos))
  {
    MapsOf(infos);
    forall p | p in AppMapOf(infos)
      ensures AppMapOf(infos)[p].packageName == p && AppMapOf(infos)[p].id in IdMapOf(infos)
              && IdMapOf(infos)[AppMapOf(infos)[p].id] == p
    {
      var i :| 0 <= i < |infos| && infos[i].packageName == p;
      assert infos[i].id in Ids(infos);
    }
    forall d | d in IdMapOf(infos)
      ensures IdMapOf(infos)[d] in AppMapOf(infos) && AppMapOf(infos)[IdMapOf(infos)[d]].id == d
    {
      var i :| 0 <= i < |infos| && infos[i].id == d;
      assert infos[i].packageName in Packages(infos);
    }
  }

  /** getAppInfoId's answer for the rows: the package's row id, or DEFAULT_LONG. */
  ghost function IdFor(infos: seq<AppInfoInternal>, packageName: string): Int64
  {
    if packageName in AppMapOf(infos) then AppMapOf(infos)[packageName].id else DEFAULT_LONG
  }

  /** With row ids at least 1, DEFAULT_LONG answers exactly the packages
      that have no row, and a package with a row gets that row's id. */
  lemma IdForMeaning(infos: seq<AppInfoInternal>, packageName: string)
    requires DistinctPackages(infos)
    requires forall i :: 0 <= i < |infos| ==> infos[i].id >= 1
    ensures IdFor(infos, packageName) == DEFAULT_LONG <==> packageName !in Packages(infos)
    ensures forall i :: 0 <= i < |infos| && infos[i].packageName == packageName ==> IdFor(infos, packageName) == infos[i].id
  {
    MapsOf(infos);
    if packageName in Packages(infos) {
      var i :| 0 <= i < |infos| && infos[i].packageName == packageName;
      assert AppMapOf(infos)[packageName] == infos[i];
    }
  }

  /** getPackageName's answer for the rows: the package cached under the id, or null. */
  ghost function PackageFor(infos: seq<AppInfoInternal>, id: Int64): Option<string>
  {
    if id in IdMapOf(infos) then Some(IdMapOf(infos)[id]) else None
  }

  /** What the rows of a well-formed table look like: distinct packages,
      distinct ids, every id at least 1. */
  ghost predicate Cacheable(infos: seq<AppInfoInternal>)
  {
    && DistinctPackages(infos) && DistinctIds(infos)
    && forall i :: 0 <= i < |infos| ==> infos[i].id >= 1
  }

  /** The id getAppInfoId gives a package leads getPackageName back to that
      package; a package with no row gets DEFAULT_LONG, which names nothing. */
  lemma PackageOfIdFor(infos: seq<AppInfoInternal>, packageName: string)
    requires Cacheable(infos)
    ensures PackageFor(infos, IdFor(infos, packageName))
            == if packageName in Packages(infos) then Some(packageName) else None
  {
    MapsOf(infos);
    IdForMeaning(infos, packageName);
    if packageName in Packages(infos) {
      var i :| 0 <= i < |infos| && infos[i].packageName == packageName;
      assert IdMapOf(infos)[infos[i].id] == packageName;
    } else {
      assert DEFAULT_LONG !in Ids(infos);
    }
  }

  /** The rows of a table with these columns have distinct ids and distinct packages. */
  lemma TableRowsDistinct(rows: seq<Row>, columns: seq<Column>)
    requires columns == ColumnInfo() && WellFormedRows(rows)
    requires forall i, j :: 0 <= i < j < |rows| ==> RowIdOf(rows[i]).value < RowIdOf(rows[j]).value
    requires forall c, i, j :: IsUnique(columns, c) && 0 <= i < j < |rows| && c in rows[i] && c in rows[j]
                              ==> rows[i][c] != rows[j][c]
    ensures DistinctPackages(Infos(rows)) && DistinctIds(Infos(rows))
  {
    UniqueColumnIsPackage(PACKAGE_COLUMN_NAME);
    forall i, j | 0 <= i < j < |rows|
      ensures Infos(rows)[i].packageName != Infos(rows)[j].packageName
      ensures Infos(rows)[i].id != Infos(rows)[j].id
    {
      assert rows[i][PACKAGE_COLUMN_NAME] != rows[j][PACKAGE_COLUMN_NAME];
    }
  }

  /** The row getContentValues builds, once the insert has given it an id. */
  function NewRow(packageName: string, app: InstalledApp, id: Int64): (row: Row)
    ensures WellFormedRow(row) && RowInfo(row) == AppInfoInternal(id, packageName, Some(app.appLabel), Some(app.icon))
  {
    map[PACKAGE_COLUMN_NAME := TextValue(packageName),
        APPLICATION_COLUMN_NAME := TextValue(app.appLabel),
        APP_ICON_COLUMN_NAME := BlobValue(app.icon),
        PRIMARY_COLUMN_NAME := IntegerValue(id)]
  }

  /** A package with no row cannot clash with the table's only UNIQUE column. */
  lemma NoConflictForNewPackage(rows: seq<Row>, values: Row, packageName: string)
    requires WellFormedRows(rows)
    requires PACKAGE_COLUMN_NAME in values && values[PACKAGE_COLUMN_NAME] == TextValue(packageName)
    requires packageName !in Packages(Infos(rows))
    ensures !Conflicts(rows, ColumnInfo(), values)
  {
    var columns := ColumnInfo();
    forall k, i | 0 <= k < |columns| && columns[k].colType == TextNotNullUnique && columns[k].name in values
                  && 0 <= i < |rows| && columns[k].name in rows[i]
      ensures rows[i][columns[k].name] != values[columns[k].name]
    {
      assert k == 1;
      assert Infos(rows)[i].packageName in Packages(Infos(rows));
    }
  }

  /** Appending the inserted row appends its info, and puts it into both maps. */
  lemma AfterInsert(rows: seq<Row>, packageName: string, app: InstalledApp, id: Int64,
                    appMap: map<string, AppInfoInternal>, idMap: map<Int64, string>)
    requires WellFormedRows(rows)
    requires forall i :: 0 <= i < |rows| ==> RowIdOf(rows[i]) == Some(RowInfo(rows[i]).id)
    requires appMap == AppMapOf(Infos(rows)) && idMap == IdMapOf(Infos(rows))
    ensures var rows' := rows + [NewRow(packageName, app, id)];
            var info := AppInfoInternal(id, packageName, Some(app.appLabel), Some(app.icon));
            && WellFormedRows(rows')
            && (forall i :: 0 <= i < |rows'| ==> RowIdOf(rows'[i]) == Some(RowInfo(rows'[i]).id))
            && appMap[packageName := info] == AppMapOf(Infos(rows'))
            && idMap[id := packageName] == IdMapOf(Infos(rows'))
            && IdFor(Infos(rows'), packageName) == id
  {
    var row := NewRow(packageName, app, id);
    var rows' := rows + [row];
    var info := AppInfoInternal(id, packageName, Some(app.appLabel), Some(app.icon));
    assert WellFormedRows(rows') by {
      forall i | 0 <= i < |rows'| ensures WellFormedRow(rows'[i]) {
        if i < |rows| {
          assert rows'[i] == rows[i];
        }
      }
    }
    assert Infos(rows') == Infos(rows) + [info];
    assert (Infos(rows) + [info])[..|rows|] == Infos(rows);
    forall i | 0 <= i < |rows'| ensures RowIdOf(rows'[i]) == Some(RowInfo(rows'[i]).id) {
      if i < |rows| {
        assert rows'[i] == rows[i];
      }
    }
  }

  /** The loop of getPackageNames over a fixed id map: a null check fails
      on the first id the map lacks; otherwise one name per id, in order. */
  method LookupNames(ids: seq<Int64>, idMap: map<Int64, string>) returns (r: Result<seq<string>>)
    ensures r.Err? <==> exists k :: 0 <= k < |ids| && ids[k] !in idMap
    ensures r.Err? ==> r.error == NullPointer
    ensures r.Ok? ==> |r.value| == |ids| && forall k :: 0 <= k < |ids| ==> ids[k] in idMap && r.value[k] == idMap[ids[k]]
  {
    var names: seq<string> := [];
    var i := 0;
    while i < |ids|
      invariant 0 <= i <= |ids|
      invariant forall k :: 0 <= k < i ==> ids[k] in idMap
      invariant |names| == i && forall k :: 0 <= k < i ==> names[k] == idMap[ids[k]]
    {
      if ids[i] !in idMap {
        return Err(NullPointer);
      }
      names := names + [idMap[ids[i]]];
      i := i + 1;
    }
    r := Ok(names);
  }

  /** The part of a RecordInternal this helper sets in place: the owning
      package and its application_info_table id. */
  class RecordIdentity {
    var packageName: Option<string>
    var appInfoId: Int64

    constructor (packageName: Option<string>, appInfoId: Int64)
      ensures this.packageName == packageName && this.appInfoId == appInfoId
    {
      this.packageName := packageName;
      this.appInfoId := appInfoId;
    }
  }

  class AppInfoHelper {
    /** application_info_table. */
    const table: Table
    /** mAppInfoMap; None until populated. */
    var appInfoMap: Option<map<string, AppInfoInternal>>
    /** mIdPackageNameMap; None until populated. */
    var idPackageNameMap: Option<map<Int64, string>>

    /** Both maps are absent, or both are exactly what reading the whole
        table in row order would build. */
    ghost predicate Valid()
      reads this, table
    {
      && table.Valid() && table.columns == ColumnInfo() && WellFormedRows(table.rows)
      && (forall i :: 0 <= i < |table.rows| ==> RowIdOf(table.rows[i]) == Some(RowInfo(table.rows[i]).id))
      && (appInfoMap.Some? <==> idPackageNameMap.Some?)
      && (appInfoMap.Some? ==> && appInfoMap.value == AppMapOf(Infos(table.rows))
                               && idPackageNameMap.value == IdMapOf(Infos(table.rows)))
    }

    ghost function TableInfos(): seq<AppInfoInternal>
      reads this, table
      requires Valid()
    {
      Infos(table.rows)
    }

    constructor (table: Table)
      requires table.Valid() && table.columns == ColumnInfo() && WellFormedRows(table.rows)
      requires forall i :: 0 <= i < |table.rows| ==> RowIdOf(table.rows[i]) == Some(RowInfo(table.rows[i]).id)
      ensures Valid() && this.table == table && appInfoMap.None? && idPackageNameMap.None?
    {
      this.table := table;
      appInfoMap := None;
      idPackageNameMap := None;
    }

    /** Once valid, the cached maps are mutual inverses and hold exactly the
        table's packages and ids. */
    lemma CacheInverse()
      requires Valid() && appInfoMap.Some?
      ensures MutualInverse(appInfoMap.value, idPackageNameMap.value)
      ensures appInfoMap.value.Keys == Packages(TableInfos())
      ensures idPackageNameMap.value.Keys == Ids(TableInfos())
      ensures forall i :: 0 <= i < |TableInfos()| ==> idPackageNameMap.value[TableInfos()[i].id] == TableInfos()[i].packageName
      ensures forall i :: 0 <= i < |TableInfos()| ==> appInfoMap.value[TableInfos()[i].packageName] == TableInfos()[i]
    {
      TableRowsDistinct(table.rows, table.columns);
      MapsInverse(TableInfos());
      MapsOf(TableInfos());
    }

    /** The rows of a valid helper's table can be cached without loss. */
    lemma InfosCacheable()
      requires Valid()
      ensures Cacheable(TableInfos())
    {
      TableRowsDistinct(table.rows, table.columns);
      forall i | 0 <= i < |TableInfos()| ensures TableInfos()[i].id >= 1 {
        assert RowIdOf(table.rows[i]) == Some(TableInfos()[i].id);
      }
    }

    /** populateAppInfoMap: a no-op once populated; otherwise one pass over
        the table's rows, putting each into both maps. */
    method PopulateAppInfoMap()
      requires Valid()
      modifies this
      ensures Valid() && appInfoMap.Some?
      ensures old(appInfoMap).Some? ==> appInfoMap == old(appInfoMap) && idPackageNameMap == old(idPackageNameMap)
    {
      if appInfoMap.Some? {
        return;
      }
      var rows := table.rows;
      ghost var infos := Infos(rows);
      var appMap: map<string, AppInfoInternal> := map[];
      var idMap: map<Int64, string> := map[];
      var i := 0;
      while i < |rows|
        invariant 0 <= i <= |rows|
        invariant appMap == AppMapOf(infos[..i]) && idMap == IdMapOf(infos[..i])
      {
        var rowId := CursorLong(rows[i], PRIMARY_COLUMN_NAME).value;
        var packageName := CursorString(rows[i], PACKAGE_COLUMN_NAME).value.value;
        var appName := CursorString(rows[i], APPLICATION_COLUMN_NAME).value;
        var icon := CursorBlob(rows[i], APP_ICON_COLUMN_NAME).value;
        appMap := appMap[packageName := AppInfoInternal(rowId, packageName, appName, icon)];
        idMap := idMap[rowId := packageName];
        assert infos[..i + 1][..i] == infos[..i];
        i := i + 1;
      }
      assert infos[..i] == infos;
      appInfoMap := Some(appMap);
      idPackageNameMap := Some(idMap);
    }

    /** getAppInfoId: the cached row id of the package, DEFAULT_LONG when it
        has none; it never inserts. */
    method GetAppInfoId(packageName: string) returns (id: Int64)
      requires Valid()
      modifies this
      ensures Valid() && appInfoMap.Some? && table.rows == old(table.rows)
      ensures id == IdFor(TableInfos(), packageName)
    {
      PopulateAppInfoMap();
      var appInfo := appInfoMap.value;
      if packageName !in appInfo {
        return DEFAULT_LONG;
      }
      id := appInfo[packageName].id;
    }

    /** getAppInfoIds: empty for a null or empty list; otherwise one id per
        package, in order. */
    method GetAppInfoIds(packageNames: Option<seq<string>>) returns (ids: seq<Int64>)
      requires Valid()
      modifies this
      ensures Valid() && table.rows == old(table.rows)
      ensures packageNames.None? || packageNames.value == [] ==> ids == [] && unchanged(this)
      ensures packageNames.Some? ==> && |ids| == |packageNames.value|
                                     && forall k :: 0 <= k < |ids| ==> ids[k] == IdFor(TableInfos(), packageNames.value[k])
    {
      if packageNames.None? || packageNames.value == [] {
        return [];
      }
      var names := packageNames.value;
      ids := [];
      var i := 0;
      while i < |names|
        invariant 0 <= i <= |names|
        invariant Valid() && table.rows == old(table.rows)
        invariant |ids| == i && forall k :: 0 <= k < i ==> ids[k] == IdFor(TableInfos(), names[k])
      {
        var id := GetAppInfoId(names[i]);
        ids := ids + [id];
        i := i + 1;
      }
    }

    /** getPackageName: the cached package of the id, or null. */
    method GetPackageName(packageId: Int64) returns (r: Option<string>)
      requires Valid()
      modifies this
      ensures Valid() && idPackageNameMap.Some? && table.rows == old(table.rows)
      ensures r.Some? <==> packageId in Ids(TableInfos())
      ensures r.Some? ==> forall i :: 0 <= i < |TableInfos()| && TableInfos()[i].id == packageId
                                      ==> r.value == TableInfos()[i].packageName
      ensures r == PackageFor(TableInfos(), packageId)
    {
      PopulateAppInfoMap();
      CacheInverse();
      TableRowsDistinct(table.rows, table.columns);
      MapsOf(TableInfos());
      var idMap := idPackageNameMap.value;
      r := if packageId in idMap then Some(idMap[packageId]) else None;
    }

    /** getPackageNames: empty for a null or empty list; a null check fails
        on the first id with no cached package; otherwise one name per id,
        in order. */
    method GetPackageNames(packageIds: Option<seq<Int64>>) returns (r: Result<seq<string>>)
      requires Valid()
      modifies this
      ensures Valid() && table.rows == old(table.rows)
      ensures packageIds.None? || packageIds.value == [] ==> r == Ok([]) && unchanged(this)
      ensures packageIds.Some? && packageIds.value != [] ==>
                (r.Err? <==> exists k :: 0 <= k < |packageIds.value| && packageIds.value[k] !in Ids(TableInfos()))
      ensures r.Err? ==> r.error == NullPointer
      ensures r.Ok? && packageIds.Some? ==>
                && |r.value| == |packageIds.value|
                && forall k, i :: 0 <= k < |r.value| && 0 <= i < |TableInfos()| && TableInfos()[i].id == packageIds.value[k]
                                  ==> r.value[k] == TableInfos()[i].packageName
    {
      if packageIds.None? || packageIds.value == [] {
        return Ok([]);
      }
      PopulateAppInfoMap();
      CacheInverse();
      r := LookupNames(packageIds.value, idPackageNameMap.value);
    }

    /** populateRecordWithValue: the record's package becomes the cached
        package of the id, or null. */
    method PopulateRecordWithValue(appInfoId: Int64, record: RecordIdentity)
      requires Valid()
      modifies this, record
      ensures Valid() && table.rows == old(table.rows)
      ensures record.packageName.Some? <==> appInfoId in Ids(TableInfos())
      ensures forall i :: 0 <= i < |TableInfos()| && TableInfos()[i].id == appInfoId
                          ==> record.packageName == Some(TableInfos()[i].packageName)
      ensures record.appInfoId == old(record.appInfoId)
    {
      var name := GetPackageName(appInfoId);
      record.packageName := name;
    }

    /** insertAndGetAppInfo, for a package not in the cache: look it up in
        the package manager (missing: IllegalArgumentException), insert one
        row, and put the new id into both maps. The UNIQUE package column
        cannot be violated, because the cache holds every package of the table. */
    method InsertAndGetAppInfo(packageName: string, packageManager: map<string, InstalledApp>)
      returns (r: Result<AppInfoInternal>)
      requires Valid() && appInfoMap.Some? && packageName !in appInfoMap.value
      modifies this, table
      ensures Valid() && appInfoMap.Some?
      ensures r.Err? <==> packageName !in packageManager || old(table.nextRowId) == 0x8000_0000_0000_0000
      ensures packageName !in packageManager ==> r == Err(IllegalArgument)
      ensures packageName in packageManager && r.Err? ==> r.error == DatabaseFull
      ensures r.Err? ==> table.rows == old(table.rows) && appInfoMap == old(appInfoMap)
                         && idPackageNameMap == old(idPackageNameMap)
      ensures r.Ok? ==> && r.value.id == old(table.nextRowId) && r.value.packageName == packageName
                        && table.rows == old(table.rows) + [NewRow(packageName, packageManager[packageName], r.value.id)]
                        && appInfoMap.value == old(appInfoMap.value)[packageName := r.value]
                        && idPackageNameMap.value == old(idPackageNameMap.value)[r.value.id := packageName]
      ensures r.Ok? ==> r.value.id == IdFor(TableInfos(), packageName) && r.value.id != DEFAULT_LONG
    {
      if packageName !in packageManager {
        return Err(IllegalArgument);
      }
      var app := packageManager[packageName];
      var values := map[PACKAGE_COLUMN_NAME := TextValue(packageName),
                        APPLICATION_COLUMN_NAME := TextValue(app.appLabel),
                        APP_ICON_COLUMN_NAME := BlobValue(app.icon)];
      ghost var oldRows := table.rows;
      CacheInverse();
      NoConflictForNewPackage(table.rows, values, packageName);
      var rowId := table.Insert(values);
      if rowId.Err? {
        return Err(rowId.error);
      }
      var appInfo := AppInfoInternal(rowId.value, packageName, Some(app.appLabel), Some(app.icon));
      assert values[PRIMARY_COLUMN_NAME := IntegerValue(rowId.value)] == NewRow(packageName, app, rowId.value);
      AfterInsert(oldRows, packageName, app, rowId.value, appInfoMap.value, idPackageNameMap.value);
      appInfoMap := Some(appInfoMap.value[packageName := appInfo]);
      idPackageNameMap := Some(idPackageNameMap.value[appInfo.id := packageName]);
      r := Ok(appInfo);
    }

    /** The lookup in getAppInfoMap: the package's cached AppInfoInternal, if any. */
    method CachedAppInfo(packageName: string) returns (r: Option<AppInfoInternal>)
      requires Valid()
      modifies this
      ensures Valid() && appInfoMap.Some? && table.rows == old(table.rows)
      ensures r.Some? <==> packageName in Packages(TableInfos())
      ensures r.None? ==> packageName !in appInfoMap.value
      ensures r.Some? ==> r.value.id == IdFor(TableInfos(), packageName) && r.value.id != DEFAULT_LONG
    {
      PopulateAppInfoMap();
      CacheInverse();
      TableRowsDistinct(table.rows, table.columns);
      IdForMeaning(TableInfos(), packageName);
      r := if packageName in appInfoMap.value then Some(appInfoMap.value[packageName]) else None;
    }

    /** The AppInfoInternal populateAppInfoId settles on: the cached one, or
        else the one insertAndGetAppInfo adds. */
    method AppInfoFor(packageName: Option<string>, packageManager: map<string, InstalledApp>)
      returns (r: Result<AppInfoInternal>)
      requires Valid()
      modifies this, table
      ensures Valid()
      ensures r.Err? ==> table.rows == old(table.rows) && r.error != ConstraintViolation
      ensures r.Ok? ==> && packageName.Some?
                        && r.value.id == IdFor(TableInfos(), packageName.value)
                        && r.value.id != DEFAULT_LONG
      ensures packageName.None? ==> r == Err(IllegalArgument)
      ensures packageName.Some? && packageName.value in AppMapOf(Infos(old(table.rows))) ==>
                r.Ok? && table.rows == old(table.rows)
      ensures packageName.Some? && packageName.value !in AppMapOf(Infos(old(table.rows))) ==>
                && (r.Err? <==> packageName.value !in packageManager || old(table.nextRowId) == 0x8000_0000_0000_0000)
                && (packageName.value !in packageManager ==> r == Err(IllegalArgument))
                && (packageName.value in packageManager && r.Err? ==> r.error == DatabaseFull)
                && (r.Ok? ==> && r.value.id == old(table.nextRowId)
                              && table.rows == old(table.rows) + [NewRow(packageName.value, packageManager[packageName.value], r.value.id)])
      ensures table.rows != old(table.rows) ==>
                |table.rows| == |old(table.rows)| + 1 && table.rows[..|old(table.rows)|] == old(table.rows)
    {
      if packageName.None? {
        PopulateAppInfoMap();
        return Err(IllegalArgument);
      }
      var cached := CachedAppInfo(packageName.value);
      if cached.Some? {
        return Ok(cached.value);
      }
      ghost var oldRows := table.rows;
      r := InsertAndGetAppInfo(packageName.value, packageManager);
      if r.Ok? {
        assert table.rows[..|oldRows|] == oldRows;
      }
    }

    /** populateAppInfoId: a cached package gets its id without an insert; an
        unknown one is inserted first. A record with no package name, or a
        package the package manager does not know, fails as
        IllegalArgumentException and the record keeps its id. */
    method PopulateAppInfoId(record: RecordIdentity, packageManager: map<string, InstalledApp>) returns (r: Outcome)
      requires Valid()
      modifies this, table, record
      ensures Valid()
      ensures record.packageName == old(record.packageName)
      ensures r.Fail? ==> record.appInfoId == old(record.appInfoId) && table.rows == old(table.rows)
      ensures r.Pass? ==> && record.packageName.Some?
                          && record.appInfoId == IdFor(TableInfos(), record.packageName.value)
                          && record.appInfoId != DEFAULT_LONG
      ensures old(record.packageName).None? ==> r == Fail(IllegalArgument)
      ensures old(record.packageName).Some? && old(record.packageName.value in AppMapOf(Infos(table.rows))) ==>
                r.Pass? && table.rows == old(table.rows)
      ensures old(record.packageName).Some? && old(record.packageName.value !in AppMapOf(Infos(table.rows))) ==>
                && (r.Fail? <==> old(record.packageName.value !in packageManager || table.nextRowId == 0x8000_0000_0000_0000))
                && (old(record.packageName.value !in packageManager) ==> r == Fail(IllegalArgument))
                && (old(record.packageName.value in packageManager) && r.Fail? ==> r.error == DatabaseFull)
                && (r.Pass? ==> && record.appInfoId == old(table.nextRowId)
                                && table.rows == old(table.rows) + [NewRow(record.packageName.value, packageManager[record.packageName.value], record.appInfoId)])
      ensures r.Pass? && table.rows != old(table.rows) ==>
                |table.rows| == |old(table.rows)| + 1 && table.rows[..|old(table.rows)|] == old(table.rows)
    {
      var appInfo := AppInfoFor(record.packageName, packageManager);
      if appInfo.Err? {
        return Fail(appInfo.error);
      }
      record.appInfoId := appInfo.value.id;
      r := Pass;
    }
  }
}
