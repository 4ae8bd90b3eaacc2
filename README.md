# Health Connect core, modelled in Dafny

This project models the core of Health Connect, the Android module that stores
health and fitness records on the device and arbitrates which apps may read
and write them. It covers seven concerns:

- **AppInfoHelper**: the `application_info_table` and its two lazily filled
  caches, package name → app info and row id → package name. It covers id
  lookups in both directions, filling a record's app id, and inserting an
  unseen package.
- **AccessLogsHelper**: the `access_logs_table`. Adding a log joins the
  record type ids with `,`, looks up the app id and stamps the access time.
  Querying turns every row back into an `AccessLog`.
- **HealthConnectPermissionHelper**: granting and revoking one health
  permission, revoking all of them, and listing the granted ones. Each
  public entry point runs its checks in the source's order: null arguments,
  MANAGE_HEALTH_PERMISSIONS, a known health permission, the incoming user,
  an installed package, and, for grant, the permissions-usage intent. A
  write permission also appends the package to, or removes it from, the
  priority list of its data category.
- **RecordsParcel**: a batch of records written to a `Parcel`. A batch over
  750 KB travels as shared memory. Reading checks a per-chunk quota and a
  per-record quota.
- **StepsCadenceRecordInternal**: conversion of its samples to and from the
  external record type, with epoch milliseconds, and through a parcel.
- **UpdatePriorityRequestParcel / GetPriorityResponseParcel**: the package
  priority order, and for updates the data category, carried through a
  parcel.
- **DistanceRecordHelper / IntermenstrualBleedingRecordHelper**: the
  table-specific columns of two record types, and how a record's fields are
  marshalled into a row and back.

Layout:

- `base.dfy`: Java integer widths (`Int32`, `Int64`), the exceptions as an
  `Error` datatype, `Option`, `Result`, and `Outcome` (a `void` method that
  may throw).
- `parcel.dfy`: a `Parcel` class whose contents are a sequence of typed
  cells plus a read position. It has typed readers and writers, string
  lists and the data size.
- `storage.dfy`: rows as maps from column name to SQLite value, typed
  cursor getters, `ContentValues`, and a `Table` class. Insert on a table
  assigns autoincrement row ids and enforces UNIQUE columns.
- The remaining files hold one module per core source file.

Each imperative Java method is a Dafny `method` whose `ensures` ties its
result and new state to a specification function. The properties are proved
about those functions:

- parcel round trips;
- the cache maps being inverses of each other and matching the table;
- query-after-add for access logs;
- the permission effects that grant, revoke and revoke-all produce.

## Model

Source paths are relative to the repository root.

| member | source | states |
|---|---|---|
| AppInfo.ColumnInfo | service/java/com/android/server/healthconnect/storage/datatypehelpers/AppInfoHelper.java:311-319 | Four columns, the primary key first; the only UNIQUE column is the package name; all names distinct |
| AppInfo.UniqueColumnIsPackage | service/java/com/android/server/healthconnect/storage/datatypehelpers/AppInfoHelper.java:311-319 | The package-name column is the one and only UNIQUE column of the app-info table |
| AppInfo.Infos | service/java/com/android/server/healthconnect/storage/datatypehelpers/AppInfoHelper.java:133-141 | Each cached app info is read from the table row at the same position, with the same row id, package, name and icon |
| AppInfo.MapKeys | service/java/com/android/server/healthconnect/storage/datatypehelpers/AppInfoHelper.java:133-141 | The app-info cache is keyed by exactly the table's package names; the id cache is keyed by exactly its row ids |
| AppInfo.AppMapAt | service/java/com/android/server/healthconnect/storage/datatypehelpers/AppInfoHelper.java:138-139 | With distinct package names, the cache entry for each row's package is that row's app info |
| AppInfo.IdMapAt | service/java/com/android/server/healthconnect/storage/datatypehelpers/AppInfoHelper.java:140 | With distinct ids, the id cache maps each row's id to that row's package |
| AppInfo.MapsOf | service/java/com/android/server/healthconnect/storage/datatypehelpers/AppInfoHelper.java:121-144 | Both caches built by the loop have the table's keys and, when keys are distinct, each row's values |
| AppInfo.MapsInverse | service/java/com/android/server/healthconnect/storage/datatypehelpers/AppInfoHelper.java:121-144 | The two caches are mutual inverses: package → id → the same package, and id → package → the same id |
| AppInfo.IdForMeaning | service/java/com/android/server/healthconnect/storage/datatypehelpers/AppInfoHelper.java:166-177 | The app id of a package is DEFAULT_LONG exactly when no row has that package, and otherwise that row's id |
| AppInfo.PackageOfIdFor | service/java/com/android/server/healthconnect/storage/datatypehelpers/AppInfoHelper.java:166-177 | Looking up the package of a package's app id gives that package back, or nothing when the package is unknown |
| AppInfo.TableRowsDistinct | service/java/com/android/server/healthconnect/storage/datatypehelpers/AppInfoHelper.java:311-319 | The UNIQUE package column and increasing autoincrement ids make the table's packages and ids distinct |
| AppInfo.NewRow | service/java/com/android/server/healthconnect/storage/datatypehelpers/AppInfoHelper.java:294-300 | The content values for a new app are a well-formed row that reads back as the app's id, package, label and icon |
| AppInfo.NoConflictForNewPackage | service/java/com/android/server/healthconnect/storage/datatypehelpers/AppInfoHelper.java:278-291 | Inserting a package the table does not hold violates no UNIQUE constraint |
| AppInfo.AfterInsert | service/java/com/android/server/healthconnect/storage/datatypehelpers/AppInfoHelper.java:278-291 | After the row is appended, both caches updated with the new entry equal the caches rebuilt from the table, and the package's app id is the new row id |
| AppInfo.LookupNames | service/java/com/android/server/healthconnect/storage/datatypehelpers/AppInfoHelper.java:207-217 | Mapping ids to names fails with NullPointer exactly when some id is missing from the id cache; otherwise each name is its id's entry, in order |
| AppInfo.AppInfoHelper.CacheInverse | service/java/com/android/server/healthconnect/storage/datatypehelpers/AppInfoHelper.java:121-144 | Once filled, the helper's caches are mutual inverses keyed by the table's packages and ids, holding each row's values |
| AppInfo.AppInfoHelper.InfosCacheable | service/java/com/android/server/healthconnect/storage/datatypehelpers/AppInfoHelper.java:311-319 | The table of a valid helper has distinct packages, distinct ids and ids of at least 1 |
| AppInfo.AppInfoHelper.PopulateAppInfoMap | service/java/com/android/server/healthconnect/storage/datatypehelpers/AppInfoHelper.java:121-144 | The caches are filled once from the table and then left as they are on later calls |
| AppInfo.AppInfoHelper.GetAppInfoId | service/java/com/android/server/healthconnect/storage/datatypehelpers/AppInfoHelper.java:166-177 | Returns the table's row id for the package, or DEFAULT_LONG when it is unknown; the table is unchanged |
| AppInfo.AppInfoHelper.GetAppInfoIds | service/java/com/android/server/healthconnect/storage/datatypehelpers/AppInfoHelper.java:179-199 | A null or empty list gives an empty list and changes nothing; otherwise one app id per package, in order |
| AppInfo.AppInfoHelper.GetPackageName | service/java/com/android/server/healthconnect/storage/datatypehelpers/AppInfoHelper.java:239-243 | Returns the package of the row with this id, and null exactly when no row has it |
| AppInfo.AppInfoHelper.GetPackageNames | service/java/com/android/server/healthconnect/storage/datatypehelpers/AppInfoHelper.java:202-220 | A null or empty list gives an empty list; an unknown id throws NullPointer; otherwise each id's package, in order |
| AppInfo.AppInfoHelper.PopulateRecordWithValue | service/java/com/android/server/healthconnect/storage/datatypehelpers/AppInfoHelper.java:152-156 | Sets the record's package name to the package of the given app id (null when unknown); its app id is untouched |
| AppInfo.AppInfoHelper.InsertAndGetAppInfo | service/java/com/android/server/healthconnect/storage/datatypehelpers/AppInfoHelper.java:278-291 | Fails exactly when the package is not installed (IllegalArgumentException) or row ids are exhausted (database full), never on a constraint; on success appends one row, puts the new entry in both caches, and the package's app id becomes the new row id |
| AppInfo.AppInfoHelper.CachedAppInfo | service/java/com/android/server/healthconnect/storage/datatypehelpers/AppInfoHelper.java:110-113 | Finds the cached app info exactly when the table holds the package, and then its id is the package's app id |
| AppInfo.AppInfoHelper.AppInfoFor | service/java/com/android/server/healthconnect/storage/datatypehelpers/AppInfoHelper.java:256-291 | A null name fails with IllegalArgumentException. A known package is served from the cache without touching the table. An unknown installed package gets exactly one new row and that row's id; an uninstalled one fails with IllegalArgumentException, leaving the table unchanged |
| AppInfo.AppInfoHelper.PopulateAppInfoId | service/java/com/android/server/healthconnect/storage/datatypehelpers/AppInfoHelper.java:108-119 | On success the record's app id is its package's app id (never DEFAULT_LONG). A known package leaves the table unchanged; an unknown installed one is inserted as exactly one row whose new id the record takes; an uninstalled or null one fails with IllegalArgumentException, leaving the record and table unchanged |
| AccessLogs.ColumnInfo | service/java/com/android/server/healthconnect/storage/datatypehelpers/AccessLogsHelper.java:125-134 | Five columns, the autoincrement primary key first, the rest INTEGER or TEXT NOT NULL, all names distinct |
| AccessLogs.NatToString | service/java/com/android/server/healthconnect/storage/datatypehelpers/AccessLogsHelper.java:114 | The decimal text of a natural number is non-empty and all digits |
| AccessLogs.IntToString | service/java/com/android/server/healthconnect/storage/datatypehelpers/AccessLogsHelper.java:114 | The decimal text of a record type id is non-empty and never contains the delimiter |
| AccessLogs.DigitsOfNat | service/java/com/android/server/healthconnect/storage/datatypehelpers/AccessLogsHelper.java:114 | The digits written for a natural number read back as that number |
| AccessLogs.ParseIntToString | service/java/com/android/server/healthconnect/storage/datatypehelpers/AccessLogsHelper.java:93-94 | Parsing the decimal text of any 32-bit id gives that id back |
| AccessLogs.Join | service/java/com/android/server/healthconnect/storage/datatypehelpers/AccessLogsHelper.java:114 | Joining no parts gives empty text; the text starts with the first part, followed by the delimiter when there are more parts; Split undoes it (SplitJoin) |
| AccessLogs.JoinTypes | service/java/com/android/server/healthconnect/storage/datatypehelpers/AccessLogsHelper.java:111-114 | The record-type text is empty exactly when the list is, and starts with the first type's decimal text |
| AccessLogs.Split | service/java/com/android/server/healthconnect/storage/datatypehelpers/AccessLogsHelper.java:93-94 | Splitting text on the delimiter always yields at least one field |
| AccessLogs.SplitPlain | service/java/com/android/server/healthconnect/storage/datatypehelpers/AccessLogsHelper.java:93-94 | Text without the delimiter splits into itself alone |
| AccessLogs.SplitAt | service/java/com/android/server/healthconnect/storage/datatypehelpers/AccessLogsHelper.java:93-94 | Splitting a field, the delimiter and a rest gives that field followed by the split of the rest |
| AccessLogs.SplitJoin | service/java/com/android/server/healthconnect/storage/datatypehelpers/AccessLogsHelper.java:111-114 | Splitting the join of delimiter-free fields gives the same fields back |
| AccessLogs.ParseAll | service/java/com/android/server/healthconnect/storage/datatypehelpers/AccessLogsHelper.java:93-94 | Parsing fields succeeds with one value per field exactly when every field parses, and fails when some field does not |
| AccessLogs.ParseAllOf | service/java/com/android/server/healthconnect/storage/datatypehelpers/AccessLogsHelper.java:93-94 | If each field parses to a value, parsing the fields gives those values in order |
| AccessLogs.ParseIntegerList | service/java/com/android/server/healthconnect/storage/datatypehelpers/AccessLogsHelper.java:93-94 | The record-type column reads as the empty list exactly when its text is empty |
| AccessLogs.TypesRoundTrip | service/java/com/android/server/healthconnect/storage/datatypehelpers/AccessLogsHelper.java:111-114 | The comma-joined record type ids written by addAccessLog read back as the same list |
| AccessLogs.LogOfRow | service/java/com/android/server/healthconnect/storage/datatypehelpers/AccessLogsHelper.java:87-100 | A log read from a row carries the package name it was given |
| AccessLogs.ReadLogs | service/java/com/android/server/healthconnect/storage/datatypehelpers/AccessLogsHelper.java:87-100 | A successful query yields one log per row, each the row's own log, in table order |
| AccessLogs.ReadLogsStop | service/java/com/android/server/healthconnect/storage/datatypehelpers/AccessLogsHelper.java:87-100 | The first row that cannot be read aborts the query with that row's error |
| AccessLogs.ReadLogsAppend | service/java/com/android/server/healthconnect/storage/datatypehelpers/AccessLogsHelper.java:87-100 | Reading one more readable row appends its log to the query result |
| AccessLogs.CursorIntOfInt | service/java/com/android/server/healthconnect/storage/datatypehelpers/AccessLogsHelper.java:97 | An operation type stored as a 32-bit integer reads back unchanged |
| AccessLogs.LogRoundTrip | service/java/com/android/server/healthconnect/storage/datatypehelpers/AccessLogsHelper.java:88-118 | The row written for a log reads back as the same record types, time and operation type, with the package name, or "null" for a package the app-info table does not hold |
| AccessLogs.AddAccessLog | service/java/com/android/server/healthconnect/storage/datatypehelpers/AccessLogsHelper.java:107-122 | Fails only when row ids are exhausted; otherwise appends exactly one row holding the joined types, the package's app id, the given time and the operation; the app-info table is unchanged |
| AccessLogs.ReadRow | service/java/com/android/server/healthconnect/storage/datatypehelpers/AccessLogsHelper.java:88-99 | Reading one cursor row gives the row's log |
| AccessLogs.QueryAccessLogs | service/java/com/android/server/healthconnect/storage/datatypehelpers/AccessLogsHelper.java:79-104 | Returns the logs of all rows in table order, and leaves the app-info table unchanged |
| AccessLogs.AddThenQuery | service/java/com/android/server/healthconnect/storage/datatypehelpers/AccessLogsHelper.java:79-122 | After adding a log, the query returns the earlier logs followed by exactly the added one |
| Permissions.HandleIncomingUser | service/java/com/android/server/healthconnect/permission/HealthConnectPermissionHelper.java:241-263 | The calling user passes unchanged; another user needs INTERACT_ACROSS_USERS_FULL, else SecurityException; with that permission USER_CURRENT maps to the current user and any other user id passes unchanged |
| Permissions.EnforceManageHealthPermissions | service/java/com/android/server/healthconnect/permission/HealthConnectPermissionHelper.java:218-221 | Passes exactly when the caller holds MANAGE_HEALTH_PERMISSIONS, otherwise SecurityException |
| Permissions.EnforceValidPermission | service/java/com/android/server/healthconnect/permission/HealthConnectPermissionHelper.java:204-208 | Passes exactly for a known health permission, otherwise IllegalArgumentException |
| Permissions.EnforceValidPackage | service/java/com/android/server/healthconnect/permission/HealthConnectPermissionHelper.java:210-216 | Passes exactly for an installed package, otherwise IllegalArgumentException |
| Permissions.EnforceSupportPermissionsUsageIntent | service/java/com/android/server/healthconnect/permission/HealthConnectPermissionHelper.java:223-232 | Passes exactly when the package supports the usage intent for that user, otherwise SecurityException |
| Permissions.Checks | service/java/com/android/server/healthconnect/permission/HealthConnectPermissionHelper.java:81-87 | All preconditions pass exactly when each check passes, and the result is the resolved user. The first failing check decides the error, in source order: null arguments (NullPointerException), the manage permission (SecurityException), an unknown permission (IllegalArgumentException), the incoming user (SecurityException), an uninstalled package (IllegalArgumentException), the usage intent (SecurityException) |
| Permissions.GrantedFilter | service/java/com/android/server/healthconnect/permission/HealthConnectPermissionHelper.java:181-191 | The granted list is no longer than the requested list |
| Permissions.GrantedFilterMembership | service/java/com/android/server/healthconnect/permission/HealthConnectPermissionHelper.java:182-190 | A permission is in the list exactly when it was requested, is a health permission and has the GRANTED flag at its index |
| Permissions.GrantedFilterHealthOnly | service/java/com/android/server/healthconnect/permission/HealthConnectPermissionHelper.java:184 | Every listed permission is a health permission |
| Permissions.GrantedAsWritten | service/java/com/android/server/healthconnect/permission/HealthConnectPermissionHelper.java:169-192 | As written: an unknown package gives IllegalArgumentException, and a package with no requested permissions gives a NullPointerException |
| Permissions.Granted | service/java/com/android/server/healthconnect/permission/HealthConnectPermissionHelper.java:169-192 | Corrected: fails (IllegalArgumentException) exactly for an unknown package; no requested permissions give an empty list |
| Permissions.GrantedAgrees | service/java/com/android/server/healthconnect/permission/HealthConnectPermissionHelper.java:169-192 | Whenever the package requests permissions, the as-written and corrected versions agree |
| Permissions.AsWrittenFailsOnNoPermissions | service/java/com/android/server/healthconnect/permission/HealthConnectPermissionHelper.java:181 | A package without requested permissions throws as written, and gets the empty list once corrected |
| Permissions.PriorityAppendIfWrite | service/java/com/android/server/healthconnect/permission/HealthConnectPermissionHelper.java:150-156 | One append to the category's priority list exactly for a write permission, none otherwise |
| Permissions.PriorityRemovalIfWrite | service/java/com/android/server/healthconnect/permission/HealthConnectPermissionHelper.java:158-167 | One removal from the category's priority list exactly for a write permission, none otherwise |
| Permissions.RevokedAppend | service/java/com/android/server/healthconnect/permission/HealthConnectPermissionHelper.java:198-201 | Revocations and priority changes of two effect logs concatenate |
| Permissions.RevokedOfStep | service/java/com/android/server/healthconnect/permission/HealthConnectPermissionHelper.java:199-200 | One loop step revokes exactly its permission |
| Permissions.RevokeAllRevokesEach | service/java/com/android/server/healthconnect/permission/HealthConnectPermissionHelper.java:194-202 | Revoke-all revokes exactly the granted permissions, each once, in order |
| Permissions.RevokeAllOnlyRevokes | service/java/com/android/server/healthconnect/permission/HealthConnectPermissionHelper.java:194-202 | Revoke-all touches only this package, grants nothing, appends to no priority list, and uses the given user and reason |
| Permissions.PriorityFollowsWrite | service/java/com/android/server/healthconnect/permission/HealthConnectPermissionHelper.java:90-114 | A grant changes priority lists only by appending to a write permission's category; a revoke only by removing from it |
| Permissions.HealthConnectPermissionHelper.GrantHealthPermission | service/java/com/android/server/healthconnect/permission/HealthConnectPermissionHelper.java:79-96 | Succeeds exactly when all checks pass; then grants to the resolved user and appends to the priority list if it is a write permission; a failure has no effect |
| Permissions.HealthConnectPermissionHelper.RevokeHealthPermission | service/java/com/android/server/healthconnect/permission/HealthConnectPermissionHelper.java:99-118 | Succeeds exactly when all checks but the usage intent pass; then revokes with the reason and removes from the priority list for a write permission; a failure has no effect |
| Permissions.HealthConnectPermissionHelper.RevokeAllHealthPermissions | service/java/com/android/server/healthconnect/permission/HealthConnectPermissionHelper.java:121-133 | Corrected (second finding): a failed check fails with its error and no effect; after the checks pass, the only failure is IllegalArgument for a package not installed for the resolved user; otherwise the effects are revoke-all over the granted permissions of that user, an empty list when none are requested |
| Permissions.HealthConnectPermissionHelper.GetGrantedHealthPermissions | service/java/com/android/server/healthconnect/permission/HealthConnectPermissionHelper.java:136-148 | Corrected (second finding): a failed check yields its error; otherwise the granted health permissions of the resolved user, an empty list when none are requested |
| Permissions.HealthConnectPermissionHelper.GetGrantedHealthPermissionsUnchecked | service/java/com/android/server/healthconnect/permission/HealthConnectPermissionHelper.java:169-192 | Corrected (second finding): the loop returns the granted list, an empty one when no permissions are requested |
| Permissions.HealthConnectPermissionHelper.RevokeAllHealthPermissionsUnchecked | service/java/com/android/server/healthconnect/permission/HealthConnectPermissionHelper.java:194-202 | Corrected (second finding): fails with IllegalArgumentException only for an unknown package, with no effect; otherwise revokes each granted permission, removing write permissions from priority lists |
| Permissions.HealthConnectPermissionHelper.AddToPriorityListIfRequired | service/java/com/android/server/healthconnect/permission/HealthConnectPermissionHelper.java:150-156 | Adds the priority append for a write permission, nothing otherwise |
| Permissions.HealthConnectPermissionHelper.RemoveFromPriorityListIfRequired | service/java/com/android/server/healthconnect/permission/HealthConnectPermissionHelper.java:158-167 | Adds the priority removal for a write permission, nothing otherwise |
| RecordsTransport.WireCells | framework/java/android/health/connect/aidl/RecordsParcel.java:95-108 | The first cell says shared memory exactly when the payload exceeds 750 KB, and in-parcel otherwise |
| RecordsTransport.DecodeRecord | framework/java/android/health/connect/aidl/RecordsParcel.java:76-77 | A decoded record is valid, has the requested type, and consumes at least one cell; an identifier with no record class fails with NullPointerException |
| RecordsTransport.DecodeLoop | framework/java/android/health/connect/aidl/RecordsParcel.java:73-86 | A successful loop yields exactly the counted number of records, and its cursor moves forward without leaving the parcel |
| RecordsTransport.RecordRoundTrip | framework/java/android/health/connect/aidl/RecordsParcel.java:76-77 | A record written to a parcel reads back as itself, consuming exactly its cells |
| RecordsTransport.LoopRoundTrip | framework/java/android/health/connect/aidl/RecordsParcel.java:73-86 | Records each within the per-record quota decode back as the same list, with the cursor at the end of their cells |
| RecordsTransport.LoopRejectsOversized | framework/java/android/health/connect/aidl/RecordsParcel.java:73-86 | Corrected: any record over the per-record quota makes decoding fail with the quota error |
| RecordsTransport.LoopAsWrittenIgnoresRecordSize | framework/java/android/health/connect/aidl/RecordsParcel.java:78-79 | As written: the per-record check measures the total parcel size, so the loop accepts records of any size |
| RecordsTransport.RecordsParcelRoundTrip | framework/java/android/health/connect/aidl/RecordsParcel.java:63-108 | A batch within both quotas, written by writeToParcel, reads back as the same records, whether inline or in shared memory, and the incoming parcel's cursor ends just past what was written |
| RecordsTransport.OversizedRecordRejected | framework/java/android/health/connect/aidl/RecordsParcel.java:63-87 | Corrected: a batch with a record over the per-record quota is rejected with the quota error |
| RecordsTransport.AsWrittenIgnoresRecordCap | framework/java/android/health/connect/aidl/RecordsParcel.java:63-87 | As written: a batch within the chunk quota decodes whatever its records' sizes, with the cursor just past what was written |
| RecordsTransport.AsWrittenAcceptsOversizedRecord | framework/java/android/health/connect/aidl/RecordsParcel.java:78-79 | A 28-byte record against a 16-byte record quota is accepted as written and rejected once corrected |
| RecordsTransport.ChunkCheckFirst | framework/java/android/health/connect/aidl/RecordsParcel.java:71-72 | A parcel whose total dataSize() is over the chunk quota fails before any record is read, with either per-record measure |
| RecordsTransport.EmptyBatch | framework/java/android/health/connect/aidl/RecordsParcel.java:63-108 | An empty batch round-trips to an empty list, with the cursor just past the tag and the zero count |
| RecordsTransport.ReadEntries | framework/java/android/health/connect/aidl/RecordsParcel.java:73-86 | Corrected (first finding): the read loop yields the specified decoding of the count's records and leaves the cursor just past the last one, with the per-record quota measured by dataAvail(); it makes no chunk check |
| RecordsTransport.CreateFromParcel | framework/java/android/health/connect/aidl/RecordsParcel.java:63-87 | Corrected (first finding): succeeds exactly when the decoding does, with its records, and otherwise fails with its error. On success the incoming cursor is just past the shared-memory handle, or just past the last inline record. The chunk quota is checked against dataSize() as written, the per-record quota against dataAvail() |
| RecordsTransport.ScratchPayload | framework/java/android/health/connect/aidl/RecordsParcel.java:97-99 | The scratch parcel holds the payload, and its data size is the payload's size |
| RecordsTransport.RecordsParcel.WriteToParcel | framework/java/android/health/connect/aidl/RecordsParcel.java:95-108 | Appends the marker and either the shared-memory segment or the payload, leaving the read position alone |
| RecordsTransport.RecordsParcel.WriteToParcelInternal | framework/java/android/health/connect/aidl/RecordsParcel.java:114-120 | Appends the record count, then each record's type and contents |
| StepsCadence.ToEpochMilli | framework/java/android/healthconnect/internal/datatypes/StepsCadenceRecordInternal.java:48 | Fails with ArithmeticException exactly when the millisecond count overflows a long; otherwise the result is the instant rounded down to a whole millisecond |
| StepsCadence.OfEpochMilli | framework/java/android/healthconnect/internal/datatypes/StepsCadenceRecordInternal.java:93 | The instant built from epoch milliseconds denotes exactly those milliseconds, with no nanoseconds below the millisecond |
| StepsCadence.EpochMilliRoundTrip | framework/java/android/healthconnect/internal/datatypes/StepsCadenceRecordInternal.java:86-96 | Epoch milliseconds to an instant and back are unchanged |
| StepsCadence.EpochMilliTruncates | framework/java/android/healthconnect/internal/datatypes/StepsCadenceRecordInternal.java:40-50 | An instant to epoch milliseconds and back loses only its sub-millisecond nanoseconds |
| StepsCadence.ExternalRoundTrip | framework/java/android/healthconnect/internal/datatypes/StepsCadenceRecordInternal.java:40-96 | Internal samples converted to external samples and back are unchanged |
| StepsCadence.InternalRoundTrip | framework/java/android/healthconnect/internal/datatypes/StepsCadenceRecordInternal.java:40-96 | External samples on whole milliseconds converted in and out are unchanged |
| StepsCadence.SamplesRoundTrip | framework/java/android/healthconnect/internal/datatypes/StepsCadenceRecordInternal.java:76-105 | Samples written to a parcel read back as the same samples |
| StepsCadence.ReadSamples | framework/java/android/healthconnect/internal/datatypes/StepsCadenceRecordInternal.java:76-84 | The read loop yields the specified decoding of the count and (rate, time) pairs, or its failure |
| StepsCadence.StepsCadenceRecordInternal.PopulateIntervalRecordFromExternal | framework/java/android/healthconnect/internal/datatypes/StepsCadenceRecordInternal.java:40-50 | Succeeds exactly when every sample's time fits in epoch milliseconds, storing the converted samples; else stops at the first overflowing sample with ArithmeticException |
| StepsCadence.StepsCadenceRecordInternal.SetSamples | framework/java/android/healthconnect/internal/datatypes/StepsCadenceRecordInternal.java:58-64 | A null list throws NullPointer and keeps the samples; otherwise the samples become the list |
| StepsCadence.StepsCadenceRecordInternal.GetExternalSamples | framework/java/android/healthconnect/internal/datatypes/StepsCadenceRecordInternal.java:86-96 | Returns each sample converted to the external type, in order |
| StepsCadence.StepsCadenceRecordInternal.PopulateIntervalRecordTo | framework/java/android/healthconnect/internal/datatypes/StepsCadenceRecordInternal.java:98-105 | Appends the count and each sample's rate and time to the parcel |
| StepsCadence.StepsCadenceRecordInternal.PopulateIntervalRecordFromParcel | framework/java/android/healthconnect/internal/datatypes/StepsCadenceRecordInternal.java:76-84 | Succeeds exactly when the parcel holds a sample list, which becomes the samples |
| PriorityParcels.UpdateParcelFromRequest | framework/java/android/healthconnect/aidl/UpdatePriorityRequestParcel.java:52-58 | The parcel holds the request's package names in the request's order, and its data category |
| PriorityParcels.UpdateParcelRoundTrip | framework/java/android/healthconnect/aidl/UpdatePriorityRequestParcel.java:47-78 | A written update parcel reads back as itself |
| PriorityParcels.RequestThroughParcel | framework/java/android/healthconnect/aidl/UpdatePriorityRequestParcel.java:47-78 | A request sent through a parcel arrives as its package names in order, with its category |
| PriorityParcels.CreateUpdateParcel | framework/java/android/healthconnect/aidl/UpdatePriorityRequestParcel.java:47-50 | Reads the specified decoding of a string list then an int, or fails |
| PriorityParcels.ResponseParcelFromResponse | framework/java/android/healthconnect/aidl/GetPriorityResponseParcel.java:49-54 | The parcel holds the response's package names in priority order |
| PriorityParcels.ResponseParcelRoundTrip | framework/java/android/healthconnect/aidl/GetPriorityResponseParcel.java:45-64 | A written response parcel reads back as itself |
| PriorityParcels.CreateResponseParcel | framework/java/android/healthconnect/aidl/GetPriorityResponseParcel.java:45-47 | Reads the specified decoding of a string list, or fails |
| Parcels.StringListRoundTrip | framework/java/android/healthconnect/aidl/UpdatePriorityRequestParcel.java:47-78 | A string list written with writeStringList reads back with createStringArrayList |
| Storage.Table.Insert | service/java/com/android/server/healthconnect/storage/datatypehelpers/AccessLogsHelper.java:120-121 | Fails, changing nothing, exactly when ids are exhausted or a UNIQUE column clashes; otherwise appends the row with the next autoincrement id |
| DistanceHelper.MainTableName | service/java/com/android/server/healthconnect/storage/datatypehelpers/DistanceRecordHelper.java:41-45 | The table is distance_record_table |
| DistanceHelper.IntervalRecordColumnInfo | service/java/com/android/server/healthconnect/storage/datatypehelpers/DistanceRecordHelper.java:59-63 | One type-specific column, distance, of type REAL |
| DistanceHelper.PopulateSpecificContentValues | service/java/com/android/server/healthconnect/storage/datatypehelpers/DistanceRecordHelper.java:53-57 | Writes exactly the declared distance column, holding the record's distance |
| DistanceHelper.PopulateSpecificRecordValue | service/java/com/android/server/healthconnect/storage/datatypehelpers/DistanceRecordHelper.java:47-51 | Succeeds exactly when the row holds a REAL distance, which the record takes; otherwise the record is unchanged |
| DistanceHelper.DistanceRoundTrip | service/java/com/android/server/healthconnect/storage/datatypehelpers/DistanceRecordHelper.java:47-57 | A distance written into content values and read into another record arrives unchanged |
| IntermenstrualBleedingHelper.MainTableName | service/java/com/android/server/healthconnect/storage/datatypehelpers/IntermenstrualBleedingRecordHelper.java:40-44 | The table is intermenstrual_bleeding_record_table |
| IntermenstrualBleedingHelper.InstantRecordColumnInfo | service/java/com/android/server/healthconnect/storage/datatypehelpers/IntermenstrualBleedingRecordHelper.java:55-59 | No type-specific columns |
| IntermenstrualBleedingHelper.PopulateSpecificContentValues | service/java/com/android/server/healthconnect/storage/datatypehelpers/IntermenstrualBleedingRecordHelper.java:46-49 | Puts exactly the declared type-specific columns, which are none, so the content values are unchanged |
| IntermenstrualBleedingHelper.PopulateSpecificRecordValue | service/java/com/android/server/healthconnect/storage/datatypehelpers/IntermenstrualBleedingRecordHelper.java:51-53 | Although allowed to modify the record, leaves it unchanged |

## Left out

- The platform is a value passed in. It holds the calling user and the
  caller's permissions, the current user, the installed packages and their
  `PackageInfo`, and the apps that support the usage intent. Binder
  identity tokens, `Context` and the `ActivityManager` are not modelled.
- `PackageManager.grantRuntimePermission`/`revokeRuntimePermission` and
  `HealthDataCategoryPriorityHelper` are recorded as an effect log in the
  permission helper.
- `HealthPermissions.isWritePermission`/`getHealthDataCategory` are the map
  `writeCategories`. That class is not part of this model.
- Singletons (`getInstance`), `mLock` and concurrency are left out. The
  helpers are ordinary objects, and every method runs to completion.
- `AppInfoHelper.getApplicationInfos`, `onUpgrade`,
  `getCreateTableRequest`/`getTableName` and the icon code are left out
  (`getBitmapFromDrawable`, JPEG compression). These are UI and schema-upgrade
  paths outside the id bookkeeping. The package manager is a map from an
  installed package to its label and icon bytes.
- AppInfo.AppInfoHelper.AppInfoFor: a null package name fails with
  IllegalArgument. The source would pass null into the package-manager
  lookup, whose failure it reports the same way.
- SQLite, `TransactionManager` and cursors are left out. A table is a
  sequence of rows with autoincrement ids and UNIQUE checks. NOT NULL
  constraints are not enforced, because no core path writes a null.
- `getCursorIntegerList` is not part of this model. It is taken to split on
  the delimiter and parse each field as a decimal `int`.
- AccessLogs.Split keeps trailing empty fields, whereas `String.split`
  drops them. The writer never produces empty fields, so the difference is
  not observable.
- `Instant.now()` in `addAccessLog` is the parameter `nowMillis`.
- `RateLimiter`'s chunk and record caps are the `Limits` parameters, and
  its other quotas are left out.
- `ParcelUtils`' shared memory is one cell holding the payload.
- Each record's own `writeToParcel`/`populateUsing` is a small header
  encoding. Record type ids are placeholders, since `RecordMapper` is not
  part of this model.
- Doubles are opaque 64-bit patterns, with no floating-point arithmetic.
- A `Parcel` read past the end or of the wrong type fails here, where
  Android would return zero. StepsCadence.StepsCadenceRecordInternal.PopulateIntervalRecordFromParcel
  therefore keeps its old samples when a read fails, whereas Android would
  fill in zeroed samples.
- Permissions.HealthConnectPermissionHelper.GetGrantedHealthPermissions,
  RevokeAllHealthPermissions, GetGrantedHealthPermissionsUnchecked and
  RevokeAllHealthPermissionsUnchecked use the corrected granted list of the
  second finding. As written they throw NullPointerException for a package
  that requests no permissions; that behaviour is only in
  Permissions.GrantedAsWritten.
- RecordsTransport.DecodeRecord stands in for `ParcelRecordConverter.getRecord`,
  which is not part of this model. It assumes that an identifier with no
  record class finds a null class and fails with NullPointerException; the
  reflection failures that RecordsParcel.java:80-84 turns into
  IllegalArgumentException cannot happen for the three modelled classes.
- RecordsTransport.ReadEntries and CreateFromParcel measure the per-record
  quota with dataAvail(), the correction of the first finding. The chunk
  quota still compares the whole parcel's dataSize(), as
  RecordsParcel.java:71 does. The as-written per-record check (total size,
  so the cap never fires) is only in DecodeRecordsParcel with
  DataSizeProbe and its lemmas.
- Parcels.DecodeStringList (used by both priority parcels) reads a negative
  count as Malformed, whereas `createStringArrayList` returns a null list.
  The priority parcels therefore fail on a null list instead of holding
  null. A null element is also read as Malformed, whereas
  `createStringArrayList` keeps the null in the list; the data-origin
  package names are taken to be non-null.
- Permissions.HealthConnectPermissionHelper.GrantHealthPermission,
  RevokeHealthPermission and RevokeAllHealthPermissionsUnchecked assume that
  the package manager's `grantRuntimePermission` and
  `revokeRuntimePermission` succeed once the checks pass. A failure or
  exception inside those calls is not modelled.
- Storage.CursorLong, CursorInt and CursorDouble fail on SQL NULL or a value
  of another type. Android's `getLong`/`getInt`/`getDouble` coerce, reading
  NULL as 0.
- Permissions.PriorityRemovalIfWrite builds a RemoveFromPriority effect
  without the user argument (`mContext.getUser()`, the service's own user)
  that `removeFromPriorityList` receives.
- StepsCadence.StepsCadenceRecordInternal.SetSamples stores the list as a
  value. The source keeps the caller's list by reference, so later changes
  to that list would show through `getSamples`; this aliasing is not
  modelled.
- RecordsTransport.RecordsParcel.WriteToParcel does not model Android's
  string-size encoding inside the shared-memory segment. Sizes are a fixed
  per-cell byte cost (`CellSize`).

## Findings

| source | as written | input that shows it | evidently intended | confidence | as-written member | corrected member |
|---|---|---|---|---|---|---|
| framework/java/android/health/connect/aidl/RecordsParcel.java:78-79 | The per-record quota compares `in.dataSize()` before and after reading a record. The total size does not change while reading, so every record measures 0 bytes and the record quota is never enforced | one intermenstrual bleeding record whose encoding takes 28 bytes, with a 16-byte record quota | measure with `dataAvail()`, which shrinks as the record is read, and reject the 28-byte record | not executed | RecordsTransport.AsWrittenAcceptsOversizedRecord | RecordsTransport.OversizedRecordRejected |
| service/java/com/android/server/healthconnect/permission/HealthConnectPermissionHelper.java:181-182 | `packageInfo.requestedPermissions.length` is read without a null check. Android leaves `requestedPermissions` null for a package that requests no permissions, so this throws NullPointerException | an installed package whose manifest declares no uses-permission | report an empty list of granted health permissions, which also lets revoke-all succeed with nothing to revoke | not executed | Permissions.AsWrittenFailsOnNoPermissions | Permissions.Granted |
