/** HealthConnectPermissionHelper: the checks in front of granting,
    revoking and listing health permissions, the filter that picks granted
    health permissions out of a package's requested permissions, and the
    priority-list upkeep that follows a grant or revoke of a write
    permission. The platform (binder identity, package manager, activity
    manager, the usage-intent tracker) is a value the caller passes in; what
    the helper does to the outside world is an append-only list of effects. */
module Permissions {
  import opened Base

  /** UserHandle.CURRENT's identifier. */
  const USER_CURRENT: int := -2

  /** PackageInfo.REQUESTED_PERMISSION_GRANTED. */
  const REQUESTED_PERMISSION_GRANTED: bv32 := 2

  /** The GET_PERMISSIONS part of a PackageInfo: two parallel arrays, each
      null when the manifest requests no permission. */
  datatype PackageInfo = PackageInfo(requestedPermissions: Option<seq<string>>,
                                     requestedPermissionsFlags: Option<seq<bv32>>)

  /** What the package manager guarantees of the two arrays. */
  predicate ParallelArrays(info: PackageInfo)
  {
    && (info.requestedPermissions.Some? <==> info.requestedPermissionsFlags.Some?)
    && (info.requestedPermissions.Some? ==>
          |info.requestedPermissions.value| == |info.requestedPermissionsFlags.value|)
  }

  /** What the helper asks of the platform during one call. */
  datatype Platform = Platform(
    callingUserId: int,                              // the user of Binder.getCallingUid()
    holdsManageHealthPermissions: bool,              // enforceCallingOrSelfPermission(MANAGE_HEALTH_PERMISSIONS)
    canInteractAcrossUsersFull: bool,                // checkCallingPermission(INTERACT_ACROSS_USERS_FULL)
    currentUserId: int,                              // ActivityManager.getCurrentUser()
    installedPackages: set<string>,                  // mPackageManager.getPackageInfo(name, 0) succeeds
    packageInfos: map<(string, int), PackageInfo>,   // getPackageInfo(name, GET_PERMISSIONS) as each user
    usageIntentApps: set<(string, int)>)             // supportsPermissionUsageIntent(name, user)

  predicate WellFormed(platform: Platform)
  {
    forall key :: key in platform.packageInfos ==> ParallelArrays(platform.packageInfos[key])
  }

  /** What reaches the outside world: runtime grants and revokes, and
      priority-list appends and removals. */
  datatype Effect =
    | GrantRuntime(packageName: string, permission: string, userId: int)
    | RevokeRuntime(packageName: string, permission: string, userId: int, reason: Option<string>)
    | AppendToPriority(packageName: string, category: Int32)
    | RemoveFromPriority(packageName: string, category: Int32)

  // ---- the checks ----

  /** handleIncomingUser: the caller's own user as is; any other user needs
      INTERACT_ACROSS_USERS_FULL, with CURRENT meaning the foreground user. */
  function HandleIncomingUser(platform: Platform, userId: int): (r: Result<int>)
    ensures r.Err? <==> userId != platform.callingUserId && !platform.canInteractAcrossUsersFull
    ensures r.Err? ==> r.error == Security
    ensures userId == platform.callingUserId ==> r == Ok(userId)
    ensures r.Ok? ==> r.value == platform.callingUserId || platform.canInteractAcrossUsersFull
    ensures r.Ok? && r.value != userId ==> userId == USER_CURRENT && r.value == platform.currentUserId
    ensures userId != platform.callingUserId && platform.canInteractAcrossUsersFull ==>
              r == Ok(if userId == USER_CURRENT then platform.currentUserId else userId)
  {
    if userId == platform.callingUserId then Ok(userId)
    else if platform.canInteractAcrossUsersFull then
      Ok(if userId == USER_CURRENT then platform.currentUserId else userId)
    else Err(Security)
  }

  function EnforceManageHealthPermissions(platform: Platform): (r: Outcome)
    ensures r.Pass? <==> platform.holdsManageHealthPermissions
    ensures r.Fail? ==> r.error == Security
  {
    if platform.holdsManageHealthPermissions then Pass else Fail(Security)
  }

  function EnforceValidPermission(healthPermissions: set<string>, permission: string): (r: Outcome)
    ensures r.Pass? <==> permission in healthPermissions
    ensures r.Fail? ==> r.error == IllegalArgument
  {
    if permission in healthPermissions then Pass else Fail(IllegalArgument)
  }

  function EnforceValidPackage(platform: Platform, packageName: string): (r: Outcome)
    ensures r.Pass? <==> packageName in platform.installedPackages
    ensures r.Fail? ==> r.error == IllegalArgument
  {
    if packageName in platform.installedPackages then Pass else Fail(IllegalArgument)
  }

  function EnforceSupportPermissionsUsageIntent(platform: Platform, packageName: string, userId: int): (r: Outcome)
    ensures r.Pass? <==> (packageName, userId) in platform.usageIntentApps
    ensures r.Fail? ==> r.error == Security
  {
    if (packageName, userId) in platform.usageIntentApps then Pass else Fail(Security)
  }

  /** The part of every entry point that decides whether it may go ahead, in
      source order: the null checks, the manage permission, (for grant and
      revoke) the permission's validity, the target user, the package, and
      (for grant) the usage intent. The result is the checked user. */
  function Checks(platform: Platform, healthPermissions: set<string>, packageName: Option<string>,
                  permissionName: Option<Option<string>>, userId: int, needsUsageIntent: bool): (r: Result<int>)
    ensures r.Ok? <==>
              && packageName.Some? && (permissionName.Some? ==> permissionName.value.Some?)
              && platform.holdsManageHealthPermissions
              && (permissionName.Some? ==> permissionName.value.value in healthPermissions)
              && HandleIncomingUser(platform, userId).Ok?
              && packageName.value in platform.installedPackages
              && (needsUsageIntent ==> (packageName.value, HandleIncomingUser(platform, userId).value) in platform.usageIntentApps)
    ensures r.Ok? ==> r == HandleIncomingUser(platform, userId)
    ensures packageName.None? || (permissionName.Some? && permissionName.value.None?) ==> r == Err(NullPointer)
    ensures packageName.Some? && (permissionName.Some? ==> permissionName.value.Some?) && !platform.holdsManageHealthPermissions
            ==> r == Err(Security)
    ensures (&& packageName.Some? && permissionName.Some? && permissionName.value.Some?
             && platform.holdsManageHealthPermissions
             && permissionName.value.value !in healthPermissions)
            ==> r == Err(IllegalArgument)
    ensures (&& packageName.Some? && (permissionName.Some? ==> permissionName.value.Some?)
             && platform.holdsManageHealthPermissions
             && (permissionName.Some? ==> permissionName.value.value in healthPermissions)
             && HandleIncomingUser(platform, userId).Err?)
            ==> r == Err(Security)
    ensures (&& packageName.Some? && (permissionName.Some? ==> permissionName.value.Some?)
             && platform.holdsManageHealthPermissions
             && (permissionName.Some? ==> permissionName.value.value in healthPermissions)
             && HandleIncomingUser(platform, userId).Ok?
             && packageName.value !in platform.installedPackages)
            ==> r == Err(IllegalArgument)
    ensures (&& packageName.Some? && (permissionName.Some? ==> permissionName.value.Some?)
             && platform.holdsManageHealthPermissions
             && (permissionName.Some? ==> permissionName.value.value in healthPermissions)
             && HandleIncomingUser(platform, userId).Ok?
             && packageName.value in platform.installedPackages
             && needsUsageIntent
             && (packageName.value, HandleIncomingUser(platform, userId).value) !in platform.usageIntentApps)
            ==> r == Err(Security)
  {
    if packageName.None? || (permissionName.Some? && permissionName.value.None?) then Err(NullPointer)
    else if EnforceManageHealthPermissions(platform).Fail? then Err(Security)
    else if permissionName.Some? && EnforceValidPermission(healthPermissions, permissionName.value.value).Fail?
    then Err(IllegalArgument)
    else
      var checkedUser :- HandleIncomingUser(platform, userId);
      if EnforceValidPackage(platform, packageName.value).Fail? then Err(IllegalArgument)
      else if needsUsageIntent && EnforceSupportPermissionsUsageIntent(platform, packageName.value, checkedUser).Fail?
      then Err(Security)
      else Ok(checkedUser)
  }

  // ---- the granted-permission filter ----

  predicate IsGrantedHealthPermission(healthPermissions: set<string>, permission: string, flags: bv32)
  {
    permission in healthPermissions && flags & REQUESTED_PERMISSION_GRANTED != 0
  }

  /** The loop of getGrantedHealthPermissionsUnchecked, as a value: the
      requested permissions that are health permissions with the GRANTED
      bit set, in requested order. */
  function GrantedFilter(healthPermissions: set<string>, requested: seq<string>, flags: seq<bv32>): (g: seq<string>)
    requires |requested| == |flags|
    ensures |g| <= |requested|
  {
    if requested == [] then []
    else
      var n := |requested| - 1;
      GrantedFilter(healthPermissions, requested[..n], flags[..n])
        + (if IsGrantedHealthPermission(healthPermissions, requested[n], flags[n]) then [requested[n]] else [])
  }

  /** A permission is in the filter's result exactly when some requested
      entry names it with the GRANTED bit and it is a health permission. */
  lemma {:induction false} GrantedFilterMembership(healthPermissions: set<string>, requested: seq<string>,
                                                   flags: seq<bv32>, p: string)
    requires |requested| == |flags|
    ensures p in GrantedFilter(healthPermissions, requested, flags) <==>
              exists i :: 0 <= i < |requested| && requested[i] == p && IsGrantedHealthPermission(healthPermissions, p, flags[i])
  {
    if requested != [] {
      var n := |requested| - 1;
      GrantedFilterMembership(healthPermissions, requested[..n], flags[..n], p);
      if exists i :: 0 <= i < |requested| && requested[i] == p && IsGrantedHealthPermission(healthPermissions, p, flags[i]) {
        var i :| 0 <= i < |requested| && requested[i] == p && IsGrantedHealthPermission(healthPermissions, p, flags[i]);
        if i < n {
          assert requested[..n][i] == p && flags[..n][i] == flags[i];
        }
      }
    }
  }

  /** Every permission the filter keeps is a health permission. */
  lemma {:induction false} GrantedFilterHealthOnly(healthPermissions: set<string>, requested: seq<string>, flags: seq<bv32>)
    requires |requested| == |flags|
    ensures forall k :: 0 <= k < |GrantedFilter(healthPermissions, requested, flags)| ==>
              GrantedFilter(healthPermissions, requested, flags)[k] in healthPermissions
  {
    if requested != [] {
      var n := |requested| - 1;
      GrantedFilterHealthOnly(healthPermissions, requested[..n], flags[..n]);
    }
  }

  /** getGrantedHealthPermissionsUnchecked as written: a package unknown to
      the user is an IllegalArgumentException, and a package that requests
      no permission, whose array is null, fails on the array's length. */
  function GrantedAsWritten(platform: Platform, healthPermissions: set<string>, packageName: string, userId: int)
    : (r: Result<seq<string>>)
    requires WellFormed(platform)
    ensures (packageName, userId) !in platform.packageInfos ==> r == Err(IllegalArgument)
    ensures ((packageName, userId) in platform.packageInfos
             && platform.packageInfos[(packageName, userId)].requestedPermissions.None?) ==> r == Err(NullPointer)
  {
    if (packageName, userId) !in platform.packageInfos then Err(IllegalArgument)
    else
      var info := platform.packageInfos[(packageName, userId)];
      if info.requestedPermissions.None? then Err(NullPointer)
      else Ok(GrantedFilter(healthPermissions, info.requestedPermissions.value, info.requestedPermissionsFlags.value))
  }

  /** getGrantedHealthPermissionsUnchecked as intended: a package with no
      requested permission has no granted health permission. */
  function Granted(platform: Platform, healthPermissions: set<string>, packageName: string, userId: int)
    : (r: Result<seq<string>>)
    requires WellFormed(platform)
    ensures r.Err? <==> (packageName, userId) !in platform.packageInfos
    ensures r.Err? ==> r.error == IllegalArgument
    ensures r.Ok? && platform.packageInfos[(packageName, userId)].requestedPermissions.None? ==> r.value == []
  {
    if (packageName, userId) !in platform.packageInfos then Err(IllegalArgument)
    else
      var info := platform.packageInfos[(packageName, userId)];
      if info.requestedPermissions.None? then Ok([])
      else Ok(GrantedFilter(healthPermissions, info.requestedPermissions.value, info.requestedPermissionsFlags.value))
  }

  /** The two agree on every package that requests at least one permission. */
  lemma GrantedAgrees(platform: Platform, healthPermissions: set<string>, packageName: string, userId: int)
    requires WellFormed(platform)
    requires (packageName, userId) in platform.packageInfos
    requires platform.packageInfos[(packageName, userId)].requestedPermissions.Some?
    ensures GrantedAsWritten(platform, healthPermissions, packageName, userId)
            == Granted(platform, healthPermissions, packageName, userId)
  {
  }

  /** A package installed for the user with an empty manifest: as written,
      listing or revoking all of its health permissions fails with a null
      pointer; as intended, it has none. */
  lemma AsWrittenFailsOnNoPermissions()
    ensures var platform := Platform(0, true, false, 0, {"app"}, map[("app", 0) := PackageInfo(None, None)], {});
            && WellFormed(platform)
            && GrantedAsWritten(platform, {}, "app", 0) == Err(NullPointer)
            && Granted(platform, {}, "app", 0) == Ok([])
  {
    var platform := Platform(0, true, false, 0, {"app"}, map[("app", 0) := PackageInfo(None, None)], {});
    assert ParallelArrays(platform.packageInfos[("app", 0)]);
  }

  // ---- effects ----

  /** addToPriorityListIfRequired: an append for write permissions only. */
  function PriorityAppendIfWrite(writeCategories: map<string, Int32>, packageName: string, permission: string): (e: seq<Effect>)
    ensures |e| <= 1
    ensures e != [] <==> permission in writeCategories
    ensures e != [] ==> e[0] == AppendToPriority(packageName, writeCategories[permission])
  {
    if permission in writeCategories then [AppendToPriority(packageName, writeCategories[permission])] else []
  }

  /** removeFromPriorityListIfRequired: a removal for write permissions only. */
  function PriorityRemovalIfWrite(writeCategories: map<string, Int32>, packageName: string, permission: string): (e: seq<Effect>)
    ensures |e| <= 1
    ensures e != [] <==> permission in writeCategories
    ensures e != [] ==> e[0] == RemoveFromPriority(packageName, writeCategories[permission])
  {
    if permission in writeCategories then [RemoveFromPriority(packageName, writeCategories[permission])] else []
  }

  /** What revokeAllHealthPermissionsUnchecked does for a list of permissions. */
  function RevokeAllEffects(writeCategories: map<string, Int32>, packageName: string, permissions: seq<string>,
                            userId: int, reason: Option<string>): seq<Effect>
  {
    if permissions == [] then []
    else
      var n := |permissions| - 1;
      RevokeAllEffects(writeCategories, packageName, permissions[..n], userId, reason)
        + [RevokeRuntime(packageName, permissions[n], userId, reason)]
        + PriorityRemovalIfWrite(writeCategories, packageName, permissions[n])
  }

  /** The permissions a list of effects revokes at runtime, in order. */
  function Revoked(effects: seq<Effect>): seq<string>
  {
    if effects == [] then []
    else
      var n := |effects| - 1;
      Revoked(effects[..n]) + (if effects[n].RevokeRuntime? then [effects[n].permission] else [])
  }

  /** The priority-list changes in a list of effects. */
  function PriorityChanges(effects: seq<Effect>): seq<Effect>
  {
    if effects == [] then []
    else
      var n := |effects| - 1;
      PriorityChanges(effects[..n])
        + (if effects[n].AppendToPriority? || effects[n].RemoveFromPriority? then [effects[n]] else [])
  }

  lemma {:induction false} RevokedAppend(a: seq<Effect>, b: seq<Effect>)
    ensures Revoked(a + b) == Revoked(a) + Revoked(b)
    ensures PriorityChanges(a + b) == PriorityChanges(a) + PriorityChanges(b)
    decreases |b|
  {
    if b == [] {
      assert a + b == a;
    } else {
      var n := |b| - 1;
      assert (a + b)[..|a + b| - 1] == a + b[..n];
      assert (a + b)[|a + b| - 1] == b[n];
      RevokedAppend(a, b[..n]);
    }
  }

  /** One step of revokeAll revokes exactly its own permission. */
  lemma RevokedOfStep(writeCategories: map<string, Int32>, packageName: string, permission: string,
                      userId: int, reason: Option<string>)
    ensures Revoked([RevokeRuntime(packageName, permission, userId, reason)]
                    + PriorityRemovalIfWrite(writeCategories, packageName, permission)) == [permission]
  {
    var revoke := [RevokeRuntime(packageName, permission, userId, reason)];
    var removal := PriorityRemovalIfWrite(writeCategories, packageName, permission);
    RevokedAppend(revoke, removal);
    assert revoke[..0] == [];
    if removal != [] {
      assert removal[..0] == [];
    }
  }

  /** revokeAll revokes each listed permission exactly once, in list order. */
  lemma {:induction false} RevokeAllRevokesEach(writeCategories: map<string, Int32>, packageName: string,
                                                permissions: seq<string>, userId: int, reason: Option<string>)
    ensures Revoked(RevokeAllEffects(writeCategories, packageName, permissions, userId, reason)) == permissions
  {
    if permissions != [] {
      var n := |permissions| - 1;
      assert permissions == permissions[..n] + [permissions[n]];
      var front := RevokeAllEffects(writeCategories, packageName, permissions[..n], userId, reason);
      var last := [RevokeRuntime(packageName, permissions[n], userId, reason)]
                  + PriorityRemovalIfWrite(writeCategories, packageName, permissions[n]);
      RevokeAllRevokesEach(writeCategories, packageName, permissions[..n], userId, reason);
      assert RevokeAllEffects(writeCategories, packageName, permissions, userId, reason) == front + last;
      RevokedAppend(front, last);
      RevokedOfStep(writeCategories, packageName, permissions[n], userId, reason);
    }
  }

  /** revokeAll grants nothing, appends to no priority list, and touches
      only the given package and user. */
  lemma {:induction false} RevokeAllOnlyRevokes(writeCategories: map<string, Int32>, packageName: string,
                                                permissions: seq<string>, userId: int, reason: Option<string>)
    ensures forall e :: e in RevokeAllEffects(writeCategories, packageName, permissions, userId, reason) ==>
              && e.packageName == packageName && !e.GrantRuntime? && !e.AppendToPriority?
              && (e.RevokeRuntime? ==> e.userId == userId && e.reason == reason)
  {
    if permissions != [] {
      var n := |permissions| - 1;
      RevokeAllOnlyRevokes(writeCategories, packageName, permissions[..n], userId, reason);
    }
  }

  /** The priority-list changes of a grant: one append when the permission
      writes, none otherwise; a revoke likewise removes. */
  lemma PriorityFollowsWrite(writeCategories: map<string, Int32>, packageName: string, permission: string,
                             userId: int, reason: Option<string>)
    ensures PriorityChanges([GrantRuntime(packageName, permission, userId)] + PriorityAppendIfWrite(writeCategories, packageName, permission))
            == if permission in writeCategories then [AppendToPriority(packageName, writeCategories[permission])] else []
    ensures PriorityChanges([RevokeRuntime(packageName, permission, userId, reason)] + PriorityRemovalIfWrite(writeCategories, packageName, permission))
            == if permission in writeCategories then [RemoveFromPriority(packageName, writeCategories[permission])] else []
  {
    var g := [GrantRuntime(packageName, permission, userId)];
    var r := [RevokeRuntime(packageName, permission, userId, reason)];
    RevokedAppend(g, PriorityAppendIfWrite(writeCategories, packageName, permission));
    RevokedAppend(r, PriorityRemovalIfWrite(writeCategories, packageName, permission));
    assert g[..0] == [] && r[..0] == [];
    if permission in writeCategories {
      assert PriorityAppendIfWrite(writeCategories, packageName, permission)[..0] == [];
      assert PriorityRemovalIfWrite(writeCategories, packageName, permission)[..0] == [];
    }
  }

  // ---- the helper ----

  class HealthConnectPermissionHelper {
    /** mHealthPermissions. */
    const healthPermissions: set<string>
    /** HealthPermissions.isWritePermission and getHealthDataCategory: the
        write permissions, each with its data category. */
    const writeCategories: map<string, Int32>
    /** Everything this helper has done to the package manager and the
        priority lists, oldest first. */
    var effects: seq<Effect>

    constructor (healthPermissions: set<string>, writeCategories: map<string, Int32>)
      ensures this.healthPermissions == healthPermissions && this.writeCategories == writeCategories
      ensures effects == []
    {
      this.healthPermissions := healthPermissions;
      this.writeCategories := writeCategories;
      effects := [];
    }

    /** grantHealthPermission: every check before any effect; then the
        runtime grant to the checked user, then the priority append for a
        write permission. */
    method GrantHealthPermission(platform: Platform, packageName: Option<string>, permissionName: Option<string>, userId: int)
      returns (r: Outcome)
      modifies this
      ensures var checked := Checks(platform, healthPermissions, packageName, Some(permissionName), userId, true);
              && (r.Pass? <==> checked.Ok?)
              && (r.Fail? ==> r.error == checked.error && effects == old(effects))
              && (r.Pass? ==> effects == old(effects) + [GrantRuntime(packageName.value, permissionName.value, checked.value)]
                                         + PriorityAppendIfWrite(writeCategories, packageName.value, permissionName.value))
    {
      var checked := Checks(platform, healthPermissions, packageName, Some(permissionName), userId, true);
      if checked.Err? {
        return Fail(checked.error);
      }
      effects := effects + [GrantRuntime(packageName.value, permissionName.value, checked.value)];
      AddToPriorityListIfRequired(packageName.value, permissionName.value);
      r := Pass;
    }

    /** revokeHealthPermission: the same checks without the usage intent;
        then the runtime revoke, then the priority removal for a write
        permission. */
    method RevokeHealthPermission(platform: Platform, packageName: Option<string>, permissionName: Option<string>,
                                  reason: Option<string>, userId: int)
      returns (r: Outcome)
      modifies this
      ensures var checked := Checks(platform, healthPermissions, packageName, Some(permissionName), userId, false);
              && (r.Pass? <==> checked.Ok?)
              && (r.Fail? ==> r.error == checked.error && effects == old(effects))
              && (r.Pass? ==> effects == old(effects) + [RevokeRuntime(packageName.value, permissionName.value, checked.value, reason)]
                                         + PriorityRemovalIfWrite(writeCategories, packageName.value, permissionName.value))
    {
      var checked := Checks(platform, healthPermissions, packageName, Some(permissionName), userId, false);
      if checked.Err? {
        return Fail(checked.error);
      }
      effects := effects + [RevokeRuntime(packageName.value, permissionName.value, checked.value, reason)];
      RemoveFromPriorityListIfRequired(packageName.value, permissionName.value);
      r := Pass;
    }

    /** revokeAllHealthPermissions: the checks without a permission; then
        every granted health permission of the package for the checked user
        revoked in turn. */
    method RevokeAllHealthPermissions(platform: Platform, packageName: Option<string>, reason: Option<string>, userId: int)
      returns (r: Outcome)
      requires WellFormed(platform)
      modifies this
      ensures var checked := Checks(platform, healthPermissions, packageName, None, userId, false);
              && (r.Pass? <==> checked.Ok? && Granted(platform, healthPermissions, packageName.value, checked.value).Ok?)
              && (r.Fail? ==> effects == old(effects))
              && (checked.Err? ==> r == Fail(checked.error))
              && (checked.Ok? && r.Fail? ==> r.error == IllegalArgument)
              && (r.Pass? ==> effects == old(effects) + RevokeAllEffects(writeCategories, packageName.value,
                                         Granted(platform, healthPermissions, packageName.value, checked.value).value,
                                         checked.value, reason))
    {
      var checked := Checks(platform, healthPermissions, packageName, None, userId, false);
      if checked.Err? {
        return Fail(checked.error);
      }
      r := RevokeAllHealthPermissionsUnchecked(platform, packageName.value, checked.value, reason);
    }

    /** getGrantedHealthPermissions: the checks without a permission; then
        the filter for the checked user. */
    method GetGrantedHealthPermissions(platform: Platform, packageName: Option<string>, userId: int)
      returns (r: Result<seq<string>>)
      requires WellFormed(platform)
      ensures var checked := Checks(platform, healthPermissions, packageName, None, userId, false);
              && (checked.Err? ==> r == Err(checked.error))
              && (checked.Ok? ==> r == Granted(platform, healthPermissions, packageName.value, checked.value))
    {
      var checked := Checks(platform, healthPermissions, packageName, None, userId, false);
      if checked.Err? {
        return Err(checked.error);
      }
      r := GetGrantedHealthPermissionsUnchecked(platform, packageName.value, checked.value);
    }

    method AddToPriorityListIfRequired(packageName: string, permission: string)
      modifies this
      ensures effects == old(effects) + PriorityAppendIfWrite(writeCategories, packageName, permission)
    {
      if permission in writeCategories {
        effects := effects + [AppendToPriority(packageName, writeCategories[permission])];
      }
    }

    method RemoveFromPriorityListIfRequired(packageName: string, permission: string)
      modifies this
      ensures effects == old(effects) + PriorityRemovalIfWrite(writeCategories, packageName, permission)
    {
      if permission in writeCategories {
        effects := effects + [RemoveFromPriority(packageName, writeCategories[permission])];
      }
    }

    /** getGrantedHealthPermissionsUnchecked: one pass over the requested
        permissions, keeping the granted health ones. */
    method GetGrantedHealthPermissionsUnchecked(platform: Platform, packageName: string, userId: int)
      returns (r: Result<seq<string>>)
      requires WellFormed(platform)
      ensures r == Granted(platform, healthPermissions, packageName, userId)
    {
      if (packageName, userId) !in platform.packageInfos {
        return Err(IllegalArgument);
      }
      var info := platform.packageInfos[(packageName, userId)];
      if info.requestedPermissions.None? {
        return Ok([]);
      }
      var requested := info.requestedPermissions.value;
      var flags := info.requestedPermissionsFlags.value;
      var grantedHealthPerms: seq<string> := [];
      var i := 0;
      while i < |requested|
        invariant 0 <= i <= |requested|
        invariant grantedHealthPerms == GrantedFilter(healthPermissions, requested[..i], flags[..i])
      {
        var currPerm := requested[i];
        if currPerm in healthPermissions && flags[i] & REQUESTED_PERMISSION_GRANTED != 0 {
          grantedHealthPerms := grantedHealthPerms + [currPerm];
        }
        assert requested[..i + 1][..i] == requested[..i] && flags[..i + 1][..i] == flags[..i];
        i := i + 1;
      }
      assert requested[..i] == requested && flags[..i] == flags;
      r := Ok(grantedHealthPerms);
    }

    /** revokeAllHealthPermissionsUnchecked: each granted permission revoked
        once, in order, each followed by its priority removal. */
    method RevokeAllHealthPermissionsUnchecked(platform: Platform, packageName: string, userId: int, reason: Option<string>)
      returns (r: Outcome)
      requires WellFormed(platform)
      modifies this
      ensures r.Pass? <==> Granted(platform, healthPermissions, packageName, userId).Ok?
      ensures r.Fail? ==> r.error == IllegalArgument && effects == old(effects)
      ensures r.Pass? ==> effects == old(effects) + RevokeAllEffects(writeCategories, packageName,
                                      Granted(platform, healthPermissions, packageName, userId).value, userId, reason)
    {
      var granted := GetGrantedHealthPermissionsUnchecked(platform, packageName, userId);
      if granted.Err? {
        return Fail(granted.error);
      }
      var perms := granted.value;
      var i := 0;
      while i < |perms|
        invariant 0 <= i <= |perms|
        invariant effects == old(effects) + RevokeAllEffects(writeCategories, packageName, perms[..i], userId, reason)
      {
        effects := effects + [RevokeRuntime(packageName, perms[i], userId, reason)];
        RemoveFromPriorityListIfRequired(packageName, perms[i]);
        assert perms[..i + 1][..i] == perms[..i];
        i := i + 1;
      }
      assert perms[..i] == perms;
      r := Pass;
    }
  }
}
