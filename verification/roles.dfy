/** RoleService: creating, editing and deleting roles and granting or
    revoking a role's permissions. The permission lists of create and
    update are applied with the loops of `LinkSync`: the functions named
    `...AsWritten` keep the failure those loops have on a repeated id, the
    others read the list as a set.
 */
module Roles {
  import opened Common
  import opened Models
  import opened Store
  import opened Mappers
  import opened LinkSync

  datatype CreateRoleDto = CreateRoleDto(
    name: string, description: Option<string>, roleType: UserRoleType, permissionIds: seq<Id>)

  /** CreateRoleDto.ToEntity: a new role is never a system role. */
  function RoleFromDto(d: CreateRoleDto): (r: Role)
    ensures r.name == d.name && r.description == d.description && r.roleType == d.roleType
    ensures !r.isSystemRole && !r.isDeleted
  {
    Role(d.name, d.description, d.roleType, false, false)
  }

  /** The permissions FindAsync finds. */
  function VisiblePermissions(db: Db): (r: set<Id>)
    ensures forall p :: p in r <==> PermissionVisible(db, p)
  {
    set k | k in db.permissions && !db.permissions[k].isDeleted
  }

  /** A visible role already has the name. */
  predicate RoleNameTaken(db: Db, name: string) {
    exists k :: k in db.roles && !db.roles[k].isDeleted && db.roles[k].name == name
  }

  /** A fresh key: no role has it and no permission link mentions it. */
  predicate FreshRoleId(db: Db, id: Id) {
    id !in db.roles && forall l :: l in db.rolePermissions ==> l.0 != id
  }

  /** The permissions granted to the role. */
  function PermissionsOf(db: Db, roleId: Id): set<Id> {
    Targets(db.rolePermissions, roleId)
  }

  // ----- create -----

  /** CreateRoleAsync as written: a visible role of the same name is an
      error; otherwise the role is added with a link to every listed visible
      permission, unless a listed permission is repeated, in which case
      SaveChanges fails and nothing is stored. */
  function CreateRoleAsWritten(db: Db, d: CreateRoleDto, newId: Id): (r: Result<Db>)
    requires FreshRoleId(db, newId)
    ensures r.Ok? <==> !RoleNameTaken(db, d.name) && !RepeatsAnInsert(d.permissionIds, {}, VisiblePermissions(db))
    ensures r.Err? ==> r.error == (if RoleNameTaken(db, d.name) then RoleNameExists else UniqueIndexViolation)
    ensures r.Ok? ==> r == CreateRole(db, d, newId)
  {
    assert Targets(db.rolePermissions, newId) == {};
    if RoleNameTaken(db, d.name) then Err(RoleNameExists)
    else match SyncAsWritten(db.rolePermissions, newId, d.permissionIds, VisiblePermissions(db))
      case None => Err(UniqueIndexViolation)
      case Some(links) => Ok(db.(roles := db.roles[newId := RoleFromDto(d)], rolePermissions := links))
  }

  /** CreateRoleAsync with the permission list read as a set. */
  function CreateRole(db: Db, d: CreateRoleDto, newId: Id): (r: Result<Db>)
    requires FreshRoleId(db, newId)
    ensures r.Ok? <==> !RoleNameTaken(db, d.name)
    ensures r.Err? ==> r.error == RoleNameExists
    ensures r.Ok? ==> r.value == db.(roles := r.value.roles, rolePermissions := r.value.rolePermissions)
                      && r.value.roles == db.roles[newId := RoleFromDto(d)]
    ensures r.Ok? ==> PermissionsOf(r.value, newId) == set p | p in d.permissionIds && PermissionVisible(db, p)
    ensures r.Ok? ==> forall o, p :: o != newId ==> ((o, p) in r.value.rolePermissions <==> (o, p) in db.rolePermissions)
  {
    assert Targets(db.rolePermissions, newId) == {};
    if RoleNameTaken(db, d.name) then Err(RoleNameExists)
    else Ok(db.(roles := db.roles[newId := RoleFromDto(d)],
                rolePermissions := Sync(db.rolePermissions, newId, d.permissionIds, VisiblePermissions(db))))
  }

  // ----- update -----

  /** UpdateRoleAsync as written. A missing role is reported (the source
      returns null); a system role may not be changed. Otherwise name and
      description are patched and, when a permission list is given, the
      role's links are rewritten by the two loops. */
  function UpdateRoleAsWritten(db: Db, id: Id, d: UpdateRoleDto): (r: Result<Db>)
    ensures r.Ok? <==> RoleVisible(db, id) && !db.roles[id].isSystemRole
                       && (d.permissionIds.Some? ==>
                             !RepeatsAnInsert(d.permissionIds.value, PermissionsOf(db, id), VisiblePermissions(db)))
    ensures r.Err? ==> r.error == (if !RoleVisible(db, id) then RoleNotFound
                                   else if db.roles[id].isSystemRole then SystemRoleNotModifiable
                                   else UniqueIndexViolation)
    ensures r.Ok? ==> r == UpdateRole(db, id, d)
  {
    if !RoleVisible(db, id) then Err(RoleNotFound)
    else if db.roles[id].isSystemRole then Err(SystemRoleNotModifiable)
    else
      var roles := db.roles[id := UpdateRoleFromDto(db.roles[id], d)];
      match d.permissionIds
      case None => Ok(db.(roles := roles))
      case Some(ids) =>
        match SyncAsWritten(db.rolePermissions, id, ids, VisiblePermissions(db))
        case None => Err(UniqueIndexViolation)
        case Some(links) => Ok(db.(roles := roles, rolePermissions := links))
  }

  /** UpdateRoleAsync with the permission list read as a set. Afterwards
      the role holds exactly the listed permissions that it held already or
      that are visible; other roles' links are untouched. */
  function UpdateRole(db: Db, id: Id, d: UpdateRoleDto): (r: Result<Db>)
    ensures r.Ok? <==> RoleVisible(db, id) && !db.roles[id].isSystemRole
    ensures r.Err? ==> r.error == (if !RoleVisible(db, id) then RoleNotFound else SystemRoleNotModifiable)
    ensures r.Ok? ==> r.value == db.(roles := r.value.roles, rolePermissions := r.value.rolePermissions)
                      && r.value.roles == db.roles[id := UpdateRoleFromDto(db.roles[id], d)]
    ensures r.Ok? && d.permissionIds.None? ==> r.value.rolePermissions == db.rolePermissions
    ensures r.Ok? && d.permissionIds.Some? ==>
              PermissionsOf(r.value, id) == set p | p in d.permissionIds.value
                                                    && (p in PermissionsOf(db, id) || PermissionVisible(db, p))
    ensures r.Ok? ==> forall o, p :: o != id ==> ((o, p) in r.value.rolePermissions <==> (o, p) in db.rolePermissions)
  {
    if !RoleVisible(db, id) then Err(RoleNotFound)
    else if db.roles[id].isSystemRole then Err(SystemRoleNotModifiable)
    else
      var roles := db.roles[id := UpdateRoleFromDto(db.roles[id], d)];
      match d.permissionIds
      case None => Ok(db.(roles := roles))
      case Some(ids) => Ok(db.(roles := roles, rolePermissions := Sync(db.rolePermissions, id, ids, VisiblePermissions(db))))
  }

  // ----- delete -----

  /** Some user holds the role. */
  predicate RoleAssigned(db: Db, roleId: Id) {
    exists l :: l in db.userRoles && l.1 == roleId
  }

  /** DeleteRoleAsync: false for a missing role; a system role or a role
      held by any user may not be deleted; otherwise the delete is soft. */
  function DeleteRole(db: Db, id: Id): (r: Result<(bool, Db)>)
    ensures r.Ok? <==> !RoleVisible(db, id) || (!db.roles[id].isSystemRole && !RoleAssigned(db, id))
    ensures r.Err? ==> r.error == (if db.roles[id].isSystemRole then SystemRoleNotDeletable else RoleInUse)
    ensures r.Ok? ==> (r.value.0 <==> RoleVisible(db, id))
    ensures r.Ok? && !r.value.0 ==> r.value.1 == db
    ensures r.Ok? && r.value.0 ==> r.value.1 == db.(roles := db.roles[id := db.roles[id].(isDeleted := true)])
  {
    if !RoleVisible(db, id) then Ok((false, db))
    else if db.roles[id].isSystemRole then Err(SystemRoleNotDeletable)
    else if RoleAssigned(db, id) then Err(RoleInUse)
    else Ok((true, db.(roles := db.roles[id := db.roles[id].(isDeleted := true)])))
  }

  // ----- single grants -----

  /** AddPermissionToRoleAsync: false when the role or the permission is
      missing; true otherwise, adding the link only when it is absent. */
  function AddPermissionToRole(db: Db, roleId: Id, permissionId: Id): (r: (bool, Db))
    ensures r.0 <==> RoleVisible(db, roleId) && PermissionVisible(db, permissionId)
    ensures r.1 == db.(rolePermissions := r.1.rolePermissions)
    ensures r.0 ==> r.1.rolePermissions == db.rolePermissions + {(roleId, permissionId)}
    ensures !r.0 ==> r.1 == db
  {
    if !RoleVisible(db, roleId) || !PermissionVisible(db, permissionId) then (false, db)
    else if (roleId, permissionId) in db.rolePermissions then (true, db)
    else (true, db.(rolePermissions := db.rolePermissions + {(roleId, permissionId)}))
  }

  /** RemovePermissionFromRoleAsync: false, changing nothing, when the link
      is absent; otherwise the link is removed. */
  function RemovePermissionFromRole(db: Db, roleId: Id, permissionId: Id): (r: (bool, Db))
    ensures r.0 <==> (roleId, permissionId) in db.rolePermissions
    ensures r.1 == db.(rolePermissions := db.rolePermissions - {(roleId, permissionId)})
  {
    if (roleId, permissionId) !in db.rolePermissions then (false, db)
    else (true, db.(rolePermissions := db.rolePermissions - {(roleId, permissionId)}))
  }

  // ----- properties -----

  /** Granting twice is granting once, and a grant creates no duplicate. */
  lemma AddPermissionIsIdempotent(db: Db, roleId: Id, permissionId: Id)
    ensures var once := AddPermissionToRole(db, roleId, permissionId);
            AddPermissionToRole(once.1, roleId, permissionId) == once
  {
  }

  /** Revoking a permission the role did not have before a grant undoes the
      grant; granting a permission just revoked restores the table. */
  lemma GrantAndRevokeAreInverse(db: Db, roleId: Id, permissionId: Id)
    ensures (roleId, permissionId) !in db.rolePermissions ==>
              RemovePermissionFromRole(AddPermissionToRole(db, roleId, permissionId).1, roleId, permissionId).1 == db
    ensures (roleId, permissionId) in db.rolePermissions && RoleVisible(db, roleId) && PermissionVisible(db, permissionId) ==>
              AddPermissionToRole(RemovePermissionFromRole(db, roleId, permissionId).1, roleId, permissionId).1 == db
  {
  }

  /** When the role holds only visible permissions, an update with a list
      leaves it holding exactly the listed ids that name visible
      permissions. */
  lemma UpdateGrantsExactlyTheListedPermissions(db: Db, id: Id, d: UpdateRoleDto)
    requires RoleVisible(db, id) && !db.roles[id].isSystemRole && d.permissionIds.Some?
    requires forall p :: p in PermissionsOf(db, id) ==> PermissionVisible(db, p)
    ensures UpdateRole(db, id, d).Ok?
    ensures PermissionsOf(UpdateRole(db, id, d).value, id) == set p | p in d.permissionIds.value && PermissionVisible(db, p)
  {
  }

  /** A role created with a name cannot be created again under that name. */
  lemma RoleNamesStayTaken(db: Db, d: CreateRoleDto, d': CreateRoleDto, newId: Id, newId': Id)
    requires FreshRoleId(db, newId) && CreateRole(db, d, newId).Ok?
    requires FreshRoleId(CreateRole(db, d, newId).value, newId') && d'.name == d.name
    ensures CreateRole(CreateRole(db, d, newId).value, d', newId') == Err(RoleNameExists)
  {
    assert CreateRole(db, d, newId).value.roles[newId].name == d.name;
  }

  /** Listing a new visible permission twice makes the update as written
      fail, while the set reading grants it. */
  lemma RepeatedPermissionFailsUpdate(db: Db, id: Id, p: Id)
    requires RoleVisible(db, id) && !db.roles[id].isSystemRole
    requires PermissionVisible(db, p) && (id, p) !in db.rolePermissions
    ensures UpdateRoleAsWritten(db, id, UpdateRoleDto(None, None, Some([p, p]))) == Err(UniqueIndexViolation)
    ensures p in PermissionsOf(UpdateRole(db, id, UpdateRoleDto(None, None, Some([p, p]))).value, id)
  {
    RepeatedNewTargetFails(db.rolePermissions, id, p, VisiblePermissions(db));
  }

  /** The same for creation. */
  lemma RepeatedPermissionFailsCreate(db: Db, d: CreateRoleDto, newId: Id, p: Id)
    requires FreshRoleId(db, newId) && !RoleNameTaken(db, d.name)
    requires PermissionVisible(db, p) && d.permissionIds == [p, p]
    ensures CreateRoleAsWritten(db, d, newId) == Err(UniqueIndexViolation)
    ensures p in PermissionsOf(CreateRole(db, d, newId).value, newId)
  {
    assert (newId, p) !in db.rolePermissions;
    RepeatedNewTargetFails(db.rolePermissions, newId, p, VisiblePermissions(db));
  }
}
