/** UserService: creating, editing and deleting accounts, assigning roles,
    the permission query, and the service's own phone-code check.

    The role lists of create and update go through the loops of `LinkSync`:
    the functions named `...AsWritten` follow the loops, under which a role
    id listed twice fails SaveChanges on the (UserId, RoleId) index, and the
    functions without the suffix read the list as a set.
 */
module Users {
  import opened Common
  import opened Models
  import opened Store
  import opened Mappers
  import opened LinkSync
  import Auth
  import Roles

  datatype CreateUserDto = CreateUserDto(
    phoneNumber: string,
    fullName: Option<string>,
    email: Option<string>,
    dateOfBirth: Option<Time>,
    roleIds: Option<seq<Id>>)

  /** CreateUserDto.ToEntity: the number counts as verified (it was checked
      by the phone provider before the call) and the account is active. */
  function UserFromCreateDto(d: CreateUserDto): (u: User)
    ensures u.phoneNumber == d.phoneNumber && u.fullName == d.fullName
    ensures u.email == d.email && u.dateOfBirth == d.dateOfBirth
    ensures u.isPhoneVerified && u.isActive && !u.isDeleted
  {
    User(d.phoneNumber, true, None, None, None, d.fullName, d.email, d.dateOfBirth, true, None, false)
  }

  /** The roles `Roles.FindAsync` can see. */
  function VisibleRoles(db: Db): (r: set<Id>)
    ensures forall x :: x in r <==> RoleVisible(db, x)
  {
    set x | x in db.roles && !db.roles[x].isDeleted
  }

  /** A new Guid: no user has it and no link names it. */
  predicate FreshUserId(db: Db, id: Id) {
    id !in db.users && forall l :: l in db.userRoles ==> l.0 != id
  }

  /** The roles linked to a user. */
  function RolesOf(db: Db, userId: Id): set<Id> {
    Targets(db.userRoles, userId)
  }

  // ----- create -----

  /** CreateUserAsync as written: a visible user with the number is
      refused; a deleted one still holds the number in the unique index;
      each listed role that is visible is linked once per occurrence. */
  function CreateUserAsWritten(db: Db, d: CreateUserDto, newId: Id): (r: Result<Db>)
    requires FreshUserId(db, newId)
    ensures r.Ok? ==> r == CreateUser(db, d, newId)
    ensures CreateUser(db, d, newId).Err? ==> r == CreateUser(db, d, newId)
    ensures r.Err? && CreateUser(db, d, newId).Ok? <==>
              CreateUser(db, d, newId).Ok? && RepeatsAnInsert(d.roleIds.GetOr([]), {}, VisibleRoles(db))
  {
    assert Targets(db.userRoles, newId) == {};
    if UsersWithPhone(db, d.phoneNumber) != {} then Err(PhoneNumberExists)
    else if PhoneTaken(db, d.phoneNumber) then Err(UniqueIndexViolation)
    else
      var links :- OkOr(SyncAsWritten(db.userRoles, newId, d.roleIds.GetOr([]), VisibleRoles(db)));
      Ok(db.(users := db.users[newId := UserFromCreateDto(d)], userRoles := links))
  }

  /** The index violation as the result of a link rewrite that failed. */
  function OkOr(links: Option<set<(Id, Id)>>): (r: Result<set<(Id, Id)>>)
    ensures r.Ok? <==> links.Some?
    ensures r.Ok? ==> r.value == links.value
    ensures r.Err? ==> r.error == UniqueIndexViolation
  {
    if links.None? then Err(UniqueIndexViolation) else Ok(links.value)
  }

  /** CreateUserAsync with the role list read as a set: the new user holds
      exactly the listed visible roles, and no other row changes. */
  function CreateUser(db: Db, d: CreateUserDto, newId: Id): (r: Result<Db>)
    requires FreshUserId(db, newId)
    ensures r.Err? ==> (r.error == PhoneNumberExists <==> UsersWithPhone(db, d.phoneNumber) != {})
    ensures r.Ok? <==> !PhoneTaken(db, d.phoneNumber)
    ensures r.Err? ==> r.error in {PhoneNumberExists, UniqueIndexViolation}
    ensures r.Ok? ==> r.value == db.(users := db.users[newId := UserFromCreateDto(d)], userRoles := r.value.userRoles)
    ensures r.Ok? ==> RolesOf(r.value, newId) == set x | x in d.roleIds.GetOr([]) && RoleVisible(db, x)
    ensures r.Ok? ==> forall o, x :: o != newId ==> ((o, x) in r.value.userRoles <==> (o, x) in db.userRoles)
  {
    assert Targets(db.userRoles, newId) == {};
    if UsersWithPhone(db, d.phoneNumber) != {} then
      assert PhoneTaken(db, d.phoneNumber) by {
        var k :| k in UsersWithPhone(db, d.phoneNumber);
      }
      Err(PhoneNumberExists)
    else if PhoneTaken(db, d.phoneNumber) then Err(UniqueIndexViolation)
    else Ok(db.(users := db.users[newId := UserFromCreateDto(d)],
                userRoles := Sync(db.userRoles, newId, d.roleIds.GetOr([]), VisibleRoles(db))))
  }

  // ----- update and delete -----

  /** UpdateUserAsync as written: false when the user is not visible
      (the source returns null); otherwise the partial update, and, when
      a role list is supplied, the two link loops. */
  function UpdateUserAsWritten(db: Db, id: Id, d: UpdateUserDto): (r: Result<(bool, Db)>)
    ensures r.Ok? ==> r.value == UpdateUser(db, id, d)
    ensures r.Err? <==> UserVisible(db, id) && d.roleIds.Some?
                         && RepeatsAnInsert(d.roleIds.value, RolesOf(db, id), VisibleRoles(db))
    ensures r.Err? ==> r.error == UniqueIndexViolation
  {
    if !UserVisible(db, id) then Ok((false, db))
    else
      var db1 := db.(users := db.users[id := UpdateUserFromDto(db.users[id], d)]);
      if d.roleIds.None? then Ok((true, db1))
      else
        var links :- OkOr(SyncAsWritten(db.userRoles, id, d.roleIds.value, VisibleRoles(db)));
        Ok((true, db1.(userRoles := links)))
  }

  /** UpdateUserAsync with the role list read as a set. */
  function UpdateUser(db: Db, id: Id, d: UpdateUserDto): (r: (bool, Db))
    ensures r.0 <==> UserVisible(db, id)
    ensures !r.0 ==> r.1 == db
    ensures r.0 ==> r.1 == db.(users := db.users[id := UpdateUserFromDto(db.users[id], d)],
                               userRoles := r.1.userRoles)
    ensures d.roleIds.None? ==> r.1.userRoles == db.userRoles
    ensures r.0 && d.roleIds.Some? ==>
              RolesOf(r.1, id) == set x | x in d.roleIds.value && (x in RolesOf(db, id) || RoleVisible(db, x))
    ensures forall o, x :: o != id ==> ((o, x) in r.1.userRoles <==> (o, x) in db.userRoles)
  {
    if !UserVisible(db, id) then (false, db)
    else
      var db1 := db.(users := db.users[id := UpdateUserFromDto(db.users[id], d)]);
      if d.roleIds.None? then (true, db1)
      else (true, db1.(userRoles := Sync(db.userRoles, id, d.roleIds.value, VisibleRoles(db))))
  }

  /** DeleteUserAsync: false when the user is not visible; otherwise a soft
      delete. The user's links and profiles stay. */
  function DeleteUser(db: Db, id: Id): (r: (bool, Db))
    ensures r.0 <==> UserVisible(db, id)
    ensures !r.0 ==> r.1 == db
    ensures r.0 ==> r.1 == db.(users := db.users[id := db.users[id].(isDeleted := true)])
  {
    if !UserVisible(db, id) then (false, db)
    else (true, db.(users := db.users[id := db.users[id].(isDeleted := true)]))
  }

  // ----- role assignment -----

  /** AddRoleToUserAsync: false when the user or the role is not visible;
      true, changing nothing, when the link exists; otherwise the link is
      added. */
  function AddRoleToUser(db: Db, userId: Id, roleId: Id): (r: (bool, Db))
    ensures r.0 <==> UserVisible(db, userId) && RoleVisible(db, roleId)
    ensures r.0 ==> r.1 == db.(userRoles := db.userRoles + {(userId, roleId)})
    ensures !r.0 ==> r.1 == db
  {
    if !UserVisible(db, userId) || !RoleVisible(db, roleId) then (false, db)
    else if (userId, roleId) in db.userRoles then (true, db)
    else (true, db.(userRoles := db.userRoles + {(userId, roleId)}))
  }

  /** RemoveRoleFromUserAsync: the link is looked up directly, whatever the
      state of the user or the role; false, changing nothing, when it is
      absent. */
  function RemoveRoleFromUser(db: Db, userId: Id, roleId: Id): (r: (bool, Db))
    ensures r.0 <==> (userId, roleId) in db.userRoles
    ensures r.1 == db.(userRoles := db.userRoles - {(userId, roleId)})
  {
    if (userId, roleId) !in db.userRoles then (false, db)
    else (true, db.(userRoles := db.userRoles - {(userId, roleId)}))
  }

  // ----- permissions -----

  /** The names of the visible permissions linked to a role. */
  function GrantedNames(db: Db, roleId: Id): set<string> {
    set p | p in Targets(db.rolePermissions, roleId) && PermissionVisible(db, p) :: db.permissions[p].name
  }

  /** HasPermissionAsync: the user is visible and one of its visible roles
      carries a visible permission of that name. Role and Permission are
      required navigations of the link rows, so a link to a hidden role or
      permission drops out of the include. */
  function HasPermission(db: Db, userId: Id, name: string): (r: bool)
    ensures r <==> UserVisible(db, userId)
                   && exists role :: role in RolesOf(db, userId) && RoleVisible(db, role)
                                     && name in GrantedNames(db, role)
  {
    UserVisible(db, userId)
    && (exists l :: l in db.userRoles && l.0 == userId && RoleVisible(db, l.1)
          && (exists m :: m in db.rolePermissions && m.0 == l.1 && PermissionVisible(db, m.1)
                && db.permissions[m.1].name == name))
  }

  // ----- the service's phone-code check -----

  datatype CodeCheck = InvalidOrExpired | UserMissing | Confirmed(userId: Id, isNewUser: bool)

  /** The record VerifyPhoneNumberAsync picks: the latest usable record for
      the number (taken verbatim) that carries the code. */
  function ChosenRecord(db: Db, phone: string, code: string, now: Time): (r: Option<Id>)
    ensures r.None? <==> Auth.MatchingFor(db, phone, code, now) == {}
    ensures r.Some? ==> r.value in Auth.MatchingFor(db, phone, code, now)
                        && forall k :: k in Auth.MatchingFor(db, phone, code, now) ==>
                             db.phoneVerifications[k].createdAt <= db.phoneVerifications[r.value].createdAt
  {
    Auth.LatestAmong(db.phoneVerifications, Auth.MatchingFor(db, phone, code, now))
  }

  /** UserService.VerifyPhoneNumberAsync. Without a matching record, or
      without a visible owner of the record, nothing is saved (the record is
      marked used only in memory). Otherwise the record is consumed and the
      user's number is verified; the user is new when it was not verified
      before. */
  function VerifyPhoneNumber(db: Db, phone: string, code: string, now: Time): (r: (CodeCheck, Db))
    ensures r.0 == InvalidOrExpired <==> ChosenRecord(db, phone, code, now).None?
    ensures !r.0.Confirmed? ==> r.1 == db
    ensures r.0.Confirmed? ==>
              var k := ChosenRecord(db, phone, code, now).value;
              var v := db.phoneVerifications[k];
              var u := r.0.userId;
              v.userId == Some(u) && UserVisible(db, u)
              && r.0.isNewUser == !db.users[u].isPhoneVerified
              && r.1 == db.(phoneVerifications := db.phoneVerifications[k := v.(isUsed := true, verifiedAt := Some(now))],
                            users := db.users[u := db.users[u].(isPhoneVerified := true)])
  {
    match ChosenRecord(db, phone, code, now)
    case None => (InvalidOrExpired, db)
    case Some(k) =>
      var v := db.phoneVerifications[k];
      if v.userId.None? || !UserVisible(db, v.userId.value) then (UserMissing, db)
      else
        var u := v.userId.value;
        (Confirmed(u, !db.users[u].isPhoneVerified),
         db.(phoneVerifications := db.phoneVerifications[k := v.(isUsed := true, verifiedAt := Some(now))],
             users := db.users[u := db.users[u].(isPhoneVerified := true)]))
  }

  /** The upper bound UserService passes to Random.Next, which excludes it. */
  const UserServiceCodeHigh: int := 999999

  /** UserService.GenerateVerificationCode as written: the draw ranges over
      [100000, 999999). */
  function GenerateVerificationCodeAsWritten(drawn: int): (code: string)
    requires Auth.CodeLow <= drawn < UserServiceCodeHigh
    ensures Auth.IsSixDigitCode(code)
    ensures Auth.DecimalValue(code) == drawn
  {
    Auth.GenerateVerificationCode(drawn)
  }

  // ----- properties -----

  /** Listing a new visible role twice makes creation fail as written, while
      the set reading links it. */
  lemma RepeatedRoleFailsCreate(db: Db, d: CreateUserDto, newId: Id, roleId: Id)
    requires FreshUserId(db, newId) && !PhoneTaken(db, d.phoneNumber)
    requires RoleVisible(db, roleId) && d.roleIds == Some([roleId, roleId])
    ensures CreateUserAsWritten(db, d, newId) == Err(UniqueIndexViolation)
    ensures roleId in RolesOf(CreateUser(db, d, newId).value, newId)
  {
    var ids := [roleId, roleId];
    assert ids[0] == ids[1];
    assert RepeatsAnInsert(ids, {}, VisibleRoles(db));
  }

  /** Listing a role the user does not hold twice makes the update fail as
      written. */
  lemma RepeatedRoleFailsUpdate(db: Db, id: Id, d: UpdateUserDto, roleId: Id)
    requires UserVisible(db, id) && RoleVisible(db, roleId) && (id, roleId) !in db.userRoles
    requires d.roleIds == Some([roleId, roleId])
    ensures UpdateUserAsWritten(db, id, d) == Err(UniqueIndexViolation)
    ensures roleId in RolesOf(UpdateUser(db, id, d).1, id)
  {
    var ids := [roleId, roleId];
    assert ids[0] == ids[1];
    assert RepeatsAnInsert(ids, RolesOf(db, id), VisibleRoles(db));
  }

  /** A second creation with the same number is refused, whatever the
      second request holds. */
  lemma PhoneNumbersStayUnique(db: Db, d: CreateUserDto, d': CreateUserDto, newId: Id, newId': Id)
    requires FreshUserId(db, newId) && CreateUser(db, d, newId).Ok?
    requires FreshUserId(CreateUser(db, d, newId).value, newId') && d'.phoneNumber == d.phoneNumber
    ensures CreateUser(CreateUser(db, d, newId).value, d', newId') == Err(PhoneNumberExists)
  {
    var db1 := CreateUser(db, d, newId).value;
    assert newId in UsersWithPhone(db1, d.phoneNumber);
  }

  /** Assigning a visible role to a visible user grants every permission
      the role carries. */
  lemma AssigningRoleGrantsItsPermissions(db: Db, userId: Id, roleId: Id, name: string)
    requires UserVisible(db, userId) && RoleVisible(db, roleId) && name in GrantedNames(db, roleId)
    ensures HasPermission(AddRoleToUser(db, userId, roleId).1, userId, name)
  {
    var db' := AddRoleToUser(db, userId, roleId).1;
    assert roleId in RolesOf(db', userId);
    assert GrantedNames(db', roleId) == GrantedNames(db, roleId);
  }

  /** Assigning a role never takes a permission away from anyone. */
  lemma AssigningRoleIsMonotone(db: Db, userId: Id, roleId: Id, other: Id, name: string)
    requires HasPermission(db, other, name)
    ensures HasPermission(AddRoleToUser(db, userId, roleId).1, other, name)
  {
    var db' := AddRoleToUser(db, userId, roleId).1;
    var role :| role in RolesOf(db, other) && RoleVisible(db, role) && name in GrantedNames(db, role);
    assert role in RolesOf(db', other);
    assert GrantedNames(db', role) == GrantedNames(db, role);
  }

  /** Removing the only role that grants a permission revokes it. */
  lemma RemovingOnlyGrantingRoleRevokes(db: Db, userId: Id, roleId: Id, name: string)
    requires forall role :: role in RolesOf(db, userId) && role != roleId && RoleVisible(db, role)
                            ==> name !in GrantedNames(db, role)
    ensures !HasPermission(RemoveRoleFromUser(db, userId, roleId).1, userId, name)
  {
    var db' := RemoveRoleFromUser(db, userId, roleId).1;
    forall role | role in RolesOf(db', userId) && RoleVisible(db', role)
      ensures name !in GrantedNames(db', role)
    {
      assert role in RolesOf(db, userId) && role != roleId;
      assert GrantedNames(db', role) == GrantedNames(db, role);
    }
  }

  /** A deleted user holds no permission. */
  lemma DeletedUserHasNoPermission(db: Db, userId: Id, name: string)
    ensures !HasPermission(DeleteUser(db, userId).1, userId, name)
  {
  }

  /** Deleting a role changes no user's permissions: only a role nobody
      holds can be deleted. */
  lemma DeleteRoleKeepsPermissions(db: Db, roleId: Id, userId: Id, name: string)
    requires Roles.DeleteRole(db, roleId).Ok?
    ensures HasPermission(Roles.DeleteRole(db, roleId).value.1, userId, name) == HasPermission(db, userId, name)
  {
    var db' := Roles.DeleteRole(db, roleId).value.1;
    forall l | l in db.userRoles ensures RoleVisible(db', l.1) == RoleVisible(db, l.1) {
    }
  }

  /** After an update with a role list, the user's permissions come from
      exactly the listed roles it kept or could be given. */
  lemma UpdatedRolesDecidePermissions(db: Db, id: Id, d: UpdateUserDto, name: string)
    requires UserVisible(db, id) && d.roleIds.Some?
    ensures HasPermission(UpdateUser(db, id, d).1, id, name) <==>
              exists role :: role in d.roleIds.value && RoleVisible(db, role) && name in GrantedNames(db, role)
  {
    var db' := UpdateUser(db, id, d).1;
    assert db'.roles == db.roles && db'.permissions == db.permissions && db'.rolePermissions == db.rolePermissions;
    assert forall role :: GrantedNames(db', role) == GrantedNames(db, role);
    assert forall role :: role in RolesOf(db', id) && RoleVisible(db', role) <==>
                          role in d.roleIds.value && RoleVisible(db, role);
  }

  /** A confirmation consumes exactly the record it picked: the records that
      still match afterwards are the others. */
  lemma ConfirmationConsumesTheRecord(db: Db, phone: string, code: string, now: Time, later: Time)
    requires VerifyPhoneNumber(db, phone, code, now).0.Confirmed?
    ensures var k := ChosenRecord(db, phone, code, now).value;
            var db' := VerifyPhoneNumber(db, phone, code, now).1;
            k !in Auth.MatchingFor(db', phone, code, later)
            && Auth.MatchingFor(db', phone, code, now) == Auth.MatchingFor(db, phone, code, now) - {k}
  {
  }

  /** A second confirmation of the same user reports it as not new. */
  lemma SecondConfirmationIsNotNew(db: Db, phone: string, code: string, now: Time,
                                   phone': string, code': string, now': Time)
    requires VerifyPhoneNumber(db, phone, code, now).0.Confirmed?
    requires var r := VerifyPhoneNumber(db, phone, code, now);
             var r' := VerifyPhoneNumber(r.1, phone', code', now');
             r'.0.Confirmed? && r'.0.userId == r.0.userId
    ensures var r := VerifyPhoneNumber(db, phone, code, now);
            !VerifyPhoneNumber(r.1, phone', code', now').0.isNewUser
  {
  }

  /** The code UserService generates is never 999999, a six-digit code the
      authentication service does generate. */
  lemma UserServiceNeverDrawsTopCode(drawn: int)
    requires Auth.CodeLow <= drawn < UserServiceCodeHigh
    ensures GenerateVerificationCodeAsWritten(drawn) != "999999"
    ensures Auth.GenerateVerificationCode(999999) == "999999"
  {
    assert Auth.IsSixDigitCode("999999");
    Auth.EveryCodeIsGenerated("999999");
    assert "999999"[..5] == "99999" && "99999"[..4] == "9999" && "9999"[..3] == "999";
    assert "999"[..2] == "99" && "99"[..1] == "9" && "9"[..0] == "";
    assert Auth.DecimalValue("999999") == 999999;
  }
}
