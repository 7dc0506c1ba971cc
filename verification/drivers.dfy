/** DriverService: registering a driver (attaching the profile to the user
    who holds the phone number, or to a new user, and granting the Driver
    role), reviewing a driver, taking a driver on- or offline, deleting a
    driver softly, recording a driver's position, and the filter that picks
    the drivers a passenger can be matched with.
 */
module Drivers {
  import opened Common
  import opened Models
  import opened Store
  import opened Mappers

  datatype DriverLocationUpdateDto = DriverLocationUpdateDto(
    latitude: real, longitude: real, speed: Option<real>, heading: Option<real>)

  /** How recent a position must be for the driver to be matched, in minutes. */
  const LocationFreshnessMinutes: int := 5

  // ----- profiles -----

  /** The user has a driver profile the query filter lets through. */
  predicate HasDriverProfile(db: Db, userId: Id) {
    exists k :: k in db.drivers && !db.drivers[k].isDeleted && db.drivers[k].userId == userId
  }

  /** Some driver row, deleted or not, belongs to the user. The one-to-one
      relationship between User and Driver puts a unique index on
      Driver.UserId, which ignores the soft-delete filter. */
  predicate HasDriverRow(db: Db, userId: Id) {
    exists k :: k in db.drivers && db.drivers[k].userId == userId
  }

  /** At most one driver row per user: what that unique index guarantees. */
  predicate OneDriverRowPerUser(db: Db) {
    forall i, j :: i in db.drivers && j in db.drivers && db.drivers[i].userId == db.drivers[j].userId ==> i == j
  }

  /** The role a registration grants: the first visible role of type Driver. */
  function DriverRoleId(db: Db): (r: Option<Id>)
    ensures r.Some? ==> RoleVisible(db, r.value) && db.roles[r.value].roleType == DriverRole
    ensures r.None? ==> forall k :: RoleVisible(db, k) ==> db.roles[k].roleType != DriverRole
  {
    var s := set k | k in db.roles && !db.roles[k].isDeleted && db.roles[k].roleType == DriverRole;
    var r := Least(s);
    if r.None? then
      assert forall k :: RoleVisible(db, k) && db.roles[k].roleType == DriverRole ==> k in s;
      r
    else r
  }

  /** The user a registration creates when nobody holds the number yet:
      active, with the phone not yet verified. */
  function NewDriverUser(d: DriverRegistrationDto): (u: User)
    ensures u.phoneNumber == d.phoneNumber && !u.isPhoneVerified && u.isActive && !u.isDeleted
    ensures u.fullName == d.fullName && u.email == d.email && u.dateOfBirth == Some(d.dateOfBirth)
  {
    User(d.phoneNumber, false, None, None, None, d.fullName, d.email, Some(d.dateOfBirth), true, None, false)
  }

  /** The user a registration attaches the profile to. */
  function Registrant(db: Db, phone: string, newUserId: Id): Id {
    Least(UsersWithPhone(db, phone)).GetOr(newUserId)
  }

  /** The registration is refused before anything is written: the user
      holding the number already has a live driver profile. */
  predicate AlreadyRegistered(db: Db, phone: string, newUserId: Id) {
    UsersWithPhone(db, phone) != {} && HasDriverProfile(db, Registrant(db, phone, newUserId))
  }

  /** SaveChanges would hit one of the unique indexes: a deleted user holds
      the number, a deleted driver row belongs to the user, or the user
      already has the Driver role. */
  predicate RegistrationCollides(db: Db, phone: string, newUserId: Id) {
    var u := Registrant(db, phone, newUserId);
    (UsersWithPhone(db, phone) == {} && PhoneTaken(db, phone))
    || HasDriverRow(db, u)
    || (DriverRoleId(db).Some? && (u, DriverRoleId(db).value) in db.userRoles)
  }

  /** The rows a successful registration writes for the registrant `u`. */
  function RegisteredDb(db: Db, d: DriverRegistrationDto, u: Id, newUser: bool, newDriverId: Id): (r: Db)
    ensures r == db.(users := r.users, drivers := r.drivers, userRoles := r.userRoles)
    ensures r.users == (if newUser then db.users[u := NewDriverUser(d)] else db.users)
    ensures r.drivers == db.drivers[newDriverId := DriverFromRegistration(d, u)]
    ensures r.userRoles == (if DriverRoleId(db).Some? then db.userRoles + {(u, DriverRoleId(db).value)}
                            else db.userRoles)
  {
    var users := if newUser then db.users[u := NewDriverUser(d)] else db.users;
    var roles := match DriverRoleId(db)
                 case Some(role) => db.userRoles + {(u, role)}
                 case None => db.userRoles;
    db.(users := users, drivers := db.drivers[newDriverId := DriverFromRegistration(d, u)], userRoles := roles)
  }

  /** CreateDriverAsync. A user who already holds the number and has a live
      driver profile is refused. Otherwise the profile (Pending) is added,
      with a new user when nobody visible holds the number, and the Driver
      role is granted when one exists, unless SaveChanges fails on a unique
      index. */
  function CreateDriver(db: Db, d: DriverRegistrationDto, newUserId: Id, newDriverId: Id): (r: Result<Db>)
    requires newUserId !in db.users && newDriverId !in db.drivers
    ensures r.Ok? <==> !AlreadyRegistered(db, d.phoneNumber, newUserId)
                       && !RegistrationCollides(db, d.phoneNumber, newUserId)
    ensures r.Err? ==> r.error == (if AlreadyRegistered(db, d.phoneNumber, newUserId) then UserHasDriverProfile
                                   else UniqueIndexViolation)
    ensures r.Ok? ==> r.value == RegisteredDb(db, d, Registrant(db, d.phoneNumber, newUserId),
                                              UsersWithPhone(db, d.phoneNumber) == {}, newDriverId)
  {
    if AlreadyRegistered(db, d.phoneNumber, newUserId) then Err(UserHasDriverProfile)
    else if RegistrationCollides(db, d.phoneNumber, newUserId) then Err(UniqueIndexViolation)
    else Ok(RegisteredDb(db, d, Registrant(db, d.phoneNumber, newUserId),
                         UsersWithPhone(db, d.phoneNumber) == {}, newDriverId))
  }

  /** `db'` differs from `db` at most in the driver `id`. */
  predicate OnlyDriverChanged(db: Db, db': Db, id: Id) {
    db' == db.(drivers := db'.drivers) && db'.drivers.Keys == db.drivers.Keys
    && forall k :: k in db.drivers && k != id ==> db'.drivers[k] == db.drivers[k]
  }

  /** UpdateDriverStatusAsync: the review rule of Driver.UpdateStatus applied
      by the current user to a visible driver whose user is visible too (the
      lookup includes the user). */
  function SetDriverStatus(db: Db, id: Id, d: UpdateDriverStatusDto, currentUser: string, now: Time): (r: Result<Db>)
    ensures r.Ok? <==> DriverWithUserVisible(db, id)
    ensures r.Err? ==> r.error == DriverNotFound
    ensures r.Ok? ==> OnlyDriverChanged(db, r.value, id)
                      && r.value.drivers[id] == UpdateDriverStatus(db.drivers[id], d, currentUser, now)
  {
    if !DriverWithUserVisible(db, id) then Err(DriverNotFound)
    else Ok(db.(drivers := db.drivers[id := UpdateDriverStatus(db.drivers[id], d, currentUser, now)]))
  }

  /** ToggleDriverOnlineStatusAsync: only an approved driver may go online;
      going offline is always allowed. */
  function ToggleDriverOnlineStatus(db: Db, id: Id, isOnline: bool): (r: Result<Db>)
    ensures r.Ok? <==> DriverVisible(db, id) && (isOnline ==> db.drivers[id].status == Approved)
    ensures r.Err? ==> r.error == (if !DriverVisible(db, id) then DriverNotFound else DriverNotApproved)
    ensures r.Ok? ==> OnlyDriverChanged(db, r.value, id)
                      && r.value.drivers[id] == db.drivers[id].(isOnline := isOnline)
  {
    if !DriverVisible(db, id) then Err(DriverNotFound)
    else if isOnline && db.drivers[id].status != Approved then Err(DriverNotApproved)
    else Ok(db.(drivers := db.drivers[id := db.drivers[id].(isOnline := isOnline)]))
  }

  /** DeleteDriverAsync: a missing driver is an error; otherwise only the
      IsDeleted flag is set. */
  function DeleteDriver(db: Db, id: Id): (r: Result<Db>)
    ensures r.Ok? <==> DriverVisible(db, id)
    ensures r.Err? ==> r.error == DriverNotFound
    ensures r.Ok? ==> OnlyDriverChanged(db, r.value, id)
                      && r.value.drivers[id] == db.drivers[id].(isDeleted := true)
  {
    if !DriverVisible(db, id) then Err(DriverNotFound)
    else Ok(db.(drivers := db.drivers[id := db.drivers[id].(isDeleted := true)]))
  }

  // ----- positions -----

  /** UpdateDriverLocationAsync: the driver's current position and its time
      are overwritten and exactly one history record is appended. */
  function UpdateDriverLocation(db: Db, id: Id, d: DriverLocationUpdateDto, now: Time): (r: Result<Db>)
    ensures r.Ok? <==> DriverVisible(db, id)
    ensures r.Err? ==> r.error == DriverNotFound
    ensures r.Ok? ==> r.value == db.(drivers := r.value.drivers, driverLocations := r.value.driverLocations)
    ensures r.Ok? ==> r.value.drivers == db.drivers[id := db.drivers[id].(currentLatitude := Some(d.latitude),
                        currentLongitude := Some(d.longitude), lastLocationUpdate := Some(now))]
    ensures r.Ok? ==> |r.value.driverLocations| == |db.driverLocations| + 1
                      && r.value.driverLocations[..|db.driverLocations|] == db.driverLocations
                      && r.value.driverLocations[|db.driverLocations|]
                         == DriverLocation(id, Coord(d.latitude, d.longitude), now, d.speed, d.heading)
  {
    if !DriverVisible(db, id) then Err(DriverNotFound)
    else
      var drv := db.drivers[id];
      Ok(db.(drivers := db.drivers[id := drv.(currentLatitude := Some(d.latitude), currentLongitude := Some(d.longitude),
                                              lastLocationUpdate := Some(now))],
             driverLocations := db.driverLocations + [DriverLocation(id, Coord(d.latitude, d.longitude), now, d.speed, d.heading)]))
  }

  /** The database part of GetNearbyDriversAsync's filter: online, approved,
      not deleted, with a known position reported in the last five minutes. */
  predicate NearbyCandidate(drv: Driver, now: Time) {
    drv.isOnline && drv.status == Approved && !drv.isDeleted
    && drv.currentLatitude.Some? && drv.currentLongitude.Some?
    && drv.lastLocationUpdate.Some? && drv.lastLocationUpdate.value >= AddMinutes(now, -LocationFreshnessMinutes)
  }

  /** GetNearbyDriversAsync: the candidates whose user is visible (the query
      includes the user) and whose distance from the given point is within
      the radius. */
  function GetNearbyDrivers(db: Db, position: Coord, radiusKm: real, distanceFn: DistanceFn, now: Time): (r: set<Id>)
    ensures forall k :: k in r <==> (k in db.drivers && NearbyCandidate(db.drivers[k], now)
                                   && UserVisible(db, db.drivers[k].userId)
                                   && distanceFn(position, Coord(db.drivers[k].currentLatitude.value,
                                                                 db.drivers[k].currentLongitude.value)) <= radiusKm)
  {
    set k | k in db.drivers && NearbyCandidate(db.drivers[k], now) && UserVisible(db, db.drivers[k].userId)
            && distanceFn(position, Coord(db.drivers[k].currentLatitude.value,
                                          db.drivers[k].currentLongitude.value)) <= radiusKm
  }

  // ----- properties -----

  /** After a registration the registrant is a visible user holding the
      number, with a live driver profile awaiting approval. */
  lemma RegistrationCreatesPendingProfile(db: Db, d: DriverRegistrationDto, newUserId: Id, newDriverId: Id)
    requires newUserId !in db.users && newDriverId !in db.drivers
    ensures var r := CreateDriver(db, d, newUserId, newDriverId);
            var u := Registrant(db, d.phoneNumber, newUserId);
            r.Ok? ==> u in UsersWithPhone(r.value, d.phoneNumber) && HasDriverProfile(r.value, u)
                      && r.value.drivers[newDriverId].userId == u && r.value.drivers[newDriverId].status == Pending
  {
    var r := CreateDriver(db, d, newUserId, newDriverId);
    var u := Registrant(db, d.phoneNumber, newUserId);
    if r.Ok? {
      assert r.value.drivers[newDriverId].userId == u;
      if UsersWithPhone(db, d.phoneNumber) != {} {
        assert u in UsersWithPhone(db, d.phoneNumber);
      }
    }
  }

  /** Registering the same number twice is refused the second time: the
      registrant found then is the one who got the first profile. */
  lemma {:induction false} SecondRegistrationIsRefused(db: Db, d: DriverRegistrationDto, d': DriverRegistrationDto,
                                                       newUserId: Id, newDriverId: Id, newUserId': Id, newDriverId': Id)
    requires newUserId !in db.users && newDriverId !in db.drivers
    requires CreateDriver(db, d, newUserId, newDriverId).Ok?
    requires d'.phoneNumber == d.phoneNumber
    requires var db1 := CreateDriver(db, d, newUserId, newDriverId).value;
             newUserId' !in db1.users && newDriverId' !in db1.drivers
    ensures var db1 := CreateDriver(db, d, newUserId, newDriverId).value;
            CreateDriver(db1, d', newUserId', newDriverId') == Err(UserHasDriverProfile)
  {
    var db1 := CreateDriver(db, d, newUserId, newDriverId).value;
    var u := Registrant(db, d.phoneNumber, newUserId);
    if UsersWithPhone(db, d.phoneNumber) == {} {
      assert UsersWithPhone(db1, d.phoneNumber) <= UsersWithPhone(db, d.phoneNumber) + {newUserId};
      assert UsersWithPhone(db1, d.phoneNumber) == {newUserId};
    } else {
      assert UsersWithPhone(db1, d.phoneNumber) == UsersWithPhone(db, d.phoneNumber);
    }
    assert Registrant(db1, d'.phoneNumber, newUserId') == u;
    assert db1.drivers[newDriverId].userId == u;
  }

  /** Registration keeps one driver row per user. */
  lemma CreateDriverKeepsOneRowPerUser(db: Db, d: DriverRegistrationDto, newUserId: Id, newDriverId: Id)
    requires newUserId !in db.users && newDriverId !in db.drivers && OneDriverRowPerUser(db)
    ensures CreateDriver(db, d, newUserId, newDriverId).Ok? ==>
              OneDriverRowPerUser(CreateDriver(db, d, newUserId, newDriverId).value)
  {
    var r := CreateDriver(db, d, newUserId, newDriverId);
    if r.Ok? {
      var u := Registrant(db, d.phoneNumber, newUserId);
      assert forall k :: k in db.drivers ==> db.drivers[k].userId != u;
    }
  }

  /** Every online driver is approved. */
  predicate OnlineDriversApproved(db: Db) {
    forall k :: k in db.drivers && db.drivers[k].isOnline ==> db.drivers[k].status == Approved
  }

  /** Changing one driver into a driver that is approved whenever online
      keeps every online driver approved. */
  lemma ReplaceDriverKeepsOnlineApproved(db: Db, db': Db, id: Id)
    requires OnlineDriversApproved(db) && OnlyDriverChanged(db, db', id)
    requires id in db'.drivers && db'.drivers[id].isOnline ==> db'.drivers[id].status == Approved
    ensures OnlineDriversApproved(db')
  {
    forall k | k in db'.drivers && db'.drivers[k].isOnline ensures db'.drivers[k].status == Approved {
      if k != id {
        assert db'.drivers[k] == db.drivers[k];
      }
    }
  }

  /** Registration, the online toggle, deletion and position updates keep
      every online driver approved (a new profile starts offline). */
  lemma CreateDriverKeepsOnlineApproved(db: Db, d: DriverRegistrationDto, newUserId: Id, newDriverId: Id)
    requires newUserId !in db.users && newDriverId !in db.drivers && OnlineDriversApproved(db)
    ensures CreateDriver(db, d, newUserId, newDriverId).Ok? ==>
              OnlineDriversApproved(CreateDriver(db, d, newUserId, newDriverId).value)
  {
    var r := CreateDriver(db, d, newUserId, newDriverId);
    if r.Ok? {
      assert forall k :: k in r.value.drivers && k != newDriverId ==> r.value.drivers[k] == db.drivers[k];
    }
  }

  lemma ToggleKeepsOnlineApproved(db: Db, id: Id, isOnline: bool)
    requires OnlineDriversApproved(db)
    ensures ToggleDriverOnlineStatus(db, id, isOnline).Ok? ==>
              OnlineDriversApproved(ToggleDriverOnlineStatus(db, id, isOnline).value)
  {
    var r := ToggleDriverOnlineStatus(db, id, isOnline);
    if r.Ok? {
      ReplaceDriverKeepsOnlineApproved(db, r.value, id);
    }
  }

  lemma DeleteAndMoveKeepOnlineApproved(db: Db, id: Id, loc: DriverLocationUpdateDto, now: Time)
    requires OnlineDriversApproved(db)
    ensures DeleteDriver(db, id).Ok? ==> OnlineDriversApproved(DeleteDriver(db, id).value)
    ensures UpdateDriverLocation(db, id, loc, now).Ok? ==>
              OnlineDriversApproved(UpdateDriverLocation(db, id, loc, now).value)
  {
    var r := DeleteDriver(db, id);
    if r.Ok? {
      ReplaceDriverKeepsOnlineApproved(db, r.value, id);
    }
    var r2 := UpdateDriverLocation(db, id, loc, now);
    if r2.Ok? {
      assert forall k :: k in r2.value.drivers && k != id ==> r2.value.drivers[k] == db.drivers[k];
    }
  }

  /** A review that moves an online driver away from Approved leaves the
      driver online, but the matching filter no longer lets the driver
      through. */
  lemma ReviewedDriverIsNoLongerMatched(db: Db, id: Id, d: UpdateDriverStatusDto, currentUser: string, now: Time,
                                        position: Coord, radiusKm: real, distanceFn: DistanceFn, at: Time)
    requires DriverWithUserVisible(db, id) && db.drivers[id].isOnline && d.status != Approved
    ensures SetDriverStatus(db, id, d, currentUser, now).Ok?
    ensures var db1 := SetDriverStatus(db, id, d, currentUser, now).value;
            db1.drivers[id].isOnline && id !in GetNearbyDrivers(db1, position, radiusKm, distanceFn, at)
  {
  }

  /** A position report makes an online approved driver matchable exactly
      while the report is at most five minutes old and the driver is within
      the radius. */
  lemma FreshPositionIsMatched(db: Db, id: Id, loc: DriverLocationUpdateDto, reportedAt: Time,
                               position: Coord, radiusKm: real, distanceFn: DistanceFn, now: Time)
    requires DriverWithUserVisible(db, id) && db.drivers[id].isOnline && db.drivers[id].status == Approved
    ensures UpdateDriverLocation(db, id, loc, reportedAt).Ok?
    ensures id in GetNearbyDrivers(UpdateDriverLocation(db, id, loc, reportedAt).value, position, radiusKm, distanceFn, now)
            <==> now <= AddMinutes(reportedAt, LocationFreshnessMinutes)
                 && distanceFn(position, Coord(loc.latitude, loc.longitude)) <= radiusKm
  {
  }

  /** Once the user behind a driver is deleted, the driver can no longer be
      reviewed and is never matched, although its own row is still live. */
  lemma DriverOfDeletedUserIsHidden(db: Db, id: Id, d: UpdateDriverStatusDto, currentUser: string, now: Time,
                                    position: Coord, radiusKm: real, distanceFn: DistanceFn, at: Time)
    requires id in db.drivers && !UserVisible(db, db.drivers[id].userId)
    ensures SetDriverStatus(db, id, d, currentUser, now) == Err(DriverNotFound)
    ensures id !in GetNearbyDrivers(db, position, radiusKm, distanceFn, at)
  {
  }
}
