/** PassengerService: registering a passenger (merging into the account
    that already holds the number), editing and deleting the profile, and
    the profile's favourite locations.
 */
module Passengers {
  import opened Common
  import opened Models
  import opened Store
  import opened Mappers

  datatype PassengerRegistrationDto = PassengerRegistrationDto(
    phoneNumber: string,
    fullName: Option<string>,
    email: Option<string>,
    preferredPaymentMethod: Option<string>)

  /** The user has a live passenger profile. */
  predicate HasPassengerProfile(db: Db, userId: Id) {
    exists k :: k in db.passengers && !db.passengers[k].isDeleted && db.passengers[k].userId == userId
  }

  /** Some passenger row, deleted or not, belongs to the user: the
      one-to-one relationship between User and Passenger puts a unique index
      on Passenger.UserId, which ignores the soft-delete filter. */
  predicate HasPassengerRow(db: Db, userId: Id) {
    exists k :: k in db.passengers && db.passengers[k].userId == userId
  }

  /** At most one passenger row per user: what that unique index guarantees. */
  predicate OnePassengerRowPerUser(db: Db) {
    forall i, j :: i in db.passengers && j in db.passengers && db.passengers[i].userId == db.passengers[j].userId
                   ==> i == j
  }

  /** The role a registration grants: the first visible role of type Passenger. */
  function PassengerRoleId(db: Db): (r: Option<Id>)
    ensures r.Some? ==> RoleVisible(db, r.value) && db.roles[r.value].roleType == PassengerRole
    ensures r.None? ==> forall k :: RoleVisible(db, k) ==> db.roles[k].roleType != PassengerRole
  {
    var s := set k | k in db.roles && !db.roles[k].isDeleted && db.roles[k].roleType == PassengerRole;
    var r := Least(s);
    if r.None? then
      assert forall k :: RoleVisible(db, k) && db.roles[k].roleType == PassengerRole ==> k in s;
      r
    else r
  }

  /** The account a registration creates when nobody visible holds the
      number: active, with the phone not yet verified. */
  function NewPassengerUser(d: PassengerRegistrationDto): (u: User)
    ensures u.phoneNumber == d.phoneNumber && !u.isPhoneVerified && u.isActive && !u.isDeleted
    ensures u.fullName == d.fullName && u.email == d.email
  {
    User(d.phoneNumber, false, None, None, None, d.fullName, d.email, None, true, None, false)
  }

  /** One field of the merge: the offered value replaces the stored one
      only when the stored one is blank and the offered one is not. */
  function FillBlank(stored: Option<string>, offered: Option<string>): (r: Option<string>)
    ensures r == stored || r == offered
    ensures !IsNullOrWhiteSpace(stored) ==> r == stored
    ensures IsNullOrWhiteSpace(r) <==> IsNullOrWhiteSpace(stored) && IsNullOrWhiteSpace(offered)
  {
    if IsNullOrWhiteSpace(stored) && !IsNullOrWhiteSpace(offered) then offered else stored
  }

  /** The existing account with the registration's name and e-mail filled
      in where it had none. */
  function MergedUser(u: User, d: PassengerRegistrationDto): User {
    u.(fullName := FillBlank(u.fullName, d.fullName), email := FillBlank(u.email, d.email))
  }

  /** The account a registration attaches the profile to: the visible
      holder of the number of least key, else the new account. */
  function Registrant(db: Db, phone: string, newUserId: Id): (u: Id)
    ensures UsersWithPhone(db, phone) != {} ==> u in UsersWithPhone(db, phone) && u in db.users
    ensures UsersWithPhone(db, phone) == {} ==> u == newUserId
  {
    Least(UsersWithPhone(db, phone)).GetOr(newUserId)
  }

  /** Refused before anything is written: the account holding the number
      already has a live passenger profile. */
  predicate AlreadyRegistered(db: Db, phone: string, newUserId: Id) {
    UsersWithPhone(db, phone) != {} && HasPassengerProfile(db, Registrant(db, phone, newUserId))
  }

  /** SaveChanges would hit a unique index: a deleted user holds the
      number, a deleted passenger row belongs to the registrant, or the
      registrant already has the Passenger role. */
  predicate RegistrationCollides(db: Db, phone: string, newUserId: Id) {
    var u := Registrant(db, phone, newUserId);
    (UsersWithPhone(db, phone) == {} && PhoneTaken(db, phone))
    || HasPassengerRow(db, u)
    || (PassengerRoleId(db).Some? && (u, PassengerRoleId(db).value) in db.userRoles)
  }

  /** The new profile: no rating and no trips yet. */
  function NewPassenger(d: PassengerRegistrationDto, userId: Id): (p: Passenger)
    ensures p.userId == userId && p.rating == 0.0 && p.totalTrips == 0 && !p.isDeleted
    ensures p.preferredPaymentMethod == d.preferredPaymentMethod
  {
    Passenger(userId, 0.0, 0, d.preferredPaymentMethod, false)
  }

  /** The account a registration saves for the registrant `u`: its
      existing account with the blanks filled in, or a new account. */
  function RegisteredUser(db: Db, d: PassengerRegistrationDto, u: Id): User {
    if u in db.users then MergedUser(db.users[u], d) else NewPassengerUser(d)
  }

  /** The rows a successful registration writes for the registrant `u`. */
  function RegisteredDb(db: Db, d: PassengerRegistrationDto, u: Id, newPassengerId: Id): (r: Db)
    ensures r == db.(users := r.users, passengers := r.passengers, userRoles := r.userRoles)
    ensures r.users == db.users[u := RegisteredUser(db, d, u)]
    ensures r.passengers == db.passengers[newPassengerId := NewPassenger(d, u)]
    ensures r.userRoles == (if PassengerRoleId(db).Some? then db.userRoles + {(u, PassengerRoleId(db).value)}
                            else db.userRoles)
  {
    var roles := match PassengerRoleId(db)
                 case Some(role) => db.userRoles + {(u, role)}
                 case None => db.userRoles;
    db.(users := db.users[u := RegisteredUser(db, d, u)],
        passengers := db.passengers[newPassengerId := NewPassenger(d, u)], userRoles := roles)
  }

  /** CreatePassengerAsync. An account that already holds the number and has
      a live passenger profile is refused; the fields merged into it are
      then not saved. Otherwise the profile is added, to a new account when
      nobody visible holds the number, and the Passenger role is granted
      when one exists, unless SaveChanges fails on a unique index. */
  function CreatePassenger(db: Db, d: PassengerRegistrationDto, newUserId: Id, newPassengerId: Id): (r: Result<Db>)
    requires newUserId !in db.users && newPassengerId !in db.passengers
    ensures r.Ok? <==> !AlreadyRegistered(db, d.phoneNumber, newUserId)
                       && !RegistrationCollides(db, d.phoneNumber, newUserId)
    ensures r.Err? ==> r.error == (if AlreadyRegistered(db, d.phoneNumber, newUserId) then UserHasPassengerProfile
                                   else UniqueIndexViolation)
    ensures r.Ok? ==> r.value == RegisteredDb(db, d, Registrant(db, d.phoneNumber, newUserId), newPassengerId)
  {
    if AlreadyRegistered(db, d.phoneNumber, newUserId) then Err(UserHasPassengerProfile)
    else if RegistrationCollides(db, d.phoneNumber, newUserId) then Err(UniqueIndexViolation)
    else Ok(RegisteredDb(db, d, Registrant(db, d.phoneNumber, newUserId), newPassengerId))
  }

  /** UpdatePassengerAsync: the payment method of a visible profile whose
      user is visible too (the lookup includes the user), when supplied. */
  function UpdatePassenger(db: Db, id: Id, d: UpdatePassengerDto): (r: Result<Db>)
    ensures r.Ok? <==> PassengerWithUserVisible(db, id)
    ensures r.Err? ==> r.error == PassengerNotFound
    ensures r.Ok? ==> r.value == db.(passengers := db.passengers[id := UpdatePassengerFromDto(db.passengers[id], d)])
  {
    if !PassengerWithUserVisible(db, id) then Err(PassengerNotFound)
    else Ok(db.(passengers := db.passengers[id := UpdatePassengerFromDto(db.passengers[id], d)]))
  }

  /** DeletePassengerAsync: a missing profile is an error; otherwise a soft
      delete. */
  function DeletePassenger(db: Db, id: Id): (r: Result<Db>)
    ensures r.Ok? <==> PassengerVisible(db, id)
    ensures r.Err? ==> r.error == PassengerNotFound
    ensures r.Ok? ==> r.value == db.(passengers := db.passengers[id := db.passengers[id].(isDeleted := true)])
  {
    if !PassengerVisible(db, id) then Err(PassengerNotFound)
    else Ok(db.(passengers := db.passengers[id := db.passengers[id].(isDeleted := true)]))
  }

  // ----- favourite locations -----

  /** AddFavoriteLocationAsync: only a visible profile gets a new location. */
  function AddFavoriteLocation(db: Db, passengerId: Id, d: CreateFavoriteLocationDto, newId: Id): (r: Result<Db>)
    requires newId !in db.favoriteLocations
    ensures r.Ok? <==> PassengerVisible(db, passengerId)
    ensures r.Err? ==> r.error == PassengerNotFound
    ensures r.Ok? ==> r.value == db.(favoriteLocations := db.favoriteLocations[newId := FavoriteLocationFromDto(d, passengerId)])
  {
    if !PassengerVisible(db, passengerId) then Err(PassengerNotFound)
    else Ok(db.(favoriteLocations := db.favoriteLocations[newId := FavoriteLocationFromDto(d, passengerId)]))
  }

  /** UpdateFavoriteLocationAsync: the supplied fields of a visible location. */
  function UpdateFavoriteLocation(db: Db, id: Id, d: UpdateFavoriteLocationDto): (r: Result<Db>)
    ensures r.Ok? <==> FavoriteLocationVisible(db, id)
    ensures r.Err? ==> r.error == FavoriteLocationNotFound
    ensures r.Ok? ==> r.value == db.(favoriteLocations := db.favoriteLocations[id :=
                        UpdateFavoriteLocationFromDto(db.favoriteLocations[id], d)])
  {
    if !FavoriteLocationVisible(db, id) then Err(FavoriteLocationNotFound)
    else Ok(db.(favoriteLocations := db.favoriteLocations[id := UpdateFavoriteLocationFromDto(db.favoriteLocations[id], d)]))
  }

  /** DeleteFavoriteLocationAsync: a missing or already deleted location is
      an error; otherwise a soft delete. */
  function DeleteFavoriteLocation(db: Db, id: Id): (r: Result<Db>)
    ensures r.Ok? <==> FavoriteLocationVisible(db, id)
    ensures r.Err? ==> r.error == FavoriteLocationNotFound
    ensures r.Ok? ==> r.value == db.(favoriteLocations := db.favoriteLocations[id :=
                        db.favoriteLocations[id].(isDeleted := true)])
  {
    if !FavoriteLocationVisible(db, id) then Err(FavoriteLocationNotFound)
    else Ok(db.(favoriteLocations := db.favoriteLocations[id := db.favoriteLocations[id].(isDeleted := true)]))
  }

  /** The visible favourite locations of a profile. */
  function FavoritesOf(db: Db, passengerId: Id): set<Id> {
    set k | k in db.favoriteLocations && !db.favoriteLocations[k].isDeleted
            && db.favoriteLocations[k].passengerId == passengerId
  }

  // ----- properties -----

  /** The merge never overwrites a non-blank value and merging the same
      registration twice changes nothing more. */
  lemma MergeFillsOnlyBlanks(u: User, d: PassengerRegistrationDto)
    ensures !IsNullOrWhiteSpace(u.fullName) ==> MergedUser(u, d).fullName == u.fullName
    ensures !IsNullOrWhiteSpace(u.email) ==> MergedUser(u, d).email == u.email
    ensures IsNullOrWhiteSpace(u.fullName) && !IsNullOrWhiteSpace(d.fullName) ==> MergedUser(u, d).fullName == d.fullName
    ensures IsNullOrWhiteSpace(u.email) && !IsNullOrWhiteSpace(d.email) ==> MergedUser(u, d).email == d.email
    ensures MergedUser(MergedUser(u, d), d) == MergedUser(u, d)
    ensures MergedUser(u, d).phoneNumber == u.phoneNumber && MergedUser(u, d).isDeleted == u.isDeleted
  {
  }

  /** A successful registration leaves the registrant holding the number
      with a live profile that has no rating and no trips. */
  lemma RegistrationCreatesProfile(db: Db, d: PassengerRegistrationDto, newUserId: Id, newPassengerId: Id)
    requires newUserId !in db.users && newPassengerId !in db.passengers
    ensures var r := CreatePassenger(db, d, newUserId, newPassengerId);
            var u := Registrant(db, d.phoneNumber, newUserId);
            r.Ok? ==> u in UsersWithPhone(r.value, d.phoneNumber) && HasPassengerProfile(r.value, u)
                      && r.value.passengers[newPassengerId] == NewPassenger(d, u)
  {
    var r := CreatePassenger(db, d, newUserId, newPassengerId);
    var u := Registrant(db, d.phoneNumber, newUserId);
    if r.Ok? {
      assert r.value.passengers[newPassengerId].userId == u;
      if UsersWithPhone(db, d.phoneNumber) != {} {
        assert u in UsersWithPhone(db, d.phoneNumber);
      }
    }
  }

  /** Registering the same number twice is refused the second time. */
  lemma {:induction false} SecondRegistrationIsRefused(db: Db, d: PassengerRegistrationDto, d': PassengerRegistrationDto,
                                                       newUserId: Id, newPassengerId: Id, newUserId': Id, newPassengerId': Id)
    requires newUserId !in db.users && newPassengerId !in db.passengers
    requires CreatePassenger(db, d, newUserId, newPassengerId).Ok?
    requires d'.phoneNumber == d.phoneNumber
    requires var db1 := CreatePassenger(db, d, newUserId, newPassengerId).value;
             newUserId' !in db1.users && newPassengerId' !in db1.passengers
    ensures var db1 := CreatePassenger(db, d, newUserId, newPassengerId).value;
            CreatePassenger(db1, d', newUserId', newPassengerId') == Err(UserHasPassengerProfile)
  {
    var db1 := CreatePassenger(db, d, newUserId, newPassengerId).value;
    var u := Registrant(db, d.phoneNumber, newUserId);
    if UsersWithPhone(db, d.phoneNumber) == {} {
      assert UsersWithPhone(db1, d.phoneNumber) <= UsersWithPhone(db, d.phoneNumber) + {newUserId};
      assert UsersWithPhone(db1, d.phoneNumber) == {newUserId};
    } else {
      assert u in UsersWithPhone(db, d.phoneNumber);
      assert UsersWithPhone(db1, d.phoneNumber) == UsersWithPhone(db, d.phoneNumber);
    }
    assert Registrant(db1, d'.phoneNumber, newUserId') == u;
    assert db1.passengers[newPassengerId].userId == u;
  }

  /** After the profile is deleted the account cannot register again: the
      profile check passes, but the row left behind holds the unique index
      on Passenger.UserId. */
  lemma DeletedProfileBlocksReRegistration(db: Db, id: Id, d: PassengerRegistrationDto, newUserId: Id, newPassengerId: Id)
    requires PassengerVisible(db, id) && OnePassengerRowPerUser(db)
    requires var u := db.passengers[id].userId;
             UserVisible(db, u) && UsersWithPhone(db, d.phoneNumber) == {u}
    requires newUserId !in db.users && newPassengerId !in db.passengers
    ensures CreatePassenger(DeletePassenger(db, id).value, d, newUserId, newPassengerId) == Err(UniqueIndexViolation)
  {
    var db1 := DeletePassenger(db, id).value;
    var u := db.passengers[id].userId;
    assert UsersWithPhone(db1, d.phoneNumber) == {u};
    assert Registrant(db1, d.phoneNumber, newUserId) == u;
    assert !HasPassengerProfile(db1, u) by {
      forall k | k in db1.passengers && db1.passengers[k].userId == u ensures db1.passengers[k].isDeleted {
        assert k == id;
      }
    }
    assert HasPassengerRow(db1, u) by {
      assert db1.passengers[id].userId == u;
    }
  }

  /** Registration keeps one passenger row per user. */
  lemma CreatePassengerKeepsOneRowPerUser(db: Db, d: PassengerRegistrationDto, newUserId: Id, newPassengerId: Id)
    requires newUserId !in db.users && newPassengerId !in db.passengers && OnePassengerRowPerUser(db)
    ensures CreatePassenger(db, d, newUserId, newPassengerId).Ok? ==>
              OnePassengerRowPerUser(CreatePassenger(db, d, newUserId, newPassengerId).value)
  {
    var r := CreatePassenger(db, d, newUserId, newPassengerId);
    if r.Ok? {
      var u := Registrant(db, d.phoneNumber, newUserId);
      assert forall k :: k in db.passengers ==> db.passengers[k].userId != u;
    }
  }

  /** Applying the same profile update twice is the same as once, and an
      update keeps one passenger row per user (it never moves a profile to
      another user). */
  lemma UpdatePassengerIsIdempotent(db: Db, id: Id, d: UpdatePassengerDto)
    requires PassengerWithUserVisible(db, id)
    ensures UpdatePassenger(UpdatePassenger(db, id, d).value, id, d) == UpdatePassenger(db, id, d)
    ensures OnePassengerRowPerUser(db) ==> OnePassengerRowPerUser(UpdatePassenger(db, id, d).value)
  {
    var db1 := UpdatePassenger(db, id, d).value;
    assert db1.passengers[id := UpdatePassengerFromDto(db1.passengers[id], d)] == db1.passengers;
  }

  /** Applying the same location update twice is the same as once. */
  lemma UpdateFavoriteLocationIsIdempotent(db: Db, id: Id, d: UpdateFavoriteLocationDto)
    requires FavoriteLocationVisible(db, id)
    ensures UpdateFavoriteLocation(UpdateFavoriteLocation(db, id, d).value, id, d) == UpdateFavoriteLocation(db, id, d)
  {
    var db1 := UpdateFavoriteLocation(db, id, d).value;
    assert db1.favoriteLocations[id := UpdateFavoriteLocationFromDto(db1.favoriteLocations[id], d)]
           == db1.favoriteLocations;
  }

  /** Deleting a location hides exactly that location of its profile, and a
      second delete is an error. */
  lemma DeleteFavoriteLocationHidesIt(db: Db, id: Id)
    requires FavoriteLocationVisible(db, id)
    ensures var db1 := DeleteFavoriteLocation(db, id).value;
            var p := db.favoriteLocations[id].passengerId;
            FavoritesOf(db1, p) == FavoritesOf(db, p) - {id}
            && DeleteFavoriteLocation(db1, id) == Err(FavoriteLocationNotFound)
  {
  }

  /** A new location is listed for its profile, next to the others. */
  lemma AddFavoriteLocationListsIt(db: Db, passengerId: Id, d: CreateFavoriteLocationDto, newId: Id)
    requires newId !in db.favoriteLocations && PassengerVisible(db, passengerId)
    ensures FavoritesOf(AddFavoriteLocation(db, passengerId, d, newId).value, passengerId)
            == FavoritesOf(db, passengerId) + {newId}
  {
  }
}
