/** The database (AppDbContext): one table per entity set, keyed by Id,
    plus the two link tables, whose unique indexes on (UserId, RoleId) and
    (RoleId, PermissionId) make them sets of pairs.

    Soft-deleted rows stay in their table. The context's global query
    filter hides every row whose IsDeleted is set, so each lookup of the
    services goes through one of the `...Visible` predicates below.
    A `FirstOrDefault` without an ordering picks the row of least key.
 */
module Store {
  import opened Common
  import opened Models

  datatype Db = Db(
    users: map<Id, User>,
    roles: map<Id, Role>,
    permissions: map<Id, Permission>,
    userRoles: set<(Id, Id)>,          // (user, role)
    rolePermissions: set<(Id, Id)>,    // (role, permission)
    phoneVerifications: map<Id, PhoneVerification>,
    passengers: map<Id, Passenger>,
    favoriteLocations: map<Id, FavoriteLocation>,
    drivers: map<Id, Driver>,
    driverLocations: seq<DriverLocation>,
    vehicles: map<Id, Vehicle>,
    documents: map<Id, Document>,
    trips: map<Id, Trip>,
    priceConfigurations: map<Id, PriceConfiguration>)

  predicate UserVisible(db: Db, id: Id) { id in db.users && !db.users[id].isDeleted }
  predicate RoleVisible(db: Db, id: Id) { id in db.roles && !db.roles[id].isDeleted }
  predicate PermissionVisible(db: Db, id: Id) { id in db.permissions && !db.permissions[id].isDeleted }
  predicate PassengerVisible(db: Db, id: Id) { id in db.passengers && !db.passengers[id].isDeleted }
  predicate FavoriteLocationVisible(db: Db, id: Id) {
    id in db.favoriteLocations && !db.favoriteLocations[id].isDeleted
  }
  predicate DriverVisible(db: Db, id: Id) { id in db.drivers && !db.drivers[id].isDeleted }
  predicate VehicleVisible(db: Db, id: Id) { id in db.vehicles && !db.vehicles[id].isDeleted }
  predicate DocumentVisible(db: Db, id: Id) { id in db.documents && !db.documents[id].isDeleted }
  predicate TripVisible(db: Db, id: Id) { id in db.trips && !db.trips[id].isDeleted }

  /** A trip loaded with `Include(t => t.Passenger)`: Passenger is a required
      navigation, so when the filter hides the passenger the join drops the
      trip as well. */
  predicate TripWithPassengerVisible(db: Db, id: Id) {
    TripVisible(db, id) && PassengerVisible(db, db.trips[id].passengerId)
  }

  /** A driver loaded with `Include(d => d.User)`: User is a required
      navigation, so a driver whose user is hidden is dropped too. */
  predicate DriverWithUserVisible(db: Db, id: Id) {
    DriverVisible(db, id) && UserVisible(db, db.drivers[id].userId)
  }

  /** A passenger loaded with `Include(p => p.User)`, by the same rule. */
  predicate PassengerWithUserVisible(db: Db, id: Id) {
    PassengerVisible(db, id) && UserVisible(db, db.passengers[id].userId)
  }

  /** The visible users with that phone number. */
  function UsersWithPhone(db: Db, phone: string): set<Id> {
    set k | k in db.users && !db.users[k].isDeleted && db.users[k].phoneNumber == phone
  }

  /** Some user, deleted or not, holds the number: the unique index on
      PhoneNumber ignores the soft-delete filter. */
  predicate PhoneTaken(db: Db, phone: string) {
    exists k :: k in db.users && db.users[k].phoneNumber == phone
  }

  /** Every non-empty set of keys has a least element. */
  lemma {:induction false} LeastExists(s: set<Id>)
    requires s != {}
    ensures exists m :: m in s && forall k :: k in s ==> m <= k
    decreases s
  {
    var x :| x in s;
    if s - {x} == {} {
      forall k | k in s ensures x <= k {
        assert k !in s - {x};
      }
      assert x in s && forall k :: k in s ==> x <= k;
    } else {
      LeastExists(s - {x});
      var m :| m in s - {x} && forall k :: k in s - {x} ==> m <= k;
      var least := if x < m then x else m;
      forall k | k in s ensures least <= k {
        if k != x {
          assert k in s - {x};
        }
      }
      assert least in s && forall k :: k in s ==> least <= k;
    }
  }

  /** The row `FirstOrDefault` returns among the keys `s` of matching rows. */
  function Least(s: set<Id>): (r: Option<Id>)
    ensures r.None? <==> s == {}
    ensures r.Some? ==> r.value in s && forall k :: k in s ==> r.value <= k
  {
    if s == {} then None
    else
      LeastExists(s);
      var m :| m in s && forall k :: k in s ==> m <= k;
      Some(m)
  }
}
