/** What the trip operations keep true of the trips table: every trip's
    timestamps, assignment, price, rating and payment agree with its status;
    a passenger has at most one active trip and a driver at most one
    engaged trip. The administrator's override (UpdateTripStatus) is
    outside these guarantees: it sets any status without the checks.
 */
module TripLifecycle {
  import opened Common
  import opened Models
  import opened Store
  import opened Mappers
  import opened Pricing
  import opened Trips

  /** A stored rating: the passenger's score 0 (not yet given) or 1..5, the
      driver's 1..5 when given. */
  predicate RatingInRange(r: TripRating) {
    0 <= r.passengerRating <= 5 && (r.driverRating.Some? ==> ValidScore(r.driverRating.value))
  }

  /** The statuses reached through acceptance. */
  predicate Assigned(s: TripStatus) {
    s == Accepted || s == DriverArrived || s == InProgress || s == Completed
  }

  /** A trip whose fields agree with its status. */
  predicate WellFormedTrip(t: Trip) {
    (t.driverId.Some? <==> t.vehicleId.Some?)
    && (t.status == Requested ==> t.driverId.None?)
    && (Assigned(t.status) ==> t.driverId.Some? && t.acceptedAt.Some?)
    && (t.status == DriverArrived || t.status == InProgress || t.status == Completed ==> t.driverArrivedAt.Some?)
    && (t.status == InProgress || t.status == Completed ==> t.startedAt.Some?)
    && (t.status == Completed ==> t.completedAt.Some? && t.actualDuration.Some?)
    && (t.finalPrice.Some? <==> t.status == Completed)
    && (t.status == Cancelled ==> t.cancelledAt.Some?)
    && (t.rating.Some? ==> t.status == Completed && RatingInRange(t.rating.value))
    && (t.payment.Some? ==> t.status == Completed)
    && (t.payment.Some? && t.payment.value.isPaid ==> t.payment.value.paidAt.Some?)
  }

  /** At most one non-deleted active trip per passenger. */
  predicate OneActiveTripPerPassenger(trips: map<Id, Trip>) {
    forall i, j :: (i in trips && j in trips && !trips[i].isDeleted && !trips[j].isDeleted
                    && PassengerActive(trips[i].status) && PassengerActive(trips[j].status)
                    && trips[i].passengerId == trips[j].passengerId) ==> i == j
  }

  /** At most one non-deleted engaged trip per driver. */
  predicate OneEngagedTripPerDriver(trips: map<Id, Trip>) {
    forall i, j :: (i in trips && j in trips && !trips[i].isDeleted && !trips[j].isDeleted
                    && DriverEngaged(trips[i].status) && DriverEngaged(trips[j].status)
                    && trips[i].driverId.Some? && trips[i].driverId == trips[j].driverId) ==> i == j
  }

  predicate TripsInvariant(trips: map<Id, Trip>) {
    (forall k :: k in trips ==> WellFormedTrip(trips[k]))
    && OneActiveTripPerPassenger(trips)
    && OneEngagedTripPerDriver(trips)
  }

  /** Replacing one trip keeps the invariant when the new version is well
      formed, belongs to the same passenger, is deleted exactly when the old
      one was, does not become active, and becomes engaged only for a driver
      without another engaged trip. */
  lemma ReplaceTrip(trips: map<Id, Trip>, id: Id, t': Trip)
    requires TripsInvariant(trips) && id in trips
    requires WellFormedTrip(t')
    requires t'.passengerId == trips[id].passengerId && t'.isDeleted == trips[id].isDeleted
    requires PassengerActive(t'.status) ==> PassengerActive(trips[id].status)
    requires DriverEngaged(t'.status) && t'.driverId.Some? ==>
               (DriverEngaged(trips[id].status) && t'.driverId == trips[id].driverId)
               || !DriverBusy(trips, t'.driverId.value)
    ensures TripsInvariant(trips[id := t'])
  {
    if t'.driverId.Some? && !DriverBusy(trips, t'.driverId.value) {
      assert forall k :: k in trips && !trips[k].isDeleted && DriverEngaged(trips[k].status) ==>
                         trips[k].driverId != t'.driverId;
    }
  }

  lemma RequestTripKeepsInvariant(db: Db, passengerId: Id, d: RequestTripDto, newId: Id, tripCode: string,
                                  now: Time, distanceFn: DistanceFn)
    requires TripsInvariant(db.trips) && newId !in db.trips
    ensures var r := RequestTrip(db, passengerId, d, newId, tripCode, now, distanceFn);
            r.Ok? ==> TripsInvariant(r.value.trips)
  {
    var r := RequestTrip(db, passengerId, d, newId, tripCode, now, distanceFn);
    if r.Ok? {
      assert r.value.trips == db.trips[newId := r.value.trips[newId]];
      AddUnassignedTrip(db.trips, newId, r.value.trips[newId]);
    }
  }

  /** Adding a well-formed trip without a driver for a passenger with no
      active trip keeps the invariant. */
  lemma AddUnassignedTrip(trips: map<Id, Trip>, id: Id, t: Trip)
    requires TripsInvariant(trips) && id !in trips
    requires WellFormedTrip(t) && t.driverId.None?
    requires !HasActiveTrip(trips, t.passengerId)
    ensures TripsInvariant(trips[id := t])
  {
    forall j | j in trips && !trips[j].isDeleted && PassengerActive(trips[j].status)
      ensures trips[j].passengerId != t.passengerId
    {
    }
  }

  lemma AcceptTripKeepsInvariant(db: Db, tripId: Id, driverId: Id, vehicleId: Id, now: Time)
    requires TripsInvariant(db.trips)
    ensures var r := AcceptTrip(db, tripId, driverId, vehicleId, now);
            r.Ok? ==> TripsInvariant(r.value.trips)
  {
    var r := AcceptTrip(db, tripId, driverId, vehicleId, now);
    if r.Ok? {
      ReplaceTrip(db.trips, tripId, r.value.trips[tripId]);
    }
  }

  lemma DriverArrivedKeepsInvariant(db: Db, tripId: Id, now: Time)
    requires TripsInvariant(db.trips)
    ensures var r := MarkDriverArrived(db, tripId, now);
            r.Ok? ==> TripsInvariant(r.value.trips)
  {
    var r := MarkDriverArrived(db, tripId, now);
    if r.Ok? {
      ReplaceTrip(db.trips, tripId, r.value.trips[tripId]);
    }
  }

  lemma StartTripKeepsInvariant(db: Db, tripId: Id, now: Time)
    requires TripsInvariant(db.trips)
    ensures var r := StartTrip(db, tripId, now);
            r.Ok? ==> TripsInvariant(r.value.trips)
  {
    var r := StartTrip(db, tripId, now);
    if r.Ok? {
      ReplaceTrip(db.trips, tripId, r.value.trips[tripId]);
    }
  }

  lemma CompleteTripKeepsInvariant(db: Db, tripId: Id, finalPosition: Coord, now: Time, distanceFn: DistanceFn)
    requires TripsInvariant(db.trips)
    ensures var r := CompleteTrip(db, tripId, finalPosition, now, distanceFn);
            r.Ok? ==> TripsInvariant(r.value.trips)
  {
    var r := CompleteTrip(db, tripId, finalPosition, now, distanceFn);
    if r.Ok? {
      ReplaceTrip(db.trips, tripId, r.value.trips[tripId]);
    }
  }

  lemma CancelTripKeepsInvariant(db: Db, tripId: Id, reason: Option<string>, cancelledBy: Option<string>, now: Time)
    requires TripsInvariant(db.trips)
    ensures var r := CancelTrip(db, tripId, reason, cancelledBy, now);
            r.Ok? ==> TripsInvariant(r.value.trips)
  {
    var r := CancelTrip(db, tripId, reason, cancelledBy, now);
    if r.Ok? {
      ReplaceTrip(db.trips, tripId, r.value.trips[tripId]);
    }
  }

  lemma AddTripLocationKeepsInvariant(db: Db, tripId: Id, d: CreateTripLocationDto, now: Time)
    requires TripsInvariant(db.trips)
    ensures var r := AddTripLocation(db, tripId, d, now);
            r.Ok? ==> TripsInvariant(r.value.trips)
  {
    var r := AddTripLocation(db, tripId, d, now);
    if r.Ok? {
      ReplaceTrip(db.trips, tripId, r.value.trips[tripId]);
    }
  }

  lemma AddTripRatingKeepsInvariant(db: Db, tripId: Id, d: CreateTripRatingDto, now: Time)
    requires TripsInvariant(db.trips)
    ensures var r := AddTripRating(db, tripId, d, now);
            r.Ok? ==> TripsInvariant(r.value.trips)
  {
    var r := AddTripRating(db, tripId, d, now);
    if r.Ok? {
      ReplaceTrip(db.trips, tripId, r.value.trips[tripId]);
    }
  }

  lemma AddTripPaymentKeepsInvariant(db: Db, tripId: Id, d: CreateTripPaymentDto)
    requires TripsInvariant(db.trips)
    ensures var r := AddTripPayment(db, tripId, d);
            r.Ok? ==> TripsInvariant(r.value.trips)
  {
    var r := AddTripPayment(db, tripId, d);
    if r.Ok? {
      ReplaceTrip(db.trips, tripId, r.value.trips[tripId]);
    }
  }

  lemma UpdateTripPaymentStatusKeepsInvariant(db: Db, tripId: Id, isPaid: bool, reference: Option<string>, now: Time)
    requires TripsInvariant(db.trips)
    ensures var r := UpdateTripPaymentStatus(db, tripId, isPaid, reference, now);
            r.Ok? ==> TripsInvariant(r.value.trips)
  {
    var r := UpdateTripPaymentStatus(db, tripId, isPaid, reference, now);
    if r.Ok? {
      ReplaceTrip(db.trips, tripId, r.value.trips[tripId]);
    }
  }

  // ----- fares of completed trips -----

  /** A requested trip is quoted at least the configured minimum. */
  lemma RequestedTripQuotedAtLeastMinimum(db: Db, passengerId: Id, d: RequestTripDto, newId: Id, tripCode: string,
                                          now: Time, distanceFn: DistanceFn)
    requires newId !in db.trips
    requires RequestTrip(db, passengerId, d, newId, tripCode, now, distanceFn).Ok?
    requires IsCents(GetPriceConfigurationByVehicleType(db, d.requestedVehicleType).value.minimumPrice)
    ensures RequestTrip(db, passengerId, d, newId, tripCode, now, distanceFn).value.trips[newId].estimatedPrice
            >= GetPriceConfigurationByVehicleType(db, d.requestedVehicleType).value.minimumPrice
  {
    var c := GetPriceConfigurationByVehicleType(db, d.requestedVehicleType).value;
    var dist := distanceFn(d.origin, d.destination);
    FareAtLeastMinimum(c, dist, EstimatedDuration(dist));
  }

  /** A completed trip's final price is at least the configured minimum and
      bills the whole minutes between start and completion. */
  lemma CompletedTripBillsRideTime(db: Db, tripId: Id, finalPosition: Coord, now: Time, distanceFn: DistanceFn)
    requires TripsInvariant(db.trips)
    requires CompleteTrip(db, tripId, finalPosition, now, distanceFn).Ok?
    ensures var t := db.trips[tripId];
            var c := GetPriceConfigurationByVehicleType(db, t.requestedVehicleType).value;
            CompleteTrip(db, tripId, finalPosition, now, distanceFn).value.trips[tripId].finalPrice
            == Some(Fare(c, BilledDistance(t, distanceFn), WholeMinutes(t.startedAt.value, now)))
    ensures var t := db.trips[tripId];
            var c := GetPriceConfigurationByVehicleType(db, t.requestedVehicleType).value;
            IsCents(c.minimumPrice) ==>
              CompleteTrip(db, tripId, finalPosition, now, distanceFn).value.trips[tripId].finalPrice.value >= c.minimumPrice
  {
    var t := db.trips[tripId];
    assert WellFormedTrip(t);
    var c := GetPriceConfigurationByVehicleType(db, t.requestedVehicleType).value;
    if IsCents(c.minimumPrice) {
      FareAtLeastMinimum(c, BilledDistance(t, distanceFn), WholeMinutes(t.startedAt.value, now));
    }
  }

  /** Asking for the price of a trip just completed repeats the final price
      the completion stored: completion touches no fare, and the billed
      distance and minutes do not depend on the stored price. */
  lemma CompletedTripPriceIsStoredPrice(db: Db, tripId: Id, finalPosition: Coord, now: Time, distanceFn: DistanceFn)
    requires CompleteTrip(db, tripId, finalPosition, now, distanceFn).Ok?
    ensures var db' := CompleteTrip(db, tripId, finalPosition, now, distanceFn).value;
            Trips.CalculateTripPrice(db', tripId, distanceFn) == Ok(db'.trips[tripId].finalPrice.value)
  {
    var db' := CompleteTrip(db, tripId, finalPosition, now, distanceFn).value;
    assert db'.priceConfigurations == db.priceConfigurations;
    PriceLookupReadsOnlyConfigurations(db, db', db.trips[tripId].requestedVehicleType);
  }

  // ----- rating averages -----

  /** Under the invariant, the scores any average is taken over are on the
      1..5 scale. */
  lemma ScoresAreValid(trips: map<Id, Trip>, t: Trip, fromPassenger: bool)
    requires TripsInvariant(trips)
    ensures forall k :: k in ScoresFor(trips, t, fromPassenger) ==> ValidScore(ScoresFor(trips, t, fromPassenger)[k])
  {
    var s := ScoresFor(trips, t, fromPassenger);
    forall k | k in s ensures ValidScore(s[k]) {
      assert WellFormedTrip(trips[k]);
    }
  }

  /** After a rating, the rated party's average lies on the 1..5 scale. */
  lemma RatedAverageWithinScale(db: Db, tripId: Id, d: CreateTripRatingDto, now: Time)
    requires TripsInvariant(db.trips)
    requires AddTripRating(db, tripId, d, now).Ok?
    ensures var r := AddTripRating(db, tripId, d, now).value;
            var t := db.trips[tripId];
            (d.isFromPassenger && t.driverId.Some? && DriverVisible(db, t.driverId.value) ==>
               1.0 <= r.drivers[t.driverId.value].rating <= 5.0)
            && (!d.isFromPassenger ==> 1.0 <= r.passengers[t.passengerId].rating <= 5.0)
  {
    var r := AddTripRating(db, tripId, d, now).value;
    var t := db.trips[tripId];
    AddTripRatingKeepsInvariant(db, tripId, d, now);
    var s := ScoresFor(r.trips, t, d.isFromPassenger);
    ScoresAreValid(r.trips, t, d.isFromPassenger);
    if d.isFromPassenger && t.driverId.Some? {
      assert tripId in s;
      MeanWithinScale(s);
    } else if !d.isFromPassenger {
      assert tripId in s;
      MeanWithinScale(s);
    }
  }

  /** A driver's first rating: with no other rated trip, the corrected
      operation sets the driver's average to the new score, while the
      operation as written finds no scores and leaves the average as it was
      (0 for a new driver). */
  lemma FirstRatingMissedAsWritten(db: Db, tripId: Id, d: CreateTripRatingDto, now: Time)
    requires AddTripRating(db, tripId, d, now).Ok?
    requires d.isFromPassenger
    requires var t := db.trips[tripId];
             t.rating.None? && t.driverId.Some? && DriverVisible(db, t.driverId.value)
             && DriverScores(db.trips, t.driverId.value) == map[]
    ensures var drv := db.trips[tripId].driverId.value;
            AddTripRatingAsWritten(db, tripId, d, now).value.drivers[drv].rating == db.drivers[drv].rating
    ensures var drv := db.trips[tripId].driverId.value;
            AddTripRating(db, tripId, d, now).value.drivers[drv].rating == d.rating as real
  {
    FirstStoredRatingIsTheAverage(db, tripId, d, now);
  }

  /** With the submission stored first, a driver's first score is the only
      one the average reads, so it becomes the average. */
  lemma FirstStoredRatingIsTheAverage(db: Db, tripId: Id, d: CreateTripRatingDto, now: Time)
    requires AddTripRating(db, tripId, d, now).Ok?
    requires d.isFromPassenger
    requires var t := db.trips[tripId];
             t.rating.None? && t.driverId.Some? && DriverVisible(db, t.driverId.value)
             && DriverScores(db.trips, t.driverId.value) == map[]
    ensures var drv := db.trips[tripId].driverId.value;
            AddTripRating(db, tripId, d, now).value.drivers[drv].rating == d.rating as real
  {
    var t := db.trips[tripId];
    var drv := t.driverId.value;
    var r := AddTripRating(db, tripId, d, now).value;
    var t' := r.trips[tripId];
    assert r.trips == db.trips[tripId := t'];
    assert t'.rating.value.passengerRating == d.rating;
    SoleDriverScore(db.trips, tripId, t', drv);
    MeanOfOne(tripId, d.rating);
  }

  /** A driver without scores who is scored on one trip has exactly that
      score. */
  lemma SoleDriverScore(trips: map<Id, Trip>, id: Id, t': Trip, drv: Id)
    requires DriverScores(trips, drv) == map[]
    requires !t'.isDeleted && t'.driverId == Some(drv) && t'.rating.Some? && t'.rating.value.passengerRating > 0
    ensures DriverScores(trips[id := t'], drv) == map[id := t'.rating.value.passengerRating]
  {
    var s := DriverScores(trips[id := t'], drv);
    forall k | k != id ensures k !in s {
      if k in trips {
        assert trips[id := t'][k] == trips[k];
        assert k !in DriverScores(trips, drv);
      }
    }
    assert id in s;
  }
}