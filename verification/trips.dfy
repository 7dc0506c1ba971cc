/** The trip service (TripService): requesting a ride, the driver's
    accept / arrive / start / complete steps, cancellation, route samples,
    ratings and payments, and the fare of a trip.

    Every operation is a function from the database to a `Result`: an `Err`
    is the exception the service throws, and then nothing is saved. The
    clock (`now`), the Haversine distance and the generated trip code and
    ids are parameters.
 */
module Trips {
  import opened Common
  import opened Models
  import opened Store
  import opened Mappers
  import opened Pricing

  // ----- request DTOs of the trip service -----

  datatype CreateTripDto = CreateTripDto(passengerId: Id, trip: RequestTripDto)
  datatype UpdateTripStatusDto = UpdateTripStatusDto(status: TripStatus, cancellationReason: Option<string>)
  datatype CreateTripLocationDto = CreateTripLocationDto(position: Coord, speed: Option<real>, heading: Option<real>)
  datatype CreateTripRatingDto = CreateTripRatingDto(rating: int, comment: Option<string>, isFromPassenger: bool)
  datatype CreateTripPaymentDto = CreateTripPaymentDto(amount: real, paymentMethod: string, paymentReference: Option<string>)

  // ----- statuses -----

  /** The statuses in which a trip blocks its passenger from requesting
      another one. */
  predicate PassengerActive(s: TripStatus) {
    s == Requested || s == Accepted || s == DriverArrived || s == InProgress
  }

  /** The statuses in which a trip occupies its driver; they are also the
      statuses in which route samples are accepted. */
  predicate DriverEngaged(s: TripStatus) {
    s == Accepted || s == DriverArrived || s == InProgress
  }

  /** The designed lifecycle: Requested, Accepted, DriverArrived,
      InProgress, Completed, with cancellation from any status but Completed
      and Cancelled. */
  predicate Edge(from: TripStatus, to: TripStatus) {
    (from == Requested && to == Accepted)
    || (from == Accepted && to == DriverArrived)
    || (from == DriverArrived && to == InProgress)
    || (from == InProgress && to == Completed)
    || (to == Cancelled && from != Completed && from != Cancelled)
  }

  // ----- queries the guards use -----

  /** The passenger has a non-deleted trip in an active status. */
  predicate HasActiveTrip(trips: map<Id, Trip>, passengerId: Id) {
    exists k :: k in trips && !trips[k].isDeleted && trips[k].passengerId == passengerId
      && PassengerActive(trips[k].status)
  }

  /** The driver has a non-deleted trip in an engaged status. */
  predicate DriverBusy(trips: map<Id, Trip>, driverId: Id) {
    exists k :: k in trips && !trips[k].isDeleted && trips[k].driverId == Some(driverId)
      && DriverEngaged(trips[k].status)
  }

  /** The driver may take a trip: approved, online and not deleted. */
  predicate DriverAvailable(db: Db, driverId: Id) {
    DriverVisible(db, driverId) && db.drivers[driverId].status == Approved && db.drivers[driverId].isOnline
  }

  /** The vehicle may serve a trip of that driver: the driver's own, active,
      verified and not deleted. */
  predicate VehicleUsable(db: Db, vehicleId: Id, driverId: Id) {
    VehicleVisible(db, vehicleId) && db.vehicles[vehicleId].driverId == driverId
    && db.vehicles[vehicleId].isActive && db.vehicles[vehicleId].isVerified
  }

  /** Only trip `id` changed, and no table but the trips. */
  predicate OnlyTripChanged(db: Db, db': Db, id: Id) {
    db' == db.(trips := db'.trips) && db'.trips.Keys == db.trips.Keys
    && forall k :: k in db.trips && k != id ==> db'.trips[k] == db.trips[k]
  }

  // ----- fares -----

  /** The estimated duration in minutes at an assumed 40 km/h: the whole
      minutes of distance / 40 * 60. */
  function EstimatedDuration(distance: Km): (m: int)
    ensures 0 <= m
    ensures m as real <= distance * 60.0 / 40.0 < m as real + 1.0
  {
    (distance * 3.0 / 2.0).Floor
  }

  /** CalculateEstimatedPriceAsync: the fare of the straight-line distance
      between the two points at the estimated duration. */
  function CalculateEstimatedPrice(db: Db, origin: Coord, destination: Coord, vt: VehicleType,
                                   distanceFn: DistanceFn): (r: Result<real>)
    ensures r.Err? <==> GetPriceConfigurationByVehicleType(db, vt).None?
    ensures r.Err? ==> r.error == NoActivePriceConfiguration
    ensures r.Ok? ==> r.value == Fare(GetPriceConfigurationByVehicleType(db, vt).value,
                                      distanceFn(origin, destination),
                                      EstimatedDuration(distanceFn(origin, destination)))
  {
    var distance := distanceFn(origin, destination);
    Pricing.CalculateTripPrice(db, vt, distance, EstimatedDuration(distance))
  }

  /** The minutes a trip is billed for: the actual duration, else the
      estimated one, else zero. */
  function BilledMinutes(t: Trip): int {
    t.actualDuration.GetOr(t.estimatedDuration.GetOr(0))
  }

  /** The distance a trip is billed for: its recorded distance, else the
      straight line from origin to destination. */
  function BilledDistance(t: Trip, distanceFn: DistanceFn): real {
    t.distance.GetOr(distanceFn(t.origin, t.destination))
  }

  /** The fare of a loaded trip (the body of CalculateTripPriceAsync after
      the lookup): fails when its vehicle type has no active configuration. */
  function PriceOfTrip(db: Db, t: Trip, distanceFn: DistanceFn): (r: Result<real>)
    ensures r.Err? <==> GetPriceConfigurationByVehicleType(db, t.requestedVehicleType).None?
    ensures r.Err? ==> r.error == PriceConfigurationNotFound
    ensures r.Ok? ==> r.value == Fare(GetPriceConfigurationByVehicleType(db, t.requestedVehicleType).value,
                                      BilledDistance(t, distanceFn), BilledMinutes(t))
  {
    if GetPriceConfigurationByVehicleType(db, t.requestedVehicleType).None? then Err(PriceConfigurationNotFound)
    else Pricing.CalculateTripPrice(db, t.requestedVehicleType, BilledDistance(t, distanceFn), BilledMinutes(t))
  }

  /** CalculateTripPriceAsync(tripId). */
  function CalculateTripPrice(db: Db, tripId: Id, distanceFn: DistanceFn): (r: Result<real>)
    ensures !TripVisible(db, tripId) ==> r == Err(TripNotFound)
    ensures TripVisible(db, tripId) ==> r == PriceOfTrip(db, db.trips[tripId], distanceFn)
  {
    if !TripVisible(db, tripId) then Err(TripNotFound) else PriceOfTrip(db, db.trips[tripId], distanceFn)
  }

  // ----- creating a trip -----

  /** RequestTripAsync: a passenger asks for a ride. Refused for an unknown
      passenger, for a passenger with an active trip, and when the vehicle
      type has no active fare; otherwise exactly one trip is added, in status
      Requested, quoted at the estimated fare. */
  function RequestTrip(db: Db, passengerId: Id, d: RequestTripDto, newId: Id, tripCode: string,
                       now: Time, distanceFn: DistanceFn): (r: Result<Db>)
    requires newId !in db.trips
    ensures r.Ok? <==> PassengerVisible(db, passengerId) && !HasActiveTrip(db.trips, passengerId)
                       && GetPriceConfigurationByVehicleType(db, d.requestedVehicleType).Some?
    ensures r.Err? ==> r.error == (if !PassengerVisible(db, passengerId) then PassengerNotFound
                                   else if HasActiveTrip(db.trips, passengerId) then PassengerHasActiveTrip
                                   else NoActivePriceConfiguration)
    ensures r.Ok? ==> r.value == db.(trips := r.value.trips)
    ensures r.Ok? ==> r.value.trips.Keys == db.trips.Keys + {newId}
                      && forall k :: k in db.trips ==> r.value.trips[k] == db.trips[k]
    ensures r.Ok? ==> var price := CalculateEstimatedPrice(db, d.origin, d.destination, d.requestedVehicleType, distanceFn);
                      r.value.trips[newId] == TripFromRequest(d, passengerId, price.value, tripCode, now)
  {
    if !PassengerVisible(db, passengerId) then Err(PassengerNotFound)
    else if HasActiveTrip(db.trips, passengerId) then Err(PassengerHasActiveTrip)
    else
      var price :- CalculateEstimatedPrice(db, d.origin, d.destination, d.requestedVehicleType, distanceFn);
      Ok(db.(trips := db.trips[newId := TripFromRequest(d, passengerId, price, tripCode, now)]))
  }

  /** CreateTripAsync: the same request with the passenger named in the
      DTO. */
  function CreateTrip(db: Db, d: CreateTripDto, newId: Id, tripCode: string, now: Time,
                      distanceFn: DistanceFn): (r: Result<Db>)
    requires newId !in db.trips
    ensures r == RequestTrip(db, d.passengerId, d.trip, newId, tripCode, now, distanceFn)
  {
    if !PassengerVisible(db, d.passengerId) then Err(PassengerNotFound)
    else if HasActiveTrip(db.trips, d.passengerId) then Err(PassengerHasActiveTrip)
    else
      var price :- CalculateEstimatedPrice(db, d.trip.origin, d.trip.destination,
                                           d.trip.requestedVehicleType, distanceFn);
      Ok(db.(trips := db.trips[newId := TripFromRequest(d.trip, d.passengerId, price, tripCode, now)]))
  }

  // ----- the driver's steps -----

  /** AcceptTripAsync(tripId, driverId, vehicleId): checks, in this order,
      that the trip exists (with its passenger), is Requested, that the
      driver is available, has no engaged trip, and owns the vehicle, which
      must be active and verified; then assigns driver and vehicle. */
  function AcceptTrip(db: Db, tripId: Id, driverId: Id, vehicleId: Id, now: Time): (r: Result<Db>)
    ensures r.Ok? <==> TripWithPassengerVisible(db, tripId) && db.trips[tripId].status == Requested
                       && DriverAvailable(db, driverId) && !DriverBusy(db.trips, driverId)
                       && VehicleUsable(db, vehicleId, driverId)
    ensures r.Err? ==> r.error == (if !TripWithPassengerVisible(db, tripId) then TripNotFound
                                   else if db.trips[tripId].status != Requested then TripNotRequested
                                   else if !DriverAvailable(db, driverId) then DriverNotAvailable
                                   else if DriverBusy(db.trips, driverId) then DriverHasActiveTrip
                                   else VehicleNotAvailable)
    ensures r.Ok? ==> OnlyTripChanged(db, r.value, tripId)
    ensures r.Ok? ==> r.value.trips[tripId] == db.trips[tripId].(driverId := Some(driverId),
                        vehicleId := Some(vehicleId), status := Accepted, acceptedAt := Some(now))
    ensures r.Ok? ==> Edge(db.trips[tripId].status, r.value.trips[tripId].status)
  {
    if !TripWithPassengerVisible(db, tripId) then Err(TripNotFound)
    else if db.trips[tripId].status != Requested then Err(TripNotRequested)
    else if !DriverAvailable(db, driverId) then Err(DriverNotAvailable)
    else if DriverBusy(db.trips, driverId) then Err(DriverHasActiveTrip)
    else if !VehicleUsable(db, vehicleId, driverId) then Err(VehicleNotAvailable)
    else
      var t := db.trips[tripId];
      Ok(db.(trips := db.trips[tripId := t.(driverId := Some(driverId), vehicleId := Some(vehicleId),
                                            status := Accepted, acceptedAt := Some(now))]))
  }

  /** DriverArrivedAsync: only an Accepted trip moves to DriverArrived. */
  function MarkDriverArrived(db: Db, tripId: Id, now: Time): (r: Result<Db>)
    ensures r.Ok? <==> TripVisible(db, tripId) && db.trips[tripId].status == Accepted
    ensures r.Err? ==> r.error == (if !TripVisible(db, tripId) then TripNotFound else TripNotAccepted)
    ensures r.Ok? ==> OnlyTripChanged(db, r.value, tripId)
    ensures r.Ok? ==> r.value.trips[tripId] == db.trips[tripId].(status := DriverArrived, driverArrivedAt := Some(now))
    ensures r.Ok? ==> Edge(db.trips[tripId].status, r.value.trips[tripId].status)
  {
    if !TripVisible(db, tripId) then Err(TripNotFound)
    else if db.trips[tripId].status != Accepted then Err(TripNotAccepted)
    else Ok(db.(trips := db.trips[tripId := db.trips[tripId].(status := DriverArrived, driverArrivedAt := Some(now))]))
  }

  /** StartTripAsync: only a DriverArrived trip moves to InProgress. */
  function StartTrip(db: Db, tripId: Id, now: Time): (r: Result<Db>)
    ensures r.Ok? <==> TripVisible(db, tripId) && db.trips[tripId].status == DriverArrived
    ensures r.Err? ==> r.error == (if !TripVisible(db, tripId) then TripNotFound else TripNotDriverArrived)
    ensures r.Ok? ==> OnlyTripChanged(db, r.value, tripId)
    ensures r.Ok? ==> r.value.trips[tripId] == db.trips[tripId].(status := InProgress, startedAt := Some(now))
    ensures r.Ok? ==> Edge(db.trips[tripId].status, r.value.trips[tripId].status)
  {
    if !TripVisible(db, tripId) then Err(TripNotFound)
    else if db.trips[tripId].status != DriverArrived then Err(TripNotDriverArrived)
    else Ok(db.(trips := db.trips[tripId := db.trips[tripId].(status := InProgress, startedAt := Some(now))]))
  }

  /** The completed trip as CompleteTripAsync builds it before pricing:
      Completed now, the final position appended to the route and, when the
      trip had started, the elapsed whole minutes as its actual duration. */
  function Finished(t: Trip, finalPosition: Coord, now: Time): (r: Trip)
    ensures r.status == Completed && r.completedAt == Some(now)
    ensures r.locations == t.locations + [TripLocation(finalPosition, now, None, None)]
    ensures t.startedAt.Some? ==> r.actualDuration == Some(WholeMinutes(t.startedAt.value, now))
    ensures t.startedAt.None? ==> r.actualDuration == t.actualDuration
    ensures r == t.(status := r.status, completedAt := r.completedAt, locations := r.locations,
                    actualDuration := r.actualDuration)
  {
    t.(status := Completed, completedAt := Some(now),
       locations := t.locations + [TripLocation(finalPosition, now, None, None)],
       actualDuration := if t.startedAt.Some? then Some(WholeMinutes(t.startedAt.value, now)) else t.actualDuration)
  }

  /** The trip counters after a completion: the passenger's always (the
      trip was loaded with its passenger), the driver's when the trip has a
      driver the query filter does not hide. */
  function CountCompletion(db: Db, t: Trip): (r: Db)
    requires PassengerVisible(db, t.passengerId)
    ensures r == db.(passengers := r.passengers, drivers := r.drivers)
    ensures r.passengers == db.passengers[t.passengerId :=
              db.passengers[t.passengerId].(totalTrips := db.passengers[t.passengerId].totalTrips + 1)]
    ensures t.driverId.Some? && DriverVisible(db, t.driverId.value) ==>
              r.drivers == db.drivers[t.driverId.value :=
                db.drivers[t.driverId.value].(totalTrips := db.drivers[t.driverId.value].totalTrips + 1)]
    ensures !(t.driverId.Some? && DriverVisible(db, t.driverId.value)) ==> r.drivers == db.drivers
  {
    var p := db.passengers[t.passengerId];
    var db1 := db.(passengers := db.passengers[t.passengerId := p.(totalTrips := p.totalTrips + 1)]);
    if t.driverId.Some? && DriverVisible(db, t.driverId.value) then
      var drv := db.drivers[t.driverId.value];
      db1.(drivers := db.drivers[t.driverId.value := drv.(totalTrips := drv.totalTrips + 1)])
    else db1
  }

  /** CompleteTripAsync(tripId, lat, lon): only an InProgress trip (loaded
      with its passenger) completes; its final price is the fare for the
      billed distance and the actual duration, and the trip counters of
      passenger and driver go up by one. Without an active fare the call
      fails and nothing is saved. */
  function CompleteTrip(db: Db, tripId: Id, finalPosition: Coord, now: Time, distanceFn: DistanceFn): (r: Result<Db>)
    ensures r.Ok? <==> TripWithPassengerVisible(db, tripId) && db.trips[tripId].status == InProgress
                       && GetPriceConfigurationByVehicleType(db, db.trips[tripId].requestedVehicleType).Some?
    ensures r.Err? ==> r.error == (if !TripWithPassengerVisible(db, tripId) then TripNotFound
                                   else if db.trips[tripId].status != InProgress then TripNotInProgress
                                   else PriceConfigurationNotFound)
    ensures r.Ok? ==> var t := Finished(db.trips[tripId], finalPosition, now);
                      r.value.trips == db.trips[tripId := t.(finalPrice := Some(PriceOfTrip(db, t, distanceFn).value))]
                      && r.value == CountCompletion(db, db.trips[tripId]).(trips := r.value.trips)
    ensures r.Ok? ==> Edge(db.trips[tripId].status, r.value.trips[tripId].status)
  {
    if !TripWithPassengerVisible(db, tripId) then Err(TripNotFound)
    else if db.trips[tripId].status != InProgress then Err(TripNotInProgress)
    else
      var t := Finished(db.trips[tripId], finalPosition, now);
      var price :- PriceOfTrip(db, t, distanceFn);
      Ok(CountCompletion(db, db.trips[tripId]).(trips := db.trips[tripId := t.(finalPrice := Some(price))]))
  }

  // ----- cancellation -----

  /** CancelTripAsync as implemented, with its parameters in the
      implementation's order (reason, then who cancels): any trip that is
      neither Completed nor Cancelled becomes Cancelled now, recording both
      values as passed. */
  function CancelTrip(db: Db, tripId: Id, reason: Option<string>, cancelledBy: Option<string>, now: Time): (r: Result<Db>)
    ensures r.Ok? <==> TripVisible(db, tripId) && db.trips[tripId].status != Completed
                       && db.trips[tripId].status != Cancelled
    ensures r.Err? ==> r.error == (if !TripVisible(db, tripId) then TripNotFound else TripAlreadyFinished)
    ensures r.Ok? ==> OnlyTripChanged(db, r.value, tripId)
    ensures r.Ok? ==> r.value.trips[tripId] == db.trips[tripId].(status := Cancelled, cancelledAt := Some(now),
                        cancellationReason := reason, cancelledBy := cancelledBy)
    ensures r.Ok? ==> Edge(db.trips[tripId].status, r.value.trips[tripId].status)
  {
    if !TripVisible(db, tripId) then Err(TripNotFound)
    else if db.trips[tripId].status == Completed || db.trips[tripId].status == Cancelled then Err(TripAlreadyFinished)
    else Ok(db.(trips := db.trips[tripId := db.trips[tripId].(status := Cancelled, cancelledAt := Some(now),
                                                            cancellationReason := reason, cancelledBy := cancelledBy)]))
  }

  /** The cancel endpoint as written: it passes (cancelledBy, reason) in the
      order the service interface declares, and positional binding hands
      them to the implementation's (reason, cancelledBy). */
  function CancelTripAsWritten(db: Db, tripId: Id, cancelledBy: string, reason: Option<string>, now: Time): (r: Result<Db>)
    ensures r == CancelTrip(db, tripId, Some(cancelledBy), reason, now)
  {
    CancelTrip(db, tripId, Some(cancelledBy), reason, now)
  }

  /** The cancel endpoint with the arguments bound by meaning. */
  function CancelTripCorrected(db: Db, tripId: Id, cancelledBy: string, reason: Option<string>, now: Time): (r: Result<Db>)
    ensures r.Ok? <==> TripVisible(db, tripId) && db.trips[tripId].status != Completed
                       && db.trips[tripId].status != Cancelled
    ensures r.Ok? ==> OnlyTripChanged(db, r.value, tripId)
    ensures r.Ok? ==> r.value.trips[tripId].cancelledBy == Some(cancelledBy)
                      && r.value.trips[tripId].cancellationReason == reason
  {
    CancelTrip(db, tripId, reason, Some(cancelledBy), now)
  }

  /** Through the endpoint as written, a cancellation stores the canceller
      as the reason and the reason as the canceller. */
  lemma CancelEndpointSwapsFields(db: Db, tripId: Id, cancelledBy: string, reason: Option<string>, now: Time)
    requires CancelTripAsWritten(db, tripId, cancelledBy, reason, now).Ok?
    ensures var t := CancelTripAsWritten(db, tripId, cancelledBy, reason, now).value.trips[tripId];
            t.cancellationReason == Some(cancelledBy) && t.cancelledBy == reason
    ensures reason != Some(cancelledBy) ==>
              CancelTripAsWritten(db, tripId, cancelledBy, reason, now).value.trips[tripId].cancelledBy
              != Some(cancelledBy)
  {
  }

  // ----- the admin override -----

  /** The override's Completed branch in the order the source performs it:
      the price is taken before the actual duration is set, so the trip is
      billed for its previous duration (none, after the regular flow). */
  function OverrideCompletionAsWritten(db: Db, t: Trip, now: Time, distanceFn: DistanceFn): (r: Result<Trip>)
    ensures r.Err? <==> GetPriceConfigurationByVehicleType(db, t.requestedVehicleType).None?
    ensures r.Ok? ==> r.value.finalPrice == Some(PriceOfTrip(db, t.(status := Completed, completedAt := Some(now)), distanceFn).value)
    ensures r.Ok? ==> t.startedAt.Some? ==> r.value.actualDuration == Some(WholeMinutes(t.startedAt.value, now))
  {
    var t1 := t.(status := Completed, completedAt := Some(now));
    var price :- PriceOfTrip(db, t1, distanceFn);
    var t2 := t1.(finalPrice := Some(price));
    Ok(if t.startedAt.Some? then t2.(actualDuration := Some(WholeMinutes(t.startedAt.value, now))) else t2)
  }

  /** The override's Completed branch with the duration set before pricing,
      as CompleteTripAsync does: the final price bills the actual duration. */
  function OverrideCompletion(db: Db, t: Trip, now: Time, distanceFn: DistanceFn): (r: Result<Trip>)
    ensures r.Err? <==> GetPriceConfigurationByVehicleType(db, t.requestedVehicleType).None?
    ensures r.Ok? ==> r.value.status == Completed && r.value.completedAt == Some(now)
    ensures r.Ok? ==> t.startedAt.Some? ==> r.value.actualDuration == Some(WholeMinutes(t.startedAt.value, now))
    ensures r.Ok? ==> r.value.finalPrice == Some(Fare(GetPriceConfigurationByVehicleType(db, t.requestedVehicleType).value,
                                                      BilledDistance(t, distanceFn), BilledMinutes(r.value)))
  {
    var t1 := t.(status := Completed, completedAt := Some(now),
                 actualDuration := if t.startedAt.Some? then Some(WholeMinutes(t.startedAt.value, now)) else t.actualDuration);
    var price :- PriceOfTrip(db, t1, distanceFn);
    Ok(t1.(finalPrice := Some(price)))
  }

  /** UpdateTripStatusAsync, the administrator's override: it sets any
      status on any visible trip (loaded with its passenger), without
      checking the lifecycle. Cancelled records when, the DTO's reason and
      the current user; Completed prices the trip (with the duration set
      first, see `OverrideCompletion`) and counts it for passenger and
      driver; other statuses change only the status. */
  function UpdateTripStatus(db: Db, tripId: Id, d: UpdateTripStatusDto, currentUser: string, now: Time,
                            distanceFn: DistanceFn): (r: Result<Db>)
    ensures !TripWithPassengerVisible(db, tripId) ==> r == Err(TripNotFound)
    ensures r.Ok? ==> TripWithPassengerVisible(db, tripId)
    ensures TripWithPassengerVisible(db, tripId) && d.status != Completed ==> r.Ok?
    ensures TripWithPassengerVisible(db, tripId) && d.status == Completed ==>
              (r.Ok? <==> GetPriceConfigurationByVehicleType(db, db.trips[tripId].requestedVehicleType).Some?)
    ensures r.Ok? ==> r.value.trips.Keys == db.trips.Keys && r.value.trips[tripId].status == d.status
    ensures r.Ok? ==> forall k :: k in db.trips && k != tripId ==> r.value.trips[k] == db.trips[k]
    ensures r.Ok? ==> d.status == Cancelled ==>
              r.value == db.(trips := r.value.trips)
              && r.value.trips[tripId] == db.trips[tripId].(status := Cancelled, cancelledAt := Some(now),
                   cancellationReason := d.cancellationReason, cancelledBy := Some(currentUser))
    ensures r.Ok? ==> d.status == Completed ==>
              r.value.trips[tripId] == OverrideCompletion(db, db.trips[tripId], now, distanceFn).value
              && r.value == CountCompletion(db, db.trips[tripId]).(trips := r.value.trips)
    ensures r.Ok? ==> d.status != Cancelled && d.status != Completed ==>
              r.value == db.(trips := db.trips[tripId := db.trips[tripId].(status := d.status)])
  {
    if !TripWithPassengerVisible(db, tripId) then Err(TripNotFound)
    else
      var t := db.trips[tripId];
      if d.status == Cancelled then
        Ok(db.(trips := db.trips[tripId := t.(status := Cancelled, cancelledAt := Some(now),
                                              cancellationReason := d.cancellationReason,
                                              cancelledBy := Some(currentUser))]))
      else if d.status == Completed then
        var t' :- OverrideCompletion(db, t, now, distanceFn);
        Ok(CountCompletion(db, t).(trips := db.trips[tripId := t']))
      else
        Ok(db.(trips := db.trips[tripId := t.(status := d.status)]))
  }

  /** A trip started 30 minutes ago, never timed before, with a per-minute
      fare only: the override as written bills it 0.00, the corrected one
      30.00. */
  lemma OverrideBillsStaleDuration(db: Db, t: Trip, now: Time, distanceFn: DistanceFn)
    requires GetPriceConfigurationByVehicleType(db, t.requestedVehicleType).Some?
    requires var c := GetPriceConfigurationByVehicleType(db, t.requestedVehicleType).value;
             c.basePrice == 0.0 && c.pricePerKm == 0.0 && c.pricePerMinute == 1.0 && c.minimumPrice == 0.0
    requires t.startedAt == Some(now - 30 * TicksPerMinute)
    requires t.actualDuration.None? && t.estimatedDuration.None?
    ensures OverrideCompletionAsWritten(db, t, now, distanceFn).value.finalPrice == Some(0.0)
    ensures OverrideCompletion(db, t, now, distanceFn).value.finalPrice == Some(30.0)
  {
    var c := GetPriceConfigurationByVehicleType(db, t.requestedVehicleType).value;
    var dist := BilledDistance(t, distanceFn);
    assert WholeMinutes(now - 30 * TicksPerMinute, now) == 30;
    assert RawFare(c, dist, 0) == 0.0;
    assert RawFare(c, dist, 30) == 30.0;
    RoundToCentsKeepsCents(0.0);
    RoundToCentsKeepsCents(30.0);
  }

  /** The two orders agree whenever the duration the override sets is the
      one the trip already had: the trip never started, or its actual
      duration already equals the elapsed minutes. */
  lemma OverrideCompletionsAgree(db: Db, t: Trip, now: Time, distanceFn: DistanceFn)
    requires t.startedAt.None? || t.actualDuration == Some(WholeMinutes(t.startedAt.value, now))
    ensures OverrideCompletionAsWritten(db, t, now, distanceFn) == OverrideCompletion(db, t, now, distanceFn)
  {
  }

  /** UpdateTripStatusAsync as written: the same override as
      `UpdateTripStatus`, except that the Completed branch prices the trip
      before it sets the actual duration (`OverrideCompletionAsWritten`). */
  function UpdateTripStatusAsWritten(db: Db, tripId: Id, d: UpdateTripStatusDto, currentUser: string, now: Time,
                                     distanceFn: DistanceFn): (r: Result<Db>)
    ensures d.status != Completed ==> r == UpdateTripStatus(db, tripId, d, currentUser, now, distanceFn)
    ensures d.status == Completed ==> (r.Ok? <==> UpdateTripStatus(db, tripId, d, currentUser, now, distanceFn).Ok?)
    ensures r.Ok? ==> d.status == Completed ==>
              r.value.trips == db.trips[tripId := OverrideCompletionAsWritten(db, db.trips[tripId], now, distanceFn).value]
              && r.value == CountCompletion(db, db.trips[tripId]).(trips := r.value.trips)
  {
    if !TripWithPassengerVisible(db, tripId) then Err(TripNotFound)
    else
      var t := db.trips[tripId];
      if d.status == Cancelled then
        Ok(db.(trips := db.trips[tripId := t.(status := Cancelled, cancelledAt := Some(now),
                                              cancellationReason := d.cancellationReason,
                                              cancelledBy := Some(currentUser))]))
      else if d.status == Completed then
        var t' :- OverrideCompletionAsWritten(db, t, now, distanceFn);
        Ok(CountCompletion(db, t).(trips := db.trips[tripId := t']))
      else
        Ok(db.(trips := db.trips[tripId := t.(status := d.status)]))
  }

  /** The override as written and the corrected one save the same state
      unless a started trip's actual duration differs from the elapsed
      minutes. */
  lemma UpdateTripStatusVersionsAgree(db: Db, tripId: Id, d: UpdateTripStatusDto, currentUser: string, now: Time,
                                      distanceFn: DistanceFn)
    requires tripId in db.trips
    requires var t := db.trips[tripId];
             t.startedAt.None? || t.actualDuration == Some(WholeMinutes(t.startedAt.value, now))
    ensures UpdateTripStatusAsWritten(db, tripId, d, currentUser, now, distanceFn)
            == UpdateTripStatus(db, tripId, d, currentUser, now, distanceFn)
  {
    OverrideCompletionsAgree(db, db.trips[tripId], now, distanceFn);
  }

  // ----- route samples -----

  /** AddTripLocationAsync: a route sample stamped now is appended to an
      Accepted, DriverArrived or InProgress trip; nothing else changes. */
  function AddTripLocation(db: Db, tripId: Id, d: CreateTripLocationDto, now: Time): (r: Result<Db>)
    ensures r.Ok? <==> TripVisible(db, tripId) && DriverEngaged(db.trips[tripId].status)
    ensures r.Err? ==> r.error == (if !TripVisible(db, tripId) then TripNotFound else TripNotTrackable)
    ensures r.Ok? ==> OnlyTripChanged(db, r.value, tripId)
    ensures r.Ok? ==> r.value.trips[tripId] == db.trips[tripId].(locations := db.trips[tripId].locations
                        + [TripLocation(d.position, now, d.speed, d.heading)])
  {
    if !TripVisible(db, tripId) then Err(TripNotFound)
    else if !DriverEngaged(db.trips[tripId].status) then Err(TripNotTrackable)
    else
      var t := db.trips[tripId];
      Ok(db.(trips := db.trips[tripId := t.(locations := t.locations + [TripLocation(d.position, now, d.speed, d.heading)])]))
  }

  // ----- ratings -----

  /** A score on the 1..5 scale. */
  predicate ValidScore(n: int) {
    1 <= n <= 5
  }

  /** The rating record after a submission: the submitting side's score and
      comment are overwritten; a new record is stamped now. */
  function Rated(existing: Option<TripRating>, d: CreateTripRatingDto, now: Time): (r: TripRating)
    ensures d.isFromPassenger ==> r.passengerRating == d.rating && r.passengerComment == d.comment
    ensures !d.isFromPassenger ==> r.driverRating == Some(d.rating) && r.driverComment == d.comment
    ensures existing.Some? ==> d.isFromPassenger ==>
              r == existing.value.(passengerRating := d.rating, passengerComment := d.comment)
    ensures existing.Some? ==> !d.isFromPassenger ==>
              r == existing.value.(driverRating := Some(d.rating), driverComment := d.comment)
    ensures existing.None? ==> r.ratedAt == Some(now)
    ensures existing.None? ==> d.isFromPassenger ==> r.driverRating.None? && r.driverComment.None?
    ensures existing.None? ==> !d.isFromPassenger ==> r.passengerRating == 0 && r.passengerComment.None?
  {
    var base := existing.GetOr(TripRating(0, None, None, None, Some(now)));
    if d.isFromPassenger then base.(passengerRating := d.rating, passengerComment := d.comment)
    else base.(driverRating := Some(d.rating), driverComment := d.comment)
  }

  /** The passenger scores the rating query of a driver sees: one per
      non-deleted trip of that driver whose passenger score is positive. */
  function DriverScores(trips: map<Id, Trip>, driverId: Id): (s: map<Id, int>)
    ensures forall k :: k in s <==> (k in trips && !trips[k].isDeleted && trips[k].driverId == Some(driverId)
                                     && trips[k].rating.Some? && trips[k].rating.value.passengerRating > 0)
    ensures forall k :: k in s ==> s[k] == trips[k].rating.value.passengerRating
  {
    map k | k in trips && !trips[k].isDeleted && trips[k].driverId == Some(driverId)
            && trips[k].rating.Some? && trips[k].rating.value.passengerRating > 0
      :: trips[k].rating.value.passengerRating
  }

  /** The driver scores the rating query of a passenger sees: one per
      non-deleted trip of that passenger that the driver has rated. */
  function PassengerScores(trips: map<Id, Trip>, passengerId: Id): (s: map<Id, int>)
    ensures forall k :: k in s <==> (k in trips && !trips[k].isDeleted && trips[k].passengerId == passengerId
                                     && trips[k].rating.Some? && trips[k].rating.value.driverRating.Some?)
    ensures forall k :: k in s ==> s[k] == trips[k].rating.value.driverRating.value
  {
    map k | k in trips && !trips[k].isDeleted && trips[k].passengerId == passengerId
            && trips[k].rating.Some? && trips[k].rating.value.driverRating.Some?
      :: trips[k].rating.value.driverRating.value
  }

  /** The sum of the scores under `keys`. */
  function SumScores(scores: map<Id, int>, keys: set<Id>): int
    requires keys <= scores.Keys
    decreases keys
  {
    if keys == {} then 0
    else
      var k := Least(keys).value;
      scores[k] + SumScores(scores, keys - {k})
  }

  /** The sum of n scores on the 1..5 scale lies between n and 5n. */
  lemma {:induction false} SumScoresBounds(scores: map<Id, int>, keys: set<Id>)
    requires keys <= scores.Keys
    requires forall k :: k in keys ==> ValidScore(scores[k])
    ensures |keys| <= SumScores(scores, keys) <= 5 * |keys|
    decreases keys
  {
    if keys != {} {
      var k := Least(keys).value;
      SumScoresBounds(scores, keys - {k});
    }
  }

  /** The average of the scores (Enumerable.Average), none when empty. */
  function Mean(scores: map<Id, int>): (r: Option<real>)
    ensures r.None? <==> |scores| == 0
  {
    if |scores| == 0 then None else Some(SumScores(scores, scores.Keys) as real / |scores| as real)
  }

  /** A total between n and 5n, divided by n, lies between 1 and 5. */
  lemma QuotientBetween(s: real, n: real)
    requires n > 0.0 && n <= s <= 5.0 * n
    ensures 1.0 <= s / n <= 5.0
  {
    var q := s / n;
    assert q * n == s;
    assert (q - 1.0) * n >= 0.0;
    assert (5.0 - q) * n >= 0.0;
  }

  /** An average of scores on the 1..5 scale is itself on that scale. */
  lemma MeanWithinScale(scores: map<Id, int>)
    requires |scores| > 0
    requires forall k :: k in scores ==> ValidScore(scores[k])
    ensures 1.0 <= Mean(scores).value <= 5.0
  {
    SumScoresBounds(scores, scores.Keys);
    QuotientBetween(SumScores(scores, scores.Keys) as real, |scores| as real);
  }

  /** The average of a single score is that score. */
  lemma MeanOfOne(k: Id, n: int)
    ensures Mean(map[k := n]) == Some(n as real)
  {
    var s := map[k := n];
    assert s.Keys == {k};
    assert |s| == 1;
    assert Least({k}) == Some(k);
    assert {k} - {k} == {};
    assert SumScores(s, {k}) == n;
  }

  /** A profile's stored average after a recomputation: unchanged when the
      query found no scores. */
  function Averaged(current: real, scores: map<Id, int>): real {
    match Mean(scores)
    case Some(m) => m
    case None => current
  }

  /** The checks shared by both versions of AddTripRatingAsync: the trip
      (with its passenger) exists, is Completed, and the score is 1..5. */
  function CheckRating(db: Db, tripId: Id, d: CreateTripRatingDto): (r: Result<Trip>)
    ensures r.Ok? <==> TripWithPassengerVisible(db, tripId) && db.trips[tripId].status == Completed && ValidScore(d.rating)
    ensures r.Err? ==> r.error == (if !TripWithPassengerVisible(db, tripId) then TripNotFound
                                   else if db.trips[tripId].status != Completed then TripNotCompleted
                                   else RatingOutOfRange)
    ensures r.Ok? ==> r.value == db.trips[tripId]
  {
    if !TripWithPassengerVisible(db, tripId) then Err(TripNotFound)
    else if db.trips[tripId].status != Completed then Err(TripNotCompleted)
    else if !ValidScore(d.rating) then Err(RatingOutOfRange)
    else Ok(db.trips[tripId])
  }

  /** The rated party's profile after a submission, given the scores its
      average is taken over: a passenger's score updates the trip's driver
      (when the filter does not hide the driver), a driver's score updates
      the trip's passenger. */
  function WithAverage(db: Db, t: Trip, fromPassenger: bool, scores: map<Id, int>): (r: Db)
    ensures r == db.(drivers := r.drivers, passengers := r.passengers)
    ensures fromPassenger ==> r.passengers == db.passengers
    ensures !fromPassenger ==> r.drivers == db.drivers
  {
    if fromPassenger then
      if t.driverId.Some? && DriverVisible(db, t.driverId.value) then
        var drv := db.drivers[t.driverId.value];
        db.(drivers := db.drivers[t.driverId.value := drv.(rating := Averaged(drv.rating, scores))])
      else db
    else if PassengerVisible(db, t.passengerId) then
      var p := db.passengers[t.passengerId];
      db.(passengers := db.passengers[t.passengerId := p.(rating := Averaged(p.rating, scores))])
    else db
  }

  /** The scores the rated party's average is taken over, given the trips
      as the average query reads them. */
  function ScoresFor(trips: map<Id, Trip>, t: Trip, fromPassenger: bool): map<Id, int> {
    if fromPassenger then (if t.driverId.Some? then DriverScores(trips, t.driverId.value) else map[])
    else PassengerScores(trips, t.passengerId)
  }

  /** AddTripRatingAsync as written: the average is recomputed before the
      submission is stored, so the query reads the old rating rows: a new
      rating is missing from it, and an updated one counts with its new
      score only when its old score already passed the query's filter. */
  function AddTripRatingAsWritten(db: Db, tripId: Id, d: CreateTripRatingDto, now: Time): (r: Result<Db>)
    ensures r.Ok? <==> CheckRating(db, tripId, d).Ok?
    ensures r.Ok? ==> r.value.trips == db.trips[tripId := db.trips[tripId].(rating := Some(Rated(db.trips[tripId].rating, d, now)))]
    ensures r.Ok? ==> var before := ScoresFor(db.trips, db.trips[tripId], d.isFromPassenger);
                      r.value == WithAverage(db, db.trips[tripId], d.isFromPassenger,
                                             if tripId in before then before[tripId := d.rating] else before)
                                   .(trips := r.value.trips)
  {
    var t :- CheckRating(db, tripId, d);
    var trips' := db.trips[tripId := t.(rating := Some(Rated(t.rating, d, now)))];
    var before := ScoresFor(db.trips, t, d.isFromPassenger);
    var seen := if tripId in before then before[tripId := d.rating] else before;
    Ok(WithAverage(db, t, d.isFromPassenger, seen).(trips := trips'))
  }

  /** AddTripRatingAsync with the average taken after the submission is
      stored: the rated party's rating becomes the mean of all its scores,
      this one included. */
  function AddTripRating(db: Db, tripId: Id, d: CreateTripRatingDto, now: Time): (r: Result<Db>)
    ensures r.Ok? <==> CheckRating(db, tripId, d).Ok?
    ensures r.Err? ==> r.error == CheckRating(db, tripId, d).error
    ensures r.Ok? ==> r.value.trips == db.trips[tripId := db.trips[tripId].(rating := Some(Rated(db.trips[tripId].rating, d, now)))]
    ensures r.Ok? ==> r.value == WithAverage(db, db.trips[tripId], d.isFromPassenger,
                                             ScoresFor(r.value.trips, db.trips[tripId], d.isFromPassenger))
                                   .(trips := r.value.trips)
  {
    var t :- CheckRating(db, tripId, d);
    var trips' := db.trips[tripId := t.(rating := Some(Rated(t.rating, d, now)))];
    Ok(WithAverage(db, t, d.isFromPassenger, ScoresFor(trips', t, d.isFromPassenger)).(trips := trips'))
  }

  // ----- payments -----

  /** AddTripPaymentAsync: a Completed trip without a payment gets an unpaid
      payment record for the DTO's amount, method and reference. */
  function AddTripPayment(db: Db, tripId: Id, d: CreateTripPaymentDto): (r: Result<Db>)
    ensures r.Ok? <==> TripVisible(db, tripId) && db.trips[tripId].status == Completed && db.trips[tripId].payment.None?
    ensures r.Err? ==> r.error == (if !TripVisible(db, tripId) then TripNotFound
                                   else if db.trips[tripId].status != Completed then TripNotCompleted
                                   else PaymentAlreadyExists)
    ensures r.Ok? ==> OnlyTripChanged(db, r.value, tripId)
    ensures r.Ok? ==> r.value.trips[tripId] == db.trips[tripId].(payment :=
                        Some(TripPayment(d.amount, d.paymentMethod, d.paymentReference, false, None)))
  {
    if !TripVisible(db, tripId) then Err(TripNotFound)
    else if db.trips[tripId].status != Completed then Err(TripNotCompleted)
    else if db.trips[tripId].payment.Some? then Err(PaymentAlreadyExists)
    else Ok(db.(trips := db.trips[tripId := db.trips[tripId].(payment :=
              Some(TripPayment(d.amount, d.paymentMethod, d.paymentReference, false, None)))]))
  }

  /** The payment record after a status update: the paid flag as given, the
      payment time stamped on the first payment only, and the reference
      replaced only by a non-null one. */
  function PaymentUpdated(p: TripPayment, isPaid: bool, reference: Option<string>, now: Time): (r: TripPayment)
    ensures r.isPaid == isPaid
    ensures p.paidAt.Some? ==> r.paidAt == p.paidAt
    ensures p.paidAt.None? ==> r.paidAt == (if isPaid then Some(now) else None)
    ensures PatchedNullable(p.paymentReference, reference, r.paymentReference)
    ensures r.amount == p.amount && r.paymentMethod == p.paymentMethod
  {
    p.(isPaid := isPaid,
       paidAt := if isPaid && p.paidAt.None? then Some(now) else p.paidAt,
       paymentReference := if reference.Some? then reference else p.paymentReference)
  }

  /** UpdateTripPaymentStatusAsync: fails for an unknown trip or a trip
      without payment; otherwise updates that payment only. */
  function UpdateTripPaymentStatus(db: Db, tripId: Id, isPaid: bool, reference: Option<string>, now: Time): (r: Result<Db>)
    ensures r.Ok? <==> TripVisible(db, tripId) && db.trips[tripId].payment.Some?
    ensures r.Err? ==> r.error == (if !TripVisible(db, tripId) then TripNotFound else PaymentNotFound)
    ensures r.Ok? ==> OnlyTripChanged(db, r.value, tripId)
    ensures r.Ok? ==> r.value.trips[tripId] == db.trips[tripId].(payment :=
                        Some(PaymentUpdated(db.trips[tripId].payment.value, isPaid, reference, now)))
  {
    if !TripVisible(db, tripId) then Err(TripNotFound)
    else if db.trips[tripId].payment.None? then Err(PaymentNotFound)
    else
      var t := db.trips[tripId];
      Ok(db.(trips := db.trips[tripId := t.(payment := Some(PaymentUpdated(t.payment.value, isPaid, reference, now)))]))
  }
}
