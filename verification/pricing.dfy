/** The fare engine and the price-configuration table
    (PriceConfigurationService). A fare is base + per-km * distance +
    per-minute * minutes, raised to the configured minimum and rounded to
    cents with Math.Round's default midpoint rule, round-half-to-even.
 */
module Pricing {
  import opened Common
  import opened Models
  import opened Store
  import opened Mappers

  // ----- rounding -----

  /** x is a whole number of cents. */
  predicate IsCents(x: real) {
    (x * 100.0).Floor as real == x * 100.0
  }

  /** The integer nearest to y, ties going to the even neighbour. */
  function RoundHalfEven(y: real): (n: int)
    ensures -0.5 <= n as real - y <= 0.5
    ensures (n as real - y == 0.5 || y - n as real == 0.5) ==> n % 2 == 0
  {
    var f := y.Floor;
    var frac := y - f as real;
    if frac < 0.5 then f
    else if frac > 0.5 then f + 1
    else if f % 2 == 0 then f
    else f + 1
  }

  /** Rounding to the nearest integer never reverses an order. */
  lemma RoundHalfEvenMonotone(x: real, y: real)
    requires x <= y
    ensures RoundHalfEven(x) <= RoundHalfEven(y)
  {
    var fx, fy := x.Floor, y.Floor;
    if fx == fy {
      assert x - fx as real <= y - fy as real;
    } else {
      assert fx < fy;
      assert RoundHalfEven(x) <= fx + 1 <= fy <= RoundHalfEven(y);
    }
  }

  /** Math.Round(x, 2): the nearest whole number of cents, a half cent going
      to the even number of cents. */
  function RoundToCents(x: real): (r: real)
    ensures IsCents(r)
    ensures -0.005 <= r - x <= 0.005
    ensures (r - x == 0.005 || x - r == 0.005) ==> (r * 100.0).Floor % 2 == 0
  {
    var n := RoundHalfEven(x * 100.0);
    assert (n as real / 100.0) * 100.0 == n as real;
    n as real / 100.0
  }

  /** An amount already in whole cents is left as it is. */
  lemma RoundToCentsKeepsCents(x: real)
    requires IsCents(x)
    ensures RoundToCents(x) == x
  {
    var y := x * 100.0;
    assert y.Floor as real == y;
    assert RoundHalfEven(y) == y.Floor;
  }

  /** Rounding to cents never reverses an order. */
  lemma RoundToCentsMonotone(x: real, y: real)
    requires x <= y
    ensures RoundToCents(x) <= RoundToCents(y)
  {
    RoundHalfEvenMonotone(x * 100.0, y * 100.0);
  }

  // ----- the fare -----

  /** The fare before rounding and before the minimum is applied. */
  function RawFare(c: PriceConfiguration, distance: real, minutes: int): real {
    c.basePrice + c.pricePerKm * distance + c.pricePerMinute * minutes as real
  }

  /** The amount charged before rounding: the raw fare, or the configured
      minimum when the raw fare is below it. */
  function ChargedFare(c: PriceConfiguration, distance: real, minutes: int): (r: real)
    ensures r >= c.minimumPrice && r >= RawFare(c, distance, minutes)
    ensures r == c.minimumPrice || r == RawFare(c, distance, minutes)
  {
    var total := RawFare(c, distance, minutes);
    if total < c.minimumPrice then c.minimumPrice else total
  }

  /** The fare of a ride of `distance` km and `minutes` minutes: the charged
      amount rounded to cents. */
  function Fare(c: PriceConfiguration, distance: real, minutes: int): (r: real)
    ensures IsCents(r)
    ensures -0.005 <= r - ChargedFare(c, distance, minutes) <= 0.005
  {
    RoundToCents(ChargedFare(c, distance, minutes))
  }

  /** With a minimum in whole cents, no fare is below the minimum. */
  lemma FareAtLeastMinimum(c: PriceConfiguration, distance: real, minutes: int)
    requires IsCents(c.minimumPrice)
    ensures Fare(c, distance, minutes) >= c.minimumPrice
  {
    RoundToCentsMonotone(c.minimumPrice, ChargedFare(c, distance, minutes));
    RoundToCentsKeepsCents(c.minimumPrice);
  }

  /** A ride whose raw fare is below a whole-cent minimum costs exactly the
      minimum. */
  lemma FareBelowMinimumIsMinimum(c: PriceConfiguration, distance: real, minutes: int)
    requires IsCents(c.minimumPrice)
    requires RawFare(c, distance, minutes) < c.minimumPrice
    ensures Fare(c, distance, minutes) == c.minimumPrice
  {
    RoundToCentsKeepsCents(c.minimumPrice);
  }

  /** With non-negative rates, a longer or slower ride never costs less. */
  lemma FareMonotone(c: PriceConfiguration, d1: real, m1: int, d2: real, m2: int)
    requires c.pricePerKm >= 0.0 && c.pricePerMinute >= 0.0
    requires d1 <= d2 && m1 <= m2
    ensures Fare(c, d1, m1) <= Fare(c, d2, m2)
  {
    var a1, a2 := c.pricePerKm * d1, c.pricePerKm * d2;
    var b1, b2 := c.pricePerMinute * m1 as real, c.pricePerMinute * m2 as real;
    assert a1 <= a2 by {
      assert a2 - a1 == c.pricePerKm * (d2 - d1);
    }
    assert b1 <= b2 by {
      assert b2 - b1 == c.pricePerMinute * (m2 as real - m1 as real);
    }
    assert RawFare(c, d1, m1) == c.basePrice + a1 + b1;
    assert RawFare(c, d2, m2) == c.basePrice + a2 + b2;
    assert ChargedFare(c, d1, m1) <= ChargedFare(c, d2, m2);
    RoundToCentsMonotone(ChargedFare(c, d1, m1), ChargedFare(c, d2, m2));
  }

  // ----- the configuration table -----

  /** A configuration the fare lookup may pick for vehicle type vt. */
  predicate ActiveFor(c: PriceConfiguration, vt: VehicleType) {
    c.vehicleType == vt && c.isActive && !c.isDeleted
  }

  /** GetPriceConfigurationByVehicleTypeAsync: an active, non-deleted
      configuration of that vehicle type, or none when there is no such. */
  function GetPriceConfigurationByVehicleType(db: Db, vt: VehicleType): (r: Option<PriceConfiguration>)
    ensures r.None? <==> forall k :: k in db.priceConfigurations ==> !ActiveFor(db.priceConfigurations[k], vt)
    ensures r.Some? ==> ActiveFor(r.value, vt) && r.value in db.priceConfigurations.Values
  {
    var s := set k | k in db.priceConfigurations && ActiveFor(db.priceConfigurations[k], vt);
    var k := Least(s);
    if k.Some? then Some(db.priceConfigurations[k.value])
    else
      assert forall j :: j in db.priceConfigurations && ActiveFor(db.priceConfigurations[j], vt) ==> j in s;
      None
  }

  /** The lookup reads the configurations table and nothing else. */
  lemma PriceLookupReadsOnlyConfigurations(db: Db, db': Db, vt: VehicleType)
    requires db'.priceConfigurations == db.priceConfigurations
    ensures GetPriceConfigurationByVehicleType(db', vt) == GetPriceConfigurationByVehicleType(db, vt)
  {
  }

  /** PriceConfigurationService.CalculateTripPriceAsync: fails exactly when
      the vehicle type has no active configuration; otherwise the fare under
      that configuration. */
  function CalculateTripPrice(db: Db, vt: VehicleType, distance: real, minutes: int): (r: Result<real>)
    ensures r.Err? <==> GetPriceConfigurationByVehicleType(db, vt).None?
    ensures r.Err? ==> r.error == NoActivePriceConfiguration
    ensures r.Ok? ==> r.value == Fare(GetPriceConfigurationByVehicleType(db, vt).value, distance, minutes)
    ensures r.Ok? ==> IsCents(r.value)
  {
    match GetPriceConfigurationByVehicleType(db, vt)
    case None => Err(NoActivePriceConfiguration)
    case Some(c) => Ok(Fare(c, distance, minutes))
  }

  /** Some non-deleted configuration, active or not, exists for vt. */
  predicate HasConfigurationFor(db: Db, vt: VehicleType) {
    exists k :: k in db.priceConfigurations && !db.priceConfigurations[k].isDeleted
      && db.priceConfigurations[k].vehicleType == vt
  }

  /** CreatePriceConfigurationAsync: refused while any non-deleted
      configuration of the same vehicle type exists (even an inactive one);
      otherwise the new row is added and nothing else changes. */
  function CreatePriceConfiguration(db: Db, d: CreatePriceConfigurationDto, newId: Id): (r: Result<Db>)
    requires newId !in db.priceConfigurations
    ensures r.Err? <==> HasConfigurationFor(db, d.vehicleType)
    ensures r.Err? ==> r.error == PriceConfigurationExists
    ensures r.Ok? ==> r.value == db.(priceConfigurations := r.value.priceConfigurations)
    ensures r.Ok? ==> r.value.priceConfigurations.Keys == db.priceConfigurations.Keys + {newId}
    ensures r.Ok? ==> r.value.priceConfigurations[newId] == PriceConfigurationFromDto(d)
    ensures r.Ok? ==> forall k :: k in db.priceConfigurations ==> r.value.priceConfigurations[k] == db.priceConfigurations[k]
  {
    if HasConfigurationFor(db, d.vehicleType) then Err(PriceConfigurationExists)
    else Ok(db.(priceConfigurations := db.priceConfigurations[newId := PriceConfigurationFromDto(d)]))
  }

  predicate PriceConfigurationVisible(db: Db, id: Id) {
    id in db.priceConfigurations && !db.priceConfigurations[id].isDeleted
  }

  /** UpdatePriceConfigurationAsync: null (None) for an unknown or deleted
      id; otherwise the DTO is applied to that row only. */
  function UpdatePriceConfiguration(db: Db, id: Id, d: UpdatePriceConfigurationDto): (r: Option<Db>)
    ensures r.None? <==> !PriceConfigurationVisible(db, id)
    ensures r.Some? ==> r.value == db.(priceConfigurations := r.value.priceConfigurations)
    ensures r.Some? ==> r.value.priceConfigurations
                        == db.priceConfigurations[id := UpdatePriceConfigurationFromDto(db.priceConfigurations[id], d)]
  {
    if !PriceConfigurationVisible(db, id) then None
    else Some(db.(priceConfigurations :=
                  db.priceConfigurations[id := UpdatePriceConfigurationFromDto(db.priceConfigurations[id], d)]))
  }

  /** DeletePriceConfigurationAsync: false for an unknown or deleted id;
      otherwise the row is soft-deleted and true is returned. */
  function DeletePriceConfiguration(db: Db, id: Id): (r: (bool, Db))
    ensures r.0 <==> PriceConfigurationVisible(db, id)
    ensures !r.0 ==> r.1 == db
    ensures r.0 ==> r.1 == db.(priceConfigurations := r.1.priceConfigurations)
    ensures r.0 ==> r.1.priceConfigurations.Keys == db.priceConfigurations.Keys
    ensures r.0 ==> r.1.priceConfigurations[id] == db.priceConfigurations[id].(isDeleted := true)
    ensures r.0 ==> forall k :: k in db.priceConfigurations && k != id ==>
                      r.1.priceConfigurations[k] == db.priceConfigurations[k]
  {
    if !PriceConfigurationVisible(db, id) then (false, db)
    else (true, db.(priceConfigurations :=
                    db.priceConfigurations[id := db.priceConfigurations[id].(isDeleted := true)]))
  }

  // ----- properties of the table -----

  /** At most one non-deleted configuration per vehicle type. */
  predicate OneConfigurationPerType(db: Db) {
    forall i, j ::
      (i in db.priceConfigurations && j in db.priceConfigurations
       && !db.priceConfigurations[i].isDeleted && !db.priceConfigurations[j].isDeleted
       && db.priceConfigurations[i].vehicleType == db.priceConfigurations[j].vehicleType) ==> i == j
  }

  /** Creating a configuration keeps at most one live configuration per
      vehicle type. */
  lemma CreateKeepsOnePerType(db: Db, d: CreatePriceConfigurationDto, newId: Id)
    requires OneConfigurationPerType(db)
    requires newId !in db.priceConfigurations
    ensures CreatePriceConfiguration(db, d, newId).Ok? ==>
              OneConfigurationPerType(CreatePriceConfiguration(db, d, newId).value)
  {
    var c := CreatePriceConfiguration(db, d, newId);
    if c.Ok? {
      var t := c.value.priceConfigurations;
      assert !HasConfigurationFor(db, d.vehicleType);
      forall k | k in t && k != newId && !t[k].isDeleted ensures t[k].vehicleType != d.vehicleType {
        assert t[k] == db.priceConfigurations[k];
      }
    }
  }

  /** Updating a configuration keeps at most one live configuration per
      vehicle type (the type itself cannot be updated). */
  lemma UpdateKeepsOnePerType(db: Db, id: Id, u: UpdatePriceConfigurationDto)
    requires OneConfigurationPerType(db)
    ensures UpdatePriceConfiguration(db, id, u).Some? ==>
              OneConfigurationPerType(UpdatePriceConfiguration(db, id, u).value)
  {
  }

  /** Deleting a configuration keeps at most one live configuration per
      vehicle type. */
  lemma DeleteKeepsOnePerType(db: Db, id: Id)
    requires OneConfigurationPerType(db)
    ensures OneConfigurationPerType(DeletePriceConfiguration(db, id).1)
  {
  }

  /** Under the one-per-type invariant the lookup is independent of table
      order: it returns the active configuration of that type. */
  lemma LookupFindsTheConfiguration(db: Db, k: Id, vt: VehicleType)
    requires OneConfigurationPerType(db)
    requires k in db.priceConfigurations && ActiveFor(db.priceConfigurations[k], vt)
    ensures GetPriceConfigurationByVehicleType(db, vt) == Some(db.priceConfigurations[k])
  {
    var r := GetPriceConfigurationByVehicleType(db, vt);
    var j :| j in db.priceConfigurations && db.priceConfigurations[j] == r.value;
  }

  /** A configuration created active prices every later trip of its vehicle
      type: the fare is computed from exactly the created parameters. */
  lemma CreatedConfigurationPricesTrips(db: Db, d: CreatePriceConfigurationDto, newId: Id,
                                        distance: real, minutes: int)
    requires newId !in db.priceConfigurations
    requires d.isActive
    requires CreatePriceConfiguration(db, d, newId).Ok?
    ensures CalculateTripPrice(CreatePriceConfiguration(db, d, newId).value, d.vehicleType, distance, minutes)
            == Ok(Fare(PriceConfigurationFromDto(d), distance, minutes))
  {
    var db' := CreatePriceConfiguration(db, d, newId).value;
    var t := db'.priceConfigurations;
    assert !HasConfigurationFor(db, d.vehicleType);
    forall k | k in t && k != newId ensures !ActiveFor(t[k], d.vehicleType) {
      assert t[k] == db.priceConfigurations[k];
    }
    var r := GetPriceConfigurationByVehicleType(db', d.vehicleType);
    var j :| j in t && t[j] == r.value;
    assert j == newId;
  }
}
