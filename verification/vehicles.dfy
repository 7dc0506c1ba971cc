/** VehicleService: registering a driver's vehicle, editing it, verifying
    it, and deleting it together with its documents (a soft-delete
    cascade).
 */
module Vehicles {
  import opened Common
  import opened Models
  import opened Store
  import opened Mappers
  import opened Documents
  import opened Trips

  /** `db'` differs from `db` at most in the vehicle `id`. */
  predicate OnlyVehicleChanged(db: Db, db': Db, id: Id) {
    db' == db.(vehicles := db'.vehicles) && db'.vehicles.Keys == db.vehicles.Keys
    && forall k :: k in db.vehicles && k != id ==> db'.vehicles[k] == db.vehicles[k]
  }

  /** CreateVehicleAsync: only a visible driver may register a vehicle; it
      starts active and unverified. */
  function CreateVehicle(db: Db, driverId: Id, d: CreateVehicleDto, newId: Id): (r: Result<Db>)
    requires newId !in db.vehicles
    ensures r.Ok? <==> DriverVisible(db, driverId)
    ensures r.Err? ==> r.error == DriverNotFound
    ensures r.Ok? ==> r.value == db.(vehicles := db.vehicles[newId := VehicleFromDto(d, driverId)])
  {
    if !DriverVisible(db, driverId) then Err(DriverNotFound)
    else Ok(db.(vehicles := db.vehicles[newId := VehicleFromDto(d, driverId)]))
  }

  /** UpdateVehicleAsync: the partial update of Vehicle.UpdateFromDto on a
      visible vehicle. */
  function UpdateVehicle(db: Db, id: Id, d: UpdateVehicleDto): (r: Result<Db>)
    ensures r.Ok? <==> VehicleVisible(db, id)
    ensures r.Err? ==> r.error == VehicleNotFound
    ensures r.Ok? ==> OnlyVehicleChanged(db, r.value, id)
                      && r.value.vehicles[id] == UpdateVehicleFromDto(db.vehicles[id], d)
  {
    if !VehicleVisible(db, id) then Err(VehicleNotFound)
    else Ok(db.(vehicles := db.vehicles[id := UpdateVehicleFromDto(db.vehicles[id], d)]))
  }

  /** VerifyVehicleAsync: sets IsVerified on a visible vehicle. */
  function VerifyVehicle(db: Db, id: Id): (r: Result<Db>)
    ensures r.Ok? <==> VehicleVisible(db, id)
    ensures r.Err? ==> r.error == VehicleNotFound
    ensures r.Ok? ==> OnlyVehicleChanged(db, r.value, id)
                      && r.value.vehicles[id] == db.vehicles[id].(isVerified := true)
  {
    if !VehicleVisible(db, id) then Err(VehicleNotFound)
    else Ok(db.(vehicles := db.vehicles[id := db.vehicles[id].(isVerified := true)]))
  }

  /** The documents that belong to the vehicle and are still visible. */
  function VehicleDocuments(db: Db, vehicleId: Id): set<Id> {
    set k | k in db.documents && !db.documents[k].isDeleted && db.documents[k].vehicleId == Some(vehicleId)
  }

  function VisibleDocuments(db: Db): set<Id> {
    set k | k in db.documents && !db.documents[k].isDeleted
  }

  /** DeleteVehicleAsync: a missing vehicle is an error; otherwise the
      vehicle and every visible document attached to it are soft-deleted,
      and nothing else changes. */
  function DeleteVehicle(db: Db, id: Id): (r: Result<Db>)
    ensures r.Ok? <==> VehicleVisible(db, id)
    ensures r.Err? ==> r.error == VehicleNotFound
    ensures r.Ok? ==> r.value == db.(vehicles := r.value.vehicles, documents := r.value.documents)
    ensures r.Ok? ==> r.value.vehicles == db.vehicles[id := db.vehicles[id].(isDeleted := true)]
    ensures r.Ok? ==> r.value.documents.Keys == db.documents.Keys
                      && (forall k :: k in db.documents && db.documents[k].vehicleId == Some(id) ==>
                            r.value.documents[k] == db.documents[k].(isDeleted := true))
                      && (forall k :: k in db.documents && db.documents[k].vehicleId != Some(id) ==>
                            r.value.documents[k] == db.documents[k])
  {
    if !VehicleVisible(db, id) then Err(VehicleNotFound)
    else
      var documents := map k | k in db.documents ::
        if db.documents[k].vehicleId == Some(id) && !db.documents[k].isDeleted
        then db.documents[k].(isDeleted := true) else db.documents[k];
      Ok(db.(vehicles := db.vehicles[id := db.vehicles[id].(isDeleted := true)], documents := documents))
  }

  // ----- properties -----

  /** The cascade hides exactly the vehicle's visible documents: the
      visible documents afterwards are those before, less the vehicle's. */
  lemma DeleteVehicleHidesExactlyItsDocuments(db: Db, id: Id)
    requires VehicleVisible(db, id)
    ensures VisibleDocuments(DeleteVehicle(db, id).value) == VisibleDocuments(db) - VehicleDocuments(db, id)
    ensures VehicleDocuments(DeleteVehicle(db, id).value, id) == {}
  {
    var db' := DeleteVehicle(db, id).value;
    forall k ensures k in VisibleDocuments(db') <==> k in VisibleDocuments(db) - VehicleDocuments(db, id) {
      if k in db.documents && db.documents[k].vehicleId == Some(id) {
        assert db'.documents[k].isDeleted;
      } else if k in db.documents {
        assert db'.documents[k] == db.documents[k];
      }
    }
    forall k | k in db'.documents && db'.documents[k].vehicleId == Some(id) ensures db'.documents[k].isDeleted {
      assert db'.documents[k] == db.documents[k].(isDeleted := true);
    }
  }

  /** A deleted vehicle is gone: deleting it again is an error, and no
      driver can take a trip with it. */
  lemma DeletedVehicleIsUnusable(db: Db, id: Id, driverId: Id)
    requires VehicleVisible(db, id)
    ensures DeleteVehicle(DeleteVehicle(db, id).value, id) == Err(VehicleNotFound)
    ensures !VehicleUsable(DeleteVehicle(db, id).value, id, driverId)
  {
  }

  /** A verified vehicle serves trips of its own driver exactly when it is
      active. */
  lemma VerifiedVehicleIsUsable(db: Db, id: Id, driverId: Id)
    requires VehicleVisible(db, id)
    ensures VehicleUsable(VerifyVehicle(db, id).value, id, driverId)
            <==> db.vehicles[id].driverId == driverId && db.vehicles[id].isActive
  {
  }

  /** The cascade keeps the document table well formed. */
  lemma DeleteVehicleKeepsDocumentsWellFormed(db: Db, id: Id)
    requires DocumentsWellFormed(db)
    ensures DeleteVehicle(db, id).Ok? ==> DocumentsWellFormed(DeleteVehicle(db, id).value)
  {
    var r := DeleteVehicle(db, id);
    if r.Ok? {
      forall k | k in r.value.documents ensures WellFormedDocument(r.value.documents[k]) {
        assert WellFormedDocument(db.documents[k]);
      }
    }
  }

  /** A newly registered vehicle serves no trip until it is verified; once
      verified it serves exactly its own driver's trips. */
  lemma NewVehicleAwaitsVerification(db: Db, driverId: Id, d: CreateVehicleDto, newId: Id, anyDriver: Id)
    requires newId !in db.vehicles
    requires CreateVehicle(db, driverId, d, newId).Ok?
    ensures !VehicleUsable(CreateVehicle(db, driverId, d, newId).value, newId, anyDriver)
    ensures VehicleUsable(VerifyVehicle(CreateVehicle(db, driverId, d, newId).value, newId).value, newId, anyDriver)
            <==> anyDriver == driverId
  {
  }

  /** Applying the same partial update twice changes nothing the first did
      not; the update leaves the documents alone, and a vehicle stays usable
      when the update does not touch its active or verified flag. */
  lemma UpdateVehicleIsIdempotent(db: Db, id: Id, d: UpdateVehicleDto, driverId: Id)
    requires VehicleVisible(db, id)
    ensures UpdateVehicle(UpdateVehicle(db, id, d).value, id, d) == UpdateVehicle(db, id, d)
    ensures DocumentsWellFormed(db) ==> DocumentsWellFormed(UpdateVehicle(db, id, d).value)
    ensures d.isActive.None? && d.isVerified.None? ==>
              (VehicleUsable(UpdateVehicle(db, id, d).value, id, driverId) <==> VehicleUsable(db, id, driverId))
  {
    var db1 := UpdateVehicle(db, id, d).value;
    assert db1.vehicles[id := UpdateVehicleFromDto(db1.vehicles[id], d)] == db1.vehicles;
  }
}
