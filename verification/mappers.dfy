/** The request DTOs the services accept and the mapping helpers that turn
    them into entities or apply them to existing ones (MapperHelpers and
    the DTO extension methods). A partial-update DTO writes a field only
    when it carries a value for it; the `Patched` predicates of `Common`
    say exactly that.
 */
module Mappers {
  import opened Common
  import opened Models

  // ----- DTOs -----

  datatype UpdateUserDto = UpdateUserDto(
    firstName: Option<string>,
    lastName: Option<string>,
    email: Option<string>,
    dateOfBirth: Option<Time>,
    isActive: Option<bool>,
    roleIds: Option<seq<Id>>)

  datatype UpdateRoleDto = UpdateRoleDto(
    name: Option<string>,
    description: Option<string>,
    permissionIds: Option<seq<Id>>)

  datatype DriverRegistrationDto = DriverRegistrationDto(
    phoneNumber: string,
    fullName: Option<string>,
    email: Option<string>,
    dateOfBirth: Time,
    nationalCardNumber: string,
    fullAddress: string)

  datatype UpdateDriverStatusDto = UpdateDriverStatusDto(
    status: DriverStatus, rejectionReason: Option<string>)

  datatype CreateVehicleDto = CreateVehicleDto(
    vehicleType: VehicleType,
    make: string,
    model: string,
    year: Option<string>,
    color: Option<string>,
    plateNumber: Option<string>)

  datatype UpdateVehicleDto = UpdateVehicleDto(
    vehicleType: Option<VehicleType>,
    make: Option<string>,
    model: Option<string>,
    year: Option<string>,
    color: Option<string>,
    plateNumber: Option<string>,
    isActive: Option<bool>,
    isVerified: Option<bool>)

  datatype UploadDocumentDto = UploadDocumentDto(
    documentType: DocumentType, driverId: Option<Id>, vehicleId: Option<Id>)

  datatype DocumentVerificationDto = DocumentVerificationDto(
    isVerified: bool, rejectionReason: Option<string>)

  datatype UpdatePassengerDto = UpdatePassengerDto(preferredPaymentMethod: Option<string>)

  datatype CreateFavoriteLocationDto = CreateFavoriteLocationDto(
    name: string, address: string, position: Coord)

  datatype UpdateFavoriteLocationDto = UpdateFavoriteLocationDto(
    name: Option<string>,
    address: Option<string>,
    latitude: Option<real>,
    longitude: Option<real>)

  datatype RequestTripDto = RequestTripDto(
    originAddress: string,
    origin: Coord,
    destinationAddress: string,
    destination: Coord,
    requestedVehicleType: VehicleType,
    passengerNotes: Option<string>)

  datatype SubmitPassengerRatingDto = SubmitPassengerRatingDto(rating: int, comment: Option<string>)

  datatype ProcessPaymentDto = ProcessPaymentDto(
    amount: real, paymentMethod: string, paymentReference: Option<string>, isPaid: bool)

  datatype CreatePriceConfigurationDto = CreatePriceConfigurationDto(
    vehicleType: VehicleType,
    basePrice: real,
    pricePerKm: real,
    pricePerMinute: real,
    minimumPrice: real,
    isActive: bool,
    description: Option<string>)

  datatype UpdatePriceConfigurationDto = UpdatePriceConfigurationDto(
    basePrice: Option<real>,
    pricePerKm: Option<real>,
    pricePerMinute: Option<real>,
    minimumPrice: Option<real>,
    isActive: Option<bool>,
    description: Option<string>)

  // ----- users and roles -----

  /** User.UpdateFromDto: overwrites exactly the profile fields the DTO
      supplies (the role list is handled by the user service). */
  function UpdateUserFromDto(u: User, d: UpdateUserDto): (r: User)
    ensures PatchedNullable(u.firstName, d.firstName, r.firstName)
    ensures PatchedNullable(u.lastName, d.lastName, r.lastName)
    ensures PatchedNullable(u.email, d.email, r.email)
    ensures PatchedNullable(u.dateOfBirth, d.dateOfBirth, r.dateOfBirth)
    ensures Patched(u.isActive, d.isActive, r.isActive)
    ensures r == u.(firstName := r.firstName, lastName := r.lastName, email := r.email,
                    dateOfBirth := r.dateOfBirth, isActive := r.isActive)
  {
    u.(firstName := if d.firstName.Some? then d.firstName else u.firstName,
       lastName := if d.lastName.Some? then d.lastName else u.lastName,
       email := if d.email.Some? then d.email else u.email,
       dateOfBirth := if d.dateOfBirth.Some? then d.dateOfBirth else u.dateOfBirth,
       isActive := d.isActive.GetOr(u.isActive))
  }

  /** Role.UpdateFromDto: name and description, when supplied. */
  function UpdateRoleFromDto(role: Role, d: UpdateRoleDto): (r: Role)
    ensures Patched(role.name, d.name, r.name)
    ensures PatchedNullable(role.description, d.description, r.description)
    ensures r == role.(name := r.name, description := r.description)
  {
    role.(name := d.name.GetOr(role.name),
          description := if d.description.Some? then d.description else role.description)
  }

  // ----- drivers, vehicles, documents -----

  /** DriverRegistrationDto.ToEntity: a fresh profile awaiting approval,
      offline, with no trips and no rating. */
  function DriverFromRegistration(d: DriverRegistrationDto, userId: Id): (r: Driver)
    ensures r.userId == userId && r.status == Pending && !r.isOnline && !r.isDeleted
    ensures r.totalTrips == 0 && r.rating == 0.0
    ensures r.nationalCardNumber == Some(d.nationalCardNumber) && r.fullAddress == d.fullAddress
    ensures r.dateOfBirth == d.dateOfBirth
    ensures r.approvedAt.None? && r.approvedBy.None? && r.rejectionReason.None?
    ensures r.lastLocationUpdate.None? && r.currentLatitude.None? && r.currentLongitude.None?
  {
    Driver(userId, Some(d.nationalCardNumber), d.fullAddress, d.dateOfBirth, Pending,
           0.0, 0, false, None, None, None, None, None, None, false)
  }

  /** Driver.UpdateStatus: the status is always written; a rejection records
      the reason, an approval records when and by whom; any other status
      touches neither. */
  function UpdateDriverStatus(drv: Driver, d: UpdateDriverStatusDto, updatedBy: string, now: Time): (r: Driver)
    ensures r.status == d.status
    ensures d.status == Rejected ==> r.rejectionReason == d.rejectionReason
    ensures d.status != Rejected ==> r.rejectionReason == drv.rejectionReason
    ensures d.status == Approved ==> r.approvedAt == Some(now) && r.approvedBy == Some(updatedBy)
    ensures d.status != Approved ==> r.approvedAt == drv.approvedAt && r.approvedBy == drv.approvedBy
    ensures r == drv.(status := r.status, rejectionReason := r.rejectionReason,
                      approvedAt := r.approvedAt, approvedBy := r.approvedBy)
  {
    if d.status == Rejected then drv.(status := d.status, rejectionReason := d.rejectionReason)
    else if d.status == Approved then drv.(status := d.status, approvedAt := Some(now), approvedBy := Some(updatedBy))
    else drv.(status := d.status)
  }

  /** CreateVehicleDto.ToEntity: active and unverified by default. */
  function VehicleFromDto(d: CreateVehicleDto, driverId: Id): (r: Vehicle)
    ensures r.driverId == driverId && r.vehicleType == d.vehicleType
    ensures r.make == d.make && r.model == d.model && r.year == d.year
    ensures r.color == d.color && r.plateNumber == d.plateNumber
    ensures r.isActive && !r.isVerified && !r.isDeleted
  {
    Vehicle(driverId, d.vehicleType, d.make, d.model, d.year, d.color, d.plateNumber, true, false, false)
  }

  /** Vehicle.UpdateFromDto: overwrites exactly the supplied fields. */
  function UpdateVehicleFromDto(v: Vehicle, d: UpdateVehicleDto): (r: Vehicle)
    ensures Patched(v.vehicleType, d.vehicleType, r.vehicleType)
    ensures Patched(v.make, d.make, r.make) && Patched(v.model, d.model, r.model)
    ensures PatchedNullable(v.year, d.year, r.year)
    ensures PatchedNullable(v.color, d.color, r.color)
    ensures PatchedNullable(v.plateNumber, d.plateNumber, r.plateNumber)
    ensures Patched(v.isActive, d.isActive, r.isActive)
    ensures Patched(v.isVerified, d.isVerified, r.isVerified)
    ensures r.driverId == v.driverId && r.isDeleted == v.isDeleted
  {
    v.(vehicleType := d.vehicleType.GetOr(v.vehicleType),
       make := d.make.GetOr(v.make),
       model := d.model.GetOr(v.model),
       year := if d.year.Some? then d.year else v.year,
       color := if d.color.Some? then d.color else v.color,
       plateNumber := if d.plateNumber.Some? then d.plateNumber else v.plateNumber,
       isActive := d.isActive.GetOr(v.isActive),
       isVerified := d.isVerified.GetOr(v.isVerified))
  }

  /** UploadDocumentDto.ToEntity: a new document is never verified. */
  function DocumentFromUpload(d: UploadDocumentDto, filePath: string, originalFileName: string,
                              fileSize: int, mimeType: string): (r: Document)
    ensures r.driverId == d.driverId && r.vehicleId == d.vehicleId && r.documentType == d.documentType
    ensures r.filePath == filePath && r.originalFileName == Some(originalFileName)
    ensures r.fileSize == fileSize && r.mimeType == Some(mimeType)
    ensures !r.isVerified && r.verifiedAt.None? && r.verifiedBy.None? && r.rejectionReason.None?
    ensures !r.isDeleted
  {
    Document(d.driverId, d.vehicleId, d.documentType, filePath, Some(originalFileName),
             fileSize, Some(mimeType), false, None, None, None, false)
  }

  /** A document's verification fields agree with its verdict: verified
      exactly when a verification time is recorded, and the verifier is
      recorded exactly when the time is. */
  predicate VerificationConsistent(doc: Document) {
    (doc.isVerified <==> doc.verifiedAt.Some?) && (doc.verifiedAt.Some? <==> doc.verifiedBy.Some?)
  }

  /** Document.UpdateVerification: a positive verdict stamps the verifier
      and clears any rejection; a negative one records the reason and
      clears the stamp. */
  function UpdateVerification(doc: Document, d: DocumentVerificationDto, verifiedBy: string, now: Time): (r: Document)
    ensures r.isVerified == d.isVerified
    ensures d.isVerified ==> r.verifiedAt == Some(now) && r.verifiedBy == Some(verifiedBy) && r.rejectionReason.None?
    ensures !d.isVerified ==> r.verifiedAt.None? && r.verifiedBy.None? && r.rejectionReason == d.rejectionReason
    ensures VerificationConsistent(r)
    ensures r == doc.(isVerified := r.isVerified, verifiedAt := r.verifiedAt,
                      verifiedBy := r.verifiedBy, rejectionReason := r.rejectionReason)
  {
    if d.isVerified then
      doc.(isVerified := true, verifiedAt := Some(now), verifiedBy := Some(verifiedBy), rejectionReason := None)
    else
      doc.(isVerified := false, rejectionReason := d.rejectionReason, verifiedAt := None, verifiedBy := None)
  }

  // ----- passengers -----

  /** Passenger.UpdateFromDto: the preferred payment method, when supplied. */
  function UpdatePassengerFromDto(p: Passenger, d: UpdatePassengerDto): (r: Passenger)
    ensures PatchedNullable(p.preferredPaymentMethod, d.preferredPaymentMethod, r.preferredPaymentMethod)
    ensures r == p.(preferredPaymentMethod := r.preferredPaymentMethod)
  {
    if d.preferredPaymentMethod.Some? then p.(preferredPaymentMethod := d.preferredPaymentMethod) else p
  }

  /** CreateFavoriteLocationDto.ToEntity. */
  function FavoriteLocationFromDto(d: CreateFavoriteLocationDto, passengerId: Id): (r: FavoriteLocation)
    ensures r.passengerId == passengerId && r.name == d.name && r.address == d.address
    ensures r.position == d.position && !r.isDeleted
  {
    FavoriteLocation(passengerId, d.name, d.address, d.position, false)
  }

  /** FavoriteLocation.UpdateFromDto (the favourite-location update of the
      passenger service applies the same rule field by field). */
  function UpdateFavoriteLocationFromDto(l: FavoriteLocation, d: UpdateFavoriteLocationDto): (r: FavoriteLocation)
    ensures Patched(l.name, d.name, r.name) && Patched(l.address, d.address, r.address)
    ensures Patched(l.position.latitude, d.latitude, r.position.latitude)
    ensures Patched(l.position.longitude, d.longitude, r.position.longitude)
    ensures r.passengerId == l.passengerId && r.isDeleted == l.isDeleted
  {
    l.(name := d.name.GetOr(l.name),
       address := d.address.GetOr(l.address),
       position := Coord(d.latitude.GetOr(l.position.latitude), d.longitude.GetOr(l.position.longitude)))
  }

  // ----- trips -----

  /** RequestTripDto.ToEntity: a new request carries the quoted price and
      nothing of a later stage (no driver, no timestamps but RequestedAt, no
      final price, no route samples, rating or payment). */
  function TripFromRequest(d: RequestTripDto, passengerId: Id, estimatedPrice: real,
                           tripCode: string, now: Time): (r: Trip)
    ensures r.status == Requested && r.passengerId == passengerId && r.tripCode == tripCode
    ensures r.estimatedPrice == estimatedPrice && r.requestedAt == now
    ensures r.origin == d.origin && r.destination == d.destination
    ensures r.originAddress == d.originAddress && r.destinationAddress == d.destinationAddress
    ensures r.requestedVehicleType == d.requestedVehicleType && r.passengerNotes == d.passengerNotes
    ensures r.driverId.None? && r.vehicleId.None?
    ensures r.acceptedAt.None? && r.driverArrivedAt.None? && r.startedAt.None?
    ensures r.completedAt.None? && r.cancelledAt.None?
    ensures r.finalPrice.None? && r.distance.None? && r.estimatedDuration.None? && r.actualDuration.None?
    ensures r.cancellationReason.None? && r.cancelledBy.None?
    ensures r.locations == [] && r.rating.None? && r.payment.None? && !r.isDeleted
  {
    Trip(passengerId, None, None, tripCode,
         d.originAddress, d.origin, d.destinationAddress, d.destination,
         Requested, d.requestedVehicleType, estimatedPrice, None, None, None, None,
         now, None, None, None, None, None,
         d.passengerNotes, None, None, [], None, None, false)
  }

  /** SubmitPassengerRatingDto.ToEntity: the passenger's score and comment,
      stamped now; the driver side is still empty. */
  function RatingFromPassengerDto(d: SubmitPassengerRatingDto, now: Time): (r: TripRating)
    ensures r.passengerRating == d.rating && r.passengerComment == d.comment
    ensures r.driverRating.None? && r.driverComment.None? && r.ratedAt == Some(now)
  {
    TripRating(d.rating, None, d.comment, None, Some(now))
  }

  /** ProcessPaymentDto.ToEntity: a payment recorded as settled now, for the
      amount the caller decides (the DTO's own IsPaid flag is ignored). */
  function PaymentFromProcessDto(d: ProcessPaymentDto, amount: real, now: Time): (r: TripPayment)
    ensures r.amount == amount && r.paymentMethod == d.paymentMethod
    ensures r.paymentReference == d.paymentReference
    ensures r.isPaid && r.paidAt == Some(now)
  {
    TripPayment(amount, d.paymentMethod, d.paymentReference, true, Some(now))
  }

  // ----- fares -----

  /** CreatePriceConfigurationDto.ToEntity. */
  function PriceConfigurationFromDto(d: CreatePriceConfigurationDto): (r: PriceConfiguration)
    ensures r.vehicleType == d.vehicleType && r.basePrice == d.basePrice
    ensures r.pricePerKm == d.pricePerKm && r.pricePerMinute == d.pricePerMinute
    ensures r.minimumPrice == d.minimumPrice && r.isActive == d.isActive
    ensures r.description == d.description && !r.isDeleted
  {
    PriceConfiguration(d.vehicleType, d.basePrice, d.pricePerKm, d.pricePerMinute,
                       d.minimumPrice, d.isActive, d.description, false)
  }

  /** PriceConfiguration.UpdateFromDto: the supplied fare parameters; the
      vehicle type is not updatable. */
  function UpdatePriceConfigurationFromDto(c: PriceConfiguration, d: UpdatePriceConfigurationDto): (r: PriceConfiguration)
    ensures Patched(c.basePrice, d.basePrice, r.basePrice)
    ensures Patched(c.pricePerKm, d.pricePerKm, r.pricePerKm)
    ensures Patched(c.pricePerMinute, d.pricePerMinute, r.pricePerMinute)
    ensures Patched(c.minimumPrice, d.minimumPrice, r.minimumPrice)
    ensures Patched(c.isActive, d.isActive, r.isActive)
    ensures PatchedNullable(c.description, d.description, r.description)
    ensures r.vehicleType == c.vehicleType && r.isDeleted == c.isDeleted
  {
    c.(basePrice := d.basePrice.GetOr(c.basePrice),
       pricePerKm := d.pricePerKm.GetOr(c.pricePerKm),
       pricePerMinute := d.pricePerMinute.GetOr(c.pricePerMinute),
       minimumPrice := d.minimumPrice.GetOr(c.minimumPrice),
       isActive := d.isActive.GetOr(c.isActive),
       description := if d.description.Some? then d.description else c.description)
  }

  // ----- properties relating the helpers -----

  /** Applying a partial update twice is applying it once. */
  lemma UpdatesAreIdempotent(u: User, du: UpdateUserDto, v: Vehicle, dv: UpdateVehicleDto,
                             c: PriceConfiguration, dc: UpdatePriceConfigurationDto)
    ensures UpdateUserFromDto(UpdateUserFromDto(u, du), du) == UpdateUserFromDto(u, du)
    ensures UpdateVehicleFromDto(UpdateVehicleFromDto(v, dv), dv) == UpdateVehicleFromDto(v, dv)
    ensures UpdatePriceConfigurationFromDto(UpdatePriceConfigurationFromDto(c, dc), dc)
            == UpdatePriceConfigurationFromDto(c, dc)
  {
  }

  /** A verdict replaces any earlier one: the document afterwards depends
      only on the latest verdict, never on what was recorded before. */
  lemma LatestVerdictWins(doc: Document, first: DocumentVerificationDto, second: DocumentVerificationDto,
                          by1: string, by2: string, t1: Time, t2: Time)
    ensures UpdateVerification(UpdateVerification(doc, first, by1, t1), second, by2, t2)
            == UpdateVerification(doc, second, by2, t2)
  {
  }
}
