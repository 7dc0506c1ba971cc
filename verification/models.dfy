/** The persisted entities of DriveApp (the classes under Models/ and the
    enums under Enums/). Every entity carries the soft-delete flag of its
    base class; keys live in the tables of `Store`, not in the records.
    Audit columns (CreatedAt except where a query orders by it, UpdatedAt,
    CreatedBy, UpdatedBy) are not modelled.
 */
module Models {
  import opened Common

  datatype TripStatus =
    Requested | Accepted | DriverArrived | InProgress | Completed | Cancelled | Failed

  datatype VehicleType = NormalCar | LuxuryVehicle | Rickshaw | Motorcycle | Taxi | Van

  datatype DriverStatus = Pending | Approved | Rejected | Suspended | Active | Offline

  datatype DocumentType =
    NationalCard | DrivingLicense | DriverPhoto | VehicleFront | VehicleBack
    | VehicleSide | VehicleDocuments

  /** The members of UserRoleType that the services name (the enum's own
      file is not part of this model). */
  datatype UserRoleType =
    SuperAdminRole | AdminRole | DriverRegistrarRole | DriverRole | PassengerRole

  /** A latitude/longitude pair (doubles in the source). */
  datatype Coord = Coord(latitude: real, longitude: real)

  /** A distance in kilometres. */
  type Km = r: real | r >= 0.0

  /** The great-circle distance between two points (the services' Haversine
      helpers, converted to decimal), supplied by the caller. */
  type DistanceFn = (Coord, Coord) -> Km

  /** A sample of a trip's route. */
  datatype TripLocation =
    TripLocation(position: Coord, timestamp: Time, speed: Option<real>, heading: Option<real>)

  /** The one rating record of a trip. PassengerRating is a non-nullable int
      (0 until the passenger rates), DriverRating a nullable one. */
  datatype TripRating = TripRating(
    passengerRating: int,
    driverRating: Option<int>,
    passengerComment: Option<string>,
    driverComment: Option<string>,
    ratedAt: Option<Time>)

  /** The one payment record of a trip. */
  datatype TripPayment = TripPayment(
    amount: real,
    paymentMethod: string,
    paymentReference: Option<string>,
    isPaid: bool,
    paidAt: Option<Time>)

  /** A ride. Its route samples, rating and payment are the dependent rows
      that reference it. */
  datatype Trip = Trip(
    passengerId: Id,
    driverId: Option<Id>,
    vehicleId: Option<Id>,
    tripCode: string,
    originAddress: string,
    origin: Coord,
    destinationAddress: string,
    destination: Coord,
    status: TripStatus,
    requestedVehicleType: VehicleType,
    estimatedPrice: real,
    finalPrice: Option<real>,
    distance: Option<real>,
    estimatedDuration: Option<int>,
    actualDuration: Option<int>,
    requestedAt: Time,
    acceptedAt: Option<Time>,
    driverArrivedAt: Option<Time>,
    startedAt: Option<Time>,
    completedAt: Option<Time>,
    cancelledAt: Option<Time>,
    passengerNotes: Option<string>,
    cancellationReason: Option<string>,
    cancelledBy: Option<string>,
    locations: seq<TripLocation>,
    rating: Option<TripRating>,
    payment: Option<TripPayment>,
    isDeleted: bool)

  datatype Passenger = Passenger(
    userId: Id,
    rating: real,
    totalTrips: int,
    preferredPaymentMethod: Option<string>,
    isDeleted: bool)

  datatype FavoriteLocation = FavoriteLocation(
    passengerId: Id,
    name: string,
    address: string,
    position: Coord,
    isDeleted: bool)

  datatype Driver = Driver(
    userId: Id,
    nationalCardNumber: Option<string>,
    fullAddress: string,
    dateOfBirth: Time,
    status: DriverStatus,
    rating: real,
    totalTrips: int,
    isOnline: bool,
    lastLocationUpdate: Option<Time>,
    currentLatitude: Option<real>,
    currentLongitude: Option<real>,
    rejectionReason: Option<string>,
    approvedAt: Option<Time>,
    approvedBy: Option<string>,
    isDeleted: bool)

  /** One row of a driver's location history. */
  datatype DriverLocation = DriverLocation(
    driverId: Id,
    position: Coord,
    timestamp: Time,
    speed: Option<real>,
    heading: Option<real>)

  datatype Vehicle = Vehicle(
    driverId: Id,
    vehicleType: VehicleType,
    make: string,
    model: string,
    year: Option<string>,
    color: Option<string>,
    plateNumber: Option<string>,
    isActive: bool,
    isVerified: bool,
    isDeleted: bool)

  /** An uploaded file about a driver and/or a vehicle. */
  datatype Document = Document(
    driverId: Option<Id>,
    vehicleId: Option<Id>,
    documentType: DocumentType,
    filePath: string,
    originalFileName: Option<string>,
    fileSize: int,
    mimeType: Option<string>,
    isVerified: bool,
    verifiedAt: Option<Time>,
    verifiedBy: Option<string>,
    rejectionReason: Option<string>,
    isDeleted: bool)

  /** An account. User.cs declares FirstName/LastName but no FullName, while
      the passenger and driver registration paths assign one; the model
      carries `fullName` so that those paths can be stated. */
  datatype User = User(
    phoneNumber: string,
    isPhoneVerified: bool,
    phoneVerifiedAt: Option<Time>,
    firstName: Option<string>,
    lastName: Option<string>,
    fullName: Option<string>,
    email: Option<string>,
    dateOfBirth: Option<Time>,
    isActive: bool,
    lastLoginAt: Option<Time>,
    isDeleted: bool)

  datatype Role = Role(
    name: string,
    description: Option<string>,
    roleType: UserRoleType,
    isSystemRole: bool,
    isDeleted: bool)

  datatype Permission = Permission(name: string, description: Option<string>, isDeleted: bool)

  /** A one-time code sent to a phone. `userId` is nullable and `userType`
      exists since the later migrations of the table. */
  datatype PhoneVerification = PhoneVerification(
    userId: Option<Id>,
    phoneNumber: string,
    verificationCode: string,
    expiresAt: Time,
    isUsed: bool,
    verifiedAt: Option<Time>,
    userType: string,
    createdAt: Time,
    isDeleted: bool)

  /** The fare parameters of one vehicle type (decimals as reals). */
  datatype PriceConfiguration = PriceConfiguration(
    vehicleType: VehicleType,
    basePrice: real,
    pricePerKm: real,
    pricePerMinute: real,
    minimumPrice: real,
    isActive: bool,
    description: Option<string>,
    isDeleted: bool)
}
