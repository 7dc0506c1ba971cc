# DriveApp service core in Dafny

DriveApp is a ride-hailing backend written in C# on ASP.NET Core and Entity
Framework Core. Passengers request trips. Drivers register, are reviewed,
upload documents, register vehicles, go online, and accept, drive and
complete trips. Fares come from one price configuration per vehicle type.
Accounts sign in with one-time codes sent to their phone. Roles carry
permissions.

This project models the services that implement those rules. The
database is one immutable value (`Store.Db`) with a table per entity set.
Every service call is a pure function from a `Db` (plus its arguments) to
a result and the new `Db`. Errors are `Result` values, one `Error`
constructor per throw site.

These Entity Framework behaviours are modelled explicitly:

- **Soft delete.** Every entity has an IsDeleted flag. The context's
  global query filter hides deleted rows from every query, and each
  lookup goes through a `...Visible` predicate.
- **Unique indexes.** They ignore that filter, so a soft-deleted row still
  blocks a new one. This applies to User.PhoneNumber, the two link tables,
  and the one-to-one Driver.UserId and Passenger.UserId. A violation is
  `Err(UniqueIndexViolation)`, with nothing saved.
- **FirstOrDefault without ordering.** The database may return any
  matching row. The model fixes one choice, the row of least key (see
  `Store.Least` under Left out).
- **Required navigations.** An `Include` of a required navigation whose
  target is hidden drops the parent row, as the inner join does.

Modules follow the services:

| module | covers |
|---|---|
| `Common` | Option, Result, Error, Time, partial-update predicates |
| `Models` | entities and enums |
| `Store` | tables and the visibility rules |
| `Mappers` | DTO-to-entity helpers |
| `Pricing` | PriceConfigurationService, and `Math.Round` to cents with ties to even |
| `Trips` | TripService |
| `TripLifecycle` | the invariant the trip operations keep |
| `Auth` | AuthService: phone normalisation, code request and verification |
| `Documents`, `Drivers`, `Vehicles` | the driver-side services |
| `LinkSync` | the link-table rewrite loops shared by roles and users |
| `Roles`, `Users` | RoleService and UserService |
| `Passengers` | PassengerService |

Inputs the code cannot compute become parameters:

- Guid generation becomes a fresh-key argument with a `requires` that the
  key is unused.
- The random code draw becomes the drawn number.
- `DateTime.UtcNow` becomes `now`.
- The Haversine distance becomes a caller-supplied `DistanceFn`.
- The current user's name becomes a string argument.
- The path the upload is stored under becomes an argument.

Time is counted in 100 ns ticks. Decimals are reals.

User.cs declares FirstName and LastName but no FullName. The driver,
passenger and user registration paths all assign FullName, so `User`
carries a `fullName` field.

PhoneVerification.cs declares a non-nullable UserId and no UserType.
AuthService.cs:115-121 assigns `UserId = user?.Id`, which is null for an
unknown number, and sets UserType. The model follows AuthService: a
record's `userId` is an `Option` and the record carries a `userType`. Under the declared
type, a record for a number no user holds would carry an empty Guid
against a required foreign key; the model does not follow that reading.

## Model

| member | source | states |
|---|---|---|
| Common.WholeMinutesOfAddMinutes | Services/Trips/TripService.cs:1133 | the whole minutes between t and t plus m minutes are m, for negative m too |
| Common.WholeMinutes | Services/Trips/TripService.cs:1133 | `(int)TimeSpan.TotalMinutes`: the elapsed whole minutes truncated toward zero, never more than the span and less than one minute short of it |
| Store.Least | Services/Drivers/DriverService.cs:60-137 | the row an unordered FirstOrDefault returns: none exactly for an empty set, otherwise a member no greater than any other |
| Mappers.UpdateUserFromDto | Services/Helpers/MapperHelpers.cs:46-55 | each supplied field (names, e-mail, birth date, active flag) is written, each absent one kept, nothing else changes |
| Mappers.UpdateRoleFromDto | Services/Helpers/MapperHelpers.cs:80-86 | name and description are patched when supplied; type, system flag and deletion stay |
| Mappers.DriverFromRegistration | Services/Helpers/MapperHelpers.cs:112-122 | a registered driver starts Pending, offline, unrated, with no trips and no review |
| Mappers.UpdateDriverStatus | Services/Helpers/MapperHelpers.cs:124-139 | the new status is set; an approval stamps reviewer and time; a rejection records the reason; other fields stay |
| Mappers.VehicleFromDto | Services/Helpers/MapperHelpers.cs:159-171 | a new vehicle belongs to the given driver, is active and unverified, and carries the DTO's description |
| Mappers.UpdateVehicleFromDto | Services/Helpers/MapperHelpers.cs:173-185 | every supplied field is written and every absent one kept; owner, verification and deletion stay |
| Mappers.DocumentFromUpload | Services/Helpers/MapperHelpers.cs:206-219 | an uploaded document carries its owner ids, path, name, size and type and starts unverified |
| Mappers.UpdateVerification | Services/Helpers/MapperHelpers.cs:221-239 | an approval stamps verifier and time and clears the reason; a rejection clears the stamps and records the reason |
| Mappers.UpdatePassengerFromDto | Services/Helpers/MapperHelpers.cs:266-272 | the payment method is written only when supplied; nothing else changes |
| Mappers.FavoriteLocationFromDto | Services/Helpers/MapperHelpers.cs:287-297 | a new favourite location belongs to the passenger and carries the DTO's name, address and position |
| Mappers.UpdateFavoriteLocationFromDto | Services/Helpers/MapperHelpers.cs:299-309 | each supplied field (name, address, latitude, longitude) is written, each absent one kept |
| Mappers.TripFromRequest | Services/Helpers/MapperHelpers.cs:356-379 | a new trip is Requested now, at the quoted price, with no driver, vehicle, later timestamps, final price, samples, rating or payment |
| Mappers.RatingFromPassengerDto | Services/Helpers/MapperHelpers.cs:395-404 | a passenger's rating record carries the score and comment and no driver score |
| Mappers.PaymentFromProcessDto | Services/Helpers/MapperHelpers.cs:427-440 | a processed payment carries the amount and method and is paid now |
| Mappers.PriceConfigurationFromDto | Services/Helpers/MapperHelpers.cs:492-504 | a new configuration carries the DTO's type and rates and is active |
| Mappers.UpdatePriceConfigurationFromDto | Services/Helpers/MapperHelpers.cs:506-516 | each supplied rate, flag or description is written, each absent one kept; the vehicle type never changes |
| Mappers.UpdatesAreIdempotent | Services/Helpers/MapperHelpers.cs:46-55 | applying a user, vehicle or price-configuration partial update twice equals applying it once |
| Mappers.LatestVerdictWins | Services/Helpers/MapperHelpers.cs:221-239 | after two verdicts the document equals the one the second verdict alone produces |
| Pricing.RoundHalfEven | Services/System/PriceConfigurationService.cs:109 | the integer nearest to y, within one half of it, an exact half going to the even neighbour |
| Pricing.RoundHalfEvenMonotone | Services/System/PriceConfigurationService.cs:109 | rounding preserves the order of its arguments |
| Pricing.RoundToCents | Services/System/PriceConfigurationService.cs:109 | `Math.Round(x, 2)`: a whole number of cents within half a cent of x |
| Pricing.RoundToCentsKeepsCents | Services/System/PriceConfigurationService.cs:109 | an amount already in cents is unchanged by rounding |
| Pricing.RoundToCentsMonotone | Services/System/PriceConfigurationService.cs:109 | rounding to cents preserves order |
| Pricing.ChargedFare | Services/System/PriceConfigurationService.cs:98-107 | base plus per-km plus per-minute, raised to the minimum when below it |
| Pricing.Fare | Services/System/PriceConfigurationService.cs:98-109 | the charged amount rounded to cents |
| Pricing.FareAtLeastMinimum | Services/System/PriceConfigurationService.cs:105-109 | with a whole-cent minimum no fare is below the minimum |
| Pricing.FareBelowMinimumIsMinimum | Services/System/PriceConfigurationService.cs:105-109 | a ride whose raw fare is below a whole-cent minimum costs exactly the minimum |
| Pricing.FareMonotone | Services/System/PriceConfigurationService.cs:98-109 | with non-negative rates a longer and slower ride never costs less |
| Pricing.GetPriceConfigurationByVehicleType | Services/System/PriceConfigurationService.cs:32-41 | some active non-deleted configuration of that type, and none only when no such exists |
| Pricing.CalculateTripPrice | Services/System/PriceConfigurationService.cs:90-110 | fails exactly when the type has no active configuration; otherwise the fare under the configuration the lookup returns |
| Pricing.CreatePriceConfiguration | Services/System/PriceConfigurationService.cs:43-58 | refused while any live configuration of that type exists, active or not; otherwise exactly one row is added |
| Pricing.UpdatePriceConfiguration | Services/System/PriceConfigurationService.cs:60-72 | none for a missing id; otherwise only that row changes, by the partial update |
| Pricing.DeletePriceConfiguration | Services/System/PriceConfigurationService.cs:74-88 | false and unchanged for a missing id; otherwise only that row's deletion flag is set |
| Pricing.CreateKeepsOnePerType | Services/System/PriceConfigurationService.cs:43-58 | creation keeps at most one live configuration per vehicle type |
| Pricing.UpdateKeepsOnePerType | Services/System/PriceConfigurationService.cs:60-72 | an update keeps at most one live configuration per vehicle type |
| Pricing.DeleteKeepsOnePerType | Services/System/PriceConfigurationService.cs:74-88 | a deletion keeps at most one live configuration per vehicle type |
| Pricing.LookupFindsTheConfiguration | Services/System/PriceConfigurationService.cs:32-41 | under that invariant the lookup returns the one active configuration of the type, whatever the table order |
| Pricing.CreatedConfigurationPricesTrips | Services/System/PriceConfigurationService.cs:90-110 | a configuration just created active prices every ride of its type from exactly its parameters |
| Trips.EstimatedDuration | Services/Trips/TripService.cs:754 | the whole minutes of a ride at 40 km/h, truncated |
| Trips.CalculateEstimatedPrice | Services/Trips/TripService.cs:744-762 | the fare of the straight-line distance at the estimated duration; fails without an active configuration |
| Trips.PriceOfTrip | Services/Trips/TripService.cs:710-739 | the fare for the recorded distance, else the straight line, at the actual, else estimated, else zero minutes |
| Trips.CalculateTripPrice | Services/Trips/TripService.cs:700-740 | fails for a missing trip; otherwise the trip's fare |
| Trips.RequestTrip | Services/Trips/TripService.cs:122-189 | refused for a missing passenger, a passenger with an active trip, or no active fare; otherwise exactly one Requested trip is added at the estimated fare |
| Trips.CreateTrip | Services/Trips/TripService.cs:958-1025 | the request with the passenger named in the DTO, with the same outcomes |
| Trips.AcceptTrip | Services/Trips/TripService.cs:1027-1098 | the checks in source order (trip with passenger, Requested, driver available, driver free, vehicle usable); on success only that trip becomes Accepted with driver and vehicle |
| Trips.MarkDriverArrived | Services/Trips/TripService.cs:331-358 | only an Accepted trip moves to DriverArrived, stamped now; nothing else changes |
| Trips.StartTrip | Services/Trips/TripService.cs:360-387 | only a DriverArrived trip moves to InProgress, stamped now; nothing else changes |
| Trips.Finished | Services/Trips/TripService.cs:1117-1135 | Completed now, the final position appended, the elapsed whole minutes as actual duration when started |
| Trips.CountCompletion | Services/Trips/TripService.cs:1140-1151 | the passenger's trip count and, when the driver is visible, the driver's go up by exactly one |
| Trips.CompleteTrip | Services/Trips/TripService.cs:1100-1162 | only an InProgress trip completes; its final price bills the actual duration; counters go up by one; without a fare nothing is saved |
| Trips.CancelTrip | Services/Trips/TripService.cs:444-474 | a trip neither Completed nor Cancelled becomes Cancelled now with the reason and canceller as passed; finished trips are refused |
| Trips.CancelTripAsWritten | Endpoints/Trips/TripEndpoints.cs:150-162 | the endpoint's call binds the canceller to the reason parameter and the reason to the canceller parameter |
| Trips.CancelTripCorrected | Services/Trips/ITripService.cs:38 | the cancellation with the reason and canceller bound by meaning |
| Trips.CancelEndpointSwapsFields | Endpoints/Trips/TripEndpoints.cs:157 | through the endpoint as written, a cancellation stores the canceller as the reason and the reason as the canceller |
| Trips.OverrideCompletionAsWritten | Services/Trips/TripService.cs:215-224 | the price is taken before the actual duration is set, so it bills the previous duration |
| Trips.OverrideCompletion | Services/Trips/TripService.cs:215-236 | with the duration set first, the final price bills the elapsed minutes since start |
| Trips.UpdateTripStatus | Services/Trips/TripService.cs:191-248 | any status on any visible trip; Cancelled records time, reason and user; Completed prices and counts; other statuses change only the status |
| Trips.OverrideCompletionsAgree | Services/Trips/TripService.cs:215-224 | the two pricing orders give the same trip when it never started or its duration already equals the elapsed minutes |
| Trips.UpdateTripStatusAsWritten | Services/Trips/TripService.cs:191-248 | as the corrected override except that Completed prices before setting the duration; it succeeds exactly when the corrected one does |
| Trips.UpdateTripStatusVersionsAgree | Services/Trips/TripService.cs:191-248 | the as-written and corrected overrides save the same state unless a started trip's duration differs from the elapsed minutes |
| Trips.OverrideBillsStaleDuration | Services/Trips/TripService.cs:219-223 | for a ride started 30 minutes ago at a per-minute rate, the override as written bills 0.00 and the corrected one 30.00 |
| Trips.AddTripLocation | Services/Trips/TripService.cs:1164-1206 | only an Accepted, DriverArrived or InProgress trip gets one sample stamped now; nothing else changes |
| Trips.Rated | Services/Trips/TripService.cs:1259-1325 | the submitting side's score and comment are overwritten, the other side's kept; a new record is stamped now |
| Trips.DriverScores | Services/Trips/TripService.cs:1339-1341 | one passenger score per live trip of the driver whose score is positive |
| Trips.PassengerScores | Services/Trips/TripService.cs:1358-1360 | one driver score per live trip of the passenger that the driver rated |
| Trips.SumScoresBounds | Services/Trips/TripService.cs:1345 | n scores on the 1..5 scale sum to between n and 5n |
| Trips.Mean | Services/Trips/TripService.cs:1345 | `Average`: none for no scores, else the sum over the count |
| Trips.MeanWithinScale | Services/Trips/TripService.cs:1343-1345 | an average of 1..5 scores lies in 1..5 |
| Trips.MeanOfOne | Services/Trips/TripService.cs:1364 | the average of a single score is that score |
| Trips.CheckRating | Services/Trips/TripService.cs:1237-1257 | a missing trip, a trip that is not Completed, and a score outside 1..5 are refused in that order |
| Trips.WithAverage | Services/Trips/TripService.cs:1332-1368 | the rated party's stored rating becomes the mean of the scores, or stays when there are none |
| Trips.AddTripRatingAsWritten | Services/Trips/TripService.cs:1261-1327 | the average is computed before the submission is stored, from the old rating rows |
| Trips.AddTripRating | Services/Trips/TripService.cs:1235-1330 | the rating is stored and the rated party's rating becomes the mean of all its scores, this one included |
| Trips.AddTripPayment | Services/Trips/TripService.cs:1391-1428 | only a Completed trip without payment gets an unpaid payment for the DTO's amount, method and reference |
| Trips.PaymentUpdated | Services/Trips/TripService.cs:1467-1478 | the paid flag as given; the payment time stamped on the first payment only; the reference replaced only by a non-null one |
| Trips.UpdateTripPaymentStatus | Services/Trips/TripService.cs:1451-1486 | fails for a missing trip or payment; otherwise only that payment changes |
| TripLifecycle.ReplaceTrip | Services/Trips/TripService.cs:1027-1098 | replacing a trip by a well-formed one that neither becomes active nor doubles a driver's engagement keeps the invariant |
| TripLifecycle.RequestTripKeepsInvariant | Services/Trips/TripService.cs:133-145 | a request keeps every trip well formed, one active trip per passenger and one engaged trip per driver |
| TripLifecycle.AddUnassignedTrip | Services/Trips/TripService.cs:133-145 | adding a well-formed trip without a driver for a passenger with no active trip keeps the invariant |
| TripLifecycle.AcceptTripKeepsInvariant | Services/Trips/TripService.cs:1027-1098 | acceptance keeps the invariant |
| TripLifecycle.DriverArrivedKeepsInvariant | Services/Trips/TripService.cs:331-358 | arrival keeps the invariant |
| TripLifecycle.StartTripKeepsInvariant | Services/Trips/TripService.cs:360-387 | starting keeps the invariant |
| TripLifecycle.CompleteTripKeepsInvariant | Services/Trips/TripService.cs:1100-1162 | completion keeps the invariant |
| TripLifecycle.CancelTripKeepsInvariant | Services/Trips/TripService.cs:444-474 | cancellation keeps the invariant |
| TripLifecycle.AddTripLocationKeepsInvariant | Services/Trips/TripService.cs:1164-1206 | a route sample keeps the invariant |
| TripLifecycle.AddTripRatingKeepsInvariant | Services/Trips/TripService.cs:1235-1330 | a rating keeps the invariant, scores included |
| TripLifecycle.AddTripPaymentKeepsInvariant | Services/Trips/TripService.cs:1391-1428 | a payment keeps the invariant |
| TripLifecycle.UpdateTripPaymentStatusKeepsInvariant | Services/Trips/TripService.cs:1451-1486 | a payment update keeps the invariant |
| TripLifecycle.RequestedTripQuotedAtLeastMinimum | Services/Trips/TripService.cs:150-157 | a requested trip is quoted at least the configured whole-cent minimum |
| TripLifecycle.CompletedTripPriceIsStoredPrice | Services/Trips/TripService.cs:700-740 | the price asked for a trip just completed is the final price the completion stored |
| TripLifecycle.CompletedTripBillsRideTime | Services/Trips/TripService.cs:1130-1138 | a completed trip's price is at least the minimum and bills the whole minutes from start to completion |
| TripLifecycle.ScoresAreValid | Services/Trips/TripService.cs:1339-1360 | under the invariant every score an average reads is on the 1..5 scale |
| TripLifecycle.RatedAverageWithinScale | Services/Trips/TripService.cs:1332-1368 | after a rating the rated party's average lies in 1..5 |
| TripLifecycle.FirstRatingMissedAsWritten | Services/Trips/TripService.cs:1270-1293 | on a driver's first rating the corrected operation sets the average to the new score, the operation as written leaves it unchanged |
| TripLifecycle.FirstStoredRatingIsTheAverage | Services/Trips/TripService.cs:1332-1349 | with the rating stored first, a driver's first score becomes the driver's average |
| TripLifecycle.SoleDriverScore | Services/Trips/TripService.cs:1339-1341 | a driver without scores who is scored on one trip has exactly that score in the query |
| Auth.KeepDialChars | Services/AuthService.cs:55 | exactly the digits and plus signs of s, in order |
| Auth.KeepDialCharsAppend | Services/AuthService.cs:55 | filtering a concatenation filters each part |
| Auth.KeepDialCharsOfDialString | Services/AuthService.cs:55 | a string of digits and plus signs passes the filter whole |
| Auth.TrimLeadingZeros | Services/AuthService.cs:61 | `TrimStart('0')`: a suffix of s with no leading zero, from which only zeros were removed |
| Auth.NormalizePhone | Services/AuthService.cs:54-65 | the result consists of digits and plus signs and begins with '+'; a number without '+' becomes +93 and its digits without leading zeros |
| Auth.NormalizePhoneIdempotent | Services/AuthService.cs:150-161 | normalising a normalised number changes nothing, so verification's second normalisation is harmless |
| Auth.NormalizePhoneIgnoresSeparators | Services/AuthService.cs:55 | inserting separators into a number does not change its normal form |
| Auth.NationalAndInternationalFormsAgree | Services/AuthService.cs:57-65 | a national number with or without its trunk zero and its +93 form normalise alike |
| Auth.DecimalText | Services/AuthService.cs:33 | `int.ToString`: ASCII digits without a leading zero |
| Auth.DecimalValueOfText | Services/AuthService.cs:33 | reading back the decimal text of a number gives the number |
| Auth.DecimalTextOfValue | Services/AuthService.cs:33 | a digit string without leading zero is the decimal text of its value |
| Auth.DecimalTextLength | Services/AuthService.cs:33 | a number in [10^(k-1), 10^k) has k digits |
| Auth.GenerateVerificationCode | Services/AuthService.cs:30-34 | the code for a draw in [100000, 1000000) is a six-digit code without leading zero whose value is the draw |
| Auth.EveryCodeIsGenerated | Services/AuthService.cs:30-34 | every six-digit code is the code of exactly one draw in the range |
| Auth.NormalizedUserType | Services/AuthService.cs:47-52 | "driver" when asked for, otherwise "passenger" |
| Auth.StoredCode | Services/AuthService.cs:82-124 | the pending record of the number is refreshed with the code for ten minutes, or a new record linked to the holder is added; every other record is kept |
| Auth.RequestPhoneVerification | Services/AuthService.cs:37-137 | a blank number is refused; otherwise the normalised number's pending record is reused or a new one linked to its holder is added, valid ten minutes, nothing else changes |
| Auth.LatestVerification | Services/AuthService.cs:175-178 | the most recently created record for the number, none only when there is none |
| Auth.LatestAmong | Services/AuthService.cs:175-178 | `OrderByDescending(CreatedAt).FirstOrDefault()`: none exactly for an empty set, else a member created no earlier than any other |
| Auth.FailureFor | Services/AuthService.cs:174-195 | the failure reported is decided by the latest record: none, used, expired, or usable with another code |
| Auth.SignIn | Services/AuthService.cs:206-238 | the visible holder of the number is marked verified and logged in now, or a new verified user is created |
| Auth.MarkUsed | Services/AuthService.cs:200-202 | the matched record is used and stamped now; nothing else changes |
| Auth.CompleteVerification | Services/AuthService.cs:198-240 | unless the new user would break the phone index, the record is consumed and the holder signed in; otherwise nothing is saved |
| Auth.VerifyPhoneNumber | Services/AuthService.cs:140-259 | blank inputs are refused; success exactly when a usable record carries the code, otherwise the latest record's failure |
| Auth.InvalidCodeMeansLatestCodeDiffers | Services/AuthService.cs:192-195 | "invalid code" means the latest record is usable but carries another code |
| Auth.FailureDescribesLatestRecord | Services/AuthService.cs:180-191 | "already used" and "expired" describe the latest record |
| Auth.RequestThenVerifySucceeds | Services/AuthService.cs:82-126 | a requested code verifies within its ten minutes, in any format of the number, when no deleted user holds it |
| Documents.LowerChar | Services/Drivers/DocumentService.cs:107 | `char.ToLower` on A-Z, U+0130 and U+212A; other characters unchanged |
| Documents.ToLower | Services/Drivers/DocumentService.cs:107 | the string lower-cased character by character, of the same length |
| Documents.ToLowerIdempotent | Services/Drivers/DocumentService.cs:107 | lower-casing twice is lower-casing once |
| Documents.ContentTypeIgnoresCase | Services/Drivers/DocumentService.cs:106-110 | a content type is accepted exactly when its lower-case form is |
| Documents.UploadDocument | Services/Drivers/DocumentService.cs:66-149 | the checks in source order (an owner, the driver, the vehicle, size at most 10 MiB, an allowed type); a passing upload adds one unverified document |
| Documents.CreateDocument | Services/Drivers/DocumentService.cs:151-168 | a request without a file is refused; otherwise it is the upload of that file |
| Documents.UpdateDocument | Services/Drivers/DocumentService.cs:170-193 | a missing document is refused; the type is always written; the reason only when not blank |
| Documents.DeleteDocument | Services/Drivers/DocumentService.cs:195-213 | false and unchanged for a missing document; otherwise only its deletion flag is set |
| Documents.VerifyDocumentWithDetails | Services/Drivers/DocumentService.cs:215-236 | the DTO's verdict applied to a visible document, stamped with the current user and time when positive |
| Documents.VerifyDocument | Services/Drivers/DocumentService.cs:238-259 | approval clears any rejection reason; false for a missing document |
| Documents.RejectDocument | Services/Drivers/DocumentService.cs:261-282 | rejection records the reason and clears any approval; false for a missing document |
| Documents.PlainVerdictsAreDetailedVerdicts | Services/Drivers/DocumentService.cs:238-282 | approve and reject equal the detailed verdict with a fixed DTO |
| Documents.LatestDocumentVerdictWins | Services/Drivers/DocumentService.cs:215-236 | a later verdict overrides an earlier one entirely |
| Documents.UploadKeepsDocumentsWellFormed | Services/Drivers/DocumentService.cs:66-149 | an upload keeps every document owned, within size, of an allowed type, and with a consistent verdict |
| Documents.ReplaceDocument | Services/Drivers/DocumentService.cs:170-193 | replacing one document by a well-formed one keeps the table well formed |
| Documents.UpdateKeepsDocumentsWellFormed | Services/Drivers/DocumentService.cs:170-193 | an update keeps the table well formed |
| Documents.DeleteKeepsDocumentsWellFormed | Services/Drivers/DocumentService.cs:195-213 | a delete keeps the table well formed |
| Documents.VerdictsKeepDocumentsWellFormed | Services/Drivers/DocumentService.cs:215-282 | every verdict keeps the table well formed |
| Drivers.DriverRoleId | Services/Drivers/DriverService.cs:60-137 | some visible role of type Driver, none only when there is none |
| Drivers.NewDriverUser | Services/Drivers/DriverService.cs:60-137 | a registration's new user holds the number, unverified, active, with the DTO's name, e-mail and birth date |
| Drivers.RegisteredDb | Services/Drivers/DriverService.cs:60-137 | a registration writes the user when new, one Pending driver row, and the Driver role link when the role exists |
| Drivers.CreateDriver | Services/Drivers/DriverService.cs:60-137 | refused when the number's holder has a live profile; a unique-index failure saves nothing; otherwise exactly the registration rows |
| Drivers.SetDriverStatus | Services/Drivers/DriverService.cs:139-156 | refused exactly when the driver or its user is hidden, since the lookup includes the user; otherwise only that driver changes, by the review rule |
| Drivers.ToggleDriverOnlineStatus | Services/Drivers/DriverService.cs:261-284 | a missing driver is refused; going online needs Approved; otherwise only the online flag changes |
| Drivers.DeleteDriver | Services/Drivers/DriverService.cs:158-175 | a missing driver is refused; otherwise only its deletion flag is set |
| Drivers.UpdateDriverLocation | Services/Drivers/DriverService.cs:177-207 | the position and its time are overwritten and exactly one history record is appended |
| Drivers.GetNearbyDrivers | Services/Drivers/DriverService.cs:209-244 | exactly the online approved live drivers of visible users with a position at most five minutes old within the radius |
| Drivers.RegistrationCreatesPendingProfile | Services/Drivers/DriverService.cs:60-137 | after a registration the registrant holds the number and has a live Pending profile |
| Drivers.SecondRegistrationIsRefused | Services/Drivers/DriverService.cs:60-137 | registering the same number again is refused as already registered |
| Drivers.CreateDriverKeepsOneRowPerUser | Services/Drivers/DriverService.cs:60-137 | registration keeps at most one driver row per user |
| Drivers.ReplaceDriverKeepsOnlineApproved | Services/Drivers/DriverService.cs:261-284 | changing one driver to one approved whenever online keeps every online driver approved |
| Drivers.CreateDriverKeepsOnlineApproved | Services/Drivers/DriverService.cs:60-137 | registration keeps every online driver approved |
| Drivers.ToggleKeepsOnlineApproved | Services/Drivers/DriverService.cs:261-284 | the online toggle keeps every online driver approved |
| Drivers.DeleteAndMoveKeepOnlineApproved | Services/Drivers/DriverService.cs:158-207 | deletion and position updates keep every online driver approved |
| Drivers.ReviewedDriverIsNoLongerMatched | Services/Drivers/DriverService.cs:209-244 | a review away from Approved leaves a driver online but out of every nearby search |
| Drivers.DriverOfDeletedUserIsHidden | Services/Drivers/DriverService.cs:141-143 | a driver whose user is deleted cannot be reviewed and is never matched |
| Drivers.FreshPositionIsMatched | Services/Drivers/DriverService.cs:209-244 | after a report an online approved driver is matched exactly while the report is at most five minutes old and within the radius |
| Vehicles.CreateVehicle | Services/Drivers/VehicleService.cs:64-84 | a missing driver is refused; otherwise exactly one vehicle is added |
| Vehicles.UpdateVehicle | Services/Drivers/VehicleService.cs:86-104 | a missing vehicle is refused; otherwise only that vehicle changes, by the partial update |
| Vehicles.NewVehicleAwaitsVerification | Services/Drivers/VehicleService.cs:64-156 | a new vehicle serves no trip until verified; then it serves exactly its own driver's trips |
| Vehicles.UpdateVehicleIsIdempotent | Services/Drivers/VehicleService.cs:86-104 | the same update twice equals once; documents stay well formed; usability kept when the active and verified flags are not supplied |
| Vehicles.VerifyVehicle | Services/Drivers/VehicleService.cs:138-156 | a missing vehicle is refused; otherwise only its verified flag is set |
| Vehicles.DeleteVehicle | Services/Drivers/VehicleService.cs:106-136 | a missing vehicle is refused; otherwise the vehicle and its documents are soft-deleted, every other row kept |
| Vehicles.DeleteVehicleHidesExactlyItsDocuments | Services/Drivers/VehicleService.cs:106-136 | the visible documents afterwards are those before less the vehicle's |
| Vehicles.DeletedVehicleIsUnusable | Services/Drivers/VehicleService.cs:106-136 | a deleted vehicle cannot be deleted again nor serve a trip |
| Vehicles.VerifiedVehicleIsUsable | Services/Drivers/VehicleService.cs:138-156 | a verified vehicle serves its own driver's trips exactly when active |
| Vehicles.DeleteVehicleKeepsDocumentsWellFormed | Services/Drivers/VehicleService.cs:106-136 | the cascade keeps the document table well formed |
| LinkSync.Targets | Services/Users/RoleService.cs:88-90 | the targets linked to an owner, exactly |
| LinkSync.Inserted | Services/Users/RoleService.cs:102-116 | the ids the insert loop adds: listed, not linked before, valid |
| LinkSync.InsertsRepeatIff | Services/Users/RoleService.cs:102-116 | the loop adds some pair twice exactly when an id it adds is listed twice |
| LinkSync.SyncedTargets | Services/Users/RoleService.cs:88-116 | after both loops an id is linked exactly when listed and linked before or valid |
| LinkSync.Relinked | Services/Users/RoleService.cs:88-116 | the owner's links replaced by the new targets, every other owner's kept |
| LinkSync.SyncAsWritten | Services/Users/RoleService.cs:84-120 | fails exactly on a repeated id that gets inserted; otherwise the relinked table |
| LinkSync.Sync | Services/Users/RoleService.cs:84-120 | the list read as a set: the owner's targets are the listed ids linked before or valid, other owners untouched |
| LinkSync.SyncAsWrittenAgreesUnlessRepeated | Services/Users/RoleService.cs:84-120 | when the loops succeed they agree with the set reading, and they succeed on a list without repeats |
| LinkSync.RepeatedNewTargetFails | Services/Users/RoleService.cs:102-116 | listing a new valid target twice fails as written and links it under the set reading |
| Roles.RoleFromDto | Services/Helpers/MapperHelpers.cs:70-78 | a new role carries the DTO's name, description and type and is not a system role |
| Roles.CreateRoleAsWritten | Services/Users/RoleService.cs:39-70 | a taken name is refused; a repeated permission fails SaveChanges; otherwise it agrees with `CreateRole` |
| Roles.CreateRole | Services/Users/RoleService.cs:39-70 | a name held by any visible role is refused; otherwise one role is added holding exactly the listed visible permissions |
| Roles.UpdateRoleAsWritten | Services/Users/RoleService.cs:72-123 | a missing role is refused, a system role may not change, a repeated new permission fails; otherwise it agrees with `UpdateRole` |
| Roles.UpdateRole | Services/Users/RoleService.cs:72-123 | name and description patched; with a list the role holds exactly the listed ids it held or that are visible |
| Roles.DeleteRole | Services/Users/RoleService.cs:125-148 | false for a missing role; a system role or an assigned role is refused; otherwise a soft delete |
| Users.DeleteRoleKeepsPermissions | Services/Users/RoleService.cs:125-148 | deleting a role changes no user's permissions, because an assigned role is refused |
| Roles.AddPermissionToRole | Services/Users/RoleService.cs:150-177 | false when role or permission is missing; otherwise the link is present afterwards and nothing else changes |
| Roles.RemovePermissionFromRole | Services/Users/RoleService.cs:179-191 | true exactly when the link existed; the link is absent afterwards and nothing else changes |
| Roles.AddPermissionIsIdempotent | Services/Users/RoleService.cs:150-177 | granting twice is granting once |
| Roles.GrantAndRevokeAreInverse | Services/Users/RoleService.cs:150-191 | revoking a fresh grant restores the table; granting after a revoke restores it |
| Roles.UpdateGrantsExactlyTheListedPermissions | Services/Users/RoleService.cs:84-117 | a role holding only visible permissions ends up holding exactly the listed visible ones |
| Roles.RoleNamesStayTaken | Services/Users/RoleService.cs:41-44 | a role created under a name cannot be created again under it |
| Roles.RepeatedPermissionFailsUpdate | Services/Users/RoleService.cs:102-116 | an update listing a new visible permission twice fails as written |
| Roles.RepeatedPermissionFailsCreate | Services/Users/RoleService.cs:50-67 | a creation listing a visible permission twice fails as written |
| Users.UserFromCreateDto | DTOs/Users/CreateUserDto.cs:21-33 | a created user carries the DTO's number, name, e-mail and birth date, verified and active |
| Users.CreateUserAsWritten | Services/Users/UserService.cs:55-87 | whenever it succeeds it agrees with `CreateUser`; it fails beyond it exactly on a repeated visible role |
| Users.CreateUser | Services/Users/UserService.cs:55-87 | a number held by a visible user is refused, one held by a deleted user fails on the index; otherwise the user is added holding exactly the listed visible roles |
| Users.UpdateUserAsWritten | Services/Users/UserService.cs:89-137 | fails exactly on a repeated role the loops insert; otherwise it agrees with `UpdateUser` |
| Users.UpdateUser | Services/Users/UserService.cs:89-137 | false for a missing user; the partial update; with a list the user holds exactly the listed ids it held or that are visible |
| Users.DeleteUser | Services/Users/UserService.cs:139-153 | false for a missing user; otherwise only its deletion flag is set |
| Users.AddRoleToUser | Services/Users/UserService.cs:183-211 | false when user or role is missing; otherwise the link is present afterwards and nothing else changes |
| Users.RemoveRoleFromUser | Services/Users/UserService.cs:213-225 | true exactly when the link existed; the link is absent afterwards and nothing else changes |
| Users.HasPermission | Services/Users/UserService.cs:227-242 | true exactly when the user is visible and one of its visible roles carries a visible permission of that name |
| Users.ChosenRecord | Services/Users/UserService.cs:298-305 | the latest usable record of the number carrying the code, none exactly when there is none |
| Users.VerifyPhoneNumber | Services/Users/UserService.cs:295-356 | no match or no visible owner saves nothing; otherwise the chosen record is consumed, the owner verified, and reported new when it was unverified |
| Users.GenerateVerificationCodeAsWritten | Services/Users/UserService.cs:496-500 | the code for a draw in [100000, 999999) is the six-digit text of the draw |
| Users.RepeatedRoleFailsCreate | Services/Users/UserService.cs:66-84 | a creation listing a visible role twice fails as written and links it under the set reading |
| Users.RepeatedRoleFailsUpdate | Services/Users/UserService.cs:114-134 | an update listing a new visible role twice fails as written and links it under the set reading |
| Users.PhoneNumbersStayUnique | Services/Users/UserService.cs:57-60 | after a creation, another creation with that number is refused |
| Users.AssigningRoleGrantsItsPermissions | Services/Users/UserService.cs:183-242 | assigning a visible role grants the user every permission it carries |
| Users.AssigningRoleIsMonotone | Services/Users/UserService.cs:183-242 | assigning a role takes no permission from anyone |
| Users.RemovingOnlyGrantingRoleRevokes | Services/Users/UserService.cs:213-242 | removing the only role granting a permission revokes it |
| Users.DeletedUserHasNoPermission | Services/Users/UserService.cs:139-242 | a deleted user holds no permission |
| Users.UpdatedRolesDecidePermissions | Services/Users/UserService.cs:97-131 | after an update with a list, the permissions come from exactly the listed visible roles |
| Users.ConfirmationConsumesTheRecord | Services/Users/UserService.cs:316-318 | the confirmed record never matches again and the others still match |
| Users.SecondConfirmationIsNotNew | Services/Users/UserService.cs:336-337 | a later confirmation of the same user reports it as not new |
| Users.UserServiceNeverDrawsTopCode | Services/Users/UserService.cs:499 | the code as written is never 999999, a code the authentication service does generate |
| Passengers.PassengerRoleId | Services/Passengers/PassengerService.cs:114-115 | some visible role of type Passenger, none only when there is none |
| Passengers.NewPassengerUser | Services/Passengers/PassengerService.cs:58-65 | a registration's new user holds the number, unverified and active, with the DTO's name and e-mail |
| Passengers.FillBlank | Services/Passengers/PassengerService.cs:75-85 | the stored value is kept unless blank; the result is blank only when both are |
| Passengers.NewPassenger | Services/Passengers/PassengerService.cs:103-109 | a new profile starts with rating 0 and no trips, with the DTO's payment method |
| Passengers.RegisteredDb | Services/Passengers/PassengerService.cs:54-133 | a registration writes the new or merged user, one profile, and the Passenger role link when the role exists |
| Passengers.CreatePassenger | Services/Passengers/PassengerService.cs:48-141 | refused when the holder of the number has a live profile; a unique-index failure saves nothing; otherwise exactly the registration rows |
| Passengers.UpdatePassenger | Services/Passengers/PassengerService.cs:143-166 | refused exactly when the profile or its user is hidden, since the lookup includes the user; otherwise only its payment method, when supplied |
| Passengers.UpdatePassengerIsIdempotent | Services/Passengers/PassengerService.cs:143-166 | the same update twice equals once, and one row per user is kept |
| Passengers.DeletePassenger | Services/Passengers/PassengerService.cs:168-185 | a missing profile is refused; otherwise only its deletion flag is set |
| Passengers.AddFavoriteLocation | Services/Passengers/PassengerService.cs:219-243 | a missing profile is refused; otherwise exactly one location is added |
| Passengers.UpdateFavoriteLocation | Services/Passengers/PassengerService.cs:245-267 | a missing location is refused; otherwise only its supplied fields change |
| Passengers.DeleteFavoriteLocation | Services/Passengers/PassengerService.cs:269-286 | a missing or deleted location is refused; otherwise a soft delete of it alone |
| Passengers.MergeFillsOnlyBlanks | Services/Passengers/PassengerService.cs:75-85 | the merge never overwrites a non-blank name or e-mail, fills blank ones from non-blank offers, and is idempotent |
| Passengers.RegistrationCreatesProfile | Services/Passengers/PassengerService.cs:102-111 | after a registration the registrant holds the number and has a live profile with rating 0 and no trips |
| Passengers.SecondRegistrationIsRefused | Services/Passengers/PassengerService.cs:93-99 | registering the same number again is refused as already registered |
| Passengers.DeletedProfileBlocksReRegistration | Services/Passengers/PassengerService.cs:93-99 | after a profile is deleted its owner passes the profile check but fails on the Passenger.UserId index |
| Passengers.CreatePassengerKeepsOneRowPerUser | Services/Passengers/PassengerService.cs:102-111 | registration keeps at most one passenger row per user |
| Passengers.UpdateFavoriteLocationIsIdempotent | Services/Passengers/PassengerService.cs:256-259 | applying the same location update twice equals applying it once |
| Passengers.DeleteFavoriteLocationHidesIt | Services/Passengers/PassengerService.cs:271-279 | a delete hides exactly that location of its profile, and a second delete is refused |
| Passengers.AddFavoriteLocationListsIt | Services/Passengers/PassengerService.cs:219-243 | a new location is listed with the profile's others |

## Left out

- Reads that change nothing are not modelled, except GetNearbyDriversAsync and the price lookups. This covers the other Get* queries, the DTO projections (`ToDto`) and the paging and filtering of trip lists.
- Store.Least: an unordered FirstOrDefault returns an unspecified row in EF Core and SQL. The model picks the least key, which fixes the row in Auth's pending-record and holder lookups (AuthService.cs:82-84, 110-111), in DriverRoleId, PassengerRoleId and the registrant lookups.
- The reloads after SaveChanges are not modelled (TripService.cs:184-188, 1021, 1092; DriverService.cs:133). When the passenger's or driver's user is hidden, the reload finds nothing and `!.ToDto()` throws after the save has committed. The model reports success with the saved state.
- Trips.UpdateTripStatus: models the corrected order of the Completed branch, with the duration set before pricing. The source's order is `Trips.UpdateTripStatusAsWritten`, listed under Findings.
- HTTP endpoints are not modelled, nor JWT creation and validation, refresh tokens and logout. The cancel endpoint is the exception, for its argument binding.
- WebSocket notifications and logging are not modelled, because they do not change the database.
- File storage is not modelled. The stored path is an argument. `Path.GetExtension` and the Guid-based file name are left out.
- Database seeding, migrations and SystemSettingService are not modelled.
- Concurrency is not modelled: each call runs alone on a consistent database.
- Audit columns (CreatedAt, UpdatedAt, CreatedBy, UpdatedBy) are not modelled. The exception is a CreatedAt that a query orders by.
- Several `DateTime.UtcNow` reads within one call are modelled as one `now`.
- The Haversine formula is a parameter. The conversions between double and decimal are not modelled, because floating point is outside the model.
- Integer widths are unbounded. A trip counter overflowing `int` is not modelled.
- TripService.UpdateTripLocationAsync and the two-argument AcceptTripAsync overload are not modelled. Neither is the one-argument CompleteTripAsync overload: the three-argument versions are the ones the endpoints call.
- RateTripByPassengerAsync, RateTripByDriverAsync and ProcessTripPaymentAsync are not modelled; AddTripRatingAsync and AddTripPaymentAsync cover their rules.
- UserService.RequestPhoneVerificationAsync, LoginAsync and RefreshTokenAsync are not modelled; the authentication service's request path is modelled instead.
- The link rows' own IsDeleted flag is not modelled. The services only hard-delete links, so the flag is never set.
- Documents.LowerChar: `ToLower` is modelled on A-Z, U+0130 and U+212A only. Other non-ASCII case mappings are left out, because no allowed content type contains them. The current culture is assumed not to be Turkish or Azeri, where `ToLower` maps I to a dotless i.
- String comparison in the database is modelled as exact equality. Database collation is left out.
- The `CreateUserDto.ToEntity` extension in MapperHelpers is not modelled. The DTO's own instance method shadows it.
- FindAsync is modelled as filtered by soft delete, like every other query.
- Users.VerifyPhoneNumber: PhoneVerifiedAt and LastLoginAt are left untouched, because UserService sets neither.

## Findings

| source | as written | input that shows it | evidently intended | confidence | as-written member | corrected member |
|---|---|---|---|---|---|---|
| Endpoints/Trips/TripEndpoints.cs:157 | the endpoint passes (cancelledBy, reason) in the interface's order, while the implementation declares (reason, cancelledBy) | cancelling with cancelledBy "Passenger" and reason "late" stores reason "Passenger" and canceller "late" | each value stored in its own field | high, not executed | Trips.CancelTripAsWritten | Trips.CancelTripCorrected |
| Services/Trips/TripService.cs:215-224 | the status override prices a completed trip before it sets ActualDuration | a trip started 30 minutes ago with no prior duration, at 1.00 per minute, is billed 0.00 | bill the elapsed minutes, as CompleteTripAsync does | high, not executed | Trips.OverrideCompletionAsWritten | Trips.OverrideCompletion |
| Services/Trips/TripService.cs:1270-1293 | a new rating's average is recomputed before the rating row is added | a driver's first rating of 5 leaves the driver's rating at 0 | the average includes the rating just submitted | high, not executed | Trips.AddTripRatingAsWritten | Trips.AddTripRating |
| Services/Users/RoleService.cs:50-65 | CreateRoleAsync adds one link per listed occurrence of a permission id | PermissionIds [p, p] with p visible fails SaveChanges on the (RoleId, PermissionId) index | a repeated id links the permission once | medium, not executed | Roles.CreateRoleAsWritten | Roles.CreateRole |
| Services/Users/RoleService.cs:101-116 | UpdateRoleAsync checks new ids against the links loaded before the loop, so a repeated new id is added twice | PermissionIds [p, p] for a visible p the role lacks fails SaveChanges | a repeated id links the permission once | medium, not executed | Roles.UpdateRoleAsWritten | Roles.UpdateRole |
| Services/Users/UserService.cs:66-82 | CreateUserAsync adds one link per listed occurrence of a role id | RoleIds [r, r] with r visible fails SaveChanges on the (UserId, RoleId) index | a repeated id links the role once | medium, not executed | Users.CreateUserAsWritten | Users.CreateUser |
| Services/Users/UserService.cs:114-130 | UpdateUserAsync checks new ids against the links loaded before the loop, so a repeated new id is added twice | RoleIds [r, r] for a visible r the user lacks fails SaveChanges | a repeated id links the role once | medium, not executed | Users.UpdateUserAsWritten | Users.UpdateUser |
| Services/Users/UserService.cs:499 | `Random.Next(100000, 999999)` excludes its upper bound | the code 999999 is never generated | every six-digit code, as AuthService.cs:33 draws from [100000, 1000000) | low, not executed | Users.GenerateVerificationCodeAsWritten | Auth.GenerateVerificationCode |
