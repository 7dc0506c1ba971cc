/** Shared vocabulary of the DriveApp model: optional values, the result of a
    service call that may throw, the errors the services raise, time in ticks
    and the whitespace test behind string.IsNullOrWhiteSpace.
 */
module Common {

  /** A nullable value (a C# `T?` or a reference that may be null). */
  datatype Option<+T> = None | Some(value: T) {

    /** The value, or `default` when absent (C#'s `??`). */
    function GetOr(default: T): T {
      match this
      case Some(v) => v
      case None => default
    }
  }

  /** A partial update of a non-nullable field: the value the DTO supplies,
      or the old one when it supplies none. */
  predicate Patched<T(==)>(before: T, patch: Option<T>, after: T) {
    match patch
    case Some(v) => after == v
    case None => after == before
  }

  /** A partial update of a nullable field: a null in the DTO leaves the
      field as it was, so an update can never clear it. */
  predicate PatchedNullable<T(==)>(before: Option<T>, patch: Option<T>, after: Option<T>) {
    match patch
    case Some(v) => after == Some(v)
    case None => after == before
  }

  /** Every exception a modelled service call can raise, one constructor per
      distinct throw site (the message text is not modelled). */
  datatype Error =
    // lookups that come back empty
    | TripNotFound | PassengerNotFound | DriverNotFound | VehicleNotFound
    | UserNotFound | RoleNotFound | DocumentNotFound | FavoriteLocationNotFound
    | PaymentNotFound
    // trip lifecycle guards
    | PassengerHasActiveTrip | TripNotRequested | TripNotAccepted
    | TripNotDriverArrived | TripNotInProgress | TripNotCompleted
    | TripAlreadyFinished | TripNotTrackable
    | DriverNotAvailable | DriverHasActiveTrip | VehicleNotAvailable
    // fares
    | NoActivePriceConfiguration | PriceConfigurationNotFound
    | PriceConfigurationExists
    // ratings and payments
    | RatingOutOfRange | PaymentAlreadyExists
    // phone verification
    | PhoneNumberRequired
    // documents
    | DocumentOwnerRequired | FileRequired | FileTooLarge | FileTypeNotAllowed
    // profiles
    | UserHasDriverProfile | UserHasPassengerProfile | DriverNotApproved
    // roles and users
    | RoleNameExists | SystemRoleNotModifiable | SystemRoleNotDeletable
    | RoleInUse | PhoneNumberExists
    // a unique index rejected SaveChanges
    | UniqueIndexViolation

  /** The outcome of a service call: a value, or the exception it throws.
      Failure-compatible, so `:-` propagates the error. */
  datatype Result<+T> = Ok(value: T) | Err(error: Error) {

    predicate IsFailure() {
      Err?
    }

    function PropagateFailure<U>(): Result<U>
      requires Err?
    {
      Err(error)
    }

    function Extract(): T
      requires Ok?
    {
      value
    }
  }

  /** Entity keys (the source uses Guid; only equality matters). */
  type Id = nat

  /** A point in time as DateTime ticks (100 ns). */
  type Time = int

  const TicksPerMinute: int := 600_000_000

  /** `t.AddMinutes(m)`. */
  function AddMinutes(t: Time, m: int): (r: Time)
    ensures r - t == m * TicksPerMinute
  {
    t + m * TicksPerMinute
  }

  /** The elapsed whole minutes `(int)(later - earlier).TotalMinutes`: the
      cast truncates toward zero, whereas Dafny's own `/` is Euclidean. */
  function WholeMinutes(earlier: Time, later: Time): (m: int)
    ensures earlier <= later ==> 0 <= m * TicksPerMinute <= later - earlier < (m + 1) * TicksPerMinute
    ensures later < earlier ==> (m - 1) * TicksPerMinute < later - earlier <= m * TicksPerMinute <= 0
  {
    var d := later - earlier;
    if d >= 0 then d / TicksPerMinute else -((-d) / TicksPerMinute)
  }

  /** Adding m minutes and then counting the whole minutes elapsed gives m
      back, for either sign of m. */
  lemma WholeMinutesOfAddMinutes(t: Time, m: int)
    ensures WholeMinutes(t, AddMinutes(t, m)) == m
  {
    var d := AddMinutes(t, m) - t;
    assert d == m * TicksPerMinute;
    if m >= 0 {
      assert d / TicksPerMinute == m;
    } else {
      assert -d == (-m) * TicksPerMinute;
      assert (-d) / TicksPerMinute == -m;
    }
  }

  /** char.IsWhiteSpace: Unicode categories Zs, Zl, Zp plus U+0009..U+000D,
      U+0085 and U+00A0. */
  predicate IsWhiteSpace(c: char) {
    ('\U{0009}' <= c <= '\U{000D}') || c == '\U{0020}' || c == '\U{0085}'
    || c == '\U{00A0}' || c == '\U{1680}' || ('\U{2000}' <= c <= '\U{200A}')
    || c == '\U{2028}' || c == '\U{2029}' || c == '\U{202F}' || c == '\U{205F}'
    || c == '\U{3000}'
  }

  /** string.IsNullOrWhiteSpace. */
  predicate IsNullOrWhiteSpace(s: Option<string>) {
    s.None? || forall i :: 0 <= i < |s.value| ==> IsWhiteSpace(s.value[i])
  }

  /** string.IsNullOrEmpty. */
  predicate IsNullOrEmpty(s: Option<string>) {
    s.None? || s.value == ""
  }
}
