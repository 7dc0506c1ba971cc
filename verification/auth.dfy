/** Phone sign-in (AuthService): normalising a phone number, generating a
    six-digit code, storing a verification request, and checking a code
    with the outcome reported for each kind of failure.
 */
module Auth {
  import opened Common
  import opened Models
  import opened Store

  // ----- characters -----

  /** The first code points of the ten-digit runs of Unicode category Nd in
      the Basic Multilingual Plane. */
  const DigitRunStarts: seq<int> := [
    0x0030, 0x0660, 0x06F0, 0x07C0, 0x0966, 0x09E6, 0x0A66, 0x0AE6, 0x0B66, 0x0BE6,
    0x0C66, 0x0CE6, 0x0D66, 0x0DE6, 0x0E50, 0x0ED0, 0x0F20, 0x1040, 0x1090, 0x17E0,
    0x1810, 0x1946, 0x19D0, 0x1A80, 0x1A90, 0x1B50, 0x1BB0, 0x1C40, 0x1C50, 0xA620,
    0xA8D0, 0xA900, 0xA9D0, 0xA9F0, 0xAA50, 0xABF0, 0xFF10]

  /** char.IsDigit: a decimal digit of any script. A character outside the
      Basic Multilingual Plane is two UTF-16 units, neither of which is a
      digit, so it never counts. */
  predicate IsDigit(c: char) {
    exists i :: 0 <= i < |DigitRunStarts| && DigitRunStarts[i] <= c as int < DigitRunStarts[i] + 10
  }

  predicate IsAsciiDigit(c: char) {
    '0' <= c <= '9'
  }

  lemma AsciiDigitIsDigit(c: char)
    requires IsAsciiDigit(c)
    ensures IsDigit(c)
  {
    assert DigitRunStarts[0] <= c as int < DigitRunStarts[0] + 10;
  }

  /** The characters normalisation keeps. */
  predicate IsDialChar(c: char) {
    IsDigit(c) || c == '+'
  }

  predicate AllDialChars(s: string) {
    forall i :: 0 <= i < |s| ==> IsDialChar(s[i])
  }

  predicate AllAsciiDigits(s: string) {
    forall i :: 0 <= i < |s| ==> IsAsciiDigit(s[i])
  }

  // ----- phone numbers -----

  /** The digits and plus signs of `s`, in order. */
  function KeepDialChars(s: string): (r: string)
    ensures AllDialChars(r)
    ensures |r| <= |s|
  {
    if s == [] then []
    else (if IsDialChar(s[0]) then [s[0]] else []) + KeepDialChars(s[1..])
  }

  /** A string of dial characters is kept whole. */
  lemma {:induction false} KeepDialCharsOfDialString(s: string)
    requires AllDialChars(s)
    ensures KeepDialChars(s) == s
  {
    if s != [] {
      assert IsDialChar(s[0]);
      KeepDialCharsOfDialString(s[1..]);
    }
  }

  /** Filtering distributes over concatenation. */
  lemma {:induction false} KeepDialCharsAppend(a: string, b: string)
    ensures KeepDialChars(a + b) == KeepDialChars(a) + KeepDialChars(b)
  {
    if a == [] {
      assert a + b == b;
    } else {
      var h: string := if IsDialChar(a[0]) then [a[0]] else [];
      assert (a + b)[0] == a[0];
      assert (a + b)[1..] == a[1..] + b;
      assert KeepDialChars(a + b) == h + KeepDialChars(a[1..] + b);
      KeepDialCharsAppend(a[1..], b);
      assert KeepDialChars(a) == h + KeepDialChars(a[1..]);
    }
  }

  /** `s` without its leading '0' characters (TrimStart('0')). */
  function TrimLeadingZeros(s: string): (r: string)
    ensures r == [] || r[0] != '0'
    ensures |r| <= |s| && r == s[|s| - |r|..]
    ensures forall i :: 0 <= i < |s| - |r| ==> s[i] == '0'
  {
    if s != [] && s[0] == '0' then TrimLeadingZeros(s[1..]) else s
  }

  /** The Afghan country code the service prefixes to local numbers. */
  const CountryCode: string := "+93"

  /** The normalisation both the request and the verification apply: keep
      digits and '+', and unless the result starts with '+', drop its
      leading zeros and prefix +93. */
  function NormalizePhone(s: string): (r: string)
    ensures |r| > 0 && r[0] == '+'
    ensures AllDialChars(r)
    ensures var kept := KeepDialChars(s);
            if |kept| > 0 && kept[0] == '+' then r == kept else r == CountryCode + TrimLeadingZeros(kept)
  {
    var kept := KeepDialChars(s);
    if |kept| > 0 && kept[0] == '+' then kept
    else
      TrimmedDialChars(kept);
      PrefixedDialChars(TrimLeadingZeros(kept));
      CountryCode + TrimLeadingZeros(kept)
  }

  /** Trimming zeros keeps a string of dial characters one. */
  lemma TrimmedDialChars(s: string)
    requires AllDialChars(s)
    ensures AllDialChars(TrimLeadingZeros(s))
  {
    var t := TrimLeadingZeros(s);
    forall i | 0 <= i < |t| ensures IsDialChar(t[i]) {
      assert t[i] == s[|s| - |t| + i];
    }
  }

  /** Prefixing the country code keeps a string of dial characters one. */
  lemma PrefixedDialChars(t: string)
    requires AllDialChars(t)
    ensures AllDialChars(CountryCode + t)
  {
    var r := CountryCode + t;
    AsciiDigitIsDigit('9');
    AsciiDigitIsDigit('3');
    forall i | 0 <= i < |r| ensures IsDialChar(r[i]) {
      if i >= 3 {
        assert r[i] == t[i - 3];
      }
    }
  }

  /** Normalising twice is normalising once. */
  lemma NormalizePhoneIdempotent(s: string)
    ensures NormalizePhone(NormalizePhone(s)) == NormalizePhone(s)
  {
    KeepDialCharsOfDialString(NormalizePhone(s));
  }

  /** Separators (spaces, dashes, parentheses, letters) do not matter. */
  lemma NormalizePhoneIgnoresSeparators(s: string)
    ensures NormalizePhone(KeepDialChars(s)) == NormalizePhone(s)
  {
    KeepDialCharsOfDialString(KeepDialChars(s));
  }

  /** A national number without its trunk zero, with it, and in
      international form all normalise to the same +93 number. */
  lemma NationalAndInternationalFormsAgree(digits: string)
    requires |digits| > 0 && AllAsciiDigits(digits) && digits[0] != '0'
    ensures NormalizePhone(digits) == CountryCode + digits
    ensures NormalizePhone("0" + digits) == CountryCode + digits
    ensures NormalizePhone(CountryCode + digits) == CountryCode + digits
  {
    forall i | 0 <= i < |digits| ensures IsDialChar(digits[i]) {
      AsciiDigitIsDigit(digits[i]);
    }
    KeepDialCharsOfDialString(digits);
    AsciiDigitIsDigit('0');
    KeepDialCharsAppend("0", digits);
    assert KeepDialChars("0") == "0";
    AsciiDigitIsDigit('9');
    AsciiDigitIsDigit('3');
    KeepDialCharsAppend(CountryCode, digits);
    KeepDialCharsOfDialString(CountryCode);
  }

  // ----- verification codes -----

  function DigitChar(d: int): (c: char)
    requires 0 <= d <= 9
    ensures IsAsciiDigit(c) && c as int - '0' as int == d
  {
    ('0' as int + d) as char
  }

  /** int.ToString for a non-negative number. */
  function DecimalText(n: nat): (s: string)
    ensures |s| > 0 && AllAsciiDigits(s)
    ensures n >= 10 ==> s[0] != '0'
    decreases n
  {
    if n < 10 then [DigitChar(n)] else DecimalText(n / 10) + [DigitChar(n % 10)]
  }

  /** The number a string of ASCII digits denotes. */
  function DecimalValue(s: string): (n: nat)
    requires AllAsciiDigits(s)
    decreases |s|
  {
    if s == [] then 0
    else DecimalValue(s[..|s| - 1]) * 10 + (s[|s| - 1] as int - '0' as int)
  }

  function Pow10(k: nat): (p: nat)
    ensures p >= 1
  {
    if k == 0 then 1 else 10 * Pow10(k - 1)
  }

  /** Reading back the text of a number gives the number. */
  lemma {:induction false} DecimalValueOfText(n: nat)
    ensures DecimalValue(DecimalText(n)) == n
    decreases n
  {
    if n >= 10 {
      var s := DecimalText(n);
      assert s[..|s| - 1] == DecimalText(n / 10);
      DecimalValueOfText(n / 10);
    }
  }

  /** A k-digit number has a k-character text. */
  lemma {:induction false} DecimalTextLength(n: nat, k: nat)
    requires k >= 1 && Pow10(k - 1) <= n < Pow10(k)
    ensures |DecimalText(n)| == k
    decreases k
  {
    if k > 1 {
      assert Pow10(k - 1) == 10 * Pow10(k - 2);
      DecimalTextLength(n / 10, k - 1);
    }
  }

  /** The value of a k-digit string without a leading zero has k digits. */
  lemma {:induction false} DecimalValueBounds(s: string)
    requires |s| > 0 && AllAsciiDigits(s) && s[0] != '0'
    ensures Pow10(|s| - 1) <= DecimalValue(s) < Pow10(|s|)
    decreases |s|
  {
    if |s| > 1 {
      var prefix := s[..|s| - 1];
      assert prefix[0] == s[0];
      DecimalValueBounds(prefix);
    }
  }

  /** A string of ASCII digits without a leading zero is the text of its
      value. */
  lemma {:induction false} DecimalTextOfValue(s: string)
    requires |s| > 0 && AllAsciiDigits(s) && (|s| > 1 ==> s[0] != '0')
    ensures DecimalText(DecimalValue(s)) == s
    decreases |s|
  {
    var prefix := s[..|s| - 1];
    if |s| == 1 {
      assert DecimalValue(prefix) == 0;
    } else {
      assert prefix[0] == s[0];
      DecimalValueBounds(s);
      assert Pow10(|s| - 1) >= 10 by {
        assert Pow10(|s| - 1) == 10 * Pow10(|s| - 2);
      }
      DecimalTextOfValue(prefix);
      var v, d := DecimalValue(prefix), s[|s| - 1] as int - '0' as int;
      assert DecimalValue(s) == v * 10 + d;
      assert DecimalValue(s) / 10 == v && DecimalValue(s) % 10 == d;
      assert DigitChar(d) == s[|s| - 1];
      assert s == prefix + [s[|s| - 1]];
    }
  }

  /** The bounds Random.Next(100000, 1000000) draws from (the upper one
      exclusive). */
  const CodeLow: int := 100000
  const CodeHigh: int := 1000000

  /** A six-character ASCII code without a leading zero. */
  predicate IsSixDigitCode(code: string) {
    |code| == 6 && AllAsciiDigits(code) && code[0] != '0'
  }

  /** GenerateVerificationCode, given the number the random source drew. */
  function GenerateVerificationCode(drawn: int): (code: string)
    requires CodeLow <= drawn < CodeHigh
    ensures IsSixDigitCode(code)
    ensures DecimalValue(code) == drawn
  {
    assert Pow10(5) == CodeLow && Pow10(6) == CodeHigh;
    DecimalTextLength(drawn, 6);
    DecimalValueOfText(drawn);
    DecimalText(drawn)
  }

  /** Every six-digit code is generated by exactly one draw. */
  lemma EveryCodeIsGenerated(code: string)
    requires IsSixDigitCode(code)
    ensures CodeLow <= DecimalValue(code) < CodeHigh
    ensures GenerateVerificationCode(DecimalValue(code)) == code
  {
    DecimalValueBounds(code);
    assert Pow10(5) == CodeLow && Pow10(6) == CodeHigh;
    DecimalTextOfValue(code);
  }

  // ----- the verification table -----

  /** The validity of a code, in minutes. */
  const CodeLifetimeMinutes: int := 10

  /** A record still usable for `phone` at `now`. */
  predicate Pending(v: PhoneVerification, phone: string, now: Time) {
    !v.isDeleted && v.phoneNumber == phone && !v.isUsed && v.expiresAt > now
  }

  /** The records still usable for `phone`. */
  function PendingFor(db: Db, phone: string, now: Time): set<Id> {
    set k | k in db.phoneVerifications && Pending(db.phoneVerifications[k], phone, now)
  }

  /** The records usable for `phone` that carry `code`. */
  function MatchingFor(db: Db, phone: string, code: string, now: Time): set<Id> {
    set k | k in db.phoneVerifications && Pending(db.phoneVerifications[k], phone, now)
            && db.phoneVerifications[k].verificationCode == code
  }

  /** The user type a request records: "driver" when asked for, otherwise
      "passenger". */
  function NormalizedUserType(userType: Option<string>): (r: string)
    ensures r == "passenger" || r == "driver"
    ensures r == "driver" <==> userType == Some("driver")
  {
    if userType == Some("passenger") || userType == Some("driver") then userType.value else "passenger"
  }

  /** The record a request stores its code in: the pending one of least key
      when there is one, else the new record. */
  function RequestedRecord(db: Db, phone: string, newId: Id, now: Time): Id {
    Least(PendingFor(db, phone, now)).GetOr(newId)
  }

  /** The verification table after a request has stored `code` for the
      normalised number `p`: the pending record is refreshed, or a new one
      linked to the holder of the number is added under `newId`. */
  function StoredCode(db: Db, p: string, ut: string, code: string, newId: Id, now: Time)
    : (pv: map<Id, PhoneVerification>)
    requires newId !in db.phoneVerifications
    ensures var k := RequestedRecord(db, p, newId, now);
            pv.Keys == db.phoneVerifications.Keys + {k}
            && (forall j :: j in db.phoneVerifications && j != k ==> pv[j] == db.phoneVerifications[j])
            && pv[k].phoneNumber == p && pv[k].verificationCode == code
            && pv[k].expiresAt == AddMinutes(now, CodeLifetimeMinutes)
            && !pv[k].isUsed && !pv[k].isDeleted && pv[k].userType == ut
    ensures PendingFor(db, p, now) != {} ==> pv.Keys == db.phoneVerifications.Keys
    ensures PendingFor(db, p, now) == {} ==>
              pv[newId] == PhoneVerification(Least(UsersWithPhone(db, p)), p, code, AddMinutes(now, CodeLifetimeMinutes),
                                             false, None, ut, now, false)
  {
    var expires := AddMinutes(now, CodeLifetimeMinutes);
    match Least(PendingFor(db, p, now))
    case Some(k) =>
      var v := db.phoneVerifications[k];
      db.phoneVerifications[k := v.(verificationCode := code, expiresAt := expires, userType := ut)]
    case None =>
      db.phoneVerifications[newId := PhoneVerification(Least(UsersWithPhone(db, p)), p, code, expires,
                                                       false, None, ut, now, false)]
  }

  /** RequestPhoneVerificationAsync: refuses a blank number; otherwise
      normalises it and stores `code`, valid for ten minutes, either in the
      pending record for that number (reused) or in a new record linked to
      the user holding the number, if any. Returns the code. */
  function RequestPhoneVerification(db: Db, phone: Option<string>, userType: Option<string>, code: string,
                                    newId: Id, now: Time): (r: Result<(Db, string)>)
    requires newId !in db.phoneVerifications
    ensures r.Err? <==> IsNullOrWhiteSpace(phone)
    ensures r.Err? ==> r.error == PhoneNumberRequired
    ensures r.Ok? ==> r.value.1 == code && r.value.0 == db.(phoneVerifications := r.value.0.phoneVerifications)
    ensures r.Ok? ==> var p := NormalizePhone(phone.value);
                      var k := RequestedRecord(db, p, newId, now);
                      var pv := r.value.0.phoneVerifications;
                      pv.Keys == db.phoneVerifications.Keys + {k}
                      && (forall j :: j in db.phoneVerifications && j != k ==> pv[j] == db.phoneVerifications[j])
                      && pv[k].phoneNumber == p && pv[k].verificationCode == code
                      && pv[k].expiresAt == AddMinutes(now, CodeLifetimeMinutes)
                      && !pv[k].isUsed && !pv[k].isDeleted
                      && pv[k].userType == NormalizedUserType(userType)
    ensures r.Ok? ==> var p := NormalizePhone(phone.value);
                      PendingFor(db, p, now) != {} ==> r.value.0.phoneVerifications.Keys == db.phoneVerifications.Keys
    ensures r.Ok? ==> var p := NormalizePhone(phone.value);
                      PendingFor(db, p, now) == {} ==>
                        r.value.0.phoneVerifications[newId]
                        == PhoneVerification(Least(UsersWithPhone(db, p)), p, code, AddMinutes(now, CodeLifetimeMinutes),
                                             false, None, NormalizedUserType(userType), now, false)
  {
    if IsNullOrWhiteSpace(phone) then Err(PhoneNumberRequired)
    else
      var pv := StoredCode(db, NormalizePhone(phone.value), NormalizedUserType(userType), code, newId, now);
      Ok((db.(phoneVerifications := pv), code))
  }

  /** Every non-empty finite set of records has one with the latest
      creation time. */
  lemma {:induction false} LatestExists(pv: map<Id, PhoneVerification>, s: set<Id>)
    requires s != {} && s <= pv.Keys
    ensures exists m :: m in s && forall k :: k in s ==> pv[k].createdAt <= pv[m].createdAt
    decreases s
  {
    var x :| x in s;
    if s - {x} == {} {
      forall k | k in s ensures pv[k].createdAt <= pv[x].createdAt {
        assert k !in s - {x};
      }
      assert x in s && forall k :: k in s ==> pv[k].createdAt <= pv[x].createdAt;
    } else {
      LatestExists(pv, s - {x});
      var m :| m in s - {x} && forall k :: k in s - {x} ==> pv[k].createdAt <= pv[m].createdAt;
      var latest := if pv[x].createdAt > pv[m].createdAt then x else m;
      forall k | k in s ensures pv[k].createdAt <= pv[latest].createdAt {
        if k != x {
          assert k in s - {x};
        }
      }
      assert latest in s && forall k :: k in s ==> pv[k].createdAt <= pv[latest].createdAt;
    }
  }

  /** The record the failure report looks at: the most recently created
      visible record for the number (ties go to the least key). */
  function LatestVerification(db: Db, phone: string): (r: Option<Id>)
    ensures r.None? <==> forall k :: k in db.phoneVerifications ==>
                           db.phoneVerifications[k].isDeleted || db.phoneVerifications[k].phoneNumber != phone
    ensures r.Some? ==> r.value in db.phoneVerifications && !db.phoneVerifications[r.value].isDeleted
                        && db.phoneVerifications[r.value].phoneNumber == phone
    ensures r.Some? ==> forall k :: (k in db.phoneVerifications && !db.phoneVerifications[k].isDeleted
                                     && db.phoneVerifications[k].phoneNumber == phone) ==>
                          db.phoneVerifications[k].createdAt <= db.phoneVerifications[r.value].createdAt
  {
    var pv := db.phoneVerifications;
    var all := set k | k in pv && !pv[k].isDeleted && pv[k].phoneNumber == phone;
    if all == {} then
      assert forall k :: k in pv && !pv[k].isDeleted && pv[k].phoneNumber == phone ==> k in all;
      None
    else
      LatestAmong(pv, all)
  }

  /** `OrderByDescending(v => v.CreatedAt).FirstOrDefault()` over the
      records `s`: one with the latest creation time, ties going to the
      least key. */
  function LatestAmong(pv: map<Id, PhoneVerification>, s: set<Id>): (r: Option<Id>)
    requires s <= pv.Keys
    ensures r.None? <==> s == {}
    ensures r.Some? ==> r.value in s && forall k :: k in s ==> pv[k].createdAt <= pv[r.value].createdAt
  {
    if s == {} then None
    else
      LatestExists(pv, s);
      var m :| m in s && forall k :: k in s ==> pv[k].createdAt <= pv[m].createdAt;
      var latest := set k | k in s && forall j :: j in s ==> pv[j].createdAt <= pv[k].createdAt;
      assert m in latest;
      Least(latest)
  }

  /** What VerifyPhoneNumberAsync reports. */
  datatype VerifyOutcome =
    | MissingInput
    | NoVerificationRequested
    | AlreadyUsed
    | Expired
    | InvalidCode
    | SaveFailed
    | Verified(userId: Id, isNewUser: bool, userType: string)

  /** The failure reported when no record matches, judged on the latest
      record for the number. */
  function FailureFor(db: Db, phone: string, now: Time): (o: VerifyOutcome)
    ensures o == NoVerificationRequested || o == AlreadyUsed || o == Expired || o == InvalidCode
  {
    match LatestVerification(db, phone)
    case None => NoVerificationRequested
    case Some(k) =>
      if db.phoneVerifications[k].isUsed then AlreadyUsed
      else if db.phoneVerifications[k].expiresAt <= now then Expired
      else InvalidCode
  }

  /** The user a verification signs in: the visible holder of the number
      marked verified and logged in now, or a new verified user. */
  function SignIn(db: Db, phone: string, newUserId: Id, now: Time): (r: (Id, bool, Db))
    requires newUserId !in db.users
    ensures r.2 == db.(users := r.2.users)
    ensures r.1 <==> UsersWithPhone(db, phone) == {}
    ensures r.1 ==> r.0 == newUserId
                    && r.2.users == db.users[newUserId := User(phone, true, Some(now), None, None, None, None, None,
                                                               true, Some(now), false)]
    ensures !r.1 ==> r.0 == Least(UsersWithPhone(db, phone)).value
                     && r.2.users == db.users[r.0 := db.users[r.0].(isPhoneVerified := true,
                                                   phoneVerifiedAt := Some(now), lastLoginAt := Some(now))]
  {
    match Least(UsersWithPhone(db, phone))
    case Some(u) =>
      (u, false, db.(users := db.users[u := db.users[u].(isPhoneVerified := true, phoneVerifiedAt := Some(now),
                                                        lastLoginAt := Some(now))]))
    case None =>
      (newUserId, true, db.(users := db.users[newUserId := User(phone, true, Some(now), None, None, None, None, None,
                                                                 true, Some(now), false)]))
  }

  /** A matched record marked used now. */
  function MarkUsed(db: Db, k: Id, now: Time): (r: Db)
    requires k in db.phoneVerifications
    ensures r == db.(phoneVerifications := r.phoneVerifications)
    ensures r.phoneVerifications == db.phoneVerifications[k := db.phoneVerifications[k].(isUsed := true, verifiedAt := Some(now))]
  {
    db.(phoneVerifications := db.phoneVerifications[k := db.phoneVerifications[k].(isUsed := true, verifiedAt := Some(now))])
  }

  /** The success path once record `k` matched: unless saving the new user
      would break the unique phone index, the record is marked used and the
      holder of the number signed in. */
  function CompleteVerification(db: Db, phone: string, k: Id, newUserId: Id, now: Time): (r: (VerifyOutcome, Db))
    requires k in db.phoneVerifications && newUserId !in db.users
    ensures r.0 == SaveFailed <==> UsersWithPhone(db, phone) == {} && PhoneTaken(db, phone)
    ensures r.0 == SaveFailed || r.0.Verified?
    ensures r.0 == SaveFailed ==> r.1 == db
    ensures r.0.Verified? ==>
              var s := SignIn(MarkUsed(db, k, now), phone, newUserId, now);
              r == (Verified(s.0, s.1, db.phoneVerifications[k].userType), s.2)
  {
    if UsersWithPhone(db, phone) == {} && PhoneTaken(db, phone) then (SaveFailed, db)
    else
      var s := SignIn(MarkUsed(db, k, now), phone, newUserId, now);
      (Verified(s.0, s.1, db.phoneVerifications[k].userType), s.2)
  }

  /** VerifyPhoneNumberAsync: blank inputs are refused; the number is
      normalised as on request; a usable record carrying the code is marked
      used and the holder of the number signed in (created if needed). When
      no record matches, the failure is classified on the latest record.
      A new user whose number a deleted user still holds breaks the unique
      index, and the call reports the error having saved nothing. */
  function VerifyPhoneNumber(db: Db, phone: Option<string>, code: Option<string>, newUserId: Id, now: Time)
    : (r: (VerifyOutcome, Db))
    requires newUserId !in db.users
    ensures IsNullOrWhiteSpace(phone) || IsNullOrWhiteSpace(code) ==> r == (MissingInput, db)
    ensures !r.0.Verified? ==> r.1 == db
    ensures !IsNullOrWhiteSpace(phone) && !IsNullOrWhiteSpace(code) ==>
              var p := NormalizePhone(phone.value);
              var m := Least(MatchingFor(db, p, code.value, now));
              (m.None? ==> r.0 == FailureFor(db, p, now))
              && (m.Some? ==> r == CompleteVerification(db, p, m.value, newUserId, now))
  {
    if IsNullOrWhiteSpace(phone) || IsNullOrWhiteSpace(code) then (MissingInput, db)
    else
      var p := NormalizePhone(phone.value);
      match Least(MatchingFor(db, p, code.value, now))
      case None => (FailureFor(db, p, now), db)
      case Some(k) => CompleteVerification(db, p, k, newUserId, now)
  }

  /** "Invalid verification code" means the latest record for the number is
      usable but carries another code. */
  lemma InvalidCodeMeansLatestCodeDiffers(db: Db, phone: Option<string>, code: Option<string>, newUserId: Id, now: Time)
    requires newUserId !in db.users
    requires VerifyPhoneNumber(db, phone, code, newUserId, now).0 == InvalidCode
    ensures var k := LatestVerification(db, NormalizePhone(phone.value)).value;
            Pending(db.phoneVerifications[k], NormalizePhone(phone.value), now)
            && db.phoneVerifications[k].verificationCode != code.value
  {
    assert !IsNullOrWhiteSpace(phone) && !IsNullOrWhiteSpace(code);
    var p := NormalizePhone(phone.value);
    assert MatchingFor(db, p, code.value, now) == {};
    LatestRecordCarriesAnotherCode(db, p, code.value, now);
  }

  /** With no usable record carrying the code, an InvalidCode verdict on the
      latest record means that record is usable and carries another code. */
  lemma LatestRecordCarriesAnotherCode(db: Db, p: string, code: string, now: Time)
    requires MatchingFor(db, p, code, now) == {}
    requires FailureFor(db, p, now) == InvalidCode
    ensures var k := LatestVerification(db, p).value;
            Pending(db.phoneVerifications[k], p, now) && db.phoneVerifications[k].verificationCode != code
  {
    var k := LatestVerification(db, p).value;
    assert k !in MatchingFor(db, p, code, now);
  }

  /** "Already used" and "expired" describe the latest record. */
  lemma FailureDescribesLatestRecord(db: Db, phone: Option<string>, code: Option<string>, newUserId: Id, now: Time)
    requires newUserId !in db.users
    ensures var o := VerifyPhoneNumber(db, phone, code, newUserId, now).0;
            o != MissingInput ==>
            var p := NormalizePhone(phone.value);
            (o == NoVerificationRequested ==> LatestVerification(db, p).None?)
            && (o == AlreadyUsed ==> db.phoneVerifications[LatestVerification(db, p).value].isUsed)
            && (o == Expired ==> !db.phoneVerifications[LatestVerification(db, p).value].isUsed
                                 && db.phoneVerifications[LatestVerification(db, p).value].expiresAt <= now)
  {
  }

  /** A code requested for a number verifies within its ten minutes, even
      when the number is typed in another format, provided no deleted user
      still holds the number. */
  lemma RequestThenVerifySucceeds(db: Db, phone: string, userType: Option<string>, code: string, newId: Id,
                                  requestedAt: Time, phone': string, newUserId: Id, now: Time)
    requires newId !in db.phoneVerifications && newUserId !in db.users
    requires !IsNullOrWhiteSpace(Some(phone)) && !IsNullOrWhiteSpace(Some(phone')) && !IsNullOrWhiteSpace(Some(code))
    requires NormalizePhone(phone') == NormalizePhone(phone)
    requires requestedAt <= now < AddMinutes(requestedAt, CodeLifetimeMinutes)
    requires !PhoneTaken(db, NormalizePhone(phone)) || UsersWithPhone(db, NormalizePhone(phone)) != {}
    ensures var db' := RequestPhoneVerification(db, Some(phone), userType, code, newId, requestedAt).value.0;
            newUserId !in db'.users
            && VerifyPhoneNumber(db', Some(phone'), Some(code), newUserId, now).0.Verified?
  {
    var p := NormalizePhone(phone);
    var db' := RequestPhoneVerification(db, Some(phone), userType, code, newId, requestedAt).value.0;
    var k := RequestedRecord(db, p, newId, requestedAt);
    assert k in MatchingFor(db', p, code, now);
    assert db'.users == db.users;
    assert UsersWithPhone(db', p) == UsersWithPhone(db, p);
  }
}
