/** The email one-time-password login of server/routes/authRoutes.js: issuing an
    OTP, verifying it (a fixed sequence of rejection checks, then either spending an
    attempt or consuming the record), signing the session token, reading and
    patching the profile, and logging out. */
module AuthRoutes {
  import opened Wrappers
  import opened Text
  import opened JsValues
  import opened Crypto
  import opened ServerModels
  import AuthMiddleware

  const JWT_EXPIRES_IN: Json := Str("7d")
  const OTP_TTL_MINUTES := 10
  const OTP_LENGTH := 6
  const OTP_ATTEMPTS := 5
  const SEVEN_DAYS_MS := 7 * 24 * 3600 * 1000
  /** The lifetime jsonwebtoken gives a token for `expiresIn: "7d"`, in seconds. */
  const TOKEN_LIFETIME_SECONDS := 7 * 24 * 3600

  // ---------------------------------------------------------------------------
  // generateNumericOtp

  /** crypto.randomInt refuses, with a RangeError, a range `max - min` of 2^48 or more. */
  const RANDOM_INT_RANGE_LIMIT := 0x1_0000_0000_0000
  /** The longest code whose range 10^length crypto.randomInt accepts. */
  const MAX_OTP_LENGTH := 14

  lemma {:induction false} Pow10Monotone(m: nat, n: nat)
    requires m <= n
    ensures Pow10(m) <= Pow10(n)
  {
    if m < n {
      Pow10Monotone(m, n - 1);
    }
  }

  /** `crypto.randomInt(0, 10 ** length)` draws exactly for lengths up to MAX_OTP_LENGTH. */
  lemma DrawableLengths(length: nat)
    ensures Pow10(length) < RANDOM_INT_RANGE_LIMIT <==> length <= MAX_OTP_LENGTH
  {
    assert Pow10(MAX_OTP_LENGTH) == 100_000_000_000_000;
    assert Pow10(MAX_OTP_LENGTH + 1) == 1_000_000_000_000_000;
    if length <= MAX_OTP_LENGTH {
      Pow10Monotone(length, MAX_OTP_LENGTH);
    } else {
      Pow10Monotone(MAX_OTP_LENGTH + 1, length);
    }
  }

  /** The code for a random draw r from [0, 10^length): r in decimal, left-padded with
      zeros to `length` digits. A length of 0 still yields the single digit "0". A longer
      code than MAX_OTP_LENGTH is never drawn: crypto.randomInt throws for its range. */
  function GenerateNumericOtp(length: nat, r: nat): (otp: string)
    requires length <= MAX_OTP_LENGTH
    requires r < Pow10(length)
    ensures |otp| == if length == 0 then 1 else length
    ensures AllDigits(otp) && DecimalValue(otp) == r
  {
    PaddedDraw(length, r);
    if length == 0 then NatToString(r) else PadStart(NatToString(r), length, '0')
  }

  /** `r.toString().padStart(length, "0")` for r below 10^length: `length` digits (one for
      length 0) that read back as r. */
  lemma PaddedDraw(length: nat, r: nat)
    requires r < Pow10(length)
    ensures var otp := if length == 0 then NatToString(r) else PadStart(NatToString(r), length, '0');
            |otp| == (if length == 0 then 1 else length) && AllDigits(otp) && DecimalValue(otp) == r
  {
    var digits := NatToString(r);
    NatToStringRoundTrip(r);
    if length == 0 {
      assert r == 0;
    } else {
      NatToStringLength(r, length);
      assert |digits| <= length;
      LeadingZeros(length - |digits|, digits);
      assert PadStart(digits, length, '0') == Repeat('0', length - |digits|) + digits;
    }
  }

  /** Every string of `length` digits is the code of exactly one draw: generation is
      onto the codes the verifier can be asked about, and injective. */
  lemma GenerateNumericOtpOnto(length: nat, otp: string)
    requires 1 <= length <= MAX_OTP_LENGTH && |otp| == length && AllDigits(otp)
    ensures DecimalValue(otp) < Pow10(length)
    ensures GenerateNumericOtp(length, DecimalValue(otp)) == otp
  {
    DecimalBound(otp);
    var g := GenerateNumericOtp(length, DecimalValue(otp));
    DigitStringsEqual(g, otp);
  }

  lemma GenerateNumericOtpInjective(length: nat, r1: nat, r2: nat)
    requires length <= MAX_OTP_LENGTH
    requires r1 < Pow10(length) && r2 < Pow10(length)
    requires GenerateNumericOtp(length, r1) == GenerateNumericOtp(length, r2)
    ensures r1 == r2
  {
  }

  // ---------------------------------------------------------------------------
  // parseJwtExpiryMs

  predicate IsUnit(u: char)
  {
    u == 's' || u == 'm' || u == 'h' || u == 'd'
  }

  /** The regular expression /^(\d+)([smhd])$/. */
  predicate MatchesDuration(s: string)
  {
    |s| >= 2 && AllDigits(s[..|s| - 1]) && IsUnit(s[|s| - 1])
  }

  function UnitSeconds(u: char): int
  {
    match u
    case 's' => 1
    case 'm' => 60
    case 'h' => 3600
    case 'd' => 24 * 3600
    case _ => 1
  }

  /** The cookie lifetime in milliseconds for a token lifetime setting. */
  function ParseJwtExpiryMs(exp: Json): (ms: int)
    ensures ms % 1000 == 0
  {
    var seconds :=
      match exp
      case Num(n) => n
      case Str(s) =>
        if MatchesDuration(s) then DecimalValue(s[..|s| - 1]) * UnitSeconds(s[|s| - 1])
        else if StringToNumber(s).Finite? then StringToNumber(s).value
        else SEVEN_DAYS_MS / 1000
      case _ => SEVEN_DAYS_MS / 1000;
    ThousandsDivisible(seconds);
    seconds * 1000
  }

  lemma ThousandsDivisible(k: int)
    ensures (k * 1000) % 1000 == 0
  {
  }

  /** "<n>s", "<n>m", "<n>h" and "<n>d" are n seconds, minutes, hours and days. */
  lemma {:induction false} ParseDuration(digits: string, u: char)
    requires |digits| >= 1 && AllDigits(digits) && IsUnit(u)
    ensures var ms := ParseJwtExpiryMs(Str(digits + [u]));
            var n := DecimalValue(digits);
            (u == 's' ==> ms == n * 1000) && (u == 'm' ==> ms == n * 60000)
            && (u == 'h' ==> ms == n * 3600000) && (u == 'd' ==> ms == n * 86400000)
  {
    var s := digits + [u];
    assert s[..|s| - 1] == digits;
    assert MatchesDuration(s);
  }

  /** The configured "7d" is 604800000 ms, the token lifetime in milliseconds: the
      cookie and the token it carries expire together. */
  lemma DefaultExpiry()
    ensures ParseJwtExpiryMs(JWT_EXPIRES_IN) == 604800000 == TOKEN_LIFETIME_SECONDS * 1000
  {
    ParseDuration("7", 'd');
    assert "7" + ['d'] == "7d";
  }

  /** A unit-less integer string counts seconds, as a number does. */
  lemma {:induction false} ParseUnitless(n: int)
    ensures ParseJwtExpiryMs(Str(IntToString(n))) == n * 1000
    ensures ParseJwtExpiryMs(Num(n)) == n * 1000
  {
    var s := IntToString(n);
    assert !MatchesDuration(s) by {
      LastCharIsDigit(n);
      assert !IsUnit(s[|s| - 1]);
    }
    assert StringToNumber(s) == Finite(n) by {
      IntToStringToNumber(n);
    }
    assert ParseJwtExpiryMs(Str(s)) == StringToNumber(s).value * 1000;
  }

  lemma LastCharIsDigit(n: int)
    ensures IntToString(n) != "" && IsDigit(IntToString(n)[|IntToString(n)| - 1])
  {
    var s := IntToString(n);
    IntToStringDigitsOrMinus(n);
    if n < 0 {
      assert s[|s| - 1] == s[1..][|s| - 2];
    }
  }

  /** Anything else falls back to seven days. */
  lemma ParseFallback(exp: Json)
    requires !exp.Num? && !(exp.Str? && (MatchesDuration(exp.s) || StringToNumber(exp.s).Finite?))
    ensures ParseJwtExpiryMs(exp) == SEVEN_DAYS_MS
  {
  }

  // ---------------------------------------------------------------------------
  // POST /send-otp

  datatype SendOtpBody = SendOtpBody(phone: Json, email: Json)

  /** The reply: the new record's id and, when the server runs with DEV_SHOW_OTP, the
      code itself; or an error status with its message. */
  datatype SendOtpReply = OtpSent(otpId: nat, devOtp: Option<string>) | SendFailed(status: nat, message: string)

  /** The string Mongoose stores for a `deliveryTarget` value (None: the cast fails). */
  function CastToString(j: Json): (r: Option<string>)
    ensures r.Some? <==> j.Str? || j.Num? || j.Bool?
    ensures j.Str? ==> r == Some(j.s)
  {
    match j
    case Str(s) => Some(s)
    case Num(n) => Some(IntToString(n))
    case Bool(b) => Some(if b then "true" else "false")
    case _ => None
  }

  /** The checks of send-otp before anything is written: a phone number is refused
      before the email is looked at. */
  function SendOtpCheck(body: SendOtpBody): (r: Option<SendOtpReply>)
    ensures r.Some? ==> r.value.SendFailed?
    ensures r.None? <==> !Truthy(body.phone) && Truthy(body.email) && CastToString(body.email).Some?
  {
    if Truthy(body.phone) then Some(SendFailed(400, "SMS-based OTP is disabled. Please use email for OTP login."))
    else if !Truthy(body.email) then Some(SendFailed(400, "email required"))
    else if CastToString(body.email).None? then Some(SendFailed(500, "Server error"))
    else None
  }

  /** The record send-otp stores for a target at clock time nowMs. */
  function IssuedRecord(target: string, code: string, nowMs: int): OtpRecord
  {
    NewOtp(target, Hash(code), OTP_ATTEMPTS, nowMs + OTP_TTL_MINUTES * 60 * 1000)
  }

  /** A truthy email that casts to a string casts to a non-empty one, so the record
      passes the schema's `required`. */
  lemma CastTargetPresent(email: Json)
    requires Truthy(email) && CastToString(email).Some?
    ensures CastToString(email).value != ""
  {
    if email.Num? {
      IntToStringDigitsOrMinus(email.n);
    }
  }

  /** Appending a record with a target keeps every stored record's target present. */
  lemma AppendKeepsPresent(records: seq<OtpRecord>, r: OtpRecord)
    requires forall i :: 0 <= i < |records| ==> OtpRequiredPresent(records[i])
    requires OtpRequiredPresent(r)
    ensures forall i :: 0 <= i < |records + [r]| ==> OtpRequiredPresent((records + [r])[i])
  {
    forall i | 0 <= i < |records + [r]| ensures OtpRequiredPresent((records + [r])[i]) {
      if i < |records| {
        assert (records + [r])[i] == records[i];
      }
    }
  }

  /** POST /send-otp. `random` is the value crypto.randomInt drew; the outcome of
      sending the email does not affect the reply, so it is not a parameter. */
  method SendOtp(otps: Otps, body: SendOtpBody, nowMs: int, random: nat, devShowOtp: bool) returns (reply: SendOtpReply)
    requires otps.Valid()
    requires random < Pow10(OTP_LENGTH)
    modifies otps
    ensures otps.Valid()
    ensures SendOtpCheck(body).Some? ==> reply == SendOtpCheck(body).value && otps.records == old(otps.records)
    ensures SendOtpCheck(body).None? ==>
              var code := GenerateNumericOtp(OTP_LENGTH, random);
              otps.records == old(otps.records) + [IssuedRecord(CastToString(body.email).value, code, nowMs)]
              && reply == OtpSent(|old(otps.records)|, if devShowOtp then Some(code) else None)
  {
    var rejected := SendOtpCheck(body);
    if rejected.Some? {
      return rejected.value;
    }
    var code := GenerateNumericOtp(OTP_LENGTH, random);
    var target := CastToString(body.email).value;
    CastTargetPresent(body.email);
    var before := otps.records;
    var added := before + [IssuedRecord(target, code, nowMs)];
    AppendKeepsPresent(before, IssuedRecord(target, code, nowMs));
    otps.records := added;
    reply := OtpSent(|before|, if devShowOtp then Some(code) else None);
  }

  // ---------------------------------------------------------------------------
  // POST /verify-otp

  /** `otpId` is the id send-otp returned (absent or empty: look up by target). */
  datatype VerifyBody = VerifyBody(otpId: Option<nat>, deliveryTarget: Option<string>, otp: Json)

  /** The most recently created record for a delivery target. */
  function LatestFor(records: seq<OtpRecord>, target: string): (r: Option<nat>)
    ensures r.Some? ==> r.value < |records| && records[r.value].deliveryTarget == target
    ensures r.Some? ==> forall k :: r.value < k < |records| ==> records[k].deliveryTarget != target
    ensures r.None? ==> forall k :: 0 <= k < |records| ==> records[k].deliveryTarget != target
  {
    if records == [] then None
    else if records[|records| - 1].deliveryTarget == target then Some(|records| - 1)
    else LatestFor(records[..|records| - 1], target)
  }

  /** `OTP.findOne(otpId ? { _id: otpId } : { deliveryTarget }).sort({ createdAt: -1 })`. */
  function FindOtp(records: seq<OtpRecord>, body: VerifyBody): (r: Option<nat>)
    ensures r.Some? ==> r.value < |records|
  {
    if body.otpId.Some? then
      if body.otpId.value < |records| then Some(body.otpId.value) else None
    else if body.deliveryTarget.Some? then LatestFor(records, body.deliveryTarget.value)
    else None
  }

  /** The outcome of the check sequence, in the order the route runs it. NotAString is a
      code that is not a string: bcrypt.compare throws and the route answers 500. */
  datatype VerifyCheck = OtpMissing | NotFound | AlreadyUsed | TooManyAttempts | Expired
                       | NotAString | WrongCode | Correct

  function CheckOtp(rec: Option<OtpRecord>, otp: Json, nowMs: int): (c: VerifyCheck)
    ensures c == WrongCode || c == Correct ==>
              Truthy(otp) && otp.Str? && rec.Some? && !rec.value.used
              && rec.value.attemptsLeft > 0 && nowMs <= rec.value.expiresAt
    ensures c == WrongCode ==> !Compare(otp.s, rec.value.otpHash)
    ensures c == Correct ==> Compare(otp.s, rec.value.otpHash)
  {
    if !Truthy(otp) then OtpMissing
    else if rec.None? then NotFound
    else if rec.value.used then AlreadyUsed
    else if rec.value.attemptsLeft <= 0 then TooManyAttempts
    else if rec.value.expiresAt < nowMs then Expired
    else if !otp.Str? then NotAString
    else if !Compare(otp.s, rec.value.otpHash) then WrongCode
    else Correct
  }

  /** A code is accepted exactly when it is present, the record exists, is unused, has
      attempts left, has not expired (at exactly `expiresAt` it still counts), and the
      code is the one that was hashed. */
  lemma CheckOtpAccepts(rec: Option<OtpRecord>, otp: Json, nowMs: int)
    ensures CheckOtp(rec, otp, nowMs) == Correct <==>
              rec.Some? && !rec.value.used && rec.value.attemptsLeft > 0 && nowMs <= rec.value.expiresAt
              && otp.Str? && otp.s != "" && rec.value.otpHash == Hash(otp.s)
  {
  }

  /** The record as the route leaves it: a wrong code spends one attempt (never below 0);
      a correct code marks the record used; every other outcome writes nothing. */
  function AfterCheck(rec: OtpRecord, c: VerifyCheck): OtpRecord
  {
    match c
    case WrongCode => rec.(attemptsLeft := if rec.attemptsLeft - 1 < 0 then 0 else rec.attemptsLeft - 1)
    case Correct => rec.(used := true)
    case _ => rec
  }

  /** The error reply for every outcome but Correct. */
  function FailureReply(c: VerifyCheck): (r: (nat, string))
    requires c != Correct
    ensures r.0 == 429 <==> c == TooManyAttempts
    ensures r.0 == 500 <==> c == NotAString
  {
    match c
    case OtpMissing => (400, "otp required")
    case NotFound => (400, "OTP not found or expired")
    case AlreadyUsed => (400, "OTP already used")
    case TooManyAttempts => (429, "Too many failed attempts")
    case Expired => (400, "OTP expired")
    case NotAString => (500, "Server error")
    case WrongCode => (400, "Invalid OTP")
  }

  /** The reply; on success it carries the session cookie and its max-age. */
  datatype VerifyReply = VerifyFailed(status: nat, message: string)
                       | Verified(user: User, session: Token, cookieMaxAgeMs: int)

  /** The user with this email, reused when present and created otherwise, and the
      users collection afterwards. */
  function FindOrCreate(users: seq<User>, email: string): (r: (seq<User>, nat))
    ensures r.1 < |r.0| && r.0[r.1].email == Some(email)
  {
    match FindByEmail(users, email)
    case Some(i) => (users, i)
    case None => (users + [NewUser(|users|, email)], |users|)
  }

  /** Finding or creating a user keeps the collection's invariant. An existing user is
      reused and nothing is written; otherwise exactly one user is appended. */
  lemma FindOrCreateValid(users: seq<User>, email: string)
    requires UsersValid(users)
    ensures UsersValid(FindOrCreate(users, email).0)
    ensures FindByEmail(users, email).Some? ==> FindOrCreate(users, email).0 == users
    ensures FindByEmail(users, email).None? ==>
              FindOrCreate(users, email).0 == users + [NewUser(|users|, email)]
    ensures FindOrCreate(users, email).0[..|users|] == users
  {
    var r := FindOrCreate(users, email);
    if FindByEmail(users, email).None? {
      assert r.0[..|users|] == users;
    }
  }

  /** POST /verify-otp at clock time nowMs. */
  method VerifyOtp(otps: Otps, users: Users, body: VerifyBody, nowMs: int) returns (reply: VerifyReply)
    requires otps.Valid() && users.Valid()
    modifies otps, users
    ensures otps.Valid() && users.Valid()
    ensures var idx := FindOtp(old(otps.records), body);
            var rec := if idx.Some? then Some(old(otps.records)[idx.value]) else None;
            var c := CheckOtp(rec, body.otp, nowMs);
            && otps.records == (if idx.Some? then old(otps.records)[idx.value := AfterCheck(rec.value, c)]
                                else old(otps.records))
            && (c != Correct ==> (users.all == old(users.all)
                                 && reply == VerifyFailed(FailureReply(c).0, FailureReply(c).1)))
            && (c == Correct ==>
                  var (after, id) := FindOrCreate(old(users.all), rec.value.deliveryTarget);
                  users.all == after
                  && reply == Verified(after[id], Sign(id, AuthMiddleware.JWT_SECRET, nowMs, TOKEN_LIFETIME_SECONDS),
                                       ParseJwtExpiryMs(JWT_EXPIRES_IN)))
  {
    var idx := FindOtp(otps.records, body);
    var rec := if idx.Some? then Some(otps.records[idx.value]) else None;
    var c := CheckOtp(rec, body.otp, nowMs);
    if idx.Some? {
      otps.records := otps.records[idx.value := AfterCheck(rec.value, c)];
    }
    if c != Correct {
      var (status, message) := FailureReply(c);
      return VerifyFailed(status, message);
    }
    FindOrCreateValid(users.all, rec.value.deliveryTarget);
    var (after, id) := FindOrCreate(users.all, rec.value.deliveryTarget);
    users.all := after;
    reply := Verified(after[id], Sign(id, AuthMiddleware.JWT_SECRET, nowMs, TOKEN_LIFETIME_SECONDS),
                      ParseJwtExpiryMs(JWT_EXPIRES_IN));
  }

  /** A record that has been verified once refuses every later attempt as used. */
  lemma UsedOnce(rec: OtpRecord, otp: Json, nowMs: int, later: Json, laterMs: int)
    requires CheckOtp(Some(rec), otp, nowMs) == Correct && Truthy(later)
    ensures CheckOtp(Some(AfterCheck(rec, Correct)), later, laterMs) == AlreadyUsed
  {
  }

  /** A wrong code spends exactly one attempt and leaves `used` alone. */
  lemma WrongCodeSpendsOne(rec: OtpRecord, otp: Json, nowMs: int)
    requires CheckOtp(Some(rec), otp, nowMs) == WrongCode
    ensures AfterCheck(rec, WrongCode).attemptsLeft == rec.attemptsLeft - 1 >= 0
    ensures AfterCheck(rec, WrongCode).used == rec.used == false
  {
  }

  /** One verification attempt against a record: the code and the clock time. */
  datatype Attempt = Attempt(otp: Json, atMs: int)

  /** The record after a series of attempts, each applied as the route applies it. */
  function Replay(rec: OtpRecord, attempts: seq<Attempt>): OtpRecord
    decreases |attempts|
  {
    if attempts == [] then rec
    else Replay(AfterCheck(rec, CheckOtp(Some(rec), attempts[0].otp, attempts[0].atMs)), attempts[1..])
  }

  /** How many of the attempts are accepted. */
  function Successes(rec: OtpRecord, attempts: seq<Attempt>): nat
    decreases |attempts|
  {
    if attempts == [] then 0
    else
      var c := CheckOtp(Some(rec), attempts[0].otp, attempts[0].atMs);
      (if c == Correct then 1 else 0) + Successes(AfterCheck(rec, c), attempts[1..])
  }

  /** Whatever is sent, a record is accepted at most once, and never once it is used. */
  lemma {:induction false} AtMostOneSuccess(rec: OtpRecord, attempts: seq<Attempt>)
    ensures Successes(rec, attempts) <= 1
    ensures rec.used ==> Successes(rec, attempts) == 0
    decreases |attempts|
  {
    if attempts != [] {
      var c := CheckOtp(Some(rec), attempts[0].otp, attempts[0].atMs);
      AtMostOneSuccess(AfterCheck(rec, c), attempts[1..]);
    }
  }

  /** Attempts never raise the budget, and `used` never goes back to false. */
  lemma {:induction false} ReplayMonotone(rec: OtpRecord, attempts: seq<Attempt>)
    ensures Replay(rec, attempts).attemptsLeft <= rec.attemptsLeft
    ensures rec.used ==> Replay(rec, attempts).used
    ensures Replay(rec, attempts).deliveryTarget == rec.deliveryTarget
    ensures Replay(rec, attempts).otpHash == rec.otpHash
    decreases |attempts|
  {
    if attempts != [] {
      var c := CheckOtp(Some(rec), attempts[0].otp, attempts[0].atMs);
      ReplayMonotone(AfterCheck(rec, c), attempts[1..]);
    }
  }

  /** A wrong guess in time, for a record with the given digest. */
  predicate WrongInTime(a: Attempt, rec: OtpRecord)
  {
    a.otp.Str? && a.otp.s != "" && !Compare(a.otp.s, rec.otpHash) && a.atMs <= rec.expiresAt
  }

  /** `k` wrong guesses in time use up k attempts of an unused record's budget. */
  lemma {:induction false} WrongGuessesSpendBudget(rec: OtpRecord, attempts: seq<Attempt>)
    requires !rec.used && |attempts| <= rec.attemptsLeft
    requires forall i :: 0 <= i < |attempts| ==> WrongInTime(attempts[i], rec)
    ensures Replay(rec, attempts) == rec.(attemptsLeft := rec.attemptsLeft - |attempts|)
    decreases |attempts|
  {
    if attempts != [] {
      var next := AfterCheck(rec, CheckOtp(Some(rec), attempts[0].otp, attempts[0].atMs));
      assert next == rec.(attemptsLeft := rec.attemptsLeft - 1);
      forall i | 0 <= i < |attempts[1..]| ensures WrongInTime(attempts[1..][i], next) {
        assert attempts[1..][i] == attempts[i + 1];
      }
      WrongGuessesSpendBudget(next, attempts[1..]);
    }
  }

  /** After the five wrong guesses a fresh record allows, even the right code is refused
      with "Too many failed attempts", at any time. */
  lemma BudgetExhausted(target: string, code: string, issuedMs: int, guesses: seq<Attempt>, atMs: int)
    requires |guesses| == OTP_ATTEMPTS
    requires forall i :: 0 <= i < |guesses| ==> WrongInTime(guesses[i], IssuedRecord(target, code, issuedMs))
    requires code != ""
    ensures CheckOtp(Some(Replay(IssuedRecord(target, code, issuedMs), guesses)), Str(code), atMs) == TooManyAttempts
  {
    WrongGuessesSpendBudget(IssuedRecord(target, code, issuedMs), guesses);
  }

  /** The code sent by send-otp verifies, any time up to and including ten minutes later. */
  lemma IssuedCodeVerifies(target: string, random: nat, issuedMs: int, nowMs: int)
    requires random < Pow10(OTP_LENGTH)
    requires nowMs <= issuedMs + 600000
    ensures var code := GenerateNumericOtp(OTP_LENGTH, random);
            CheckOtp(Some(IssuedRecord(target, code, issuedMs)), Str(code), nowMs) == Correct
  {
    var code := GenerateNumericOtp(OTP_LENGTH, random);
    assert code != "" by {
      assert |code| == OTP_LENGTH;
    }
    var rec := IssuedRecord(target, code, issuedMs);
    assert !rec.used && rec.attemptsLeft == OTP_ATTEMPTS && rec.expiresAt == issuedMs + 600000;
    assert rec.otpHash == Hash(code);
    CheckOtpAccepts(Some(rec), Str(code), nowMs);
  }

  /** ... and a moment later it is refused as expired. */
  lemma IssuedCodeExpires(target: string, code: string, issuedMs: int, nowMs: int)
    requires code != "" && nowMs > issuedMs + 600000
    ensures CheckOtp(Some(IssuedRecord(target, code, issuedMs)), Str(code), nowMs) == Expired
  {
  }

  /** The session a successful verification hands out authenticates its user: the token
      names the user found or created for the record's email, until it expires. */
  lemma {:induction false} VerifiedSessionAuthenticates(users: seq<User>, email: string, verifiedMs: int, nowMs: int)
    requires UsersValid(users)
    requires verifiedMs <= nowMs < (verifiedMs / 1000 + TOKEN_LIFETIME_SECONDS) * 1000
    ensures var (after, id) := FindOrCreate(users, email);
            AuthMiddleware.Authenticate(after, Some(Sign(id, AuthMiddleware.JWT_SECRET, verifiedMs, TOKEN_LIFETIME_SECONDS)), nowMs)
              == AuthMiddleware.Accept(after[id])
            && after[id].email == Some(email)
  {
    FindOrCreateValid(users, email);
    var (after, id) := FindOrCreate(users, email);
    AuthMiddleware.FreshSessionAccepted(after, id, verifiedMs, TOKEN_LIFETIME_SECONDS, nowMs);
  }

  // ---------------------------------------------------------------------------
  // GET /me, PATCH /me, POST /logout

  /** GET /me answers 200 either way: the stored user, or `user: null`. */
  datatype MeReply = MeUser(user: User) | NoUser

  function GetMe(users: seq<User>, cookie: Option<Token>, nowMs: int): (r: MeReply)
    ensures cookie.None? ==> r == NoUser
    ensures r.MeUser? ==> r.user in users
  {
    if cookie.None? || !TokenPresent(cookie.value) then NoUser
    else
      var sub := Verify(cookie.value, AuthMiddleware.JWT_SECRET, nowMs);
      if sub.None? || sub.value >= |users| then NoUser
      else MeUser(users[sub.value])
  }

  /** GET /me reports no user exactly when the middleware would refuse the request, and
      otherwise the same user the middleware resolves. */
  lemma GetMeAgreesWithMiddleware(users: seq<User>, cookie: Option<Token>, nowMs: int)
    ensures GetMe(users, cookie, nowMs).NoUser? <==> AuthMiddleware.Authenticate(users, cookie, nowMs).Reject?
    ensures GetMe(users, cookie, nowMs).MeUser? ==>
              AuthMiddleware.Authenticate(users, cookie, nowMs) == AuthMiddleware.Accept(GetMe(users, cookie, nowMs).user)
  {
  }

  datatype PatchBody = PatchBody(displayName: Json, avatarUrl: Json)

  /** A field is updated only from a string with something other than whitespace in it,
      and then to its trimmed value. */
  function TrimmedField(j: Json): (r: Option<string>)
    ensures !j.Str? ==> r.None?
    ensures r.Some? <==> j.Str? && !AllWhitespace(j.s)
    ensures r.Some? ==> r.value == Trim(j.s) && r.value != "" && |r.value| <= |j.s|
  {
    if j.Str? then
      TrimEmptyIff(j.s);
      if Trim(j.s) != "" then Some(Trim(j.s)) else None
    else None
  }

  /** A field PATCH /me takes: a string with something other than whitespace in it. */
  predicate GivesValue(j: Json)
  {
    j.Str? && !AllWhitespace(j.s)
  }

  datatype PatchReply = PatchOk(user: User) | PatchFailed(status: nat, message: string)

  /** The user as `$set: update` leaves it. */
  function ApplyPatch(u: User, body: PatchBody): (v: User)
    ensures v.(displayName := u.displayName, avatarUrl := u.avatarUrl) == u
  {
    var name := TrimmedField(body.displayName);
    var avatar := TrimmedField(body.avatarUrl);
    u.(displayName := if name.Some? then name else u.displayName,
       avatarUrl := if avatar.Some? then avatar else u.avatarUrl)
  }

  /** The decision of PATCH /me before anything is written: the subject to update, or the
      error reply. The token is checked first, then the fields, then the user's existence. */
  function PatchTarget(users: seq<User>, cookie: Option<Token>, body: PatchBody, nowMs: int): (r: PatchDecision)
    ensures r.Target? ==> r.id < |users|
  {
    if cookie.None? || !TokenPresent(cookie.value) then Failure(PatchFailed(401, "Not authenticated"))
    else
      var sub := Verify(cookie.value, AuthMiddleware.JWT_SECRET, nowMs);
      if sub.None? then Failure(PatchFailed(401, "Invalid token"))
      else if TrimmedField(body.displayName).None? && TrimmedField(body.avatarUrl).None? then
        Failure(PatchFailed(400, "No valid fields provided"))
      else if sub.value >= |users| then Failure(PatchFailed(404, "User not found"))
      else Target(sub.value)
  }

  datatype PatchDecision = Target(id: nat) | Failure(reply: PatchReply)

  /** PATCH /me decides as the auth middleware does, with the field check between the
      token check and the user lookup: the two 401 replies are exactly the middleware's
      two token rejections; past them it is 400 exactly when no field is given, then 404
      exactly when the middleware finds no user; what is left is the update of the very
      user the middleware would accept. */
  lemma PatchAgreesWithMiddleware(users: seq<User>, cookie: Option<Token>, body: PatchBody, nowMs: int)
    ensures var r := PatchTarget(users, cookie, body, nowMs);
            var a := AuthMiddleware.Authenticate(users, cookie, nowMs);
            var given := GivesValue(body.displayName) || GivesValue(body.avatarUrl);
            && (r == Failure(PatchFailed(401, "Not authenticated")) <==> a == AuthMiddleware.Reject("Not authenticated"))
            && (r == Failure(PatchFailed(401, "Invalid token")) <==> a == AuthMiddleware.Reject("Invalid token"))
            && (r == Failure(PatchFailed(400, "No valid fields provided")) <==>
                  (a.Accept? || a == AuthMiddleware.Reject("User not found")) && !given)
            && (r == Failure(PatchFailed(404, "User not found")) <==> a == AuthMiddleware.Reject("User not found") && given)
            && (r.Target? <==> a.Accept? && given)
            && (r.Target? ==> a == AuthMiddleware.Accept(users[r.id])
                              && r.id == Verify(cookie.value, AuthMiddleware.JWT_SECRET, nowMs).value)
  {
  }

  /** PATCH /me. */
  method PatchMe(users: Users, cookie: Option<Token>, body: PatchBody, nowMs: int) returns (reply: PatchReply)
    requires users.Valid()
    modifies users
    ensures users.Valid()
    ensures match PatchTarget(old(users.all), cookie, body, nowMs)
            case Failure(r) => reply == r && users.all == old(users.all)
            case Target(id) => users.all == old(users.all)[id := ApplyPatch(old(users.all)[id], body)]
                               && reply == PatchOk(users.all[id])
  {
    var t := PatchTarget(users.all, cookie, body, nowMs);
    if t.Failure? {
      return t.reply;
    }
    var id := t.id;
    users.all := users.all[id := ApplyPatch(users.all[id], body)];
    reply := PatchOk(users.all[id]);
  }

  /** What PATCH /me stores for a given field is that field trimmed, so non-empty and
      free of whitespace at both ends; fields not given keep their value; identity,
      email, phone and japa count are never touched; and sending the same patch again
      changes nothing more. */
  lemma {:induction false} PatchShape(u: User, body: PatchBody)
    ensures var v := ApplyPatch(u, body);
            && v.id == u.id && v.email == u.email && v.phone == u.phone && v.japaCount == u.japaCount
            && (!GivesValue(body.displayName) ==> v.displayName == u.displayName)
            && (!GivesValue(body.avatarUrl) ==> v.avatarUrl == u.avatarUrl)
            && (GivesValue(body.displayName) ==>
                  v.displayName == Some(Trim(body.displayName.s)) && v.displayName.value != ""
                  && !IsJsWhitespace(v.displayName.value[0])
                  && !IsJsWhitespace(v.displayName.value[|v.displayName.value| - 1]))
            && (GivesValue(body.avatarUrl) ==>
                  v.avatarUrl == Some(Trim(body.avatarUrl.s)) && v.avatarUrl.value != ""
                  && !IsJsWhitespace(v.avatarUrl.value[0])
                  && !IsJsWhitespace(v.avatarUrl.value[|v.avatarUrl.value| - 1]))
            && ApplyPatch(v, body) == v
  {
    TrimmedFieldEdges(body.displayName);
    TrimmedFieldEdges(body.avatarUrl);
    var v := ApplyPatch(u, body);
    assert ApplyPatch(v, body) == v;
  }

  /** A value the field filter keeps has something other than whitespace at both ends. */
  lemma TrimmedFieldEdges(j: Json)
    ensures TrimmedField(j).Some? ==>
              var s := TrimmedField(j).value;
              !IsJsWhitespace(s[0]) && !IsJsWhitespace(s[|s| - 1])
  {
    if j.Str? {
      TrimEdges(j.s);
    }
  }

  /** POST /logout always succeeds and clears the session cookie. */
  function Logout(): (r: (Option<Token>, string))
    ensures forall users, nowMs :: GetMe(users, r.0, nowMs) == NoUser
  {
    (None, "Logged out")
  }

  /** After logging out no session is left: GET /me reports no user and every guarded
      route answers "Not authenticated". */
  lemma LogoutEndsSession(users: seq<User>, nowMs: int)
    ensures GetMe(users, Logout().0, nowMs) == NoUser
    ensures AuthMiddleware.Authenticate(users, Logout().0, nowMs) == AuthMiddleware.Reject("Not authenticated")
  {
  }
}
