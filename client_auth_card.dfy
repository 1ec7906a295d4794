/** The e-mail sign-in card (client/src/Components/AuthCard.js and its memoised copy
    client/src/Components/Layouts/AuthCard.js): the mm:ss countdown, the e-mail and
    code validators, the expiry and resend timers, and the two-step form. The two
    copies differ in how a timer tick is written, where both forms are given below and
    proved equal, and in the `devOtpShown` state that only the first copy keeps (the
    `devOtp` field below, which nothing reads: the first copy's display of it is
    commented out, and the second copy has no such state). */
module AuthCard {
  import opened Wrappers
  import opened Text
  import opened JsValues
  import AuthRoutes
  import ServerModels

  // ---------------------------------------------------------------------------
  // formatSeconds

  /** `formatSeconds(sec)`: "00:00" for a non-positive count, otherwise whole minutes
      and the remaining seconds, each padded to two digits. */
  function FormatSeconds(sec: int): (r: string)
    ensures sec <= 0 ==> r == "00:00"
    ensures |r| >= 5 && r[|r| - 3] == ':'
  {
    if sec <= 0 then "00:00"
    else
      PaddedTwoDigits(sec % 60);
      PadStart(NatToString(sec / 60), 2, '0') + ":" + PadStart(NatToString(sec % 60), 2, '0')
  }

  /** A left-padded decimal spelling still spells the number. */
  lemma PaddedValue(n: nat, len: nat)
    ensures AllDigits(PadStart(NatToString(n), len, '0'))
    ensures DecimalValue(PadStart(NatToString(n), len, '0')) == n
  {
    var s := NatToString(n);
    NatToStringRoundTrip(n);
    if |s| < len {
      LeadingZeros(len - |s|, s);
    }
  }

  /** A display "m…m:ss": digits, a colon, and two digits spelling less than 60. */
  predicate DisplayShape(r: string)
  {
    |r| >= 5 && r[|r| - 3] == ':'
    && AllDigits(r[..|r| - 3]) && AllDigits(r[|r| - 2..]) && DecimalValue(r[|r| - 2..]) < 60
  }

  /** Reads a display "m…m:ss" back as a count of seconds. */
  function ReadSeconds(r: string): int
    requires DisplayShape(r)
  {
    DecimalValue(r[..|r| - 3]) * 60 + DecimalValue(r[|r| - 2..])
  }

  /** The display of a positive count has that shape and reads back as the count: the
      last two characters are the seconds and what comes before the colon the minutes. */
  lemma FormatSecondsRoundTrip(sec: int)
    requires sec > 0
    ensures DisplayShape(FormatSeconds(sec)) && ReadSeconds(FormatSeconds(sec)) == sec
  {
    var minutes, seconds := sec / 60, sec % 60;
    MinutesSecondsRead(minutes, seconds);
    assert FormatSeconds(sec) == Display(minutes, seconds);
  }

  /** The two padded numbers around the colon. */
  function Display(minutes: nat, seconds: nat): string
  {
    PadStart(NatToString(minutes), 2, '0') + ":" + PadStart(NatToString(seconds), 2, '0')
  }

  lemma MinutesSecondsRead(minutes: nat, seconds: nat)
    requires seconds < 60
    ensures DisplayShape(Display(minutes, seconds)) && ReadSeconds(Display(minutes, seconds)) == minutes * 60 + seconds
  {
    var m, s := PadStart(NatToString(minutes), 2, '0'), PadStart(NatToString(seconds), 2, '0');
    PaddedTwoDigits(seconds);
    PaddedValue(minutes, 2);
    PaddedValue(seconds, 2);
    AroundColon(m, s);
  }

  /** A number below 100, padded to two, takes exactly two characters. */
  lemma PaddedTwoDigits(n: nat)
    requires n < 100
    ensures |PadStart(NatToString(n), 2, '0')| == 2
  {
    assert Pow10(2) == 100 by {
      assert Pow10(1) == 10;
    }
    NatToStringLength(n, 2);
  }

  /** The two sides of "m:ss" are found again at their places. */
  lemma AroundColon(m: string, s: string)
    requires |s| == 2
    ensures var r := m + ":" + s;
            |r| == |m| + 3 && r[..|r| - 3] == m && r[|r| - 2..] == s && r[|r| - 3] == ':'
  {
  }

  /** Below 100 minutes the display is exactly five characters. */
  lemma FormatSecondsWidth(sec: int)
    requires sec < 6000
    ensures |FormatSeconds(sec)| == 5
  {
    if sec > 0 {
      NatToStringLength(sec / 60, 2);
      NatToStringLength(sec % 60, 2);
    }
  }

  /** Distinct positive counts are displayed differently. */
  lemma FormatSecondsInjective(a: int, b: int)
    requires a > 0 && b > 0 && FormatSeconds(a) == FormatSeconds(b)
    ensures a == b
  {
    FormatSecondsRoundTrip(a);
    FormatSecondsRoundTrip(b);
  }

  // ---------------------------------------------------------------------------
  // Validators

  /** A character the class `[^\s@]` accepts. */
  predicate Plain(c: char) { !IsJsWhitespace(c) && c != '@' }

  predicate AllPlain(s: string) { forall i :: 0 <= i < |s| ==> Plain(s[i]) }

  /** The position of the first '@', or |s| when there is none. */
  function AtIndex(s: string): (i: nat)
    ensures i <= |s| && (i < |s| ==> s[i] == '@')
    ensures forall k :: 0 <= k < i ==> s[k] != '@'
  {
    if s == [] || s[0] == '@' then 0 else 1 + AtIndex(s[1..])
  }

  /** `isEmailValid`: a non-empty address accepted by `/^[^\s@]+@[^\s@]+\.[^\s@]+$/`,
      checked by scanning for the '@' and then for a dot strictly inside the domain. */
  function IsEmailValid(email: string): (r: bool)
    ensures r ==> |email| >= 5 && email[0] != '@' && '@' in email
  {
    if email == "" then false
    else
      var i := AtIndex(email);
      0 < i < |email| && AllPlain(email[..i]) && AllPlain(email[i + 1..])
      && exists k :: i + 1 < k < |email| - 1 && email[k] == '.'
  }

  /** The language of the pattern: a plain local part, one '@', and a plain domain with
      a dot that has a character on each side. */
  ghost predicate EmailPattern(s: string)
  {
    exists i, k :: 0 < i && i + 1 < k < |s| - 1 && s[i] == '@' && s[k] == '.'
                   && AllPlain(s[..i]) && AllPlain(s[i + 1..])
  }

  /** The scan accepts exactly the addresses the pattern describes. */
  lemma EmailValidIff(s: string)
    ensures IsEmailValid(s) <==> EmailPattern(s)
  {
    if EmailPattern(s) {
      var i, k :| 0 < i && i + 1 < k < |s| - 1 && s[i] == '@' && s[k] == '.'
                  && AllPlain(s[..i]) && AllPlain(s[i + 1..]);
      PatternScans(s, i, k);
    }
    if IsEmailValid(s) {
      ScanMatchesPattern(s);
    }
  }

  /** An address of the pattern, with its '@' at i and a dot at k, passes the scan. */
  lemma PatternScans(s: string, i: nat, k: nat)
    requires 0 < i && i + 1 < k < |s| - 1 && s[i] == '@' && s[k] == '.'
    requires AllPlain(s[..i]) && AllPlain(s[i + 1..])
    ensures IsEmailValid(s)
  {
    var a := AtIndex(s);
    assert a <= i;
    if a < i {
      assert false;
    }
    assert AllPlain(s[a + 1..]) && i + 1 < k < |s| - 1 && s[k] == '.';
  }

  /** An address the scan accepts has the pattern, with its '@' where the scan found it. */
  lemma ScanMatchesPattern(s: string)
    requires IsEmailValid(s)
    ensures EmailPattern(s)
  {
    var i := AtIndex(s);
    var k :| i + 1 < k < |s| - 1 && s[k] == '.';
    assert 0 < i && s[i] == '@' && AllPlain(s[..i]) && AllPlain(s[i + 1..]);
  }

  /** `isOtpValid`: `/^\d{6}$/`, exactly six ASCII digits. */
  predicate IsOtpValid(otp: string)
  {
    |otp| == 6 && AllDigits(otp)
  }

  /** Every code the server issues passes the client's check. */
  lemma IssuedCodePassesClientCheck(r: nat)
    requires r < Pow10(AuthRoutes.OTP_LENGTH)
    ensures IsOtpValid(AuthRoutes.GenerateNumericOtp(AuthRoutes.OTP_LENGTH, r))
  {
  }

  /** An address the client lets through is never refused by send-otp's checks. */
  lemma ValidEmailAcceptedByServer(email: string)
    requires IsEmailValid(email)
    ensures AuthRoutes.SendOtpCheck(AuthRoutes.SendOtpBody(Undefined, Str(email))).None?
  {
  }

  /** A code the client lets through is present and a string, so verify-otp gets past
      its "otp required" check and compares it. */
  lemma ValidCodeReachesComparison(otp: string, rec: Option<ServerModels.OtpRecord>, nowMs: int)
    requires IsOtpValid(otp)
    ensures AuthRoutes.CheckOtp(rec, Str(otp), nowMs) !in {AuthRoutes.OtpMissing, AuthRoutes.NotAString}
  {
  }

  // ---------------------------------------------------------------------------
  // Timers

  const DEFAULT_OTP_TTL_SECONDS := 10 * 60
  const RESEND_COOLDOWN_SECONDS := 10

  /** One tick as AuthCard.js writes it. */
  function TickAsInAuthCard(t: int): int
  {
    if t <= 1 then 0 else t - 1
  }

  /** One tick as Layouts/AuthCard.js writes it. */
  function TickAsInLayouts(t: int): int
  {
    if t > 0 then t - 1 else 0
  }

  /** The two spellings are the same function. */
  lemma TicksAgree(t: int)
    ensures TickAsInAuthCard(t) == TickAsInLayouts(t)
  {
  }

  /** The interval only runs while the count is positive. */
  function Tick(t: int): (r: int)
    ensures t > 0 ==> r == TickAsInAuthCard(t) && r == TickAsInLayouts(t)
    ensures t <= 0 ==> r == t
  {
    if t > 0 then t - 1 else t
  }

  /** k ticks of one timer. */
  function Countdown(t: int, k: nat): (r: int)
    ensures t >= 0 ==> 0 <= r <= t
    ensures t <= 0 ==> r == t
  {
    if k == 0 then t else Countdown(Tick(t), k - 1)
  }

  /** A timer started at a non-negative t counts down to 0 and stays there. */
  lemma {:induction false} CountdownValue(t: int, k: nat)
    requires t >= 0
    ensures Countdown(t, k) == if k >= t then 0 else t - k
  {
    if k > 0 {
      CountdownValue(Tick(t), k - 1);
    }
  }

  predicate CanResend(cooldown: int) { cooldown <= 0 }

  /** After a send, resending is possible exactly from the tenth tick on. */
  lemma ResendAfterCooldown(k: nat)
    ensures CanResend(Countdown(RESEND_COOLDOWN_SECONDS, k)) <==> k >= RESEND_COOLDOWN_SECONDS
  {
    CountdownValue(RESEND_COOLDOWN_SECONDS, k);
  }

  /** `res.data.otpTtlSeconds || res.data.otpTTLSeconds || res.data.ttlSeconds || null`,
      used when it is a number and otherwise replaced by ten minutes. */
  function TtlFromServer(otpTtlSeconds: Json, otpTTLSeconds: Json, ttlSeconds: Json): (ttl: int)
    ensures Truthy(otpTtlSeconds) ==> ttl == (if otpTtlSeconds.Num? then otpTtlSeconds.n else DEFAULT_OTP_TTL_SECONDS)
    ensures !Truthy(otpTtlSeconds) && !Truthy(otpTTLSeconds) && !Truthy(ttlSeconds) ==> ttl == DEFAULT_OTP_TTL_SECONDS
  {
    var t := Or(Or(Or(otpTtlSeconds, otpTTLSeconds), ttlSeconds), Null);
    if t.Num? then t.n else DEFAULT_OTP_TTL_SECONDS
  }

  /** The server's send-otp reply carries no TTL field, so the countdown starts at ten
      minutes, the lifetime the server gives the record. */
  lemma CountdownMatchesServerExpiry()
    ensures TtlFromServer(Undefined, Undefined, Undefined) * 1000 == AuthRoutes.OTP_TTL_MINUTES * 60 * 1000
  {
  }

  // ---------------------------------------------------------------------------
  // The form

  datatype Step = EnterEmail | EnterOtp

  /** The component's state. `verified` records that the card has handed over to the
      profile page. */
  datatype CardState = CardState(step: Step, name: string, email: string, emailError: string,
                                 otp: string, otpError: string, otpId: string, devOtp: Option<string>,
                                 ttl: int, cooldown: int, sending: bool, verifying: bool, verified: bool)

  function InitialCard(): CardState
  {
    CardState(EnterEmail, "", "", "", "", "", "", None, 0, 0, false, false, false)
  }

  /** What a send-otp request came back with: the ok reply's fields, a reply without
      `ok`, or a thrown request. */
  datatype SendResult = SendOk(otpId: string, devOtp: Option<string>, ttlFields: (Json, Json, Json))
                      | SendRefused
                      | SendThrew

  /** What a verify-otp request came back with; `message` is "" when the reply had none. */
  datatype VerifyResult = VerifyOk | VerifyRefused(message: string) | VerifyThrew(message: string)

  /** The field error handleSendOtp shows before any request, or None to go ahead. */
  function SendGuard(email: string): (e: Option<string>)
    ensures e.None? <==> IsEmailValid(email)
    ensures email == "" ==> e == Some("Email is required")
  {
    if email == "" then Some("Email is required")
    else if !IsEmailValid(email) then Some("Enter a valid email address")
    else None
  }

  /** The field error handleVerifyOtp shows before any request, or None to go ahead. */
  function VerifyGuard(otp: string): (e: Option<string>)
    ensures e.None? <==> IsOtpValid(otp)
    ensures otp == "" ==> e == Some("Enter the OTP")
  {
    if otp == "" then Some("Enter the OTP")
    else if !IsOtpValid(otp) then Some("OTP must be a 6-digit code")
    else None
  }

  /** `startTimers(ttl)` after an ok reply. */
  function Issued(st: CardState, otpId: string, devOtp: Option<string>, ttlFields: (Json, Json, Json)): CardState
  {
    st.(otpId := otpId, devOtp := devOtp,
        ttl := TtlFromServer(ttlFields.0, ttlFields.1, ttlFields.2), cooldown := RESEND_COOLDOWN_SECONDS)
  }

  /** handleSendOtp, with the request's outcome. */
  function HandleSendOtp(st: CardState, result: SendResult): (st': CardState)
    ensures !IsEmailValid(st.email) ==> st' == st.(emailError := SendGuard(st.email).value)
    ensures IsEmailValid(st.email) ==> st'.emailError == "" && !st'.sending
    ensures st'.step == EnterOtp <==> (IsEmailValid(st.email) && result.SendOk?) || (st.step == EnterOtp && !(IsEmailValid(st.email) && result.SendOk?))
    ensures IsEmailValid(st.email) && result.SendOk? ==> !CanResend(st'.cooldown) && st'.otpId == result.otpId
  {
    match SendGuard(st.email)
    case Some(e) => st.(emailError := e)
    case None =>
      var cleared := st.(emailError := "", sending := false);
      if result.SendOk? then Issued(cleared, result.otpId, result.devOtp, result.ttlFields).(step := EnterOtp)
      else cleared
  }

  /** handleVerifyOtp, with the request's outcome. */
  function HandleVerifyOtp(st: CardState, result: VerifyResult): (st': CardState)
    ensures !IsOtpValid(st.otp) ==> st' == st.(otpError := VerifyGuard(st.otp).value)
    ensures st'.verified <==> st.verified || (IsOtpValid(st.otp) && result.VerifyOk?)
    ensures IsOtpValid(st.otp) && result.VerifyRefused? ==>
              st'.otpError == (if result.message != "" then result.message else "Invalid OTP")
    ensures st'.step == st.step && st'.otp == st.otp && st'.otpId == st.otpId
  {
    match VerifyGuard(st.otp)
    case Some(e) => st.(otpError := e)
    case None =>
      var cleared := st.(otpError := "", verifying := false);
      match result
      case VerifyOk => cleared.(verified := true)
      case VerifyRefused(m) => cleared.(otpError := if m != "" then m else "Invalid OTP")
      case VerifyThrew(m) => if m != "" then cleared.(otpError := m) else cleared
  }

  /** handleResend, with the request's outcome: nothing at all happens during the
      cooldown. */
  function HandleResend(st: CardState, result: SendResult): (st': CardState)
    ensures !CanResend(st.cooldown) ==> st' == st
    ensures CanResend(st.cooldown) ==> st'.otp == "" && st'.otpError == "" && st'.step == st.step
    ensures CanResend(st.cooldown) && result.SendOk? ==> !CanResend(st'.cooldown) && st'.otpId == result.otpId
    ensures CanResend(st.cooldown) && !result.SendOk? ==> st'.otpId == st.otpId && st'.ttl == st.ttl
  {
    if !CanResend(st.cooldown) then st
    else
      var cleared := st.(otp := "", otpError := "", sending := false);
      if result.SendOk? then Issued(cleared, result.otpId, result.devOtp, result.ttlFields) else cleared
  }

  /** The Back link on the code step. */
  function Back(st: CardState): (st': CardState)
    ensures st'.step == EnterEmail && st'.otp == "" && st'.otpError == ""
    ensures st'.email == st.email && st'.otpId == st.otpId && st'.cooldown == st.cooldown
  {
    st.(step := EnterEmail, otp := "", otpError := "")
  }

  /** Typing in the e-mail or code field clears that field's error. */
  function OnEmailChange(st: CardState, value: string): (st': CardState)
    ensures st'.email == value && st'.emailError == ""
  {
    st.(email := value, emailError := "")
  }

  function OnOtpChange(st: CardState, value: string): (st': CardState)
    ensures st'.otp == value && st'.otpError == ""
  {
    st.(otp := value, otpError := "")
  }

  /** One second passes: both timers tick. */
  function TickCard(st: CardState): (st': CardState)
    ensures st'.ttl == (if st.ttl > 0 then st.ttl - 1 else st.ttl)
    ensures st'.cooldown == (if st.cooldown > 0 then st.cooldown - 1 else st.cooldown)
    ensures st'.(ttl := st.ttl, cooldown := st.cooldown) == st
  {
    st.(ttl := Tick(st.ttl), cooldown := Tick(st.cooldown))
  }

  function TickCardN(st: CardState, k: nat): CardState
    decreases k
  {
    if k == 0 then st else TickCardN(TickCard(st), k - 1)
  }

  lemma {:induction false} TickCardNCooldown(st: CardState, k: nat)
    ensures TickCardN(st, k).cooldown == Countdown(st.cooldown, k)
    ensures TickCardN(st, k).otpId == st.otpId && TickCardN(st, k).step == st.step
    decreases k
  {
    if k > 0 {
      TickCardNCooldown(TickCard(st), k - 1);
    }
  }

  /** After a successful send the resend button does nothing for ten seconds and works
      from then on. */
  lemma {:induction false} ResendLockedAfterSend(st: CardState, sent: SendResult, k: nat, again: SendResult)
    requires IsEmailValid(st.email) && sent.SendOk?
    ensures var later := TickCardN(HandleSendOtp(st, sent), k);
            (k < RESEND_COOLDOWN_SECONDS ==> HandleResend(later, again) == later)
            && (k >= RESEND_COOLDOWN_SECONDS ==> HandleResend(later, again).otp == "")
  {
    var sentState := HandleSendOtp(st, sent);
    TickCardNCooldown(sentState, k);
    ResendAfterCooldown(k);
  }

  /** The countdown shown on the code step right after a send without TTL fields. */
  lemma FreshCountdownDisplay(st: CardState, otpId: string, devOtp: Option<string>)
    requires IsEmailValid(st.email)
    ensures FormatSeconds(HandleSendOtp(st, SendOk(otpId, devOtp, (Undefined, Undefined, Undefined))).ttl) == "10:00"
  {
    FreshCountdown(st, otpId, devOtp);
    TenMinutesDisplay();
  }

  /** A send whose reply has no TTL field starts the countdown at 600 seconds. */
  lemma FreshCountdown(st: CardState, otpId: string, devOtp: Option<string>)
    requires IsEmailValid(st.email)
    ensures HandleSendOtp(st, SendOk(otpId, devOtp, (Undefined, Undefined, Undefined))).ttl == 600
  {
    assert SendGuard(st.email).None?;
    assert TtlFromServer(Undefined, Undefined, Undefined) == 600;
  }

  /** 600 seconds are displayed as "10:00". */
  lemma TenMinutesDisplay()
    ensures FormatSeconds(600) == "10:00"
  {
    var sec := 600;
    assert sec / 60 == 10 && sec % 60 == 0;
    assert FormatSeconds(sec) == Display(sec / 60, sec % 60);
    TenPadded();
    ZeroPadded();
  }

  lemma TenPadded()
    ensures PadStart(NatToString(10), 2, '0') == "10"
  {
    assert NatToString(1) == "1";
    assert NatToString(10) == NatToString(1) + [DigitChar(0)];
  }

  lemma ZeroPadded()
    ensures PadStart(NatToString(0), 2, '0') == "00"
  {
    assert NatToString(0) == "0";
    assert Repeat('0', 1) == "0";
  }

  /** The card's state variables, set by its handlers and by the two interval timers. */
  class CardForm {
    var step: Step
    var name: string
    var email: string
    var emailError: string
    var otp: string
    var otpError: string
    var otpId: string
    var devOtp: Option<string>
    var ttl: int
    var cooldown: int
    var sending: bool
    var verifying: bool
    var verified: bool

    function State(): CardState
      reads this
    {
      CardState(step, name, email, emailError, otp, otpError, otpId, devOtp, ttl, cooldown, sending, verifying, verified)
    }

    constructor ()
      ensures State() == InitialCard()
    {
      step, name, email, emailError := EnterEmail, "", "", "";
      otp, otpError, otpId, devOtp := "", "", "", None;
      ttl, cooldown := 0, 0;
      sending, verifying, verified := false, false, false;
    }

    /** The name/e-mail step's variables take their values in the next render. */
    method RenderEntry(next: CardState)
      modifies this`step, this`name, this`email, this`emailError
      ensures step == next.step && name == next.name && email == next.email && emailError == next.emailError
    {
      step, name, email, emailError := next.step, next.name, next.email, next.emailError;
    }

    /** The code step's variables take their values in the next render. */
    method RenderCode(next: CardState)
      modifies this`otp, this`otpError, this`otpId, this`devOtp
      ensures otp == next.otp && otpError == next.otpError && otpId == next.otpId && devOtp == next.devOtp
    {
      otp, otpError, otpId, devOtp := next.otp, next.otpError, next.otpId, next.devOtp;
    }

    /** The countdowns and the request flags take their values in the next render. */
    method RenderTimers(next: CardState)
      modifies this`ttl, this`cooldown, this`sending, this`verifying, this`verified
      ensures ttl == next.ttl && cooldown == next.cooldown
      ensures sending == next.sending && verifying == next.verifying && verified == next.verified
    {
      ttl, cooldown := next.ttl, next.cooldown;
      sending, verifying, verified := next.sending, next.verifying, next.verified;
    }

    /** Every state variable takes its value in the next render. */
    method Render(next: CardState)
      modifies this
      ensures State() == next
    {
      RenderEntry(next);
      RenderCode(next);
      RenderTimers(next);
    }

    /** handleSendOtp: the guard's message, or the cleared errors and, once the code is
        sent, its id, the countdowns and the code step. */
    method SendCode(result: SendResult)
      modifies this
      ensures State() == HandleSendOtp(old(State()), result)
    {
      var now := State();
      var e := SendGuard(email);
      if e.Some? {
        Render(now.(emailError := e.value));
        return;
      }
      var cleared := now.(emailError := "", sending := false);
      if result.SendOk? {
        var newTtl := TtlFromServer(result.ttlFields.0, result.ttlFields.1, result.ttlFields.2);
        Render(cleared.(otpId := result.otpId, devOtp := result.devOtp, ttl := newTtl,
                        cooldown := RESEND_COOLDOWN_SECONDS, step := EnterOtp));
      } else {
        Render(cleared);
      }
    }

    /** handleVerifyOtp */
    method VerifyCode(result: VerifyResult)
      modifies this
      ensures State() == HandleVerifyOtp(old(State()), result)
    {
      var now := State();
      var e := VerifyGuard(otp);
      if e.Some? {
        Render(now.(otpError := e.value));
        return;
      }
      var cleared := now.(otpError := "", verifying := false);
      match result {
        case VerifyOk =>
          Render(cleared.(verified := true));
        case VerifyRefused(m) =>
          Render(cleared.(otpError := if m != "" then m else "Invalid OTP"));
        case VerifyThrew(m) =>
          Render(if m != "" then cleared.(otpError := m) else cleared);
      }
    }

    /** handleResend: nothing while the cooldown runs; otherwise the code field and its
        error are cleared and a sent code restarts both countdowns. */
    method ResendCode(result: SendResult)
      modifies this
      ensures State() == HandleResend(old(State()), result)
    {
      if !CanResend(cooldown) {
        return;
      }
      var cleared := State().(otp := "", otpError := "", sending := false);
      if result.SendOk? {
        var newTtl := TtlFromServer(result.ttlFields.0, result.ttlFields.1, result.ttlFields.2);
        Render(cleared.(otpId := result.otpId, devOtp := result.devOtp, ttl := newTtl,
                        cooldown := RESEND_COOLDOWN_SECONDS));
      } else {
        Render(cleared);
      }
    }

    method GoBack()
      modifies this
      ensures State() == Back(old(State()))
    {
      step := EnterEmail;
      otp := "";
      otpError := "";
    }

    method EmailChanged(value: string)
      modifies this
      ensures State() == OnEmailChange(old(State()), value)
    {
      email := value;
      emailError := "";
    }

    method OtpChanged(value: string)
      modifies this
      ensures State() == OnOtpChange(old(State()), value)
    {
      otp := value;
      otpError := "";
    }

    /** One second of both intervals. */
    method Second()
      modifies this
      ensures State() == TickCard(old(State()))
    {
      if ttl > 0 {
        ttl := ttl - 1;
      }
      if cooldown > 0 {
        cooldown := cooldown - 1;
      }
    }
  }
}
