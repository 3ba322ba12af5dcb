/** The OTP login state machine of the two deployments: `generate_otp_endpoint`
    and `login_endpoint` in backend/app.py (database-backed) and in app.py
    (database-less development stub). The process-wide `otp_store` is a map
    threaded through the transitions; time is integer seconds passed in. */
module OtpLogin {
  import opened Wrappers
  import opened OtpService
  import opened Users

  /** Seconds a pending code stays valid (`time.time() + 300`). */
  const OtpLifetime: int := 300

  /** `otp_store[email]`: the code and the instant after which it is stale. */
  datatype Pending = Pending(code: string, expiry: int)

  type Store = map<Email, Pending>

  /** Python truthiness of an optional JSON string: present and non-empty. */
  predicate Given(v: Option<string>) {
    v.Some? && v.value != ""
  }

  /** The draws `generate_otp()` consumes. */
  predicate ValidOtpDraws(draws: seq<int>) {
    ValidDraws(draws) && DefaultOtpLength <= |draws|
  }

  /** The entry an issue writes at time `now`. */
  function FreshPending(draws: seq<int>, now: int): (p: Pending)
    requires ValidOtpDraws(draws)
    ensures IsOtpCode(p.code) && p.expiry == now + OtpLifetime
  {
    DefaultCodeIsOtpCode(draws);
    Pending(GenerateOtp(DefaultOtpLength, draws), now + OtpLifetime)
  }

  // ---------------------------------------------------------------------------
  // Issuing a code

  datatype IssueOutcome =
    | OtpSent             // "OTP has been sent to your email."
    | EmailRequired       // "Email is required."
    | EmailNotFound       // "Email not found."
    | EmailNotVerified    // "Please verify your email before logging in."
    | IssueDatabaseError  // "Database error: …"
    | SendFailed          // "Failed to send OTP email."
  {
    function Status(): int {
      match this
      case OtpSent => 200
      case EmailRequired => 400
      case EmailNotFound => 404
      case EmailNotVerified => 403
      case IssueDatabaseError => 500
      case SendFailed => 500
    }
  }

  datatype Issued = Issued(outcome: IssueOutcome, store: Store)

  /** Database-backed `generate_otp_endpoint`. `lookup` is what the query for
      the email returns. The mail is sent by `send_otp_email`, which catches
      its own failures, so sending cannot stop the entry being written. */
  function IssueOtp(store: Store, email: Option<string>, lookup: Lookup, draws: seq<int>, now: int): (r: Issued)
    requires ValidOtpDraws(draws)
    ensures r.outcome == OtpSent <==> Given(email) && IsVerifiedUser(lookup)
    ensures r.outcome != OtpSent ==> r.store == store
    ensures r.outcome == OtpSent ==>
      && email.value in r.store
      && r.store[email.value] == FreshPending(draws, now)
      && r.store - {email.value} == store - {email.value}
    ensures r.outcome.Status() == 400 <==> !Given(email)
    ensures r.outcome.Status() == 404 <==> Given(email) && lookup == NoSuchUser
    ensures r.outcome.Status() == 403 <==> Given(email) && lookup.Found? && !lookup.row.verified
    ensures r.outcome.Status() == 500 <==> Given(email) && lookup == LookupFailed
    ensures r.outcome == IssueDatabaseError <==> Given(email) && lookup == LookupFailed
  {
    if !Given(email) then Issued(EmailRequired, store)
    else match lookup
      case LookupFailed => Issued(IssueDatabaseError, store)
      case NoSuchUser => Issued(EmailNotFound, store)
      case Found(row) =>
        if !row.verified then Issued(EmailNotVerified, store)
        else Issued(OtpSent, store[email.value := FreshPending(draws, now)])
  }

  /** Stub `generate_otp_endpoint`: no user lookup; the entry is written only
      when `send_otp_email` returns without raising (`sendRaised` false). */
  function StubIssueOtp(store: Store, email: Option<string>, draws: seq<int>, now: int, sendRaised: bool): (r: Issued)
    requires ValidOtpDraws(draws)
    ensures r.outcome == OtpSent <==> Given(email) && !sendRaised
    ensures r.outcome != OtpSent ==> r.store == store
    ensures r.outcome == OtpSent ==>
      && email.value in r.store
      && r.store[email.value] == FreshPending(draws, now)
      && r.store - {email.value} == store - {email.value}
    ensures r.outcome.Status() == 400 <==> !Given(email)
    ensures r.outcome.Status() == 500 <==> Given(email) && sendRaised
    ensures r.outcome == SendFailed <==> Given(email) && sendRaised
  {
    if !Given(email) then Issued(EmailRequired, store)
    else if sendRaised then Issued(SendFailed, store)
    else Issued(OtpSent, store[email.value := FreshPending(draws, now)])
  }

  // ---------------------------------------------------------------------------
  // Submitting a code

  /** How a submitted code compares with the pending entry. */
  datatype Check =
    | Incomplete    // email or otp missing or empty
    | NotGenerated  // no entry for the email
    | Expired       // now > expiry: the entry is evicted
    | Mismatch      // wrong code within the window: the entry stays
    | Matched       // right code within the window: the entry is evicted

  datatype Checked = Checked(check: Check, store: Store)

  /** The right code for the email is pending and still within its window. */
  predicate Accepts(store: Store, email: Option<string>, otp: Option<string>, now: int) {
    && Given(email) && Given(otp)
    && email.value in store
    && now <= store[email.value].expiry
    && otp.value == store[email.value].code
  }

  /** The steps of `login_endpoint` the two variants share, up to the point
      where a correct code has been consumed. */
  function CheckOtp(store: Store, email: Option<string>, otp: Option<string>, now: int): (r: Checked)
    ensures r.check == Matched <==> Accepts(store, email, otp, now)
    ensures r.check == Incomplete <==> !Given(email) || !Given(otp)
    ensures r.check == NotGenerated <==> Given(email) && Given(otp) && email.value !in store
    ensures r.check == Expired <==>
      Given(email) && Given(otp) && email.value in store && now > store[email.value].expiry
    ensures r.check in {Incomplete, NotGenerated, Mismatch} ==> r.store == store
    ensures r.check in {Expired, Matched} ==>
      email.value in store && r.store == store - {email.value}
  {
    if !Given(email) || !Given(otp) then Checked(Incomplete, store)
    else if email.value !in store then Checked(NotGenerated, store)
    else if now > store[email.value].expiry then Checked(Expired, store - {email.value})
    else if otp.value == store[email.value].code then Checked(Matched, store - {email.value})
    else Checked(Mismatch, store)
  }

  datatype LoginOutcome =
    | LoggedIn(user: UserSummary)  // "Login successful!"
    | CredentialsRequired          // "Email and OTP are required."
    | OtpNotGenerated              // "OTP not generated or expired. …"
    | OtpExpired                   // "OTP has expired. …"
    | InvalidOtp                   // "Invalid OTP."
    | LoginNotVerified             // "Please verify your email before logging in."
    | UserNotFound                 // "User not found."
    | LoginDatabaseError           // "Database error: …"
  {
    function Status(): int {
      match this
      case LoggedIn(_) => 200
      case CredentialsRequired => 400
      case OtpNotGenerated => 400
      case OtpExpired => 400
      case InvalidOtp => 400
      case LoginNotVerified => 403
      case UserNotFound => 404
      case LoginDatabaseError => 500
    }

    /** The outcomes reached only after a correct code was consumed. */
    predicate ConsumedCode() {
      LoggedIn? || LoginNotVerified? || UserNotFound? || LoginDatabaseError?
    }
  }

  datatype LoginResult = LoginResult(outcome: LoginOutcome, store: Store)

  /** The reply for the checks that precede any user lookup. */
  function RefusalOf(check: Check): LoginOutcome
    requires check != Matched
  {
    match check
    case Incomplete => CredentialsRequired
    case NotGenerated => OtpNotGenerated
    case Expired => OtpExpired
    case Mismatch => InvalidOtp
  }

  /** Database-backed `login_endpoint`. `lookup` is what the user query for the
      email returns; it is consulted only after the code has been consumed. */
  function Login(store: Store, email: Option<string>, otp: Option<string>, now: int, lookup: Lookup): (r: LoginResult)
    ensures r.outcome.LoggedIn? <==> Accepts(store, email, otp, now) && IsVerifiedUser(lookup)
    ensures r.outcome.LoggedIn? ==> r.outcome.user == SummaryOf(lookup.row)
    ensures r.outcome.ConsumedCode() <==> Accepts(store, email, otp, now)
    ensures r.outcome.ConsumedCode() ==> r.store == store - {email.value}
    ensures r.outcome == LoginNotVerified <==> Accepts(store, email, otp, now) && lookup.Found? && !lookup.row.verified
    ensures r.outcome == UserNotFound <==> Accepts(store, email, otp, now) && lookup == NoSuchUser
    ensures r.outcome == LoginDatabaseError <==> Accepts(store, email, otp, now) && lookup == LookupFailed
    ensures !Accepts(store, email, otp, now) ==>
      r == LoginResult(RefusalOf(CheckOtp(store, email, otp, now).check), CheckOtp(store, email, otp, now).store)
  {
    var c := CheckOtp(store, email, otp, now);
    if c.check != Matched then LoginResult(RefusalOf(c.check), c.store)
    else match lookup
      case LookupFailed => LoginResult(LoginDatabaseError, c.store)
      case NoSuchUser => LoginResult(UserNotFound, c.store)
      case Found(row) =>
        if row.verified then LoginResult(LoggedIn(SummaryOf(row)), c.store)
        else LoginResult(LoginNotVerified, c.store)
  }

  /** Stub `login_endpoint`: a correct code logs in a placeholder user with
      the submitted email, without any lookup. */
  function StubLogin(store: Store, email: Option<string>, otp: Option<string>, now: int): (r: LoginResult)
    ensures r.outcome.LoggedIn? <==> Accepts(store, email, otp, now)
    ensures r.outcome.LoggedIn? ==>
      && r.outcome.user == GuestSummary(email.value)
      && r.store == store - {email.value}
    ensures !r.outcome.ConsumedCode() || r.outcome.LoggedIn?
    ensures !Accepts(store, email, otp, now) ==>
      r == LoginResult(RefusalOf(CheckOtp(store, email, otp, now).check), CheckOtp(store, email, otp, now).store)
  {
    var c := CheckOtp(store, email, otp, now);
    if c.check != Matched then LoginResult(RefusalOf(c.check), c.store)
    else LoginResult(LoggedIn(GuestSummary(email.value)), c.store)
  }
}
