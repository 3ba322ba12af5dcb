/** Properties of the OTP login state machine that relate several
    transitions: single use, retry after a wrong code, the expiry boundary,
    agreement between the two deployments, the store invariant, and
    acceptance at most once per issued code over any run of requests. */
module OtpProperties {
  import opened Wrappers
  import opened OtpService
  import opened Users
  import opened OtpLogin

  /** A consumed code is gone: submitting it again, at any time and whatever
      the database says, finds no pending code. */
  lemma SecondSubmissionFindsNothing(store: Store, email: Option<string>, otp: Option<string>,
                                     now: int, lookup: Lookup, later: int, lookup': Lookup)
    requires Login(store, email, otp, now, lookup).outcome.ConsumedCode()
    ensures Login(Login(store, email, otp, now, lookup).store, email, otp, later, lookup').outcome == OtpNotGenerated
  {
  }

  /** The same holds for the stub. */
  lemma StubSecondSubmissionFindsNothing(store: Store, email: Option<string>, otp: Option<string>,
                                         now: int, later: int)
    requires StubLogin(store, email, otp, now).outcome.LoggedIn?
    ensures StubLogin(StubLogin(store, email, otp, now).store, email, otp, later).outcome == OtpNotGenerated
  {
  }

  /** A wrong code within the window leaves the entry in place, so the right
      code still logs a verified user in until the entry expires. */
  lemma WrongCodeAllowsRetry(store: Store, email: Option<string>, wrong: Option<string>,
                             now: int, lookup: Lookup, later: int, lookup': Lookup)
    requires Login(store, email, wrong, now, lookup).outcome == InvalidOtp
    requires IsVerifiedUser(lookup')
    requires later <= store[email.value].expiry
    ensures email.value in store
    ensures Login(store, email, wrong, now, lookup).store == store
    ensures store[email.value].code != ""
      ==> Login(store, email, Some(store[email.value].code), later, lookup').outcome.LoggedIn?
  {
  }

  /** The expiry test is strict: a code issued at `issuedAt` is still good at
      `issuedAt + 300`, and one second later it is refused and its entry
      evicted. */
  lemma ExpiryBoundary(store: Store, email: string, lookup: Lookup, draws: seq<int>, issuedAt: int, lookup': Lookup)
    requires ValidOtpDraws(draws) && email != "" && IsVerifiedUser(lookup) && IsVerifiedUser(lookup')
    ensures var issued := IssueOtp(store, Some(email), lookup, draws, issuedAt).store;
            var code := Some(GenerateOtp(DefaultOtpLength, draws));
            && Login(issued, Some(email), code, issuedAt + OtpLifetime, lookup').outcome == LoggedIn(SummaryOf(lookup'.row))
            && Login(issued, Some(email), code, issuedAt + OtpLifetime + 1, lookup').outcome == OtpExpired
            && email !in Login(issued, Some(email), code, issuedAt + OtpLifetime + 1, lookup').store
  {
    DefaultCodeIsOtpCode(draws);
  }

  /** The two deployments treat the store identically, and reply identically
      to every submission that does not consume a code. */
  lemma VariantsAgree(store: Store, email: Option<string>, otp: Option<string>, now: int, lookup: Lookup)
    ensures Login(store, email, otp, now, lookup).store == StubLogin(store, email, otp, now).store
    ensures !Accepts(store, email, otp, now) ==>
      Login(store, email, otp, now, lookup).outcome == StubLogin(store, email, otp, now).outcome
  {
  }

  // ---------------------------------------------------------------------------
  // The store invariant

  /** Every pending code is six digits and expires at most 300 seconds after
      `now`. */
  predicate Healthy(store: Store, now: int) {
    forall e :: e in store ==> IsOtpCode(store[e].code) && store[e].expiry <= now + OtpLifetime
  }

  /** Time passing keeps the invariant. */
  lemma HealthyLater(store: Store, now: int, later: int)
    requires Healthy(store, now) && now <= later
    ensures Healthy(store, later)
  {
  }

  /** Every transition keeps the invariant, for requests arriving in time order. */
  lemma TransitionsKeepHealthy(store: Store, email: Option<string>, otp: Option<string>, lookup: Lookup,
                               draws: seq<int>, sendRaised: bool, before: int, now: int)
    requires Healthy(store, before) && before <= now && ValidOtpDraws(draws)
    ensures Healthy(IssueOtp(store, email, lookup, draws, now).store, now)
    ensures Healthy(StubIssueOtp(store, email, draws, now, sendRaised).store, now)
    ensures Healthy(Login(store, email, otp, now, lookup).store, now)
    ensures Healthy(StubLogin(store, email, otp, now).store, now)
  {
    HealthyLater(store, before, now);
    FreshPendingHealthy(draws, now);
  }

  /** A freshly issued entry satisfies the invariant at its issue time. */
  lemma FreshPendingHealthy(draws: seq<int>, now: int)
    requires ValidOtpDraws(draws)
    ensures IsOtpCode(FreshPending(draws, now).code) && FreshPending(draws, now).expiry <= now + OtpLifetime
  {
  }

  /** In a healthy store only a six-digit submission can be accepted. */
  lemma OnlyOtpCodesAccepted(store: Store, email: Option<string>, otp: Option<string>, now: int)
    requires Healthy(store, now) && Accepts(store, email, otp, now)
    ensures IsOtpCode(otp.value)
  {
  }

  // ---------------------------------------------------------------------------
  // Runs of requests against the OTP endpoints, database-backed or stub

  datatype Request =
    | IssueRequest(email: Option<string>, lookup: Lookup, draws: seq<int>, now: int)
    | LoginRequest(email: Option<string>, otp: Option<string>, lookup: Lookup, now: int)
    | StubIssueRequest(email: Option<string>, draws: seq<int>, now: int, sendRaised: bool)
    | StubLoginRequest(email: Option<string>, otp: Option<string>, now: int)
  {
    /** The request asks for a new code. */
    predicate IsIssue() {
      IssueRequest? || StubIssueRequest?
    }

    /** The request submits a code. */
    predicate IsLogin() {
      LoginRequest? || StubLoginRequest?
    }
  }

  predicate WellFormedRequests(requests: seq<Request>) {
    forall i :: 0 <= i < |requests| && requests[i].IsIssue() ==> ValidOtpDraws(requests[i].draws)
  }

  /** The store after serving one request. */
  function Serve(store: Store, request: Request): Store
    requires request.IsIssue() ==> ValidOtpDraws(request.draws)
  {
    match request
    case IssueRequest(email, lookup, draws, now) => IssueOtp(store, email, lookup, draws, now).store
    case LoginRequest(email, otp, lookup, now) => Login(store, email, otp, now, lookup).store
    case StubIssueRequest(email, draws, now, sendRaised) => StubIssueOtp(store, email, draws, now, sendRaised).store
    case StubLoginRequest(email, otp, now) => StubLogin(store, email, otp, now).store
  }

  /** The request submits a code that is accepted for `email`. */
  predicate AcceptsFor(store: Store, request: Request, email: string) {
    request.IsLogin() && request.email == Some(email) && Accepts(store, request.email, request.otp, request.now)
  }

  /** How many requests of the run have a code for `email` accepted. */
  function Acceptances(store: Store, requests: seq<Request>, email: string): nat
    requires WellFormedRequests(requests)
    decreases |requests|
  {
    if |requests| == 0 then 0
    else
      (if AcceptsFor(store, requests[0], email) then 1 else 0)
      + Acceptances(Serve(store, requests[0]), requests[1..], email)
  }

  /** Serving a request that is not about `email` leaves `email`'s entry alone,
      and serving one about it never creates an entry unless it is an issue. */
  lemma ServeKeepsOthers(store: Store, request: Request, email: string)
    requires request.IsIssue() ==> ValidOtpDraws(request.draws)
    requires !(request.IsIssue() && request.email == Some(email))
    ensures email in Serve(store, request) ==> email in store
    ensures AcceptsFor(store, request, email) ==> email !in Serve(store, request)
  {
    match request
    case IssueRequest(e, lookup, draws, now) =>
      var r := IssueOtp(store, e, lookup, draws, now);
      if r.outcome == OtpSent {
        assert e.value != email;
        assert email in r.store ==> email in r.store - {e.value};
      }
    case StubIssueRequest(e, draws, now, sendRaised) =>
      var r := StubIssueOtp(store, e, draws, now, sendRaised);
      if r.outcome == OtpSent {
        assert e.value != email;
        assert email in r.store ==> email in r.store - {e.value};
      }
    case LoginRequest(e, otp, lookup, now) =>
    case StubLoginRequest(e, otp, now) =>
  }

  /** An issued code is accepted at most once: in any run with no new issue
      for `email`, at most one submission for `email` is accepted, and none if
      no code was pending at the start. */
  lemma {:induction false} AcceptedAtMostOnce(store: Store, requests: seq<Request>, email: string)
    requires WellFormedRequests(requests)
    requires forall i :: 0 <= i < |requests| ==> !(requests[i].IsIssue() && requests[i].email == Some(email))
    ensures Acceptances(store, requests, email) <= if email in store then 1 else 0
    decreases |requests|
  {
    if |requests| > 0 {
      var next := Serve(store, requests[0]);
      ServeKeepsOthers(store, requests[0], email);
      assert WellFormedRequests(requests[1..]) by {
        forall i | 0 <= i < |requests[1..]| && requests[1..][i].IsIssue()
          ensures ValidOtpDraws(requests[1..][i].draws)
        {
          assert requests[1..][i] == requests[i + 1];
        }
      }
      forall i | 0 <= i < |requests[1..]|
        ensures !(requests[1..][i].IsIssue() && requests[1..][i].email == Some(email))
      {
        assert requests[1..][i] == requests[i + 1];
      }
      AcceptedAtMostOnce(next, requests[1..], email);
    }
  }
}
