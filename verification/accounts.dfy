/** Registration, email verification and password login (`register_endpoint`,
    `register_user`, `verify_email_endpoint`, `login_user_with_password`).
    The table is the abstract `Users.Table`; password hashing is an opaque
    function passed in; token signing is reduced to the verdict it yields. */
module Accounts {
  import opened Wrappers
  import opened Forms
  import opened Users

  /** The fields `register_endpoint` insists on, in the order it checks them.
      `Middle_Name` is read but not required. */
  const RegisterFields: seq<string> := [
    "First_Name", "Surname", "Email", "Mobile_No", "Aadhaar_Number", "PAN_Number",
    "Password", "Education_Claiification", "Current_location",
    "Empolyment_history_Appraisals", "Certifications",
    "Have_You_previously_with_the_Employemnt_Exchange"]

  /** The columns stored as given, apart from names, email and password. */
  const ProfileFields: seq<string> := [
    "Mobile_No", "Aadhaar_Number", "PAN_Number", "Education_Claiification",
    "Current_location", "Empolyment_history_Appraisals", "Certifications",
    "Have_You_previously_with_the_Employemnt_Exchange"]

  datatype RegisterOutcome =
    | MissingRequiredField(field: string)  // "Missing required field: …"
    | EmailTaken                           // "Email already registered."
    | RegisterFailed                       // "Error: …" (a query or the commit raised)
    | RegisterCrashed                      // the connection failed outside the `try`: unhandled, 500
    | Registered                           // "User registered successfully! …"
  {
    function Status(): int {
      match this
      case Registered => 201
      case RegisterCrashed => 500
      case _ => 400
    }
  }

  /** How the database calls of `register_user` go: opening the connection,
      the duplicate-check query, and the insert with its commit. */
  datatype DbRun = DbRun(connects: bool, selectOk: bool, insertOk: bool)

  /** Every database call succeeds. */
  const DbWorks: DbRun := DbRun(true, true, true)

  datatype Registration = Registration(outcome: RegisterOutcome, table: Table)

  /** The record `register_user` inserts: unverified, password hashed, no
      resume paths yet. */
  function NewRecord(form: Form, hash: string -> string, newId: nat): UserRecord
    requires "First_Name" in form && "Surname" in form && "Email" in form && "Password" in form
  {
    UserRecord(
      newId, form["First_Name"],
      if "Middle_Name" in form then Some(form["Middle_Name"]) else None,
      form["Surname"], form["Email"], hash(form["Password"]), false,
      map k | k in ProfileFields && k in form :: form[k],
      None, None)
  }

  /** `register_endpoint` with `register_user`. `newId` is the identity the
      database assigns; `db` says which database calls succeed. The
      connection is opened before the `try`, so its failure escapes the
      handler; a failing query or commit is caught and reported. */
  function Register(table: Table, form: Form, hash: string -> string, newId: nat, db: DbRun): (r: Registration)
    ensures r.outcome.MissingRequiredField? <==> MissingField(RegisterFields, form).Some?
    ensures r.outcome.MissingRequiredField? ==> r.outcome.field == MissingField(RegisterFields, form).value
    ensures r.outcome == RegisterCrashed <==> MissingField(RegisterFields, form).None? && !db.connects
    ensures r.outcome == RegisterFailed <==>
      && MissingField(RegisterFields, form).None? && db.connects
      && (!db.selectOk || ("Email" in form && form["Email"] !in table && !db.insertOk))
    ensures r.outcome == EmailTaken <==>
      MissingField(RegisterFields, form).None? && db.connects && db.selectOk && "Email" in form && form["Email"] in table
    ensures r.outcome.Registered? <==>
      && MissingField(RegisterFields, form).None? && db.connects && db.selectOk && db.insertOk
      && "Email" in form && form["Email"] !in table
    ensures !r.outcome.Registered? ==> r.table == table
    ensures r.outcome.Registered? ==>
      && "Email" in form && "Password" in form
      && var email := form["Email"];
      && email in r.table
      && r.table - {email} == table
      && !r.table[email].verified
      && r.table[email].passwordHash == hash(form["Password"])
      && r.table[email].email == email
  {
    match MissingField(RegisterFields, form)
    case Some(field) => Registration(MissingRequiredField(field), table)
    case None =>
      assert RegisterFields[0] == "First_Name" && RegisterFields[1] == "Surname";
      assert RegisterFields[2] == "Email" && RegisterFields[6] == "Password";
      var email := form["Email"];
      if !db.connects then Registration(RegisterCrashed, table)
      else if !db.selectOk then Registration(RegisterFailed, table)
      else if email in table then Registration(EmailTaken, table)
      else if !db.insertOk then Registration(RegisterFailed, table)
      else Registration(Registered, table[email := NewRecord(form, hash, newId)])
  }

  /** `Middle_Name` may be left out: a form holding exactly the required
      fields passes the field check. */
  lemma MiddleNameNotRequired(form: Form)
    requires form.Keys == set j | 0 <= j < |RegisterFields| :: RegisterFields[j]
    ensures "Middle_Name" !in form
    ensures MissingField(RegisterFields, form).None?
  {
  }

  /** Registering an email a second time is refused and leaves the stored
      record as the first registration wrote it. */
  lemma DuplicateRegistrationRefused(table: Table, form: Form, form': Form, hash: string -> string,
                                     id: nat, id': nat, db': DbRun)
    requires Register(table, form, hash, id, DbWorks).outcome.Registered?
    requires db'.connects && db'.selectOk
    requires MissingField(RegisterFields, form').None?
    requires "Email" in form && "Email" in form' && form'["Email"] == form["Email"]
    ensures var first := Register(table, form, hash, id, DbWorks).table;
            var second := Register(first, form', hash, id', db');
            second.outcome == EmailTaken && second.table == first
  {
  }

  // ---------------------------------------------------------------------------
  // Email verification

  /** What `s.loads(token, salt='email-confirm', max_age=3600)` yields. */
  datatype TokenCheck = TokenValid(email: Email) | TokenExpired | TokenBadSignature | TokenUnreadable

  datatype VerifyOutcome =
    | RedirectTo(url: string)  // the front-end login page
    | LinkExpired              // "The verification link has expired."
    | InvalidToken             // "Invalid verification token."
    | VerifyDatabaseError      // "An error occurred during verification."
    | VerifyUnexpected         // "An unexpected error occurred."
  {
    function Status(): int {
      match this
      case RedirectTo(_) => 302
      case LinkExpired => 400
      case InvalidToken => 400
      case VerifyDatabaseError => 500
      case VerifyUnexpected => 500
    }
  }

  datatype Verification = Verification(outcome: VerifyOutcome, table: Table)

  /** `UPDATE dbo.Users1 SET Verified = 1 WHERE Email=?`. */
  function MarkVerified(table: Table, email: Email): (t: Table)
    ensures t.Keys == table.Keys
    ensures email in table ==> t[email] == table[email].(verified := true)
    ensures t - {email} == table - {email}
  {
    if email in table then table[email := table[email].(verified := true)] else table
  }

  /** Marking an email verified twice is marking it once. */
  lemma MarkVerifiedIdempotent(table: Table, email: Email)
    ensures MarkVerified(MarkVerified(table, email), email) == MarkVerified(table, email)
  {
  }

  /** Verifications of two emails commute, and afterwards both users are
      found verified. */
  lemma MarkVerifiedCommutes(table: Table, e1: Email, e2: Email)
    ensures MarkVerified(MarkVerified(table, e1), e2) == MarkVerified(MarkVerified(table, e2), e1)
    ensures var t := MarkVerified(MarkVerified(table, e1), e2);
            (e1 in table ==> LookupByEmail(t, e1).Found? && LookupByEmail(t, e1).row.verified)
  {
  }

  /** `verify_email_endpoint`. `appUrl` is the `APP_URL` setting. */
  function VerifyEmail(table: Table, token: TokenCheck, appUrl: Option<string>, dbOk: bool): (r: Verification)
    ensures r.outcome.RedirectTo? <==> token.TokenValid? && dbOk
    ensures r.outcome.RedirectTo? ==> r.table == MarkVerified(table, token.email)
    ensures !r.outcome.RedirectTo? ==> r.table == table
    ensures r.outcome == LinkExpired <==> token.TokenExpired?
    ensures r.outcome == InvalidToken <==> token.TokenBadSignature?
    ensures r.outcome == VerifyUnexpected <==> token.TokenUnreadable?
    ensures r.outcome == VerifyDatabaseError <==> token.TokenValid? && !dbOk
    ensures r.outcome.RedirectTo? ==>
      r.outcome.url == (if appUrl.Some? && appUrl.value != "" then appUrl.value else "http://localhost:3000")
                       + "/login?verified=true"
  {
    match token
    case TokenValid(email) =>
      if !dbOk then Verification(VerifyDatabaseError, table)
      else
        var frontend := if appUrl.Some? && appUrl.value != "" then appUrl.value else "http://localhost:3000";
        Verification(RedirectTo(frontend + "/login?verified=true"), MarkVerified(table, email))
    case TokenExpired => Verification(LinkExpired, table)
    case TokenBadSignature => Verification(InvalidToken, table)
    case TokenUnreadable => Verification(VerifyUnexpected, table)
  }

  /** Redeeming a token twice has the effect of redeeming it once. */
  lemma VerifyIdempotent(table: Table, token: TokenCheck, appUrl: Option<string>)
    ensures var once := VerifyEmail(table, token, appUrl, true);
            VerifyEmail(once.table, token, appUrl, true) == once
  {
  }

  /** Verification never clears a `Verified` flag and touches no other record. */
  lemma VerifyOnlySetsFlag(table: Table, token: TokenCheck, appUrl: Option<string>, dbOk: bool, e: Email)
    requires e in table
    ensures var t := VerifyEmail(table, token, appUrl, dbOk).table;
            && e in t
            && (table[e].verified ==> t[e].verified)
            && t[e].(verified := table[e].verified) == table[e]
  {
  }

  // ---------------------------------------------------------------------------
  // Password login

  datatype PasswordOutcome =
    | PasswordEmailNotFound         // "Email not found."
    | PasswordNotVerified           // "Please verify your email address to log in."
    | PasswordAccepted(user: UserSummary)  // "Login successful!"
    | PasswordInvalid               // "Invalid password."
    | PasswordError                 // "An error occurred."

  /** `login_user_with_password`: existence first, then the `Verified` flag,
      and only then the password hash. */
  function PasswordLogin(lookup: Lookup, password: string, hash: string -> string): (r: PasswordOutcome)
    ensures r.PasswordAccepted? <==> IsVerifiedUser(lookup) && lookup.row.passwordHash == hash(password)
    ensures r.PasswordAccepted? ==> r.user == SummaryOf(lookup.row)
    ensures lookup == NoSuchUser <==> r == PasswordEmailNotFound
    ensures lookup.Found? && !lookup.row.verified <==> r == PasswordNotVerified
    ensures r == PasswordInvalid <==> IsVerifiedUser(lookup) && lookup.row.passwordHash != hash(password)
  {
    match lookup
    case LookupFailed => PasswordError
    case NoSuchUser => PasswordEmailNotFound
    case Found(row) =>
      if !row.verified then PasswordNotVerified
      else if row.passwordHash == hash(password) then PasswordAccepted(SummaryOf(row))
      else PasswordInvalid
  }

  /** The account life cycle: a fresh registration cannot log in with its
      password until the email is verified; afterwards the registered
      password is accepted, and with an injective hash no other password is. */
  lemma RegisterVerifyLogin(table: Table, form: Form, hash: string -> string, id: nat,
                            appUrl: Option<string>, attempt: string)
    requires Register(table, form, hash, id, DbWorks).outcome.Registered?
    ensures "Email" in form && "Password" in form
    ensures var email := form["Email"];
            var t1 := Register(table, form, hash, id, DbWorks).table;
            var t2 := VerifyEmail(t1, TokenValid(email), appUrl, true).table;
            && PasswordLogin(LookupByEmail(t1, email), form["Password"], hash) == PasswordNotVerified
            && PasswordLogin(LookupByEmail(t2, email), form["Password"], hash).PasswordAccepted?
            && ((forall a, b :: hash(a) == hash(b) ==> a == b) ==>
                  (PasswordLogin(LookupByEmail(t2, email), attempt, hash).PasswordAccepted? <==> attempt == form["Password"]))
  {
  }
}
