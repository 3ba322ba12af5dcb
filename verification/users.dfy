/** The `dbo.Users1` table as the handlers see it: one record per email,
    read and written only through the lookups and updates below. */
module Users {
  import opened Wrappers

  type Email = string

  /** A row of `dbo.Users1`. Columns the handlers never branch on are kept in
      `profile`, keyed by their request field names. */
  datatype UserRecord = UserRecord(
    userId: nat,
    firstName: string,
    middleName: Option<string>,
    surname: string,
    email: Email,
    passwordHash: string,
    verified: bool,
    profile: map<string, string>,
    resumePath: Option<string>,
    generatedResumePath: Option<string>)

  /** The table, keyed by email. */
  type Table = map<Email, UserRecord>

  /** What `SELECT … WHERE Email=?` followed by `fetchone()` yields: the
      query may raise, find no row, or find one. */
  datatype Lookup = LookupFailed | NoSuchUser | Found(row: UserRecord)

  /** The lookup a handler performs against `table` when the query succeeds. */
  function LookupByEmail(table: Table, email: Email): (r: Lookup)
    ensures r != LookupFailed
    ensures r.Found? <==> email in table
    ensures r.Found? ==> r.row == table[email]
  {
    if email in table then Found(table[email]) else NoSuchUser
  }

  /** The lookup names a user whose `Verified` flag is set. */
  predicate IsVerifiedUser(lookup: Lookup) {
    lookup.Found? && lookup.row.verified
  }

  /** The `UserID` field of a login reply: a database id, or "N/A" in the stub. */
  datatype UserId = Assigned(id: nat) | NotAvailable

  /** The `user` object of a successful login reply. */
  datatype UserSummary = UserSummary(userId: UserId, firstName: string, surname: string, email: string)

  function SummaryOf(row: UserRecord): UserSummary {
    UserSummary(Assigned(row.userId), row.firstName, row.surname, row.email)
  }

  /** The placeholder identity the stub returns. */
  function GuestSummary(email: string): UserSummary {
    UserSummary(NotAvailable, "Guest", "User", email)
  }
}
