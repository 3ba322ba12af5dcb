# Yuva Saathi backend core, modelled in Dafny

Yuva Saathi is a job-seeker portal for Bihar. It has a Flask backend for
accounts, OTP login and resumes, and two small Express servers that feed the
district/block/village skills dashboard. This project models the logic that
sits inside those handlers. Each handler becomes a pure function over
immutable values. The database is an oracle argument, the clock is an integer
argument, and the OTP store is a map threaded through the transitions.

- `OtpService` (otp_service.py):
  - code generation, with the random choices given as a sequence of digit indices;
  - the body of the OTP mail;
  - the console equality check.
- `OtpLogin` (backend/app.py and app.py): the OTP store, `email ↦ (code, expiry)`.
  - The DB-gated variant (`IssueOtp`, `Login`) consults a lookup oracle that answers `LookupFailed`, `NoSuchUser` or `Found(row)`.
  - The stub variant (`StubIssueOtp`, `StubLogin`) performs no lookup, and it stores a code only if sending the mail did not raise.
  - `CheckOtp` is the submission logic the two variants share.
- `OtpProperties` proves properties across calls:
  - single use of a code;
  - retry after a wrong code;
  - the exact expiry boundary;
  - agreement between the two variants;
  - a store invariant;
  - a run-level theorem: without a fresh issue, a stored code is accepted at most once over any sequence of requests.
- `Forms` and `Accounts`:
  - the required-field scan shared by registration and resume generation;
  - registration;
  - e-mail verification, with the token reduced to its decoded outcome;
  - the password-login decision, with hashing as a function argument.
- `Resume`:
  - upload name acceptance and the stored path;
  - the resume "story", the list of paragraphs handed to the PDF renderer;
  - the generated-file path;
  - the download decision.
- `GeoJson` and `GeoServer` (server.js):
  - the CORS origin predicate;
  - the case-insensitive district/mandal feature filters and their 404 rule.
- `Dashboard` (app.js):
  - the naive CSV parser for the skills table;
  - the first-match `find`;
  - the drill-down responses with their three-value summary;
  - the per-district enrichment of the map endpoint.

`Wrappers`, `Text`, `Seqs` and `Users` hold shared definitions:
- `Option`;
- ASCII case folding;
- Python `strip`;
- `split`/`join` on one character;
- decimal `str(n)`;
- `filter`;
- `indexOf`;
- the user table and its lookup.

Handlers that JavaScript would abort with a `TypeError` are modelled as an explicit error value. Express turns such an error into a 500.

## Model

| member | source | states |
|---|---|---|
| OtpService.GenerateOtp | otp_service.py:7-10 | the code has exactly `length` characters (none for a length ≤ 0); position i is `"0123456789"[choice_i]`, so every character is a digit |
| OtpService.DefaultCodeIsOtpCode | otp_service.py:7-10 | with the default length the code is six decimal digits |
| OtpService.DrawsOfGeneratedCode | otp_service.py:8-9 | the choices can be read back from the code, so distinct choices give distinct codes and leading zeros survive |
| OtpService.EveryDigitStringIsGenerated | otp_service.py:8-9 | every digit string is the code of some sequence of choices |
| OtpService.OtpMailBody | otp_service.py:16-17 | the body is exactly the fixed lead text followed by the code |
| OtpService.MailBodyCarriesCode | otp_service.py:17 | the code can be recovered from the mail body |
| OtpService.OtpFlow | otp_service.py:37-47 | success exactly when the entered string equals the generated code character for character |
| OtpLogin.FreshPending | backend/app.py:258-261 | a fresh entry holds a six-digit code that expires 300 seconds after issue |
| OtpLogin.IssueOtp | backend/app.py:235-263 | the code is sent iff the email is given and the lookup finds a verified user. 400 for no email, 404 for no user, 403 for unverified, and the database error (500) exactly for a failed lookup, each with the store unchanged. On success the entry is overwritten and no other key changes |
| OtpLogin.StubIssueOtp | app.py:212-231 | no lookup is made. The code is stored iff the email is given and sending raised nothing. 400 for no email, and the send failure (500) exactly when sending raised, both with the store unchanged |
| OtpLogin.CheckOtp | backend/app.py:266-304 | the submission checks in order: incomplete, then not generated, then expired (strictly `now > expiry`), then mismatch, then match. Expired and match evict the entry; the other outcomes leave the store unchanged |
| OtpLogin.Login | backend/app.py:266-304 | login succeeds iff the code is accepted and the user is verified; the returned user is that row's summary. The entry is consumed exactly when the code is accepted, before the lookup; 403/404/500 follow the lookup. A code that is not accepted gives the submission check's own refusal (400 incomplete, 400 not generated, 400 expired, 400 invalid) and that check's store |
| OtpLogin.StubLogin | app.py:233-255 | login succeeds iff the code is accepted. It returns the Guest/User placeholder carrying the submitted email and evicts the entry. A code that is not accepted gives the submission check's own refusal and that check's store |
| OtpProperties.SecondSubmissionFindsNothing | backend/app.py:284-285 | after a consuming submission, the same submission again finds no code |
| OtpProperties.StubSecondSubmissionFindsNothing | app.py:246-247 | the same for the stub login |
| OtpProperties.WrongCodeAllowsRetry | backend/app.py:303-304 | a wrong code keeps the entry, and the right code later in the window logs in |
| OtpProperties.ExpiryBoundary | backend/app.py:280-282 | a code issued at t logs in at t+300 and is rejected as expired and evicted at t+301 |
| OtpProperties.VariantsAgree | app.py:233-255 | the two login variants make the same store transition, and the same reply whenever the code is not accepted |
| OtpProperties.HealthyLater | backend/app.py:261 | the store invariant (six-digit codes expiring at most 300 s ahead) survives the passage of time |
| OtpProperties.TransitionsKeepHealthy | backend/app.py:235-304 | all four transitions preserve the store invariant |
| OtpProperties.OnlyOtpCodesAccepted | backend/app.py:284 | under the invariant, only six-digit strings are ever accepted |
| OtpProperties.ServeKeepsOthers | backend/app.py:275-286 | a request that does not issue for this email never creates its entry, and it removes the entry when it accepts it |
| OtpProperties.AcceptedAtMostOnce | backend/app.py:235-304 | with no fresh issue for an email, any sequence of issue and login requests, database-backed or stub, accepts its code at most once, and never if no code was pending |
| Forms.FirstAbsent | backend/app.py:173-175 | the scan stops at the first required name missing from the form, and every earlier name is present |
| Forms.MissingField | backend/app.py:173-175 | nothing is reported iff every required field is present; a reported field is required and absent |
| Forms.MissingFieldIsFirst | app.py:161-163 | the reported field is the first missing one in list order |
| Forms.ExtraFieldsIrrelevant | app.py:161-163 | keys outside the required list never change the result |
| Forms.FirstAbsentOnlySeesRequired | backend/app.py:173-175 | the scan depends only on which required names are present |
| Accounts.Register | backend/app.py:111-142 | the first missing required field is reported, and only when one is missing. Otherwise a failed connection, which happens outside the `try`, gives an unhandled 500. A failed duplicate query is an error 400. A known email gives EmailTaken. A failed insert is an error 400. Registered (201) iff the connection and both statements succeed and the email is new. The new row is unverified, stores `hash(password)`, and adds exactly one key; every failure leaves the table unchanged |
| Accounts.MiddleNameNotRequired | app.py:160-163 | a form with exactly the twelve listed fields and no Middle_Name passes the check |
| Accounts.DuplicateRegistrationRefused | backend/app.py:116-118 | registering the same email a second time is refused and changes nothing |
| Accounts.VerifyEmail | backend/app.py:198-231 | a redirect happens iff the token is valid and the update succeeds; the URL is the app URL, or localhost:3000 when that is unset, followed by `/login?verified=true`. An expired token, a bad signature and an unreadable token each get their own reply, and a failed update the database error; the table is then unchanged |
| Accounts.MarkVerifiedIdempotent | backend/app.py:207-208 | marking an email verified twice is marking it once |
| Accounts.MarkVerifiedCommutes | backend/app.py:207-208 | verifications of two emails commute, and afterwards a verified email is found verified by the lookup |
| Accounts.VerifyIdempotent | backend/app.py:198-214 | verifying twice is the same as verifying once |
| Accounts.VerifyOnlySetsFlag | backend/app.py:207-209 | verification only ever raises the flag; the other columns are unchanged |
| Accounts.PasswordLogin | backend/app.py:145-161 | the checks run in order: no row, then unverified (before any hash comparison), then hash equality. Success iff the user is verified and the hashes are equal |
| Accounts.RegisterVerifyLogin | backend/app.py:111-161 | a fresh registration cannot log in until verified, then logs in with its password. With an injective hash, exactly that password works |
| Resume.UploadResume | backend/app.py:307-333 | stored iff a non-empty name ends in .pdf or .docx and the update succeeds. The path is `uploads/user_{id}_{name}` and only that user's rows change. No file part, an empty name and a bad suffix are distinct 400 errors, and a failed update on an accepted name is the 500 database error; every failure leaves the table unchanged |
| Resume.SetResumePathLastWins | backend/app.py:324 | a second upload for the same user replaces the recorded path: only the latest is remembered |
| Resume.SetResumePathCommutes | backend/app.py:324 | uploads of two different users do not interfere: their updates commute |
| Resume.UploadPathShape | backend/app.py:316-318 | the stored path lies in the uploads folder and keeps the accepted suffix |
| Resume.UploadPathInjective | backend/app.py:317 | distinct (user, file name) pairs never share a stored path |
| Resume.UploadRefusesExecutable | app.py:264 | `resume.exe` is refused as an invalid format |
| Resume.UploadStoresPdf | app.py:264-266 | `resume.pdf` from user 7 is stored as `uploads/user_7_resume.pdf` |
| Resume.FullNameWithoutMiddle | backend/app.py:362 | without a middle name, two spaces remain between first name and surname |
| Resume.FullNameStripsOuterSpace | backend/app.py:362 | only the outer whitespace is stripped: an empty first name leaves just the surname |
| Resume.HistorySectionKeepsLines | backend/app.py:372-378 | one Normal paragraph per newline-separated item, empty items included, in order; the items re-join to the field |
| Resume.CertificationSectionBullets | backend/app.py:380-386 | one stripped bullet per comma-separated item; the items re-join to the field |
| Resume.StoryLayout | backend/app.py:362-386 | after the masthead the story's headings are Education, then Employment History only if the history is non-empty, then Certifications only if the certifications are non-empty; its length is 7 plus, for each present section, four more than its separators (7 with both fields empty) |
| Resume.HistoryOfTwoLines | backend/app.py:372-378 | a history of two lines, such as "Job A\nJob B", lays out as two Normal paragraphs, one per line, under the heading and rule |
| Resume.CertificationsOfTwoItems | backend/app.py:380-386 | two comma-separated items with padding after the comma, such as "X, Y", lay out as the two bullets "- X" and "- Y" |
| Resume.GeneratedPathInjective | backend/app.py:345-346 | the file name determines the user id and the second |
| Resume.SetGeneratedPathLastWins | backend/app.py:401 | generating again for the same user replaces the recorded path |
| Resume.GeneratedAndUploadedCommute | backend/app.py:401 | the generated-path and upload-path updates touch different columns, so their order does not matter |
| Resume.GenerateResume | backend/app.py:336-413 | the first missing required key is reported before any layout. A result is produced iff the fields are present, rendering succeeded and the update succeeded; it carries the path and the story. A render failure and a failed update are distinct 500 outcomes, each exactly in its case. Every failure leaves the table unchanged |
| Resume.BaseName | backend/app.py:435 | the download name is the path's last component: it contains no '/', ends the path, and is either the whole path or preceded by '/' |
| Resume.LastComponentUnique | backend/app.py:435 | a path has only one last component, so the download name is determined by the path |
| Resume.JoinPath | backend/app.py:429 | an absolute recorded path replaces the root. Otherwise the result starts with the root and ends with the recorded path, with one '/' inserted between them iff the root is non-empty and does not already end in '/' |
| Resume.BaseNameOfJoin | backend/app.py:429-435 | the download name of the joined path is the last component of the recorded path, whatever the root |
| Resume.DownloadResume | backend/app.py:416-449 | 500 iff the query raised; 404 for no recorded path or an empty one; 404 when the file is missing; otherwise the PDF is sent. The path sent is the root joined with the recorded path, and the download name is the last component of both that path and the recorded path |
| GeoJson.FilterByName | server.js:44-49 | crashes iff some feature lacks the property. Otherwise it keeps exactly the features whose property matches ignoring case, in order and with multiplicity; the result is empty iff none match |
| GeoServer.CorsAllows | server.js:7-19 | an origin is allowed iff it is absent, empty, or one of the two listed origins |
| GeoServer.RegionFeatures | server.js:39-62 | 500 iff the file is unreadable or a feature lacks the property; 404 iff no feature matches. Otherwise 200 with only `map_geojson`: the other members are unchanged and the features are the non-empty, order-preserving subsequence of matches, each kept as many times as it occurs |
| GeoServer.MatchLoweredNeedle | server.js:68-73 | lower-casing the parameter once before filtering selects the same features |
| Dashboard.ParseRow | app.js:28-41 | the district name is always defined; the mandal name is defined iff the line has a comma |
| Dashboard.ParseSkills | app.js:27-42 | the header is dropped: one row per line break, each with a defined district name |
| Dashboard.ParseRowOfFields | app.js:29-40 | a line of one or more comma-free fields gives back its fields: names verbatim, `parseInt` of the figures, `undefined`/NaN past the last field, and counts defaulting to 0. The mandal name is defined iff there are two fields or more; with eight or more every column is read; with five or fewer the counts are all 0 |
| Dashboard.ParseRowWithoutComma | app.js:29-40 | a line without a comma is a district name only: undefined mandal, NaN figures, zero counts |
| Dashboard.ParseSkillsOfLines | app.js:27-28 | a header followed by lines parses to one row per line, in order |
| Dashboard.FindFrom | app.js:87 | `find` from a position stops at the first accepted row, reports a miss iff every row is passed over, or stops at the first row whose name or needle is undefined |
| Dashboard.FindRow | app.js:87 | `find` returns the first row whose name matches ignoring case, with every earlier row passed over |
| Dashboard.FindRowIsFirstMatch | app.js:118 | when all rows are named, lookup cannot crash; it misses iff nothing matches and otherwise hits the least matching index |
| Dashboard.DistrictLookupNeverCrashes | app.js:87 | parsed rows always carry a district name, so district lookup never raises |
| Dashboard.DrillDownFor | app.js:82-111 | 404 iff the data loaded, the boundary filter ran, and no skills row matches. A 200 carries the first matching row's `[it_jobs, non_it_jobs, test_results]` under the three fixed labels, and the order-preserving subsequence of matching boundaries, each kept as many times as it occurs, with other members unchanged |
| Dashboard.NoBoundariesStillAnswered | app.js:92-99 | a district with a skills row but no matching block still gets 200, with an empty feature list |
| Dashboard.Enrich | app.js:59-76 | a district with no matching row gets zero counts and `N/A` figures; otherwise it gets the first matching row's figures. It crashes only through an undefined name |
| Dashboard.EnrichAll | app.js:59-77 | every feature is enriched in order, or the whole map fails if any one crashes |
| Dashboard.MapData | app.js:51-80 | 500 iff districts did not load, or a feature crashes; otherwise one view per feature, in order, each the enrichment of its feature against the skills rows, with the other members unchanged |
| Dashboard.MapDataAnswersAfterParse | app.js:57-78 | with parsed skills and every district named, the map endpoint always answers 200 |

## Left out

- Database access: queries, commits, rollbacks and connections are replaced by a lookup oracle and `dbOk` flags, and the table is a map keyed by email.
- SMTP: only the OTP mail body is modelled. The verification mail is left out entirely.
- Token signing: itsdangerous signing, salts and the one-hour `max_age` are reduced to the decoded outcome `TokenCheck`.
- SHA-256 password hashing: it is a function argument, assumed injective only where a lemma says so.
- PDF rendering: reportlab is left out; only the story (the list of paragraphs) is modelled.
- Files on disk: saving uploads, `send_file` and `os.path.exists` are left out, and `os.path.exists` becomes a flag. Paths are joined with '/'.
- The ollama chat endpoint and backend/map_api.py: they call foreign services or pandas/geopandas.
- api/proxy.js: it is a network proxy.
- The constant CORS header hooks in app.py.
- The bihar-map-data passthroughs of server.js and backend/app.py: they return a file unchanged.
- `Math.random` displayType in app.js: random and presentational.
- The console `otp_flow()` run at import time: its `input()` calls become parameters of `OtpService.OtpFlow`.
- Time: `time.time()` floats become integer seconds.
- Concurrency: the unsynchronised sharing of the OTP store between requests is left out, and requests are served one after another.
- Unicode: `toLowerCase` is ASCII lower-casing, and `strip` removes only ASCII whitespace.
- Number parsing: `parseInt` is an abstract partial parser, with NaN as `None`.
- Non-string JSON values (numbers, nulls, nested objects in request bodies or properties) are left out; an absent value is `None`.
- The start-up loading in app.js happens in one `try` block, so a failure leaves every later dataset undefined. The model takes each dataset as an independent `Option`, which also covers that case.
- OtpLogin.IssueOtp: the DB-gated variant stores the code and answers 200 even when the mail is never delivered, because `send_otp_email` catches its own exceptions; there is no delivery-failure reply.
- Resume.GeneratedPathInjective: the generated file name is unique only per user and per second; two resumes for one user within the same second share a path. The model states injectivity in the (user, second) pair, not uniqueness per request.
- Resume.GenerateResume: the check that the file path is a non-empty string cannot fail, because the path is always built, so that 500 branch does not exist in the model. A failed connection (an unhandled 500 in the code) and a failed update (a handled 500) are one `dbOk` flag, as both answer 500 with the table unchanged.
- Accounts.VerifyEmail: a failed connection falls into the outer `except` (500 with the generic message) while a failed update answers 500 with the database message; the model has one database-error outcome for both, since the status and the unchanged table agree.
- Resume.DownloadResume: a failure inside `send_file` after the file was found is not modelled; the flag for `os.path.exists` is taken as the whole story of the file.
- GeoServer.CorsAllows: the code lets an empty origin through as well as an absent one, because `!origin` is true for both; the contract states the code's behaviour.
