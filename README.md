# Department portal: identity pipeline

A Dafny model of the identity pipeline of the department portal's Flask
back end (`main.py`). It covers:

- the two-phase signup: `register` stages a `pending_users` row that carries
  a one-time passcode (OTP);
- `resend_otp`, and `verify_email`, which promotes the row to an account
  with a student or teacher profile;
- the refresh-token ledger used by `login`, `refresh_token` and `logout`;
- the password reset through `forgot_password` and `reset_password`;
- the access guards `token_required`, `admin_required`, `teacher_required`
  and `student_required`;
- the input predicates `validate_email` and `validate_phone`;
- `register_for_event` and the admin soft delete `delete_user`.

The model has two layers.

- **Pure layer.** The modules `Records`, `Otp`, `Tokens`, `Guards`,
  `IdGen` and `Routes` describe every route as a function. Such a function
  takes the store (`Db`), the request's inputs, the clock and the random
  draws. It returns the store after the request and the reply. Where the
  code commits part of its work before failing, that part is kept. The
  modules `SignupProperties`, `SessionProperties`, `StoreProperties` and
  `Invariants` prove what the routes promise.
- **Imperative layer.** `Portal.Backend` keeps the tables as fields that its
  handler methods update in place. A handler that works on a pending row
  loads the row into an `Otp.PendingUser` object. That object's
  `GenerateOtp` and `VerifyOtp` methods mutate its columns. The handler
  then commits the columns back, or drops the object when the request ends
  without a commit. The lookup loops for registration numbers and employee
  ids are the method `IdGen.PickUnused`. Each handler is proved to leave the
  store exactly as the matching `Routes` function says, and to preserve
  `Routes.Consistent`. So every property proved of the functions holds of
  the handlers.

Time is whole seconds on the UTC clock. A signed token is modelled by its
claims, `{user_id, type, exp}`. A bcrypt hash is modelled as an injective
function of the password.

Two routes do less than their own text suggests. The model follows the
code each time:

- **Logout.** The route's docstring (main.py:2092) says it revokes the
  refresh token. The code looks up the bearer token that `token_required`
  has just accepted as an access token (main.py:2093-2100). Access tokens
  are never in the ledger, so the lookup finds nothing and nothing is
  revoked (`SessionProperties.LogoutRevokesNothing`).
- **Password reset.** `verify_email` commits the attempt counter that a
  wrong code raises and deletes the row at five failures (main.py:1775-1786).
  `reset_password` runs the same check (main.py:2187-2194) but returns on a
  wrong code without committing. The failed attempt is therefore not
  counted, and there is no attempt ceiling
  (`SessionProperties.ResetHasNoAttemptCeiling`).

## Model

| member | source | states |
|---|---|---|
| Otp.CheckOtp | main.py:212-218 | a wrong code is `invalid` at any time; a right code is `expired` exactly when the clock is past the expiry, and `valid` otherwise (each as an if-and-only-if) |
| Otp.Issued | main.py:206-210 | an issued row has the new code, an expiry ten minutes ahead and no failed attempts, and every other column unchanged |
| Otp.AfterCheck | main.py:212-215 | a check adds one failed attempt exactly when the code is wrong and changes no other column |
| Otp.PendingUser.GenerateOtp | main.py:206-210 | the row object's columns become `Issued` of the old ones, and the drawn code is returned |
| Otp.PendingUser.VerifyOtp | main.py:212-218 | the reason is `CheckOtp` of the code and expiry before the call; `ok` holds iff the reason is valid; the columns become `AfterCheck` of the old ones |
| Otp.PendingUser.constructor | main.py:1651-1659 | the new row object holds exactly the given columns |
| Tokens.Decode | main.py:2066 | a token decodes to its claims iff the server signed it and the clock is before `exp`; a forged token is malformed |
| Tokens.Mint | main.py:720-738 | a minted token decodes, at the time it is minted, to its user and type, and expires one lifetime later |
| Tokens.GenerateTokens | main.py:717-753 | a pair is issued iff its refresh token is not yet in the ledger; the pair and the new ledger row are then given exactly; on failure nothing changes |
| Tokens.RevokeAll | main.py:2208 | same tokens; every row of the user is revoked and every other row is unchanged |
| Guards.TokenRequired | main.py:756-791 | every rejection is a 401, in this order: missing, malformed, expired, wrong type, unknown user, inactive, unverified; otherwise the account |
| Guards.RoleGuard | main.py:794-824 | a token rejection passes through; an accepted account passes iff its role is admitted, and gets a 403 otherwise |
| Guards.AdminRequired | main.py:794-802 | passes iff the token passes and the account is an admin; a wrong role gets a 403 |
| Guards.TeacherRequired | main.py:805-813 | passes iff the token passes and the account is a teacher or an admin |
| Guards.StudentRequired | main.py:816-824 | passes iff the token passes and the account is a student |
| Guards.AcceptedTokenIsAccess | main.py:2089-2098 | a token that `token_required` accepts is an access token of that account, and it is never in a well-formed ledger |
| Validation.ValidateEmailSpec | main.py:827-830 | `validate_email` accepts exactly the strings that match the pattern, either whole or without one final newline (Python's `$`) |
| Validation.MatchesEmailIsShape | main.py:829 | the left-to-right matcher accepts exactly the pattern's language: local part, '@', domain, '.', two or more letters |
| Validation.ValidEmailHasOneAt | main.py:827-830 | an accepted address, including one with the final newline that `$` lets through, has exactly one '@', with a non-empty local part before it |
| Validation.ShapeHasOneAt | main.py:827-830 | a string of the pattern's shape has exactly one '@', after a non-empty local part |
| Validation.ValidatePhone | main.py:833-838 | an empty phone is accepted; otherwise the value is 10 to 15 characters, each a digit, '+', '-' or white space, or it is 16 characters of which the first 15 are such characters and the last is a newline, which `$` lets through |
| Text.StripSpec | main.py:1626 | `strip` keeps a slice of the input that neither starts nor ends with white space, and removes only white space |
| Text.Lower | main.py:1626 | `lower` keeps the length and lower-cases each ASCII letter |
| Calendar.YYMMDDHHMMSS | main.py:1834 | the timestamp prefix is twelve digits, starts with `%y%m%d` of the same instant, and its six digit pairs spell the year modulo 100, the month, day, hour, minute and second of `FromEpoch` of that instant |
| Calendar.YYMMDD | main.py:1864 | `%y%m%d` is six digits spelling the year modulo 100, the month and the day of `FromEpoch` of the instant, and starts with `%y` |
| Calendar.YY | main.py:1822 | `%y` is two digits spelling the year of `FromEpoch` of the instant modulo 100 |
| Calendar.Two | main.py:1834 | a two-digit field spells its value modulo 100 |
| Text.Pad | main.py:1823 | a zero-padded field has exactly `width` digits and spells `n` modulo 10^width |
| Text.PadExact | main.py:1823 | a number below 10^width is spelled exactly by its padded field |
| Calendar.FromEpoch | main.py:1834 | `utcfromtimestamp` of whole seconds: a valid date that lies `t / 86400` days after 1970-01-01 (by `DaysFromCivil`), and a time of day whose seconds since midnight are the instant modulo 86400 |
| Calendar.CivilFromDaysValid | main.py:1822 | every day count gives a month from 1 to 12 and a day that exists in that month, 29 February only in leap years |
| Calendar.CivilRoundTrip | main.py:1822 | `DaysFromCivil` recovers every day count from its date, so distinct days give distinct dates |
| Calendar.KnownDates | main.py:1822 | sanity check on two samples: day 0 is 1970-01-01 and day 20088 is 2024-12-31 |
| IdGen.PickUnused | main.py:1820-1836 | the loop makes at most 20 lookups; it returns the first candidate not taken, or the fallback when all are taken; the number of lookups is given exactly |
| IdGen.FirstFreeIndex | main.py:1820-1830 | the index is that of the first candidate not taken; every earlier candidate is taken |
| IdGen.RegNoShape | main.py:1820-1836 | a registration number is either a free `YY` + six-digit candidate, or the sixteen-digit timestamp fallback after all twenty candidates were taken |
| IdGen.EmpIdShape | main.py:1863-1874 | an employee id is either a free `FAC` + `yymmdd` + four-digit candidate, or the `FAC` + hex fallback after all twenty were taken |
| IdGen.EmpIdFallback | main.py:1874 | the fallback is 13 characters: `FAC` and then ten upper-case hex digits, which are the UUID's first ten hex digits upper-cased |
| IdGen.RegNoCandidate | main.py:1822-1824 | a registration-number candidate is eight digits: `%y` of the instant, then six digits spelling the random draw |
| IdGen.RegNoFallback | main.py:1834-1836 | the fallback is sixteen digits: the twelve-digit timestamp of the instant, then four digits spelling the random suffix |
| IdGen.EmpIdCandidate | main.py:1864 | an employee-id candidate is `FAC`, then `%y%m%d` of the instant, then four digits spelling the draw from 1000 to 9999 |
| Routes.LiveUserByEmail | main.py:1637 | a found account is live and is the one the unique e-mail index names |
| Routes.ElapsedSeconds | main.py:1980 | `timedelta.seconds` lies in [0, 86400) and equals the difference when that is under a day |
| Routes.AccountOf | main.py:1789-1800 | the new account has the row's e-mail, password hash and role, and is verified, active and not deleted |
| SignupProperties.LiveUserByEmailSpec | main.py:1637 | in a consistent store, no live account holds the address iff every account with that e-mail is soft-deleted |
| SignupProperties.SignupOutcome | main.py:1629-1673 | a signup is staged (201) iff the address is valid, the password is long enough, no live account holds it, and the role and gender are in their enumerations; the new row and the mailed code are given, and the upload is queued exactly when a picture came with the form; a 500 still keeps the deletion of the old row; any other reply changes nothing |
| SignupProperties.SignupRefusals | main.py:1629-1639 | 400 for a bad address, 400 for a short password, 409 for an address held by a live account, in that order, each with no change |
| SignupProperties.RegisterRequiresFields | main.py:1620-1624 | each of email, password, fullName, userType, gender is required in that order, and an empty one is refused with no change |
| SignupProperties.ResendOutcome | main.py:1964-1995 | 404 without a row, 429 within 60 counted seconds (both with no change); otherwise a fresh code with attempts reset, expiry ten minutes ahead, and the code mailed |
| SignupProperties.ResendIgnoresWholeDays | main.py:1980 | a resend any whole number of days plus under a minute after the last write is refused as too early |
| SignupProperties.VerifyCodeFailures | main.py:1766-1786 | a wrong code counts one failure; the failure that reaches five deletes the row; a right but expired code changes nothing |
| SignupProperties.GuessesWithoutRow | main.py:1767-1769 | guesses at an address with no pending row change nothing |
| SignupProperties.WrongGuessesCounted | main.py:1772-1786 | below the ceiling, n wrong codes add exactly n failed attempts and keep the code and expiry |
| SignupProperties.WrongGuessesPurge | main.py:1767-1778 | enough wrong codes to reach five purge the row, whatever their timing; any later code then gets 404 "No pending registration" |
| SignupProperties.IssueSucceeds | main.py:1911-1920 | a successful token commit after promotion records the refresh token, queues the welcome e-mail and returns the pair |
| SignupProperties.PromoteSucceeds | main.py:1788-1920 | a successful promotion adds the account and its index entry, deletes the pending row, and adds the student profile with a fresh registration number, or the teacher profile with a fresh employee id and a faculty entry |
| SignupProperties.EnrolStudentCommits | main.py:1806-1846 | a student branch that reaches the token commit commits a profile for the new account whose registration number no existing student holds |
| SignupProperties.EnrolTeacherCommits | main.py:1850-1905 | a teacher branch that reaches the token commit adds a profile for the new account whose employee id no existing teacher holds, changing only the teacher and faculty tables of the base store |
| SignupProperties.VerificationCreatesAccount | main.py:1766-1920 | a verification succeeds only for a pending row with the right, unexpired code, and is then that row's promotion |
| SignupProperties.PromotionSurvivesTokenFailure | main.py:1907-1912 | when the token commit fails after promotion, the reply is 500 but the account stays, and a retry finds no pending row (404). The source reaches this path only through a database failure the model leaves out; `FreshIdHasNoTokens` shows that a consistent store with a fresh id never reaches it |
| SignupProperties.FreshIdHasNoTokens | main.py:314 | in a consistent store no refresh token is on record for an id no account holds, so a promotion's token commit cannot collide |
| SignupProperties.UploadTouchesOnlyAvatar | main.py:1683-1695 | the avatar callback never creates or deletes a pending row; it changes only the avatar and `updated_at` of the row for its e-mail, and no account or token |
| SignupProperties.UploadLandsOnCurrentRow | main.py:1683-1695 | an upload that completes after its signup was replaced writes onto the row that holds the e-mail now |
| SignupProperties.ForgotPasswordUniformReply | main.py:2128-2162 | the reply is the same acknowledgement whether or not a live account holds the address (an admin without a pending row aside), and no account means no change |
| SignupProperties.ForgotPasswordIgnoresFirstDraw | main.py:2139-2140 | the code drawn by `generate_otp` has no effect on the store or the reply |
| SignupProperties.ForgotPasswordStoresSecondDraw | main.py:2137-2160 | the stored and mailed code is the handler's own draw, with a fresh expiry and no failed attempts; an existing row, a signup's too, keeps its other columns; a new row copies the account's hash and role; no account or token changes |
| SessionProperties.LoginRefusals | main.py:2010-2024 | an unknown address and a wrong password get the same 401; then unverified before inactive, each a 403; none changes the store |
| SessionProperties.LoginSuccess | main.py:2010-2041 | a login succeeds iff the live account has the right password, is verified and active, and its refresh token for this second is new; only then are `last_login` and the ledger row written |
| SessionProperties.LoginTwiceInOneSecond | main.py:2027-2031 | a second login of the same account in the same second mints the same refresh token, so its commit fails with 500 |
| SessionProperties.RefreshSucceedsOnlyForLiveRows | main.py:2055-2081 | in a well-formed ledger, a refresh succeeds iff the token has an unrevoked row and the clock is before its expiry; it then mints an access token and changes nothing, so the refresh token is not rotated |
| SessionProperties.RefreshExpiredRowDeleted | main.py:2060-2063 | an unrevoked row past its expiry is deleted and the reply is 401 |
| SessionProperties.RefreshAtExpiryKeepsRow | main.py:2060-2083 | at the very second of expiry the row is kept, but the decoder already rejects the token |
| SessionProperties.RefreshRefusesRevoked | main.py:2055-2057 | a revoked token gets the same 401 as an unknown one and stays in the ledger |
| SessionProperties.LogoutRevokesNothing | main.py:2089-2104 | with a well-formed ledger, logout changes nothing; it answers 200 iff `token_required` passes, and otherwise with the guard's reply |
| SessionProperties.RefreshSurvivesLogout | main.py:2089-2104 | every refresh gives the same result after a logout as before it |
| SessionProperties.ResetSucceedsWhen | main.py:2176-2212 | a reset succeeds iff the password is long enough, a pending row exists, the code is right and unexpired, and a live account holds the address |
| SessionProperties.ResetRevokesAllSessions | main.py:2201-2210 | a successful reset stores the new hash, deletes the pending row, and revokes every refresh token of the account and no other; those tokens then refresh no more; afterwards login refuses a password with 401 exactly when its hash differs from the new one |
| SessionProperties.ResetWrongCodeChangesNothing | main.py:2187-2194 | a wrong code is refused without any write, so the attempt is not counted |
| SessionProperties.ResetHasNoAttemptCeiling | main.py:2187-2194 | any number of wrong codes leaves the store unchanged, so the row is never purged |
| SessionProperties.DeleteUserOutcome | main.py:3221-3240 | a deletion succeeds iff an admin deletes another existing account; it sets the deleted flag, clears the active flag and changes nothing else; deleting oneself is a 400 with no change |
| SessionProperties.DeleteLocksOut | main.py:3234-3235 | after a deletion the account's access tokens are refused and a login is refused as unknown; its refresh tokens are not revoked |
| StoreProperties.GenerateTokensFramed | main.py:740-747 | issuing tokens keeps every revoked ledger row present and revoked, and leaves the event tables alone |
| StoreProperties.StepFramed | main.py:1614-2626 | no request un-revokes or deletes a revoked ledger row, and only event registration touches the event tables |
| StoreProperties.RunKeepsRevocations | main.py:2055-2057 | over any sequence of requests, every revoked row stays in the ledger and stays revoked |
| StoreProperties.RevokedNeverRefreshes | main.py:2055-2057 | a token revoked once is refused at every later refresh, after any sequence of requests |
| StoreProperties.RegisterForEventOutcome | main.py:2571-2604 | a registration succeeds iff a student registers for an existing, active event, is not registered yet, the event is not full and the deadline has not passed; it adds the registration, counts one more participant and mails a confirmation |
| StoreProperties.RegisteredAfterAdd | main.py:2594-2607 | adding a registration adds one to its event's count and to no other event's count |
| StoreProperties.RegisterForEventKeepsCounts | main.py:2586-2607 | each participant count equals the number of the event's registrations, and no capacity-limited event exceeds its capacity |
| StoreProperties.RunKeepsCounts | main.py:2571-2626 | both event invariants hold after any sequence of requests |
| Invariants.RunConsistent | main.py:117-319 | the e-mail index, profile ownership, pending-row and ledger invariants hold after any sequence of requests; among them, every refresh token on record belongs to an existing account (the foreign key at main.py:314) |
| Invariants.StepConsistent | main.py:1614-2214 | every route preserves the store's consistency |
| Portal.Backend.constructor | main.py:117-319 | an empty database holding the given events is consistent |
| Portal.Backend.FindLiveUser | main.py:1637 | the lookup returns the live account holding the e-mail, as `LiveUserByEmail` says |
| Portal.Backend.Register | main.py:1614-1734 | the handler keeps the store consistent and leaves exactly the store and reply of `Routes.Register` |
| Portal.Backend.Signup | main.py:1626-1639 | the validation steps of `register`, ending as `Routes.Signup` |
| Portal.Backend.ReplacePending | main.py:1641-1673 | the old row's deletion is committed and the new row written, as `Routes.Signup` says |
| Portal.Backend.CompleteUpload | main.py:1683-1695 | the callback keeps the store consistent and ends as `Routes.CompleteUpload` |
| Portal.Backend.AttachAvatar | main.py:1687-1693 | the avatar is written onto the current row, if any, as `Routes.CompleteUpload` says |
| Portal.Backend.ResendOtp | main.py:1964-1995 | consistent; ends as `Routes.ResendOtp` |
| Portal.Backend.Resend | main.py:1975-1995 | `generate_otp` on the loaded row, then its commit, ends as `Routes.Resend` |
| Portal.Backend.VerifyEmail | main.py:1754-1961 | consistent; ends as `Routes.VerifyEmail` |
| Portal.Backend.VerifyCode | main.py:1766-1786 | `verify_otp` on the loaded row, then the purge, the commit of the failure or the promotion, ends as `Routes.VerifyCode` |
| Portal.Backend.Promote | main.py:1788-1909 | ends as `Routes.Promote` |
| Portal.Backend.AddAccount | main.py:1802-1909 | adds the account and its index entry and deletes the pending row, and changes nothing else |
| Portal.Backend.EnrolStudent | main.py:1806-1846 | the student branch with the lookup loop ends as `Routes.EnrolStudent` |
| Portal.Backend.EnrolTeacher | main.py:1850-1905 | the teacher branch with the lookup loop ends as `Routes.EnrolTeacher` |
| Portal.Backend.IssueAfterPromotion | main.py:1911-1920 | ends as `Routes.IssueAfterPromotion` |
| Portal.Backend.IssueTokens | main.py:717-753 | leaves the store and pair of `Tokens.GenerateTokens` |
| Portal.Backend.Login | main.py:1998-2041 | consistent; ends as `Routes.Login` |
| Portal.Backend.Authenticate | main.py:2006-2041 | ends as `Routes.Authenticate` |
| Portal.Backend.RefreshToken | main.py:2044-2086 | consistent; ends as `Routes.RefreshAccess` |
| Portal.Backend.Logout | main.py:2089-2104 | consistent; ends as `Routes.Logout` |
| Portal.Backend.RevokeBearer | main.py:2093-2100 | ends as `Routes.Logout` |
| Portal.Backend.ForgotPassword | main.py:2117-2162 | consistent; ends as `Routes.ForgotPassword` |
| Portal.Backend.IssueResetCode | main.py:2127-2153 | ends as `Routes.IssueResetCode` |
| Portal.Backend.Reissue | main.py:2138-2140 | the row gets `generate_otp`'s challenge with the handler's own code, and nothing else changes |
| Portal.Backend.ResetPassword | main.py:2165-2216 | consistent; ends as `Routes.ResetPassword` |
| Portal.Backend.ApplyReset | main.py:2176-2210 | `verify_otp` on the loaded row, with the count dropped on a wrong code, ends as `Routes.ApplyReset` |
| Portal.Backend.DeleteUser | main.py:3221-3240 | consistent; ends as `Routes.DeleteUser` |
| Portal.Backend.SoftDelete | main.py:3225-3236 | ends as `Routes.DeleteUser` |
| Portal.Backend.RegisterForEvent | main.py:2571-2626 | consistent; ends as `Routes.RegisterForEvent` |
| Portal.Backend.AddRegistration | main.py:2575-2607 | ends as `Routes.RegisterForEvent` |

## Left out

- HTTP routing, JSON parsing, CORS headers and response bodies. A reply is a status and a message constructor. A field that is absent and a field that is empty are both "".
- The session's queries and transactions. The tables are maps, and each commit is one assignment. A commit fails only where the model says so: an enumeration column refusing a value, a unique column refusing a duplicate, or a taken fallback identifier. Other persistence failures are not modelled.
- bcrypt is an injective function of the password, and salts are not modelled. JWT signing (HS256) is assumed sound, so only tokens the server minted decode.
- Randomness (`random.choices`, `random.randint`, `uuid4`) is passed in as parameters. The clock is a parameter in whole seconds, read once per request. `datetime.now().date()` in `register_for_event` is a separate `today` day-number parameter.
- The thread pool. Mail delivery is a notice appended to an outbox. An avatar upload is a pending entry in a multiset, and its completion callback is a separate sequential step. Cloudinary and SMTP are not modelled, and neither are the HTML templates.
- Activity logging, and the debug prints.
- `registration_status` and `verify_token`: read-only routes outside the pipeline.
- Teacher profile columns the pipeline only copies (specialization, bio, office and so on), the faculty entry's expertise and bio, and `User.updated_at`.
- `int(year)` and `int(semester)` parse errors. The registration data holds integers already.
- Text.Lower: lower-cases ASCII letters only, because Python's full Unicode case mapping is not modelled.
- Otp.PendingUser.VerifyOtp: the `otp_expiry` comparison is in whole seconds, because sub-second timestamps are not modelled.
