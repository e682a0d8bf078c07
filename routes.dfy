/** The identity routes as functions of the store: each takes the store
    before the request (and the request's inputs, the clock and the random
    draws it uses) and gives the store after it together with the reply.
    A route that commits part of its work before failing keeps that part,
    as the source's separate commits do. */
module Routes {
  import opened Text
  import opened Validation
  import opened Records
  import opened Otp
  import opened Tokens
  import opened Guards
  import opened IdGen

  /** The unique index on `users.email` agrees with the users table, and
      every account is keyed by its own id. */
  ghost predicate IndexAgrees(users: map<UserId, User>, emailIndex: map<Email, UserId>) {
    && (forall e :: e in emailIndex ==> emailIndex[e] in users && users[emailIndex[e]].email == e)
    && (forall id :: id in users ==>
          users[id].id == id && users[id].email in emailIndex && emailIndex[users[id].email] == id)
  }

  /** A pending row is keyed by its own e-mail, holds a signup role, and has
      failed fewer than `MaxOtpAttempts` checks. */
  predicate PendingRowOk(e: Email, row: PendingRow) {
    row.email == e && row.role != Admin && 0 <= row.otpAttempts < MaxOtpAttempts
  }

  ghost predicate PendingWellFormed(pending: map<Email, PendingRow>) {
    forall e :: e in pending ==> PendingRowOk(e, pending[e])
  }

  /** Every refresh token on record belongs to an existing account. */
  ghost predicate LedgerOwned(ledger: map<Token, RefreshRecord>, users: map<UserId, User>) {
    forall t :: t in ledger ==> ledger[t].userId in users
  }

  /** What the store keeps true between requests: the e-mail index agrees
      with the users table, profiles belong to existing accounts, pending
      rows are well formed, and so is the ledger, whose rows all belong to
      existing accounts. */
  ghost predicate Consistent(db: Db) {
    && IndexAgrees(db.users, db.emailIndex)
    && db.students.Keys <= db.users.Keys
    && db.teachers.Keys <= db.users.Keys
    && PendingWellFormed(db.pending)
    && LedgerWellFormed(db.ledger)
    && LedgerOwned(db.ledger, db.users)
  }

  /** `User.query.filter_by(email=email, is_deleted=False).first()`. */
  function LiveUserByEmail(db: Db, email: Email): (r: Option<UserId>)
    ensures r.Some? ==> r.value in db.users && !db.users[r.value].isDeleted
    ensures r.Some? ==> email in db.emailIndex && db.emailIndex[email] == r.value
  {
    if email in db.emailIndex && db.emailIndex[email] in db.users && !db.users[db.emailIndex[email]].isDeleted
    then Some(db.emailIndex[email]) else None
  }

  function RegistrationNos(students: map<UserId, StudentProfile>): set<string> {
    set id | id in students :: students[id].registrationNo
  }

  function EmployeeIds(teachers: map<UserId, TeacherProfile>): set<string> {
    set id | id in teachers :: teachers[id].employeeId
  }

  /** `timedelta.seconds` of `now - since`: the seconds part only, whole
      days dropped, so it always lies in [0, 86400). */
  function ElapsedSeconds(now: int, since: int): (s: int)
    ensures 0 <= s < SecondsPerDay
    ensures 0 <= now - since < SecondsPerDay ==> s == now - since
  {
    (now - since) % SecondsPerDay
  }

  // ---------------------------------------------------------------- signup

  /** The JSON body of a signup; "" stands for an absent or empty field. */
  datatype SignupForm = SignupForm(
    email: string, password: string, fullName: string, userType: string,
    gender: string, profilePic: string, regData: RegData)

  /** `register`: validates the form, refuses an e-mail held by a live
      account, deletes (and commits the deletion of) any pending row for the
      e-mail, then stores a fresh pending row holding the drawn `code`, hands
      the code to the mailer and, with a picture, queues its upload. A role or
      gender outside the columns' enumerations fails the second commit. */
  function Register(db: Db, f: SignupForm, code: string, now: int): (Db, Reply) {
    if f.email == "" then (db, Reply(400, FieldRequired("email")))
    else if f.password == "" then (db, Reply(400, FieldRequired("password")))
    else if f.fullName == "" then (db, Reply(400, FieldRequired("fullName")))
    else if f.userType == "" then (db, Reply(400, FieldRequired("userType")))
    else if f.gender == "" then (db, Reply(400, FieldRequired("gender")))
    else Signup(db, NormalizeEmail(f.email), f, code, now)
  }

  /** Only the pending side of the store differs: the accounts, their
      profiles, the ledger and the event tables are as they were. */
  predicate AccountsKept(before: Db, after: Db) {
    && after.users == before.users && after.emailIndex == before.emailIndex
    && after.students == before.students && after.teachers == before.teachers && after.faculty == before.faculty
    && after.ledger == before.ledger
    && after.events == before.events && after.registrations == before.registrations
  }

  /** `register` once every field is present, `email` normalised. */
  function Signup(db: Db, email: Email, f: SignupForm, code: string, now: int): (res: (Db, Reply))
    ensures AccountsKept(db, res.0)
  {
    if !ValidateEmail(email) then (db, Reply(400, InvalidEmailFormat))
    else if |f.password| < MinPasswordLength then (db, Reply(400, PasswordTooShort))
    else if LiveUserByEmail(db, email).Some? then (db, Reply(409, EmailAlreadyRegistered))
    else
      var cleared := db.(pending := db.pending - {email});
      var role := PendingRoleOf(f.userType);
      var gender := GenderOf(f.gender);
      if role.None? || gender.None? then (cleared, Reply(500, RegistrationFailed))
      else
        var row := PendingRow(email, Hashed(f.password), Strip(f.fullName), role.value,
                              gender, None, f.regData, code, now + OtpLifetime, 0, now, now);
        var uploads := if f.profilePic != "" then cleared.uploads + multiset{email} else cleared.uploads;
        (cleared.(pending := cleared.pending[email := row],
                  outbox := cleared.outbox + [Notice(email, VerificationCode(code))],
                  uploads := uploads),
         Reply(201, RegistrationInitiated(email)))
  }

  /** The completion callback of an avatar upload started for `email`: with
      a URL, it writes the avatar onto the pending row for that e-mail if one
      exists now, and otherwise does nothing. The upload is then finished. */
  function CompleteUpload(db: Db, email: Email, url: Option<string>, now: int): (after: Db)
    ensures AccountsKept(db, after)
  {
    if email !in db.uploads then db
    else db.(pending := AvatarWritten(db.pending, email, url, now), uploads := db.uploads - multiset{email})
  }

  /** The pending rows after the callback's write: the avatar and
      `updated_at` of the row for `email`, when there is a URL and a row. */
  function AvatarWritten(pending: map<Email, PendingRow>, email: Email, url: Option<string>, now: int): map<Email, PendingRow> {
    if url.Some? && url.value != "" && email in pending then
      pending[email := pending[email].(avatar := url, updatedAt := now)]
    else pending
  }

  /** `resend_otp`: needs a pending row, refuses within 60 seconds (as
      `timedelta.seconds` counts them) of the row's last write, and otherwise
      issues `code` afresh and mails it. */
  function ResendOtp(db: Db, rawEmail: string, code: string, now: int): (Db, Reply) {
    if rawEmail == "" then (db, Reply(400, EmailRequired))
    else Resend(db, NormalizeEmail(rawEmail), code, now)
  }

  /** `resend_otp` for a normalised e-mail. */
  function Resend(db: Db, email: Email, code: string, now: int): (res: (Db, Reply))
    ensures AccountsKept(db, res.0)
  {
    if email !in db.pending then (db, Reply(404, NoPendingRegistration))
    else
      var row := db.pending[email];
      if ElapsedSeconds(now, row.updatedAt) < ResendInterval then (db, Reply(429, WaitBeforeResend))
      else
        (db.(pending := db.pending[email := Issued(row, code, now).(updatedAt := now)],
             outbox := db.outbox + [Notice(email, NewVerificationCode(code))]),
         Reply(200, OtpResent))
  }

  /** `verify_email`: checks the OTP of the pending row. A failure that
      brings the attempt counter to the ceiling deletes the row; an expired
      code changes nothing; a wrong code is counted. A valid code promotes
      the row to an account. */
  function VerifyEmail(db: Db, rawEmail: string, rawOtp: string, now: int,
                       newId: UserId, draws: IdDraws): (Db, Reply) {
    if rawEmail == "" || rawOtp == "" then (db, Reply(400, EmailAndOtpRequired))
    else VerifyCode(db, NormalizeEmail(rawEmail), Strip(rawOtp), now, newId, draws)
  }

  /** `verify_email` for a normalised e-mail and a stripped code. */
  function VerifyCode(db: Db, email: Email, otp: string, now: int, newId: UserId, draws: IdDraws): (Db, Reply) {
    if email !in db.pending then (db, Reply(404, NoPendingRegistration))
    else
      var row := db.pending[email];
      var reason := CheckOtp(row.otpCode, row.otpExpiry, otp, now);
      var checked := AfterCheck(row, otp, now);
      if reason != Valid then
        if checked.otpAttempts >= MaxOtpAttempts then
          (db.(pending := db.pending - {email}), Reply(400, TooManyAttempts))
        else if reason == Expired then (db, Reply(400, OtpExpired))
        else (db.(pending := db.pending[email := checked.(updatedAt := now)]), Reply(400, InvalidOtp))
      else Promote(db, row, now, newId, draws)
  }

  /** The new account a pending row becomes: verified, active, its password
      hash and avatar copied over. */
  function AccountOf(row: PendingRow, newId: UserId, now: int): (u: User)
    ensures u.id == newId && u.email == row.email && u.passwordHash == row.passwordHash && u.role == row.role
    ensures u.isVerified && u.isActive && !u.isDeleted
  {
    User(newId, row.email, row.passwordHash, row.fullName, row.role, row.gender,
         row.avatar, None, true, true, false, now, None)
  }

  /** The promotion step of `verify_email`. Adding the account fails (500,
      nothing written) when its id or e-mail is already in `users`, the e-mail
      index being unique over soft-deleted accounts too. A student needs
      course, year and semester and gets a registration number; a teacher
      needs designation and qualification and gets an employee id and a
      faculty entry (its teacher reference is still unset when the entry is
      built). A fallback identifier that is already taken fails the commit.
      The committed promotion deletes the pending row; tokens are issued in a
      later commit whose failure leaves the account in place. */
  function Promote(db: Db, row: PendingRow, now: int, newId: UserId, draws: IdDraws): (Db, Reply) {
    if newId in db.users || row.email in db.emailIndex then (db, Reply(500, VerificationFailed))
    else
      var user := AccountOf(row, newId, now);
      var base := db.(users := db.users[newId := user],
                      emailIndex := db.emailIndex[row.email := newId],
                      pending := db.pending - {row.email});
      match row.role
      case Student => EnrolStudent(db, base, user, row.regData, now, draws)
      case Teacher => EnrolTeacher(db, base, user, row.regData, now, draws)
      case Admin => IssueAfterPromotion(base, user, now)
  }

  /** The student branch of the promotion: `db` is the store before it and
      `base` the store with the account added and the pending row gone. */
  function EnrolStudent(db: Db, base: Db, user: User, rd: RegData, now: int, draws: IdDraws): (Db, Reply) {
    if rd.course == "" || rd.year == 0 || rd.semester == 0 then (db, Reply(400, StudentFieldsRequired))
    else
      var taken := RegistrationNos(db.students);
      var regNo := FirstFree(taken, RegNoCandidates(now, draws.regNos), RegNoFallback(now, draws.regSuffix));
      if regNo in taken then (db, Reply(500, RegistrationNoExists))
      else
        var profile := StudentProfile(user.id, regNo, rd.course, rd.year, rd.semester, rd.caste);
        IssueAfterPromotion(base.(students := base.students[user.id := profile]), user, now)
  }

  /** The teacher branch of the promotion. */
  function EnrolTeacher(db: Db, base: Db, user: User, rd: RegData, now: int, draws: IdDraws): (Db, Reply) {
    if rd.designation == "" || rd.qualification == "" then (db, Reply(400, TeacherFieldsRequired))
    else
      var taken := EmployeeIds(db.teachers);
      var empId := FirstFree(taken, EmpIdCandidates(now, draws.empNos), EmpIdFallback(draws.uuidHex));
      if empId in taken then (db, Reply(500, EmployeeIdExists))
      else
        var profile := TeacherProfile(user.id, empId, rd.designation, rd.qualification, rd.experienceYears);
        var entry := FacultyEntry(None, user.fullName, rd.designation, rd.qualification, user.avatar, user.email);
        IssueAfterPromotion(base.(teachers := base.teachers[user.id := profile], faculty := base.faculty + [entry]), user, now)
  }

  /** After the promotion commit: a token pair for the new account and the
      welcome e-mail; a failed token commit is answered with 500. */
  function IssueAfterPromotion(db: Db, user: User, now: int): (Db, Reply) {
    var (issued, pair) := GenerateTokens(db, user.id, now);
    if pair.None? then (db, Reply(500, VerificationFailed))
    else (issued.(outbox := issued.outbox + [Notice(user.email, Welcome)]), Reply(200, EmailVerified(pair.value)))
  }

  // -------------------------------------------------------------- sessions

  /** `login`: the same 401 for an unknown e-mail and a wrong password; then
      verification before activity, each a 403; on success `last_login` is
      committed and a token pair issued (a failing token commit is an
      uncaught error after `last_login` was written). */
  function Login(db: Db, rawEmail: string, password: string, now: int): (Db, Reply) {
    if rawEmail == "" || password == "" then (db, Reply(400, EmailAndPasswordRequired))
    else Authenticate(db, NormalizeEmail(rawEmail), password, now)
  }

  /** `login` for a normalised e-mail. */
  function Authenticate(db: Db, email: Email, password: string, now: int): (Db, Reply) {
    match LiveUserByEmail(db, email)
    case None => (db, Reply(401, InvalidCredentials))
    case Some(id) =>
      var u := db.users[id];
      if u.passwordHash != Hashed(password) then (db, Reply(401, InvalidCredentials))
      else if !u.isVerified then (db, Reply(403, LoginNotVerified))
      else if !u.isActive then (db, Reply(403, LoginDeactivated))
      else
        var logged := db.(users := db.users[id := u.(lastLogin := Some(now))]);
        var (issued, pair) := GenerateTokens(logged, id, now);
        if pair.None? then (logged, Reply(500, InternalServerError))
        else (issued, Reply(200, LoginSuccessful(pair.value)))
  }

  /** `refresh_token`: only a non-revoked ledger row is looked at (a revoked
      one reads as unknown); an expired row is deleted; the token must then
      decode as a refresh token. Success mints an access token only: the
      refresh token is not rotated and the store is unchanged. */
  function RefreshAccess(db: Db, bearer: Option<Token>, now: int): (Db, Reply) {
    if bearer.None? then (db, Reply(401, RefreshTokenRequired))
    else
      var t := bearer.value;
      if t !in db.ledger || db.ledger[t].revoked then (db, Reply(401, InvalidRefreshToken))
      else if now > db.ledger[t].expiresAt then (db.(ledger := db.ledger - {t}), Reply(401, RefreshTokenExpired))
      else match Decode(t, now)
        case Malformed => (db, Reply(401, InvalidRefreshToken))
        case SignatureExpired => (db, Reply(401, RefreshTokenExpired))
        case Claims(uid, kind) =>
          if kind != Refresh then (db, Reply(401, InvalidTokenType))
          else (db, Reply(200, AccessRefreshed(Mint(uid, Access, now))))
  }

  /** `logout`: behind `token_required`, revokes the ledger row of the bearer
      token if there is one. */
  function Logout(db: Db, bearer: Option<Token>, now: int): (Db, Reply) {
    match TokenRequired(db.users, bearer, now)
    case Err(r) => (db, r)
    case Ok(_) =>
      var t := bearer.value;
      if t in db.ledger then (db.(ledger := db.ledger[t := db.ledger[t].(revoked := true)]), Reply(200, LoggedOut))
      else (db, Reply(200, LoggedOut))
  }

  /** `forgot_password`: the same acknowledgement whether or not a live
      account holds the e-mail. For an account, an existing pending row of any
      origin gets `generate_otp` (drawing `discarded`) and then has its code
      overwritten with `code`; otherwise a new pending row is made from the
      account, which the role column refuses for an admin. */
  function ForgotPassword(db: Db, rawEmail: string, code: string, discarded: string, now: int): (Db, Reply) {
    if rawEmail == "" then (db, Reply(400, EmailRequired))
    else IssueResetCode(db, NormalizeEmail(rawEmail), code, discarded, now)
  }

  /** `forgot_password` for a normalised e-mail. */
  function IssueResetCode(db: Db, email: Email, code: string, discarded: string, now: int): (res: (Db, Reply))
    ensures AccountsKept(db, res.0)
  {
    match LiveUserByEmail(db, email)
    case None => (db, Reply(200, ResetAcknowledged))
    case Some(id) =>
      var u := db.users[id];
      var notice := Notice(email, ResetCode(code));
      if email in db.pending then
        var row := Issued(db.pending[email], discarded, now).(otpCode := code, updatedAt := now);
        (db.(pending := db.pending[email := row], outbox := db.outbox + [notice]), Reply(200, ResetAcknowledged))
      else if u.role == Admin then (db, Reply(500, InternalServerError))
      else
        var row := PendingRow(email, u.passwordHash, u.fullName, u.role, None, None, NoRegData,
                              code, now + OtpLifetime, 0, now, now);
        (db.(pending := db.pending[email := row], outbox := db.outbox + [notice]), Reply(200, ResetAcknowledged))
  }

  /** `reset_password`: a wrong code is refused without committing, so the
      attempt counter is not advanced and there is no ceiling; an expired
      code deletes the pending row; a valid one sets the new password
      hash, deletes the pending row and revokes every ledger row of the
      account. */
  function ResetPassword(db: Db, rawEmail: string, rawOtp: string, newPassword: string, now: int): (Db, Reply) {
    if rawEmail == "" || rawOtp == "" || newPassword == "" then (db, Reply(400, ResetFieldsRequired))
    else ApplyReset(db, NormalizeEmail(rawEmail), Strip(rawOtp), newPassword, now)
  }

  /** `reset_password` for a normalised e-mail and a stripped code. */
  function ApplyReset(db: Db, email: Email, otp: string, newPassword: string, now: int): (Db, Reply) {
    if |newPassword| < MinPasswordLength then (db, Reply(400, PasswordTooShort))
    else if email !in db.pending then (db, Reply(400, InvalidRequest))
    else
      var row := db.pending[email];
      match CheckOtp(row.otpCode, row.otpExpiry, otp, now)
      case Invalid => (db, Reply(400, InvalidOtp))
      case Expired => (db.(pending := db.pending - {email}), Reply(400, OtpExpiredRequestAgain))
      case Valid =>
        match LiveUserByEmail(db, email)
        case None => (db, Reply(404, UserNotFound))
        case Some(id) =>
          (db.(users := db.users[id := db.users[id].(passwordHash := Hashed(newPassword))],
               pending := db.pending - {email},
               ledger := RevokeAll(db.ledger, id)),
           Reply(200, PasswordResetDone))
  }

  // ------------------------------------------------------ admin and events

  /** `delete_user`: an admin soft-deletes another account, clearing its
      active flag; deleting oneself is refused. */
  function DeleteUser(db: Db, bearer: Option<Token>, target: UserId, now: int): (Db, Reply) {
    match AdminRequired(db.users, bearer, now)
    case Err(r) => (db, r)
    case Ok(admin) =>
      if target !in db.users then (db, Reply(404, UserNotFound))
      else if target == admin.id then (db, Reply(400, CannotDeleteYourself))
      else (db.(users := db.users[target := db.users[target].(isDeleted := true, isActive := false)]), Reply(200, UserDeleted))
  }

  /** A capacity is enforced only when `max_participants` is set and non-zero. */
  predicate CapacityLimited(ev: Event) {
    ev.maxParticipants.Some? && ev.maxParticipants.value != 0
  }

  /** `register_for_event` for a student, `today` being the server's local
      date as a day number: the event must exist and be active, the student
      not yet registered (whatever the registration's status), the event not
      full, and its deadline not passed. */
  function RegisterForEvent(db: Db, bearer: Option<Token>, event: EventId, now: int, today: int): (Db, Reply) {
    match StudentRequired(db.users, bearer, now)
    case Err(r) => (db, r)
    case Ok(u) =>
      if event !in db.events then (db, Reply(404, EventNotFound))
      else
        var ev := db.events[event];
        if !ev.isActive then (db, Reply(400, EventNotActive))
        else if (event, u.id) in db.registrations then (db, Reply(400, AlreadyRegisteredForEvent))
        else if CapacityLimited(ev) && ev.currentParticipants >= ev.maxParticipants.value then (db, Reply(400, EventFull))
        else if ev.registrationDeadline.Some? && today > ev.registrationDeadline.value then (db, Reply(400, DeadlinePassed))
        else
          (db.(registrations := db.registrations[(event, u.id) := EventRegistration(u.fullName, u.email, u.phone)],
               events := db.events[event := ev.(currentParticipants := ev.currentParticipants + 1)],
               outbox := db.outbox + [Notice(u.email, EventConfirmation(event))]),
           Reply(200, EventRegistered))
  }

  // ------------------------------------------------------------ sequences

  /** One request, or one background completion, against the store. */
  datatype Op =
    | RegisterOp(form: SignupForm, code: string, now: int)
    | VerifyEmailOp(email: string, otp: string, now: int, newId: UserId, draws: IdDraws)
    | ResendOtpOp(email: string, code: string, now: int)
    | CompleteUploadOp(upload: Email, url: Option<string>, now: int)
    | LoginOp(email: string, password: string, now: int)
    | RefreshOp(bearer: Option<Token>, now: int)
    | LogoutOp(bearer: Option<Token>, now: int)
    | ForgotPasswordOp(email: string, code: string, discarded: string, now: int)
    | ResetPasswordOp(email: string, otp: string, newPassword: string, now: int)
    | DeleteUserOp(bearer: Option<Token>, target: UserId, now: int)
    | RegisterForEventOp(bearer: Option<Token>, event: EventId, now: int, today: int)

  function Step(db: Db, op: Op): Db {
    match op
    case RegisterOp(f, code, now) => Register(db, f, code, now).0
    case VerifyEmailOp(e, otp, now, id, draws) => VerifyEmail(db, e, otp, now, id, draws).0
    case ResendOtpOp(e, code, now) => ResendOtp(db, e, code, now).0
    case CompleteUploadOp(e, url, now) => CompleteUpload(db, e, url, now)
    case LoginOp(e, pw, now) => Login(db, e, pw, now).0
    case RefreshOp(b, now) => RefreshAccess(db, b, now).0
    case LogoutOp(b, now) => Logout(db, b, now).0
    case ForgotPasswordOp(e, code, d, now) => ForgotPassword(db, e, code, d, now).0
    case ResetPasswordOp(e, otp, pw, now) => ResetPassword(db, e, otp, pw, now).0
    case DeleteUserOp(b, target, now) => DeleteUser(db, b, target, now).0
    case RegisterForEventOp(b, ev, now, today) => RegisterForEvent(db, b, ev, now, today).0
  }

  /** The store after a sequence of steps, one at a time. */
  function Run(db: Db, ops: seq<Op>): Db
    decreases |ops|
  {
    if ops == [] then db else Run(Step(db, ops[0]), ops[1..])
  }
}
