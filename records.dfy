/** The tables and values the identity pipeline reads and writes: accounts
    (`users`), staged signups (`pending_users`), the refresh-token ledger
    (`refresh_tokens`), role profiles, the public faculty list, events and
    their registrations, plus the replies the routes return. Time is a whole
    number of seconds on the server's UTC clock. */
module Records {

  datatype Option<+T> = None | Some(value: T)

  type Email = string
  type UserId = string
  type EventId = string

  // ---------- configuration constants

  const OtpLifetime: int := 10 * 60           // OTP_EXPIRY_MINUTES = 10
  const AccessLifetime: int := 24 * 60 * 60   // JWT_ACCESS_TOKEN_EXPIRES = 24 hours
  const RefreshLifetime: int := 30 * 24 * 60 * 60  // JWT_REFRESH_TOKEN_EXPIRES = 30 days
  const ResendInterval: int := 60             // seconds between two OTP e-mails
  const MaxOtpAttempts: int := 5              // failed codes before a signup is purged
  const MinPasswordLength: int := 6
  const MaxIdAttempts: nat := 20              // candidates tried for a generated identifier
  const SecondsPerDay: int := 24 * 60 * 60

  // ---------- enumerated columns

  datatype Role = Student | Teacher | Admin
  datatype Gender = Male | Female | OtherGender

  /** `PendingUser.role` is the enumeration ('student', 'teacher'): the
      database refuses any other value when the row is written. */
  function PendingRoleOf(s: string): (r: Option<Role>)
    ensures r.Some? ==> r.value != Admin
  {
    if s == "student" then Some(Student)
    else if s == "teacher" then Some(Teacher)
    else None
  }

  /** The `gender` column is the enumeration ('male', 'female', 'other'). */
  function GenderOf(s: string): Option<Gender> {
    if s == "male" then Some(Male)
    else if s == "female" then Some(Female)
    else if s == "other" then Some(OtherGender)
    else None
  }

  /** A bcrypt hash, treated as an injective function of the password. */
  datatype PasswordHash = Hashed(secret: string)

  // ---------- staged signups

  /** The free-form `registration_data` of a signup, reduced to the keys the
      verification step reads; an absent key is "" or 0, which Python's
      truth test treats alike. */
  datatype RegData = RegData(
    course: string, year: int, semester: int, caste: Option<string>,
    designation: string, qualification: string, experienceYears: int)

  const NoRegData := RegData("", 0, 0, None, "", "", 0)

  /** One row of `pending_users`: a signup awaiting its OTP, or the carrier
      of a password-reset OTP for an existing account. */
  datatype PendingRow = PendingRow(
    email: Email, passwordHash: PasswordHash, fullName: string, role: Role,
    gender: Option<Gender>, avatar: Option<string>, regData: RegData,
    otpCode: string, otpExpiry: int, otpAttempts: int,
    createdAt: int, updatedAt: int)

  // ---------- accounts and profiles

  datatype User = User(
    id: UserId, email: Email, passwordHash: PasswordHash, fullName: string,
    role: Role, gender: Option<Gender>, avatar: Option<string>, phone: Option<string>,
    isVerified: bool, isActive: bool, isDeleted: bool,
    createdAt: int, lastLogin: Option<int>)

  datatype StudentProfile = StudentProfile(
    userId: UserId, registrationNo: string, course: string,
    year: int, semester: int, caste: Option<string>)

  datatype TeacherProfile = TeacherProfile(
    userId: UserId, employeeId: string, designation: string,
    qualification: string, experienceYears: int)

  /** A public faculty entry created beside each teacher profile. */
  datatype FacultyEntry = FacultyEntry(
    teacherId: Option<string>, name: string, designation: string,
    qualification: string, image: Option<string>, email: Email)

  // ---------- tokens

  datatype TokenType = Access | Refresh

  /** A JSON Web Token as the server sees it: either one it signed, carrying
      the claims {user_id, type, exp}, or any other string. */
  datatype Token = Signed(userId: UserId, kind: TokenType, exp: int) | Forged(raw: string)

  datatype TokenPair = TokenPair(access: Token, refresh: Token)

  /** One row of the `refresh_tokens` ledger, keyed by the token itself. */
  datatype RefreshRecord = RefreshRecord(userId: UserId, expiresAt: int, createdAt: int, revoked: bool)

  // ---------- events

  datatype Event = Event(
    title: string, isActive: bool, maxParticipants: Option<int>,
    currentParticipants: int, registrationDeadline: Option<int>)

  datatype EventRegistration = EventRegistration(name: string, email: Email, phone: Option<string>)

  // ---------- outgoing mail and background work

  datatype NoticeKind =
    | VerificationCode(code: string)
    | NewVerificationCode(code: string)
    | ResetCode(code: string)
    | Welcome
    | EventConfirmation(event: EventId)

  /** A message handed to the mail sender (its delivery is not modelled). */
  datatype Notice = Notice(recipient: Email, kind: NoticeKind)

  // ---------- the whole store

  datatype Db = Db(
    users: map<UserId, User>,
    emailIndex: map<Email, UserId>,       // the unique index on users.email
    pending: map<Email, PendingRow>,
    ledger: map<Token, RefreshRecord>,
    students: map<UserId, StudentProfile>,
    teachers: map<UserId, TeacherProfile>,
    faculty: seq<FacultyEntry>,
    events: map<EventId, Event>,
    registrations: map<(EventId, UserId), EventRegistration>,
    outbox: seq<Notice>,
    uploads: multiset<Email>)             // avatar uploads whose completion has not run yet

  // ---------- replies

  datatype Msg =
    // input validation
    | FieldRequired(field: string)
    | EmailAndOtpRequired
    | EmailRequired
    | EmailAndPasswordRequired
    | ResetFieldsRequired
    | InvalidEmailFormat
    | PasswordTooShort
    // signup
    | EmailAlreadyRegistered
    | RegistrationInitiated(email: Email)
    | RegistrationFailed
    | NoPendingRegistration
    | TooManyAttempts
    | OtpExpired
    | InvalidOtp
    | StudentFieldsRequired
    | TeacherFieldsRequired
    | RegistrationNoExists
    | EmployeeIdExists
    | VerificationFailed
    | EmailVerified(tokens: TokenPair)
    | WaitBeforeResend
    | OtpResent
    // sessions
    | InvalidCredentials
    | LoginNotVerified
    | LoginDeactivated
    | LoginSuccessful(tokens: TokenPair)
    | RefreshTokenRequired
    | InvalidRefreshToken
    | RefreshTokenExpired
    | AccessRefreshed(access: Token)
    | LoggedOut
    | ResetAcknowledged
    | InvalidRequest
    | OtpExpiredRequestAgain
    | PasswordResetDone
    // guards
    | TokenMissing
    | InvalidToken
    | TokenExpired
    | InvalidTokenType
    | UserNotFound
    | AccountDeactivated
    | EmailNotVerified
    | AdminAccessRequired
    | TeacherAccessRequired
    | StudentAccessRequired
    // administration and events
    | CannotDeleteYourself
    | UserDeleted
    | EventNotFound
    | EventNotActive
    | AlreadyRegisteredForEvent
    | EventFull
    | DeadlinePassed
    | EventRegistered
    // an exception the route does not catch
    | InternalServerError

  datatype Reply = Reply(status: int, msg: Msg)

  datatype Result<+T> = Ok(value: T) | Err(error: Reply)
}
