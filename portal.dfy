/** The route handlers as they run against the database session: the
    tables are fields of one object that the handlers update in place. A
    handler that works on a pending row loads it into a `PendingUser`
    object, calls that object's OTP methods, and commits its columns back
    (or drops the object, when the request ends without a commit). Every
    handler is proved to leave the store exactly as the corresponding
    function of `Routes` describes, and to keep it `Consistent`, so the
    properties proved of those functions hold of the handlers. */
module Portal {
  import opened Text
  import opened Validation
  import opened Records
  import opened Otp
  import opened Tokens
  import opened Guards
  import opened IdGen
  import opened Routes
  import Invariants

  class Backend {
    var users: map<UserId, User>
    var emailIndex: map<Email, UserId>
    /** The committed `pending_users` rows. */
    var pending: map<Email, PendingRow>
    var ledger: map<Token, RefreshRecord>
    var students: map<UserId, StudentProfile>
    var teachers: map<UserId, TeacherProfile>
    var faculty: seq<FacultyEntry>
    var events: map<EventId, Event>
    var registrations: map<(EventId, UserId), EventRegistration>
    var outbox: seq<Notice>
    var uploads: multiset<Email>

    /** The store as a value. */
    ghost function Store(): Db
      reads this
    {
      Db(users, emailIndex, pending, ledger, students, teachers, faculty, events, registrations, outbox, uploads)
    }

    ghost predicate Valid()
      reads this
    {
      Consistent(Store())
    }

    /** An empty database holding the given events. */
    constructor (initialEvents: map<EventId, Event>)
      ensures Valid()
      ensures Store() == Db(map[], map[], map[], map[], map[], map[], [], initialEvents, map[], [], multiset{})
    {
      users, emailIndex, pending, ledger := map[], map[], map[], map[];
      students, teachers, faculty := map[], map[], [];
      events, registrations, outbox, uploads := initialEvents, map[], [], multiset{};
      Invariants.EmptyConsistent(initialEvents);
    }

    /** `User.query.filter_by(email=email, is_deleted=False).first()`. */
    method FindLiveUser(email: Email) returns (r: Option<UserId>)
      ensures r == LiveUserByEmail(Store(), email)
    {
      if email in emailIndex && emailIndex[email] in users && !users[emailIndex[email]].isDeleted {
        r := Some(emailIndex[email]);
      } else {
        r := None;
      }
    }

    // ------------------------------------------------------------- signup

    /** `register`. */
    method Register(f: SignupForm, code: string, now: int) returns (reply: Reply)
      requires Valid()
      modifies this
      ensures Valid()
      ensures (Store(), reply) == Routes.Register(old(Store()), f, code, now)
    {
      Invariants.RegisterConsistent(Store(), f, code, now);
      if f.email == "" { return Reply(400, FieldRequired("email")); }
      if f.password == "" { return Reply(400, FieldRequired("password")); }
      if f.fullName == "" { return Reply(400, FieldRequired("fullName")); }
      if f.userType == "" { return Reply(400, FieldRequired("userType")); }
      if f.gender == "" { return Reply(400, FieldRequired("gender")); }
      reply := Signup(NormalizeEmail(f.email), f, code, now);
    }

    /** `register` once every field is present. */
    method Signup(email: Email, f: SignupForm, code: string, now: int) returns (reply: Reply)
      modifies this
      ensures (Store(), reply) == Routes.Signup(old(Store()), email, f, code, now)
    {
      if !ValidateEmail(email) { return Reply(400, InvalidEmailFormat); }
      if |f.password| < MinPasswordLength { return Reply(400, PasswordTooShort); }
      var live := FindLiveUser(email);
      if live.Some? { return Reply(409, EmailAlreadyRegistered); }
      reply := ReplacePending(email, f, code, now);
    }

    /** The rest of `register` once its checks passed: any earlier pending
        row for the e-mail is deleted and the deletion committed; then the
        new row is written, unless its role or gender is outside the column's
        enumeration. */
    method ReplacePending(email: Email, f: SignupForm, code: string, now: int) returns (reply: Reply)
      requires ValidateEmail(email) && |f.password| >= MinPasswordLength && LiveUserByEmail(Store(), email).None?
      modifies this
      ensures (Store(), reply) == Routes.Signup(old(Store()), email, f, code, now)
    {
      pending := pending - {email};
      var role := PendingRoleOf(f.userType);
      var gender := GenderOf(f.gender);
      if role.None? || gender.None? {
        return Reply(500, RegistrationFailed);
      }
      var p := new PendingUser(PendingRow(email, Hashed(f.password), Strip(f.fullName), role.value,
                                          gender, None, f.regData, code, now + OtpLifetime, 0, now, now));
      pending := pending[email := p.Row()];
      outbox := outbox + [Notice(email, VerificationCode(code))];
      if f.profilePic != "" {
        uploads := uploads + multiset{email};
      }
      reply := Reply(201, RegistrationInitiated(email));
    }

    /** The avatar upload's completion callback, run after the request. */
    method CompleteUpload(email: Email, url: Option<string>, now: int)
      requires Valid()
      modifies this
      ensures Valid()
      ensures Store() == Routes.CompleteUpload(old(Store()), email, url, now)
    {
      Invariants.CompleteUploadConsistent(Store(), email, url, now);
      AttachAvatar(email, url, now);
    }

    /** The callback's work: with a URL, the pending row for `email`, if any,
        gets the avatar; the upload is then finished. */
    method AttachAvatar(email: Email, url: Option<string>, now: int)
      modifies this
      ensures Store() == Routes.CompleteUpload(old(Store()), email, url, now)
    {
      if email !in uploads { return; }
      if url.Some? && url.value != "" && email in pending {
        pending := pending[email := pending[email].(avatar := url, updatedAt := now)];
      }
      uploads := uploads - multiset{email};
    }

    /** `resend_otp`. */
    method ResendOtp(rawEmail: string, code: string, now: int) returns (reply: Reply)
      requires Valid()
      modifies this
      ensures Valid()
      ensures (Store(), reply) == Routes.ResendOtp(old(Store()), rawEmail, code, now)
    {
      Invariants.ResendOtpConsistent(Store(), rawEmail, code, now);
      if rawEmail == "" { return Reply(400, EmailRequired); }
      reply := Resend(NormalizeEmail(rawEmail), code, now);
    }

    /** `resend_otp` for a normalised e-mail: `generate_otp` on the loaded
        row, whose commit also refreshes `updated_at`. */
    method Resend(email: Email, code: string, now: int) returns (reply: Reply)
      modifies this
      ensures (Store(), reply) == Routes.Resend(old(Store()), email, code, now)
    {
      if email !in pending { return Reply(404, NoPendingRegistration); }
      if ElapsedSeconds(now, pending[email].updatedAt) < ResendInterval { return Reply(429, WaitBeforeResend); }
      var p := new PendingUser(pending[email]);
      var otp := p.GenerateOtp(code, now);
      p.updatedAt := now;
      pending := pending[email := p.Row()];
      outbox := outbox + [Notice(email, NewVerificationCode(otp))];
      reply := Reply(200, OtpResent);
    }

    // ------------------------------------------------------- verification

    /** `verify_email`. */
    method VerifyEmail(rawEmail: string, rawOtp: string, now: int, newId: UserId, draws: IdDraws) returns (reply: Reply)
      requires Valid()
      modifies this
      ensures Valid()
      ensures (Store(), reply) == Routes.VerifyEmail(old(Store()), rawEmail, rawOtp, now, newId, draws)
    {
      Invariants.VerifyEmailConsistent(Store(), rawEmail, rawOtp, now, newId, draws);
      if rawEmail == "" || rawOtp == "" { return Reply(400, EmailAndOtpRequired); }
      reply := VerifyCode(NormalizeEmail(rawEmail), Strip(rawOtp), now, newId, draws);
    }

    /** `verify_email` for a normalised e-mail and a stripped code:
        `verify_otp` on the loaded row, then the purge, the commit of the
        counted failure, or the promotion. */
    method VerifyCode(email: Email, otp: string, now: int, newId: UserId, draws: IdDraws) returns (reply: Reply)
      modifies this
      ensures (Store(), reply) == Routes.VerifyCode(old(Store()), email, otp, now, newId, draws)
    {
      if email !in pending { return Reply(404, NoPendingRegistration); }
      var row := pending[email];
      var p := new PendingUser(row);
      var ok, reason := p.VerifyOtp(otp, now);
      if !ok {
        if p.otpAttempts >= MaxOtpAttempts {
          pending := pending - {email};
          return Reply(400, TooManyAttempts);
        }
        if reason == Expired { return Reply(400, OtpExpired); }
        p.updatedAt := now;
        pending := pending[email := p.Row()];
        return Reply(400, InvalidOtp);
      }
      reply := Promote(row, now, newId, draws);
    }

    /** The promotion step: the account is added only when neither its id nor
        its e-mail is taken, and the role branch decides what else is written. */
    method Promote(row: PendingRow, now: int, newId: UserId, draws: IdDraws) returns (reply: Reply)
      modifies this
      ensures (Store(), reply) == Routes.Promote(old(Store()), row, now, newId, draws)
    {
      if newId in users || row.email in emailIndex { return Reply(500, VerificationFailed); }
      var user := AccountOf(row, newId, now);
      match row.role {
        case Student => reply := EnrolStudent(row, user, now, draws);
        case Teacher => reply := EnrolTeacher(row, user, now, draws);
        case Admin =>
          AddAccount(user, row.email);
          reply := IssueAfterPromotion(user, now);
      }
    }

    /** Adds the account and its index entry and deletes the pending row. */
    method AddAccount(user: User, email: Email)
      modifies this
      ensures Store() == old(Store()).(users := old(users)[user.id := user],
                                       emailIndex := old(emailIndex)[user.email := user.id],
                                       pending := old(pending) - {email})
    {
      users := users[user.id := user];
      emailIndex := emailIndex[user.email := user.id];
      pending := pending - {email};
    }

    /** The student branch: the course, year and semester are required; the
        registration number comes from the lookup loop. */
    method EnrolStudent(row: PendingRow, user: User, now: int, draws: IdDraws) returns (reply: Reply)
      requires user == AccountOf(row, user.id, now)
      requires user.id !in users && row.email !in emailIndex
      modifies this
      ensures var base := old(Store()).(users := old(users)[user.id := user],
                                        emailIndex := old(emailIndex)[row.email := user.id],
                                        pending := old(pending) - {row.email});
              (Store(), reply) == Routes.EnrolStudent(old(Store()), base, user, row.regData, now, draws)
    {
      var rd := row.regData;
      if rd.course == "" || rd.year == 0 || rd.semester == 0 { return Reply(400, StudentFieldsRequired); }
      var taken := RegistrationNos(students);
      var regNo, _ := PickUnused(taken, RegNoCandidates(now, draws.regNos), RegNoFallback(now, draws.regSuffix));
      if regNo in taken { return Reply(500, RegistrationNoExists); }
      AddAccount(user, row.email);
      students := students[user.id := StudentProfile(user.id, regNo, rd.course, rd.year, rd.semester, rd.caste)];
      reply := IssueAfterPromotion(user, now);
    }

    /** The teacher branch: designation and qualification are required; the
        employee id comes from the lookup loop; a faculty entry is added. */
    method EnrolTeacher(row: PendingRow, user: User, now: int, draws: IdDraws) returns (reply: Reply)
      requires user == AccountOf(row, user.id, now)
      requires user.id !in users && row.email !in emailIndex
      modifies this
      ensures var base := old(Store()).(users := old(users)[user.id := user],
                                        emailIndex := old(emailIndex)[row.email := user.id],
                                        pending := old(pending) - {row.email});
              (Store(), reply) == Routes.EnrolTeacher(old(Store()), base, user, row.regData, now, draws)
    {
      var rd := row.regData;
      if rd.designation == "" || rd.qualification == "" { return Reply(400, TeacherFieldsRequired); }
      var taken := EmployeeIds(teachers);
      var empId, _ := PickUnused(taken, EmpIdCandidates(now, draws.empNos), EmpIdFallback(draws.uuidHex));
      if empId in taken { return Reply(500, EmployeeIdExists); }
      AddAccount(user, row.email);
      teachers := teachers[user.id := TeacherProfile(user.id, empId, rd.designation, rd.qualification, rd.experienceYears)];
      faculty := faculty + [FacultyEntry(None, user.fullName, rd.designation, rd.qualification, user.avatar, user.email)];
      reply := IssueAfterPromotion(user, now);
    }

    /** Tokens for the new account, then the welcome e-mail. */
    method IssueAfterPromotion(user: User, now: int) returns (reply: Reply)
      modifies this
      ensures (Store(), reply) == Routes.IssueAfterPromotion(old(Store()), user, now)
    {
      var pair := IssueTokens(user.id, now);
      if pair.None? { return Reply(500, VerificationFailed); }
      outbox := outbox + [Notice(user.email, Welcome)];
      reply := Reply(200, EmailVerified(pair.value));
    }

    // -------------------------------------------------------------- sessions

    /** `generate_tokens`: the pair is minted and the refresh token recorded;
        a refresh token already in the ledger fails the unique column. */
    method IssueTokens(userId: UserId, now: int) returns (pair: Option<TokenPair>)
      modifies this
      ensures (Store(), pair) == GenerateTokens(old(Store()), userId, now)
    {
      var access := Mint(userId, Access, now);
      var refresh := Mint(userId, Refresh, now);
      if refresh in ledger { return None; }
      ledger := ledger[refresh := RefreshRecord(userId, now + RefreshLifetime, now, false)];
      pair := Some(TokenPair(access, refresh));
    }

    /** `login`. */
    method Login(rawEmail: string, password: string, now: int) returns (reply: Reply)
      requires Valid()
      modifies this
      ensures Valid()
      ensures (Store(), reply) == Routes.Login(old(Store()), rawEmail, password, now)
    {
      Invariants.LoginConsistent(Store(), rawEmail, password, now);
      if rawEmail == "" || password == "" { return Reply(400, EmailAndPasswordRequired); }
      reply := Authenticate(NormalizeEmail(rawEmail), password, now);
    }

    /** `login` for a normalised e-mail. */
    method Authenticate(email: Email, password: string, now: int) returns (reply: Reply)
      modifies this
      ensures (Store(), reply) == Routes.Authenticate(old(Store()), email, password, now)
    {
      var live := FindLiveUser(email);
      if live.None? { return Reply(401, InvalidCredentials); }
      var id := live.value;
      var u := users[id];
      if u.passwordHash != Hashed(password) { return Reply(401, InvalidCredentials); }
      if !u.isVerified { return Reply(403, LoginNotVerified); }
      if !u.isActive { return Reply(403, LoginDeactivated); }
      users := users[id := u.(lastLogin := Some(now))];
      var pair := IssueTokens(id, now);
      if pair.None? { return Reply(500, InternalServerError); }
      reply := Reply(200, LoginSuccessful(pair.value));
    }

    /** `refresh_token`. */
    method RefreshToken(bearer: Option<Token>, now: int) returns (reply: Reply)
      requires Valid()
      modifies this
      ensures Valid()
      ensures (Store(), reply) == RefreshAccess(old(Store()), bearer, now)
    {
      Invariants.RefreshAccessConsistent(Store(), bearer, now);
      if bearer.None? { return Reply(401, RefreshTokenRequired); }
      var t := bearer.value;
      if t !in ledger || ledger[t].revoked { return Reply(401, InvalidRefreshToken); }
      if now > ledger[t].expiresAt {
        ledger := ledger - {t};
        return Reply(401, RefreshTokenExpired);
      }
      match Decode(t, now) {
        case Malformed => reply := Reply(401, InvalidRefreshToken);
        case SignatureExpired => reply := Reply(401, RefreshTokenExpired);
        case Claims(uid, kind) =>
          if kind != Refresh {
            reply := Reply(401, InvalidTokenType);
          } else {
            reply := Reply(200, AccessRefreshed(Mint(uid, Access, now)));
          }
      }
    }

    /** `logout`. */
    method Logout(bearer: Option<Token>, now: int) returns (reply: Reply)
      requires Valid()
      modifies this
      ensures Valid()
      ensures (Store(), reply) == Routes.Logout(old(Store()), bearer, now)
    {
      Invariants.LogoutConsistent(Store(), bearer, now);
      reply := RevokeBearer(bearer, now);
    }

    /** The body of `logout` behind `token_required`: the ledger row of the
        bearer token, if there is one, is revoked. */
    method RevokeBearer(bearer: Option<Token>, now: int) returns (reply: Reply)
      modifies this
      ensures (Store(), reply) == Routes.Logout(old(Store()), bearer, now)
    {
      var guard := TokenRequired(users, bearer, now);
      if guard.Err? { return guard.error; }
      var t := bearer.value;
      if t in ledger {
        ledger := ledger[t := ledger[t].(revoked := true)];
      }
      reply := Reply(200, LoggedOut);
    }

    /** `forgot_password`. */
    method ForgotPassword(rawEmail: string, code: string, discarded: string, now: int) returns (reply: Reply)
      requires Valid()
      modifies this
      ensures Valid()
      ensures (Store(), reply) == Routes.ForgotPassword(old(Store()), rawEmail, code, discarded, now)
    {
      Invariants.ForgotPasswordConsistent(Store(), rawEmail, code, discarded, now);
      if rawEmail == "" { return Reply(400, EmailRequired); }
      reply := IssueResetCode(NormalizeEmail(rawEmail), code, discarded, now);
    }

    /** `forgot_password` for a normalised e-mail: an existing pending row
        gets `generate_otp` (which draws `discarded`) and then the handler's
        own `code`; otherwise a row is made from the account. */
    method IssueResetCode(email: Email, code: string, discarded: string, now: int) returns (reply: Reply)
      modifies this
      ensures (Store(), reply) == Routes.IssueResetCode(old(Store()), email, code, discarded, now)
    {
      var live := FindLiveUser(email);
      if live.None? { return Reply(200, ResetAcknowledged); }
      var u := users[live.value];
      if email in pending {
        Reissue(email, code, discarded, now);
      } else if u.role == Admin {
        return Reply(500, InternalServerError);
      } else {
        var p := new PendingUser(PendingRow(email, u.passwordHash, u.fullName, u.role, None, None, NoRegData,
                                            code, now + OtpLifetime, 0, now, now));
        pending := pending[email := p.Row()];
      }
      outbox := outbox + [Notice(email, ResetCode(code))];
      reply := Reply(200, ResetAcknowledged);
    }

    /** `generate_otp` on the loaded pending row, drawing `discarded`, then
        the handler's own `code` written over it. */
    method Reissue(email: Email, code: string, discarded: string, now: int)
      requires email in pending
      modifies this
      ensures Store() == old(Store()).(pending := old(pending)[email := Issued(old(pending)[email], discarded, now).(otpCode := code, updatedAt := now)])
    {
      var p := new PendingUser(pending[email]);
      var _ := p.GenerateOtp(discarded, now);
      p.otpCode := code;
      p.updatedAt := now;
      pending := pending[email := p.Row()];
    }

    /** `reset_password`. */
    method ResetPassword(rawEmail: string, rawOtp: string, newPassword: string, now: int) returns (reply: Reply)
      requires Valid()
      modifies this
      ensures Valid()
      ensures (Store(), reply) == Routes.ResetPassword(old(Store()), rawEmail, rawOtp, newPassword, now)
    {
      Invariants.ResetPasswordConsistent(Store(), rawEmail, rawOtp, newPassword, now);
      if rawEmail == "" || rawOtp == "" || newPassword == "" { return Reply(400, ResetFieldsRequired); }
      reply := ApplyReset(NormalizeEmail(rawEmail), Strip(rawOtp), newPassword, now);
    }

    /** `reset_password` for a normalised e-mail and a stripped code. The
        loaded row's `verify_otp` counts a wrong code, but that request ends
        without a commit, so the count is dropped with the row object. */
    method ApplyReset(email: Email, otp: string, newPassword: string, now: int) returns (reply: Reply)
      modifies this
      ensures (Store(), reply) == Routes.ApplyReset(old(Store()), email, otp, newPassword, now)
    {
      if |newPassword| < MinPasswordLength { return Reply(400, PasswordTooShort); }
      if email !in pending { return Reply(400, InvalidRequest); }
      var p := new PendingUser(pending[email]);
      var ok, reason := p.VerifyOtp(otp, now);
      if reason == Invalid { return Reply(400, InvalidOtp); }
      if reason == Expired {
        pending := pending - {email};
        return Reply(400, OtpExpiredRequestAgain);
      }
      var live := FindLiveUser(email);
      if live.None? { return Reply(404, UserNotFound); }
      var id := live.value;
      users := users[id := users[id].(passwordHash := Hashed(newPassword))];
      pending := pending - {email};
      ledger := RevokeAll(ledger, id);
      reply := Reply(200, PasswordResetDone);
    }

    // ------------------------------------------------------ admin and events

    /** `delete_user`. */
    method DeleteUser(bearer: Option<Token>, target: UserId, now: int) returns (reply: Reply)
      requires Valid()
      modifies this
      ensures Valid()
      ensures (Store(), reply) == Routes.DeleteUser(old(Store()), bearer, target, now)
    {
      Invariants.DeleteUserConsistent(Store(), bearer, target, now);
      reply := SoftDelete(bearer, target, now);
    }

    /** The body of `delete_user` behind `admin_required`. */
    method SoftDelete(bearer: Option<Token>, target: UserId, now: int) returns (reply: Reply)
      modifies this
      ensures (Store(), reply) == Routes.DeleteUser(old(Store()), bearer, target, now)
    {
      var guard := AdminRequired(users, bearer, now);
      if guard.Err? { return guard.error; }
      if target !in users { return Reply(404, UserNotFound); }
      if target == guard.value.id { return Reply(400, CannotDeleteYourself); }
      users := users[target := users[target].(isDeleted := true, isActive := false)];
      reply := Reply(200, UserDeleted);
    }

    /** `register_for_event`. */
    method RegisterForEvent(bearer: Option<Token>, event: EventId, now: int, today: int) returns (reply: Reply)
      requires Valid()
      modifies this
      ensures Valid()
      ensures (Store(), reply) == Routes.RegisterForEvent(old(Store()), bearer, event, now, today)
    {
      Invariants.RegisterForEventConsistent(Store(), bearer, event, now, today);
      reply := AddRegistration(bearer, event, now, today);
    }

    /** The body of `register_for_event` behind `student_required`. */
    method AddRegistration(bearer: Option<Token>, event: EventId, now: int, today: int) returns (reply: Reply)
      modifies this
      ensures (Store(), reply) == Routes.RegisterForEvent(old(Store()), bearer, event, now, today)
    {
      var guard := StudentRequired(users, bearer, now);
      if guard.Err? { return guard.error; }
      var u := guard.value;
      if event !in events { return Reply(404, EventNotFound); }
      var ev := events[event];
      if !ev.isActive { return Reply(400, EventNotActive); }
      if (event, u.id) in registrations { return Reply(400, AlreadyRegisteredForEvent); }
      if CapacityLimited(ev) && ev.currentParticipants >= ev.maxParticipants.value { return Reply(400, EventFull); }
      if ev.registrationDeadline.Some? && today > ev.registrationDeadline.value { return Reply(400, DeadlinePassed); }
      registrations := registrations[(event, u.id) := EventRegistration(u.fullName, u.email, u.phone)];
      events := events[event := ev.(currentParticipants := ev.currentParticipants + 1)];
      outbox := outbox + [Notice(u.email, EventConfirmation(event))];
      reply := Reply(200, EventRegistered);
    }
  }
}
