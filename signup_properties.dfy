/** What the signup routes promise: who may stage a signup, how the OTP
    challenge is throttled and bounded, what a verified signup becomes, and
    what the background avatar upload may touch. */
module SignupProperties {
  import opened Text
  import opened Validation
  import opened Records
  import opened Otp
  import opened Tokens
  import opened IdGen
  import opened Routes

  /** In a consistent store the e-mail lookup finds exactly the live
      account holding the address. */
  lemma LiveUserByEmailSpec(db: Db, email: Email)
    requires Consistent(db)
    ensures LiveUserByEmail(db, email).Some? ==>
      db.users[LiveUserByEmail(db, email).value].email == email
    ensures LiveUserByEmail(db, email).None? <==>
      forall id :: id in db.users && db.users[id].email == email ==> db.users[id].isDeleted
  {
    if LiveUserByEmail(db, email).None? {
      forall id | id in db.users && db.users[id].email == email
        ensures db.users[id].isDeleted
      {
        assert db.emailIndex[email] == id;
      }
    }
  }

  // ------------------------------------------------------------- register

  /** A signup is staged (201) exactly when the address is well formed, the
      password long enough, no live account holds the address, and role and
      gender are values of their columns. Staging replaces any earlier
      pending row for the address with a fresh challenge for `code`, mails
      the code and, when a picture came with the form, queues its upload; a
      refused signup changes nothing, except that an enumeration failure has
      already removed the earlier pending row. */
  lemma SignupOutcome(db: Db, email: Email, f: SignupForm, code: string, now: int)
    ensures var (after, reply) := Signup(db, email, f, code, now);
      && (reply.status == 201 <==>
            ValidateEmail(email) && |f.password| >= MinPasswordLength && LiveUserByEmail(db, email).None? &&
            PendingRoleOf(f.userType).Some? && GenderOf(f.gender).Some?)
      && (reply.status == 201 ==>
            && after.pending.Keys == db.pending.Keys + {email}
            && (forall e :: e in db.pending && e != email ==> after.pending[e] == db.pending[e])
            && (var row := after.pending[email];
                row.otpCode == code && row.otpExpiry == now + OtpLifetime && row.otpAttempts == 0 &&
                row.passwordHash == Hashed(f.password) && row.role == PendingRoleOf(f.userType).value &&
                row.createdAt == now && row.avatar == None)
            && after.users == db.users && after.ledger == db.ledger
            && after.outbox == db.outbox + [Notice(email, VerificationCode(code))]
            && after.uploads == (if f.profilePic != "" then db.uploads + multiset{email} else db.uploads))
      && (reply.status == 500 ==> after == db.(pending := db.pending - {email}))
      && (reply.status != 201 && reply.status != 500 ==> after == db)
  {
  }

  /** The refusals ahead of staging, in the route's order. */
  lemma SignupRefusals(db: Db, email: Email, f: SignupForm, code: string, now: int)
    requires Consistent(db)
    ensures !ValidateEmail(email) ==> Signup(db, email, f, code, now) == (db, Reply(400, InvalidEmailFormat))
    ensures ValidateEmail(email) && |f.password| < MinPasswordLength ==>
      Signup(db, email, f, code, now) == (db, Reply(400, PasswordTooShort))
    ensures ValidateEmail(email) && |f.password| >= MinPasswordLength &&
            (exists id :: id in db.users && db.users[id].email == email && !db.users[id].isDeleted) ==>
      Signup(db, email, f, code, now) == (db, Reply(409, EmailAlreadyRegistered))
  {
    LiveUserByEmailSpec(db, email);
  }

  /** Each required field of the form, in order, is refused when empty. */
  lemma RegisterRequiresFields(db: Db, f: SignupForm, code: string, now: int)
    ensures f.email == "" ==> Register(db, f, code, now) == (db, Reply(400, FieldRequired("email")))
    ensures f.email != "" && f.password == "" ==> Register(db, f, code, now) == (db, Reply(400, FieldRequired("password")))
    ensures f.email != "" && f.password != "" && f.fullName == "" ==>
      Register(db, f, code, now) == (db, Reply(400, FieldRequired("fullName")))
    ensures f.email != "" && f.password != "" && f.fullName != "" && f.userType == "" ==>
      Register(db, f, code, now) == (db, Reply(400, FieldRequired("userType")))
    ensures f.email != "" && f.password != "" && f.fullName != "" && f.userType != "" && f.gender == "" ==>
      Register(db, f, code, now) == (db, Reply(400, FieldRequired("gender")))
    ensures f.email != "" && f.password != "" && f.fullName != "" && f.userType != "" && f.gender != "" ==>
      Register(db, f, code, now) == Signup(db, NormalizeEmail(f.email), f, code, now)
  {
  }

  // ------------------------------------------------------------ resend_otp

  /** A resend needs a pending row and a minute (as `timedelta.seconds`
      counts) since the row's last write; it then issues `code` afresh, resets
      the attempt counter and keeps every other column. */
  lemma ResendOutcome(db: Db, email: Email, code: string, now: int)
    ensures email !in db.pending ==> Resend(db, email, code, now) == (db, Reply(404, NoPendingRegistration))
    ensures email in db.pending && ElapsedSeconds(now, db.pending[email].updatedAt) < ResendInterval ==>
      Resend(db, email, code, now) == (db, Reply(429, WaitBeforeResend))
    ensures email in db.pending && ElapsedSeconds(now, db.pending[email].updatedAt) >= ResendInterval ==>
      var (after, reply) := Resend(db, email, code, now);
      var old_ := db.pending[email];
      && reply == Reply(200, OtpResent)
      && after.pending.Keys == db.pending.Keys
      && after.pending[email].otpCode == code && after.pending[email].otpAttempts == 0
      && after.pending[email].otpExpiry == now + OtpLifetime && after.pending[email].updatedAt == now
      && after.pending[email].(otpCode := old_.otpCode, otpExpiry := old_.otpExpiry,
                               otpAttempts := old_.otpAttempts, updatedAt := old_.updatedAt) == old_
      && after.outbox == db.outbox + [Notice(email, NewVerificationCode(code))]
  {
  }

  /** `timedelta.seconds` drops whole days: a resend asked for any number of
      whole days plus less than a minute after the row's last write is still
      refused as too early. */
  lemma {:induction false} ResendIgnoresWholeDays(db: Db, email: Email, code: string, now: int, days: nat)
    requires email in db.pending
    requires 0 <= now - db.pending[email].updatedAt - days * SecondsPerDay < ResendInterval
    ensures Resend(db, email, code, now) == (db, Reply(429, WaitBeforeResend))
  {
    var since := db.pending[email].updatedAt;
    var r := now - since - days * SecondsPerDay;
    assert now - since == days * SecondsPerDay + r;
    ModuloWholeDays(days, r);
  }

  lemma {:induction false} ModuloWholeDays(days: nat, r: int)
    requires 0 <= r < SecondsPerDay
    ensures (days * SecondsPerDay + r) % SecondsPerDay == r
  {
    if days > 0 {
      ModuloWholeDays(days - 1, r);
      assert days * SecondsPerDay + r == (days - 1) * SecondsPerDay + r + SecondsPerDay;
    }
  }

  // ---------------------------------------------------------- verify_email

  /** Each wrong code counts one failure; the failure that reaches the
      ceiling deletes the pending row; an expired right code changes nothing;
      no failure ever promotes. */
  lemma VerifyCodeFailures(db: Db, email: Email, otp: string, now: int, newId: UserId, draws: IdDraws)
    requires email in db.pending
    ensures var row := db.pending[email];
      var (after, reply) := VerifyCode(db, email, otp, now, newId, draws);
      && (otp != row.otpCode && row.otpAttempts + 1 >= MaxOtpAttempts ==>
            after == db.(pending := db.pending - {email}) && reply == Reply(400, TooManyAttempts))
      && (otp != row.otpCode && row.otpAttempts + 1 < MaxOtpAttempts ==>
            after == db.(pending := db.pending[email := row.(otpAttempts := row.otpAttempts + 1, updatedAt := now)]) &&
            reply == Reply(400, InvalidOtp))
      && (otp == row.otpCode && now > row.otpExpiry && row.otpAttempts < MaxOtpAttempts ==>
            after == db && reply == Reply(400, OtpExpired))
  {
  }

  /** A sequence of codes tried against one address, each at its own time. */
  function Guesses(db: Db, email: Email, tries: seq<(string, int)>, newId: UserId, draws: IdDraws): Db
    decreases |tries|
  {
    if tries == [] then db
    else Guesses(VerifyCode(db, email, tries[0].0, tries[0].1, newId, draws).0, email, tries[1..], newId, draws)
  }

  predicate AllWrong(tries: seq<(string, int)>, code: string) {
    forall i :: 0 <= i < |tries| ==> tries[i].0 != code
  }

  /** A guess at an address without a pending row changes nothing. */
  lemma {:induction false} GuessesWithoutRow(db: Db, email: Email, tries: seq<(string, int)>, newId: UserId, draws: IdDraws)
    requires email !in db.pending
    ensures Guesses(db, email, tries, newId, draws) == db
    decreases |tries|
  {
    if tries != [] {
      GuessesWithoutRow(db, email, tries[1..], newId, draws);
    }
  }

  /** Below the ceiling, wrong codes only add up: the row stays with its code
      and expiry and one more failure per guess. */
  lemma {:induction false} WrongGuessesCounted(db: Db, email: Email, tries: seq<(string, int)>, newId: UserId, draws: IdDraws)
    requires email in db.pending
    requires AllWrong(tries, db.pending[email].otpCode)
    requires db.pending[email].otpAttempts + |tries| < MaxOtpAttempts
    ensures var after := Guesses(db, email, tries, newId, draws);
      && email in after.pending
      && after.pending[email].otpAttempts == db.pending[email].otpAttempts + |tries|
      && after.pending[email].otpCode == db.pending[email].otpCode
      && after.pending[email].otpExpiry == db.pending[email].otpExpiry
    decreases |tries|
  {
    if tries != [] {
      var row := db.pending[email];
      var next := VerifyCode(db, email, tries[0].0, tries[0].1, newId, draws).0;
      assert next == db.(pending := db.pending[email := row.(otpAttempts := row.otpAttempts + 1, updatedAt := tries[0].1)]);
      WrongGuessesCounted(next, email, tries[1..], newId, draws);
    }
  }

  /** However the guesses are timed, enough wrong codes to reach the ceiling
      purge the pending row: from a fresh challenge, five wrong codes. Any
      later code for the address then finds no pending registration. */
  lemma {:induction false} WrongGuessesPurge(db: Db, email: Email, tries: seq<(string, int)>, newId: UserId, draws: IdDraws)
    requires email in db.pending
    requires AllWrong(tries, db.pending[email].otpCode)
    requires db.pending[email].otpAttempts < MaxOtpAttempts <= db.pending[email].otpAttempts + |tries|
    ensures email !in Guesses(db, email, tries, newId, draws).pending
    ensures var after := Guesses(db, email, tries, newId, draws);
      forall otp, later :: VerifyCode(after, email, otp, later, newId, draws) == (after, Reply(404, NoPendingRegistration))
    decreases |tries|
  {
    var row := db.pending[email];
    var next := VerifyCode(db, email, tries[0].0, tries[0].1, newId, draws).0;
    if row.otpAttempts + 1 >= MaxOtpAttempts {
      assert next == db.(pending := db.pending - {email});
      GuessesWithoutRow(next, email, tries[1..], newId, draws);
    } else {
      assert next == db.(pending := db.pending[email := row.(otpAttempts := row.otpAttempts + 1, updatedAt := tries[0].1)]);
      WrongGuessesPurge(next, email, tries[1..], newId, draws);
    }
  }

  /** The token commit after promotion, when it succeeds: the refresh
      token is recorded, the welcome e-mail queued, the pair returned. */
  lemma IssueSucceeds(db: Db, user: User, now: int)
    requires IssueAfterPromotion(db, user, now).1.status == 200
    ensures var (after, reply) := IssueAfterPromotion(db, user, now);
      var pair := TokenPair(Mint(user.id, Access, now), Mint(user.id, Refresh, now));
      && Mint(user.id, Refresh, now) !in db.ledger
      && after == db.(ledger := db.ledger[pair.refresh := RefreshRecord(user.id, now + RefreshLifetime, now, false)],
                      outbox := db.outbox + [Notice(user.email, Welcome)])
      && reply == Reply(200, EmailVerified(pair))
  {
  }

  /** A successful promotion of a pending row: the account is added under
      the new id and indexed by its e-mail, the pending row is gone, a
      student gets a registration number and a teacher an employee id that
      no other profile holds, and the new refresh token is recorded. */
  lemma PromoteSucceeds(db: Db, row: PendingRow, now: int, newId: UserId, draws: IdDraws)
    requires Promote(db, row, now, newId, draws).1.status == 200
    ensures var (after, reply) := Promote(db, row, now, newId, draws);
      && newId !in db.users && row.email !in db.emailIndex
      && after.users == db.users[newId := AccountOf(row, newId, now)]
      && after.emailIndex == db.emailIndex[row.email := newId]
      && after.pending == db.pending - {row.email}
      && (row.role == Student ==>
            newId in after.students && after.students[newId].registrationNo !in RegistrationNos(db.students))
      && (row.role == Teacher ==>
            newId in after.teachers && after.teachers[newId].employeeId !in EmployeeIds(db.teachers))
      && Mint(newId, Refresh, now) !in db.ledger && Mint(newId, Refresh, now) in after.ledger
      && after.outbox == db.outbox + [Notice(row.email, Welcome)]
      && reply == Reply(200, EmailVerified(TokenPair(Mint(newId, Access, now), Mint(newId, Refresh, now))))
  {
    var user := AccountOf(row, newId, now);
    var base := db.(users := db.users[newId := user],
                    emailIndex := db.emailIndex[row.email := newId],
                    pending := db.pending - {row.email});
    match row.role
    case Student =>
      var profile := EnrolStudentCommits(db, base, user, row.regData, now, draws);
      IssueSucceeds(base.(students := base.students[newId := profile]), user, now);
    case Teacher =>
      var enrolled := EnrolTeacherCommits(db, base, user, row.regData, now, draws);
      IssueSucceeds(enrolled, user, now);
    case Admin =>
      IssueSucceeds(base, user, now);
  }

  /** The student branch, when it reaches the token commit, commits a
      profile whose registration number no other student holds. */
  lemma EnrolStudentCommits(db: Db, base: Db, user: User, rd: RegData, now: int, draws: IdDraws)
    returns (profile: StudentProfile)
    requires EnrolStudent(db, base, user, rd, now, draws).1.status == 200
    ensures profile.userId == user.id && profile.registrationNo !in RegistrationNos(db.students)
    ensures EnrolStudent(db, base, user, rd, now, draws) ==
      IssueAfterPromotion(base.(students := base.students[user.id := profile]), user, now)
  {
    var regNo := FirstFree(RegistrationNos(db.students), RegNoCandidates(now, draws.regNos), RegNoFallback(now, draws.regSuffix));
    profile := StudentProfile(user.id, regNo, rd.course, rd.year, rd.semester, rd.caste);
  }

  /** The teacher branch, when it reaches the token commit, commits a
      profile whose employee id no other teacher holds. */
  lemma EnrolTeacherCommits(db: Db, base: Db, user: User, rd: RegData, now: int, draws: IdDraws)
    returns (enrolled: Db)
    requires EnrolTeacher(db, base, user, rd, now, draws).1.status == 200
    ensures user.id in enrolled.teachers && enrolled.teachers[user.id].employeeId !in EmployeeIds(db.teachers)
    ensures enrolled == base.(teachers := enrolled.teachers, faculty := enrolled.faculty)
    ensures EnrolTeacher(db, base, user, rd, now, draws) == IssueAfterPromotion(enrolled, user, now)
  {
    var empId := FirstFree(EmployeeIds(db.teachers), EmpIdCandidates(now, draws.empNos), EmpIdFallback(draws.uuidHex));
    var profile := TeacherProfile(user.id, empId, rd.designation, rd.qualification, rd.experienceYears);
    var entry := FacultyEntry(None, user.fullName, rd.designation, rd.qualification, user.avatar, user.email);
    enrolled := base.(teachers := base.teachers[user.id := profile], faculty := base.faculty + [entry]);
  }

  /** A verification succeeds (200) only for the right, unexpired code, and
      then it is the promotion of the pending row. */
  lemma VerificationCreatesAccount(db: Db, email: Email, otp: string, now: int, newId: UserId, draws: IdDraws)
    requires Consistent(db)
    requires VerifyCode(db, email, otp, now, newId, draws).1.status == 200
    ensures email in db.pending
    ensures var row := db.pending[email];
      && row.email == email && otp == row.otpCode && now <= row.otpExpiry
      && VerifyCode(db, email, otp, now, newId, draws) == Promote(db, row, now, newId, draws)
  {
  }

  /** A failed token commit after promotion leaves the committed account in
      place yet answers 500, so a retry of the same code finds no pending
      row. */
  lemma PromotionSurvivesTokenFailure(db: Db, email: Email, otp: string, now: int, newId: UserId, draws: IdDraws)
    requires email in db.pending && db.pending[email].email == email && db.pending[email].role == Student
    requires otp == db.pending[email].otpCode && now <= db.pending[email].otpExpiry
    requires var rd := db.pending[email].regData; rd.course != "" && rd.year != 0 && rd.semester != 0
    requires FirstFree(RegistrationNos(db.students), RegNoCandidates(now, draws.regNos), RegNoFallback(now, draws.regSuffix))
               !in RegistrationNos(db.students)
    requires newId !in db.users && email !in db.emailIndex
    requires Mint(newId, Refresh, now) in db.ledger
    ensures var (after, reply) := VerifyCode(db, email, otp, now, newId, draws);
      && reply == Reply(500, VerificationFailed)
      && newId in after.users && after.pending == db.pending - {email}
      && VerifyCode(after, email, otp, now, newId, draws).1 == Reply(404, NoPendingRegistration)
  {
  }

  /** The collision above needs a refresh token recorded for an id that no
      account holds yet. A consistent store has none, since every refresh
      token on record belongs to an existing account; so for a consistent
      store and a fresh id the token commit of a promotion cannot collide. */
  lemma FreshIdHasNoTokens(db: Db, newId: UserId, now: int)
    requires Consistent(db) && newId !in db.users
    ensures Mint(newId, Refresh, now) !in db.ledger
  {
  }

  // -------------------------------------------------------- avatar upload

  /** The upload callback never creates or deletes a pending row, and on the
      row of its own address it changes at most the avatar and `updated_at`. */
  lemma UploadTouchesOnlyAvatar(db: Db, email: Email, url: Option<string>, now: int)
    ensures CompleteUpload(db, email, url, now).pending.Keys == db.pending.Keys
    ensures forall e :: e in db.pending && e != email ==> CompleteUpload(db, email, url, now).pending[e] == db.pending[e]
    ensures email in db.pending ==>
      var row := db.pending[email];
      CompleteUpload(db, email, url, now).pending[email].(avatar := row.avatar, updatedAt := row.updatedAt) == row
    ensures CompleteUpload(db, email, url, now).users == db.users
    ensures CompleteUpload(db, email, url, now).ledger == db.ledger
  {
    var after := CompleteUpload(db, email, url, now);
    if email in db.uploads {
      assert after == db.(pending := AvatarWritten(db.pending, email, url, now), uploads := db.uploads - multiset{email});
      AvatarWrittenFrame(db.pending, email, url, now);
    } else {
      assert after == db;
    }
  }

  lemma AvatarWrittenFrame(pending: map<Email, PendingRow>, email: Email, url: Option<string>, now: int)
    ensures AvatarWritten(pending, email, url, now).Keys == pending.Keys
    ensures forall e :: e in pending && e != email ==> AvatarWritten(pending, email, url, now)[e] == pending[e]
    ensures email in pending ==>
      var row := pending[email];
      AvatarWritten(pending, email, url, now)[email].(avatar := row.avatar, updatedAt := row.updatedAt) == row
  {
  }

  /** An upload that completes after its signup was replaced writes onto the
      replacement row (the callback looks the row up by address only). */
  lemma UploadLandsOnCurrentRow(db: Db, email: Email, url: string, now: int)
    requires email in db.uploads && email in db.pending && url != ""
    ensures CompleteUpload(db, email, Some(url), now).pending[email] ==
      db.pending[email].(avatar := Some(url), updatedAt := now)
  {
  }

  // ------------------------------------------------------- forgot_password

  /** The reply does not tell whether an account holds the address (an
      admin without a pending row aside); without an account nothing
      changes. */
  lemma ForgotPasswordUniformReply(db: Db, email: Email, code: string, discarded: string, now: int)
    requires Consistent(db)
    ensures LiveUserByEmail(db, email).None? ==>
      IssueResetCode(db, email, code, discarded, now) == (db, Reply(200, ResetAcknowledged))
    ensures LiveUserByEmail(db, email).Some? &&
            (email in db.pending || db.users[LiveUserByEmail(db, email).value].role != Admin) ==>
      IssueResetCode(db, email, code, discarded, now).1 == Reply(200, ResetAcknowledged)
  {
  }

  /** The first code drawn has no effect at all: it is overwritten before
      the commit. */
  lemma ForgotPasswordIgnoresFirstDraw(db: Db, email: Email, code: string, d1: string, d2: string, now: int)
    ensures IssueResetCode(db, email, code, d1, now) == IssueResetCode(db, email, code, d2, now)
  {
    if email in db.pending {
      var row := db.pending[email];
      assert Issued(row, d1, now).(otpCode := code, updatedAt := now) == Issued(row, d2, now).(otpCode := code, updatedAt := now);
    }
  }

  /** The code stored and mailed is the second draw, under a fresh challenge
      with no failed attempts. An existing pending row keeps its other
      columns, so a signup still awaiting verification keeps its staged data;
      otherwise the row is made from the account. */
  lemma ForgotPasswordStoresSecondDraw(db: Db, email: Email, code: string, discarded: string, now: int)
    requires LiveUserByEmail(db, email).Some?
    requires IssueResetCode(db, email, code, discarded, now).1.status == 200
    ensures var after := IssueResetCode(db, email, code, discarded, now).0;
      && email in after.pending
      && after.pending[email].otpCode == code && after.pending[email].otpAttempts == 0
      && after.pending[email].otpExpiry == now + OtpLifetime
      && (email in db.pending ==>
            after.pending[email].(otpCode := db.pending[email].otpCode, otpExpiry := db.pending[email].otpExpiry,
                                  otpAttempts := db.pending[email].otpAttempts, updatedAt := db.pending[email].updatedAt)
              == db.pending[email])
      && (email !in db.pending ==>
            var u := db.users[LiveUserByEmail(db, email).value];
            after.pending[email].passwordHash == u.passwordHash && after.pending[email].role == u.role)
      && after.outbox == db.outbox + [Notice(email, ResetCode(code))]
      && after.users == db.users && after.ledger == db.ledger
  {
    var after := IssueResetCode(db, email, code, discarded, now).0;
    var notice := Notice(email, ResetCode(code));
    if email in db.pending {
      var row := Issued(db.pending[email], discarded, now).(otpCode := code, updatedAt := now);
      assert after == db.(pending := db.pending[email := row], outbox := db.outbox + [notice]);
    } else {
      var u := db.users[LiveUserByEmail(db, email).value];
      var row := PendingRow(email, u.passwordHash, u.fullName, u.role, None, None, NoRegData,
                            code, now + OtpLifetime, 0, now, now);
      assert after == db.(pending := db.pending[email := row], outbox := db.outbox + [notice]);
    }
  }
}
