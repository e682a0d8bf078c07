/** Every route keeps the store `Consistent`, so the invariant holds of every
    store reachable from an empty one. */
module Invariants {
  import opened Text
  import opened Validation
  import opened Records
  import opened Otp
  import opened Tokens
  import opened Guards
  import opened IdGen
  import opened Routes

  /** The empty store is consistent. */
  lemma EmptyConsistent(events: map<EventId, Event>)
    ensures Consistent(Db(map[], map[], map[], map[], map[], map[], [], events, map[], [], multiset{}))
  {
  }

  /** Adding the refresh token `generate_tokens` mints keeps the ledger well
      formed, whether or not the commit succeeds. */
  lemma GenerateTokensKeepsLedger(db: Db, userId: UserId, now: int)
    requires LedgerWellFormed(db.ledger)
    ensures LedgerWellFormed(GenerateTokens(db, userId, now).0.ledger)
    ensures LedgerOwned(db.ledger, db.users) && userId in db.users ==>
      LedgerOwned(GenerateTokens(db, userId, now).0.ledger, db.users)
    ensures GenerateTokens(db, userId, now).0.(ledger := db.ledger) == db
  {
  }

  lemma PendingPut(pending: map<Email, PendingRow>, e: Email, row: PendingRow)
    requires PendingWellFormed(pending) && PendingRowOk(e, row)
    ensures PendingWellFormed(pending[e := row])
  {
  }

  lemma PendingDrop(pending: map<Email, PendingRow>, e: Email)
    requires PendingWellFormed(pending)
    ensures PendingWellFormed(pending - {e})
  {
  }

  /** Rewriting an account's columns other than its id and e-mail keeps the
      index in agreement. */
  lemma AccountTouched(users: map<UserId, User>, emailIndex: map<Email, UserId>, id: UserId, u: User)
    requires IndexAgrees(users, emailIndex)
    requires id in users && u.id == id && u.email == users[id].email
    ensures IndexAgrees(users[id := u], emailIndex)
  {
  }

  /** The same, for the whole store: the ledger's owners stay accounts. */
  lemma AccountTouchedConsistent(db: Db, id: UserId, u: User)
    requires Consistent(db)
    requires id in db.users && u.id == id && u.email == db.users[id].email
    ensures Consistent(db.(users := db.users[id := u]))
  {
    AccountTouched(db.users, db.emailIndex, id, u);
  }

  /** Revoking one row, or deleting it, keeps the ledger well formed. */
  lemma LedgerRowRevoked(ledger: map<Token, RefreshRecord>, t: Token)
    requires LedgerWellFormed(ledger)
    ensures t in ledger ==> LedgerWellFormed(ledger[t := ledger[t].(revoked := true)])
    ensures LedgerWellFormed(ledger - {t})
  {
  }

  /** So does revoking every row of one account. */
  lemma LedgerUserRevoked(ledger: map<Token, RefreshRecord>, userId: UserId, users: map<UserId, User>)
    requires LedgerWellFormed(ledger) && LedgerOwned(ledger, users)
    ensures LedgerWellFormed(RevokeAll(ledger, userId)) && LedgerOwned(RevokeAll(ledger, userId), users)
  {
  }

  /** A step that writes only pending rows (and the outbox, the upload
      queue or events) keeps the store consistent if the rows it leaves are
      well formed. */
  lemma PendingOnlyChanged(db: Db, after: Db)
    requires Consistent(db)
    requires after.users == db.users && after.emailIndex == db.emailIndex
    requires after.students == db.students && after.teachers == db.teachers && after.ledger == db.ledger
    requires PendingWellFormed(after.pending)
    ensures Consistent(after)
  {
  }

  lemma SignupConsistent(db: Db, email: Email, f: SignupForm, code: string, now: int)
    requires Consistent(db)
    ensures Consistent(Signup(db, email, f, code, now).0)
  {
    var after := Signup(db, email, f, code, now).0;
    PendingDrop(db.pending, email);
    var role := PendingRoleOf(f.userType);
    if !ValidateEmail(email) || |f.password| < MinPasswordLength || LiveUserByEmail(db, email).Some? {
      assert after == db;
    } else if role.None? || GenderOf(f.gender).None? {
      assert after == db.(pending := db.pending - {email});
    } else {
      var row := PendingRow(email, Hashed(f.password), Strip(f.fullName), role.value,
                            GenderOf(f.gender), None, f.regData, code, now + OtpLifetime, 0, now, now);
      PendingPut(db.pending - {email}, email, row);
      assert after.pending == (db.pending - {email})[email := row];
      PendingOnlyChanged(db, after);
    }
  }

  lemma RegisterConsistent(db: Db, f: SignupForm, code: string, now: int)
    requires Consistent(db)
    ensures Consistent(Register(db, f, code, now).0)
  {
    SignupConsistent(db, NormalizeEmail(f.email), f, code, now);
  }

  lemma CompleteUploadConsistent(db: Db, email: Email, url: Option<string>, now: int)
    requires Consistent(db)
    ensures Consistent(CompleteUpload(db, email, url, now))
  {
    if email in db.pending {
      PendingPut(db.pending, email, db.pending[email].(avatar := url, updatedAt := now));
    }
  }

  lemma ResendOtpConsistent(db: Db, rawEmail: string, code: string, now: int)
    requires Consistent(db)
    ensures Consistent(ResendOtp(db, rawEmail, code, now).0)
  {
    var email := NormalizeEmail(rawEmail);
    if email in db.pending {
      PendingPut(db.pending, email, Issued(db.pending[email], code, now).(updatedAt := now));
    }
    assert Consistent(Resend(db, email, code, now).0);
  }

  /** Adding an account under a fresh id and a fresh e-mail keeps the users
      table and its e-mail index in agreement. */
  lemma AddAccount(users: map<UserId, User>, emailIndex: map<Email, UserId>, user: User)
    requires IndexAgrees(users, emailIndex)
    requires user.id !in users && user.email !in emailIndex
    ensures IndexAgrees(users[user.id := user], emailIndex[user.email := user.id])
  {
    var users', index' := users[user.id := user], emailIndex[user.email := user.id];
    forall e | e in index'
      ensures index'[e] in users' && users'[index'[e]].email == e
    {
      if e != user.email {
        assert index'[e] == emailIndex[e] != user.id;
      }
    }
  }

  lemma VerifyCodeConsistent(db: Db, email: Email, otp: string, now: int, newId: UserId, draws: IdDraws)
    requires Consistent(db)
    ensures Consistent(VerifyCode(db, email, otp, now, newId, draws).0)
  {
    if email in db.pending {
      var row := db.pending[email];
      var checked := AfterCheck(row, otp, now);
      if CheckOtp(row.otpCode, row.otpExpiry, otp, now) == Valid {
        PromoteConsistent(db, row, now, newId, draws);
      } else if checked.otpAttempts >= MaxOtpAttempts {
        PendingDrop(db.pending, email);
      } else {
        PendingPut(db.pending, email, checked.(updatedAt := now));
      }
    }
  }

  lemma VerifyEmailConsistent(db: Db, rawEmail: string, rawOtp: string, now: int, newId: UserId, draws: IdDraws)
    requires Consistent(db)
    ensures Consistent(VerifyEmail(db, rawEmail, rawOtp, now, newId, draws).0)
  {
    VerifyCodeConsistent(db, NormalizeEmail(rawEmail), Strip(rawOtp), now, newId, draws);
  }

  /** Likewise for a step that writes only ledger rows (and the outbox). */
  lemma LedgerOnlyChanged(db: Db, after: Db)
    requires Consistent(db)
    requires after.users == db.users && after.emailIndex == db.emailIndex && after.pending == db.pending
    requires after.students == db.students && after.teachers == db.teachers
    requires LedgerWellFormed(after.ledger) && LedgerOwned(after.ledger, after.users)
    ensures Consistent(after)
  {
  }

  lemma IssueAfterPromotionConsistent(db: Db, user: User, now: int)
    requires Consistent(db) && user.id in db.users
    ensures Consistent(IssueAfterPromotion(db, user, now).0)
  {
    GenerateTokensKeepsLedger(db, user.id, now);
    LedgerOnlyChanged(db, IssueAfterPromotion(db, user, now).0);
  }

  lemma EnrolStudentConsistent(db: Db, base: Db, user: User, rd: RegData, now: int, draws: IdDraws)
    requires Consistent(db) && Consistent(base) && user.id in base.users
    requires base.students == db.students
    ensures Consistent(EnrolStudent(db, base, user, rd, now, draws).0)
  {
    var taken := RegistrationNos(db.students);
    var regNo := FirstFree(taken, RegNoCandidates(now, draws.regNos), RegNoFallback(now, draws.regSuffix));
    if rd.course != "" && rd.year != 0 && rd.semester != 0 && regNo !in taken {
      var profile := StudentProfile(user.id, regNo, rd.course, rd.year, rd.semester, rd.caste);
      IssueAfterPromotionConsistent(base.(students := base.students[user.id := profile]), user, now);
    }
  }

  lemma EnrolTeacherConsistent(db: Db, base: Db, user: User, rd: RegData, now: int, draws: IdDraws)
    requires Consistent(db) && Consistent(base) && user.id in base.users
    requires base.teachers == db.teachers
    ensures Consistent(EnrolTeacher(db, base, user, rd, now, draws).0)
  {
    var taken := EmployeeIds(db.teachers);
    var empId := FirstFree(taken, EmpIdCandidates(now, draws.empNos), EmpIdFallback(draws.uuidHex));
    if rd.designation != "" && rd.qualification != "" && empId !in taken {
      var profile := TeacherProfile(user.id, empId, rd.designation, rd.qualification, rd.experienceYears);
      var entry := FacultyEntry(None, user.fullName, rd.designation, rd.qualification, user.avatar, user.email);
      IssueAfterPromotionConsistent(base.(teachers := base.teachers[user.id := profile], faculty := base.faculty + [entry]), user, now);
    }
  }

  lemma PromoteConsistent(db: Db, row: PendingRow, now: int, newId: UserId, draws: IdDraws)
    requires Consistent(db)
    ensures Consistent(Promote(db, row, now, newId, draws).0)
  {
    if newId !in db.users && row.email !in db.emailIndex {
      var user := AccountOf(row, newId, now);
      AddAccount(db.users, db.emailIndex, user);
      PendingDrop(db.pending, row.email);
      var base := db.(users := db.users[newId := user],
                      emailIndex := db.emailIndex[row.email := newId],
                      pending := db.pending - {row.email});
      match row.role
      case Student => EnrolStudentConsistent(db, base, user, row.regData, now, draws);
      case Teacher => EnrolTeacherConsistent(db, base, user, row.regData, now, draws);
      case Admin => IssueAfterPromotionConsistent(base, user, now);
    }
  }

  lemma AuthenticateConsistent(db: Db, email: Email, password: string, now: int)
    requires Consistent(db)
    ensures Consistent(Authenticate(db, email, password, now).0)
  {
    var id := LiveUserByEmail(db, email);
    if id.Some? {
      var u := db.users[id.value];
      AccountTouchedConsistent(db, id.value, u.(lastLogin := Some(now)));
      var logged := db.(users := db.users[id.value := u.(lastLogin := Some(now))]);
      GenerateTokensKeepsLedger(logged, id.value, now);
    }
  }

  lemma LoginConsistent(db: Db, rawEmail: string, password: string, now: int)
    requires Consistent(db)
    ensures Consistent(Login(db, rawEmail, password, now).0)
  {
    AuthenticateConsistent(db, NormalizeEmail(rawEmail), password, now);
  }

  lemma RefreshAccessConsistent(db: Db, bearer: Option<Token>, now: int)
    requires Consistent(db)
    ensures Consistent(RefreshAccess(db, bearer, now).0)
  {
    if bearer.Some? {
      LedgerRowRevoked(db.ledger, bearer.value);
    }
  }

  lemma LogoutConsistent(db: Db, bearer: Option<Token>, now: int)
    requires Consistent(db)
    ensures Consistent(Logout(db, bearer, now).0)
  {
    if bearer.Some? {
      LedgerRowRevoked(db.ledger, bearer.value);
    }
  }

  lemma IssueResetCodeConsistent(db: Db, email: Email, code: string, discarded: string, now: int)
    requires Consistent(db)
    ensures Consistent(IssueResetCode(db, email, code, discarded, now).0)
  {
    var id := LiveUserByEmail(db, email);
    if id.Some? {
      var u := db.users[id.value];
      if email in db.pending {
        PendingPut(db.pending, email, Issued(db.pending[email], discarded, now).(otpCode := code, updatedAt := now));
      } else if u.role != Admin {
        PendingPut(db.pending, email, PendingRow(email, u.passwordHash, u.fullName, u.role, None, None, NoRegData,
                                                 code, now + OtpLifetime, 0, now, now));
      }
    }
  }

  lemma ForgotPasswordConsistent(db: Db, rawEmail: string, code: string, discarded: string, now: int)
    requires Consistent(db)
    ensures Consistent(ForgotPassword(db, rawEmail, code, discarded, now).0)
  {
    IssueResetCodeConsistent(db, NormalizeEmail(rawEmail), code, discarded, now);
  }

  lemma ApplyResetConsistent(db: Db, email: Email, otp: string, newPassword: string, now: int)
    requires Consistent(db)
    ensures Consistent(ApplyReset(db, email, otp, newPassword, now).0)
  {
    var after := ApplyReset(db, email, otp, newPassword, now).0;
    if |newPassword| < MinPasswordLength || email !in db.pending {
      assert after == db;
    } else {
      var row := db.pending[email];
      var id := LiveUserByEmail(db, email);
      match CheckOtp(row.otpCode, row.otpExpiry, otp, now)
      case Invalid => assert after == db;
      case Expired =>
        PendingDrop(db.pending, email);
        PendingOnlyChanged(db, after);
      case Valid =>
        if id.Some? {
          var u := db.users[id.value].(passwordHash := Hashed(newPassword));
          var touched := db.(users := db.users[id.value := u]);
          AccountTouchedConsistent(db, id.value, u);
          LedgerUserRevoked(db.ledger, id.value, touched.users);
          PendingDrop(db.pending, email);
          assert after == touched.(pending := db.pending - {email}, ledger := RevokeAll(db.ledger, id.value));
        } else {
          assert after == db;
        }
    }
  }

  lemma ResetPasswordConsistent(db: Db, rawEmail: string, rawOtp: string, newPassword: string, now: int)
    requires Consistent(db)
    ensures Consistent(ResetPassword(db, rawEmail, rawOtp, newPassword, now).0)
  {
    ApplyResetConsistent(db, NormalizeEmail(rawEmail), Strip(rawOtp), newPassword, now);
  }

  lemma DeleteUserConsistent(db: Db, bearer: Option<Token>, target: UserId, now: int)
    requires Consistent(db)
    ensures Consistent(DeleteUser(db, bearer, target, now).0)
  {
    if target in db.users {
      AccountTouchedConsistent(db, target, db.users[target].(isDeleted := true, isActive := false));
    }
  }

  lemma RegisterForEventConsistent(db: Db, bearer: Option<Token>, event: EventId, now: int, today: int)
    requires Consistent(db)
    ensures Consistent(RegisterForEvent(db, bearer, event, now, today).0)
  {
  }

  lemma StepConsistent(db: Db, op: Op)
    requires Consistent(db)
    ensures Consistent(Step(db, op))
  {
    match op
    case RegisterOp(f, code, now) => RegisterConsistent(db, f, code, now);
    case VerifyEmailOp(e, otp, now, id, draws) => VerifyEmailConsistent(db, e, otp, now, id, draws);
    case ResendOtpOp(e, code, now) => ResendOtpConsistent(db, e, code, now);
    case CompleteUploadOp(e, url, now) => CompleteUploadConsistent(db, e, url, now);
    case LoginOp(e, pw, now) => LoginConsistent(db, e, pw, now);
    case RefreshOp(b, now) => RefreshAccessConsistent(db, b, now);
    case LogoutOp(b, now) => LogoutConsistent(db, b, now);
    case ForgotPasswordOp(e, code, d, now) => ForgotPasswordConsistent(db, e, code, d, now);
    case ResetPasswordOp(e, otp, pw, now) => ResetPasswordConsistent(db, e, otp, pw, now);
    case DeleteUserOp(b, target, now) => DeleteUserConsistent(db, b, target, now);
    case RegisterForEventOp(b, ev, now, today) => RegisterForEventConsistent(db, b, ev, now, today);
  }

  /** Consistency holds after any sequence of requests. */
  lemma {:induction false} RunConsistent(db: Db, ops: seq<Op>)
    requires Consistent(db)
    ensures Consistent(Run(db, ops))
    decreases |ops|
  {
    if ops != [] {
      StepConsistent(db, ops[0]);
      RunConsistent(Step(db, ops[0]), ops[1..]);
    }
  }
}
