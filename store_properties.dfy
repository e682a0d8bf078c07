/** Properties of whole request sequences: a revoked refresh token stays
    revoked whatever requests follow, and event registration keeps every
    capacity-limited event within its capacity and its participant count
    equal to its registrations. */
module StoreProperties {
  import opened Text
  import opened Validation
  import opened Records
  import opened Otp
  import opened Tokens
  import opened Guards
  import opened IdGen
  import opened Routes

  /** Every row revoked in `before` is still there, and still revoked, in
      `after`. */
  ghost predicate RevocationsKept(before: map<Token, RefreshRecord>, after: map<Token, RefreshRecord>) {
    forall t :: t in before && before[t].revoked ==> t in after && after[t].revoked
  }

  /** The route left the event tables alone. */
  predicate EventsKept(before: Db, after: Db) {
    after.events == before.events && after.registrations == before.registrations
  }

  /** What a route other than event registration may do to the ledger and
      the event tables. */
  ghost predicate Framed(before: Db, after: Db) {
    RevocationsKept(before.ledger, after.ledger) && EventsKept(before, after)
  }

  lemma {:induction false} RevocationsKeptTransitive(a: map<Token, RefreshRecord>, b: map<Token, RefreshRecord>, c: map<Token, RefreshRecord>)
    requires RevocationsKept(a, b) && RevocationsKept(b, c)
    ensures RevocationsKept(a, c)
  {
    forall t | t in a && a[t].revoked ensures t in c && c[t].revoked {
      assert t in b && b[t].revoked;
    }
  }

  // ------------------------------------------------ one route at a time

  lemma RevocationsKeptRefl(ledger: map<Token, RefreshRecord>)
    ensures RevocationsKept(ledger, ledger)
  {
  }

  /** Deleting an unrevoked row, revoking a row or every row of an account,
      and adding a row under a new key each keep the revoked rows. */
  lemma RevocationsKeptDrop(ledger: map<Token, RefreshRecord>, t: Token)
    requires t in ledger && !ledger[t].revoked
    ensures RevocationsKept(ledger, ledger - {t})
  {
  }

  lemma RevocationsKeptRevoke(ledger: map<Token, RefreshRecord>, t: Token)
    requires t in ledger
    ensures RevocationsKept(ledger, ledger[t := ledger[t].(revoked := true)])
  {
  }

  lemma RevocationsKeptAdd(ledger: map<Token, RefreshRecord>, t: Token, rec: RefreshRecord)
    requires t !in ledger
    ensures RevocationsKept(ledger, ledger[t := rec])
  {
  }

  lemma RevocationsKeptRevokeAll(ledger: map<Token, RefreshRecord>, userId: UserId)
    ensures RevocationsKept(ledger, RevokeAll(ledger, userId))
  {
  }

  lemma GenerateTokensFramed(db: Db, userId: UserId, now: int)
    ensures Framed(db, GenerateTokens(db, userId, now).0)
  {
    if Mint(userId, Refresh, now) in db.ledger {
      RevocationsKeptRefl(db.ledger);
    } else {
      RevocationsKeptAdd(db.ledger, Mint(userId, Refresh, now), RefreshRecord(userId, now + RefreshLifetime, now, false));
    }
  }

  /** A route whose writes leave the ledger and the event tables alone. */
  lemma Untouched(db: Db, after: Db)
    requires after.ledger == db.ledger && after.events == db.events && after.registrations == db.registrations
    ensures Framed(db, after)
  {
    RevocationsKeptRefl(db.ledger);
  }

  lemma SignupFramed(db: Db, email: Email, f: SignupForm, code: string, now: int)
    ensures Framed(db, Signup(db, email, f, code, now).0)
  {
    Untouched(db, Signup(db, email, f, code, now).0);
  }

  lemma RegisterFramed(db: Db, f: SignupForm, code: string, now: int)
    ensures Framed(db, Register(db, f, code, now).0)
  {
    if f.email != "" && f.password != "" && f.fullName != "" && f.userType != "" && f.gender != "" {
      SignupFramed(db, NormalizeEmail(f.email), f, code, now);
    } else {
      Untouched(db, db);
    }
  }

  lemma IssueAfterPromotionFramed(db: Db, base: Db, user: User, now: int)
    requires Framed(db, base)
    ensures Framed(db, IssueAfterPromotion(base, user, now).0)
  {
    GenerateTokensFramed(base, user.id, now);
    RevocationsKeptTransitive(db.ledger, base.ledger, GenerateTokens(base, user.id, now).0.ledger);
  }

  lemma EnrolStudentFramed(db: Db, base: Db, user: User, rd: RegData, now: int, draws: IdDraws)
    requires Framed(db, base)
    ensures Framed(db, EnrolStudent(db, base, user, rd, now, draws).0)
  {
    var taken := RegistrationNos(db.students);
    var regNo := FirstFree(taken, RegNoCandidates(now, draws.regNos), RegNoFallback(now, draws.regSuffix));
    var profile := StudentProfile(user.id, regNo, rd.course, rd.year, rd.semester, rd.caste);
    if rd.course == "" || rd.year == 0 || rd.semester == 0 || regNo in taken {
      Untouched(db, db);
    } else {
      IssueAfterPromotionFramed(db, base.(students := base.students[user.id := profile]), user, now);
    }
  }

  lemma EnrolTeacherFramed(db: Db, base: Db, user: User, rd: RegData, now: int, draws: IdDraws)
    requires Framed(db, base)
    ensures Framed(db, EnrolTeacher(db, base, user, rd, now, draws).0)
  {
    var taken := EmployeeIds(db.teachers);
    var empId := FirstFree(taken, EmpIdCandidates(now, draws.empNos), EmpIdFallback(draws.uuidHex));
    var profile := TeacherProfile(user.id, empId, rd.designation, rd.qualification, rd.experienceYears);
    var entry := FacultyEntry(None, user.fullName, rd.designation, rd.qualification, user.avatar, user.email);
    if rd.designation == "" || rd.qualification == "" || empId in taken {
      Untouched(db, db);
    } else {
      IssueAfterPromotionFramed(db, base.(teachers := base.teachers[user.id := profile], faculty := base.faculty + [entry]), user, now);
    }
  }

  lemma PromoteFramed(db: Db, row: PendingRow, now: int, newId: UserId, draws: IdDraws)
    ensures Framed(db, Promote(db, row, now, newId, draws).0)
  {
    if newId in db.users || row.email in db.emailIndex {
      Untouched(db, db);
    } else {
      var user := AccountOf(row, newId, now);
      var base := db.(users := db.users[newId := user],
                      emailIndex := db.emailIndex[row.email := newId],
                      pending := db.pending - {row.email});
      Untouched(db, base);
      match row.role
      case Student => EnrolStudentFramed(db, base, user, row.regData, now, draws);
      case Teacher => EnrolTeacherFramed(db, base, user, row.regData, now, draws);
      case Admin => IssueAfterPromotionFramed(db, base, user, now);
    }
  }

  lemma VerifyCodeFramed(db: Db, email: Email, otp: string, now: int, newId: UserId, draws: IdDraws)
    ensures Framed(db, VerifyCode(db, email, otp, now, newId, draws).0)
  {
    if email !in db.pending {
      Untouched(db, db);
    } else {
      var row := db.pending[email];
      var checked := AfterCheck(row, otp, now);
      var reason := CheckOtp(row.otpCode, row.otpExpiry, otp, now);
      var after := VerifyCode(db, email, otp, now, newId, draws).0;
      if reason == Valid {
        PromoteFramed(db, row, now, newId, draws);
      } else if checked.otpAttempts >= MaxOtpAttempts {
        assert after == db.(pending := db.pending - {email});
        Untouched(db, after);
      } else if reason == Expired {
        Untouched(db, db);
      } else {
        assert after == db.(pending := db.pending[email := checked.(updatedAt := now)]);
        Untouched(db, after);
      }
    }
  }

  lemma VerifyEmailFramed(db: Db, rawEmail: string, rawOtp: string, now: int, newId: UserId, draws: IdDraws)
    ensures Framed(db, VerifyEmail(db, rawEmail, rawOtp, now, newId, draws).0)
  {
    if rawEmail == "" || rawOtp == "" {
      Untouched(db, db);
    } else {
      VerifyCodeFramed(db, NormalizeEmail(rawEmail), Strip(rawOtp), now, newId, draws);
    }
  }

  lemma ResendOtpFramed(db: Db, rawEmail: string, code: string, now: int)
    ensures Framed(db, ResendOtp(db, rawEmail, code, now).0)
  {
    if rawEmail == "" {
      Untouched(db, db);
    } else {
      Untouched(db, Resend(db, NormalizeEmail(rawEmail), code, now).0);
    }
  }

  lemma CompleteUploadFramed(db: Db, email: Email, url: Option<string>, now: int)
    ensures Framed(db, CompleteUpload(db, email, url, now))
  {
    Untouched(db, CompleteUpload(db, email, url, now));
  }

  lemma AuthenticateFramed(db: Db, email: Email, password: string, now: int)
    ensures Framed(db, Authenticate(db, email, password, now).0)
  {
    match LiveUserByEmail(db, email)
    case None => Untouched(db, db);
    case Some(id) =>
      var u := db.users[id];
      if u.passwordHash != Hashed(password) || !u.isVerified || !u.isActive {
        Untouched(db, db);
      } else {
        var logged := db.(users := db.users[id := u.(lastLogin := Some(now))]);
        Untouched(db, logged);
        IssueAfterLoginFramed(db, logged, id, now);
      }
  }

  lemma IssueAfterLoginFramed(db: Db, logged: Db, id: UserId, now: int)
    requires Framed(db, logged)
    ensures Framed(db, GenerateTokens(logged, id, now).0)
    ensures Framed(db, logged)
  {
    GenerateTokensFramed(logged, id, now);
    RevocationsKeptTransitive(db.ledger, logged.ledger, GenerateTokens(logged, id, now).0.ledger);
  }

  lemma LoginFramed(db: Db, rawEmail: string, password: string, now: int)
    ensures Framed(db, Login(db, rawEmail, password, now).0)
  {
    if rawEmail == "" || password == "" {
      Untouched(db, db);
    } else {
      AuthenticateFramed(db, NormalizeEmail(rawEmail), password, now);
    }
  }

  lemma RefreshFramed(db: Db, bearer: Option<Token>, now: int)
    ensures Framed(db, RefreshAccess(db, bearer, now).0)
  {
    var after := RefreshAccess(db, bearer, now).0;
    if bearer.Some? && bearer.value in db.ledger && !db.ledger[bearer.value].revoked &&
       now > db.ledger[bearer.value].expiresAt {
      RevocationsKeptDrop(db.ledger, bearer.value);
      assert after == db.(ledger := db.ledger - {bearer.value});
    } else {
      assert after == db;
      RevocationsKeptRefl(db.ledger);
    }
  }

  lemma LogoutFramed(db: Db, bearer: Option<Token>, now: int)
    ensures Framed(db, Logout(db, bearer, now).0)
  {
    var after := Logout(db, bearer, now).0;
    if TokenRequired(db.users, bearer, now).Ok? && bearer.value in db.ledger {
      var t := bearer.value;
      RevocationsKeptRevoke(db.ledger, t);
      assert after == db.(ledger := db.ledger[t := db.ledger[t].(revoked := true)]);
    } else {
      assert after == db;
      RevocationsKeptRefl(db.ledger);
    }
  }

  lemma IssueResetCodeFramed(db: Db, email: Email, code: string, discarded: string, now: int)
    ensures Framed(db, IssueResetCode(db, email, code, discarded, now).0)
  {
    Untouched(db, IssueResetCode(db, email, code, discarded, now).0);
  }

  lemma ForgotPasswordFramed(db: Db, rawEmail: string, code: string, discarded: string, now: int)
    ensures Framed(db, ForgotPassword(db, rawEmail, code, discarded, now).0)
  {
    if rawEmail == "" {
      Untouched(db, db);
    } else {
      IssueResetCodeFramed(db, NormalizeEmail(rawEmail), code, discarded, now);
    }
  }

  lemma ApplyResetFramed(db: Db, email: Email, otp: string, newPassword: string, now: int)
    ensures Framed(db, ApplyReset(db, email, otp, newPassword, now).0)
  {
    var after := ApplyReset(db, email, otp, newPassword, now).0;
    if |newPassword| < MinPasswordLength || email !in db.pending {
      Untouched(db, db);
    } else {
      var row := db.pending[email];
      match CheckOtp(row.otpCode, row.otpExpiry, otp, now)
      case Invalid => Untouched(db, db);
      case Expired =>
        assert after == db.(pending := db.pending - {email});
        Untouched(db, after);
      case Valid =>
        match LiveUserByEmail(db, email)
        case None => Untouched(db, db);
        case Some(id) =>
          RevocationsKeptRevokeAll(db.ledger, id);
          assert after == db.(users := db.users[id := db.users[id].(passwordHash := Hashed(newPassword))],
                              pending := db.pending - {email},
                              ledger := RevokeAll(db.ledger, id));
    }
  }

  lemma ResetPasswordFramed(db: Db, rawEmail: string, rawOtp: string, newPassword: string, now: int)
    ensures Framed(db, ResetPassword(db, rawEmail, rawOtp, newPassword, now).0)
  {
    if rawEmail == "" || rawOtp == "" || newPassword == "" {
      Untouched(db, db);
    } else {
      ApplyResetFramed(db, NormalizeEmail(rawEmail), Strip(rawOtp), newPassword, now);
    }
  }

  lemma DeleteUserFramed(db: Db, bearer: Option<Token>, target: UserId, now: int)
    ensures Framed(db, DeleteUser(db, bearer, target, now).0)
  {
    var after := DeleteUser(db, bearer, target, now).0;
    match AdminRequired(db.users, bearer, now)
    case Err(_) => assert after == db;
    case Ok(admin) =>
      if target !in db.users || target == admin.id {
        assert after == db;
      } else {
        assert after == db.(users := db.users[target := db.users[target].(isDeleted := true, isActive := false)]);
      }
    Untouched(db, after);
  }

  lemma RegisterForEventKeepsLedger(db: Db, bearer: Option<Token>, event: EventId, now: int, today: int)
    ensures RevocationsKept(db.ledger, RegisterForEvent(db, bearer, event, now, today).0.ledger)
  {
    assert RegisterForEvent(db, bearer, event, now, today).0.ledger == db.ledger;
    RevocationsKeptRefl(db.ledger);
  }

  lemma StepFramed(db: Db, op: Op)
    ensures RevocationsKept(db.ledger, Step(db, op).ledger)
    ensures !op.RegisterForEventOp? ==> EventsKept(db, Step(db, op))
  {
    match op
    case RegisterOp(f, code, now) => RegisterFramed(db, f, code, now);
    case VerifyEmailOp(e, otp, now, id, draws) => VerifyEmailFramed(db, e, otp, now, id, draws);
    case ResendOtpOp(e, code, now) => ResendOtpFramed(db, e, code, now);
    case CompleteUploadOp(e, url, now) => CompleteUploadFramed(db, e, url, now);
    case LoginOp(e, pw, now) => LoginFramed(db, e, pw, now);
    case RefreshOp(b, now) => RefreshFramed(db, b, now);
    case LogoutOp(b, now) => LogoutFramed(db, b, now);
    case ForgotPasswordOp(e, code, d, now) => ForgotPasswordFramed(db, e, code, d, now);
    case ResetPasswordOp(e, otp, pw, now) => ResetPasswordFramed(db, e, otp, pw, now);
    case DeleteUserOp(b, target, now) => DeleteUserFramed(db, b, target, now);
    case RegisterForEventOp(b, ev, now, today) => RegisterForEventKeepsLedger(db, b, ev, now, today);
  }

  // ------------------------------------------------------------ revocation

  /** No sequence of requests brings a revoked refresh token back: it stays
      in the ledger, revoked. */
  lemma {:induction false} RunKeepsRevocations(db: Db, ops: seq<Op>)
    ensures RevocationsKept(db.ledger, Run(db, ops).ledger)
    decreases |ops|
  {
    if ops != [] {
      var next := Step(db, ops[0]);
      StepFramed(db, ops[0]);
      RunKeepsRevocations(next, ops[1..]);
      RevocationsKeptTransitive(db.ledger, next.ledger, Run(next, ops[1..]).ledger);
    }
  }

  /** So a revoked refresh token is refused at every later refresh. */
  lemma RevokedNeverRefreshes(db: Db, ops: seq<Op>, t: Token, now: int)
    requires t in db.ledger && db.ledger[t].revoked
    ensures RefreshAccess(Run(db, ops), Some(t), now) == (Run(db, ops), Reply(401, InvalidRefreshToken))
  {
    RunKeepsRevocations(db, ops);
  }

  // ---------------------------------------------------------------- events

  /** The registrations held for one event. */
  function Registered(regs: map<(EventId, UserId), EventRegistration>, event: EventId): set<(EventId, UserId)> {
    set k | k in regs && k.0 == event
  }

  /** Every event's participant count is the number of its registrations. */
  ghost predicate CountsAgree(db: Db) {
    forall e :: e in db.events ==> db.events[e].currentParticipants == |Registered(db.registrations, e)|
  }

  /** No capacity-limited event holds more participants than its capacity. */
  ghost predicate WithinCapacity(events: map<EventId, Event>) {
    forall e :: e in events && CapacityLimited(events[e]) ==>
      events[e].currentParticipants <= events[e].maxParticipants.value
  }

  /** A registration succeeds exactly for a student with an accepted token,
      an existing active event, no earlier registration, room left when the
      capacity is enforced, and a deadline not yet passed. It then records
      the registration, counts one more participant and mails a
      confirmation. */
  lemma RegisterForEventOutcome(db: Db, bearer: Option<Token>, event: EventId, now: int, today: int)
    ensures var (after, reply) := RegisterForEvent(db, bearer, event, now, today);
      reply.status == 200 <==>
        && StudentRequired(db.users, bearer, now).Ok?
        && event in db.events && db.events[event].isActive
        && (event, StudentRequired(db.users, bearer, now).value.id) !in db.registrations
        && (CapacityLimited(db.events[event]) ==>
              db.events[event].currentParticipants < db.events[event].maxParticipants.value)
        && (db.events[event].registrationDeadline.Some? ==> today <= db.events[event].registrationDeadline.value)
    ensures var (after, reply) := RegisterForEvent(db, bearer, event, now, today);
      reply.status == 200 ==>
        var u := StudentRequired(db.users, bearer, now).value;
        && after.registrations == db.registrations[(event, u.id) := EventRegistration(u.fullName, u.email, u.phone)]
        && after.events == db.events[event := db.events[event].(currentParticipants := db.events[event].currentParticipants + 1)]
        && after.outbox == db.outbox + [Notice(u.email, EventConfirmation(event))]
        && after.users == db.users && after.ledger == db.ledger
  {
  }

  /** Adding a registration for `event` counts one more for `event` and no
      more for any other event. */
  lemma {:induction false} RegisteredAfterAdd(regs: map<(EventId, UserId), EventRegistration>, k: (EventId, UserId),
                                             r: EventRegistration, e: EventId)
    requires k !in regs
    ensures |Registered(regs[k := r], e)| == |Registered(regs, e)| + (if k.0 == e then 1 else 0)
  {
    if k.0 == e {
      assert Registered(regs[k := r], e) == Registered(regs, e) + {k};
    } else {
      assert Registered(regs[k := r], e) == Registered(regs, e);
    }
  }

  /** A registration keeps every count equal to its registrations and every
      limited event within its capacity. */
  lemma RegisterForEventKeepsCounts(db: Db, bearer: Option<Token>, event: EventId, now: int, today: int)
    requires CountsAgree(db) && WithinCapacity(db.events)
    ensures CountsAgree(RegisterForEvent(db, bearer, event, now, today).0)
    ensures WithinCapacity(RegisterForEvent(db, bearer, event, now, today).0.events)
  {
    var (after, reply) := RegisterForEvent(db, bearer, event, now, today);
    if reply.status == 200 {
      RegisterForEventOutcome(db, bearer, event, now, today);
      var u := StudentRequired(db.users, bearer, now).value;
      var k := (event, u.id);
      forall e | e in after.events ensures after.events[e].currentParticipants == |Registered(after.registrations, e)| {
        RegisteredAfterAdd(db.registrations, k, EventRegistration(u.fullName, u.email, u.phone), e);
      }
    } else {
      assert after.events == db.events && after.registrations == db.registrations;
    }
  }

  /** Both event invariants hold after any sequence of requests. */
  lemma {:induction false} RunKeepsCounts(db: Db, ops: seq<Op>)
    requires CountsAgree(db) && WithinCapacity(db.events)
    ensures CountsAgree(Run(db, ops)) && WithinCapacity(Run(db, ops).events)
    decreases |ops|
  {
    if ops != [] {
      var next := Step(db, ops[0]);
      StepFramed(db, ops[0]);
      match ops[0] {
        case RegisterForEventOp(b, ev, now, today) =>
          assert next == RegisterForEvent(db, b, ev, now, today).0;
          RegisterForEventKeepsCounts(db, b, ev, now, today);
        case _ =>
          assert EventsKept(db, next);
      }
      RunKeepsCounts(next, ops[1..]);
    }
  }
}
