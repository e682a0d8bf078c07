/** What the session routes promise: who may log in and in which order the
    refusals come, when a refresh token buys an access token, what logout
    and a password reset do to the ledger, and what an admin's deletion
    locks out. */
module SessionProperties {
  import opened Records
  import opened Otp
  import opened Tokens
  import opened Guards
  import opened Routes
  import SignupProperties

  // ----------------------------------------------------------------- login

  /** An unknown address and a wrong password get the same reply and change
      nothing, so the reply does not reveal whether an account exists; the
      verification flag is looked at before the active flag. */
  lemma LoginRefusals(db: Db, email: Email, password: string, now: int)
    ensures LiveUserByEmail(db, email).None? ==>
      Authenticate(db, email, password, now) == (db, Reply(401, InvalidCredentials))
    ensures LiveUserByEmail(db, email).Some? ==>
      var u := db.users[LiveUserByEmail(db, email).value];
      && (u.passwordHash != Hashed(password) ==> Authenticate(db, email, password, now) == (db, Reply(401, InvalidCredentials)))
      && (u.passwordHash == Hashed(password) && !u.isVerified ==>
            Authenticate(db, email, password, now) == (db, Reply(403, LoginNotVerified)))
      && (u.passwordHash == Hashed(password) && u.isVerified && !u.isActive ==>
            Authenticate(db, email, password, now) == (db, Reply(403, LoginDeactivated)))
  {
  }

  /** A login succeeds exactly for the live account of the address, with the
      right password, verified and active, whose refresh token for this
      second is not yet recorded. It then stamps `last_login`, records the
      refresh token and returns the pair; nothing else changes. */
  lemma LoginSuccess(db: Db, email: Email, password: string, now: int)
    ensures var (after, reply) := Authenticate(db, email, password, now);
      reply.status == 200 <==>
        && LiveUserByEmail(db, email).Some?
        && var id := LiveUserByEmail(db, email).value;
           db.users[id].passwordHash == Hashed(password) && db.users[id].isVerified && db.users[id].isActive &&
           Mint(id, Refresh, now) !in db.ledger
    ensures var (after, reply) := Authenticate(db, email, password, now);
      reply.status == 200 ==>
        var id := LiveUserByEmail(db, email).value;
        && after.users == db.users[id := db.users[id].(lastLogin := Some(now))]
        && after.ledger == db.ledger[Mint(id, Refresh, now) := RefreshRecord(id, now + RefreshLifetime, now, false)]
        && after.pending == db.pending && after.emailIndex == db.emailIndex
        && reply.msg == LoginSuccessful(TokenPair(Mint(id, Access, now), Mint(id, Refresh, now)))
  {
    match LiveUserByEmail(db, email)
    case None =>
    case Some(id) =>
      var u := db.users[id];
      if u.passwordHash == Hashed(password) && u.isVerified && u.isActive {
        var logged := db.(users := db.users[id := u.(lastLogin := Some(now))]);
        assert Authenticate(db, email, password, now) ==
          if Mint(id, Refresh, now) in db.ledger then (logged, Reply(500, InternalServerError))
          else (logged.(ledger := db.ledger[Mint(id, Refresh, now) := RefreshRecord(id, now + RefreshLifetime, now, false)]),
                Reply(200, LoginSuccessful(TokenPair(Mint(id, Access, now), Mint(id, Refresh, now)))));
      }
  }

  /** Two logins of one account in one second: the second mints the same
      refresh token, so its token commit fails (500) after `last_login` was
      already written. */
  lemma LoginTwiceInOneSecond(db: Db, email: Email, password: string, now: int)
    requires Authenticate(db, email, password, now).1.status == 200
    ensures var once := Authenticate(db, email, password, now).0;
      var id := LiveUserByEmail(db, email).value;
      && LiveUserByEmail(once, email) == Some(id)
      && Authenticate(once, email, password, now).1 == Reply(500, InternalServerError)
      && Authenticate(once, email, password, now).0.users[id].lastLogin == Some(now)
  {
    LoginSuccess(db, email, password, now);
  }

  // --------------------------------------------------------- refresh_token

  /** In a well-formed ledger a refresh succeeds exactly for a recorded,
      unrevoked token strictly before its expiry; it changes nothing and
      returns an access token for the token's own user. */
  lemma RefreshSucceedsOnlyForLiveRows(db: Db, bearer: Option<Token>, now: int)
    requires LedgerWellFormed(db.ledger)
    ensures var (after, reply) := RefreshAccess(db, bearer, now);
      reply.status == 200 <==>
        bearer.Some? && bearer.value in db.ledger && !db.ledger[bearer.value].revoked &&
        now < db.ledger[bearer.value].expiresAt
    ensures var (after, reply) := RefreshAccess(db, bearer, now);
      reply.status == 200 ==>
        after == db && reply.msg == AccessRefreshed(Mint(db.ledger[bearer.value].userId, Access, now))
  {
  }

  /** A recorded, unrevoked token past its expiry row is deleted. */
  lemma RefreshExpiredRowDeleted(db: Db, t: Token, now: int)
    requires t in db.ledger && !db.ledger[t].revoked && now > db.ledger[t].expiresAt
    ensures RefreshAccess(db, Some(t), now) == (db.(ledger := db.ledger - {t}), Reply(401, RefreshTokenExpired))
  {
  }

  /** At the very second of expiry the ledger check still passes (it refuses
      only strictly later) while the token itself no longer decodes: the
      reply is "expired" yet the row is kept. */
  lemma RefreshAtExpiryKeepsRow(db: Db, t: Token)
    requires LedgerWellFormed(db.ledger)
    requires t in db.ledger && !db.ledger[t].revoked
    ensures RefreshAccess(db, Some(t), db.ledger[t].expiresAt) == (db, Reply(401, RefreshTokenExpired))
  {
  }

  /** A revoked token is refused like an unknown one, and stays in the ledger. */
  lemma RefreshRefusesRevoked(db: Db, t: Token, now: int)
    requires t in db.ledger && db.ledger[t].revoked
    ensures RefreshAccess(db, Some(t), now) == (db, Reply(401, InvalidRefreshToken))
  {
  }

  // ---------------------------------------------------------------- logout

  /** `logout` looks up the bearer token, which `token_required` only lets
      through as an access token, while the ledger holds refresh tokens only:
      logout accepts (200) yet never revokes anything. */
  lemma LogoutRevokesNothing(db: Db, bearer: Option<Token>, now: int)
    requires LedgerWellFormed(db.ledger)
    ensures Logout(db, bearer, now).0 == db
    ensures TokenRequired(db.users, bearer, now).Ok? <==> Logout(db, bearer, now).1 == Reply(200, LoggedOut)
    ensures TokenRequired(db.users, bearer, now).Err? ==> Logout(db, bearer, now).1 == TokenRequired(db.users, bearer, now).error
  {
    if TokenRequired(db.users, bearer, now).Ok? {
      AcceptedTokenIsAccess(db.users, bearer, now, db.ledger);
    }
  }

  /** So a refresh token that worked before logout still works after it. */
  lemma RefreshSurvivesLogout(db: Db, bearer: Option<Token>, t: Token, now: int, later: int)
    requires LedgerWellFormed(db.ledger)
    ensures RefreshAccess(Logout(db, bearer, now).0, Some(t), later) == RefreshAccess(db, Some(t), later)
  {
    LogoutRevokesNothing(db, bearer, now);
  }

  // -------------------------------------------------------- reset_password

  /** A reset succeeds exactly for a long enough password, a pending row,
      the right unexpired code and a live account. */
  lemma ResetSucceedsWhen(db: Db, email: Email, otp: string, newPassword: string, now: int)
    ensures ApplyReset(db, email, otp, newPassword, now).1.status == 200 <==>
      && |newPassword| >= MinPasswordLength && email in db.pending
      && otp == db.pending[email].otpCode && now <= db.pending[email].otpExpiry
      && LiveUserByEmail(db, email).Some?
  {
  }

  /** A successful reset stores the new password's hash, deletes the pending
      row and revokes every refresh token of the account, leaving other
      accounts' tokens as they were; afterwards the old tokens refresh no
      more, and the account's credentials check accepts the new password and
      refuses any password with another hash. */
  lemma ResetRevokesAllSessions(db: Db, email: Email, otp: string, newPassword: string, now: int)
    requires ApplyReset(db, email, otp, newPassword, now).1.status == 200
    ensures LiveUserByEmail(db, email).Some?
    ensures var after := ApplyReset(db, email, otp, newPassword, now).0;
      var id := LiveUserByEmail(db, email).value;
      && after.users == db.users[id := db.users[id].(passwordHash := Hashed(newPassword))]
      && after.pending == db.pending - {email}
      && after.ledger.Keys == db.ledger.Keys
      && (forall t :: t in db.ledger && db.ledger[t].userId == id ==> after.ledger[t].revoked)
      && (forall t :: t in db.ledger && db.ledger[t].userId != id ==> after.ledger[t] == db.ledger[t])
    ensures var after := ApplyReset(db, email, otp, newPassword, now).0;
      var id := LiveUserByEmail(db, email).value;
      forall t, later :: t in db.ledger && db.ledger[t].userId == id ==>
        RefreshAccess(after, Some(t), later).1 == Reply(401, InvalidRefreshToken)
    ensures var after := ApplyReset(db, email, otp, newPassword, now).0;
      forall password, later ::
        Authenticate(after, email, password, later).1 == Reply(401, InvalidCredentials) <==>
        Hashed(password) != Hashed(newPassword)
  {
    var id := LiveUserByEmail(db, email).value;
    var after := ApplyReset(db, email, otp, newPassword, now).0;
    assert after == db.(users := db.users[id := db.users[id].(passwordHash := Hashed(newPassword))],
                        pending := db.pending - {email},
                        ledger := RevokeAll(db.ledger, id));
    assert LiveUserByEmail(after, email) == Some(id);
  }

  /** A wrong code is refused without any write: the attempt is not even
      counted. */
  lemma ResetWrongCodeChangesNothing(db: Db, email: Email, otp: string, newPassword: string, now: int)
    requires |newPassword| >= MinPasswordLength && email in db.pending && otp != db.pending[email].otpCode
    ensures ApplyReset(db, email, otp, newPassword, now) == (db, Reply(400, InvalidOtp))
  {
  }

  /** A sequence of reset attempts against one address. */
  function ResetTries(db: Db, email: Email, newPassword: string, tries: seq<(string, int)>): Db
    decreases |tries|
  {
    if tries == [] then db
    else ResetTries(ApplyReset(db, email, tries[0].0, newPassword, tries[0].1).0, email, newPassword, tries[1..])
  }

  /** There is no ceiling on reset attempts: any number of wrong codes leaves
      the store exactly as it was, so the right code still resets afterwards
      (unlike `verify_email`, where five wrong codes purge the row). */
  lemma {:induction false} ResetHasNoAttemptCeiling(db: Db, email: Email, newPassword: string, tries: seq<(string, int)>)
    requires email in db.pending
    requires SignupProperties.AllWrong(tries, db.pending[email].otpCode)
    ensures ResetTries(db, email, newPassword, tries) == db
    decreases |tries|
  {
    if tries != [] {
      assert tries[0].0 != db.pending[email].otpCode;
      assert ApplyReset(db, email, tries[0].0, newPassword, tries[0].1).0 == db;
      assert SignupProperties.AllWrong(tries[1..], db.pending[email].otpCode) by {
        forall i | 0 <= i < |tries[1..]| ensures tries[1..][i].0 != db.pending[email].otpCode {
          assert tries[1..][i] == tries[i + 1];
        }
      }
      ResetHasNoAttemptCeiling(db, email, newPassword, tries[1..]);
    }
  }

  // ----------------------------------------------------------- delete_user

  /** An admin's deletion succeeds exactly for another existing account; it
      sets the deleted flag and clears the active flag and changes nothing
      else. */
  lemma DeleteUserOutcome(db: Db, bearer: Option<Token>, target: UserId, now: int)
    ensures DeleteUser(db, bearer, target, now).1.status == 200 <==>
      AdminRequired(db.users, bearer, now).Ok? && target in db.users && target != AdminRequired(db.users, bearer, now).value.id
    ensures AdminRequired(db.users, bearer, now).Ok? && target in db.users &&
            target == AdminRequired(db.users, bearer, now).value.id ==>
      DeleteUser(db, bearer, target, now) == (db, Reply(400, CannotDeleteYourself))
    ensures DeleteUser(db, bearer, target, now).1.status == 200 ==>
      DeleteUser(db, bearer, target, now).0 ==
        db.(users := db.users[target := db.users[target].(isDeleted := true, isActive := false)])
  {
  }

  /** A deleted account is locked out: every access token of it is refused
      by `token_required`, and a login by its address is refused as unknown.
      Its refresh tokens are not revoked, so they still buy access tokens,
      which are then refused. */
  lemma DeleteLocksOut(db: Db, bearer: Option<Token>, target: UserId, now: int, t: Token, later: int, password: string)
    requires Consistent(db)
    requires DeleteUser(db, bearer, target, now).1.status == 200
    ensures var after := DeleteUser(db, bearer, target, now).0;
      && (t.Signed? && t.userId == target ==> TokenRequired(after.users, Some(t), later).Err?)
      && Authenticate(after, db.users[target].email, password, later) == (after, Reply(401, InvalidCredentials))
      && after.ledger == db.ledger
  {
    var after := DeleteUser(db, bearer, target, now).0;
    var email := db.users[target].email;
    assert after == db.(users := db.users[target := db.users[target].(isDeleted := true, isActive := false)]);
    assert after.emailIndex[email] == target;
  }
}
