/** The access guards wrapped around protected routes: `token_required` and
    the role checks layered on it. Each yields the current account or the
    reply that short-circuits the route. */
module Guards {
  import opened Records
  import opened Tokens

  /** No bearer token: no `Authorization: Bearer` header, or an empty token. */
  predicate NoToken(bearer: Option<Token>) {
    bearer.None? || bearer.value == Forged("")
  }

  /** `token_required`, checking in this order: a token is present; it decodes
      (else invalid, or expired); its type is `access`; its user exists; the
      user is active; the user is verified. Every rejection is a 401. The
      `is_deleted` flag is not consulted. */
  function TokenRequired(users: map<UserId, User>, bearer: Option<Token>, now: int): (r: Result<User>)
    ensures r.Err? ==> r.error.status == 401
    ensures NoToken(bearer) ==> r == Err(Reply(401, TokenMissing))
    ensures !NoToken(bearer) && bearer.value.Forged? ==> r == Err(Reply(401, InvalidToken))
    ensures !NoToken(bearer) && bearer.value.Signed? ==>
      var t := bearer.value;
      && (t.exp <= now ==> r == Err(Reply(401, TokenExpired)))
      && (now < t.exp && t.kind != Access ==> r == Err(Reply(401, InvalidTokenType)))
      && (now < t.exp && t.kind == Access ==>
            && (t.userId !in users ==> r == Err(Reply(401, UserNotFound)))
            && (t.userId in users && !users[t.userId].isActive ==> r == Err(Reply(401, AccountDeactivated)))
            && (t.userId in users && users[t.userId].isActive && !users[t.userId].isVerified ==>
                  r == Err(Reply(401, EmailNotVerified)))
            && (t.userId in users && users[t.userId].isActive && users[t.userId].isVerified ==>
                  r == Ok(users[t.userId])))
  {
    if NoToken(bearer) then Err(Reply(401, TokenMissing))
    else match Decode(bearer.value, now)
      case Malformed => Err(Reply(401, InvalidToken))
      case SignatureExpired => Err(Reply(401, TokenExpired))
      case Claims(uid, kind) =>
        if kind != Access then Err(Reply(401, InvalidTokenType))
        else if uid !in users then Err(Reply(401, UserNotFound))
        else if !users[uid].isActive then Err(Reply(401, AccountDeactivated))
        else if !users[uid].isVerified then Err(Reply(401, EmailNotVerified))
        else Ok(users[uid])
  }

  /** The token check followed by a role test; a wrong role is a 403. */
  function RoleGuard(users: map<UserId, User>, bearer: Option<Token>, now: int,
                     admits: Role -> bool, refusal: Msg): (r: Result<User>)
    ensures TokenRequired(users, bearer, now).Err? ==> r == TokenRequired(users, bearer, now)
    ensures TokenRequired(users, bearer, now).Ok? ==>
      var u := TokenRequired(users, bearer, now).value;
      r == if admits(u.role) then Ok(u) else Err(Reply(403, refusal))
  {
    match TokenRequired(users, bearer, now)
    case Err(e) => Err(e)
    case Ok(u) => if admits(u.role) then Ok(u) else Err(Reply(403, refusal))
  }

  /** `admin_required`: only an admin passes. */
  function AdminRequired(users: map<UserId, User>, bearer: Option<Token>, now: int): (r: Result<User>)
    ensures r.Ok? <==> TokenRequired(users, bearer, now).Ok? && TokenRequired(users, bearer, now).value.role == Admin
    ensures r.Ok? ==> r == TokenRequired(users, bearer, now)
    ensures TokenRequired(users, bearer, now).Ok? && r.Err? ==> r.error == Reply(403, AdminAccessRequired)
  {
    RoleGuard(users, bearer, now, (role: Role) => role == Admin, AdminAccessRequired)
  }

  /** `teacher_required`: a teacher or an admin passes. */
  function TeacherRequired(users: map<UserId, User>, bearer: Option<Token>, now: int): (r: Result<User>)
    ensures r.Ok? <==> TokenRequired(users, bearer, now).Ok? && TokenRequired(users, bearer, now).value.role in {Teacher, Admin}
    ensures r.Ok? ==> r == TokenRequired(users, bearer, now)
    ensures TokenRequired(users, bearer, now).Ok? && r.Err? ==> r.error == Reply(403, TeacherAccessRequired)
  {
    RoleGuard(users, bearer, now, (role: Role) => role == Teacher || role == Admin, TeacherAccessRequired)
  }

  /** `student_required`: only a student passes (an admin does not). */
  function StudentRequired(users: map<UserId, User>, bearer: Option<Token>, now: int): (r: Result<User>)
    ensures r.Ok? <==> TokenRequired(users, bearer, now).Ok? && TokenRequired(users, bearer, now).value.role == Student
    ensures r.Ok? ==> r == TokenRequired(users, bearer, now)
    ensures TokenRequired(users, bearer, now).Ok? && r.Err? ==> r.error == Reply(403, StudentAccessRequired)
  {
    RoleGuard(users, bearer, now, (role: Role) => role == Student, StudentAccessRequired)
  }

  /** Whatever passes `token_required` is an unexpired access token of an
      existing, active and verified account, so it is never a refresh
      token and never a ledger key. */
  lemma AcceptedTokenIsAccess(users: map<UserId, User>, bearer: Option<Token>, now: int, ledger: map<Token, RefreshRecord>)
    requires TokenRequired(users, bearer, now).Ok?
    requires LedgerWellFormed(ledger)
    ensures bearer.Some? && bearer.value.Signed? && bearer.value.kind == Access
    ensures bearer.value !in ledger
    ensures var u := TokenRequired(users, bearer, now).value;
      u == users[bearer.value.userId] && u.isActive && u.isVerified
  {
  }
}
