/** Token minting and decoding and the refresh-token ledger writes. A signed
    token is modelled by its claims; the HS256 signature is assumed sound, so
    only the server's own tokens decode. */
module Tokens {
  import opened Records

  datatype Decoded = Claims(userId: UserId, kind: TokenType) | SignatureExpired | Malformed

  /** `jwt.decode`: a token the server did not sign is malformed; a signed
      one is expired once the clock reaches its `exp` claim (PyJWT rejects
      `exp <= now`); otherwise its claims come back. */
  function Decode(t: Token, now: int): (d: Decoded)
    ensures d.Claims? <==> t.Signed? && now < t.exp
    ensures d.Claims? ==> d.userId == t.userId && d.kind == t.kind
    ensures d == Malformed <==> t.Forged?
  {
    match t
    case Forged(_) => Malformed
    case Signed(uid, kind, exp) => if exp <= now then SignatureExpired else Claims(uid, kind)
  }

  function Lifetime(kind: TokenType): int {
    match kind
    case Access => AccessLifetime
    case Refresh => RefreshLifetime
  }

  /** `jwt.encode({'user_id', 'type', 'exp'})`: deterministic in its claims,
      so two tokens of one kind minted for one user in one second are equal. */
  function Mint(userId: UserId, kind: TokenType, now: int): (t: Token)
    ensures Decode(t, now) == Claims(userId, kind)
    ensures t.Signed? && t.exp == now + Lifetime(kind)
  {
    Signed(userId, kind, now + Lifetime(kind))
  }

  /** `generate_tokens`: mints an access/refresh pair and adds the refresh
      token to the ledger. The `token` column is unique, so when the same
      refresh token is already recorded the commit fails and nothing is
      written. Only the ledger changes. */
  function GenerateTokens(db: Db, userId: UserId, now: int): (res: (Db, Option<TokenPair>))
    ensures res.1.Some? <==> Mint(userId, Refresh, now) !in db.ledger
    ensures res.1.None? ==> res.0 == db
    ensures res.1.Some? ==>
      && res.1.value == TokenPair(Mint(userId, Access, now), Mint(userId, Refresh, now))
      && res.0 == db.(ledger := db.ledger[res.1.value.refresh := RefreshRecord(userId, now + RefreshLifetime, now, false)])
  {
    var access := Mint(userId, Access, now);
    var refresh := Mint(userId, Refresh, now);
    if refresh in db.ledger then (db, None)
    else
      var rec := RefreshRecord(userId, now + RefreshLifetime, now, false);
      (db.(ledger := db.ledger[refresh := rec]), Some(TokenPair(access, refresh)))
  }

  /** The bulk `update({'revoked': True})` on every ledger row of one user:
      the same tokens, those of `userId` revoked, the others untouched. */
  function RevokeAll(ledger: map<Token, RefreshRecord>, userId: UserId): (r: map<Token, RefreshRecord>)
    ensures r.Keys == ledger.Keys
    ensures forall t :: t in ledger && ledger[t].userId == userId ==> r[t] == ledger[t].(revoked := true)
    ensures forall t :: t in ledger && ledger[t].userId != userId ==> r[t] == ledger[t]
  {
    map t | t in ledger :: if ledger[t].userId == userId then ledger[t].(revoked := true) else ledger[t]
  }

  /** Every ledger row is a refresh token the server minted, recorded for its
      own user with its own expiry. `generate_tokens` is the only writer of
      new rows, so this holds of every reachable ledger. */
  ghost predicate LedgerWellFormed(ledger: map<Token, RefreshRecord>) {
    forall t :: t in ledger ==>
      t.Signed? && t.kind == Refresh && ledger[t].userId == t.userId && ledger[t].expiresAt == t.exp
  }
}
