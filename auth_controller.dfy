/** Login, token refresh and logout (`backend/src/controllers/auth.controller.js`).
    The bcrypt comparison and the SHA-256 token hash are oracles passed in;
    the fresh random refresh token is a parameter. */
module AuthController {
  import opened Common
  import opened Responses
  import opened Store
  import AuthMiddleware

  /** `LOCKOUT`: the number of failed attempts that locks an account and the
      length of the window they are counted over, in minutes. */
  datatype Lockout = Lockout(maxAttempts: int, minutes: int)

  const DEFAULT_MAX_ATTEMPTS := 5
  const DEFAULT_DURATION_MINUTES := 30
  const AGENT_LIMIT := 500

  /** `parseInt(v)` of an environment variable that may be unset; `None`
      is NaN. */
  function EnvInt(v: Option<string>): (r: Option<int>)
    ensures v.None? ==> r.None?
    ensures v.Some? ==> r == ParseInt(v.value)
  {
    if v.None? then None else ParseInt(v.value)
  }

  /** `parseInt(process.env.ACCOUNT_LOCKOUT_ATTEMPTS) || 5` and
      `parseInt(process.env.ACCOUNT_LOCKOUT_DURATION_MINUTES) || 30`: a
      variable that is unset, unparsable or zero gives the default. */
  function LockoutFrom(attemptsEnv: Option<string>, minutesEnv: Option<string>): (l: Lockout)
    ensures l.maxAttempts != 0 && l.minutes != 0
    ensures TruthyInt(EnvInt(attemptsEnv)) ==> l.maxAttempts == EnvInt(attemptsEnv).value
    ensures !TruthyInt(EnvInt(attemptsEnv)) ==> l.maxAttempts == DEFAULT_MAX_ATTEMPTS
    ensures TruthyInt(EnvInt(minutesEnv)) ==> l.minutes == EnvInt(minutesEnv).value
    ensures !TruthyInt(EnvInt(minutesEnv)) ==> l.minutes == DEFAULT_DURATION_MINUTES
  {
    var a := EnvInt(attemptsEnv);
    var m := EnvInt(minutesEnv);
    Lockout(if TruthyInt(a) then a.value else DEFAULT_MAX_ATTEMPTS,
            if TruthyInt(m) then m.value else DEFAULT_DURATION_MINUTES)
  }

  /** A set variable is read as `parseInt` reads it: `"10"` gives ten
      attempts. */
  lemma LockoutFromNumber()
    ensures LockoutFrom(Some("10"), None) == Lockout(10, DEFAULT_DURATION_MINUTES)
  {
    ParseIntOfDigits("10");
    assert DigitsValue("10") == DigitsValue("1") * 10 + 0;
  }

  /** `"0"` is falsy, so a zero window falls back to the default. */
  lemma LockoutFromZero()
    ensures LockoutFrom(None, Some("0")) == Lockout(DEFAULT_MAX_ATTEMPTS, DEFAULT_DURATION_MINUTES)
  {
    ParseIntOfDigits("0");
  }

  const LOCKED_PREFIX := "Cuenta bloqueada temporalmente por exceso de intentos fallidos. Intenta de nuevo en "
  const LOCKED_SUFFIX := " minutos."

  /** The 429 message, naming the window length. */
  function LockedMessage(l: Lockout): string {
    LOCKED_PREFIX + IntToString(l.minutes) + LOCKED_SUFFIX
  }

  /** Without configuration an account locks after five failures in thirty
      minutes, and the message says so. */
  lemma DefaultLockout()
    ensures LockoutFrom(None, None) == Lockout(5, 30)
    ensures LockedMessage(LockoutFrom(None, None))
            == "Cuenta bloqueada temporalmente por exceso de intentos fallidos. Intenta de nuevo en 30 minutos."
  {
  }

  const BAD_CREDENTIALS := "Credenciales incorrectas"
  const NO_REFRESH_TOKEN := "Refresh token no proporcionado"
  const UNKNOWN_REFRESH_TOKEN := "Refresh token inválido"
  const REVOKED_REFRESH_TOKEN := "Refresh token revocado"
  const EXPIRED_REFRESH_TOKEN := "Refresh token expirado"
  const INACTIVE_ACCOUNT := "Cuenta inactiva"

  /** `userAgent?.substring(0, 500) || null`. */
  function TruncatedAgent(ua: Option<string>): (r: Option<string>)
    ensures r.Some? <==> TruthyString(ua)
    ensures r.Some? ==> ua.Some? && |r.value| <= AGENT_LIMIT && |r.value| <= |ua.value|
                        && r.value == ua.value[..|r.value|]
    ensures r.Some? ==> |r.value| == if |ua.value| < AGENT_LIMIT then |ua.value| else AGENT_LIMIT
  {
    if !TruthyString(ua) then None
    else Some(if |ua.value| < AGENT_LIMIT then ua.value else ua.value[..AGENT_LIMIT])
  }

  /** `recordLoginAttempt(username, ip, userAgent, success)`: the row it
      appends; `attempted_at` takes `NOW()`. */
  function Attempt(username: string, ip: string, ua: Option<string>, success: bool, now: int): (a: LoginAttempt)
    ensures a.username == username && a.success == success && a.attemptedAt == Second(now)
    ensures a.userAgent == TruncatedAgent(ua)
  {
    LoginAttempt(username, ip, success, TruncatedAgent(ua), Second(now))
  }

  /** The start of the lockout window, cut to the second as the query's
      timestamp text is. */
  function WindowStart(now: int, l: Lockout): int {
    Second(now - l.minutes * 60 * 1000)
  }

  /** Failed attempts for `username` at or after `since`. */
  function RecentFailures(attempts: seq<LoginAttempt>, username: string, since: int): (n: nat)
    ensures n <= |attempts|
  {
    if attempts == [] then 0
    else
      var a := attempts[|attempts| - 1];
      RecentFailures(attempts[..|attempts| - 1], username, since)
      + (if a.username == username && !a.success && a.attemptedAt >= since then 1 else 0)
  }

  /** `isAccountLocked(username)`. */
  predicate IsAccountLocked(attempts: seq<LoginAttempt>, username: string, now: int, l: Lockout) {
    RecentFailures(attempts, username, WindowStart(now, l)) >= l.maxAttempts
  }

  /** Appending an attempt changes the count by exactly that attempt. */
  lemma RecentFailuresAppend(attempts: seq<LoginAttempt>, a: LoginAttempt, username: string, since: int)
    ensures RecentFailures(attempts + [a], username, since)
            == RecentFailures(attempts, username, since)
               + (if a.username == username && !a.success && a.attemptedAt >= since then 1 else 0)
  {
    assert (attempts + [a])[..|attempts|] == attempts;
  }

  /** A successful login removes no failure from the count. */
  lemma SuccessKeepsFailures(attempts: seq<LoginAttempt>, username: string, ip: string,
                             ua: Option<string>, now: int, since: int)
    ensures RecentFailures(attempts + [Attempt(username, ip, ua, true, now)], username, since)
            == RecentFailures(attempts, username, since)
  {
    RecentFailuresAppend(attempts, Attempt(username, ip, ua, true, now), username, since);
  }

  /** Only attempts inside the window count: when every attempt is older
      than the window the account is not locked, unless the configured
      threshold is not positive, which locks every account. */
  lemma {:induction false} OldFailuresExpire(attempts: seq<LoginAttempt>, username: string, now: int, l: Lockout)
    requires forall k :: 0 <= k < |attempts| ==> attempts[k].attemptedAt < WindowStart(now, l)
    ensures RecentFailures(attempts, username, WindowStart(now, l)) == 0
    ensures IsAccountLocked(attempts, username, now, l) <==> l.maxAttempts <= 0
  {
    if attempts != [] {
      OldFailuresExpire(attempts[..|attempts| - 1], username, now, l);
    }
  }

  /** Attempts for other usernames never lock an account. */
  lemma {:induction false} OtherUsersDoNotCount(attempts: seq<LoginAttempt>, username: string, since: int)
    requires forall k :: 0 <= k < |attempts| ==> attempts[k].username != username
    ensures RecentFailures(attempts, username, since) == 0
  {
    if attempts != [] {
      OtherUsersDoNotCount(attempts[..|attempts| - 1], username, since);
    }
  }

  /** `GROUP_CONCAT(r.nombre SEPARATOR ',')`: NULL for a user without roles. */
  function GroupConcat(names: seq<string>): (r: Option<string>)
    ensures r.None? <==> names == []
  {
    if names == [] then None else Some(Join(names, ","))
  }

  /** The first row with this username (`WHERE u.username = ? GROUP BY u.id`, `rows[0]`). */
  function FindUser(users: seq<User>, username: string): (r: Option<nat>)
    ensures r.Some? ==> r.value < |users| && users[r.value].username == username
                        && forall k :: 0 <= k < r.value ==> users[k].username != username
    ensures r.None? ==> forall k :: 0 <= k < |users| ==> users[k].username != username
  {
    if users == [] then None
    else if users[0].username == username then Some(0)
    else
      var r := FindUser(users[1..], username);
      if r.Some? then Some(r.value + 1) else None
  }

  /** How the guard chain of `login` ends. */
  datatype LoginResult = Locked | BadCredentials | Granted(index: nat)

  function LoginOutcome(s: AccountState, username: string, password: string,
                        compare: (string, string) -> bool, now: int, l: Lockout): (o: LoginResult)
    ensures o.Granted? ==> o.index < |s.users|
    ensures o.Granted? <==> !IsAccountLocked(s.attempts, username, now, l)
                            && FindUser(s.users, username).Some?
                            && o == Granted(FindUser(s.users, username).value)
                            && s.users[o.index].activo && s.users[o.index].deletedAt.None?
                            && compare(password, s.users[o.index].passwordHash)
  {
    if IsAccountLocked(s.attempts, username, now, l) then Locked
    else match FindUser(s.users, username)
      case None => BadCredentials
      case Some(i) =>
        var u := s.users[i];
        if u.deletedAt.Some? || !u.activo then BadCredentials
        else if !compare(password, u.passwordHash) then BadCredentials
        else Granted(i)
  }

  /** A locked account is refused whatever the password, and before the
      user table or the password comparison is consulted. */
  lemma LockedIgnoresCredentials(s: AccountState, username: string, p1: string, p2: string,
                                 c1: (string, string) -> bool, c2: (string, string) -> bool,
                                 users: seq<User>, now: int, l: Lockout)
    requires IsAccountLocked(s.attempts, username, now, l)
    ensures LoginOutcome(s, username, p1, c1, now, l) == Locked
    ensures LoginOutcome(s.(users := users), username, p2, c2, now, l) == Locked
  {
  }

  /** An unknown user, a deleted or inactive one and a wrong password are
      indistinguishable: the same outcome. */
  lemma UniformRejection(s: AccountState, username: string, password: string,
                         compare: (string, string) -> bool, now: int, l: Lockout)
    requires !IsAccountLocked(s.attempts, username, now, l)
    requires FindUser(s.users, username).None?
             || !s.users[FindUser(s.users, username).value].activo
             || s.users[FindUser(s.users, username).value].deletedAt.Some?
             || !compare(password, s.users[FindUser(s.users, username).value].passwordHash)
    ensures LoginOutcome(s, username, password, compare, now, l) == BadCredentials
  {
  }

  /** The `data` of a successful login; the signed access token is left to
      the JWT library. */
  datatype LoginData = LoginData(refreshToken: string, id: int, username: string,
                                 nombre: string, apellidos: string, roles: seq<string>,
                                 expiresIn: int)

  /** `login(req, res)`. `compare` is bcrypt's comparison, `hash` the
      refresh-token hash and `newToken` the random token it issues. */
  method Login(db: Accounts, username: string, password: string, ip: string, userAgent: Option<string>,
               clock: Clock, compare: (string, string) -> bool, hash: string -> string,
               newToken: string, expiresAt: int, lockout: Lockout)
    returns (resp: Response<LoginData>)
    modifies db
    ensures var s := old(db.State());
            var o := LoginOutcome(s, username, password, compare, clock.now, lockout);
            && (o.Locked? ==> (resp == Fail(LockedMessage(lockout), 429)
                               && db.State() == s.(attempts := s.attempts + [Attempt(username, ip, userAgent, false, clock.now)])))
            && (o.BadCredentials? ==> (resp == Unauthorized(BAD_CREDENTIALS)
                                       && db.State() == s.(attempts := s.attempts + [Attempt(username, ip, userAgent, false, clock.now)])))
            && (o.Granted? ==>
                  var u := s.users[o.index];
                  && resp == Success(Some(LoginData(newToken, o.index + 1, u.username, u.nombre, u.apellidos,
                                                    AuthMiddleware.RoleList(GroupConcat(RoleNames(s.roles, s.userRoles, o.index + 1))),
                                                    15 * 60)), "Login exitoso", 200)
                  && db.State() == s.(attempts := s.attempts + [Attempt(username, ip, userAgent, true, clock.now)],
                                      refreshTokens := s.refreshTokens
                                        + [RefreshToken(o.index + 1, hash(newToken), expiresAt, false, None,
                                                        Some(ip), TruncatedAgent(userAgent))]))
  {
    var locked := IsAccountLocked(db.attempts, username, clock.now, lockout);
    if locked {
      db.attempts := db.attempts + [Attempt(username, ip, userAgent, false, clock.now)];
      return Fail(LockedMessage(lockout), 429);
    }
    var found := FindUser(db.users, username);
    if found.None? {
      db.attempts := db.attempts + [Attempt(username, ip, userAgent, false, clock.now)];
      return Unauthorized(BAD_CREDENTIALS);
    }
    var i := found.value;
    var user := db.users[i];
    if user.deletedAt.Some? || !user.activo {
      db.attempts := db.attempts + [Attempt(username, ip, userAgent, false, clock.now)];
      return Unauthorized(BAD_CREDENTIALS);
    }
    var valid := compare(password, user.passwordHash);
    if !valid {
      db.attempts := db.attempts + [Attempt(username, ip, userAgent, false, clock.now)];
      return Unauthorized(BAD_CREDENTIALS);
    }
    db.attempts := db.attempts + [Attempt(username, ip, userAgent, true, clock.now)];
    var roles := AuthMiddleware.RoleList(GroupConcat(RoleNames(db.roles, db.userRoles, i + 1)));
    var tokenHash := hash(newToken);
    db.refreshTokens := db.refreshTokens
      + [RefreshToken(i + 1, tokenHash, expiresAt, false, None, Some(ip), TruncatedAgent(userAgent))];
    resp := Success(Some(LoginData(newToken, i + 1, user.username, user.nombre, user.apellidos, roles, 15 * 60)),
                    "Login exitoso", 200);
  }

  /** The row `WHERE rt.token_hash = ?` returns first; the join with `users`
      drops a token whose owner row is missing. */
  function FindToken(tokens: seq<RefreshToken>, users: seq<User>, h: string): (r: Option<nat>)
    ensures r.Some? ==> r.value < |tokens| && tokens[r.value].tokenHash == h
                        && 1 <= tokens[r.value].userId <= |users|
    ensures r.Some? ==> forall k :: 0 <= k < r.value ==> !(tokens[k].tokenHash == h && 1 <= tokens[k].userId <= |users|)
    ensures r.None? ==> forall k :: 0 <= k < |tokens| ==> !(tokens[k].tokenHash == h && 1 <= tokens[k].userId <= |users|)
  {
    if tokens == [] then None
    else if tokens[0].tokenHash == h && 1 <= tokens[0].userId <= |users| then Some(0)
    else
      var r := FindToken(tokens[1..], users, h);
      if r.Some? then Some(r.value + 1) else None
  }

  /** How the guard chain of `refresh` ends. */
  datatype RefreshResult = Rejected(message: string) | Rotate(index: nat)

  function RefreshOutcome(s: AccountState, token: Option<string>, hash: string -> string, now: int): (o: RefreshResult)
    ensures o.Rotate? ==> o.index < |s.refreshTokens|
                          && var rt := s.refreshTokens[o.index];
                             TruthyString(token) && rt.tokenHash == hash(token.value)
                             && !rt.revoked && rt.expiresAt >= now
                             && 1 <= rt.userId <= |s.users|
                             && s.users[rt.userId - 1].activo && s.users[rt.userId - 1].deletedAt.None?
    ensures !TruthyString(token) ==> o == Rejected(NO_REFRESH_TOKEN)
  {
    if !TruthyString(token) then Rejected(NO_REFRESH_TOKEN)
    else match FindToken(s.refreshTokens, s.users, hash(token.value))
      case None => Rejected(UNKNOWN_REFRESH_TOKEN)
      case Some(i) =>
        var rt := s.refreshTokens[i];
        var owner := s.users[rt.userId - 1];
        if rt.revoked then Rejected(REVOKED_REFRESH_TOKEN)
        else if rt.expiresAt < now then Rejected(EXPIRED_REFRESH_TOKEN)
        else if !owner.activo || owner.deletedAt.Some? then Rejected(INACTIVE_ACCOUNT)
        else Rotate(i)
  }

  /** A token is still valid at the very instant it expires. */
  lemma ValidAtExpiry(s: AccountState, token: string, hash: string -> string, i: nat)
    requires token != "" && FindToken(s.refreshTokens, s.users, hash(token)) == Some(i)
    requires !s.refreshTokens[i].revoked
    requires s.users[s.refreshTokens[i].userId - 1].activo
    requires s.users[s.refreshTokens[i].userId - 1].deletedAt.None?
    ensures RefreshOutcome(s, Some(token), hash, s.refreshTokens[i].expiresAt) == Rotate(i)
    ensures RefreshOutcome(s, Some(token), hash, s.refreshTokens[i].expiresAt + 1) == Rejected(EXPIRED_REFRESH_TOKEN)
  {
  }

  /** The tables after a rotation: the presented row revoked and the new
      token's row appended. */
  function Rotated(s: AccountState, i: nat, newHash: string, expiresAt: int, ip: Option<string>, now: int): (t: AccountState)
    requires i < |s.refreshTokens|
    ensures |t.refreshTokens| == |s.refreshTokens| + 1
    ensures t.refreshTokens[i].revoked && t.refreshTokens[i].tokenHash == s.refreshTokens[i].tokenHash
    ensures forall k :: 0 <= k < |s.refreshTokens| && k != i ==> t.refreshTokens[k] == s.refreshTokens[k]
    ensures t.refreshTokens[|s.refreshTokens|].tokenHash == newHash && !t.refreshTokens[|s.refreshTokens|].revoked
    ensures t.refreshTokens[|s.refreshTokens|].userId == s.refreshTokens[i].userId
    ensures t == s.(refreshTokens := t.refreshTokens)
  {
    var rt := s.refreshTokens[i];
    s.(refreshTokens := s.refreshTokens[i := rt.(revoked := true, revokedAt := Some(Second(now)))]
                        + [RefreshToken(rt.userId, newHash, expiresAt, false, None, ip, None)])
  }

  /** Rotation on use: once a token has been exchanged, presenting it again
      is refused as revoked, whatever the time. */
  lemma RefreshAtMostOnce(s: AccountState, token: Option<string>, hash: string -> string, now: int,
                          newToken: string, expiresAt: int, ip: Option<string>, later: int)
    requires RefreshOutcome(s, token, hash, now).Rotate?
    ensures var i := RefreshOutcome(s, token, hash, now).index;
            RefreshOutcome(Rotated(s, i, hash(newToken), expiresAt, ip, now), token, hash, later)
              == Rejected(REVOKED_REFRESH_TOKEN)
  {
    var i := RefreshOutcome(s, token, hash, now).index;
    var t := Rotated(s, i, hash(newToken), expiresAt, ip, now);
    var h := hash(token.value);
    var j := FindToken(t.refreshTokens, t.users, h);
    assert t.users == s.users;
    assert j.Some? && j.value <= i by {
      assert t.refreshTokens[i].tokenHash == h && 1 <= t.refreshTokens[i].userId <= |t.users|;
    }
  }

  /** The `data` of a successful refresh. */
  datatype RefreshData = RefreshData(id: int, username: string, roles: seq<string>,
                                     refreshToken: string, expiresIn: int)

  /** `refresh(req, res)`: the guard chain, then revoke-and-insert in one
      transaction. */
  method Refresh(db: Accounts, token: Option<string>, hash: string -> string, clock: Clock,
                 ip: Option<string>, newToken: string, expiresAt: int)
    returns (resp: Response<RefreshData>)
    modifies db
    ensures var s := old(db.State());
            var o := RefreshOutcome(s, token, hash, clock.now);
            && (o.Rejected? ==> resp == Unauthorized(o.message) && db.State() == s)
            && (o.Rotate? ==>
                  var uid := s.refreshTokens[o.index].userId;
                  && resp == Success(Some(RefreshData(uid, s.users[uid - 1].username,
                                                      AuthMiddleware.RoleList(GroupConcat(RoleNames(s.roles, s.userRoles, uid))),
                                                      newToken, 15 * 60)), "Token refrescado", 200)
                  && db.State() == Rotated(s, o.index, hash(newToken), expiresAt, ip, clock.now))
  {
    if !TruthyString(token) {
      return Unauthorized(NO_REFRESH_TOKEN);
    }
    var found := FindToken(db.refreshTokens, db.users, hash(token.value));
    if found.None? {
      return Unauthorized(UNKNOWN_REFRESH_TOKEN);
    }
    var i := found.value;
    var rt := db.refreshTokens[i];
    var owner := db.users[rt.userId - 1];
    if rt.revoked {
      return Unauthorized(REVOKED_REFRESH_TOKEN);
    }
    if rt.expiresAt < clock.now {
      return Unauthorized(EXPIRED_REFRESH_TOKEN);
    }
    if !owner.activo || owner.deletedAt.Some? {
      return Unauthorized(INACTIVE_ACCOUNT);
    }
    var roles := AuthMiddleware.RoleList(GroupConcat(RoleNames(db.roles, db.userRoles, rt.userId)));
    var newHash := hash(newToken);
    db.refreshTokens := db.refreshTokens[i := rt.(revoked := true, revokedAt := Some(Second(clock.now)))];
    db.refreshTokens := db.refreshTokens + [RefreshToken(rt.userId, newHash, expiresAt, false, None, ip, None)];
    resp := Success(Some(RefreshData(rt.userId, owner.username, roles, newToken, 15 * 60)), "Token refrescado", 200);
  }

  /** `UPDATE refresh_tokens SET revoked = 1, revoked_at = NOW() WHERE token_hash = ?`. */
  function RevokeHash(tokens: seq<RefreshToken>, h: string, now: int): (r: seq<RefreshToken>)
    ensures |r| == |tokens|
    ensures forall k :: 0 <= k < |r| && tokens[k].tokenHash == h
                        ==> r[k] == tokens[k].(revoked := true, revokedAt := Some(Second(now)))
    ensures forall k :: 0 <= k < |r| && tokens[k].tokenHash != h ==> r[k] == tokens[k]
  {
    seq(|tokens|, k requires 0 <= k < |tokens| =>
          if tokens[k].tokenHash == h then tokens[k].(revoked := true, revokedAt := Some(Second(now)))
          else tokens[k])
  }

  /** `logout(req, res)`: always a success; a given token's rows are revoked. */
  method Logout(db: Accounts, token: Option<string>, hash: string -> string, clock: Clock)
    returns (resp: Response<()>)
    modifies db
    ensures resp == Success(None, "Sesión cerrada correctamente", 200)
    ensures TruthyString(token)
            ==> db.State() == old(db.State()).(refreshTokens := RevokeHash(old(db.refreshTokens), hash(token.value), clock.now))
    ensures !TruthyString(token) ==> db.State() == old(db.State())
  {
    if TruthyString(token) {
      db.refreshTokens := RevokeHash(db.refreshTokens, hash(token.value), clock.now);
    }
    resp := Success(None, "Sesión cerrada correctamente", 200);
  }

  /** After logout the token can no longer be exchanged. */
  lemma LogoutBlocksRefresh(s: AccountState, token: string, hash: string -> string, now: int, later: int)
    requires token != ""
    ensures RefreshOutcome(s.(refreshTokens := RevokeHash(s.refreshTokens, hash(token), now)),
                           Some(token), hash, later).Rejected?
  {
  }

  /** An unknown token's logout changes no row. */
  lemma LogoutUnknownTokenNoChange(tokens: seq<RefreshToken>, h: string, now: int)
    requires forall k :: 0 <= k < |tokens| ==> tokens[k].tokenHash != h
    ensures RevokeHash(tokens, h, now) == tokens
  {
  }
}
