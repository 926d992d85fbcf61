/**
 * The refresh-token allowlist of the auth service
 * (auth-service/src/auth/auth.service.ts) as functions over a value of its
 * store: the users table, the next id the table will hand out, and the
 * refresh-token rows `(token, user_id, expires_at)`. Each operation maps the
 * store before the request, the request and the clock reading `now` (in
 * milliseconds) to its outcome and the store after the request. The class
 * `Auth.AuthService` performs the same steps in place and is proved equal
 * to these functions.
 *
 * JSON Web Token signing and verification (RFC 7519) and bcrypt are not
 * interpreted: the service is given them as function values in `Env`.
 */
module AuthModel {
  import opened Wrappers
  import opened Tables
  import Expiry

  type UserId = nat

  /** The random salt bcrypt draws for each hash. */
  type Salt = nat

  datatype User = User(id: UserId, email: string, passwordHash: string)

  datatype RefreshRow = RefreshRow(token: string, userId: UserId, expiresAt: int)

  /** The payload of both tokens: `{ sub: userId, email }`. */
  datatype Claims = Claims(sub: UserId, email: string)

  datatype TokenPair = TokenPair(accessToken: string, refreshToken: string)

  /** The body of a register or login request, once validated. */
  datatype Credentials = Credentials(email: string, password: string)

  /** What `validateToken` returns: `{ valid, userId, email }`. */
  datatype Validation = Validation(valid: bool, userId: UserId, email: string)

  datatype AuthError = Conflict | Unauthorized(message: string)

  const WrongCredentials := Unauthorized("Wrong email or password")
  const InvalidRefresh := Unauthorized("Unvalid token")
  const InvalidAccess := Unauthorized("Невалидный токен")

  /**
   * The JWT library under the process-wide secret. `sign(claims, expiresIn, now)`
   * issues a token; `decode` checks its signature and format and yields the
   * claims; `live(token, now)` says the token has not yet expired at `now`.
   */
  datatype Jwt = Jwt(
    sign: (Claims, string, int) -> string,
    decode: string -> Option<Claims>,
    live: (string, int) -> bool)

  /** bcrypt: a salted one-way hash and the comparison of a password against a hash. */
  datatype Bcrypt = Bcrypt(hash: (string, Salt) -> string, compare: (string, string) -> bool)

  /** `JWT_ACCESS_EXPIRES` and `JWT_REFRESH_EXPIRES`. */
  datatype Config = Config(accessExpires: string, refreshExpires: string)

  datatype Env = Env(jwt: Jwt, bcrypt: Bcrypt, config: Config)

  /** The refresh lifetime must parse to a number, or no row could be given an expiry. */
  predicate ConfigValid(config: Config)
  {
    Expiry.ParseExpiry(config.refreshExpires).Some?
  }

  /**
   * What the properties below assume of the libraries: a signed token decodes
   * to the claims it was signed with, a fresh access or refresh token is live
   * at the instant it is issued, and a password matches its own hash.
   */
  ghost predicate Sound(env: Env)
  {
    && (forall c, ttl, t :: env.jwt.decode(env.jwt.sign(c, ttl, t)) == Some(c))
    && (forall c, t :: env.jwt.live(env.jwt.sign(c, env.config.accessExpires, t), t))
    && (forall c, t :: env.jwt.live(env.jwt.sign(c, env.config.refreshExpires, t), t))
    && (forall p, salt :: env.bcrypt.compare(p, env.bcrypt.hash(p, salt)))
  }

  /** `jwtService.verify(token, { secret })`: the claims of a live, well-signed token. */
  function Verify(jwt: Jwt, token: string, now: int): (r: Option<Claims>)
    ensures r.Some? ==> jwt.live(token, now) && jwt.decode(token) == r
  {
    if jwt.live(token, now) then jwt.decode(token) else None
  }

  datatype Store = Store(users: seq<User>, nextUserId: UserId, rows: seq<RefreshRow>)

  /** Ids and emails are unique (the `unique` column), and every id is below the next one. */
  ghost predicate StoreValid(s: Store)
  {
    && (forall i, j :: 0 <= i < j < |s.users| ==> s.users[i].id != s.users[j].id)
    && (forall i, j :: 0 <= i < j < |s.users| ==> s.users[i].email != s.users[j].email)
    && (forall i :: 0 <= i < |s.users| ==> s.users[i].id < s.nextUserId)
  }

  /** `usersService.findByEmail(email)`. */
  function FindByEmail(users: seq<User>, email: string): (r: Option<User>)
    ensures r.Some? ==> r.value in users && r.value.email == email
    ensures r.None? <==> forall i :: 0 <= i < |users| ==> users[i].email != email
  {
    match IndexWhere(users, (u: User) => u.email == email)
    case None => None
    case Some(i) => Some(users[i])
  }

  /** `usersService.findById(id)`. */
  function FindById(users: seq<User>, id: UserId): (r: Option<User>)
    ensures r.Some? ==> r.value in users && r.value.id == id
    ensures r.None? <==> forall i :: 0 <= i < |users| ==> users[i].id != id
  {
    match IndexWhere(users, (u: User) => u.id == id)
    case None => None
    case Some(i) => Some(users[i])
  }

  /** The `where: { token, user_id }` filter of the refresh lookup. */
  function Matches(token: string, sub: UserId): RefreshRow -> bool
  {
    (row: RefreshRow) => row.token == token && row.userId == sub
  }

  /**
   * `generateTokens(userId, email)`: the same claims signed with each lifetime.
   * With sound libraries both tokens verify, at the instant they are issued,
   * to exactly the claims `{ sub: userId, email }`.
   */
  function GenerateTokens(env: Env, userId: UserId, email: string, now: int): (pair: TokenPair)
    ensures pair.accessToken == env.jwt.sign(Claims(userId, email), env.config.accessExpires, now)
    ensures pair.refreshToken == env.jwt.sign(Claims(userId, email), env.config.refreshExpires, now)
    ensures Sound(env) ==> Verify(env.jwt, pair.accessToken, now) == Some(Claims(userId, email))
    ensures Sound(env) ==> Verify(env.jwt, pair.refreshToken, now) == Some(Claims(userId, email))
  {
    var payload := Claims(userId, email);
    TokenPair(env.jwt.sign(payload, env.config.accessExpires, now), env.jwt.sign(payload, env.config.refreshExpires, now))
  }

  /** The lifetime of a refresh row, in milliseconds. */
  function RefreshTtl(config: Config): int
    requires ConfigValid(config)
  {
    Expiry.ParseExpiry(config.refreshExpires).value
  }

  /** The row `saveRefreshToken(userId, token)` stores at `now`. */
  function IssuedRow(env: Env, userId: UserId, token: string, now: int): (row: RefreshRow)
    requires ConfigValid(env.config)
    ensures row.token == token && row.userId == userId
    ensures row.expiresAt == now + Expiry.ParseExpiry(env.config.refreshExpires).value
  {
    RefreshRow(token, userId, now + RefreshTtl(env.config))
  }

  /** Issue a token pair for `user` and save its refresh token: the tail of register, login and refresh. */
  function Issue(env: Env, s: Store, user: User, now: int): (out: (Result<TokenPair, AuthError>, Store))
    requires ConfigValid(env.config)
    ensures out.0.Ok?
    ensures out.0.value == GenerateTokens(env, user.id, user.email, now)
    ensures out.1 == s.(rows := s.rows + [IssuedRow(env, user.id, out.0.value.refreshToken, now)])
  {
    var tokens := GenerateTokens(env, user.id, user.email, now);
    (Ok(tokens), s.(rows := s.rows + [IssuedRow(env, user.id, tokens.refreshToken, now)]))
  }

  /**
   * `register(dto)`: a taken email is refused by the unique column; otherwise
   * a user with the next id and the hashed password is created and tokens
   * are issued for it.
   */
  function Register(env: Env, s: Store, dto: Credentials, salt: Salt, now: int): (out: (Result<TokenPair, AuthError>, Store))
    requires ConfigValid(env.config)
    ensures out.0.Err? <==> exists i :: 0 <= i < |s.users| && s.users[i].email == dto.email
    ensures out.0.Err? ==> out == (Err(Conflict), s)
    ensures out.0.Ok? ==>
      var user := User(s.nextUserId, dto.email, env.bcrypt.hash(dto.password, salt));
      && out.0.value == GenerateTokens(env, user.id, user.email, now)
      && out.1.users == s.users + [user]
      && out.1.nextUserId == s.nextUserId + 1
      && out.1.rows == s.rows + [RefreshRow(out.0.value.refreshToken, user.id, now + RefreshTtl(env.config))]
  {
    match FindByEmail(s.users, dto.email)
    case Some(_) => (Err(Conflict), s)
    case None =>
      var user := User(s.nextUserId, dto.email, env.bcrypt.hash(dto.password, salt));
      Issue(env, s.(users := s.users + [user], nextUserId := s.nextUserId + 1), user, now)
  }

  /**
   * `login(dto)`: an unknown email and a wrong password fail alike;
   * otherwise tokens are issued for the user found.
   */
  function Login(env: Env, s: Store, dto: Credentials, now: int): (out: (Result<TokenPair, AuthError>, Store))
    requires ConfigValid(env.config)
    ensures out.0.Err? ==> out == (Err(WrongCredentials), s)
    ensures out.0.Ok? ==>
      && FindByEmail(s.users, dto.email).Some?
      && var user := FindByEmail(s.users, dto.email).value;
      && env.bcrypt.compare(dto.password, user.passwordHash)
      && out.0.value == GenerateTokens(env, user.id, user.email, now)
      && out.1 == s.(rows := s.rows + [RefreshRow(out.0.value.refreshToken, user.id, now + RefreshTtl(env.config))])
  {
    match FindByEmail(s.users, dto.email)
    case None => (Err(WrongCredentials), s)
    case Some(user) =>
      if !env.bcrypt.compare(dto.password, user.passwordHash) then (Err(WrongCredentials), s)
      else Issue(env, s, user, now)
  }

  /**
   * `refreshTokens(refreshToken)`: verify, find the row for `(token, sub)`,
   * purge it if expired, otherwise consume it, find the user and issue a new
   * pair. Every failure is the one `Unvalid token` error.
   */
  function Refresh(env: Env, s: Store, token: string, now: int): (out: (Result<TokenPair, AuthError>, Store))
    requires ConfigValid(env.config)
    ensures out.0.Err? ==> out.0.error == InvalidRefresh
    ensures out.1.users == s.users && out.1.nextUserId == s.nextUserId
    ensures |s.rows| - 1 <= |out.1.rows| <= |s.rows|
  {
    match Verify(env.jwt, token, now)
    case None => (Err(InvalidRefresh), s)
    case Some(payload) =>
      match IndexWhere(s.rows, Matches(token, payload.sub))
      case None => (Err(InvalidRefresh), s)
      case Some(i) =>
        var consumed := s.(rows := RemoveAt(s.rows, i));
        if now > s.rows[i].expiresAt then (Err(InvalidRefresh), consumed)
        else match FindById(s.users, payload.sub)
          case None => (Err(InvalidRefresh), consumed)
          case Some(user) => Issue(env, consumed, user, now)
  }

  /**
   * `validateToken(token)`: the claims of a live token must name a user that
   * still exists; the answer is taken from that user's record.
   */
  function ValidateToken(env: Env, s: Store, token: string, now: int): (r: Result<Validation, AuthError>)
    ensures r.Err? ==> r.error == InvalidAccess
    ensures r.Ok? ==> r.value.valid && exists user :: (
      user in s.users && user.id == r.value.userId && user.email == r.value.email)
    ensures r.Ok? ==>
      && Verify(env.jwt, token, now).Some?
      && r.value.userId == Verify(env.jwt, token, now).value.sub
      && FindById(s.users, r.value.userId).Some?
      && r.value.email == FindById(s.users, r.value.userId).value.email
  {
    match Verify(env.jwt, token, now)
    case None => Err(InvalidAccess)
    case Some(payload) =>
      match FindById(s.users, payload.sub)
      case None => Err(InvalidAccess)
      case Some(user) => Ok(Validation(true, user.id, user.email))
  }
}
