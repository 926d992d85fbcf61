/**
 * `AuthService` of auth-service/src/auth/auth.service.ts as an object whose
 * tables are updated in place, step by step as the source does it. Every
 * method is proved to leave the tables exactly as the corresponding function
 * of `AuthModel` says, and to return the same outcome.
 */
module Auth {
  import opened Wrappers
  import opened Tables
  import opened AuthModel
  import AuthProperties
  import Expiry

  class AuthService {
    /** The injected JWT service, bcrypt and configuration. */
    const env: Env
    /** The users table behind `UsersService`. */
    var users: seq<User>
    /** The id the users table will assign next. */
    var nextUserId: UserId
    /** The refresh-token repository. */
    var refreshTokens: seq<RefreshRow>

    ghost predicate Valid()
      reads this
    {
      ConfigValid(env.config) && StoreValid(State())
    }

    function State(): Store
      reads this
    {
      Store(users, nextUserId, refreshTokens)
    }

    constructor(env: Env)
      requires ConfigValid(env.config)
      ensures Valid() && this.env == env
      ensures State() == Store([], 1, [])
    {
      this.env := env;
      users, nextUserId, refreshTokens := [], 1, [];
    }

    /** `usersService.create(email, hash)`: the unique email column refuses a duplicate. */
    method CreateUser(email: string, passwordHash: string) returns (created: Option<User>)
      requires Valid()
      modifies this
      ensures Valid() && refreshTokens == old(refreshTokens)
      ensures FindByEmail(old(users), email).Some? ==>
        created.None? && users == old(users) && nextUserId == old(nextUserId)
      ensures FindByEmail(old(users), email).None? ==>
        && created == Some(User(old(nextUserId), email, passwordHash))
        && users == old(users) + [created.value]
        && nextUserId == old(nextUserId) + 1
    {
      if FindByEmail(users, email).Some? {
        return None;
      }
      var user := User(nextUserId, email, passwordHash);
      users := users + [user];
      nextUserId := nextUserId + 1;
      created := Some(user);
    }

    /** `saveRefreshToken(userId, token)`: store one row that expires one refresh lifetime from now. */
    method SaveRefreshToken(userId: UserId, token: string, now: int)
      requires Valid()
      modifies this`refreshTokens
      ensures Valid()
      ensures refreshTokens == old(refreshTokens) + [IssuedRow(env, userId, token, now)]
    {
      var expiresInMs := Expiry.ParseExpiry(env.config.refreshExpires).value;
      var row := RefreshRow(token, userId, now + expiresInMs);
      refreshTokens := refreshTokens + [row];
    }

    /** `refreshTokenRepository.remove(storedToken)`. */
    method RemoveRefreshToken(i: nat)
      requires Valid() && i < |refreshTokens|
      modifies this`refreshTokens
      ensures Valid()
      ensures refreshTokens == RemoveAt(old(refreshTokens), i)
    {
      refreshTokens := refreshTokens[..i] + refreshTokens[i + 1..];
    }

    method Register(dto: Credentials, salt: Salt, now: int) returns (r: Result<TokenPair, AuthError>)
      requires Valid()
      modifies this
      ensures Valid()
      ensures (r, State()) == AuthModel.Register(env, old(State()), dto, salt, now)
    {
      AuthProperties.RegisterPreservesValid(env, State(), dto, salt, now);
      var passwordHash := env.bcrypt.hash(dto.password, salt);
      var created := CreateUser(dto.email, passwordHash);
      if created.None? {
        return Err(Conflict);
      }
      var user := created.value;
      var tokens := GenerateTokens(env, user.id, user.email, now);
      SaveRefreshToken(user.id, tokens.refreshToken, now);
      r := Ok(tokens);
    }

    method Login(dto: Credentials, now: int) returns (r: Result<TokenPair, AuthError>)
      requires Valid()
      modifies this
      ensures Valid()
      ensures (r, State()) == AuthModel.Login(env, old(State()), dto, now)
    {
      var found := FindByEmail(users, dto.email);
      if found.None? {
        return Err(WrongCredentials);
      }
      var user := found.value;
      var isPasswordValid := env.bcrypt.compare(dto.password, user.passwordHash);
      if !isPasswordValid {
        return Err(WrongCredentials);
      }
      var tokens := GenerateTokens(env, user.id, user.email, now);
      SaveRefreshToken(user.id, tokens.refreshToken, now);
      r := Ok(tokens);
    }

    method RefreshTokens(refreshToken: string, now: int) returns (r: Result<TokenPair, AuthError>)
      requires Valid()
      modifies this
      ensures Valid()
      ensures (r, State()) == AuthModel.Refresh(env, old(State()), refreshToken, now)
    {
      var payload := Verify(env.jwt, refreshToken, now);
      if payload.None? {
        return Err(InvalidRefresh);
      }
      var stored := IndexWhere(refreshTokens, Matches(refreshToken, payload.value.sub));
      if stored.None? {
        return Err(InvalidRefresh);
      }
      if now > refreshTokens[stored.value].expiresAt {
        RemoveRefreshToken(stored.value);
        return Err(InvalidRefresh);
      }
      RemoveRefreshToken(stored.value);
      var user := FindById(users, payload.value.sub);
      if user.None? {
        return Err(InvalidRefresh);
      }
      var tokens := GenerateTokens(env, user.value.id, user.value.email, now);
      SaveRefreshToken(user.value.id, tokens.refreshToken, now);
      r := Ok(tokens);
    }

    method ValidateToken(token: string, now: int) returns (r: Result<Validation, AuthError>)
      requires Valid()
      ensures r == AuthModel.ValidateToken(env, State(), token, now)
      ensures r.Ok? ==> r.value.valid && exists user :: (
        user in users && user.id == r.value.userId && user.email == r.value.email)
      ensures r.Ok? ==> Verify(env.jwt, token, now).Some? && r.value.userId == Verify(env.jwt, token, now).value.sub
    {
      var payload := Verify(env.jwt, token, now);
      if payload.None? {
        return Err(InvalidAccess);
      }
      var user := FindById(users, payload.value.sub);
      if user.None? {
        return Err(InvalidAccess);
      }
      r := Ok(Validation(true, user.value.id, user.value.email));
    }
  }
}
