/**
 * The two services together: the posts service's guard calls the auth
 * service's `GET /auth/validate` with the header it received. Here that
 * remote call is the auth controller's `validate` over a store, its 401
 * becoming an error response.
 */
module Deployment {
  import opened Wrappers
  import opened Text
  import opened AuthModel
  import AuthController
  import AuthGuard
  import AuthProperties

  /** The validate endpoint of an auth service whose store is `s`, as seen over HTTP at `now`. */
  function ValidateEndpoint(env: Env, s: Store, now: int): (endpoint: string -> AuthGuard.RemoteOutcome)
    ensures forall h :: endpoint(h).Response? || endpoint(h) == AuthGuard.ErrorResponse(401)
    ensures forall h :: endpoint(h).Response? <==>
      AuthController.BearerToken(Some(h)).Ok? && ValidateToken(env, s, AuthController.BearerToken(Some(h)).value, now).Ok?
  {
    (header: string) =>
      match AuthController.BearerToken(Some(header))
      case Err(_) => AuthGuard.ErrorResponse(401)
      case Ok(token) =>
        match ValidateToken(env, s, token, now)
        case Err(_) => AuthGuard.ErrorResponse(401)
        case Ok(v) => AuthGuard.Response(AuthGuard.UserInfo(v.valid, v.userId, v.email))
  }

  /**
   * The guard admits a request exactly when its header is a bearer header
   * whose token validates, and then attaches the current record of that
   * token's user; every other request is refused.
   */
  lemma GuardAdmitsValidatedUsers(env: Env, s: Store, authorization: Option<string>, now: int)
    ensures var r := AuthGuard.Activate(authorization, ValidateEndpoint(env, s, now));
      r.Ok? <==>
        && authorization.Some? && StartsWith(authorization.value, "Bearer ")
        && ValidateToken(env, s, AuthController.BearerToken(authorization).value, now).Ok?
    ensures var r := AuthGuard.Activate(authorization, ValidateEndpoint(env, s, now));
      r.Ok? ==> r.value.valid && exists u :: u in s.users && u.id == r.value.userId && u.email == r.value.email
    ensures var r := AuthGuard.Activate(authorization, ValidateEndpoint(env, s, now));
      r.Ok? ==>
        var claims := Verify(env.jwt, AuthController.BearerToken(authorization).value, now);
        && claims.Some? && r.value.userId == claims.value.sub
        && FindById(s.users, claims.value.sub).Some?
        && r.value.email == FindById(s.users, claims.value.sub).value.email
    ensures var r := AuthGuard.Activate(authorization, ValidateEndpoint(env, s, now));
      r.Err? && authorization.Some? && StartsWith(authorization.value, "Bearer ") ==> r.error == AuthGuard.InvalidToken
  {
    if authorization.Some? && StartsWith(authorization.value, "Bearer ") {
      var header := authorization.value;
      assert AuthController.BearerToken(Some(header)) == AuthController.BearerToken(authorization);
      match ValidateToken(env, s, AuthController.BearerToken(authorization).value, now)
      case Err(_) =>
      case Ok(v) =>
        var u :| u in s.users && u.id == v.userId && u.email == v.email;
    }
  }

  /** A freshly registered user is admitted by the guard with the access token from the registration. */
  lemma RegisteredUserAdmitted(env: Env, s: Store, dto: Credentials, salt: Salt, now: int)
    requires ConfigValid(env.config) && Sound(env) && StoreValid(s)
    requires Register(env, s, dto, salt, now).0.Ok?
    requires ' ' !in Register(env, s, dto, salt, now).0.value.accessToken
    ensures var out := Register(env, s, dto, salt, now);
      AuthGuard.Activate(Some("Bearer " + out.0.value.accessToken), ValidateEndpoint(env, out.1, now))
        == Ok(AuthGuard.UserInfo(true, s.nextUserId, dto.email))
  {
    var out := Register(env, s, dto, salt, now);
    AuthController.BearerExact(out.0.value.accessToken);
    AuthProperties.RegisterThenValidate(env, s, dto, salt, now);
    assert StartsWith("Bearer " + out.0.value.accessToken, "Bearer ");
  }
}
