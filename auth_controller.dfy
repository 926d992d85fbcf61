/**
 * `AuthController` of auth-service/src/auth/auth.controller.ts: register,
 * login and refresh hand their body to the service unchanged; validate
 * takes the token out of an `Authorization: Bearer <token>` header.
 */
module AuthController {
  import opened Wrappers
  import opened Text
  import opened AuthModel
  import Auth

  /** The body of `POST /auth/refresh`. */
  datatype RefreshDto = RefreshDto(refreshToken: string)

  const BearerPrefix := "Bearer "
  const InvalidHeader := Unauthorized("Token is invalid")

  /**
   * A missing or empty header, or one that does not start with the exact,
   * case-sensitive `"Bearer "`, is refused; otherwise the token is
   * `auth.split(' ')[1]`: the text after the prefix up to the next space.
   */
  function BearerToken(auth: Option<string>): (r: Result<string, AuthError>)
    ensures r.Ok? <==> auth.Some? && StartsWith(auth.value, BearerPrefix)
    ensures r.Err? ==> r.error == InvalidHeader
    ensures r.Ok? ==> StartsWith(auth.value, BearerPrefix + r.value) && ' ' !in r.value
    ensures r.Ok? ==> |auth.value| == |BearerPrefix| + |r.value| || auth.value[|BearerPrefix| + |r.value|] == ' '
  {
    if auth.None? || auth.value == "" || !StartsWith(auth.value, BearerPrefix) then Err(InvalidHeader)
    else
      var header := auth.value;
      var rest := header[|BearerPrefix|..];
      assert header == "Bearer" + [' '] + rest;
      SplitAfterPrefix("Bearer", ' ', rest);
      Ok(Split(header, ' ')[1])
  }

  /** A header of the prefix and a space-free token yields exactly that token. */
  lemma BearerExact(token: string)
    requires ' ' !in token
    ensures BearerToken(Some(BearerPrefix + token)) == Ok(token)
  {
    assert BearerPrefix + token == "Bearer" + [' '] + token;
    SplitAfterPrefix("Bearer", ' ', token);
  }

  /** With more spaces, the token is the piece between the first and the second: `"Bearer a b"` gives `"a"`. */
  lemma BearerFirstPiece(a: string, b: string)
    requires ' ' !in a
    ensures BearerToken(Some(BearerPrefix + a + " " + b)) == Ok(a)
  {
    assert BearerPrefix + a + " " + b == "Bearer" + [' '] + (a + [' '] + b);
    SplitAfterPrefix("Bearer", ' ', a + [' '] + b);
    SplitAfterPrefix(a, ' ', b);
  }

  /** The scheme is matched case-sensitively, and a missing or empty header is refused. */
  lemma BearerRefusals(token: string)
    ensures BearerToken(Some("bearer " + token)) == Err(InvalidHeader)
    ensures BearerToken(None) == Err(InvalidHeader)
    ensures BearerToken(Some("")) == Err(InvalidHeader)
  {
    assert ("bearer " + token)[0] == 'b';
  }

  /** `POST /auth/register`. */
  method Register(service: Auth.AuthService, dto: Credentials, salt: Salt, now: int) returns (r: Result<TokenPair, AuthError>)
    requires service.Valid()
    modifies service
    ensures service.Valid()
    ensures (r, service.State()) == AuthModel.Register(service.env, old(service.State()), dto, salt, now)
  {
    r := service.Register(dto, salt, now);
  }

  /** `POST /auth/login`. */
  method Login(service: Auth.AuthService, dto: Credentials, now: int) returns (r: Result<TokenPair, AuthError>)
    requires service.Valid()
    modifies service
    ensures service.Valid()
    ensures (r, service.State()) == AuthModel.Login(service.env, old(service.State()), dto, now)
  {
    r := service.Login(dto, now);
  }

  /** `POST /auth/refresh`: only `dto.refresh_token` is passed on. */
  method Refresh(service: Auth.AuthService, dto: RefreshDto, now: int) returns (r: Result<TokenPair, AuthError>)
    requires service.Valid()
    modifies service
    ensures service.Valid()
    ensures (r, service.State()) == AuthModel.Refresh(service.env, old(service.State()), dto.refreshToken, now)
  {
    r := service.RefreshTokens(dto.refreshToken, now);
  }

  /**
   * `GET /auth/validate`: a refused header answers 401 without consulting
   * the service; otherwise the service validates the extracted token.
   */
  method Validate(service: Auth.AuthService, auth: Option<string>, now: int) returns (r: Result<Validation, AuthError>)
    requires service.Valid()
    ensures BearerToken(auth).Err? ==> r == Err(InvalidHeader)
    ensures BearerToken(auth).Ok? ==> r == AuthModel.ValidateToken(service.env, service.State(), BearerToken(auth).value, now)
  {
    if auth.None? || auth.value == "" || !StartsWith(auth.value, BearerPrefix) {
      return Err(InvalidHeader);
    }
    assert auth.value == "Bearer" + [' '] + auth.value[|BearerPrefix|..];
    SplitAfterPrefix("Bearer", ' ', auth.value[|BearerPrefix|..]);
    var token := Split(auth.value, ' ')[1];
    r := service.ValidateToken(token, now);
  }
}
