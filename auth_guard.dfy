/**
 * `AuthGuard` of todo-service/src/guards/auth-guard.ts. The header is
 * checked locally; only a header that passes is sent to the auth service's
 * validate endpoint. That HTTP round trip is a function parameter `remote`
 * from the forwarded header to its outcome.
 */
module AuthGuard {
  import opened Wrappers
  import opened Text

  /** The JSON body the validate endpoint answers with. */
  datatype UserInfo = UserInfo(valid: bool, userId: int, email: string)

  /** How the HTTP call ended: a 2xx response, an error response with its status, or no response at all. */
  datatype RemoteOutcome = Response(data: UserInfo) | ErrorResponse(status: int) | NoResponse

  datatype GuardError = Unauthorized(message: string)

  const TokenMissing := Unauthorized("Token is missing")
  const InvalidFormat := Unauthorized("Invalid token format")
  const InvalidToken := Unauthorized("Invalid token")
  const ValidationFailed := Unauthorized("Token validation failed")

  /** The local checks: present, non-empty, and starting with the exact `"Bearer "`. Yields the header to forward. */
  function CheckHeader(authorization: Option<string>): (r: Result<string, GuardError>)
    ensures r.Ok? <==> authorization.Some? && StartsWith(authorization.value, "Bearer ")
    ensures r.Ok? ==> r.value == authorization.value
    ensures authorization.None? || authorization == Some("") ==> r == Err(TokenMissing)
    ensures authorization.Some? && authorization.value != "" && !StartsWith(authorization.value, "Bearer ") ==> r == Err(InvalidFormat)
  {
    if authorization.None? || authorization.value == "" then Err(TokenMissing)
    else if !StartsWith(authorization.value, "Bearer ") then Err(InvalidFormat)
    else Ok(authorization.value)
  }

  /** The catch block: an upstream 401 is an invalid token, anything else a failed validation. */
  function MapOutcome(outcome: RemoteOutcome): (r: Result<UserInfo, GuardError>)
    ensures r.Ok? <==> outcome.Response?
    ensures r.Ok? ==> r.value == outcome.data
    ensures r.Err? ==> r.error == (if outcome == ErrorResponse(401) then InvalidToken else ValidationFailed)
  {
    match outcome
    case Response(data) => Ok(data)
    case ErrorResponse(status) => if status == 401 then Err(InvalidToken) else Err(ValidationFailed)
    case NoResponse => Err(ValidationFailed)
  }

  /** `canActivate` as a function: the identity the request is admitted with, or why it is refused. */
  function Activate(authorization: Option<string>, remote: string -> RemoteOutcome): (r: Result<UserInfo, GuardError>)
    ensures r.Ok? <==> authorization.Some? && StartsWith(authorization.value, "Bearer ") && remote(authorization.value).Response?
    ensures r.Ok? ==> r.value == remote(authorization.value).data
  {
    match CheckHeader(authorization)
    case Err(e) => Err(e)
    case Ok(header) => MapOutcome(remote(header))
  }

  /** A refused header is answered without the remote call: the outcome does not depend on `remote`. */
  lemma NoRemoteCallOnBadHeader(authorization: Option<string>, remote1: string -> RemoteOutcome, remote2: string -> RemoteOutcome)
    requires CheckHeader(authorization).Err?
    ensures Activate(authorization, remote1) == Activate(authorization, remote2) == Err(CheckHeader(authorization).error)
  {
  }

  /** A well-formed header is forwarded as it came, and the answer to exactly that header decides. */
  lemma ForwardsHeaderUnchanged(header: string, remote: string -> RemoteOutcome)
    requires StartsWith(header, "Bearer ")
    ensures Activate(Some(header), remote) == MapOutcome(remote(header))
  {
  }

  /** Every refusal is one of the four `Unauthorized` errors. */
  lemma OnlyUnauthorized(authorization: Option<string>, remote: string -> RemoteOutcome)
    ensures Activate(authorization, remote).Err? ==>
      Activate(authorization, remote).error in {TokenMissing, InvalidFormat, InvalidToken, ValidationFailed}
  {
  }

  /** The incoming request; the guard fills in `user`. */
  class Request {
    const authorization: Option<string>
    var user: Option<UserInfo>

    constructor(authorization: Option<string>)
      ensures this.authorization == authorization && user.None?
    {
      this.authorization := authorization;
      user := None;
    }
  }

  /**
   * `canActivate(context)`: admits the request with `true` and the answer
   * of the auth service as `request.user`, or refuses it with an
   * `Unauthorized` error leaving `request.user` alone. It never answers `false`.
   */
  method CanActivate(request: Request, remote: string -> RemoteOutcome) returns (r: Result<bool, GuardError>)
    modifies request
    ensures r.Ok? ==> r.value
    ensures r.Ok? <==> Activate(request.authorization, remote).Ok?
    ensures r.Ok? ==> request.user == Some(Activate(request.authorization, remote).value)
    ensures r.Err? ==> r.error == Activate(request.authorization, remote).error && request.user == old(request.user)
  {
    var authHeader := request.authorization;
    if authHeader.None? || authHeader.value == "" {
      return Err(TokenMissing);
    }
    if !StartsWith(authHeader.value, "Bearer ") {
      return Err(InvalidFormat);
    }
    var response := remote(authHeader.value);
    if response.Response? {
      request.user := Some(response.data);
      return Ok(true);
    }
    if response.ErrorResponse? && response.status == 401 {
      return Err(InvalidToken);
    }
    r := Err(ValidationFailed);
  }
}
