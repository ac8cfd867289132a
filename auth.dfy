/** The API's authentication dependencies: a bearer token decoded into a payload,
    an admin role read from the roles claim, and a shared-secret header that lets
    service jobs act as admin. Token validation itself is a parameter. */
module Auth {
  import opened Wrappers

  /** The decoded token payload: its subject and the roles claim
      (None when the claim is absent). */
  datatype Payload = Payload(sub: string, roles: Option<seq<string>>)

  /** An HTTPException: status code and detail. */
  datatype HttpError = HttpError(status: int, detail: string)

  const NotAuthenticated := HttpError(401, "Not authenticated")
  const InvalidToken := HttpError(401, "Invalid token")
  const AdminRequired := HttpError(403, "Admin role required")

  /** The payload handed to service jobs that present the admin secret. */
  const ServicePayload := Payload("service", Some(["admin"]))

  /** payload.get(ROLES_CLAIM, []) contains "admin". */
  predicate HasAdminRole(p: Payload) {
    "admin" in p.roles.GetOr([])
  }

  /** The decoded bearer token; decode returns None where decode_token raises. */
  function Authenticate(credentials: Option<string>, decode: string -> Option<Payload>): (r: Result<Payload, HttpError>)
    ensures credentials.None? ==> r == Err(NotAuthenticated)
    ensures credentials.Some? && decode(credentials.value).None? ==> r == Err(InvalidToken)
    ensures r.Ok? <==> credentials.Some? && decode(credentials.value).Some?
    ensures r.Ok? ==> r.value == decode(credentials.value).value
  {
    match credentials
    case None => Err(NotAuthenticated)
    case Some(token) =>
      match decode(token)
      case None => Err(InvalidToken)
      case Some(p) => Ok(p)
  }

  /** get_current_user: any valid token passes; the error is always a 401. */
  function GetCurrentUser(credentials: Option<string>, decode: string -> Option<Payload>): (r: Result<Payload, HttpError>)
    ensures r.Err? ==> r.error.status == 401
    ensures r.Ok? <==> credentials.Some? && decode(credentials.value).Some?
  {
    Authenticate(credentials, decode)
  }

  /** The service-key fallback: the secret is configured and the header matches it. */
  predicate SecretMatches(adminSecret: string, header: Option<string>) {
    adminSecret != "" && header == Some(adminSecret)
  }

  /** require_admin: the admin secret header, or a valid token whose roles include
      "admin". adminSecret is ADMIN_SECRET ("" when unset). */
  function RequireAdmin(adminSecret: string, credentials: Option<string>, header: Option<string>,
                        decode: string -> Option<Payload>): (r: Result<Payload, HttpError>)
    ensures SecretMatches(adminSecret, header) ==> r == Ok(ServicePayload)
    ensures !SecretMatches(adminSecret, header) && credentials.None? ==> r == Err(NotAuthenticated)
    ensures (!SecretMatches(adminSecret, header) && credentials.Some? && decode(credentials.value).None?)
      ==> r == Err(InvalidToken)
    ensures !SecretMatches(adminSecret, header) ==>
              (r == Err(AdminRequired) <==>
                 credentials.Some? && decode(credentials.value).Some? && !HasAdminRole(decode(credentials.value).value))
    ensures r.Ok? ==> HasAdminRole(r.value)
  {
    if SecretMatches(adminSecret, header) then Ok(ServicePayload)
    else
      match Authenticate(credentials, decode)
      case Err(e) => Err(e)
      case Ok(p) => if HasAdminRole(p) then Ok(p) else Err(AdminRequired)
  }

  /** Without the secret, an admin is a user whose payload carries the admin role:
      require_admin accepts exactly what get_current_user accepts and the role check
      passes, and returns the same payload. */
  lemma AdminIsUserWithRole(adminSecret: string, credentials: Option<string>, header: Option<string>,
                            decode: string -> Option<Payload>)
    requires !SecretMatches(adminSecret, header)
    ensures RequireAdmin(adminSecret, credentials, header, decode).Ok? <==>
      GetCurrentUser(credentials, decode).Ok? && HasAdminRole(GetCurrentUser(credentials, decode).value)
    ensures RequireAdmin(adminSecret, credentials, header, decode).Ok? ==>
      RequireAdmin(adminSecret, credentials, header, decode) == GetCurrentUser(credentials, decode)
  {
  }

  /** An unset secret disables the fallback: the header is never consulted. */
  lemma EmptySecretIgnoresHeader(credentials: Option<string>, h1: Option<string>, h2: Option<string>,
                                 decode: string -> Option<Payload>)
    ensures RequireAdmin("", credentials, h1, decode) == RequireAdmin("", credentials, h2, decode)
  {
  }

  /** A 403 means the token itself was valid: authentication failures are 401. */
  lemma ForbiddenOnlyAfterAuthentication(adminSecret: string, credentials: Option<string>, header: Option<string>,
                                         decode: string -> Option<Payload>)
    requires RequireAdmin(adminSecret, credentials, header, decode).Err?
    ensures RequireAdmin(adminSecret, credentials, header, decode).error.status == 403 <==>
      GetCurrentUser(credentials, decode).Ok?
  {
  }
}
