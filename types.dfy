/** The records of the gateway (users, registration requests, service
    manifests and their runtime form, session token payloads), with the
    abstractions standing in for bcrypt and for HTTP status codes. */
module Types {
  import opened Wrappers

  type Role = string

  /** A service manifest as parsed from its `service.config.json`. A
      missing `id` is represented by the empty string: both are falsy. */
  datatype ServiceDefinition = ServiceDefinition(
    id: string,
    name: string,
    description: Option<string>,
    entryHtml: string,
    entryScript: string,
    requiredRoles: Option<seq<Role>>,
    proxyRewrite: Option<string>,
    proxyTarget: Option<string>)

  /** A loaded service: the manifest with defaults filled in and the
      absolute paths of its entry page, script and documents. */
  datatype ServiceRuntime = ServiceRuntime(
    id: string,
    name: string,
    description: Option<string>,
    entryHtml: string,
    entryScript: string,
    requiredRoles: seq<Role>,
    proxyRewrite: Option<string>,
    proxyTarget: Option<string>,
    absHtmlPath: string,
    absScriptPath: string,
    workblookPath: string,
    planPath: string,
    apiDocPath: string)

  datatype User = User(
    id: string,
    username: string,
    passwordHash: string,
    roles: seq<Role>,
    services: seq<string>,
    createdAt: string)

  /** The verified session identity carried by a token. */
  datatype AuthTokenPayload = AuthTokenPayload(
    sub: string,
    username: string,
    roles: seq<Role>,
    services: seq<string>)

  datatype RegistrationStatus = Pending | Approved | Rejected

  datatype RegistrationRequest = RegistrationRequest(
    id: string,
    username: string,
    passwordHash: string,
    status: RegistrationStatus,
    createdAt: string,
    reviewedAt: Option<string>,
    reviewerId: Option<string>,
    reason: Option<string>)

  /** bcrypt, abstracted: `hash` produces the stored digest of a password
      and `matches(password, digest)` is `bcrypt.compare`. */
  datatype Hasher = Hasher(hash: string -> string, matches: (string, string) -> bool)

  /** The hasher accepts every password against its own digest. */
  ghost predicate SoundHasher(h: Hasher) {
    forall pw :: h.matches(pw, h.hash(pw))
  }

  const ADMIN_ROLE: Role := "admin"
  const USER_ROLE: Role := "user"

  const OK := 200
  const CREATED := 201
  const BAD_REQUEST := 400
  const UNAUTHORIZED := 401
  const FORBIDDEN := 403
  const NOT_FOUND := 404
  const INTERNAL_ERROR := 500

  /** A field of a JSON request body as a schema sees it. */
  datatype Field<+T> = Missing | Present(value: T) | Malformed
}
