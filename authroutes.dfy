/** The account routes: sign-up requests, login with a session cookie,
    the caller's identity, password change and grant assignment. A body
    field is `Missing`, `Present` with the type the schema wants, or
    `Malformed`. */
module AuthRoutes {
  import opened Wrappers
  import opened Types
  import Authenticate
  import Users
  import Registrations

  const MIN_USERNAME := 3
  const MIN_PASSWORD := 6
  const TOKEN_COOKIE := "token"
  /** Eight hours, in milliseconds. */
  const SESSION_MAX_AGE_MS := 1000 * 60 * 60 * 8

  /** The payload `signUser` puts into the token. */
  function TokenPayload(user: User): (p: AuthTokenPayload)
    ensures p.sub == user.id && p.username == user.username
    ensures p.roles == user.roles && p.services == user.services
  {
    AuthTokenPayload(user.id, user.username, user.roles, user.services)
  }

  /** The register schema: a username of at least 3 characters and a
      password of at least 6. */
  predicate RegistrationAccepted(username: Field<string>, password: Field<string>) {
    username.Present? && password.Present? && |username.value| >= MIN_USERNAME && |password.value| >= MIN_PASSWORD
  }

  /** `POST /auth/register`: 400 for a body the schema refuses or when a
      request is already pending, otherwise 201 with the new request's id
      and username. */
  method Register(username: Field<string>, password: Field<string>, regStore: Registrations.RegistrationStore,
                  hasher: Hasher, newId: string, now: string)
    returns (status: int, reply: Option<(string, string)>)
    requires regStore.Valid()
    modifies regStore`requests, regStore`persisted
    ensures regStore.Valid()
    ensures !RegistrationAccepted(username, password) ==>
              status == BAD_REQUEST && reply.None? && regStore.requests == old(regStore.requests)
    ensures RegistrationAccepted(username, password) &&
            Registrations.FindPending(old(regStore.requests), username.value).Some? ==>
              status == BAD_REQUEST && reply.None? && regStore.requests == old(regStore.requests)
    ensures RegistrationAccepted(username, password) &&
            Registrations.FindPending(old(regStore.requests), username.value).None? ==>
              && status == CREATED && reply == Some((newId, username.value))
              && regStore.requests == old(regStore.requests)
                   + [RegistrationRequest(newId, username.value, hasher.hash(password.value), Pending, now, None, None, None)]
    ensures status == CREATED || status == BAD_REQUEST
  {
    if !RegistrationAccepted(username, password) {
      return BAD_REQUEST, None;
    }
    var r := regStore.CreateRequest(username.value, password.value, hasher, newId, now);
    if r.Err? {
      return BAD_REQUEST, None;
    }
    return CREATED, Some((r.value.id, r.value.username));
  }

  datatype Cookie = Cookie(name: string, value: string, httpOnly: bool, sameSite: string, secure: bool, maxAgeMs: int)

  /** The user object returned by login: no password hash. */
  datatype LoginUser = LoginUser(id: string, username: string, roles: seq<Role>, services: seq<string>)

  datatype LoginReply =
    | LoginRefused(status: int)
    | LoggedIn(token: string, user: LoginUser, cookie: Cookie)

  /** `POST /auth/login`: `sign` is the token signer and `production`
      says whether `NODE_ENV` is `production`. */
  function Login(username: Field<string>, password: Field<string>, userStore: Users.UserStore,
                 hasher: Hasher, sign: AuthTokenPayload -> string, production: bool): (r: LoginReply)
    reads userStore
    ensures !(username.Present? && password.Present?) ==> r == LoginRefused(BAD_REQUEST)
    ensures username.Present? && password.Present? ==>
              (r.LoggedIn? <==> userStore.ValidateCredentials(username.value, password.value, hasher).Some?)
    ensures username.Present? && password.Present? && r.LoginRefused? ==> r.status == UNAUTHORIZED
    ensures r.LoggedIn? ==>
              && username.Present? && password.Present?
              && var u := userStore.ValidateCredentials(username.value, password.value, hasher).value;
              && r.token == sign(TokenPayload(u))
              && r.user == LoginUser(u.id, u.username, u.roles, u.services)
              && r.cookie == Cookie(TOKEN_COOKIE, r.token, true, "lax", production, SESSION_MAX_AGE_MS)
  {
    if !(username.Present? && password.Present?) then LoginRefused(BAD_REQUEST)
    else match userStore.ValidateCredentials(username.value, password.value, hasher)
      case None => LoginRefused(UNAUTHORIZED)
      case Some(u) =>
        var token := sign(TokenPayload(u));
        LoggedIn(token, LoginUser(u.id, u.username, u.roles, u.services),
                 Cookie(TOKEN_COOKIE, token, true, "lax", production, SESSION_MAX_AGE_MS))
  }

  /** With a verifier that accepts exactly what the signer issued, the
      session a login hands out authenticates as that user, whether it is
      sent back as a bearer header or as the cookie. */
  lemma LoginSessionAuthenticates(username: Field<string>, password: Field<string>, userStore: Users.UserStore,
                                  hasher: Hasher, sign: AuthTokenPayload -> string, production: bool,
                                  verify: string -> Option<AuthTokenPayload>)
    requires forall p :: sign(p) != "" && verify(sign(p)) == Some(p)
    requires Login(username, password, userStore, hasher, sign, production).LoggedIn?
    ensures var r := Login(username, password, userStore, hasher, sign, production);
            var who := AuthTokenPayload(r.user.id, r.user.username, r.user.roles, r.user.services);
            && Authenticate.Authenticate(Some(Authenticate.BEARER_PREFIX + r.token), None, verify)
               == Authenticate.Authenticated(who)
            && Authenticate.Authenticate(None, Some(r.cookie.value), verify) == Authenticate.Authenticated(who)
  {
    var r := Login(username, password, userStore, hasher, sign, production);
    Authenticate.BearerRoundTrip(r.token, None);
  }

  /** `GET /auth/me`. */
  function Me(auth: Authenticate.AuthOutcome): (r: (int, Option<AuthTokenPayload>))
    ensures r.0 == OK <==> r.1.Some?
    ensures auth.Refused? ==> r == (UNAUTHORIZED, None)
    ensures auth.Authenticated? ==> r.1 == Some(auth.user)
  {
    if auth.Refused? then (UNAUTHORIZED, None) else (OK, Some(auth.user))
  }

  /** `POST /auth/change-password` for the caller's own account. */
  method ChangePassword(auth: Authenticate.AuthOutcome, oldPassword: Field<string>, newPassword: Field<string>,
                        userStore: Users.UserStore, hasher: Hasher)
    returns (status: int)
    requires userStore.Valid()
    modifies userStore`users, userStore`persisted
    ensures userStore.Valid()
    ensures auth.Refused? ==> status == UNAUTHORIZED && userStore.users == old(userStore.users)
    ensures auth.Authenticated? && !(oldPassword.Present? && newPassword.Present? && |newPassword.value| >= MIN_PASSWORD) ==>
              status == BAD_REQUEST && userStore.users == old(userStore.users)
    ensures auth.Authenticated? && oldPassword.Present? && newPassword.Present? && |newPassword.value| >= MIN_PASSWORD ==>
              match Users.FindById(old(userStore.users), auth.user.sub)
              case None => status == BAD_REQUEST && userStore.users == old(userStore.users)
              case Some(i) =>
                if hasher.matches(oldPassword.value, old(userStore.users)[i].passwordHash) then
                  && status == OK
                  && userStore.users == old(userStore.users)[i := old(userStore.users)[i].(passwordHash := hasher.hash(newPassword.value))]
                else status == BAD_REQUEST && userStore.users == old(userStore.users)
  {
    if auth.Refused? {
      return UNAUTHORIZED;
    }
    if !(oldPassword.Present? && newPassword.Present? && |newPassword.value| >= MIN_PASSWORD) {
      return BAD_REQUEST;
    }
    var r := userStore.ChangePassword(auth.user.sub, oldPassword.value, newPassword.value, hasher);
    status := if r.Ok? then OK else BAD_REQUEST;
  }

  /** The assign schema: `username` and `services` required, `roles`
      optional. */
  predicate AssignAccepted(username: Field<string>, services: Field<seq<string>>, roles: Field<seq<Role>>) {
    username.Present? && services.Present? && !roles.Malformed?
  }

  /** `POST /auth/assign`: only an administrator, checked before the body
      is read; an unknown username is 404. The grants are always replaced,
      the roles only when supplied. */
  method Assign(auth: Authenticate.AuthOutcome, username: Field<string>, services: Field<seq<string>>,
                roles: Field<seq<Role>>, userStore: Users.UserStore)
    returns (status: int)
    requires userStore.Valid()
    modifies userStore`users, userStore`persisted
    ensures userStore.Valid()
    ensures auth.Refused? ==> status == UNAUTHORIZED && userStore.users == old(userStore.users)
    ensures auth.Authenticated? && ADMIN_ROLE !in auth.user.roles ==>
              status == FORBIDDEN && userStore.users == old(userStore.users)
    ensures auth.Authenticated? && ADMIN_ROLE in auth.user.roles && !AssignAccepted(username, services, roles) ==>
              status == BAD_REQUEST && userStore.users == old(userStore.users)
    ensures auth.Authenticated? && ADMIN_ROLE in auth.user.roles && AssignAccepted(username, services, roles) ==>
              match Users.FindByUsername(old(userStore.users), username.value)
              case None => status == NOT_FOUND && userStore.users == old(userStore.users)
              case Some(k) =>
                var i := Users.FindById(old(userStore.users), old(userStore.users)[k].id).value;
                var newRoles := if roles.Present? then Some(roles.value) else None;
                && status == OK
                && userStore.users == old(userStore.users)[i := Users.Updated(old(userStore.users)[i], newRoles, Some(services.value))]
  {
    if auth.Refused? {
      return UNAUTHORIZED;
    }
    if ADMIN_ROLE !in auth.user.roles {
      return FORBIDDEN;
    }
    if !AssignAccepted(username, services, roles) {
      return BAD_REQUEST;
    }
    var newRoles := if roles.Present? then Some(roles.value) else None;
    var r := userStore.UpdateByUsername(username.value, newRoles, Some(services.value));
    status := if r.Ok? then OK else NOT_FOUND;
  }
}
