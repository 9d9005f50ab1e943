/** The access rule of `ensureServiceAccess`: a caller reaches a service
    when it is an administrator, holds an explicit grant for the service,
    or shares a role with the service's required roles. */
module Access {
  import opened Wrappers
  import opened Types

  datatype Decision = Admit | Unauthenticated | Forbidden {
    /** The status sent when the request is stopped here. */
    function Status(): int
      requires !Admit?
    {
      if Unauthenticated? then UNAUTHORIZED else FORBIDDEN
    }
  }

  predicate IsAdmin(user: AuthTokenPayload) {
    ADMIN_ROLE in user.roles
  }

  /** `user.services.includes(service.id)`. */
  predicate HasGrant(user: AuthTokenPayload, service: ServiceRuntime) {
    service.id in user.services
  }

  /** `service.requiredRoles.some((role) => user.roles.includes(role))`. */
  predicate SharesRole(user: AuthTokenPayload, service: ServiceRuntime) {
    exists i :: 0 <= i < |service.requiredRoles| && service.requiredRoles[i] in user.roles
  }

  predicate CanAccess(user: AuthTokenPayload, service: ServiceRuntime) {
    IsAdmin(user) || HasGrant(user, service) || SharesRole(user, service)
  }

  /** The middleware: no identity is 401; otherwise admit or 403. */
  function EnsureServiceAccess(user: Option<AuthTokenPayload>, service: ServiceRuntime): (d: Decision)
    ensures d.Unauthenticated? <==> user.None?
    ensures d.Admit? <==> user.Some? && CanAccess(user.value, service)
  {
    if user.None? then Unauthenticated
    else if !IsAdmin(user.value) && !HasGrant(user.value, service) && !SharesRole(user.value, service) then Forbidden
    else Admit
  }

  function AsSet<T>(s: seq<T>): set<T> {
    set x | x in s
  }

  /** The rule of requirePermission.ts stated over sets: admin role,
      or the service id among the grants, or a non-empty intersection of
      the caller's roles with the required roles. */
  lemma CanAccessBySets(user: AuthTokenPayload, service: ServiceRuntime)
    ensures CanAccess(user, service) <==>
              ADMIN_ROLE in AsSet(user.roles)
              || service.id in AsSet(user.services)
              || AsSet(user.roles) * AsSet(service.requiredRoles) != {}
  {
    var mine := AsSet(user.roles);
    var needed := AsSet(service.requiredRoles);
    if SharesRole(user, service) {
      var i :| 0 <= i < |service.requiredRoles| && service.requiredRoles[i] in user.roles;
      assert service.requiredRoles[i] in mine * needed;
    }
    if mine * needed != {} {
      var r :| r in mine * needed;
      var i :| 0 <= i < |service.requiredRoles| && service.requiredRoles[i] == r;
      assert SharesRole(user, service);
    }
  }

  lemma NoIdentityIsUnauthenticated(service: ServiceRuntime)
    ensures EnsureServiceAccess(None, service) == Unauthenticated
    ensures EnsureServiceAccess(None, service).Status() == UNAUTHORIZED
  {
  }

  lemma AdminAlwaysAdmitted(user: AuthTokenPayload, service: ServiceRuntime)
    requires ADMIN_ROLE in user.roles
    ensures EnsureServiceAccess(Some(user), service) == Admit
  {
  }

  lemma GrantAdmits(user: AuthTokenPayload, service: ServiceRuntime)
    requires service.id in user.services
    ensures EnsureServiceAccess(Some(user), service) == Admit
  {
  }

  lemma SharedRoleAdmits(user: AuthTokenPayload, service: ServiceRuntime, role: Role)
    requires role in user.roles && role in service.requiredRoles
    ensures EnsureServiceAccess(Some(user), service) == Admit
  {
    var i :| 0 <= i < |service.requiredRoles| && service.requiredRoles[i] == role;
  }

  /** Neither admin, grant nor shared role: 403. With no required roles a
      non-admin without a grant is always refused. */
  lemma OtherwiseForbidden(user: AuthTokenPayload, service: ServiceRuntime)
    requires ADMIN_ROLE !in user.roles && service.id !in user.services
    requires forall r :: r in service.requiredRoles ==> r !in user.roles
    ensures EnsureServiceAccess(Some(user), service) == Forbidden
    ensures EnsureServiceAccess(Some(user), service).Status() == FORBIDDEN
  {
  }

  predicate Includes<T(==)>(big: seq<T>, small: seq<T>) {
    forall x :: x in small ==> x in big
  }

  /** Gaining roles or grants never turns an admission into a refusal. */
  lemma AdmissionMonotone(user: AuthTokenPayload, more: AuthTokenPayload, service: ServiceRuntime)
    requires Includes(more.roles, user.roles) && Includes(more.services, user.services)
    requires EnsureServiceAccess(Some(user), service) == Admit
    ensures EnsureServiceAccess(Some(more), service) == Admit
  {
    if SharesRole(user, service) {
      var i :| 0 <= i < |service.requiredRoles| && service.requiredRoles[i] in user.roles;
      assert service.requiredRoles[i] in more.roles;
    }
  }
}
