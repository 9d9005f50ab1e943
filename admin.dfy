/** The administration routes: every route is behind authentication and
    the admin role; an administrator cannot change or delete their own
    account; store errors are reported as 400. */
module Admin {
  import opened Wrappers
  import opened Types
  import Seqs
  import Authenticate
  import Users
  import Registrations
  import Registry
  import Paths

  /** `authenticate` then `requireAdmin`: the status that stops the
      request, or `None` when it goes on to the route. */
  function AdminGate(auth: Authenticate.AuthOutcome): (stop: Option<int>)
    ensures stop.None? <==> auth.Authenticated? && ADMIN_ROLE in auth.user.roles
    ensures auth.Refused? ==> stop == Some(UNAUTHORIZED)
    ensures auth.Authenticated? && ADMIN_ROLE !in auth.user.roles ==> stop == Some(FORBIDDEN)
  {
    if auth.Refused? then Some(UNAUTHORIZED)
    else if ADMIN_ROLE !in auth.user.roles then Some(FORBIDDEN)
    else None
  }

  /** A user as the listing shows it: everything but the password hash. */
  datatype UserView = UserView(id: string, username: string, roles: seq<Role>, services: seq<string>, createdAt: string)

  function ViewOf(u: User): (v: UserView)
    ensures v.id == u.id && v.username == u.username && v.createdAt == u.createdAt
    ensures v.roles == u.roles && v.services == u.services
  {
    UserView(u.id, u.username, u.roles, u.services, u.createdAt)
  }

  function UserViews(users: seq<User>): (r: seq<UserView>)
    ensures |r| == |users|
    ensures forall k :: 0 <= k < |r| ==> r[k] == ViewOf(users[k])
  {
    if |users| == 0 then [] else [ViewOf(users[0])] + UserViews(users[1..])
  }

  /** The listing shows nothing of password hashes: two lists that
      differ only in hashes are shown identically. */
  lemma {:induction false} ListingHidesHashes(a: seq<User>, b: seq<User>)
    requires |a| == |b|
    requires forall k :: 0 <= k < |a| ==> a[k].(passwordHash := "") == b[k].(passwordHash := "")
    ensures UserViews(a) == UserViews(b)
  {
    if |a| > 0 {
      assert ViewOf(a[0]) == ViewOf(b[0]) by {
        assert a[0].(passwordHash := "").id == b[0].(passwordHash := "").id;
      }
      ListingHidesHashes(a[1..], b[1..]);
    }
  }

  /** A request as the review queue shows it. */
  datatype RequestView = RequestView(id: string, username: string, status: RegistrationStatus, createdAt: string)

  function RequestViewOf(q: RegistrationRequest): (v: RequestView)
    ensures v.id == q.id && v.username == q.username && v.status == q.status && v.createdAt == q.createdAt
  {
    RequestView(q.id, q.username, q.status, q.createdAt)
  }

  function RequestViews(requests: seq<RegistrationRequest>): (r: seq<RequestView>)
    ensures |r| == |requests|
    ensures forall k :: 0 <= k < |r| ==> r[k] == RequestViewOf(requests[k])
  {
    if |requests| == 0 then [] else [RequestViewOf(requests[0])] + RequestViews(requests[1..])
  }

  /** A service as the admin listing shows it. */
  datatype ServiceView = ServiceView(id: string, name: string, description: Option<string>,
                                     requiredRoles: seq<Role>, proxyTarget: Option<string>, proxyRewrite: Option<string>)

  function ServiceViewOf(s: ServiceRuntime): (v: ServiceView)
    ensures v.id == s.id && v.name == s.name && v.description == s.description
    ensures v.requiredRoles == s.requiredRoles && v.proxyTarget == s.proxyTarget && v.proxyRewrite == s.proxyRewrite
  {
    ServiceView(s.id, s.name, s.description, s.requiredRoles, s.proxyTarget, s.proxyRewrite)
  }

  function ServiceViews(services: seq<ServiceRuntime>): (r: seq<ServiceView>)
    ensures |r| == |services|
    ensures forall k :: 0 <= k < |r| ==> r[k] == ServiceViewOf(services[k])
  {
    if |services| == 0 then [] else [ServiceViewOf(services[0])] + ServiceViews(services[1..])
  }

  /** `GET /admin/users`. */
  function ListUsers(auth: Authenticate.AuthOutcome, userStore: Users.UserStore): (r: (int, seq<UserView>))
    reads userStore
    ensures AdminGate(auth).Some? ==> r.0 == AdminGate(auth).value && r.1 == []
    ensures AdminGate(auth).None? ==> r.0 == OK && r.1 == UserViews(userStore.users)
  {
    if AdminGate(auth).Some? then (AdminGate(auth).value, [])
    else (OK, UserViews(userStore.List()))
  }

  /** `GET /admin/registration-requests`: the pending queue only. */
  function ListPendingRequests(auth: Authenticate.AuthOutcome, regStore: Registrations.RegistrationStore)
    : (r: (int, seq<RequestView>))
    reads regStore
    ensures AdminGate(auth).Some? ==> r.0 == AdminGate(auth).value && r.1 == []
    ensures AdminGate(auth).None? ==> r.0 == OK && r.1 == RequestViews(regStore.List(Some(Pending)))
    ensures forall k :: 0 <= k < |r.1| ==> r.1[k].status == Pending
    ensures AdminGate(auth).None? ==>
              forall q :: q in regStore.requests && q.status == Pending ==> RequestViewOf(q) in r.1
  {
    if AdminGate(auth).Some? then (AdminGate(auth).value, [])
    else
      var pending := regStore.List(Some(Pending));
      var views := RequestViews(pending);
      assert forall k :: 0 <= k < |pending| ==> pending[k] in pending;
      assert forall q :: q in pending ==> RequestViewOf(q) in views by {
        forall q | q in pending ensures RequestViewOf(q) in views {
          var k :| 0 <= k < |pending| && pending[k] == q;
          assert views[k] == RequestViewOf(q);
        }
      }
      (OK, views)
  }

  /** `GET /admin/services`. */
  function ListServices(auth: Authenticate.AuthOutcome, registry: Registry.ServiceRegistry): (r: (int, seq<ServiceView>))
    requires registry.Valid()
    reads registry
    ensures AdminGate(auth).Some? ==> r.0 == AdminGate(auth).value && r.1 == []
    ensures AdminGate(auth).None? ==> r.0 == OK && r.1 == ServiceViews(registry.List())
    ensures AdminGate(auth).None? ==>
              forall id :: id in registry.services ==> ServiceViewOf(registry.services[id]) in r.1
  {
    if AdminGate(auth).Some? then (AdminGate(auth).value, [])
    else
      var listed := registry.List();
      var views := ServiceViews(listed);
      assert forall id :: id in registry.services ==> ServiceViewOf(registry.services[id]) in views by {
        forall id | id in registry.services ensures ServiceViewOf(registry.services[id]) in views {
          assert id in set k | k in registry.order;
          var i :| 0 <= i < |registry.order| && registry.order[i] == id;
          assert views[i] == ServiceViewOf(listed[i]);
        }
      }
      (OK, views)
  }

  /** `PATCH /admin/users/{userId}`. */
  method PatchUser(auth: Authenticate.AuthOutcome, userStore: Users.UserStore, targetUserId: string,
                   roles: Option<seq<Role>>, services: Option<seq<string>>)
    returns (status: int)
    requires userStore.Valid()
    modifies userStore`users, userStore`persisted
    ensures userStore.Valid()
    ensures AdminGate(auth).Some? ==> status == AdminGate(auth).value && userStore.users == old(userStore.users)
    ensures AdminGate(auth).None? && targetUserId == auth.user.sub ==>
              status == FORBIDDEN && userStore.users == old(userStore.users)
    ensures AdminGate(auth).None? && targetUserId != auth.user.sub ==>
              match Users.FindById(old(userStore.users), targetUserId)
              case None => status == BAD_REQUEST && userStore.users == old(userStore.users)
              case Some(i) =>
                && status == OK
                && userStore.users == old(userStore.users)[i := Users.Updated(old(userStore.users)[i], roles, services)]
  {
    var stop := AdminGate(auth);
    if stop.Some? {
      return stop.value;
    }
    if targetUserId == auth.user.sub {
      return FORBIDDEN;
    }
    var r := userStore.UpdateUser(targetUserId, roles, services);
    status := if r.Ok? then OK else BAD_REQUEST;
  }

  /** `DELETE /admin/users/{userId}`. */
  method DeleteUser(auth: Authenticate.AuthOutcome, userStore: Users.UserStore, targetUserId: string)
    returns (status: int)
    requires userStore.Valid()
    modifies userStore`users, userStore`persisted
    ensures userStore.Valid()
    ensures AdminGate(auth).Some? ==> status == AdminGate(auth).value && userStore.users == old(userStore.users)
    ensures AdminGate(auth).None? && targetUserId == auth.user.sub ==>
              status == FORBIDDEN && userStore.users == old(userStore.users)
    ensures AdminGate(auth).None? && targetUserId != auth.user.sub ==>
              match Users.FindById(old(userStore.users), targetUserId)
              case None => status == BAD_REQUEST && userStore.users == old(userStore.users)
              case Some(i) => status == OK && userStore.users == Seqs.RemoveAt(old(userStore.users), i)
    ensures auth.Authenticated? ==>
              forall u :: u in old(userStore.users) && u.id == auth.user.sub ==> u in userStore.users
  {
    var stop := AdminGate(auth);
    if stop.Some? {
      return stop.value;
    }
    if targetUserId == auth.user.sub {
      return FORBIDDEN;
    }
    ghost var before := userStore.users;
    var r := userStore.DeleteUser(targetUserId);
    status := if r.Ok? then OK else BAD_REQUEST;
    if r.Ok? {
      OthersSurviveRemoval(before, Users.FindById(before, targetUserId).value, auth.user.sub);
    }
  }

  /** Removing the record at `i` keeps every record whose id differs
      from the removed one. */
  lemma OthersSurviveRemoval(users: seq<User>, i: nat, id: string)
    requires i < |users| && users[i].id != id
    ensures forall u :: u in users && u.id == id ==> u in Seqs.RemoveAt(users, i)
  {
    var r := Seqs.RemoveAt(users, i);
    forall u | u in users && u.id == id ensures u in r {
      var j :| 0 <= j < |users| && users[j] == u;
      if j < i { assert r[j] == u; } else { assert r[j - 1] == u; }
    }
  }

  /** `POST /admin/registration-requests/{requestId}/approve`: the caller
      is recorded as reviewer. */
  method ApproveRequest(auth: Authenticate.AuthOutcome, regStore: Registrations.RegistrationStore,
                        userStore: Users.UserStore, requestId: string,
                        newUserId: string, userCreatedAt: string, reviewedAt: string)
    returns (status: int)
    requires regStore.Valid() && userStore.Valid()
    modifies regStore`requests, regStore`persisted, userStore`users, userStore`persisted
    ensures regStore.Valid() && userStore.Valid()
    ensures AdminGate(auth).Some? ==>
              && status == AdminGate(auth).value
              && regStore.requests == old(regStore.requests) && userStore.users == old(userStore.users)
    ensures AdminGate(auth).None? ==> status == OK || status == BAD_REQUEST
    ensures AdminGate(auth).None? && status == OK ==>
              match Registrations.FindRequest(old(regStore.requests), requestId)
              case None => false
              case Some(i) =>
                && i < |regStore.requests|
                && regStore.requests[i].status == Approved
                && regStore.requests[i].reviewerId == Some(auth.user.sub)
    ensures status != OK ==> regStore.requests == old(regStore.requests) && userStore.users == old(userStore.users)
    ensures AdminGate(auth).None? ==>
              match Registrations.FindRequest(old(regStore.requests), requestId)
              case None => status == BAD_REQUEST
              case Some(i) =>
                var q := old(regStore.requests)[i];
                if q.status != Pending || Users.FindByUsername(old(userStore.users), q.username).Some? then
                  status == BAD_REQUEST
                else
                  && status == OK
                  && userStore.users == old(userStore.users)
                       + [User(newUserId, q.username, q.passwordHash, [USER_ROLE], [], userCreatedAt)]
                  && regStore.requests == old(regStore.requests)[i := q.(status := Approved,
                       reviewedAt := Some(reviewedAt), reviewerId := Some(auth.user.sub))]
    ensures Registrations.Advances(old(regStore.requests), regStore.requests)
  {
    var stop := AdminGate(auth);
    if stop.Some? {
      return stop.value;
    }
    var r := regStore.Approve(requestId, userStore, auth.user.sub, newUserId, userCreatedAt, reviewedAt);
    status := if r.Ok? then OK else BAD_REQUEST;
  }

  /** `POST /admin/registration-requests/{requestId}/reject`. */
  method RejectRequest(auth: Authenticate.AuthOutcome, regStore: Registrations.RegistrationStore,
                       requestId: string, reason: Option<string>, reviewedAt: string)
    returns (status: int)
    requires regStore.Valid()
    modifies regStore`requests, regStore`persisted
    ensures regStore.Valid()
    ensures AdminGate(auth).Some? ==> status == AdminGate(auth).value && regStore.requests == old(regStore.requests)
    ensures AdminGate(auth).None? ==> status == OK || status == BAD_REQUEST
    ensures AdminGate(auth).None? && status == OK ==>
              match Registrations.FindRequest(old(regStore.requests), requestId)
              case None => false
              case Some(i) =>
                && i < |regStore.requests|
                && regStore.requests[i].status == Rejected
                && regStore.requests[i].reviewerId == Some(auth.user.sub)
                && regStore.requests[i].reason == reason
    ensures status != OK ==> regStore.requests == old(regStore.requests)
    ensures AdminGate(auth).None? ==>
              match Registrations.FindRequest(old(regStore.requests), requestId)
              case None => status == BAD_REQUEST
              case Some(i) =>
                var q := old(regStore.requests)[i];
                if q.status != Pending then status == BAD_REQUEST
                else
                  && status == OK
                  && regStore.requests == old(regStore.requests)[i := q.(status := Rejected,
                       reviewedAt := Some(reviewedAt), reviewerId := Some(auth.user.sub), reason := reason)]
    ensures Registrations.Advances(old(regStore.requests), regStore.requests)
  {
    var stop := AdminGate(auth);
    if stop.Some? {
      return stop.value;
    }
    var r := regStore.Reject(requestId, auth.user.sub, reason, reviewedAt);
    status := if r.Ok? then OK else BAD_REQUEST;
  }

  /** `PATCH /admin/services/{serviceId}`: `onDisk` is the manifest as
      read from the service's directory. */
  method PatchService(auth: Authenticate.AuthOutcome, registry: Registry.ServiceRegistry, serviceId: string,
                      updates: Registry.ServiceUpdate, onDisk: Registry.ConfigFile, env: Registry.Env)
    returns (status: int)
    requires registry.Valid()
    modifies registry`services, registry`order, registry`written
    ensures registry.Valid()
    ensures registry.order == old(registry.order)
    ensures AdminGate(auth).Some? ==>
              status == AdminGate(auth).value && registry.services == old(registry.services)
              && registry.written == old(registry.written)
    ensures AdminGate(auth).None? && (serviceId !in old(registry.services) || !onDisk.Parsed?) ==>
              status == BAD_REQUEST && registry.services == old(registry.services)
              && registry.written == old(registry.written)
    ensures AdminGate(auth).None? && serviceId in old(registry.services) && onDisk.Parsed? ==>
              var serviceDir := Paths.Dirname(Paths.Dirname(old(registry.services)[serviceId].absHtmlPath));
              && status == OK
              && registry.services == old(registry.services)[serviceId :=
                   Registry.ToRuntime(Registry.Merge(onDisk.def, updates), serviceDir, env)]
              && registry.written == old(registry.written)[serviceDir := Registry.Merge(onDisk.def, updates)]
  {
    var stop := AdminGate(auth);
    if stop.Some? {
      return stop.value;
    }
    var r := registry.UpdateService(serviceId, updates, onDisk, env);
    status := if r.Ok? then OK else BAD_REQUEST;
  }
}
