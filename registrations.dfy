/** The registration store: sign-up requests kept in
    `registrationRequests.json`, reviewed by an administrator. A request is
    created `Pending` and moves once, to `Approved` (creating the account)
    or to `Rejected`; both are final. */
module Registrations {
  import opened Wrappers
  import opened Types
  import Seqs
  import Users

  datatype RegistrationError =
    | AlreadyPending
    | RequestNotFound
    | AlreadyReviewed
    | AccountNotCreated(cause: Users.UserError)

  /** The position of a pending request for `username`, if any. */
  function FindPending(requests: seq<RegistrationRequest>, username: string): (r: Option<nat>)
    ensures r.Some? ==> r.value < |requests| && requests[r.value].username == username
                        && requests[r.value].status == Pending
    ensures r.None? <==> forall q :: q in requests ==> !(q.username == username && q.status == Pending)
  {
    Seqs.FirstIndex(requests, (q: RegistrationRequest) => q.username == username && q.status == Pending)
  }

  /** `requests.find(req => req.id === requestId)`, as a position. */
  function FindRequest(requests: seq<RegistrationRequest>, requestId: string): (r: Option<nat>)
    ensures r.Some? ==> r.value < |requests| && requests[r.value].id == requestId
    ensures r.Some? ==> forall j :: 0 <= j < r.value ==> requests[j].id != requestId
    ensures r.None? <==> forall q :: q in requests ==> q.id != requestId
  {
    Seqs.FirstIndex(requests, (q: RegistrationRequest) => q.id == requestId)
  }

  /** No username has two pending requests. */
  predicate AtMostOnePending(requests: seq<RegistrationRequest>) {
    forall i, j :: 0 <= i < j < |requests| && requests[i].status == Pending && requests[j].status == Pending
                   ==> requests[i].username != requests[j].username
  }

  /** A status either stays or leaves `Pending`; nothing returns to it and
      nothing leaves `Approved` or `Rejected`. */
  predicate StatusStep(before: RegistrationStatus, after: RegistrationStatus) {
    before == after || (before == Pending && after != Pending)
  }

  /** Every request that existed is still there, at the same place, with
      its status moved along `StatusStep` only. */
  predicate Advances(before: seq<RegistrationRequest>, after: seq<RegistrationRequest>) {
    |before| <= |after|
    && forall k :: 0 <= k < |before| ==>
         after[k].id == before[k].id && after[k].username == before[k].username
         && StatusStep(before[k].status, after[k].status)
  }

  lemma AppendPendingKeepsUnique(requests: seq<RegistrationRequest>, q: RegistrationRequest)
    requires AtMostOnePending(requests) && FindPending(requests, q.username).None?
    ensures AtMostOnePending(requests + [q])
  {
    assert forall i :: 0 <= i < |requests| ==> requests[i] in requests;
  }

  /** Taking a request out of `Pending` keeps at most one pending per name. */
  lemma ReviewKeepsUnique(requests: seq<RegistrationRequest>, i: nat, q: RegistrationRequest)
    requires AtMostOnePending(requests) && i < |requests| && q.status != Pending
    ensures AtMostOnePending(requests[i := q])
  {
  }

  /** Reviewing one pending request advances the list. */
  lemma ReviewAdvances(requests: seq<RegistrationRequest>, i: nat, q: RegistrationRequest)
    requires i < |requests| && requests[i].status == Pending
    requires q.id == requests[i].id && q.username == requests[i].username
    ensures Advances(requests, requests[i := q])
  {
  }

  /** Steps compose: a history of operations that each advance, advances. */
  lemma AdvancesTransitive(a: seq<RegistrationRequest>, b: seq<RegistrationRequest>, c: seq<RegistrationRequest>)
    requires Advances(a, b) && Advances(b, c)
    ensures Advances(a, c)
  {
  }

  class RegistrationStore {
    var requests: seq<RegistrationRequest>
    /** The contents of `registrationRequests.json` as last written. */
    ghost var persisted: seq<RegistrationRequest>

    ghost predicate Valid()
      reads this
    {
      persisted == requests
    }

    constructor ()
      ensures Valid() && requests == []
    {
      requests := [];
      persisted := [];
    }

    /** `init`: take the requests read from the file. */
    method Init(loaded: seq<RegistrationRequest>)
      modifies this`requests, this`persisted
      ensures Valid() && requests == loaded
    {
      requests := loaded;
      persisted := loaded;
    }

    /** `list(status = 'pending')`: the requests with that status, in
        stored order. */
    function List(status: Option<RegistrationStatus>): (r: seq<RegistrationRequest>)
      reads this
      ensures forall q :: q in r <==> q in requests && q.status == status.GetOr(Pending)
      ensures |r| <= |requests|
      ensures r == Seqs.Filter(requests, (q: RegistrationRequest) => q.status == status.GetOr(Pending))
    {
      var wanted := status.GetOr(Pending);
      Seqs.FilterKeepsMatches(requests, (q: RegistrationRequest) => q.status == wanted);
      Seqs.Filter(requests, (q: RegistrationRequest) => q.status == wanted)
    }

    /** `createRequest`: refuse while the name has a pending request;
        otherwise append a pending request holding the password's hash. */
    method CreateRequest(username: string, password: string, hasher: Hasher, newId: string, now: string)
      returns (r: Result<RegistrationRequest, RegistrationError>)
      requires Valid()
      modifies this`requests, this`persisted
      ensures Valid()
      ensures FindPending(old(requests), username).Some? ==> r == Err(AlreadyPending) && requests == old(requests)
      ensures FindPending(old(requests), username).None? ==>
                && r == Ok(RegistrationRequest(newId, username, hasher.hash(password), Pending, now, None, None, None))
                && requests == old(requests) + [r.value]
      ensures AtMostOnePending(old(requests)) ==> AtMostOnePending(requests)
      ensures Advances(old(requests), requests)
    {
      if FindPending(requests, username).Some? {
        return Err(AlreadyPending);
      }
      var request := RegistrationRequest(newId, username, hasher.hash(password), Pending, now, None, None, None);
      if AtMostOnePending(requests) {
        AppendPendingKeepsUnique(requests, request);
      }
      requests := requests + [request];
      persisted := requests;
      return Ok(request);
    }

    /** `approve`: a pending request becomes an account with role `user`
        and no grants, made from the stored hash; only then is the request
        marked approved. If the account cannot be created, nothing changes. */
    method Approve(requestId: string, userStore: Users.UserStore, reviewerId: string,
                   newUserId: string, userCreatedAt: string, reviewedAt: string)
      returns (r: Result<RegistrationRequest, RegistrationError>)
      requires Valid() && userStore.Valid()
      modifies this`requests, this`persisted, userStore`users, userStore`persisted
      ensures Valid() && userStore.Valid()
      ensures FindRequest(old(requests), requestId).None? ==>
                r == Err(RequestNotFound) && requests == old(requests) && userStore.users == old(userStore.users)
      ensures FindRequest(old(requests), requestId).Some? ==>
                var i := FindRequest(old(requests), requestId).value;
                var q := old(requests)[i];
                if q.status != Pending then
                  r == Err(AlreadyReviewed) && requests == old(requests) && userStore.users == old(userStore.users)
                else if Users.FindByUsername(old(userStore.users), q.username).Some? then
                  && r == Err(AccountNotCreated(Users.UsernameTaken))
                  && requests == old(requests) && userStore.users == old(userStore.users)
                else
                  && userStore.users == old(userStore.users)
                       + [User(newUserId, q.username, q.passwordHash, [USER_ROLE], [], userCreatedAt)]
                  && r == Ok(q.(status := Approved, reviewedAt := Some(reviewedAt), reviewerId := Some(reviewerId)))
                  && requests == old(requests)[i := r.value]
      ensures AtMostOnePending(old(requests)) ==> AtMostOnePending(requests)
      ensures Advances(old(requests), requests)
      ensures Users.UniqueUsernames(old(userStore.users)) ==> Users.UniqueUsernames(userStore.users)
    {
      var found := FindRequest(requests, requestId);
      if found.None? {
        return Err(RequestNotFound);
      }
      var i := found.value;
      var request := requests[i];
      if request.status != Pending {
        return Err(AlreadyReviewed);
      }
      var created := userStore.CreateUserFromHash(request.username, request.passwordHash,
                                                  Some([USER_ROLE]), Some([]), newUserId, userCreatedAt);
      if created.Err? {
        return Err(AccountNotCreated(created.error));
      }
      var reviewed := request.(status := Approved, reviewedAt := Some(reviewedAt), reviewerId := Some(reviewerId));
      if AtMostOnePending(requests) {
        ReviewKeepsUnique(requests, i, reviewed);
      }
      ReviewAdvances(requests, i, reviewed);
      requests := requests[i := reviewed];
      persisted := requests;
      return Ok(reviewed);
    }

    /** `reject`: a pending request is marked rejected with the reviewer
        and the reason (which may be absent); no account is created. */
    method Reject(requestId: string, reviewerId: string, reason: Option<string>, reviewedAt: string)
      returns (r: Result<RegistrationRequest, RegistrationError>)
      requires Valid()
      modifies this`requests, this`persisted
      ensures Valid()
      ensures FindRequest(old(requests), requestId).None? ==> r == Err(RequestNotFound) && requests == old(requests)
      ensures FindRequest(old(requests), requestId).Some? ==>
                var i := FindRequest(old(requests), requestId).value;
                var q := old(requests)[i];
                if q.status != Pending then r == Err(AlreadyReviewed) && requests == old(requests)
                else
                  && r == Ok(q.(status := Rejected, reviewedAt := Some(reviewedAt),
                                reviewerId := Some(reviewerId), reason := reason))
                  && requests == old(requests)[i := r.value]
      ensures AtMostOnePending(old(requests)) ==> AtMostOnePending(requests)
      ensures Advances(old(requests), requests)
    {
      var found := FindRequest(requests, requestId);
      if found.None? {
        return Err(RequestNotFound);
      }
      var i := found.value;
      var request := requests[i];
      if request.status != Pending {
        return Err(AlreadyReviewed);
      }
      var reviewed := request.(status := Rejected, reviewedAt := Some(reviewedAt),
                               reviewerId := Some(reviewerId), reason := reason);
      if AtMostOnePending(requests) {
        ReviewKeepsUnique(requests, i, reviewed);
      }
      ReviewAdvances(requests, i, reviewed);
      requests := requests[i := reviewed];
      persisted := requests;
      return Ok(reviewed);
    }
  }
}
