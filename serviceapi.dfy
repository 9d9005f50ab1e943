/** The service API: the list of services a caller may open, with links
    to each one's documents, and the document endpoint. */
module ServiceApi {
  import opened Wrappers
  import opened Types
  import Seqs
  import Access

  datatype DocLinks = DocLinks(api: string, plan: string, workblook: string)

  /** One entry of the service list: no paths, roles or proxy settings. */
  datatype ServiceSummary = ServiceSummary(id: string, name: string, description: Option<string>, docs: DocLinks)

  /** The list filter as the route writes it: a shared role, a grant, or
      the admin role. */
  predicate Listed(user: AuthTokenPayload, service: ServiceRuntime) {
    var hasRole := exists i :: 0 <= i < |service.requiredRoles| && service.requiredRoles[i] in user.roles;
    var hasService := service.id in user.services;
    hasRole || hasService || ADMIN_ROLE in user.roles
  }

  /** The list shows exactly the services the access rule admits. */
  lemma ListedIsAccessRule(user: AuthTokenPayload, service: ServiceRuntime)
    ensures Listed(user, service) <==> Access.EnsureServiceAccess(Some(user), service) == Access.Admit
  {
  }

  function DocUrl(serviceId: string, docType: string): string {
    "/api/services/" + serviceId + "/docs/" + docType
  }

  function Summary(service: ServiceRuntime): (s: ServiceSummary)
    ensures s.id == service.id && s.name == service.name && s.description == service.description
    ensures s.docs == DocLinks(DocUrl(service.id, "api"), DocUrl(service.id, "plan"), DocUrl(service.id, "workblook"))
  {
    ServiceSummary(service.id, service.name, service.description,
      DocLinks(DocUrl(service.id, "api"), DocUrl(service.id, "plan"), DocUrl(service.id, "workblook")))
  }

  /** The services the caller may see, in registry order. */
  function Visible(services: seq<ServiceRuntime>, user: AuthTokenPayload): seq<ServiceRuntime> {
    Seqs.Filter(services, (s: ServiceRuntime) => Listed(user, s))
  }

  function Summaries(services: seq<ServiceRuntime>): (r: seq<ServiceSummary>)
    ensures |r| == |services|
    ensures forall k :: 0 <= k < |r| ==> r[k] == Summary(services[k])
  {
    if |services| == 0 then [] else [Summary(services[0])] + Summaries(services[1..])
  }

  /** `GET /api/services`. */
  function AccessibleServices(services: seq<ServiceRuntime>, user: AuthTokenPayload): (r: seq<ServiceSummary>)
    ensures |r| == |Visible(services, user)| <= |services|
    ensures forall k :: 0 <= k < |r| ==> r[k].id == Visible(services, user)[k].id
    ensures forall k :: 0 <= k < |r| ==> r[k] == Summary(Visible(services, user)[k])
    ensures forall k :: 0 <= k < |r| ==> Visible(services, user)[k] in services
    ensures forall k :: 0 <= k < |r| ==> Access.CanAccess(user, Visible(services, user)[k])
  {
    var v := Visible(services, user);
    assert forall k :: 0 <= k < |v| ==> v[k] in v;
    Summaries(v)
  }

  /** A service is shown exactly when the caller may open it. */
  lemma ShownIffAdmitted(services: seq<ServiceRuntime>, user: AuthTokenPayload, service: ServiceRuntime)
    requires service in services
    ensures service in Visible(services, user) <==> Access.CanAccess(user, service)
  {
    Seqs.FilterKeepsMatches(services, (s: ServiceRuntime) => Listed(user, s));
  }

  /** Registry order is kept: the list of a concatenation is the
      concatenation of the lists. */
  lemma {:induction false} ListKeepsOrder(a: seq<ServiceRuntime>, b: seq<ServiceRuntime>, user: AuthTokenPayload)
    ensures AccessibleServices(a + b, user) == AccessibleServices(a, user) + AccessibleServices(b, user)
  {
    Seqs.FilterConcat(a, b, (s: ServiceRuntime) => Listed(user, s));
    var va := Visible(a, user);
    var vb := Visible(b, user);
    SummariesConcat(va, vb);
  }

  lemma SummariesConcat(a: seq<ServiceRuntime>, b: seq<ServiceRuntime>)
    ensures Summaries(a + b) == Summaries(a) + Summaries(b)
  {
  }

  /** `mapping[req.params.docType]`: a falsy (absent or empty) path is an
      unknown document type. */
  function DocPath(service: ServiceRuntime, docType: string): (p: Option<string>)
    ensures p.Some? ==> docType in {"api", "plan", "workblook"}
    ensures docType == "api" ==> p == Some(service.apiDocPath)
    ensures docType == "plan" ==> p == Some(service.planPath)
    ensures docType == "workblook" ==> p == Some(service.workblookPath)
  {
    if docType == "api" then Some(service.apiDocPath)
    else if docType == "plan" then Some(service.planPath)
    else if docType == "workblook" then Some(service.workblookPath)
    else None
  }

  datatype DocsOutcome =
    | DocsServiceNotFound
    | DocsDenied(decision: Access.Decision)
    | UnknownDocType
    | DocumentMissing
    | SendDocument(path: string)
  {
    function Status(): int {
      if DocsServiceNotFound? || UnknownDocType? || DocumentMissing? then NOT_FOUND
      else if DocsDenied? then (if decision.Admit? then INTERNAL_ERROR else decision.Status())
      else OK
    }
  }

  /** `GET /api/services/{serviceId}/docs/{docType}`; `fileExists` is the
      file-system check. */
  function Docs(services: map<string, ServiceRuntime>, serviceId: string, docType: string,
                user: Option<AuthTokenPayload>, fileExists: string -> bool): (out: DocsOutcome)
    ensures out.DocsDenied? ==> !out.decision.Admit?
  {
    if serviceId !in services then DocsServiceNotFound
    else
      var service := services[serviceId];
      var decision := Access.EnsureServiceAccess(user, service);
      if !decision.Admit? then DocsDenied(decision)
      else
        var path := DocPath(service, docType);
        if path.None? || path.value == "" then UnknownDocType
        else if !fileExists(path.value) then DocumentMissing
        else SendDocument(path.value)
  }

  /** 404 for an unknown service, an unknown type or a missing file; 401
      without identity and 403 without access; an admitted caller asking
      for a known type whose file exists is sent exactly that file, and a
      document is sent only to an admitted caller. */
  lemma DocsOutcomes(services: map<string, ServiceRuntime>, serviceId: string, docType: string,
                     user: Option<AuthTokenPayload>, fileExists: string -> bool)
    ensures serviceId !in services ==> Docs(services, serviceId, docType, user, fileExists).Status() == NOT_FOUND
    ensures serviceId in services && user.Some? && Access.CanAccess(user.value, services[serviceId])
            && docType !in {"api", "plan", "workblook"} ==>
              Docs(services, serviceId, docType, user, fileExists) == UnknownDocType
    ensures var out := Docs(services, serviceId, docType, user, fileExists);
            out.SendDocument? ==>
              && serviceId in services && user.Some?
              && Access.CanAccess(user.value, services[serviceId])
              && Some(out.path) == DocPath(services[serviceId], docType)
              && fileExists(out.path)
    ensures var out := Docs(services, serviceId, docType, user, fileExists);
            out.DocumentMissing? ==> !fileExists(DocPath(services[serviceId], docType).value)
    ensures serviceId in services && user.None? ==>
              Docs(services, serviceId, docType, user, fileExists) == DocsDenied(Access.Unauthenticated)
    ensures serviceId in services && user.Some? && !Access.CanAccess(user.value, services[serviceId]) ==>
              Docs(services, serviceId, docType, user, fileExists) == DocsDenied(Access.Forbidden)
    ensures serviceId in services && user.Some? && Access.CanAccess(user.value, services[serviceId])
            && DocPath(services[serviceId], docType).Some? ==>
              var path := DocPath(services[serviceId], docType).value;
              && (path != "" && fileExists(path) ==> Docs(services, serviceId, docType, user, fileExists) == SendDocument(path))
              && (path != "" && !fileExists(path) ==> Docs(services, serviceId, docType, user, fileExists) == DocumentMissing)
  {
  }
}
