/** The decisions of `buildServiceProxy`: look the service up, check
    access, pick the upstream target and rewrite the forwarded path. The
    forwarding itself (headers, streaming, upstream errors) is not modelled. */
module Proxy {
  import opened Wrappers
  import opened Types
  import Text
  import Access
  import Registry

  const PROXY_TARGET_VAR := "API_PROXY_TARGET"
  const FALLBACK_TARGET := "http://localhost:4000"
  const DEFAULT_REWRITE := "/api"

  /** `process.env.API_PROXY_TARGET ?? 'http://localhost:4000'`. */
  function DefaultTarget(env: Registry.Env): string {
    if PROXY_TARGET_VAR in env then env[PROXY_TARGET_VAR] else FALLBACK_TARGET
  }

  function Target(service: ServiceRuntime, env: Registry.Env): string {
    service.proxyTarget.GetOr(DefaultTarget(env))
  }

  function RewriteBase(service: ServiceRuntime): string {
    service.proxyRewrite.GetOr(DEFAULT_REWRITE)
  }

  /** The mount prefix of a service's API: `/{id}/api`. */
  function ApiPrefix(serviceId: string): string {
    "/" + serviceId + "/api"
  }

  /** `pathRewrite`: `path.replace('/{id}/api', rewriteBase)`. */
  function RewritePath(path: string, serviceId: string, rewriteBase: string): (r: string)
    ensures !Text.Contains(path, ApiPrefix(serviceId)) ==> r == path
    ensures Text.Contains(path, ApiPrefix(serviceId)) ==>
              var i := Text.IndexOf(path, ApiPrefix(serviceId)).value;
              r == path[..i] + rewriteBase + path[i + |ApiPrefix(serviceId)|..]
  {
    Text.ReplaceFirst(path, ApiPrefix(serviceId), rewriteBase)
  }

  datatype ProxyOutcome =
    | ServiceNotFound
    | Denied(decision: Access.Decision)
    | Forward(target: string, path: string)
  {
    function Status(): int
      requires !Forward?
    {
      if ServiceNotFound? then NOT_FOUND
      else if decision.Admit? then INTERNAL_ERROR
      else decision.Status()
    }
  }

  /** The request handler on `/{serviceId}/api/...`. */
  function Dispatch(services: map<string, ServiceRuntime>, serviceId: string,
                    user: Option<AuthTokenPayload>, env: Registry.Env, path: string): (out: ProxyOutcome)
    ensures out.Denied? ==> !out.decision.Admit?
  {
    if serviceId !in services then ServiceNotFound
    else
      var service := services[serviceId];
      var decision := Access.EnsureServiceAccess(user, service);
      if !decision.Admit? then Denied(decision)
      else Forward(Target(service, env), RewritePath(path, serviceId, RewriteBase(service)))
  }

  /** An unknown service is 404 whoever asks: no access check runs. */
  lemma UnknownServiceIs404(services: map<string, ServiceRuntime>, serviceId: string,
                            u1: Option<AuthTokenPayload>, u2: Option<AuthTokenPayload>,
                            env: Registry.Env, path: string)
    requires serviceId !in services
    ensures Dispatch(services, serviceId, u1, env, path) == ServiceNotFound
    ensures Dispatch(services, serviceId, u1, env, path) == Dispatch(services, serviceId, u2, env, path)
    ensures Dispatch(services, serviceId, u1, env, path).Status() == NOT_FOUND
  {
  }

  /** A request reaches the upstream only when the service exists and
      the caller is admitted; otherwise it gets 401 or 403. */
  lemma ForwardOnlyWhenAdmitted(services: map<string, ServiceRuntime>, serviceId: string,
                                user: Option<AuthTokenPayload>, env: Registry.Env, path: string)
    ensures var out := Dispatch(services, serviceId, user, env, path);
            out.Forward? <==> serviceId in services && Access.EnsureServiceAccess(user, services[serviceId]).Admit?
    ensures var out := Dispatch(services, serviceId, user, env, path);
            out.Denied? ==> out.Status() == Access.EnsureServiceAccess(user, services[serviceId]).Status()
  {
  }

  /** The upstream is the manifest's target, else the environment's, else
      `http://localhost:4000`. */
  lemma TargetFallback(service: ServiceRuntime, env: Registry.Env)
    ensures service.proxyTarget.Some? ==> Target(service, env) == service.proxyTarget.value
    ensures service.proxyTarget.None? && PROXY_TARGET_VAR in env ==> Target(service, env) == env[PROXY_TARGET_VAR]
    ensures service.proxyTarget.None? && PROXY_TARGET_VAR !in env ==> Target(service, env) == "http://localhost:4000"
  {
  }

  /** The target of a loaded service: a literal manifest target is used
      as written, an absent one falls back to the environment. */
  lemma LoadedTargetLiteral(def: ServiceDefinition, serviceDir: string, env: Registry.Env)
    requires def.proxyTarget.None? || !Registry.HasOpening(def.proxyTarget.value)
    ensures def.proxyTarget.Some? ==> Target(Registry.ToRuntime(def, serviceDir, env), env) == def.proxyTarget.value
    ensures def.proxyTarget.None? ==> Target(Registry.ToRuntime(def, serviceDir, env), env) == DefaultTarget(env)
  {
    if def.proxyTarget.Some? && def.proxyTarget.value != "" {
      Registry.LiteralUnchanged(def.proxyTarget.value, env);
    }
  }

  /** A manifest target `${KEY}` sends requests to the environment's
      value of `KEY`, taken as it is. */
  lemma LoadedTargetPlaceholder(def: ServiceDefinition, serviceDir: string, key: string, env: Registry.Env)
    requires Registry.KeyText(key) && key in env
    requires def.proxyTarget == Some("${" + key + "}")
    ensures Target(Registry.ToRuntime(def, serviceDir, env), env) == env[key]
  {
    Registry.SinglePass(key, env);
  }

  /** The rewrite base is the manifest's, else `/api`. */
  lemma RewriteBaseDefault(service: ServiceRuntime)
    ensures service.proxyRewrite.None? ==> RewriteBase(service) == "/api"
    ensures service.proxyRewrite.Some? ==> RewriteBase(service) == service.proxyRewrite.value
  {
  }

  /** `/{id}/api` + rest goes upstream as rewriteBase + rest. */
  lemma PrefixRewritten(serviceId: string, rest: string, rewriteBase: string)
    ensures RewritePath(ApiPrefix(serviceId) + rest, serviceId, rewriteBase) == rewriteBase + rest
  {
    Text.ReplacePrefix(ApiPrefix(serviceId), rest, rewriteBase);
  }

  lemma ExampleRewrite()
    ensures RewritePath("/svcA/api/foo?q=1", "svcA", "/v2") == "/v2/foo?q=1"
  {
    var rest := "/foo?q=1";
    assert ApiPrefix("svcA") + rest == "/svcA/api/foo?q=1";
    PrefixRewritten("svcA", rest, "/v2");
    assert "/v2" + rest == "/v2/foo?q=1";
  }

  /** Only the first occurrence is replaced: a later copy of the prefix
      inside the rest of the path is forwarded untouched. */
  lemma OnlyFirstOccurrence(serviceId: string, rest: string, rewriteBase: string)
    ensures var p := ApiPrefix(serviceId);
            RewritePath(p + rest + p, serviceId, rewriteBase) == rewriteBase + rest + p
  {
    var p := ApiPrefix(serviceId);
    assert p + rest + p == p + (rest + p);
    PrefixRewritten(serviceId, rest + p, rewriteBase);
  }

  /** A full request to an admitted service forwards the remainder of the
      path under the service's rewrite base. */
  lemma AdmittedRequestForwarded(services: map<string, ServiceRuntime>, serviceId: string,
                                 user: AuthTokenPayload, env: Registry.Env, rest: string)
    requires serviceId in services && Access.CanAccess(user, services[serviceId])
    ensures Dispatch(services, serviceId, Some(user), env, ApiPrefix(serviceId) + rest)
            == Forward(Target(services[serviceId], env), RewriteBase(services[serviceId]) + rest)
  {
    PrefixRewritten(serviceId, rest, RewriteBase(services[serviceId]));
  }
}
