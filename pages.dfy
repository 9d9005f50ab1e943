/** Serving a service's entry page with the session context embedded,
    and serving its static assets behind a path check. */
module Pages {
  import opened Wrappers
  import opened Types
  import Text
  import Paths
  import Access
  import Registry
  import Proxy

  const MARKER := "<!-- SERVICE_CONTEXT -->"
  const BODY_CLOSE := "</body>"

  /** `injectContext` on the text of the entry page. */
  function InjectContext(html: string, payload: string): (r: string)
    ensures Text.Contains(html, MARKER) ==>
              var i := Text.IndexOf(html, MARKER).value;
              r == html[..i] + payload + html[i + |MARKER|..]
    ensures !Text.Contains(html, MARKER) && Text.Contains(html, BODY_CLOSE) ==>
              var i := Text.IndexOf(html, BODY_CLOSE).value;
              r == html[..i] + payload + "\n" + html[i..]
    ensures !Text.Contains(html, MARKER) && !Text.Contains(html, BODY_CLOSE) ==>
              r == html + "\n" + payload
  {
    if Text.Contains(html, MARKER) then Text.ReplaceFirst(html, MARKER, payload)
    else if Text.Contains(html, BODY_CLOSE) then
      var r := Text.ReplaceFirst(html, BODY_CLOSE, payload + "\n" + BODY_CLOSE);
      ghost var i := Text.IndexOf(html, BODY_CLOSE).value;
      assert html[i..] == BODY_CLOSE + html[i + |BODY_CLOSE|..];
      r
    else html + "\n" + payload
  }

  /** Whatever the page looks like, the script ends up in it. */
  lemma InjectedPageHoldsPayload(html: string, payload: string)
    ensures Text.Contains(InjectContext(html, payload), payload)
  {
    var r := InjectContext(html, payload);
    if Text.Contains(html, MARKER) {
      var i := Text.IndexOf(html, MARKER).value;
      Text.OccursInMiddle(html[..i], payload, html[i + |MARKER|..]);
      Text.ContainsIff(r, payload);
    } else if Text.Contains(html, BODY_CLOSE) {
      var i := Text.IndexOf(html, BODY_CLOSE).value;
      assert r == html[..i] + payload + ("\n" + html[i..]);
      Text.OccursInMiddle(html[..i], payload, "\n" + html[i..]);
      Text.ContainsIff(r, payload);
    } else {
      Text.OccursInMiddle(html + "\n", payload, "");
      assert html + "\n" + payload + "" == r;
      Text.ContainsIff(r, payload);
    }
  }

  // ----- JSON.stringify of the context -----

  function HexDigit(n: nat): char
    requires n < 16
  {
    if n < 10 then ('0' as int + n) as char else ('a' as int + n - 10) as char
  }

  function HexValue(c: char): Option<nat> {
    if '0' <= c <= '9' then Some(c as int - '0' as int)
    else if 'a' <= c <= 'f' then Some(c as int - 'a' as int + 10)
    else if 'A' <= c <= 'F' then Some(c as int - 'A' as int + 10)
    else None
  }

  lemma HexRoundTrip(n: nat)
    requires n < 16
    ensures HexValue(HexDigit(n)) == Some(n)
  {
  }

  /** How `JSON.stringify` writes one character inside a string literal. */
  function EscapeChar(c: char): string {
    if c == '"' then ['\\', '"']
    else if c == '\\' then ['\\', '\\']
    else if c == '\U{8}' then ['\\', 'b']
    else if c == '\U{C}' then ['\\', 'f']
    else if c == '\n' then ['\\', 'n']
    else if c == '\r' then ['\\', 'r']
    else if c == '\t' then ['\\', 't']
    else if (c as int) < 0x20 then ['\\', 'u', '0', '0', HexDigit(c as int / 16), HexDigit(c as int % 16)]
    else [c]
  }

  function Escape(s: string): string {
    if |s| == 0 then "" else EscapeChar(s[0]) + Escape(s[1..])
  }

  /** A JSON string literal. */
  function Quote(s: string): string {
    "\"" + Escape(s) + "\""
  }

  /** Reading escapes back, as `JSON.parse` does inside a string literal. */
  function Unescape(s: string): string
    decreases |s|
  {
    if |s| == 0 then ""
    else if s[0] != '\\' || |s| < 2 then [s[0]] + Unescape(s[1..])
    else if s[1] == '"' then ['"'] + Unescape(s[2..])
    else if s[1] == '\\' then ['\\'] + Unescape(s[2..])
    else if s[1] == '/' then ['/'] + Unescape(s[2..])
    else if s[1] == 'b' then ['\U{8}'] + Unescape(s[2..])
    else if s[1] == 'f' then ['\U{C}'] + Unescape(s[2..])
    else if s[1] == 'n' then ['\n'] + Unescape(s[2..])
    else if s[1] == 'r' then ['\r'] + Unescape(s[2..])
    else if s[1] == 't' then ['\t'] + Unescape(s[2..])
    else if s[1] == 'u' && |s| >= 6 && HexValue(s[2]).Some? && HexValue(s[3]).Some?
            && HexValue(s[4]).Some? && HexValue(s[5]).Some? then
      var v := HexValue(s[2]).value * 4096 + HexValue(s[3]).value * 256
               + HexValue(s[4]).value * 16 + HexValue(s[5]).value;
      if v < 0xD800 || 0xE000 <= v < 0x11_0000 then [v as char] + Unescape(s[6..])
      else [s[0]] + Unescape(s[1..])
    else [s[0]] + Unescape(s[1..])
  }

  lemma UnescapeOneChar(c: char, rest: string)
    ensures Unescape(EscapeChar(c) + rest) == [c] + Unescape(rest)
  {
    var e := EscapeChar(c);
    var s := e + rest;
    if |e| == 1 {
      assert s[0] == c && s[1..] == rest;
    } else if |e| == 2 {
      assert s[0] == '\\' && s[1] == e[1] && s[2..] == rest;
    } else {
      var n := c as int;
      HexRoundTrip(n / 16);
      HexRoundTrip(n % 16);
      assert s[0] == '\\' && s[1] == 'u' && s[2] == '0' && s[3] == '0';
      assert s[4] == HexDigit(n / 16) && s[5] == HexDigit(n % 16);
      assert s[6..] == rest;
      assert HexValue('0') == Some(0);
      assert (n / 16) * 16 + n % 16 == n;
    }
  }

  /** Escaping loses nothing: every string is read back exactly. */
  lemma {:induction false} UnescapeEscape(s: string)
    ensures Unescape(Escape(s)) == s
  {
    if |s| > 0 {
      UnescapeEscape(s[1..]);
      UnescapeOneChar(s[0], Escape(s[1..]));
      assert [s[0]] + s[1..] == s;
    }
  }

  datatype ProxyInfo = ProxyInfo(path: string, target: Option<string>, rewrite: string)
  datatype ServiceInfo = ServiceInfo(id: string, name: string, description: Option<string>, proxy: ProxyInfo)
  /** The object placed in `window.__SERVICE_CONTEXT__`. */
  datatype PageContext = PageContext(service: ServiceInfo, user: AuthTokenPayload)

  /** The context literal: note that its `target` has no
      `http://localhost:4000` fallback, unlike the proxy's. */
  function BuildContext(service: ServiceRuntime, user: AuthTokenPayload, env: Registry.Env): (c: PageContext)
    ensures c.service.id == service.id && c.service.name == service.name
    ensures c.service.description == service.description && c.user == user
  {
    var target :=
      if service.proxyTarget.Some? then service.proxyTarget
      else if Proxy.PROXY_TARGET_VAR in env then Some(env[Proxy.PROXY_TARGET_VAR])
      else None;
    PageContext(
      ServiceInfo(service.id, service.name, service.description,
        ProxyInfo(Proxy.ApiPrefix(service.id), target, service.proxyRewrite.GetOr(Proxy.DEFAULT_REWRITE))),
      user)
  }

  function Member(key: string, value: string): string {
    Quote(key) + ":" + value
  }

  /** A member that `JSON.stringify` drops when its value is undefined. */
  function OptionalMember(key: string, value: Option<string>): string {
    if value.Some? then "," + Member(key, Quote(value.value)) else ""
  }

  function Items(xs: seq<string>): string {
    if |xs| == 0 then ""
    else if |xs| == 1 then Quote(xs[0])
    else Quote(xs[0]) + "," + Items(xs[1..])
  }

  function StringArray(xs: seq<string>): string {
    "[" + Items(xs) + "]"
  }

  function ProxyJson(p: ProxyInfo): string {
    "{" + Member("path", Quote(p.path)) + OptionalMember("target", p.target)
    + "," + Member("rewrite", Quote(p.rewrite)) + "}"
  }

  function ServiceJson(s: ServiceInfo): string {
    "{" + Member("id", Quote(s.id)) + "," + Member("name", Quote(s.name))
    + OptionalMember("description", s.description) + "," + Member("proxy", ProxyJson(s.proxy)) + "}"
  }

  function UserJson(u: AuthTokenPayload): string {
    "{" + Member("sub", Quote(u.sub)) + "," + Member("username", Quote(u.username))
    + "," + Member("roles", StringArray(u.roles)) + "," + Member("services", StringArray(u.services)) + "}"
  }

  function ContextJson(c: PageContext): string {
    "{" + Member("service", ServiceJson(c.service)) + "," + Member("user", UserJson(c.user)) + "}"
  }

  const SCRIPT_OPEN := "<script>window.__SERVICE_CONTEXT__="
  const SCRIPT_CLOSE := ";</script>"

  function PayloadScript(c: PageContext): string {
    SCRIPT_OPEN + ContextJson(c) + SCRIPT_CLOSE
  }

  /** The context a page advertises agrees with what the proxy does: a
      request under the advertised path is forwarded under the advertised
      rewrite, to the advertised target when one is shown. When neither the
      manifest nor the environment names a target, the page shows none
      while the proxy uses `http://localhost:4000`. */
  lemma ContextAgreesWithProxy(services: map<string, ServiceRuntime>, serviceId: string,
                               user: AuthTokenPayload, env: Registry.Env, rest: string)
    requires serviceId in services && services[serviceId].id == serviceId
    requires Access.CanAccess(user, services[serviceId])
    ensures var proxy := BuildContext(services[serviceId], user, env).service.proxy;
            var out := Proxy.Dispatch(services, serviceId, Some(user), env, proxy.path + rest);
            && out.Forward?
            && out.path == proxy.rewrite + rest
            && (proxy.target.Some? ==> out.target == proxy.target.value)
            && (proxy.target.None? ==> out.target == Proxy.FALLBACK_TARGET)
  {
    Proxy.AdmittedRequestForwarded(services, serviceId, user, env, rest);
  }

  datatype PageOutcome =
    | PageNotFound
    | PageDenied(decision: Access.Decision)
    | PageFailed
    | PageServed(html: string)
  {
    function Status(): int {
      if PageNotFound? then NOT_FOUND
      else if PageDenied? then (if decision.Admit? then INTERNAL_ERROR else decision.Status())
      else if PageFailed? then INTERNAL_ERROR
      else OK
    }
  }

  /** The handler on `/{serviceId}`; `readFile` is the file system, and a
      failed read goes to the error handler (500). */
  function ServePage(services: map<string, ServiceRuntime>, serviceId: string,
                     user: Option<AuthTokenPayload>, env: Registry.Env,
                     readFile: string -> Option<string>): (out: PageOutcome)
    ensures out.PageDenied? ==> !out.decision.Admit?
  {
    if serviceId !in services then PageNotFound
    else
      var service := services[serviceId];
      var decision := Access.EnsureServiceAccess(user, service);
      if !decision.Admit? then PageDenied(decision)
      else match readFile(service.absHtmlPath)
        case None => PageFailed
        case Some(html) => PageServed(InjectContext(html, PayloadScript(BuildContext(service, user.value, env))))
  }

  /** 404 for an unknown id comes before any access check; no identity is
      401 and no access 403; an admitted caller gets the entry page with
      the context injected, or 500 when it cannot be read; and a served
      page always carries the caller's context script. */
  lemma ServePageOutcomes(services: map<string, ServiceRuntime>, serviceId: string,
                          user: Option<AuthTokenPayload>, env: Registry.Env,
                          readFile: string -> Option<string>)
    ensures serviceId !in services ==> ServePage(services, serviceId, user, env, readFile).Status() == NOT_FOUND
    ensures user.None? && serviceId in services ==>
              ServePage(services, serviceId, user, env, readFile).Status() == UNAUTHORIZED
    ensures var out := ServePage(services, serviceId, user, env, readFile);
            out.PageServed? ==>
              && user.Some? && serviceId in services
              && Access.CanAccess(user.value, services[serviceId])
              && Text.Contains(out.html, PayloadScript(BuildContext(services[serviceId], user.value, env)))
    ensures serviceId in services && user.Some? && !Access.CanAccess(user.value, services[serviceId]) ==>
              ServePage(services, serviceId, user, env, readFile).Status() == FORBIDDEN
    ensures serviceId in services && user.Some? && Access.CanAccess(user.value, services[serviceId]) ==>
              var service := services[serviceId];
              match readFile(service.absHtmlPath)
              case None => ServePage(services, serviceId, user, env, readFile) == PageFailed
              case Some(html) =>
                ServePage(services, serviceId, user, env, readFile)
                == PageServed(InjectContext(html, PayloadScript(BuildContext(service, user.value, env))))
  {
    var out := ServePage(services, serviceId, user, env, readFile);
    if out.PageServed? {
      var service := services[serviceId];
      InjectedPageHoldsPayload(readFile(service.absHtmlPath).value, PayloadScript(BuildContext(service, user.value, env)));
    }
  }

  // ----- static assets -----

  /** The guard as written: the normalised path must start with the
      distribution directory, as a string. */
  predicate AssetGuard(finalPath: string, distDir: string) {
    Text.StartsWith(finalPath, distDir)
  }

  datatype AssetOutcome =
    | AssetNotFound
    | AssetDenied(decision: Access.Decision)
    | BadAssetPath
    | SendAsset(path: string)
  {
    function Status(): int {
      if AssetNotFound? then NOT_FOUND
      else if AssetDenied? then (if decision.Admit? then INTERNAL_ERROR else decision.Status())
      else if BadAssetPath? then BAD_REQUEST
      else OK
    }
  }

  function DistDir(service: ServiceRuntime): string {
    Paths.Dirname(service.absScriptPath)
  }

  /** The handler on `/services-assets/{serviceId}/...`. */
  function ServeAsset(services: map<string, ServiceRuntime>, serviceId: string,
                      user: Option<AuthTokenPayload>, assetPath: string): (out: AssetOutcome)
    ensures out.AssetDenied? ==> !out.decision.Admit?
  {
    if serviceId !in services then AssetNotFound
    else
      var service := services[serviceId];
      var decision := Access.EnsureServiceAccess(user, service);
      if !decision.Admit? then AssetDenied(decision)
      else
        var distDir := DistDir(service);
        var finalPath := Paths.Join(distDir, assetPath);
        if !AssetGuard(finalPath, distDir) then BadAssetPath else SendAsset(finalPath)
  }

  /** The distribution directory is always a normalised path. */
  lemma DistDirCanonical(service: ServiceRuntime)
    ensures var segs := Paths.Canon(service.absScriptPath);
            var ds := if |segs| == 0 then [] else segs[..|segs| - 1];
            Paths.Canonical(ds) && DistDir(service) == Paths.Render(ds)
  {
    Paths.SplitSlashFree(service.absScriptPath);
  }

  /** 404 for an unknown id before any access check; a file is sent only
      to an admitted caller and only after the guard passed. */
  lemma ServeAssetOutcomes(services: map<string, ServiceRuntime>, serviceId: string,
                           user: Option<AuthTokenPayload>, assetPath: string)
    ensures serviceId !in services ==> ServeAsset(services, serviceId, user, assetPath).Status() == NOT_FOUND
    ensures var out := ServeAsset(services, serviceId, user, assetPath);
            out.SendAsset? ==>
              && user.Some? && serviceId in services
              && Access.CanAccess(user.value, services[serviceId])
              && out.path == Paths.Join(DistDir(services[serviceId]), assetPath)
              && AssetGuard(out.path, DistDir(services[serviceId]))
  {
  }

  /** A sub-path that never steps up with `..` passes the guard. */
  lemma PlainAssetServed(services: map<string, ServiceRuntime>, serviceId: string,
                         user: AuthTokenPayload, assetPath: string)
    requires serviceId in services && Access.CanAccess(user, services[serviceId])
    requires Paths.NoParentSteps(Paths.Split(assetPath))
    ensures ServeAsset(services, serviceId, Some(user), assetPath).SendAsset?
  {
    var service := services[serviceId];
    DistDirCanonical(service);
    var segs := Paths.Canon(service.absScriptPath);
    var ds := if |segs| == 0 then [] else segs[..|segs| - 1];
    Paths.JoinBelow(ds, assetPath);
    Paths.RenderExtends(ds, Paths.Canon(assetPath));
  }

  /** What the string-prefix test decides for one step up: from the
      directory `.../n`, the asset `../x` resolves to the sibling `.../x`,
      and it is served exactly when the name `x` starts with `n`. So
      `../etc` is refused, but `../dist-old` from `dist` is served. */
  lemma ParentStepGuard(parent: seq<string>, n: string, x: string)
    requires Paths.Canonical(parent) && Paths.Plain(n) && Paths.Plain(x)
    ensures var distDir := Paths.Render(parent + [n]);
            var finalPath := Paths.Join(distDir, "../" + x);
            finalPath == Paths.Render(parent + [x])
            && (AssetGuard(finalPath, distDir) <==> Text.StartsWith(x, n))
  {
    Paths.ParentThenChild(parent, n, x);
    Paths.RenderChild(parent, n);
    Paths.RenderChild(parent, x);
    Text.StartsWithAfterCommon(Paths.RenderSegs(parent), "/" + x, "/" + n);
    Text.StartsWithAfterCommon("/", x, n);
  }

  /** Containment, descendants of the dist directory only: the normalised path lies
      in the directory or below it, compared segment by segment. */
  predicate WithinDir(finalPath: string, distDir: string) {
    var ds := Paths.Canon(distDir);
    var fs := Paths.Canon(finalPath);
    |ds| <= |fs| && fs[..|ds|] == ds
  }

  /** The corrected guard never serves more than the one as written. */
  lemma WithinDirPassesGuard(service: ServiceRuntime, assetPath: string)
    ensures var distDir := DistDir(service);
            var finalPath := Paths.Join(distDir, assetPath);
            WithinDir(finalPath, distDir) ==> AssetGuard(finalPath, distDir)
  {
    var distDir := DistDir(service);
    var finalPath := Paths.Join(distDir, assetPath);
    DistDirCanonical(service);
    var segs := Paths.Canon(service.absScriptPath);
    var ds := if |segs| == 0 then [] else segs[..|segs| - 1];
    Paths.CanonOfRender(ds);
    var raw := Paths.Canon(distDir + "/" + assetPath);
    Paths.CanonNormalize(distDir + "/" + assetPath);
    if WithinDir(finalPath, distDir) {
      Paths.PrefixRendersPrefix(ds, raw);
    }
  }

  /** The corrected guard keeps serving every sub-path without `..`. */
  lemma WithinDirAdmitsPlainPaths(service: ServiceRuntime, assetPath: string)
    requires Paths.NoParentSteps(Paths.Split(assetPath))
    ensures WithinDir(Paths.Join(DistDir(service), assetPath), DistDir(service))
  {
    var distDir := DistDir(service);
    DistDirCanonical(service);
    var segs := Paths.Canon(service.absScriptPath);
    var ds := if |segs| == 0 then [] else segs[..|segs| - 1];
    Paths.CanonOfRender(ds);
    Paths.CanonNormalize(distDir + "/" + assetPath);
    Paths.JoinBelow(ds, assetPath);
    assert (ds + Paths.Canon(assetPath))[..|ds|] == ds;
  }

  /** The string-prefix guard serves a sibling directory whose name
      extends the distribution directory's: from `.../n`, the asset
      `../` + n + t lands outside the directory and is still served. The
      segment-wise check refuses it. */
  lemma SiblingPrefixEscapes(parent: seq<string>, n: string, t: string)
    requires Paths.Canonical(parent) && Paths.Plain(n)
    requires |t| > 0 && '/' !in t
    ensures var distDir := Paths.Render(parent + [n]);
            var finalPath := Paths.Join(distDir, "../" + n + t);
            AssetGuard(finalPath, distDir) && !WithinDir(finalPath, distDir)
  {
    var x := n + t;
    assert '/' !in x by {
      assert forall i :: 0 <= i < |x| ==> x[i] == (if i < |n| then n[i] else t[i - |n|]);
    }
    assert Paths.Plain(x) by {
      assert |x| >= 2;
      assert x[..|n|] == n;
    }
    assert Text.StartsWith(x, n) by { assert x[..|n|] == n; }
    assert "../" + n + t == "../" + x;
    ParentStepGuard(parent, n, x);
    var ds := parent + [n];
    var fs := parent + [x];
    Paths.CanonOfRender(ds);
    assert Paths.Canonical(fs) by {
      assert forall i :: 0 <= i < |parent| ==> fs[i] == parent[i];
    }
    Paths.CanonOfRender(fs);
    assert fs[|parent|] == x != n;
    assert fs[..|ds|] != ds by { assert fs[..|ds|][|parent|] == x; }
  }

  /** The asset handler with the segment-wise containment check in place
      of the string-prefix test. */
  function ServeAssetContained(services: map<string, ServiceRuntime>, serviceId: string,
                               user: Option<AuthTokenPayload>, assetPath: string): (out: AssetOutcome)
    ensures out.AssetDenied? ==> !out.decision.Admit?
    ensures out.SendAsset? ==> serviceId in services && WithinDir(out.path, DistDir(services[serviceId]))
  {
    if serviceId !in services then AssetNotFound
    else
      var service := services[serviceId];
      var decision := Access.EnsureServiceAccess(user, service);
      if !decision.Admit? then AssetDenied(decision)
      else
        var distDir := DistDir(service);
        var finalPath := Paths.Join(distDir, assetPath);
        if !WithinDir(finalPath, distDir) then BadAssetPath else SendAsset(finalPath)
  }

  /** The contained handler serves only what the handler as written
      serves, still serves every sub-path without `..`, and agrees with it
      on everything but the path check. */
  lemma ContainedHandlerRefinesGuard(services: map<string, ServiceRuntime>, serviceId: string,
                                     user: Option<AuthTokenPayload>, assetPath: string)
    ensures var fixed := ServeAssetContained(services, serviceId, user, assetPath);
            var asWritten := ServeAsset(services, serviceId, user, assetPath);
            && (fixed.SendAsset? ==> asWritten == fixed)
            && (!asWritten.SendAsset? && !asWritten.BadAssetPath? ==> fixed == asWritten)
    ensures Paths.NoParentSteps(Paths.Split(assetPath)) && serviceId in services
            && user.Some? && Access.CanAccess(user.value, services[serviceId]) ==>
              ServeAssetContained(services, serviceId, user, assetPath).SendAsset?
  {
    if serviceId in services {
      WithinDirPassesGuard(services[serviceId], assetPath);
      if Paths.NoParentSteps(Paths.Split(assetPath)) {
        WithinDirAdmitsPlainPaths(services[serviceId], assetPath);
      }
    }
  }
}
