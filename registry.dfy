/** The service registry: manifests found in the services directory,
    `${VAR}` substitution in `proxyTarget`, the runtime form of each
    manifest, the load loop that skips bad manifests, and the
    field-restricted `updateService`. */
module Registry {
  import opened Wrappers
  import opened Types
  import Paths
  import Seqs

  /** `process.env`. */
  type Env = map<string, string>

  /** The characters `.` does not match in a JavaScript regular expression. */
  predicate IsLineTerminator(c: char) {
    c == '\n' || c == '\r' || c == '\U{2028}' || c == '\U{2029}'
  }

  /** A placeholder key: what the lazy `(.*?)` between `${` and `}` can capture. */
  predicate KeyText(key: string) {
    forall i :: 0 <= i < |key| ==> key[i] != '}' && !IsLineTerminator(key[i])
  }

  /** The closing `}` of a placeholder whose key starts at `k`: the first
      `}`, provided no line terminator comes before it. */
  function KeyEnd(s: string, k: nat): (r: Option<nat>)
    decreases |s| - k
    ensures r.Some? ==> k <= r.value < |s| && s[r.value] == '}'
    ensures r.Some? ==> KeyText(s[k..r.value])
  {
    if k >= |s| then None
    else if s[k] == '}' then Some(k)
    else if IsLineTerminator(s[k]) then None
    else
      var r := KeyEnd(s, k + 1);
      assert r.Some? ==> s[k..r.value] == [s[k]] + s[k + 1..r.value];
      r
  }

  /** `process.env[key] ?? ''`. */
  function Lookup(env: Env, key: string): string {
    if key in env then env[key] else ""
  }

  /** One left-to-right pass of `replace(/\$\{(.*?)\}/g, ...)`. */
  function Substitute(s: string, env: Env): string
    decreases |s|
  {
    if |s| == 0 then ""
    else if |s| >= 2 && s[0] == '$' && s[1] == '{' && KeyEnd(s, 2).Some? then
      var j := KeyEnd(s, 2).value;
      Lookup(env, s[2..j]) + Substitute(s[j + 1..], env)
    else [s[0]] + Substitute(s[1..], env)
  }

  /** `injectEnv`: an absent or empty template is returned as it is. */
  function InjectEnv(template: Option<string>, env: Env): (r: Option<string>)
    ensures template.None? || template.value == "" ==> r == template
    ensures r.Some? <==> template.Some?
  {
    if template.None? || template.value == "" then template
    else Some(Substitute(template.value, env))
  }

  /** Some `${` opens in `s`. */
  predicate HasOpening(s: string)
    decreases |s|
  {
    |s| >= 2 && ((s[0] == '$' && s[1] == '{') || HasOpening(s[1..]))
  }

  lemma {:induction false} KeyEndAt(s: string, k: nat, key: string)
    requires KeyText(key)
    requires k + |key| < |s| && s[k..k + |key|] == key && s[k + |key|] == '}'
    ensures KeyEnd(s, k) == Some(k + |key|)
    decreases |key|
  {
    if |key| > 0 {
      assert s[k] == key[0];
      assert s[k + 1..k + 1 + |key[1..]|] == key[1..];
      KeyEndAt(s, k + 1, key[1..]);
    }
  }

  /** A character that does not open a placeholder is copied. */
  lemma CopiedChar(s: string, env: Env)
    requires |s| > 0 && !(|s| >= 2 && s[0] == '$' && s[1] == '{')
    ensures Substitute(s, env) == [s[0]] + Substitute(s[1..], env)
  {
  }

  /** Text without `${` passes through unchanged. */
  lemma {:induction false} LiteralUnchanged(s: string, env: Env)
    requires !HasOpening(s)
    ensures Substitute(s, env) == s
    decreases |s|
  {
    if |s| > 0 {
      LiteralUnchanged(s[1..], env);
      CopiedChar(s, env);
      assert [s[0]] + s[1..] == s;
    }
  }

  lemma PlaceholderFirst(key: string, rest: string, env: Env)
    requires KeyText(key)
    ensures Substitute("${" + key + "}" + rest, env) == Lookup(env, key) + Substitute(rest, env)
  {
    var s := "${" + key + "}" + rest;
    assert s[0] == '$' && s[1] == '{';
    assert s[2..2 + |key|] == key;
    assert s[2 + |key|] == '}';
    KeyEndAt(s, 2, key);
    assert s[2 + |key| + 1..] == rest;
  }

  /** A character in front of text that does not open a placeholder with
      it is copied. */
  lemma CopiedFront(c: char, u: string, env: Env)
    requires c == '$' ==> |u| == 0 || u[0] != '{'
    ensures Substitute([c] + u, env) == [c] + Substitute(u, env)
  {
    CopiedChar([c] + u, env);
    assert ([c] + u)[1..] == u;
  }

  /** A literal stretch that cannot close an opening with the text after
      it does not start a placeholder. */
  lemma FrontIsLiteral(lit: string, t: string)
    requires |lit| > 0 && !HasOpening(lit)
    requires lit[|lit| - 1] == '$' ==> |t| == 0 || t[0] != '{'
    ensures var u := lit[1..] + t; lit[0] == '$' ==> |u| == 0 || u[0] != '{'
  {
    var u := lit[1..] + t;
    if lit[0] == '$' && |u| > 0 {
      if |lit| >= 2 {
        assert u[0] == lit[1];
      } else {
        assert u[0] == t[0];
      }
    }
  }

  /** One literal character in front of both sides of `LiteralPrefix`. */
  lemma LiteralPrefixStep(c: char, rest: string, t: string, env: Env)
    requires Substitute(rest + t, env) == rest + Substitute(t, env)
    requires c == '$' ==> |rest + t| == 0 || (rest + t)[0] != '{'
    ensures Substitute([c] + (rest + t), env) == [c] + rest + Substitute(t, env)
  {
    CopiedFront(c, rest + t, env);
    assert [c] + (rest + Substitute(t, env)) == [c] + rest + Substitute(t, env);
  }

  lemma ConsFront(s: string, t: string)
    requires |s| > 0
    ensures s == [s[0]] + s[1..] && s + t == [s[0]] + (s[1..] + t)
  {
  }

  /** A literal stretch is copied as it is, provided it does not end in a
      `$` that the following text turns into an opening. */
  lemma {:induction false} LiteralPrefix(lit: string, t: string, env: Env)
    requires !HasOpening(lit)
    requires |lit| > 0 && lit[|lit| - 1] == '$' ==> |t| == 0 || t[0] != '{'
    ensures Substitute(lit + t, env) == lit + Substitute(t, env)
    decreases |lit|
  {
    if |lit| == 0 {
      assert lit + t == t;
    } else {
      var rest := lit[1..];
      assert |rest| > 0 ==> rest[|rest| - 1] == lit[|lit| - 1];
      LiteralPrefix(rest, t, env);
      FrontIsLiteral(lit, t);
      LiteralPrefixStep(lit[0], rest, t, env);
      ConsFront(lit, t);
    }
  }

  /** The placeholder after a literal stretch is replaced by its value (or
      by nothing), the literal kept as it is, and scanning resumes after
      the `}`. */
  lemma PlaceholderReplaced(lit: string, key: string, rest: string, env: Env)
    requires !HasOpening(lit) && KeyText(key)
    ensures Substitute(lit + "${" + key + "}" + rest, env) == lit + Lookup(env, key) + Substitute(rest, env)
  {
    PlaceholderText(lit, key, rest);
    LiteralPrefix(lit, "${" + key + "}" + rest, env);
    PlaceholderFirst(key, rest, env);
    Regroup(lit, Lookup(env, key), Substitute(rest, env));
  }

  lemma PlaceholderText(lit: string, key: string, rest: string)
    ensures lit + "${" + key + "}" + rest == lit + ("${" + key + "}" + rest)
    ensures ("${" + key + "}" + rest)[0] == '$'
  {
  }

  lemma Regroup(a: string, b: string, c: string)
    ensures a + (b + c) == a + b + c
  {
  }

  /** Single pass: a value that itself looks like a placeholder is
      inserted literally, not expanded again. */
  lemma SinglePass(key: string, env: Env)
    requires KeyText(key) && key in env
    ensures InjectEnv(Some("${" + key + "}"), env) == Some(env[key])
  {
    PlaceholderFirst(key, "", env);
    assert "${" + key + "}" + "" == "${" + key + "}";
    assert Lookup(env, key) + Substitute("", env) == env[key];
  }

  lemma SelfReferenceNotExpanded()
    ensures InjectEnv(Some("${A}"), map["A" := "${A}"]) == Some("${A}")
  {
    SinglePass("A", map["A" := "${A}"]);
    assert "${" + "A" + "}" == "${A}";
  }

  /** A manifest's `service.config.json`, as the loader finds it. A file
      that parses to something other than an object counts as unparseable;
      `IllTyped` is an object, with the `id` it declares, on which
      `toRuntime` throws: its `entryHtml` or `entryScript` is not a string
      (`path.join` rejects it), or its `proxyTarget` is truthy but not a
      string (`injectEnv` calls `replace` on it). */
  datatype ConfigFile =
    | NoConfig
    | Unreadable
    | Unparseable
    | Parsed(def: ServiceDefinition)
    | IllTyped(id: string)

  /** One entry of the services directory. */
  datatype DirEntry = DirEntry(name: string, isDirectory: bool, config: ConfigFile)

  const CONFIG_FILE := "service.config.json"
  const API_DOC_FILE := "API_DOCUMENT.md"
  const PLAN_FILE := "PLAN.md"
  const WORKBLOOK_FILE := "WORKBLOOK.md"

  /** `toRuntime`: required roles default to none, `proxyTarget` has its
      placeholders substituted, paths are resolved against the service's
      directory, and every other manifest field is carried over. */
  function ToRuntime(def: ServiceDefinition, serviceDir: string, env: Env): (rt: ServiceRuntime)
    ensures rt.id == def.id && rt.name == def.name && rt.description == def.description
    ensures rt.entryHtml == def.entryHtml && rt.entryScript == def.entryScript
    ensures rt.proxyRewrite == def.proxyRewrite
    ensures rt.requiredRoles == (if def.requiredRoles.Some? then def.requiredRoles.value else [])
    ensures rt.proxyTarget == InjectEnv(def.proxyTarget, env)
    ensures rt.absHtmlPath == Paths.Join(serviceDir, def.entryHtml)
    ensures rt.absScriptPath == Paths.Join(serviceDir, def.entryScript)
    ensures rt.apiDocPath == Paths.Join(serviceDir, API_DOC_FILE)
    ensures rt.planPath == Paths.Join(serviceDir, PLAN_FILE)
    ensures rt.workblookPath == Paths.Join(serviceDir, WORKBLOOK_FILE)
  {
    ServiceRuntime(
      id := def.id,
      name := def.name,
      description := def.description,
      entryHtml := def.entryHtml,
      entryScript := def.entryScript,
      requiredRoles := def.requiredRoles.GetOr([]),
      proxyRewrite := def.proxyRewrite,
      proxyTarget := InjectEnv(def.proxyTarget, env),
      absHtmlPath := Paths.Join(serviceDir, def.entryHtml),
      absScriptPath := Paths.Join(serviceDir, def.entryScript),
      workblookPath := Paths.Join(serviceDir, WORKBLOOK_FILE),
      planPath := Paths.Join(serviceDir, PLAN_FILE),
      apiDocPath := Paths.Join(serviceDir, API_DOC_FILE))
  }

  /** The service directory `updateService` recovers, two `dirname`s up
      from the entry page, is the directory the manifest was loaded from
      when the entry page sits one directory deep (`dist/index.html`). */
  lemma ServiceDirRecovered(dirSegs: seq<string>, def: ServiceDefinition, d: string, f: string, env: Env)
    requires Paths.Canonical(dirSegs) && Paths.Plain(d) && Paths.Plain(f)
    requires def.entryHtml == d + "/" + f
    ensures Paths.Dirname(Paths.Dirname(ToRuntime(def, Paths.Render(dirSegs), env).absHtmlPath))
            == Paths.Render(dirSegs)
  {
    Paths.JoinTwoSegments(dirSegs, d, f);
    assert dirSegs + [d, f] == (dirSegs + [d]) + [f];
    assert Paths.Canonical(dirSegs + [d]) by {
      assert forall i :: 0 <= i < |dirSegs| ==> (dirSegs + [d])[i] == dirSegs[i];
    }
    Paths.DirnameOfChild(dirSegs + [d], f);
    Paths.DirnameOfChild(dirSegs, d);
  }

  /** The registry's map: the entries and their insertion order, which a
      JavaScript `Map` keeps (re-setting a key leaves it in place). */
  datatype Table = Table(services: map<string, ServiceRuntime>, order: seq<string>)

  ghost predicate Wf(t: Table) {
    Seqs.NoDuplicates(t.order) && t.services.Keys == set k | k in t.order
  }

  /** `map.set(id, rt)`. */
  function Put(t: Table, id: string, rt: ServiceRuntime): (r: Table)
    ensures Wf(t) ==> Wf(r)
    ensures r.services == t.services[id := rt]
    ensures |t.order| <= |r.order| && r.order[..|t.order|] == t.order
  {
    if id in t.services then Table(t.services[id := rt], t.order)
    else Table(t.services[id := rt], t.order + [id])
  }

  /** `Array.from(map.values())`. */
  function Values(t: Table): (vs: seq<ServiceRuntime>)
    requires Wf(t)
    ensures |vs| == |t.order|
    ensures forall i :: 0 <= i < |vs| ==> vs[i] == t.services[t.order[i]]
  {
    seq(|t.order|, i requires 0 <= i < |t.order| => t.services[t.order[i]])
  }

  /** The manifest the load loop accepts from an entry: a directory whose
      config exists, parses, and has an `id`. */
  function Accepted(e: DirEntry): Option<ServiceDefinition> {
    if e.isDirectory && e.config.Parsed? && e.config.def.id != "" then Some(e.config.def) else None
  }

  function LoadEntry(t: Table, e: DirEntry, servicesDir: string, env: Env): Table {
    match Accepted(e)
    case None => t
    case Some(def) => Put(t, def.id, ToRuntime(def, Paths.Join(servicesDir, e.name), env))
  }

  /** An entry on which the load loop throws instead of skipping: the
      read of an existing config is outside the `try`, and so is the call
      of `toRuntime`, which throws on an ill-typed manifest with an id. */
  predicate Aborts(e: DirEntry) {
    e.isDirectory && (e.config.Unreadable? || (e.config.IllTyped? && e.config.id != ""))
  }

  /** Why `init` rejected, naming the entry's directory. */
  datatype LoadError = ConfigReadFailed(name: string) | ManifestIllTyped(name: string)

  function AbortError(e: DirEntry): LoadError {
    if e.config.Unreadable? then ConfigReadFailed(e.name) else ManifestIllTyped(e.name)
  }

  /** The position of the entry that stops the load loop, if any. */
  function FirstAbort(es: seq<DirEntry>): Option<nat> {
    Seqs.FirstIndex(es, Aborts)
  }

  lemma FirstAbortAt(es: seq<DirEntry>, i: nat)
    requires i < |es| && Aborts(es[i])
    requires forall j :: 0 <= j < i ==> !Aborts(es[j])
    ensures FirstAbort(es) == Some(i)
  {
  }

  /** The state after the load loop has run over `es`. */
  function LoadAll(t: Table, es: seq<DirEntry>, servicesDir: string, env: Env): Table {
    if |es| == 0 then t
    else LoadEntry(LoadAll(t, es[..|es| - 1], servicesDir, env), es[|es| - 1], servicesDir, env)
  }

  predicate DefinesId(e: DirEntry, id: string) {
    Accepted(e).Some? && Accepted(e).value.id == id
  }

  lemma {:induction false} LoadAllWf(t: Table, es: seq<DirEntry>, servicesDir: string, env: Env)
    requires Wf(t)
    ensures Wf(LoadAll(t, es, servicesDir, env))
  {
    if |es| > 0 {
      LoadAllWf(t, es[..|es| - 1], servicesDir, env);
    }
  }

  /** One entry registers its own id, if accepted, and nothing else. */
  lemma LoadEntryIds(t: Table, e: DirEntry, servicesDir: string, env: Env, id: string)
    ensures id in LoadEntry(t, e, servicesDir, env).services <==> id in t.services || DefinesId(e, id)
  {
  }

  /** Some entry of `es` is an accepted manifest for `id`. */
  predicate SomeDefines(es: seq<DirEntry>, id: string) {
    exists k :: 0 <= k < |es| && DefinesId(es[k], id)
  }

  /** Some entry defines `id` exactly when one before the last does or
      the last one does. */
  lemma SomeDefinesSplit(es: seq<DirEntry>, id: string)
    requires |es| > 0
    ensures SomeDefines(es, id) <==> SomeDefines(es[..|es| - 1], id) || DefinesId(es[|es| - 1], id)
  {
    var init := es[..|es| - 1];
    if SomeDefines(init, id) {
      var k :| 0 <= k < |init| && DefinesId(init[k], id);
      assert es[k] == init[k];
    }
    if SomeDefines(es, id) {
      var k :| 0 <= k < |es| && DefinesId(es[k], id);
      if k < |init| { assert init[k] == es[k]; }
    }
  }

  /** After loading, an id is registered exactly when it was before or
      some accepted manifest declares it. */
  lemma {:induction false} LoadedIds(t: Table, es: seq<DirEntry>, servicesDir: string, env: Env, id: string)
    ensures id in LoadAll(t, es, servicesDir, env).services <==>
              id in t.services || exists k :: 0 <= k < |es| && DefinesId(es[k], id)
  {
    if |es| > 0 {
      var init := es[..|es| - 1];
      LoadedIds(t, init, servicesDir, env, id);
      LoadEntryIds(LoadAll(t, init, servicesDir, env), es[|es| - 1], servicesDir, env, id);
      SomeDefinesSplit(es, id);
    }
  }

  /** A later manifest with the same id overwrites an earlier one: the
      registered runtime comes from the last accepted manifest for it. */
  lemma {:induction false} LastManifestWins(t: Table, es: seq<DirEntry>, servicesDir: string, env: Env, k: nat)
    requires k < |es| && Accepted(es[k]).Some?
    requires forall m :: k < m < |es| ==> !DefinesId(es[m], Accepted(es[k]).value.id)
    ensures var def := Accepted(es[k]).value;
            var loaded := LoadAll(t, es, servicesDir, env).services;
            def.id in loaded && loaded[def.id] == ToRuntime(def, Paths.Join(servicesDir, es[k].name), env)
  {
    var init := es[..|es| - 1];
    if k < |es| - 1 {
      assert init[k] == es[k];
      forall m | k < m < |init| ensures !DefinesId(init[m], Accepted(init[k]).value.id) {
        assert init[m] == es[m];
      }
      LastManifestWins(t, init, servicesDir, env, k);
    }
  }

  /** How the entry lists around a bad entry shorten from the end. */
  lemma EntriesAround(a: seq<DirEntry>, bad: DirEntry, b: seq<DirEntry>)
    ensures |b| == 0 ==> a + [bad] + b == a + [bad] && (a + [bad])[..|a|] == a && a + b == a
    ensures |b| > 0 ==>
              && (a + [bad] + b)[..|a + [bad] + b| - 1] == a + [bad] + b[..|b| - 1]
              && (a + [bad] + b)[|a + [bad] + b| - 1] == b[|b| - 1]
              && (a + b)[..|a + b| - 1] == a + b[..|b| - 1]
              && (a + b)[|a + b| - 1] == b[|b| - 1]
  {
  }

  /** One bad entry anywhere does not disturb the loading of the others. */
  lemma {:induction false} BadEntrySkipped(t: Table, a: seq<DirEntry>, bad: DirEntry, b: seq<DirEntry>,
                                           servicesDir: string, env: Env)
    requires Accepted(bad).None?
    ensures LoadAll(t, a + [bad] + b, servicesDir, env) == LoadAll(t, a + b, servicesDir, env)
  {
    EntriesAround(a, bad, b);
    if |b| > 0 {
      BadEntrySkipped(t, a, bad, b[..|b| - 1], servicesDir, env);
    }
  }

  /** An entry that throws stops the loop: a valid manifest after it,
      which the skipping loop registers, is never registered. */
  lemma AbortLosesLaterManifests(t: Table, bad: DirEntry, good: DirEntry, servicesDir: string, env: Env)
    requires Aborts(bad) && Accepted(good).Some? && Accepted(good).value.id !in t.services
    ensures FirstAbort([bad, good]) == Some(0)
    ensures Accepted(good).value.id !in LoadAll(t, [bad, good][..0], servicesDir, env).services
    ensures Accepted(good).value.id in LoadAll(t, [bad, good], servicesDir, env).services
  {
    assert [bad, good][..0] == [];
    LoadedIds(t, [bad, good], servicesDir, env, Accepted(good).value.id);
    assert DefinesId([bad, good][1], Accepted(good).value.id);
  }

  /** An unreadable config in directory `a`, ahead of a valid manifest
      for `svc` in directory `b`: `svc` is lost. */
  lemma UnreadableConfigStopsLoading(def: ServiceDefinition, servicesDir: string, env: Env)
    requires def.id == "svc"
    ensures var es := [DirEntry("a", true, Unreadable), DirEntry("b", true, Parsed(def))];
            && FirstAbort(es) == Some(0)
            && "svc" !in LoadAll(Table(map[], []), es[..0], servicesDir, env).services
            && "svc" in LoadAll(Table(map[], []), es, servicesDir, env).services
  {
    AbortLosesLaterManifests(Table(map[], []), DirEntry("a", true, Unreadable), DirEntry("b", true, Parsed(def)),
                             servicesDir, env);
  }

  /** The fields of a PATCH body `updateService` looks at. */
  datatype ServiceUpdate = ServiceUpdate(
    name: Option<string>,
    description: Option<string>,
    requiredRoles: Option<seq<Role>>,
    proxyTarget: Option<string>,
    proxyRewrite: Option<string>)

  /** The field-by-field overwrite of the stored manifest. */
  function Merge(config: ServiceDefinition, u: ServiceUpdate): (m: ServiceDefinition)
    ensures m.id == config.id && m.entryHtml == config.entryHtml && m.entryScript == config.entryScript
    ensures m.name == (if u.name.Some? then u.name.value else config.name)
    ensures u.description.Some? ==> m.description == u.description
    ensures u.description.None? ==> m.description == config.description
    ensures u.requiredRoles.Some? ==> m.requiredRoles == u.requiredRoles
    ensures u.requiredRoles.None? ==> m.requiredRoles == config.requiredRoles
    ensures u.proxyTarget.Some? ==> m.proxyTarget == u.proxyTarget
    ensures u.proxyTarget.None? ==> m.proxyTarget == config.proxyTarget
    ensures u.proxyRewrite.Some? ==> m.proxyRewrite == u.proxyRewrite
    ensures u.proxyRewrite.None? ==> m.proxyRewrite == config.proxyRewrite
  {
    config.(
      name := u.name.GetOr(config.name),
      description := if u.description.Some? then u.description else config.description,
      requiredRoles := if u.requiredRoles.Some? then u.requiredRoles else config.requiredRoles,
      proxyTarget := if u.proxyTarget.Some? then u.proxyTarget else config.proxyTarget,
      proxyRewrite := if u.proxyRewrite.Some? then u.proxyRewrite else config.proxyRewrite)
  }

  /** An update that supplies nothing leaves the manifest as it was. */
  lemma EmptyUpdateIsIdentity(config: ServiceDefinition)
    ensures Merge(config, ServiceUpdate(None, None, None, None, None)) == config
  {
  }

  /** Merging twice with the same update is merging once. */
  lemma MergeIdempotent(config: ServiceDefinition, u: ServiceUpdate)
    ensures Merge(Merge(config, u), u) == Merge(config, u)
  {
  }

  datatype RegistryError = ServiceNotFound | ConfigUnreadable

  class ServiceRegistry {
    const servicesDir: string
    var services: map<string, ServiceRuntime>
    var order: seq<string>
    /** The manifest files written back by `updateService`, by service directory. */
    ghost var written: map<string, ServiceDefinition>

    ghost predicate Valid()
      reads this
    {
      Wf(Table(services, order))
    }

    function Current(): Table
      reads this
    {
      Table(services, order)
    }

    constructor (servicesDir: string)
      ensures Valid() && this.servicesDir == servicesDir
      ensures services == map[] && order == [] && written == map[]
    {
      this.servicesDir := servicesDir;
      services := map[];
      order := [];
      written := map[];
    }

    /** `this.services.set(id, rt)`. */
    method Set(id: string, rt: ServiceRuntime)
      requires Valid()
      modifies this`services, this`order
      ensures Valid()
      ensures Current() == Put(old(Current()), id, rt)
    {
      if id !in services {
        order := order + [id];
      }
      services := services[id := rt];
    }

    /** One pass of the load loop over an entry that does not throw:
        register its manifest if it is accepted. */
    method LoadOne(entry: DirEntry, env: Env)
      requires Valid()
      modifies this`services, this`order
      ensures Valid()
      ensures Current() == LoadEntry(old(Current()), entry, servicesDir, env)
    {
      if entry.isDirectory && entry.config.Parsed? && entry.config.def.id != "" {
        var runtime := ToRuntime(entry.config.def, Paths.Join(servicesDir, entry.name), env);
        Set(runtime.id, runtime);
      }
    }

    /** `init`: walk the directory entries, registering every accepted
        manifest and skipping the rest, until an entry that throws; the
        entries before it stay registered and the call rejects. */
    method Init(entries: seq<DirEntry>, env: Env) returns (r: Result<(), LoadError>)
      requires Valid()
      modifies this`services, this`order
      ensures Valid()
      ensures FirstAbort(entries).None? ==>
                r == Ok(()) && Current() == LoadAll(old(Current()), entries, servicesDir, env)
      ensures FirstAbort(entries).Some? ==>
                var k := FirstAbort(entries).value;
                r == Err(AbortError(entries[k])) && Current() == LoadAll(old(Current()), entries[..k], servicesDir, env)
    {
      for i := 0 to |entries|
        invariant Valid()
        invariant Current() == LoadAll(old(Current()), entries[..i], servicesDir, env)
        invariant forall j :: 0 <= j < i ==> !Aborts(entries[j])
      {
        assert entries[..i + 1][..i] == entries[..i];
        var entry := entries[i];
        if Aborts(entry) {
          FirstAbortAt(entries, i);
          return Err(AbortError(entry));
        }
        LoadOne(entry, env);
      }
      assert entries[..|entries|] == entries;
      return Ok(());
    }

    /** The load loop with every bad entry skipped, as one unreadable or
        incomplete manifest should not stop the others from loading. */
    method InitIsolated(entries: seq<DirEntry>, env: Env)
      requires Valid()
      modifies this`services, this`order
      ensures Valid()
      ensures Current() == LoadAll(old(Current()), entries, servicesDir, env)
    {
      for i := 0 to |entries|
        invariant Valid()
        invariant Current() == LoadAll(old(Current()), entries[..i], servicesDir, env)
      {
        assert entries[..i + 1][..i] == entries[..i];
        var entry := entries[i];
        LoadOne(entry, env);
      }
      assert entries[..|entries|] == entries;
    }

    function List(): (vs: seq<ServiceRuntime>)
      requires Valid()
      reads this
      ensures |vs| == |order|
      ensures forall i :: 0 <= i < |vs| ==> vs[i] == services[order[i]]
    {
      Values(Current())
    }

    function Get(serviceId: string): (r: Option<ServiceRuntime>)
      reads this
      ensures r.Some? <==> serviceId in services
      ensures r.Some? ==> r.value == services[serviceId]
    {
      if serviceId in services then Some(services[serviceId]) else None
    }

    /** `updateService`: merge the allowed fields into the stored manifest
        (`onDisk`, read from the service's directory), write it back, and
        replace this one map entry with its new runtime form. */
    method UpdateService(serviceId: string, updates: ServiceUpdate, onDisk: ConfigFile, env: Env)
      returns (r: Result<ServiceRuntime, RegistryError>)
      requires Valid()
      modifies this`services, this`order, this`written
      ensures Valid()
      ensures serviceId !in old(services) ==>
                r == Err(ServiceNotFound) && Current() == old(Current()) && written == old(written)
      ensures serviceId in old(services) && !onDisk.Parsed? ==>
                r == Err(ConfigUnreadable) && Current() == old(Current()) && written == old(written)
      ensures serviceId in old(services) && onDisk.Parsed? ==>
                var serviceDir := Paths.Dirname(Paths.Dirname(old(services)[serviceId].absHtmlPath));
                var merged := Merge(onDisk.def, updates);
                && r == Ok(ToRuntime(merged, serviceDir, env))
                && services == old(services)[serviceId := r.value]
                && order == old(order)
                && written == old(written)[serviceDir := merged]
    {
      if serviceId !in services {
        return Err(ServiceNotFound);
      }
      var service := services[serviceId];
      var serviceDir := Paths.Dirname(Paths.Dirname(service.absHtmlPath));
      if !onDisk.Parsed? {
        return Err(ConfigUnreadable);
      }
      var config := Merge(onDisk.def, updates);
      written := written[serviceDir := config];
      var runtime := ToRuntime(config, serviceDir, env);
      Set(serviceId, runtime);
      return Ok(runtime);
    }
  }
}
