# Service gateway decision logic, in Dafny

This project models the server core of a small service gateway. The
gateway hosts several front-end "services" behind one login. It does the
following:

- it authenticates callers with a signed session token, sent as an
  `Authorization: Bearer` header (section 2.1 of RFC 6750) or as a `token`
  cookie;
- it admits a caller to a service when the caller is an administrator,
  holds a grant for that service, or shares a role with the service's
  required roles (401 without identity, 403 otherwise);
- it serves each service's entry page with a context script injected, and
  its static assets behind a path check;
- it forwards `/{id}/api/...` requests to the service's upstream, with a
  target fallback and a path rewrite;
- it loads service manifests from disk, substituting `${VAR}`
  placeholders, and lets administrators edit five manifest fields;
- it keeps a user store (bootstrap administrator, unique usernames, role and
  grant updates, password changes, deletion) and a registration store (a
  request is `pending`, then `approved` or `rejected`, both final);
- it exposes administration and account routes that map store errors to
  HTTP statuses.

Modules, one per file:

| file | module | models |
|---|---|---|
| `wrappers.dfy` | `Wrappers` | `Option` and `Result` |
| `types.dfy` | `Types` | the records of `src/types/index.ts`, the password hasher abstraction, status codes |
| `seqs.dfy` | `Seqs` | `find`/`findIndex`, `splice(i, 1)`, `filter`, `Array.from(new Set(xs))` |
| `text.dfy` | `Text` | `includes`, `startsWith`, first-occurrence `String.replace` |
| `paths.dfy` | `Paths` | POSIX `path.join`, `path.normalize` and `path.dirname` on segment lists |
| `access.dfy` | `Access` | `ensureServiceAccess` |
| `authenticate.dfy` | `Authenticate` | the `authenticate` middleware |
| `proxy.dfy` | `Proxy` | the decisions of `buildServiceProxy` |
| `pages.dfy` | `Pages` | `injectContext`, the context object and its JSON text, the page and asset handlers |
| `registry.dfy` | `Registry` | `injectEnv`, `toRuntime`, the load loop, `updateService`, the `ServiceRegistry` class |
| `users.dfy` | `Users` | the `UserStore` class |
| `registrations.dfy` | `Registrations` | the `RegistrationStore` class |
| `serviceapi.dfy` | `ServiceApi` | the service list and document routes |
| `admin.dfy` | `Admin` | the administration routes |
| `authroutes.dfy` | `AuthRoutes` | the account routes and the token payload |

The two stores and the registry are classes whose methods update fields
(`users`, `requests`, `services`/`order`). Each store has a ghost copy of
the file it writes, and `Valid()` says that this copy equals the in-memory
list. Each method's `ensures` states the whole new state. The preserved
invariants are stated beside it: unique usernames, at most one pending
request per username, and statuses that only ever leave `pending`. Pure
code is modelled with functions and lemmas. The password hash, token
signing and verification, file contents, the clock and `randomUUID` are
parameters.

## Model

| member | source | states |
|---|---|---|
| `Access.EnsureServiceAccess` | src/middleware/requirePermission.ts:5-19 | 401 exactly when there is no identity; admitted exactly when the caller has role `admin`, a grant for the service id, or a role in `requiredRoles`; 403 in every other case |
| `Access.CanAccessBySets` | src/middleware/requirePermission.ts:11-14 | the same rule over sets: `admin` among the roles, the id among the grants, or a non-empty intersection of roles and required roles |
| `Access.NoIdentityIsUnauthenticated` | src/middleware/requirePermission.ts:7-10 | no identity gives 401 whatever the service |
| `Access.AdminAlwaysAdmitted` | src/middleware/requirePermission.ts:13-17 | role `admin` is admitted regardless of required roles and grants |
| `Access.GrantAdmits` | src/middleware/requirePermission.ts:11-17 | a grant for the service id admits, with no shared role needed |
| `Access.SharedRoleAdmits` | src/middleware/requirePermission.ts:12-17 | one shared role admits |
| `Access.OtherwiseForbidden` | src/middleware/requirePermission.ts:14-16 | no admin role, no grant and no shared role gives 403, so empty `requiredRoles` without a grant is a refusal |
| `Access.AdmissionMonotone` | src/middleware/requirePermission.ts:11-14 | adding roles or grants never turns an admission into a refusal |
| `Authenticate.SelectToken` | src/middleware/authenticate.ts:9-12 | a header starting with `Bearer ` yields exactly the text after it and wins over the cookie; otherwise the cookie's token is used |
| `Authenticate.Authenticate` | src/middleware/authenticate.ts:8-23 | succeeds exactly when the selected token is non-empty and verifies, with the verified payload as caller; an absent or empty token is the missing-credentials refusal; every refusal is a 401 and every 401 is a refusal |
| `Authenticate.BearerRoundTrip` | src/middleware/authenticate.ts:9-11 | `Bearer ` + t yields t, whatever the cookie holds |
| `Authenticate.NoTokenNoVerify` | src/middleware/authenticate.ts:13-15 | an absent or empty token is refused as missing, with the same outcome for every verifier (verification is not consulted) |
| `Authenticate.BareBearerRefused` | src/middleware/authenticate.ts:9-15 | a bare `Bearer ` header is an empty token and is refused even when a cookie is present |
| `Authenticate.VerifiedTokenAuthenticates` | src/middleware/authenticate.ts:16-22 | a non-empty token authenticates exactly when verification succeeds, and the verified payload becomes the caller; otherwise 401 |
| `Proxy.RewritePath` | src/routes/serviceProxy.ts:22 | the first occurrence of `/{id}/api` is replaced by the rewrite base and the rest is kept; a path without it is unchanged |
| `Proxy.Dispatch` | src/routes/serviceProxy.ts:9-26 | a refused request carries a refusal decision, never an admission |
| `Proxy.UnknownServiceIs404` | src/routes/serviceProxy.ts:11-14 | an unknown id gives 404 with the same outcome for every caller, so no access check runs |
| `Proxy.ForwardOnlyWhenAdmitted` | src/routes/serviceProxy.ts:15-24 | a request is forwarded if and only if the service exists and the caller is admitted; a refusal carries the access status |
| `Proxy.TargetFallback` | src/routes/serviceProxy.ts:8-17 | the upstream is the manifest's `proxyTarget`, else `API_PROXY_TARGET`, else `http://localhost:4000` |
| `Proxy.LoadedTargetLiteral` | src/lib/serviceRegistry.ts:49-66 | a loaded service with a literal manifest target is forwarded to that target as written, and one without a target to the environment's or the default |
| `Proxy.LoadedTargetPlaceholder` | src/lib/serviceRegistry.ts:49-66 | a loaded service whose manifest target is `${KEY}` is forwarded to the environment's value of `KEY`, inserted as it is |
| `Proxy.RewriteBaseDefault` | src/routes/serviceProxy.ts:18 | the rewrite base is the manifest's `proxyRewrite`, else `/api` |
| `Proxy.PrefixRewritten` | src/routes/serviceProxy.ts:22 | `/{id}/api` + rest is forwarded as rewrite base + rest |
| `Proxy.ExampleRewrite` | src/routes/serviceProxy.ts:22 | with base `/v2`, `/svcA/api/foo?q=1` becomes `/v2/foo?q=1` |
| `Proxy.OnlyFirstOccurrence` | src/routes/serviceProxy.ts:22 | a second copy of the prefix later in the path is forwarded untouched |
| `Proxy.AdmittedRequestForwarded` | src/routes/serviceProxy.ts:15-24 | an admitted request for `/{id}/api` + rest goes to the chosen target as rewrite base + rest |
| `Text.ReplaceFirst` | src/routes/servicePages.ts:11 | replacing the first occurrence keeps the text before it and the text after it; without an occurrence the text is unchanged |
| `Pages.InjectContext` | src/routes/servicePages.ts:8-17 | the marker, if present, is replaced by the payload, and it takes priority; else the payload and a newline go right before the first `</body>`; else the page, a newline and the payload |
| `Pages.InjectedPageHoldsPayload` | src/routes/servicePages.ts:10-16 | every injected page contains the payload script |
| `Pages.UnescapeEscape` | src/routes/servicePages.ts:42 | the string escaping of `JSON.stringify` loses nothing: reading the escapes back gives the original string |
| `Pages.BuildContext` | src/routes/servicePages.ts:29-41 | the context carries the service's id, name and description and the caller's identity |
| `Pages.ContextAgreesWithProxy` | src/routes/servicePages.ts:34-38 | a request under the advertised `proxy.path` is forwarded under the advertised `rewrite`, to the advertised `target`; when no target is shown the proxy uses `http://localhost:4000` |
| `Pages.ServePage` | src/routes/servicePages.ts:19-50 | a refusal carries a refusal decision |
| `Pages.ServePageOutcomes` | src/routes/servicePages.ts:22-47 | an unknown id gives 404 before any access check; no identity gives 401 and a signed-in caller without access 403; an admitted caller gets exactly the entry page with its context script injected, or 500 when the page cannot be read; a served page always went to an admitted caller and contains that caller's context script |
| `Pages.ServeAsset` | src/routes/servicePages.ts:52-70 | a refusal carries a refusal decision |
| `Pages.DistDirCanonical` | src/routes/servicePages.ts:62 | the asset directory is the rendering of a normalised segment list |
| `Pages.ServeAssetOutcomes` | src/routes/servicePages.ts:55-67 | an unknown id gives 404; a file is sent only to an admitted caller, only at the normalised join of the asset directory and the asset path, and only if the string-prefix test passed |
| `Pages.PlainAssetServed` | src/routes/servicePages.ts:61-67 | an asset path that never steps up with `..` is served to an admitted caller |
| `Pages.ParentStepGuard` | src/routes/servicePages.ts:61-66 | from directory `.../n`, the asset `../x` resolves to `.../x` and passes the test exactly when `x` starts with `n` (so `../etc` from `dist` is a 400) |
| `Pages.WithinDirPassesGuard` | src/routes/servicePages.ts:63-64 | a path that lies below the directory segment by segment also passes the string-prefix test |
| `Pages.WithinDirAdmitsPlainPaths` | src/routes/servicePages.ts:63-64 | an asset path without `..` lands below the directory segment by segment |
| `Pages.SiblingPrefixEscapes` | src/routes/servicePages.ts:64-66 | the string-prefix test passes for `../` + n + t from directory `.../n`, which lands outside the directory |
| `Pages.ServeAssetContained` | src/routes/servicePages.ts:52-70 | with the segment-wise check, every file sent lies in the asset directory or below it |
| `Pages.ContainedHandlerRefinesGuard` | src/routes/servicePages.ts:61-67 | the segment-wise handler sends only what the string-prefix handler sends, agrees with it on every non-path outcome, and still serves every path without `..` |
| `Paths.Resolve` | src/routes/servicePages.ts:63 | normalising keeps a normalised directory stack normalised |
| `Paths.NormalizeIdempotent` | src/routes/servicePages.ts:63 | normalising a normalised path changes nothing |
| `Paths.JoinBelow` | src/routes/servicePages.ts:63 | joining a normalised directory with a path without `..` yields the directory's segments followed by the path's |
| `Paths.ParentThenChild` | src/routes/servicePages.ts:63 | joining `.../n` with `../x` replaces the last segment `n` by `x` |
| `Paths.RenderExtends` | src/routes/servicePages.ts:64 | the text of a segment list starts with the text of any prefix of it |
| `Paths.DirnameOfChild` | src/lib/serviceRegistry.ts:80 | `dirname` undoes joining one plain segment |
| `Registry.KeyEnd` | src/lib/serviceRegistry.ts:17 | the lazy `(.*?)` ends at the first `}`, and a key never crosses a line terminator |
| `Registry.InjectEnv` | src/lib/serviceRegistry.ts:15-18 | an absent or empty template is returned unchanged; a present one stays present |
| `Registry.LiteralUnchanged` | src/lib/serviceRegistry.ts:17 | text without `${` is unchanged |
| `Registry.PlaceholderFirst` | src/lib/serviceRegistry.ts:17 | a leading `${KEY}` becomes the variable's value, or nothing if it is unset |
| `Registry.LiteralPrefix` | src/lib/serviceRegistry.ts:17 | literal text before a placeholder is copied as it is |
| `Registry.PlaceholderReplaced` | src/lib/serviceRegistry.ts:17 | text, then `${KEY}`, then the rest becomes the text, the value, and the substituted rest |
| `Registry.SinglePass` | src/lib/serviceRegistry.ts:17 | a value is inserted literally and is not expanded again |
| `Registry.SelfReferenceNotExpanded` | src/lib/serviceRegistry.ts:17 | `${A}` with `A` set to `${A}` gives `${A}` |
| `Registry.ToRuntime` | src/lib/serviceRegistry.ts:49-66 | required roles default to none, `proxyTarget` is the manifest's with its placeholders substituted, the entry page, entry script and the three documents are resolved against the service's directory, and id, name, description, entry files and rewrite are carried over |
| `Registry.ServiceDirRecovered` | src/lib/serviceRegistry.ts:80 | two `dirname`s up from an entry page one directory deep is the directory the manifest was loaded from |
| `Registry.Put` | src/lib/serviceRegistry.ts:43 | `Map.set` replaces the entry, keeps earlier insertion order and keeps map and order consistent |
| `Registry.Values` | src/lib/serviceRegistry.ts:68-70 | the values in insertion order |
| `Registry.LoadAllWf` | src/lib/serviceRegistry.ts:23-47 | loading keeps the map and its insertion order consistent |
| `Registry.LoadedIds` | src/lib/serviceRegistry.ts:25-44 | after loading, an id is registered exactly when it was before or an accepted manifest declares it |
| `Registry.LastManifestWins` | src/lib/serviceRegistry.ts:42-43 | a later manifest with the same id overwrites an earlier one |
| `Registry.BadEntrySkipped` | src/lib/serviceRegistry.ts:26-41 | in `LoadAll`, a non-directory, missing, unparseable or id-less entry anywhere leaves the result as if it were absent |
| `Registry.AbortLosesLaterManifests` | src/lib/serviceRegistry.ts:29-30 | an entry that throws ahead of a valid manifest is the first abort, and that manifest is not registered by the loop as written but is by `LoadAll` |
| `Registry.UnreadableConfigStopsLoading` | src/lib/serviceRegistry.ts:29-30 | a concrete case: an unreadable config in `a` stops `svc` in `b` from loading |
| `Registry.Merge` | src/lib/serviceRegistry.ts:88-92 | only name, description, required roles, proxy target and proxy rewrite change, each only when supplied; id and entry files keep the stored values |
| `Registry.EmptyUpdateIsIdentity` | src/lib/serviceRegistry.ts:88-92 | an update supplying nothing leaves the manifest as it was |
| `Registry.MergeIdempotent` | src/lib/serviceRegistry.ts:88-92 | applying the same update twice is applying it once |
| `Registry.ServiceRegistry.Set` | src/lib/serviceRegistry.ts:43 | the registry's table becomes `Put` of the old one |
| `Registry.ServiceRegistry.LoadOne` | src/lib/serviceRegistry.ts:26-43 | one pass over an entry that does not throw: the table becomes `LoadEntry` of the old one, registering the entry's runtime only when the manifest is accepted |
| `Registry.ServiceRegistry.Init` | src/lib/serviceRegistry.ts:23-47 | with no entry that throws, the loop ends in `LoadAll` of the starting table and succeeds; otherwise it rejects with the first such entry (an unreadable config, or a manifest with an id whose entry files are not strings or whose `proxyTarget` is truthy but not a string) and keeps only what the entries before it registered |
| `Registry.ServiceRegistry.InitIsolated` | src/lib/serviceRegistry.ts:23-47 | the loop with every bad entry skipped ends in `LoadAll` of the starting table, so `BadEntrySkipped` holds of it |
| `Registry.ServiceRegistry.List` | src/lib/serviceRegistry.ts:68-70 | the services in insertion order |
| `Registry.ServiceRegistry.Get` | src/lib/serviceRegistry.ts:72-74 | found exactly when the id is registered, with the registered runtime |
| `Registry.ServiceRegistry.UpdateService` | src/lib/serviceRegistry.ts:76-102 | an unknown id or unreadable manifest fails with nothing changed; otherwise the merged manifest is written back and only that map entry is replaced by its runtime form, order kept |
| `Seqs.FirstIndex` | src/lib/userStore.ts:67 | `find` returns the first matching position, or nothing when no element matches |
| `Seqs.RemoveAt` | src/lib/userStore.ts:169 | `splice(i, 1)` removes exactly position i and keeps the rest in order |
| `Seqs.DedupSameElements` | src/lib/userStore.ts:106 | deduplication keeps exactly the same elements |
| `Seqs.DedupNoDuplicates` | src/lib/userStore.ts:106 | deduplication leaves no duplicates |
| `Seqs.DedupKeepsDistinct` | src/lib/userStore.ts:106 | a duplicate-free list is kept as it is |
| `Seqs.DedupIdempotent` | src/lib/userStore.ts:106 | deduplicating twice is deduplicating once |
| `Seqs.DedupPrefix` | src/lib/userStore.ts:106 | first-occurrence order: appending elements only adds at the end |
| `Seqs.Filter` | src/lib/registrationStore.ts:30 | `filter` keeps only matching elements and never grows |
| `Seqs.FilterKeepsMatches` | src/lib/registrationStore.ts:30 | every matching element is kept |
| `Seqs.FilterConcat` | src/routes/serviceApi.ts:12-18 | filtering keeps relative order |
| `Users.FindByUsername` | src/lib/userStore.ts:67 | the first user with that name, or nothing when no user has it |
| `Users.FindById` | src/lib/userStore.ts:90-92 | the first user with that id, or nothing when no user has it |
| `Users.Updated` | src/lib/userStore.ts:102-113 | a supplied list becomes duplicate-free with the same elements; an omitted one is kept; id, name, hash and date are untouched |
| `Users.UpdateReplaces` | src/lib/userStore.ts:105-110 | a supplied list replaces rather than merges, and a duplicate-free list is stored as it is |
| `Users.AppendKeepsUnique` | src/lib/userStore.ts:67-78 | appending a user whose name is free keeps usernames unique |
| `Users.ReplaceKeepsUnique` | src/lib/userStore.ts:102-127 | rewriting a record without renaming it keeps usernames unique |
| `Users.RemoveKeepsUnique` | src/lib/userStore.ts:166-171 | removing a record keeps usernames unique |
| `Users.LookupUnique` | src/lib/userStore.ts:83-88 | with unique names, looking a user's name up finds that user |
| `Users.UserStore.Init` | src/lib/userStore.ts:22-35 | the loaded list is kept, and `admin` with role `admin` and the hash of `admin123` is appended when no user is named `admin`; afterwards a user named `admin` exists |
| `Users.UserStore.CreateUserFromHash` | src/lib/userStore.ts:56-81 | a taken username fails with nothing changed; otherwise exactly one record is appended with the given name and hash, roles defaulting to `user` and grants to none; names stay unique |
| `Users.UserStore.CreateUser` | src/lib/userStore.ts:41-54 | as above with the password's hash, and the new account then passes the credential check with that password |
| `Users.UserStore.ValidateCredentials` | src/lib/userStore.ts:83-88 | nothing when the name is unknown or the password does not match the stored hash, otherwise that user |
| `Users.UserStore.GetById` | src/lib/userStore.ts:90-92 | a stored user with that id, or nothing exactly when there is none |
| `Users.UserStore.GetByUsername` | src/lib/userStore.ts:94-96 | a stored user with that name, or nothing exactly when there is none |
| `Users.UserStore.List` | src/lib/userStore.ts:98-100 | the whole stored list, hashes included |
| `Users.UserStore.UpdateUser` | src/lib/userStore.ts:102-113 | an unknown id fails with nothing changed; otherwise only that record changes, to `Updated` |
| `Users.UserStore.UpdateByUsername` | src/lib/userStore.ts:115-119 | an unknown name fails; otherwise the update goes to the first record with that user's id |
| `Users.UserStore.UpdatePassword` | src/lib/userStore.ts:121-127 | only that record's hash changes, to the hash of the new password |
| `Users.UserStore.ChangePassword` | src/lib/userStore.ts:156-164 | an unknown id or a wrong old password fails with nothing changed; otherwise only that hash changes and the new password passes the credential check |
| `Users.UserStore.DeleteUser` | src/lib/userStore.ts:166-171 | an unknown id fails with nothing changed; otherwise exactly that record is removed and the others keep their order |
| `Registrations.FindPending` | src/lib/registrationStore.ts:38 | a pending request for that name, or nothing exactly when there is none |
| `Registrations.FindRequest` | src/lib/registrationStore.ts:56 | the first request with that id, or nothing exactly when there is none |
| `Registrations.AppendPendingKeepsUnique` | src/lib/registrationStore.ts:38-50 | appending a pending request for a name without one keeps at most one pending request per name |
| `Registrations.ReviewKeepsUnique` | src/lib/registrationStore.ts:65-79 | taking a request out of `pending` keeps at most one pending request per name |
| `Registrations.ReviewAdvances` | src/lib/registrationStore.ts:58-79 | reviewing a pending request moves its status out of `pending` and changes no other status |
| `Registrations.AdvancesTransitive` | src/lib/registrationStore.ts:55-82 | statuses never return to `pending` and never leave `approved` or `rejected`, over any sequence of operations |
| `Registrations.RegistrationStore.Init` | src/lib/registrationStore.ts:23-27 | the requests read from the file |
| `Registrations.RegistrationStore.List` | src/lib/registrationStore.ts:29-31 | the order-keeping `Seqs.Filter` of the stored requests by the given status, `pending` by default: exactly the requests with that status |
| `Registrations.RegistrationStore.CreateRequest` | src/lib/registrationStore.ts:37-53 | a pending request for the name fails with nothing changed; otherwise one pending request holding the password's hash is appended |
| `Registrations.RegistrationStore.Approve` | src/lib/registrationStore.ts:55-70 | unknown or already reviewed requests fail with nothing changed; a taken username fails and the request stays pending; otherwise an account with role `user`, no grants and the stored hash is appended, and the request becomes approved with its reviewer |
| `Registrations.RegistrationStore.Reject` | src/lib/registrationStore.ts:72-82 | unknown or already reviewed requests fail with nothing changed; otherwise the request becomes rejected with reviewer and reason, and no account is made |
| `ServiceApi.ListedIsAccessRule` | src/routes/serviceApi.ts:14-18 | the list filter is the access rule |
| `ServiceApi.Summary` | src/routes/serviceApi.ts:19-28 | an entry carries id, name, description and the links `/api/services/{id}/docs/{api,plan,workblook}` |
| `ServiceApi.Summaries` | src/routes/serviceApi.ts:19-28 | one entry per service, in order |
| `ServiceApi.AccessibleServices` | src/routes/serviceApi.ts:11-30 | the summaries (id, name, description, document links) of the visible registry services in order, each one the caller may open |
| `ServiceApi.ShownIffAdmitted` | src/routes/serviceApi.ts:14-18 | a registry service is listed exactly when the caller may open it |
| `ServiceApi.ListKeepsOrder` | src/routes/serviceApi.ts:12-18 | registry order is kept |
| `ServiceApi.DocPath` | src/routes/serviceApi.ts:37-43 | `api`, `plan` and `workblook` map to the three document paths, and nothing else maps |
| `ServiceApi.Docs` | src/routes/serviceApi.ts:32-54 | a refusal carries a refusal decision |
| `ServiceApi.DocsOutcomes` | src/routes/serviceApi.ts:33-48 | 404 for an unknown service, an unknown type or a missing file; 401 without identity and 403 without access; an admitted caller asking for a known type whose file exists is sent exactly that file; a document is sent only to an admitted caller, and it is the mapped one |
| `Admin.AdminGate` | src/routes/admin.ts:7-12 | a request goes on exactly when it is authenticated and has role `admin`; otherwise 401 or 403 |
| `Admin.UserViews` | src/routes/admin.ts:24-33 | one entry per user, in order, each with the user's id, name, roles, grants and creation time |
| `Admin.ListingHidesHashes` | src/routes/admin.ts:24-33 | two user lists that differ only in password hashes are listed identically |
| `Admin.RequestViews` | src/routes/admin.ts:72-80 | one entry per request, in order, each with its id, username, status and creation time |
| `Admin.ServiceViews` | src/routes/admin.ts:108-118 | one entry per service, in order, each with its id, name, description, required roles, target and rewrite |
| `Admin.ListUsers` | src/routes/admin.ts:24-33 | non-admins get 401 or 403 and nothing; administrators get the views of all users in stored order |
| `Admin.ListPendingRequests` | src/routes/admin.ts:72-80 | non-admins get 401 or 403; administrators get the views of the pending requests in stored order: every listed entry is pending and every pending request is listed |
| `Admin.ListServices` | src/routes/admin.ts:108-118 | non-admins get 401 or 403; administrators get the views of the services in registry order, one for every registered service |
| `Admin.PatchUser` | src/routes/admin.ts:35-53 | non-admins get 401 or 403 and targeting one's own id gives 403, both with nothing changed; a store error is 400 |
| `Admin.DeleteUser` | src/routes/admin.ts:55-70 | non-admins get 401 or 403 and deleting oneself gives 403, both with nothing changed; a store error is 400; the caller's own record always survives |
| `Admin.OthersSurviveRemoval` | src/routes/admin.ts:61-66 | removing one record keeps every record with a different id |
| `Admin.ApproveRequest` | src/routes/admin.ts:82-93 | non-admins get 401 or 403 with nothing changed; an unknown or already reviewed request, or a taken username, is 400 with nothing changed; otherwise 200, the account (role `user`, no grants, the request's hash) is appended to the user store and the request is approved with the caller as reviewer |
| `Admin.RejectRequest` | src/routes/admin.ts:95-106 | non-admins get 401 or 403; an unknown or already reviewed request is 400 with nothing changed; otherwise 200 and the request is rejected with the caller as reviewer and the given reason |
| `Admin.PatchService` | src/routes/admin.ts:120-129 | registry order never changes; non-admins get 401 or 403 and an unknown service or unreadable manifest 400, with nothing changed or written; otherwise only that entry is replaced by the merged manifest's runtime and the merged manifest is written to the service's directory |
| `AuthRoutes.TokenPayload` | src/lib/tokenService.ts:7-15 | the token carries the user's id as `sub`, name, roles and grants |
| `AuthRoutes.Register` | src/routes/auth.ts:11-30 | a name under 3 or password under 6 characters is 400 with no request; a pending duplicate is 400; otherwise 201 with the new request's id and name |
| `AuthRoutes.Login` | src/routes/auth.ts:32-54 | a malformed body is 400; bad credentials are 401; success returns the signed token, the user without hash, and an http-only, same-site `lax` cookie lasting eight hours, secure in production |
| `AuthRoutes.LoginSessionAuthenticates` | src/routes/auth.ts:46-53 | the token a login hands out authenticates as that user, as a bearer header or as the cookie |
| `AuthRoutes.Me` | src/routes/auth.ts:56-58 | the authenticated caller's identity, or 401 |
| `AuthRoutes.ChangePassword` | src/routes/auth.ts:60-80 | 401 without a session; a new password under 6 characters, an unknown caller or a wrong old password is 400 with nothing changed; otherwise only the caller's hash changes |
| `AuthRoutes.Assign` | src/routes/auth.ts:82-105 | non-admins get 403 before the body is read; a malformed body is 400; an unknown username is 404; otherwise grants are replaced, and roles only when supplied |

Lines 129-154 of `src/lib/userStore.ts` repeat `createUserFromHash`
identically (the later definition is the one JavaScript keeps). It is
modelled once, as `Users.UserStore.CreateUserFromHash`.

The page context's `proxy.target` is `proxyTarget ?? API_PROXY_TARGET`.
Unlike the proxy, it has no `http://localhost:4000` fallback, so a page
can show no target while its requests go to the fallback.
`Pages.ContextAgreesWithProxy` states both cases.

## Left out

- File I/O is not modelled. This covers `users.json`, `registrationRequests.json`, the manifests, `readdir`, `stat`, `readFile`, `sendFile` and `ensureFile`. Each store's writes are a ghost copy of its list. What is read arrives as a parameter: `loaded`, `entries`, `onDisk`, `readFile`, `fileExists`. A failed directory read is an empty `entries` list, and a missing data file is an empty `loaded` list.
- bcrypt is not modelled. `Hasher.hash` stands for `bcrypt.hash` and `Hasher.matches` for `bcrypt.compare`. Salting and cost are not modelled.
- JWT signing and verification are not modelled. `sign` and `verify` are parameters. Expiry, the secret and the `iat`/`exp` claims live inside the library and are absent from the payload and the page context.
- `randomUUID` and `new Date()` are parameters.
- Proxy transport (headers, origin rewriting, streaming, upstream errors) is left out. Only the forwarding decision is modelled.
- Concurrent requests are not modelled. Each store operation is atomic, so interleavings at `await` points and read-modify-write races are out.
- Aliasing is not modelled. The stores return records by value, whereas JavaScript returns the array's own objects.
- `InjectContext` and `RewritePath` do not interpret the special replacement patterns of `String.replace` (`$&`, `$'`, `` $` ``, `$$`). The payload and rewrite base are taken literally.
- `Paths` models POSIX paths only. It does not keep a trailing slash, which `path.normalize` would keep. This does not change the asset check.
- `Pages.ContextJson` does not serialize the `iat` and `exp` claims of the caller's token, and it does not escape lone surrogates. Dafny characters cannot be surrogates.
- Length checks in `AuthRoutes` count Unicode scalar values. zod counts UTF-16 code units, so a character outside the Basic Multilingual Plane counts once here and twice there.
- Request bodies of the admin PATCH routes are taken to be well typed. The source does not validate them, so a non-array `roles` there would be spread character by character.
- `ServiceApi.Docs` leaves out the 500 branch. `fs.stat` failures are already caught and reported as a missing file.
- Object-prototype keys used as a `docType` (`constructor`, `toString`) are treated as unknown types. In the source they reach `fs.stat` and end in the same 404.
- Registry.ServiceRegistry.UpdateService: a manifest on disk that `toRuntime` throws on (entry files that are not strings, or a truthy `proxyTarget` that is not a string) is reported as an error with nothing written. In the source, the merged manifest is written back before `toRuntime` throws, and an update that supplies a string `proxyTarget` over a manifest whose only fault was its `proxyTarget` succeeds.
- Manifest field types: a manifest is either well typed (`Parsed`) or `IllTyped` as a whole. Other fields of the wrong type (`name`, `requiredRoles`, `proxyRewrite`) are taken to be well typed, since `toRuntime` does not throw on them.
- The Express wiring, route order, `src/server.ts`, the browser UI and the build script are left out.

## Findings

| source | as written | input that shows it | evidently intended | confidence | as-written member | corrected member |
|---|---|---|---|---|---|---|
| src/routes/servicePages.ts:64 | `finalPath.startsWith(distDir)` compares strings, so a sibling directory whose name extends the asset directory's passes | asset directory `/srv/app/dist`, asset path `../dist-old/secret.js` (more generally `../` + n + t for directory `.../n`, shown for one segment) normalises to `/srv/app/dist-old/...` and is served | only files in the asset directory or below it are served | high; not executed | `Pages.SiblingPrefixEscapes` | `Pages.ServeAssetContained` |
| src/lib/serviceRegistry.ts:30 | the config is read outside the `try` that guards `JSON.parse`, and so is `toRuntime`, which throws when `path.join` (lines 51-52) gets entry files that are not strings or `injectEnv` (line 17) gets a truthy `proxyTarget` that is not a string; each failure rejects `init` and the gateway does not start | a services directory whose first entry `a` has an unreadable `service.config.json`, followed by a valid manifest for `svc` in `b`: `svc` is never registered | a bad manifest is skipped and the others load | medium; not executed | `Registry.UnreadableConfigStopsLoading` | `Registry.ServiceRegistry.InitIsolated` |

`Pages.ServeAsset` keeps the check as written. `Pages.ServeAssetContained`
compares normalised segments instead, and `Pages.ContainedHandlerRefinesGuard`
proves three things about it:

- it never serves more than the handler as written;
- it agrees with that handler on every outcome other than the path check;
- it still serves every asset path without `..`.

`Registry.ServiceRegistry.Init` keeps the loop as written: it stops at the
first entry that throws (`Registry.Aborts`), and only the entries before it
are loaded. `Registry.ServiceRegistry.InitIsolated` skips such entries
instead. It computes `LoadAll` over every entry, so `Registry.BadEntrySkipped`
and `Registry.LoadedIds` describe its result.
