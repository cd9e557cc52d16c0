# A verified model of the request-dispatch core of a configurable HTTP reverse proxy

The proxy (`main.py`) is a small Flask application. It reads a JSON
configuration of named routes and forwards each incoming request to an
upstream server. This project models the decision logic of that program as
pure Dafny functions and proves properties of them:

- **Routing** (`Router`): the route key is the first segment of the matched
  path. The route is looked up in the route table and must be present, not
  empty and enabled. *Universal* routes forward to the literal URL that
  follows the key, which must start with `http://` or `https://`, and do not
  forward the query string. *Standard* routes join `target_url` with the
  subpath and forward the query string.
- **Upstream proxy choice** (`Router.SelectProxy`): a route `proxy` that is
  present and not `null` decides alone, and an empty one disables proxying.
  Otherwise a truthy global proxy is used.
- **Outbound headers** (`Headers`):
  - the client's headers whose lower-cased name is in the drop set are
    dropped;
  - the exact key `Host` is popped;
  - the route's custom headers are then added, overwritten or kept. Each is
    judged against the lower-cased names present before the loop, under the
    policy `route.get('force_header_overwrite', global)`.
- **Response headers** (`Headers.FilterResponseHeaders`): the four
  hop-by-hop/length headers are not relayed.
- **The whole handler** (`Dispatch`): status 404, 400 or 500 for the three
  resolution errors, 502 for a transport failure, otherwise the upstream
  status with the filtered headers.
- **Configuration** (`Config`): `load_config` is a transition from one record
  of globals to the next. It assigns the globals one by one, so a document
  that parses but raises part way leaves a partial update behind.
- **Lifecycle** (`Lifecycle`):
  - the first load decides whether the process exits or serves;
  - the reload-interval mapping: negative means no reloader, 0 means a
    one-second period;
  - one reloader pass reloads exactly when the file's modification time is
    strictly newer than the recorded one.

Python dicts of headers are insertion-ordered lists of `Header(name, value)`
pairs with distinct, case-sensitive names. A JSON object member is a
`Field<T>`: `Absent`, `Null` or `Val(v)`. The distinction matters because
`obj.get(key, default)` yields the default only for a missing key. For an
explicit `null` it yields `None`.

Modules, one file each:

| module | file | what it holds |
|---|---|---|
| `Values` | `values.dfy` | `Option`, `Field` and Python truthiness |
| `Text` | `text.dfy` | ASCII `lower()`, `split('/', 1)`, `find`/`replace(…, 1)`, `lstrip`/`rstrip` |
| `Seqs` | `seqs.dfy` | order-preserving filter (list comprehension with `if`) |
| `Headers` | `headers.dfy` | dict operations, the outbound merge, the response filter |
| `Config` | `config.dfy` | the configuration document, the globals, `load_config` |
| `Lifecycle` | `lifecycle.dfy` | startup, reload trigger and interval, reloader passes |
| `Router` | `router.dfy` | route key, resolution, URL composition, proxy choice |
| `Dispatch` | `dispatch.dfy` | the request handler end to end |
| `Literals` | `literals.dfy` | lower-case forms of the example header names |
| `Scenarios` | `scenarios.dfy` | worked routing examples |
| `HeaderScenarios` | `header_scenarios.dfy` | worked header examples |

### Behaviour a reader might not expect

The model follows `main.py` as written, including these behaviours:

- **`server.base_path` is never read.** The route key is the first segment
  of the path exactly as the framework matched it; no prefix is stripped.
- **No subpath still gives a trailing slash.** A standard route reached with
  nothing after its key forwards to `target_url` with one `/` appended
  (`Router.StandardEmptySubpath`, `Scenarios.StandardWithoutSubpathEndsInSlash`),
  not to `target_url` unchanged.
- **An explicit `null` overwrite policy means "keep".** A route whose
  `force_header_overwrite` is `null` does not inherit the global policy; it
  keeps the client's value (`Headers.OverwritePolicy`).
- **An overwrite is written under the custom key as spelled.** When the
  client's key differs only in case, the overwrite adds a second key and
  leaves the client's in place
  (`HeaderScenarios.OverwriteWithOtherCaseAddsKey`).
- **A failed reload is not all-or-nothing.** A document that parses but
  raises part way still replaces `CONFIG` and the earlier globals
  (`Config.PartialLoadBreaksConsistency`). Only a file that cannot be opened
  or parsed leaves the state untouched.
- **Any negative `reload_interval` disables the reloader,** not only -1.
- **A `null` route stops startup.** The startup dashboard calls `get` on
  every route value, so a route table with a `null` entry makes the process
  exit with status 1 even though `load_config` succeeded
  (`Lifecycle.NullRouteStopsStartup`). The request handler itself answers
  such a route with 404.

## Model

| member | source | states |
|---|---|---|
| `Values.AsOption` | main.py:34 | `obj.get(key)` is `Some` exactly when the member is present and not `null`, and then carries its value |
| `Text.Lower` | main.py:37 | `lower()` keeps the length; each ASCII capital becomes its small letter and every other character is unchanged |
| `Text.SplitFirst` | main.py:69 | `split('/', 1)`: the head holds no `/`; without a tail the head is the whole string; with a tail the string is head, `/`, tail |
| `Text.SplitFirstUnique` | main.py:79 | when the string is a `/`-free head, a `/` and a tail, `split('/', 1)` gives exactly that head and that tail, so `[1]` is the text after the first `/` |
| `Text.FindFrom` | main.py:92 | the search finds the least index at or after the start where the pattern occurs; `None` means it occurs nowhere from there |
| `Text.ReplaceFirst` | main.py:92 | `replace(pat, r, 1)` on a string starting with `pat` gives `r` followed by the rest; with no occurrence the string is unchanged |
| `Text.LStrip` | main.py:92 | `lstrip(c)` yields a suffix that does not start with `c`, and everything it removed is `c` |
| `Text.LStripUnique` | main.py:92 | `lstrip(c)` of a run of `c`s followed by text not starting with `c` is exactly that text |
| `Text.RStrip` | main.py:93 | `rstrip(c)` yields a prefix that does not end with `c`, and everything it removed is `c` |
| `Text.RStripUnique` | main.py:93 | `rstrip(c)` of text not ending in `c` followed by a run of `c`s is exactly that text |
| `Seqs.Filter` | main.py:139 | the comprehension keeps exactly the elements that pass, in their order, with their multiplicities |
| `Seqs.FilterIdempotent` | main.py:139 | filtering a filtered list with the same test changes nothing |
| `Headers.Put` | main.py:120 | `d[k] = v`: afterwards `k` maps to `v` and every other key is unchanged; the entries are the old ones plus `(k, v)`; the keys gain `k`; keys stay distinct; a new key is appended; in a dict, an existing key is overwritten in its own slot and every other entry stays where it was |
| `Headers.Pop` | main.py:111 | `pop('Host', None)`: the key is gone; the other keys and their values are unchanged; the result is the list minus that entry, in order; keys stay distinct |
| `Headers.PutAll` | main.py:110 | inserting pairs one by one gives the union of the keys, takes every entry from the dict or the pairs, and keeps keys distinct; a key named by the pairs ends with the value of its last pair, every other key keeps its value |
| `Headers.PutAllAppends` | main.py:110 | inserting pairs whose names are new and pairwise distinct appends them unchanged, in order |
| `Headers.FromPairs` | main.py:110 | the dict comprehension has distinct keys, exactly the names of the pairs, entries taken from the pairs; each key holds the value of the last pair of that name; it equals the pairs when their names are already distinct |
| `Headers.ForwardHeaders` | main.py:110-111 | the forwarded dict has distinct keys; a key is present iff a client header has it, its lower-cased name is not dropped and it is not `Host`; with distinct client names, the entries are exactly those client headers, in the client's order |
| `Headers.OverwritePolicy` | main.py:115 | a missing route setting inherits the global policy; `null` means keep; an explicit boolean decides |
| `Headers.MergeCustom` | main.py:117-126 | the merge loop keeps every existing key; every custom header it writes is present afterwards; every entry comes from the dict or the custom headers; keys stay distinct |
| `Headers.MergeGet` | main.py:117-126 | key by key, a custom key whose lower-cased name was absent before the loop, or any custom key when overwriting is on, holds the custom value; every other key keeps its value |
| `Headers.MergeKeepsAll` | main.py:118-126 | with overwriting off and every custom name (in lower case) already present, the loop changes nothing |
| `Headers.ApplyCustomHeaders` | main.py:113-126 | the merge step never loses a forwarded key, adds only custom entries, and keeps keys distinct |
| `Headers.CustomHeaderOutcome` | main.py:113-126 | the header-by-header outcome of the merge step, including that an absent or empty `custom_headers` changes nothing |
| `Headers.KeepPolicyIdempotent` | main.py:113-126 | with the keep policy, merging the same custom headers again changes nothing |
| `Headers.FilterResponseHeaders` | main.py:138-139 | the relayed headers are the upstream ones in order, minus exactly those whose lower-cased name is one of the four excluded names, with multiplicities kept |
| `Headers.ResponseFilterIdempotent` | main.py:138-139 | filtering relayed headers again changes nothing |
| `Config.DropSet` | main.py:36-37 | the drop set is the set of lower-cased entries, both inclusions; building it fails exactly when an entry is not a string |
| `Config.LoadConfig` | main.py:21-44 | an unreadable file changes nothing and fails; the load succeeds iff the document parses, is an object with a non-null `server`, yields a drop set, and the mtime is read; success leaves globals consistent with the document and records the mtime; failure keeps the old mtime; a parsed document always replaces `CONFIG`; one that is not an object or has a `null` `server` changes nothing else; one with a usable `server` sets `LOG_REQUESTS`, `GLOBAL_PROXY` and the global overwrite policy from the document even when the drop set then fails, and a failing drop set keeps the old one |
| `Config.LoadReplacesWholesale` | main.py:30-38 | a successful load's result does not depend on the globals it started from |
| `Config.InitialConsistent` | main.py:11-16 | the initial globals are the values an empty configuration yields |
| `Config.PartialLoadBreaksConsistency` | main.py:30-44 | a parseable document with a non-string drop entry fails, yet changes `CONFIG` and `GLOBAL_PROXY` while keeping the old drop set and mtime, leaving the globals inconsistent |
| `Lifecycle.ReloaderPeriod` | main.py:217-218 | a reloader runs iff the interval is at least 0; its period is the interval, or 1 for 0 |
| `Lifecycle.Start` | main.py:146-220 | startup exits with 1 iff the first load fails or the loaded route table has a `null` route (the dashboard's `route_info.get` raises); otherwise it serves consistent globals for the loaded document, records the mtime, and starts a reloader iff `reload_interval` (default -1) is at least 0, with the period `ReloaderPeriod` gives (the interval, or 1 for 0) |
| `Lifecycle.NullRouteStopsStartup` | main.py:183-188 | a document that loads successfully but maps a route key to `null` still makes startup exit with 1 |
| `Lifecycle.StartThenStalePass` | main.py:46-54 | right after startup, a reloader pass that observes the recorded mtime changes nothing |
| `Lifecycle.ShouldReload` | main.py:51 | the reload trigger: the observed modification time is strictly newer than the recorded one (its consequences are stated by `ReloadTick`, `FailedReloadRetries`, `ReloadSettles` and `StartThenStalePass`) |
| `Lifecycle.ReloadTick` | main.py:46-54 | a pass changes the globals only when the observed mtime is strictly newer than the recorded one, and then does exactly what `load_config` does; an unreadable file changes nothing |
| `Lifecycle.FailedReloadRetries` | main.py:50-52 | after a failed reload the same newer mtime still triggers a reload |
| `Lifecycle.ReloadSettles` | main.py:50-52 | after a successful reload, passes that observe the same mtime change nothing |
| `Lifecycle.PassesKeepConsistency` | main.py:46-54 | passes whose loads either succeed or fail before assigning anything keep the globals consistent |
| `Lifecycle.StalePassesChangeNothing` | main.py:46-54 | passes that never observe a newer mtime never change the globals |
| `Router.RouteKey` | main.py:69 | the route key is a `/`-free prefix of the path, followed in the path by `/` unless it is the whole path |
| `Router.Resolve` | main.py:69-94 | not-found iff the looked-up entry is missing, empty or disabled; a forward carries the looked-up route; the query is forwarded iff the route is standard; a universal forward's URL is the text after `key/` and is http(s); a bad universal target comes from a universal route; a missing target comes from a standard route with no truthy `target_url` |
| `Router.SubpathAfterKey` | main.py:91-92 | with the request path being `/` plus the path, the subpath is the text after the route key with leading `/`s removed |
| `Router.UniversalOutcome` | main.py:77-85 | a universal route forwards the text after the first `/` iff it starts with `http://` or `https://`; otherwise it rejects, carrying that text, or nothing when there is no `/` |
| `Router.StandardOutcome` | main.py:86-94 | for a target that is a base plus trailing `/`s and a path that is key, `/`s and a subpath, the URL is base, one `/`, subpath, and the query is forwarded |
| `Router.StandardEmptySubpath` | main.py:92-93 | a standard route reached with only its key forwards to the target with trailing `/`s removed and exactly one `/` appended |
| `Router.SelectProxy` | main.py:102-107 | both schemes get the same non-empty proxy; a present non-null route proxy is used iff non-empty; otherwise the global proxy is used iff truthy |
| `Dispatch.PlanRequest` | main.py:61-127 | the handler crashes iff the routes member is unusable; a rejection carries the status of its resolution error; a send carries the resolved URL, forwards the query iff the resolution does (never for a universal route, always for a standard one), uses the selected proxy, and sends exactly the custom-header merge applied to the forwarded client headers, which has distinct keys, each from the client (not dropped, not `Host`) or from the route's custom headers |
| `Dispatch.Complete` | main.py:131-140 | a reply relays iff the plan sends and upstream responded; a relay has upstream's status and upstream's headers in order minus the excluded ones, each kept as often as upstream sent it; a transport failure gives 502; rejections keep their status; a crash gives 500 |
| `Dispatch.Handle` | main.py:61-140 | end to end: an unusable route table gives 500; an unresolved route gives its resolution error's status; a resolved route relays upstream's status and filtered headers, or gives 502 on a transport failure |
| `Dispatch.RoutesOf` | main.py:62-70 | the handler can look routes up iff the configuration is an object whose `routes` is not `null`; a missing `routes` is the empty table |
| `Dispatch.StatusOf` | main.py:72-90 | not found is 404, a bad universal target 400, a missing target 500, and only a forward is not an error |
| `Dispatch.HandleStatuses` | main.py:72-140 | every error reply is 400, 404, 500 or 502; every relay has upstream's status and none of the excluded headers |
| `Dispatch.UnroutableIsNotFound` | main.py:72-73 | a missing, empty or disabled route is answered with 404 whatever else the request holds |
| `Dispatch.OutboundClientHeaders` | main.py:110-126 | a key no custom header uses reaches the upstream with the client's value unless its lower-cased name is dropped or it is `Host` |
| `Dispatch.MergeOnlyWritesCustomKeys` | main.py:118-126 | the merge loop writes only custom keys |
| `Dispatch.ForwardedGet` | main.py:110-111 | key by key, the forwarded headers are the client's minus dropped names and `Host` |
| `Scenarios.UniversalForwardsLiteralTarget` | main.py:77-85 | `proxyroute/https://api.example.com/x` forwards to `https://api.example.com/x` without the query |
| `Scenarios.UniversalRejectsOtherScheme` | main.py:80-84 | `proxyroute/ftp://bad` is rejected with the target `ftp://bad` |
| `Scenarios.UniversalWithoutTarget` | main.py:78-84 | `proxyroute` alone is rejected without a target |
| `Scenarios.StandardJoinsSubpath` | main.py:87-94 | `svc/a/b` forwards to `https://up.example.com/base/a/b` with the query |
| `Scenarios.StandardWithoutSubpathEndsInSlash` | main.py:91-93 | `svc` alone forwards to `https://up.example.com/base/` |
| `Scenarios.MissingRoute` | main.py:70-73 | an unknown route key is not found |
| `Scenarios.DisabledRoutes` | main.py:72-73 | a route with `enabled` false or `null` is not found |
| `Scenarios.ProxyChoices` | main.py:102-107 | an empty route proxy overrides a global one; a non-empty route proxy is used; a `null` route proxy falls back; an empty global proxy means none |
| `HeaderScenarios.OverwriteOn` | main.py:115-124 | with the policy on, from the global default or the route, the custom value replaces the client's |
| `HeaderScenarios.OverwriteOff` | main.py:115-126 | with the policy off, from the global default or an explicit `null`, the client's value stays |
| `HeaderScenarios.OverwriteWithOtherCaseAddsKey` | main.py:117-123 | overwriting `X-Trace` with custom `x-trace` keeps `X-Trace` and appends `x-trace` |
| `HeaderScenarios.CustomHeaderSurvivesDropSet` | main.py:110-120 | a dropped client header comes back when a custom header of that name is configured |
| `HeaderScenarios.NothingForwarded` | main.py:110-111 | when every client header is dropped or is `Host`, no client header is forwarded |
| `HeaderScenarios.ResponseFilterExample` | main.py:138-139 | `CONNECTION` is dropped whatever its case, and other headers are relayed in order |

## Left out

- Flask plumbing: the route decorator, `request`, `jsonify` bodies, the
  root handler, and the `Response` object. `Response` is given the streamed
  body and `content_type=target_response.headers.get('content-type')`, so the
  framework may still add its own default `Content-Type` when upstream sent
  none; the model states only the header list the handler passes in. The matched `path` and `request.path` are inputs. The
  framework's own path normalisation is not modelled, so the model does not
  assume that `request.path` is `/` plus the matched path. Only the lemmas
  that need it say so.
- The outbound HTTP call: method, body, streaming, timeout and redirects.
  Its outcome (a transport failure, or a status with raw headers) is an
  input to `Dispatch.Complete`. Exceptions other than a transport failure
  are not modelled.
- The query parameters themselves. The model records only whether the query
  string is forwarded.
- File I/O and the clock. `open`/`json.load` become a `ParseResult` and
  `os.path.getmtime` becomes an optional integer. Non-integer modification
  times are not modelled. The default `CONFIG_PATH` computation is left out.
- Concurrency: the lock, the reloader thread and `sleep`. Each handler call
  reads one snapshot of the globals and each reloader pass is one atomic
  step, which is what the lock guarantees for the assignments themselves.
- Logging, the `werkzeug` logger switch, and the text of the startup
  dashboard. The dashboard's one effect on a decision, the exception a
  `null` route raises, is modelled by `Lifecycle.Start`; other ill-typed
  route values that would raise there are left out with the other
  unexpected JSON types below. `host` and `port` only reach `app.run`.
- JSON values of unexpected types:
  - a non-boolean `enabled`, `universal_proxy`, `force_header_overwrite` or
    `log_requests`;
  - a non-string `target_url` or `proxy`;
  - a non-object route, `server` or `custom_headers`;
  - a `headers_to_drop` that is a string or an object;
  - a `null` `reload_interval`.

  Only the well-typed shapes, `null` and absence are modelled, apart from
  non-string drop entries, which are modelled because they produce a partial
  load.
- `Text.Lower`: only ASCII letters are mapped, while Python's `str.lower()`
  also lower-cases non-ASCII letters. Header names are ASCII in practice.
- `Text.ReplaceFirst`: the contract covers a match at the start and no match
  at all, the two cases the handler can meet. A match further in is given by
  the body only.
- `Headers.FromPairs`: the position a repeated name takes (that of its
  first pair) is given by the body only; the contract states the keys, the
  values and the distinct-names case.
- `Router.StandardOutcome`: it is stated for requests whose `request.path`
  is `/` followed by the matched path. `Router.Resolve` itself takes the two
  independently.
