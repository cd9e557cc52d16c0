/** The routing decision of the request handler: route key, route lookup,
    universal versus standard resolution, the outbound URL, and the choice
    of upstream proxy. There is no base-path stripping: the handler works on
    the path exactly as the framework hands it over. */
module Router {
  import opened Values
  import opened Text
  import opened Headers
  import opened Config

  /** `path.split('/', 1)[0]`: everything before the first `/`, or the
      whole path when there is none. */
  function RouteKey(path: string): (key: string)
    ensures key <= path && '/' !in key
    ensures key == path || path[|key|] == '/'
  {
    var parts := SplitFirst(path, '/');
    assert parts.tail.Some? ==> path[|parts.head|] == '/' by {
      if parts.tail.Some? {
        assert path == parts.head + ['/'] + parts.tail.value;
      }
    }
    parts.head
  }

  /** `routes.get(key)`, with a `null` value read as `None`. */
  function LookupRoute(routes: map<string, Option<Route>>, key: string): Option<Route> {
    if key in routes then routes[key] else None
  }

  /** A route entry the handler goes on with: present, not the empty object,
      and with a truthy `enabled` (missing means true, `null` means false). */
  predicate Dispatchable(entry: Option<Route>) {
    entry.Some? && !IsEmptyObject(entry.value) && TruthyOr(entry.value.enabled, true)
  }

  predicate IsUniversal(route: Route) {
    TruthyOr(route.universalProxy, false)
  }

  predicate IsHttpUrl(s: string) {
    StartsWith(s, "http://") || StartsWith(s, "https://")
  }

  /** The outcome of route resolution. `BadUniversalTarget` carries the
      rejected target, or `None` when the path has no `/` at all and
      `split('/', 1)[1]` raises `IndexError`. */
  datatype Resolution =
    | NotFound(key: string)
    | BadUniversalTarget(key: string, attempted: Option<string>)
    | MissingTarget(key: string)
    | Forward(key: string, route: Route, url: string, forwardsQuery: bool)

  /** Standard-mode URL composition: the target with every trailing `/`
      removed, then one `/`, then the subpath. The `/` is written even when
      the subpath is empty. */
  function JoinTarget(targetUrl: string, subpath: string): string {
    RStrip(targetUrl, '/') + "/" + subpath
  }

  /** The standard-mode subpath as the handler computes it from the request
      path: the first `/<key>` removed, then every leading `/`. */
  function Subpath(requestPath: string, key: string): string {
    LStrip(ReplaceFirst(requestPath, "/" + key, ""), '/')
  }

  /** Route resolution for the matched `path` and the full `requestPath`.
      Universal routes take the rest of the path as the literal target and
      forward no query string; standard routes join `target_url` with the
      subpath and forward the query string. */
  function Resolve(routes: map<string, Option<Route>>, path: string, requestPath: string): (r: Resolution)
    ensures r.key == RouteKey(path)
    ensures r.NotFound? <==> !Dispatchable(LookupRoute(routes, r.key))
    ensures !r.NotFound? ==> LookupRoute(routes, r.key).Some?
    ensures r.Forward? ==> LookupRoute(routes, r.key) == Some(r.route)
    ensures r.Forward? ==> (r.forwardsQuery <==> !IsUniversal(r.route))
    ensures r.BadUniversalTarget? ==> IsUniversal(LookupRoute(routes, r.key).value)
    ensures r.MissingTarget? ==>
              var route := LookupRoute(routes, r.key).value;
              !IsUniversal(route) && !NonEmptyString(route.targetUrl)
    ensures r.Forward? && IsUniversal(r.route) ==> path == r.key + "/" + r.url && IsHttpUrl(r.url)
    ensures r.Forward? && !IsUniversal(r.route) ==> NonEmptyString(r.route.targetUrl)
  {
    var parts := SplitFirst(path, '/');
    var key := parts.head;
    var entry := LookupRoute(routes, key);
    if !Dispatchable(entry) then NotFound(key)
    else
      var route := entry.value;
      if IsUniversal(route) then
        match parts.tail
        case None => BadUniversalTarget(key, None)
        case Some(target) =>
          if IsHttpUrl(target) then Forward(key, route, target, false)
          else BadUniversalTarget(key, Some(target))
      else if !NonEmptyString(route.targetUrl) then MissingTarget(key)
      else Forward(key, route, JoinTarget(route.targetUrl.value, Subpath(requestPath, key)), true)
  }

  /** With the request path being `/` followed by the matched path, the
      subpath is the path after the route key with every leading `/`
      removed. */
  lemma {:induction false} SubpathAfterKey(path: string)
    ensures Subpath("/" + path, RouteKey(path)) == LStrip(path[|RouteKey(path)|..], '/')
  {
    var key := RouteKey(path);
    var requestPath := "/" + path;
    var pat := "/" + key;
    assert |pat| == |key| + 1;
    assert pat <= requestPath by {
      assert forall i :: 1 <= i < |pat| ==> pat[i] == key[i - 1] && requestPath[i] == path[i - 1];
    }
    var replaced := ReplaceFirst(requestPath, pat, "");
    assert replaced == requestPath[|pat|..];
    assert requestPath[|pat|..] == path[|key|..];
  }

  /** Universal resolution in terms of the path alone: a dispatchable
      universal route forwards exactly the text after the first `/` when it
      starts with `http://` or `https://`, and rejects otherwise, carrying
      that text, or nothing when the path has no `/`. */
  lemma {:induction false} UniversalOutcome(routes: map<string, Option<Route>>, path: string, requestPath: string)
    requires Dispatchable(LookupRoute(routes, RouteKey(path)))
    requires IsUniversal(LookupRoute(routes, RouteKey(path)).value)
    ensures var key := RouteKey(path);
            var route := LookupRoute(routes, key).value;
            var r := Resolve(routes, path, requestPath);
            && ('/' !in path ==> r == BadUniversalTarget(path, None))
            && (forall target :: path == key + "/" + target ==>
                  r == if IsHttpUrl(target) then Forward(key, route, target, false)
                       else BadUniversalTarget(key, Some(target)))
  {
    var key := RouteKey(path);
    var parts := SplitFirst(path, '/');
    forall target | path == key + "/" + target
      ensures parts == Split(key, Some(target))
    {
      SplitFirstUnique(path, '/', key, target);
    }
    if '/' !in path {
      assert parts.tail.None?;
    }
  }

  /** Standard resolution of a request whose path is `/` followed by the
      matched path, stated without the strip operations: split the target
      URL into a base not ending in `/` followed by only `/`s, and the path
      after the key into only `/`s followed by a subpath not starting with
      `/`; the URL is the base, one `/`, and the subpath, and the query
      string is forwarded. */
  lemma {:induction false} StandardOutcome(routes: map<string, Option<Route>>, path: string, key: string,
                                           base: string, trail: string, lead: string, sub: string)
    requires key == RouteKey(path)
    requires Dispatchable(LookupRoute(routes, key))
    requires !IsUniversal(LookupRoute(routes, key).value)
    requires LookupRoute(routes, key).value.targetUrl == Val(base + trail) && base + trail != ""
    requires AllChars(trail, '/') && (base == [] || base[|base| - 1] != '/')
    requires path == key + lead + sub && AllChars(lead, '/')
    requires sub == [] || sub[0] != '/'
    ensures Resolve(routes, path, "/" + path) == Forward(key, LookupRoute(routes, key).value, base + "/" + sub, true)
  {
    var url := base + "/" + sub;
    assert JoinTarget(base + trail, LStrip(path[|key|..], '/')) == url by {
      RStripUnique(base + trail, '/', base, trail);
      StripAfterKey(path, key, lead, sub);
    }
    StandardResolvesTo(routes, path, key, url);
  }

  lemma {:induction false} StandardResolvesTo(routes: map<string, Option<Route>>, path: string, key: string, url: string)
    requires key == RouteKey(path)
    requires Dispatchable(LookupRoute(routes, key))
    requires !IsUniversal(LookupRoute(routes, key).value)
    requires NonEmptyString(LookupRoute(routes, key).value.targetUrl)
    requires JoinTarget(LookupRoute(routes, key).value.targetUrl.value, LStrip(path[|key|..], '/')) == url
    ensures Resolve(routes, path, "/" + path) == Forward(key, LookupRoute(routes, key).value, url, true)
  {
    StandardUrl(routes, path);
  }

  lemma {:induction false} StripAfterKey(path: string, key: string, lead: string, sub: string)
    requires path == key + lead + sub && AllChars(lead, '/')
    requires sub == [] || sub[0] != '/'
    ensures LStrip(path[|key|..], '/') == sub
  {
    assert path[|key|..] == lead + sub;
    LStripUnique(path[|key|..], '/', lead, sub);
  }

  /** The standard-mode URL in terms of the strip operations. */
  lemma {:induction false} StandardUrl(routes: map<string, Option<Route>>, path: string)
    requires Dispatchable(LookupRoute(routes, RouteKey(path)))
    requires !IsUniversal(LookupRoute(routes, RouteKey(path)).value)
    requires NonEmptyString(LookupRoute(routes, RouteKey(path)).value.targetUrl)
    ensures var key := RouteKey(path);
            var route := LookupRoute(routes, key).value;
            Resolve(routes, path, "/" + path) ==
              Forward(key, route, JoinTarget(route.targetUrl.value, LStrip(path[|key|..], '/')), true)
  {
    SubpathAfterKey(path);
  }

  /** A standard route reached with nothing after its key (no subpath)
      forwards to the target with one `/` appended: the `/` of the join is
      written even then. */
  lemma {:induction false} StandardEmptySubpath(routes: map<string, Option<Route>>, key: string)
    requires '/' !in key
    requires Dispatchable(LookupRoute(routes, key))
    requires !IsUniversal(LookupRoute(routes, key).value)
    requires NonEmptyString(LookupRoute(routes, key).value.targetUrl)
    ensures var r := Resolve(routes, key, "/" + key);
            r.Forward? && r.url == RStrip(LookupRoute(routes, key).value.targetUrl.value, '/') + "/"
  {
    SplitFirstUnique(key + "/", '/', key, "");
    assert RouteKey(key) == key by {
      var parts := SplitFirst(key, '/');
      assert parts.tail.None?;
    }
    SubpathAfterKey(key);
    assert key[|key|..] == [];
  }

  /** The proxies mapping handed to the HTTP client: one proxy URL for both
      schemes. */
  datatype Proxies = Proxies(http: string, https: string)

  /** Upstream proxy selection. A route `proxy` that is present and not
      `null` decides alone: a non-empty one is used, an empty one means no
      proxy even when a global proxy is set. A missing or `null` route proxy
      falls back to a truthy global proxy. */
  function SelectProxy(routeProxy: Field<string>, globalProxy: Option<string>): (r: Option<Proxies>)
    ensures r.Some? ==> r.value.http == r.value.https && r.value.http != ""
    ensures routeProxy.Val? ==> (r.Some? <==> routeProxy.value != "")
    ensures routeProxy.Val? && r.Some? ==> r.value.http == routeProxy.value
    ensures !routeProxy.Val? ==> (r.Some? <==> globalProxy.Some? && globalProxy.value != "")
    ensures !routeProxy.Val? && r.Some? ==> r.value.http == globalProxy.value
  {
    match routeProxy
    case Val(p) => if p != "" then Some(Proxies(p, p)) else None
    case _ =>
      if globalProxy.Some? && globalProxy.value != "" then Some(Proxies(globalProxy.value, globalProxy.value))
      else None
  }
}
