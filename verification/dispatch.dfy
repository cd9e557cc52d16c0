/** The request handler as a whole: from the globals, the matched path and
    the inbound headers to either an immediate error reply or the outbound
    request, and from the upstream outcome to the reply. The HTTP client is
    not modelled; its outcome is an input. */
module Dispatch {
  import opened Values
  import opened Text
  import opened Seqs
  import opened Headers
  import opened Config
  import opened Router

  /** Everything the handler hands to the HTTP client besides the method
      and body, which pass through untouched. */
  datatype Outbound = Outbound(url: string, forwardsQuery: bool, proxies: Option<Proxies>, headers: HeaderList)

  /** What the handler decides before any network traffic. `Crashed` is an
      exception escaping the handler, which the framework answers with 500. */
  datatype Plan =
    | Crashed
    | Rejected(status: int, cause: Resolution)
    | Send(cause: Resolution, request: Outbound)

  /** `CONFIG.get('routes', {})` as the handler sees it: `None` when it
      raises (`CONFIG` is not an object) or yields `null`, whose `.get` then
      raises. */
  function RoutesOf(doc: Document): (r: Option<map<string, Option<Route>>>)
    ensures r.None? <==> !doc.Object? || doc.routes.Null?
    ensures doc.Object? && doc.routes.Absent? ==> r == Some(map[])
    ensures doc.Object? && doc.routes.Val? ==> r == Some(doc.routes.value)
  {
    match doc
    case NotAnObject => None
    case Object(_, _, _, _, routes) =>
      match routes
      case Absent => Some(map[])
      case Null => None
      case Val(m) => Some(m)
  }

  /** The status each resolution error is answered with. */
  function StatusOf(r: Resolution): (s: int)
    ensures s == 200 <==> r.Forward?
    ensures r.NotFound? ==> s == 404
    ensures r.BadUniversalTarget? ==> s == 400
    ensures r.MissingTarget? ==> s == 500
  {
    match r
    case NotFound(_) => 404
    case BadUniversalTarget(_, _) => 400
    case MissingTarget(_) => 500
    case Forward(_, _, _, _) => 200
  }

  /** The handler up to the outbound call: resolve the route, choose the
      upstream proxy, and build the outbound headers (drop set, `Host`,
      custom headers) from one snapshot of the globals. */
  function PlanRequest(g: Globals, path: string, requestPath: string, inbound: HeaderList): (p: Plan)
    ensures p.Crashed? <==> RoutesOf(g.config).None?
    ensures p.Rejected? ==> !p.cause.Forward? && p.status == StatusOf(p.cause)
    ensures p.Rejected? ==> p.status in {400, 404, 500}
    ensures !p.Crashed? ==> p.cause == Resolve(RoutesOf(g.config).value, path, requestPath)
    ensures p.Send? ==> p.cause.Forward? && p.request.url == p.cause.url
    ensures p.Send? ==> p.request.forwardsQuery == p.cause.forwardsQuery
    ensures p.Send? ==> p.request.proxies == SelectProxy(p.cause.route.proxy, g.globalProxy)
    ensures p.Send? ==>
              var forwarded := ForwardHeaders(inbound, g.headersToDrop);
              var route := p.cause.route;
              p.request.headers == ApplyCustomHeaders(forwarded, route.customHeaders,
                                                      route.forceHeaderOverwrite, g.forceOverwriteGlobal)
    ensures p.Send? ==> DistinctNames(p.request.headers)
    ensures p.Send? ==> forall h :: h in p.request.headers ==>
              (h in inbound && Lower(h.name) !in g.headersToDrop && h.name != "Host")
              || h in CustomList(p.cause.route.customHeaders)
  {
    match RoutesOf(g.config)
    case None => Crashed
    case Some(routes) =>
      var res := Resolve(routes, path, requestPath);
      if !res.Forward? then Rejected(StatusOf(res), res)
      else
        var proxies := SelectProxy(res.route.proxy, g.globalProxy);
        var forwarded := ForwardHeaders(inbound, g.headersToDrop);
        var headers := ApplyCustomHeaders(forwarded, res.route.customHeaders,
                                          res.route.forceHeaderOverwrite, g.forceOverwriteGlobal);
        Send(res, Outbound(res.url, res.forwardsQuery, proxies, headers))
  }

  /** The outcome of the outbound call: a transport failure (connection,
      timeout, DNS), or a response with its status and raw headers. */
  datatype Upstream = TransportFailed | Responded(status: int, headers: HeaderList)

  /** The handler's return value: a JSON error with a status, or a relayed
      response given by the upstream status and the header list the handler
      passes to `Response` (the streamed body and the `content_type`
      argument are not modelled). */
  datatype Reply = ErrorReply(status: int) | Relay(status: int, headers: HeaderList)

  /** The reply for a plan and the upstream outcome. */
  function Complete(p: Plan, upstream: Upstream): (r: Reply)
    ensures r.Relay? <==> p.Send? && upstream.Responded?
    ensures r.Relay? ==> r.status == upstream.status
    ensures r.Relay? ==> IsSubsequence(r.headers, upstream.headers)
    ensures r.Relay? ==> forall h :: h in r.headers <==> h in upstream.headers && Relayable(h)
    ensures r.Relay? ==> forall h :: multiset(r.headers)[h] == if Relayable(h) then multiset(upstream.headers)[h] else 0
    ensures r.ErrorReply? && p.Send? ==> r.status == 502
    ensures p.Rejected? ==> r == ErrorReply(p.status)
    ensures p.Crashed? ==> r == ErrorReply(500)
  {
    match p
    case Crashed => ErrorReply(500)
    case Rejected(status, _) => ErrorReply(status)
    case Send(_, _) =>
      match upstream
      case TransportFailed => ErrorReply(502)
      case Responded(status, headers) => Relay(status, FilterResponseHeaders(headers))
  }

  /** One request end to end: 500 when the route table is unusable, the
      resolution error's status when the route does not resolve, and for a
      resolved route the filtered upstream response or 502. */
  function Handle(g: Globals, path: string, requestPath: string, inbound: HeaderList, upstream: Upstream): (r: Reply)
    ensures RoutesOf(g.config).None? ==> r == ErrorReply(500)
    ensures RoutesOf(g.config).Some? ==>
              var res := Resolve(RoutesOf(g.config).value, path, requestPath);
              && (!res.Forward? ==> r == ErrorReply(StatusOf(res)))
              && (res.Forward? && upstream.TransportFailed? ==> r == ErrorReply(502))
              && (res.Forward? && upstream.Responded? ==>
                    r == Relay(upstream.status, FilterResponseHeaders(upstream.headers)))
  {
    Complete(PlanRequest(g, path, requestPath, inbound), upstream)
  }

  /** Every error the handler itself produces is one of 400, 404, 500 and
      502; every other reply relays the upstream status and none of the four
      excluded headers. */
  lemma HandleStatuses(g: Globals, path: string, requestPath: string, inbound: HeaderList, upstream: Upstream)
    ensures var r := Handle(g, path, requestPath, inbound, upstream);
            && (r.ErrorReply? ==> r.status in {400, 404, 500, 502})
            && (r.Relay? ==> upstream.Responded? && r.status == upstream.status)
            && (r.Relay? ==> forall h :: h in r.headers ==> Lower(h.name) !in ExcludedResponseHeaders)
  {
  }

  /** A disabled, empty or missing route is answered with 404 whatever the
      rest of the path, the inbound headers or the upstream would be. */
  lemma UnroutableIsNotFound(g: Globals, path: string, requestPath: string, inbound: HeaderList, upstream: Upstream)
    requires RoutesOf(g.config).Some?
    requires !Dispatchable(LookupRoute(RoutesOf(g.config).value, RouteKey(path)))
    ensures Handle(g, path, requestPath, inbound, upstream) == ErrorReply(404)
  {
  }

  /** A header that custom headers do not mention reaches the upstream only
      if the client sent it, its lower-cased name is not dropped and it is
      not `Host`; and with a well-formed request every such client header
      does reach it. */
  lemma OutboundClientHeaders(g: Globals, path: string, requestPath: string, inbound: HeaderList, k: string)
    requires DistinctNames(inbound)
    requires PlanRequest(g, path, requestPath, inbound).Send?
    requires Get(CustomList(PlanRequest(g, path, requestPath, inbound).cause.route.customHeaders), k).None?
    ensures var out := PlanRequest(g, path, requestPath, inbound).request.headers;
            Get(out, k) == if Lower(k) in g.headersToDrop || k == "Host" then None else Get(inbound, k)
  {
    var p := PlanRequest(g, path, requestPath, inbound);
    var route := p.cause.route;
    var forwarded := ForwardHeaders(inbound, g.headersToDrop);
    var custom := CustomList(route.customHeaders);
    assert p.request.headers ==
           ApplyCustomHeaders(forwarded, route.customHeaders, route.forceHeaderOverwrite, g.forceOverwriteGlobal);
    if route.customHeaders.Val? && |route.customHeaders.value| > 0 {
      // the loop only writes custom keys
      MergeOnlyWritesCustomKeys(forwarded, LowerNames(forwarded), custom,
                                OverwritePolicy(route.forceHeaderOverwrite, g.forceOverwriteGlobal), k);
    }
    ForwardedGet(inbound, g.headersToDrop, k);
  }

  /** A key no custom header uses keeps its value through the merge loop. */
  lemma {:induction false} MergeOnlyWritesCustomKeys(d: HeaderList, present: set<string>, custom: HeaderList, overwrite: bool, k: string)
    requires Get(custom, k).None?
    ensures Get(MergeCustom(d, present, custom, overwrite), k) == Get(d, k)
    decreases |custom|
  {
    if |custom| > 0 {
      var c := custom[0];
      var next := if Writes(c, present, overwrite) then Put(d, c.name, c.value) else d;
      assert c.name != k;
      MergeOnlyWritesCustomKeys(next, present, custom[1..], overwrite, k);
    }
  }

  /** Key by key, the forwarded headers of a request with distinct header
      names are the inbound ones minus dropped names and `Host`. */
  lemma ForwardedGet(inbound: HeaderList, drop: set<string>, k: string)
    requires DistinctNames(inbound)
    ensures Get(ForwardHeaders(inbound, drop), k) == if Lower(k) in drop || k == "Host" then None else Get(inbound, k)
  {
    var r := ForwardHeaders(inbound, drop);
    if !(Lower(k) in drop || k == "Host") && Get(inbound, k).Some? {
      var v := Get(inbound, k).value;
      assert Header(k, v) in r;
      GetMember(r, Header(k, v));
    }
  }

  /** In a list with distinct names, a member is what `Get` finds. */
  lemma {:induction false} GetMember(d: HeaderList, h: Header)
    requires DistinctNames(d) && h in d
    ensures Get(d, h.name) == Some(h.value)
  {
    if d[0] != h {
      assert h in d[1..];
      DropFirstDistinct(d);
      var m :| 0 <= m < |d[1..]| && d[1..][m] == h;
      assert d[m + 1] == h;
      GetMember(d[1..], h);
    }
  }
}
