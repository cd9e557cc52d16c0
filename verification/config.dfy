/** The configuration document and the process-wide globals derived from it,
    with `load_config` as a transition from one globals record to the next. */
module Config {
  import opened Values
  import opened Text
  import opened Headers

  /** One value of the `routes` object. `otherKeys` records whether the JSON
      object has members the proxy never reads; it matters only for deciding
      whether the object is empty, and an empty object is falsy. */
  datatype Route = Route(
    enabled: Field<bool>,
    universalProxy: Field<bool>,
    targetUrl: Field<string>,
    customHeaders: Field<HeaderList>,
    forceHeaderOverwrite: Field<bool>,
    proxy: Field<string>,
    otherKeys: bool)

  /** `{}`: the route object with no members at all. */
  predicate IsEmptyObject(r: Route) {
    && r.enabled.Absent? && r.universalProxy.Absent? && r.targetUrl.Absent?
    && r.customHeaders.Absent? && r.forceHeaderOverwrite.Absent? && r.proxy.Absent?
    && !r.otherKeys
  }

  /** The members of the `server` object that the core reads (`host` and
      `port` only reach the web framework). */
  datatype Server = Server(logRequests: Field<bool>, reloadInterval: Option<int>)

  /** An element of the `headers_to_drop` list. */
  datatype DropEntry = DropName(name: string) | NotAString

  /** What `json.load` returns for the configuration file. A route table
      value of `null` is a `None` route. */
  datatype Document =
    | NotAnObject
    | Object(
        server: Field<Server>,
        globalProxy: Field<string>,
        forceHeaderOverwrite: Field<bool>,
        headersToDrop: Field<seq<DropEntry>>,
        routes: Field<map<string, Option<Route>>>)

  /** The outcome of opening and parsing the file; `Unreadable` stands for
      every exception raised by `open` or `json.load`. */
  datatype ParseResult = Unreadable | Parsed(doc: Document)

  /** The module-level globals of the proxy. Only the truthiness of
      `LOG_REQUESTS` and `FORCE_HEADER_OVERWRITE_GLOBAL` is ever used, so
      they are kept as booleans. Modification times are integers. */
  datatype Globals = Globals(
    config: Document,
    logRequests: bool,
    globalProxy: Option<string>,
    forceOverwriteGlobal: bool,
    headersToDrop: set<string>,
    lastMtime: int)

  /** The values the globals hold before the first load. */
  const Initial: Globals :=
    Globals(Object(Absent, Absent, Absent, Absent, Absent), true, None, false, {}, 0)

  /** `{h.lower() for h in headers_list}`; `None` when an element is not a
      string, where `.lower()` raises. */
  function DropSet(entries: seq<DropEntry>): (r: Option<set<string>>)
    ensures r.None? <==> exists i :: 0 <= i < |entries| && entries[i].NotAString?
    ensures r.Some? ==> forall i :: 0 <= i < |entries| ==> Lower(entries[i].name) in r.value
    ensures r.Some? ==> forall x :: x in r.value ==> exists i :: 0 <= i < |entries| && Lower(entries[i].name) == x
  {
    if |entries| == 0 then Some({})
    else
      var rest := DropSet(entries[1..]);
      assert forall i :: 1 <= i < |entries| ==> entries[i] == entries[1..][i - 1];
      match entries[0]
      case NotAString => None
      case DropName(n) =>
        if rest.None? then None
        else
          assert forall x :: x in rest.value ==> exists i :: 0 <= i < |entries| && Lower(entries[i].name) == x by {
            forall x | x in rest.value ensures exists i :: 0 <= i < |entries| && Lower(entries[i].name) == x {
              var j :| 0 <= j < |entries[1..]| && Lower(entries[1..][j].name) == x;
              assert entries[j + 1] == entries[1..][j];
            }
          }
          Some({Lower(n)} + rest.value)
  }

  /** The drop set a document yields, `None` when building it raises
      (`headers_to_drop` is `null` or holds a non-string). */
  function DropSetOf(doc: Document): Option<set<string>>
    requires doc.Object?
  {
    match doc.headersToDrop
    case Absent => Some({})
    case Null => None
    case Val(entries) => DropSet(entries)
  }

  /** `CONFIG.get('server', {}).get('log_requests', True)`, for truthiness. */
  function LogRequestsOf(doc: Document): bool
    requires doc.Object?
  {
    if doc.server.Val? then TruthyOr(doc.server.value.logRequests, true) else true
  }

  /** A document the assignments of `load_config` get through without
      raising. */
  predicate Loadable(doc: Document) {
    doc.Object? && !doc.server.Null? && DropSetOf(doc).Some?
  }

  /** The three scalar globals hold what the document `doc` yields for
      them: `LOG_REQUESTS`, `GLOBAL_PROXY` and `FORCE_HEADER_OVERWRITE_GLOBAL`. */
  predicate ScalarsFrom(g: Globals, doc: Document)
    requires doc.Object?
  {
    && g.logRequests == LogRequestsOf(doc)
    && g.globalProxy == AsOption(doc.globalProxy)
    && g.forceOverwriteGlobal == TruthyOr(doc.forceHeaderOverwrite, false)
  }

  /** Every derived global agrees with the document stored in `CONFIG`:
      the state a complete, exception-free load leaves behind. */
  predicate Consistent(g: Globals) {
    && Loadable(g.config)
    && ScalarsFrom(g, g.config)
    && DropSetOf(g.config) == Some(g.headersToDrop)
  }

  datatype LoadResult = LoadResult(globals: Globals, ok: bool)

  /** `load_config`: the file is opened and parsed before anything is
      assigned, then the globals are assigned one by one in source order;
      an exception part way leaves the earlier assignments in place and
      returns false. `mtime` is what the final `getmtime` call returns
      (`None` when it raises). */
  function LoadConfig(g: Globals, parsed: ParseResult, mtime: Option<int>): (r: LoadResult)
    ensures parsed.Unreadable? ==> r == LoadResult(g, false)
    ensures r.ok <==> parsed.Parsed? && Loadable(parsed.doc) && mtime.Some?
    ensures r.ok ==> Consistent(r.globals) && r.globals.config == parsed.doc && r.globals.lastMtime == mtime.value
    ensures !r.ok ==> r.globals.lastMtime == g.lastMtime
    ensures parsed.Parsed? ==> r.globals.config == parsed.doc
    // the stages of a parsed document that raises part way
    ensures parsed.Parsed? && (!parsed.doc.Object? || parsed.doc.server.Null?) ==>
              r.globals == g.(config := parsed.doc)
    ensures parsed.Parsed? && parsed.doc.Object? && !parsed.doc.server.Null? ==>
              ScalarsFrom(r.globals, parsed.doc)
    ensures parsed.Parsed? && !Loadable(parsed.doc) ==> r.globals.headersToDrop == g.headersToDrop
    ensures parsed.Parsed? && Loadable(parsed.doc) ==> Consistent(r.globals)
  {
    match parsed
    case Unreadable => LoadResult(g, false)
    case Parsed(doc) =>
      var withConfig := g.(config := doc);
      if !doc.Object? || doc.server.Null? then
        // `CONFIG.get` on a non-object, or `.get` on a `null` server, raises
        LoadResult(withConfig, false)
      else
        var withScalars := withConfig.(
          logRequests := LogRequestsOf(doc),
          globalProxy := AsOption(doc.globalProxy),
          forceOverwriteGlobal := TruthyOr(doc.forceHeaderOverwrite, false));
        match DropSetOf(doc)
        case None => LoadResult(withScalars, false)
        case Some(drop) =>
          var withDrop := withScalars.(headersToDrop := drop);
          match mtime
          case None => LoadResult(withDrop, false)
          case Some(m) => LoadResult(withDrop.(lastMtime := m), true)
  }

  /** A successful load replaces the globals wholesale: what it leaves does
      not depend on the globals it started from. */
  lemma {:induction false} LoadReplacesWholesale(g1: Globals, g2: Globals, parsed: ParseResult, mtime: Option<int>)
    requires LoadConfig(g1, parsed, mtime).ok
    ensures LoadConfig(g2, parsed, mtime) == LoadConfig(g1, parsed, mtime)
  {
    var a := LoadConfig(g1, parsed, mtime).globals;
    var b := LoadConfig(g2, parsed, mtime).globals;
    assert a.config == b.config;
    assert a.headersToDrop == b.headersToDrop by {
      assert DropSetOf(a.config) == Some(a.headersToDrop);
      assert DropSetOf(b.config) == Some(b.headersToDrop);
    }
  }

  /** The initial globals are consistent: `{}` yields exactly the defaults. */
  lemma InitialConsistent()
    ensures Consistent(Initial)
  {
  }

  /** A document that parses but has a non-string in `headers_to_drop` gets
      through the assignments of `CONFIG`, `LOG_REQUESTS`, `GLOBAL_PROXY`
      and `FORCE_HEADER_OVERWRITE_GLOBAL` before raising: the load reports
      failure, yet the globals have changed and no longer agree with each
      other (the old drop set sits next to the new document). */
  lemma PartialLoadBreaksConsistency()
    ensures var doc := Object(Absent, Val("http://corp-proxy:3128"), Absent, Val([NotAString]), Absent);
            var r := LoadConfig(Initial, Parsed(doc), Some(5));
            && !r.ok
            && r.globals != Initial
            && r.globals.config == doc
            && r.globals.globalProxy == Some("http://corp-proxy:3128")
            && r.globals.headersToDrop == Initial.headersToDrop
            && r.globals.lastMtime == Initial.lastMtime
            && !Consistent(r.globals)
  {
  }
}
