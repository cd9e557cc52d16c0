/** Startup and hot reload: the initial load that decides whether the
    proxy serves at all, the reload interval mapping, and one iteration of
    the reloader loop as a sequential transition on the globals (the lock
    and the thread are not modelled; each step is atomic here). */
module Lifecycle {
  import opened Values
  import opened Config

  /** The reload trigger: the file's modification time has moved strictly
      past the one recorded by the last successful load. */
  predicate ShouldReload(currentMtime: int, lastMtime: int) {
    currentMtime > lastMtime
  }

  /** `server.get('reload_interval', -1)` of a loaded document. A loaded
      document is an object whose `server` is missing or an object. */
  function ReloadIntervalOf(doc: Document): int {
    if doc.Object? && doc.server.Val? then doc.server.value.reloadInterval.GetOr(-1) else -1
  }

  /** The sleep period of the reloader thread, or `None` when no reloader
      is started: only a non-negative interval starts one, and 0 ("watch
      continuously") is turned into a one-second period. */
  function ReloaderPeriod(interval: int): (r: Option<nat>)
    ensures r.Some? <==> interval >= 0
    ensures r.Some? ==> r.value >= 1
    ensures interval > 0 ==> r == Some(interval)
    ensures interval == 0 ==> r == Some(1)
  {
    if interval >= 0 then Some(if interval == 0 then 1 else interval) else None
  }

  datatype Startup = Exit(code: int) | Serving(globals: Globals, reloadPeriod: Option<nat>)

  /** The startup dashboard lists every route with `route_info.get(...)`;
      a route table that maps some key to `null` makes that call raise, and
      nothing catches it before the server starts. */
  predicate HasNullRoute(doc: Document) {
    doc.Object? && doc.routes.Val? && exists k :: k in doc.routes.value && doc.routes.value[k].None?
  }

  /** The `__main__` block up to starting the server: a failed first load
      exits with status 1, and so does a dashboard that raises on a `null`
      route; otherwise the proxy serves the loaded globals and starts a
      reloader according to the configured interval. */
  function Start(parsed: ParseResult, mtime: Option<int>): (s: Startup)
    ensures s.Exit? <==> !(parsed.Parsed? && Loadable(parsed.doc) && mtime.Some? && !HasNullRoute(parsed.doc))
    ensures s.Exit? ==> s.code == 1
    ensures s.Serving? ==> Consistent(s.globals) && s.globals.config == parsed.doc
    ensures s.Serving? ==> s.globals.lastMtime == mtime.value
    ensures s.Serving? ==> (s.reloadPeriod.Some? <==> ReloadIntervalOf(parsed.doc) >= 0)
    ensures s.Serving? ==> s.reloadPeriod == ReloaderPeriod(ReloadIntervalOf(parsed.doc))
  {
    var loaded := LoadConfig(Initial, parsed, mtime);
    if !loaded.ok || HasNullRoute(loaded.globals.config) then Exit(1)
    else Serving(loaded.globals, ReloaderPeriod(ReloadIntervalOf(loaded.globals.config)))
  }

  /** Once the proxy serves, a reloader pass that sees the modification
      time the startup load recorded changes nothing, whatever the file
      would now parse to. */
  lemma StartThenStalePass(parsed: ParseResult, mtime: Option<int>, later: ParseResult, laterMtime: Option<int>)
    requires Start(parsed, mtime).Serving?
    ensures var g := Start(parsed, mtime).globals;
            ReloadTick(g, mtime, later, laterMtime) == g
  {
  }

  /** The startup decision on a document whose route table holds a `null`
      route: the proxy does not start, although the load succeeded. */
  lemma NullRouteStopsStartup()
    ensures var doc := Object(Absent, Absent, Absent, Absent, Val(map["a" := None]));
            && LoadConfig(Initial, Parsed(doc), Some(1)).ok
            && Start(Parsed(doc), Some(1)) == Exit(1)
  {
    var doc := Object(Absent, Absent, Absent, Absent, Val(map["a" := None]));
    assert "a" in doc.routes.value && doc.routes.value["a"].None?;
  }

  /** One pass of the reloader loop after its sleep. `observed` is what
      `getmtime` returns (`None` when it raises; the loop catches that and
      goes on); `parsed` and `loadMtime` are what `load_config` would read
      if it ran. */
  function ReloadTick(g: Globals, observed: Option<int>, parsed: ParseResult, loadMtime: Option<int>): (r: Globals)
    ensures r != g ==> observed.Some? && ShouldReload(observed.value, g.lastMtime)
    ensures observed.Some? && ShouldReload(observed.value, g.lastMtime) ==>
              r == LoadConfig(g, parsed, loadMtime).globals
    ensures parsed.Unreadable? ==> r == g
  {
    match observed
    case None => g
    case Some(m) => if ShouldReload(m, g.lastMtime) then LoadConfig(g, parsed, loadMtime).globals else g
  }

  /** A reload that fails keeps the recorded modification time, so the next
      pass that sees the same newer file tries again. */
  lemma FailedReloadRetries(g: Globals, m: int, parsed: ParseResult, loadMtime: Option<int>)
    requires ShouldReload(m, g.lastMtime)
    requires !LoadConfig(g, parsed, loadMtime).ok
    ensures ShouldReload(m, ReloadTick(g, Some(m), parsed, loadMtime).lastMtime)
  {
  }

  /** After a successful reload of a file whose time did not move between
      the two `getmtime` calls, further passes that see the same time leave
      the globals alone, whatever the file now parses to. */
  lemma ReloadSettles(g: Globals, m: int, parsed: ParseResult, later: ParseResult, laterMtime: Option<int>)
    requires ShouldReload(m, g.lastMtime)
    requires LoadConfig(g, parsed, Some(m)).ok
    ensures var g' := ReloadTick(g, Some(m), parsed, Some(m));
            ReloadTick(g', Some(m), later, laterMtime) == g'
  {
  }

  /** A sequence of reloader passes, each with what it observes and reads. */
  datatype Pass = Pass(observed: Option<int>, parsed: ParseResult, loadMtime: Option<int>)

  function RunPasses(g: Globals, passes: seq<Pass>): Globals
    decreases |passes|
  {
    if |passes| == 0 then g
    else RunPasses(ReloadTick(g, passes[0].observed, passes[0].parsed, passes[0].loadMtime), passes[1..])
  }

  /** Consistency survives any run of passes whose reloads either succeed or
      fail before anything is assigned (the file cannot be opened or
      parsed); only a parseable document that raises part way can break it. */
  lemma {:induction false} PassesKeepConsistency(g: Globals, passes: seq<Pass>)
    requires Consistent(g)
    requires forall i :: 0 <= i < |passes| ==>
               passes[i].parsed.Unreadable? || (Loadable(passes[i].parsed.doc) && passes[i].loadMtime.Some?)
    ensures Consistent(RunPasses(g, passes))
    decreases |passes|
  {
    if |passes| > 0 {
      var next := ReloadTick(g, passes[0].observed, passes[0].parsed, passes[0].loadMtime);
      assert Consistent(next);
      assert forall i :: 0 <= i < |passes| - 1 ==> passes[1..][i] == passes[i + 1];
      PassesKeepConsistency(next, passes[1..]);
    }
  }

  /** A run of passes in which the file never shows a time past the
      recorded one never changes the globals. */
  lemma {:induction false} StalePassesChangeNothing(g: Globals, passes: seq<Pass>)
    requires forall i :: 0 <= i < |passes| ==>
               passes[i].observed.None? || !ShouldReload(passes[i].observed.value, g.lastMtime)
    ensures RunPasses(g, passes) == g
    decreases |passes|
  {
    if |passes| > 0 {
      assert ReloadTick(g, passes[0].observed, passes[0].parsed, passes[0].loadMtime) == g;
      assert forall i :: 0 <= i < |passes| - 1 ==> passes[1..][i] == passes[i + 1];
      StalePassesChangeNothing(g, passes[1..]);
    }
  }
}
