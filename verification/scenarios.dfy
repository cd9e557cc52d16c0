/** Concrete requests worked through the model: worked routing examples,
    the rejections, and the choice of upstream proxy. */
module Scenarios {
  import opened Values
  import opened Text
  import opened Seqs
  import opened Headers
  import opened Config
  import opened Router

  const Universal: Route := Route(Absent, Val(true), Absent, Absent, Absent, Absent, false)
  const Standard: Route := Route(Absent, Absent, Val("https://up.example.com/base"), Absent, Absent, Absent, false)
  const Table: map<string, Option<Route>> := map["proxyroute" := Some(Universal), "svc" := Some(Standard)]

  /** A universal route forwards the literal target, without the query. */
  lemma UniversalForwardsLiteralTarget()
    ensures Resolve(Table, "proxyroute/https://api.example.com/x", "/proxyroute/https://api.example.com/x")
            == Forward("proxyroute", Universal, "https://api.example.com/x", false)
  {
    UniversalLiterals();
    UniversalCase("proxyroute/https://api.example.com/x", "/proxyroute/https://api.example.com/x", "https://api.example.com/x");
  }

  lemma UniversalLiterals()
    ensures "proxyroute/https://api.example.com/x" == "proxyroute" + "/" + "https://api.example.com/x"
    ensures IsHttpUrl("https://api.example.com/x")
  {
    assert "https://" <= "https://api.example.com/x";
  }

  /** A universal target with another scheme is rejected, carrying it. */
  lemma UniversalRejectsOtherScheme()
    ensures Resolve(Table, "proxyroute/ftp://bad", "/proxyroute/ftp://bad")
            == BadUniversalTarget("proxyroute", Some("ftp://bad"))
  {
    assert "proxyroute/ftp://bad" == "proxyroute" + "/" + "ftp://bad";
    UniversalCase("proxyroute/ftp://bad", "/proxyroute/ftp://bad", "ftp://bad");
    FirstCharDiffers("http://", "ftp://bad");
    FirstCharDiffers("https://", "ftp://bad");
  }

  lemma FirstCharDiffers(p: string, s: string)
    requires |p| > 0 && |s| > 0 && p[0] != s[0]
    ensures !StartsWith(s, p)
  {
  }

  lemma {:induction false} UniversalCase(path: string, requestPath: string, target: string)
    requires path == "proxyroute" + "/" + target
    ensures Resolve(Table, path, requestPath) ==
              if IsHttpUrl(target) then Forward("proxyroute", Universal, target, false)
              else BadUniversalTarget("proxyroute", Some(target))
  {
    assert '/' !in "proxyroute";
    SplitFirstUnique(path, '/', "proxyroute", target);
    assert RouteKey(path) == "proxyroute";
    assert LookupRoute(Table, "proxyroute") == Some(Universal);
    UniversalOutcome(Table, path, requestPath);
  }

  /** A universal route with nothing after its key is rejected. */
  lemma UniversalWithoutTarget()
    ensures Resolve(Table, "proxyroute", "/proxyroute") == BadUniversalTarget("proxyroute", None)
  {
    var path := "proxyroute";
    assert '/' !in path;
    assert RouteKey(path) == path;
    assert LookupRoute(Table, path) == Some(Universal);
    UniversalOutcome(Table, path, "/proxyroute");
  }

  /** A standard route joins the target and the subpath. */
  lemma StandardJoinsSubpath()
    ensures Resolve(Table, "svc/a/b", "/svc/a/b") == Forward("svc", Standard, "https://up.example.com/base/a/b", true)
  {
    SubpathLiterals();
    StandardCase("svc/a/b", "/", "a/b", "https://up.example.com/base/a/b");
  }

  lemma SubpathLiterals()
    ensures "svc/a/b" == "svc" + "/" + "a/b"
    ensures "/" + "svc/a/b" == "/svc/a/b"
    ensures AllChars("/", '/')
    ensures "https://up.example.com/base" + "/" + "a/b" == "https://up.example.com/base/a/b"
  {
  }

  /** A standard route with no subpath still gets the joining `/`. */
  lemma StandardWithoutSubpathEndsInSlash()
    ensures Resolve(Table, "svc", "/svc") == Forward("svc", Standard, "https://up.example.com/base/", true)
  {
    BaseWithSlash();
    StandardCase("svc", "", "", "https://up.example.com/base/");
  }

  lemma BaseWithSlash()
    ensures "https://up.example.com/base" + "/" + "" == "https://up.example.com/base/"
    ensures "/" + "svc" == "/svc"
  {
  }

  lemma {:induction false} StandardCase(path: string, lead: string, sub: string, url: string)
    requires path == "svc" + lead + sub && AllChars(lead, '/') && (sub == [] || sub[0] != '/')
    requires lead == [] ==> sub == []
    requires url == "https://up.example.com/base" + "/" + sub
    ensures Resolve(Table, path, "/" + path) == Forward("svc", Standard, url, true)
  {
    assert '/' !in "svc";
    if lead == [] {
      assert path == "svc";
      assert SplitFirst(path, '/').tail.None?;
    } else {
      assert path == "svc" + "/" + (lead[1..] + sub);
      SplitFirstUnique(path, '/', "svc", lead[1..] + sub);
    }
    assert RouteKey(path) == "svc";
    var target := "https://up.example.com/base";
    assert target + "" == target && target[|target| - 1] == 'e';
    assert LookupRoute(Table, "svc") == Some(Standard);
    StandardOutcome(Table, path, "svc", target, "", lead, sub);
  }

  /** A route missing from the table is not found. */
  lemma MissingRoute()
    ensures Resolve(Table, "nope/x", "/nope/x") == NotFound("nope")
  {
    SplitFirstUnique("nope/x", '/', "nope", "x");
    assert "nope/x" == "nope" + "/" + "x";
  }

  /** A route whose `enabled` is false or null is not found. */
  lemma DisabledRoutes()
    ensures var t := Table["svc" := Some(Standard.(enabled := Val(false)))];
            Resolve(t, "svc/x", "/svc/x") == NotFound("svc")
    ensures var t := Table["svc" := Some(Standard.(enabled := Null))];
            Resolve(t, "svc/x", "/svc/x") == NotFound("svc")
  {
    SplitFirstUnique("svc/x", '/', "svc", "x");
    assert "svc/x" == "svc" + "/" + "x";
  }

  /** Route proxy selection: an empty route proxy beats a global one. */
  lemma ProxyChoices()
    ensures SelectProxy(Val(""), Some("http://global:1")) == None
    ensures SelectProxy(Val("http://route:2"), Some("http://global:1")) == Some(Proxies("http://route:2", "http://route:2"))
    ensures SelectProxy(Null, Some("http://global:1")) == Some(Proxies("http://global:1", "http://global:1"))
    ensures SelectProxy(Absent, Some("")) == None
  {
  }
}
