/** Concrete header lists worked through the outbound merge and the
    response filter, for the cases where the code's behaviour is easy to
    misread. */
module HeaderScenarios {
  import opened Values
  import opened Text
  import opened Seqs
  import opened Headers
  import opened Literals

  /** Overwrite on, from the global default or the route: the custom value
      replaces the client's. */
  lemma OverwriteOn()
    ensures var d := [Header("X-Trace", "A")];
            var custom := Val([Header("X-Trace", "B")]);
            && ApplyCustomHeaders(d, custom, Absent, true) == [Header("X-Trace", "B")]
            && ApplyCustomHeaders(d, custom, Val(true), false) == [Header("X-Trace", "B")]
  {
    var d := [Header("X-Trace", "A")];
    assert Get(d, "X-Trace").Some?;
  }

  /** Overwrite off, from the global default or an explicit `null`: the
      client's value stays. */
  lemma OverwriteOff()
    ensures var d := [Header("X-Trace", "A")];
            var custom := Val([Header("X-Trace", "B")]);
            && ApplyCustomHeaders(d, custom, Absent, false) == d
            && ApplyCustomHeaders(d, custom, Null, true) == d
  {
    var d := [Header("X-Trace", "A")];
    var cs := [Header("X-Trace", "B")];
    assert Lower(cs[0].name) in LowerNames(d);
    MergeKeepsAll(d, LowerNames(d), cs);
  }

  /** Overwriting with a key that differs from the client's only in case
      adds a second header and leaves the client's in place. */
  lemma OverwriteWithOtherCaseAddsKey()
    ensures ApplyCustomHeaders([Header("X-Trace", "A")], Val([Header("x-trace", "B")]), Val(true), false)
            == [Header("X-Trace", "A"), Header("x-trace", "B")]
  {
    var d := [Header("X-Trace", "A")];
    var c := Header("x-trace", "B");
    assert "X-Trace"[0] != "x-trace"[0];
    assert Names(d) == {"X-Trace"};
    var put := Put(d, c.name, c.value);
    assert put == d + [c];
    assert MergeCustom(d, LowerNames(d), [c], true) == MergeCustom(put, LowerNames(d), [], true);
    assert ApplyCustomHeaders(d, Val([c]), Val(true), false) == MergeCustom(d, LowerNames(d), [c], true);
    assert d + [c] == [Header("X-Trace", "A"), Header("x-trace", "B")];
  }

  /** The drop set applies to the client's headers only: a custom header
      of a dropped name is added back with the custom value. */
  lemma CustomHeaderSurvivesDropSet()
    ensures var inbound := [Header("X-In", "secret"), Header("Host", "proxy.local")];
            var forwarded := ForwardHeaders(inbound, {"x-in"});
            && forwarded == []
            && ApplyCustomHeaders(forwarded, Val([Header("X-In", "mine")]), Absent, false) == [Header("X-In", "mine")]
  {
    LowerXIn();
    var inbound := [Header("X-In", "secret"), Header("Host", "proxy.local")];
    NothingForwarded(inbound, {"x-in"});
    CustomIntoEmpty(Header("X-In", "mine"));
  }

  lemma CustomIntoEmpty(c: Header)
    ensures ApplyCustomHeaders([], Val([c]), Absent, false) == [c]
  {
    assert LowerNames([]) == {};
    assert MergeCustom([], {}, [c], false) == MergeCustom([c], {}, [], false);
  }

  /** When every client header is dropped or is `Host`, nothing is
      forwarded. */
  lemma NothingForwarded(inbound: HeaderList, drop: set<string>)
    requires forall h :: h in inbound ==> Lower(h.name) in drop || h.name == "Host"
    ensures ForwardHeaders(inbound, drop) == []
  {
    var r := ForwardHeaders(inbound, drop);
    assert forall i :: 0 <= i < |r| ==> r[i] in r;
  }

  /** The response filter drops the excluded names in any case and keeps
      everything else in order. */
  lemma ResponseFilterExample()
    ensures FilterResponseHeaders([Header("CONNECTION", "close"), Header("X-A", "1")]) == [Header("X-A", "1")]
  {
    ResponseLiterals();
    var s := [Header("CONNECTION", "close"), Header("X-A", "1")];
    assert !Relayable(s[0]) && Relayable(s[1]);
    assert Seqs.Filter(s[1..], Relayable) == [s[1]];
  }

  lemma ResponseLiterals()
    ensures Lower("CONNECTION") == "connection"
    ensures Lower("X-A") == "x-a"
    ensures "x-a" !in ExcludedResponseHeaders
  {
    LowerConnection();
    LowerXA();
    NotExcludedByFirstChar("x-a");
  }

  /** Every excluded response header name starts with `c` or `t`. */
  lemma NotExcludedByFirstChar(n: string)
    requires |n| > 0 && n[0] != 'c' && n[0] != 't'
    ensures n !in ExcludedResponseHeaders
  {
    assert "content-encoding"[0] == 'c' && "content-length"[0] == 'c';
    assert "transfer-encoding"[0] == 't' && "connection"[0] == 'c';
  }

}
