/** Header lists and the two header policies of the proxy: the outbound
    merge (drop set, `Host` removal, custom headers) and the response-header
    exclusion. A Python `dict` of headers is modelled as an insertion-ordered
    list of (name, value) pairs with case-sensitive, pairwise distinct names. */
module Headers {
  import opened Values
  import opened Text
  import opened Seqs

  datatype Header = Header(name: string, value: string)

  type HeaderList = seq<Header>

  /** The keys of the dict. */
  function Names(d: HeaderList): set<string> {
    if |d| == 0 then {} else {d[0].name} + Names(d[1..])
  }

  /** `{k.lower() for k in d.keys()}`. */
  function LowerNames(d: HeaderList): set<string> {
    if |d| == 0 then {} else {Lower(d[0].name)} + LowerNames(d[1..])
  }

  /** A name is a key exactly when some entry carries it. */
  lemma {:induction false} NamesMember(d: HeaderList, k: string)
    ensures k in Names(d) <==> exists i :: 0 <= i < |d| && d[i].name == k
  {
    if |d| > 0 {
      NamesMember(d[1..], k);
      if k in Names(d[1..]) {
        var i :| 0 <= i < |d[1..]| && d[1..][i].name == k;
        assert d[i + 1].name == k;
      }
      if exists i :: 0 <= i < |d| && d[i].name == k {
        var i :| 0 <= i < |d| && d[i].name == k;
        if i > 0 {
          assert d[1..][i - 1].name == k;
        }
      }
    }
  }

  /** What every Python `dict` satisfies: no key occurs twice. */
  predicate DistinctNames(d: HeaderList) {
    forall i, j :: 0 <= i < j < |d| ==> d[i].name != d[j].name
  }

  /** `d.get(k)`: the value stored under exactly the key `k`. */
  function Get(d: HeaderList, k: string): (r: Option<string>)
    ensures r.Some? <==> k in Names(d)
    ensures r.Some? ==> Header(k, r.value) in d
  {
    if |d| == 0 then None
    else if d[0].name == k then Some(d[0].value)
    else
      assert forall h :: h in d[1..] ==> h in d;
      assert d == [d[0]] + d[1..];
      Get(d[1..], k)
  }

  /** `r` is `d` with the entry under `k` given the value `v` in its own
      slot, every other entry unchanged. */
  predicate OverwrittenInPlace(d: HeaderList, k: string, v: string, r: HeaderList) {
    && |r| == |d|
    && forall i :: 0 <= i < |d| ==> r[i] == if d[i].name == k then Header(k, v) else d[i]
  }

  /** `d[k] = v`: an existing key keeps its position and takes the new value;
      a new key is appended. */
  function Put(d: HeaderList, k: string, v: string): (r: HeaderList)
    ensures Get(r, k) == Some(v)
    ensures forall k' :: k' != k ==> Get(r, k') == Get(d, k')
    ensures forall h :: h in r ==> h in d || h == Header(k, v)
    ensures Names(r) == Names(d) + {k}
    ensures DistinctNames(d) ==> DistinctNames(r)
    ensures k !in Names(d) ==> r == d + [Header(k, v)]
    ensures k in Names(d) ==> |r| == |d|
    ensures DistinctNames(d) && k in Names(d) ==> OverwrittenInPlace(d, k, v, r)
  {
    if |d| == 0 then
      [Header(k, v)]
    else if d[0].name == k then
      PutAtHead(d, k, v);
      PutAtHeadInPlace(d, k, v);
      [Header(k, v)] + d[1..]
    else
      var rest := Put(d[1..], k, v);
      PutBehindHead(d, k, v, rest);
      PutBehindHeadInPlace(d, k, v, rest);
      [d[0]] + rest
  }

  lemma PutAtHeadInPlace(d: HeaderList, k: string, v: string)
    requires |d| > 0 && d[0].name == k
    ensures DistinctNames(d) ==> OverwrittenInPlace(d, k, v, [Header(k, v)] + d[1..])
  {
  }

  lemma PutBehindHeadInPlace(d: HeaderList, k: string, v: string, rest: HeaderList)
    requires |d| > 0 && d[0].name != k
    requires DistinctNames(d[1..]) && k in Names(d[1..]) ==> OverwrittenInPlace(d[1..], k, v, rest)
    ensures DistinctNames(d) && k in Names(d) ==> OverwrittenInPlace(d, k, v, [d[0]] + rest)
  {
  }

  /** The step of `Put` that overwrites the first entry. */
  lemma PutAtHead(d: HeaderList, k: string, v: string)
    requires |d| > 0 && d[0].name == k
    ensures var r := [Header(k, v)] + d[1..];
            && Get(r, k) == Some(v)
            && (forall k' :: k' != k ==> Get(r, k') == Get(d, k'))
            && (forall h :: h in r ==> h in d || h == Header(k, v))
            && Names(r) == Names(d) + {k}
            && (DistinctNames(d) ==> DistinctNames(r))
            && k in Names(d) && |r| == |d|
  {
    var r := [Header(k, v)] + d[1..];
    assert d == [d[0]] + d[1..];
    assert r[1..] == d[1..];
    assert forall i :: 0 <= i < |d| ==> r[i].name == d[i].name;
  }

  /** The step of `Put` that keeps the first entry and puts into the rest. */
  lemma PutBehindHead(d: HeaderList, k: string, v: string, rest: HeaderList)
    requires |d| > 0 && d[0].name != k
    requires Get(rest, k) == Some(v)
    requires forall k' :: k' != k ==> Get(rest, k') == Get(d[1..], k')
    requires forall h :: h in rest ==> h in d[1..] || h == Header(k, v)
    requires Names(rest) == Names(d[1..]) + {k}
    requires DistinctNames(d[1..]) ==> DistinctNames(rest)
    requires k !in Names(d[1..]) ==> rest == d[1..] + [Header(k, v)]
    requires k in Names(d[1..]) ==> |rest| == |d[1..]|
    ensures var r := [d[0]] + rest;
            && Get(r, k) == Some(v)
            && (forall k' :: k' != k ==> Get(r, k') == Get(d, k'))
            && (forall h :: h in r ==> h in d || h == Header(k, v))
            && Names(r) == Names(d) + {k}
            && (DistinctNames(d) ==> DistinctNames(r))
            && (k !in Names(d) ==> r == d + [Header(k, v)])
            && (k in Names(d) ==> |r| == |d|)
  {
    PutBehindHeadGet(d, k, v, rest);
    PutBehindHeadNames(d, k, rest);
    PutTailDistinct(d, rest, k);
    PutBehindHeadShape(d, k, v, rest);
  }

  lemma PutBehindHeadGet(d: HeaderList, k: string, v: string, rest: HeaderList)
    requires |d| > 0 && d[0].name != k
    requires Get(rest, k) == Some(v)
    requires forall k' :: k' != k ==> Get(rest, k') == Get(d[1..], k')
    requires forall h :: h in rest ==> h in d[1..] || h == Header(k, v)
    ensures var r := [d[0]] + rest;
            && Get(r, k) == Some(v)
            && (forall k' :: k' != k ==> Get(r, k') == Get(d, k'))
            && (forall h :: h in r ==> h in d || h == Header(k, v))
  {
    var r := [d[0]] + rest;
    assert r[1..] == rest;
    assert forall h :: h in d[1..] ==> h in d;
  }

  lemma PutBehindHeadNames(d: HeaderList, k: string, rest: HeaderList)
    requires |d| > 0
    requires Names(rest) == Names(d[1..]) + {k}
    ensures Names([d[0]] + rest) == Names(d) + {k}
  {
    var r := [d[0]] + rest;
    assert r[1..] == rest;
    assert Names(r) == {d[0].name} + Names(rest);
  }

  lemma PutBehindHeadShape(d: HeaderList, k: string, v: string, rest: HeaderList)
    requires |d| > 0 && d[0].name != k
    requires Names(rest) == Names(d[1..]) + {k}
    requires k !in Names(d[1..]) ==> rest == d[1..] + [Header(k, v)]
    requires k in Names(d[1..]) ==> |rest| == |d[1..]|
    ensures var r := [d[0]] + rest;
            && (k !in Names(d) ==> r == d + [Header(k, v)])
            && (k in Names(d) ==> |r| == |d|)
  {
    assert d == [d[0]] + d[1..];
    assert k in Names(d) <==> k in Names(d[1..]);
  }

  lemma PutTailDistinct(d: HeaderList, rest: HeaderList, k: string)
    requires |d| > 0 && d[0].name != k
    requires Names(rest) == Names(d[1..]) + {k}
    requires DistinctNames(d[1..]) ==> DistinctNames(rest)
    ensures DistinctNames(d) ==> DistinctNames([d[0]] + rest)
  {
    if DistinctNames(d) {
      DropFirstDistinct(d);
      HeadNotInRest(d);
      ConsDistinct(d[0], rest);
    }
  }

  /** `d.pop(k, None)`: the entry under exactly the key `k` is removed and
      nothing else changes. */
  function Pop(d: HeaderList, k: string): (r: HeaderList)
    ensures k !in Names(r)
    ensures Names(r) == Names(d) - {k}
    ensures forall k' :: k' != k ==> Get(r, k') == Get(d, k')
    ensures forall h :: h in r <==> h in d && h.name != k
    ensures IsSubsequence(r, d)
    ensures DistinctNames(d) ==> DistinctNames(r)
  {
    if |d| == 0 then []
    else
      var rest := Pop(d[1..], k);
      if d[0].name == k then
        PopDropsHead(d, k, rest);
        rest
      else
        PopKeepsHead(d, k, rest);
        [d[0]] + rest
  }

  /** The step of `Pop` that removes the first entry. */
  lemma PopDropsHead(d: HeaderList, k: string, rest: HeaderList)
    requires |d| > 0 && d[0].name == k
    requires k !in Names(rest)
    requires Names(rest) == Names(d[1..]) - {k}
    requires forall k' :: k' != k ==> Get(rest, k') == Get(d[1..], k')
    requires forall h :: h in rest <==> h in d[1..] && h.name != k
    requires IsSubsequence(rest, d[1..])
    requires DistinctNames(d[1..]) ==> DistinctNames(rest)
    ensures Names(rest) == Names(d) - {k}
    ensures forall k' :: k' != k ==> Get(rest, k') == Get(d, k')
    ensures forall h :: h in rest <==> h in d && h.name != k
    ensures IsSubsequence(rest, d)
    ensures DistinctNames(d) ==> DistinctNames(rest)
  {
    assert d == [d[0]] + d[1..];
    assert Names(d) == {k} + Names(d[1..]);
    DropFirstDistinct(d);
  }

  /** The step of `Pop` that keeps the first entry. */
  lemma PopKeepsHead(d: HeaderList, k: string, rest: HeaderList)
    requires |d| > 0 && d[0].name != k
    requires k !in Names(rest)
    requires Names(rest) == Names(d[1..]) - {k}
    requires forall k' :: k' != k ==> Get(rest, k') == Get(d[1..], k')
    requires forall h :: h in rest <==> h in d[1..] && h.name != k
    requires IsSubsequence(rest, d[1..])
    requires DistinctNames(d[1..]) ==> DistinctNames(rest)
    ensures var r := [d[0]] + rest;
            && k !in Names(r)
            && Names(r) == Names(d) - {k}
            && (forall k' :: k' != k ==> Get(r, k') == Get(d, k'))
            && (forall h :: h in r <==> h in d && h.name != k)
            && IsSubsequence(r, d)
            && (DistinctNames(d) ==> DistinctNames(r))
  {
    PopKeepsHeadEntries(d, k, rest);
    PopKeepsHeadNames(d, k, rest);
    if DistinctNames(d) {
      DropFirstDistinct(d);
      HeadNotInRest(d);
      ConsDistinct(d[0], rest);
    }
  }

  lemma PopKeepsHeadEntries(d: HeaderList, k: string, rest: HeaderList)
    requires |d| > 0 && d[0].name != k
    requires forall k' :: k' != k ==> Get(rest, k') == Get(d[1..], k')
    requires forall h :: h in rest <==> h in d[1..] && h.name != k
    requires IsSubsequence(rest, d[1..])
    ensures var r := [d[0]] + rest;
            && (forall k' :: k' != k ==> Get(r, k') == Get(d, k'))
            && (forall h :: h in r <==> h in d && h.name != k)
            && IsSubsequence(r, d)
  {
    var r := [d[0]] + rest;
    assert d == [d[0]] + d[1..];
    assert r[1..] == rest;
  }

  lemma PopKeepsHeadNames(d: HeaderList, k: string, rest: HeaderList)
    requires |d| > 0 && d[0].name != k
    requires k !in Names(rest)
    requires Names(rest) == Names(d[1..]) - {k}
    ensures k !in Names([d[0]] + rest)
    ensures Names([d[0]] + rest) == Names(d) - {k}
  {
    var r := [d[0]] + rest;
    assert r[1..] == rest;
    assert Names(r) == {d[0].name} + Names(rest);
    assert Names(d) == {d[0].name} + Names(d[1..]);
  }

  /** In a dict, the first key does not recur. */
  lemma HeadNotInRest(d: HeaderList)
    requires |d| > 0 && DistinctNames(d)
    ensures d[0].name !in Names(d[1..])
  {
    NamesMember(d[1..], d[0].name);
    forall m | 0 <= m < |d[1..]| ensures d[1..][m].name != d[0].name {
      assert d[1..][m] == d[m + 1];
    }
  }

  /** Putting an entry with a fresh name in front keeps names distinct. */
  lemma ConsDistinct(x: Header, rest: HeaderList)
    requires DistinctNames(rest) && x.name !in Names(rest)
    ensures DistinctNames([x] + rest)
  {
    var r := [x] + rest;
    forall i, j | 0 <= i < j < |r| ensures r[i].name != r[j].name {
      assert r[j] == rest[j - 1];
      if i == 0 {
        NamesMember(rest, r[j].name);
      } else {
        assert r[i] == rest[i - 1];
      }
    }
  }

  /** Removing the first entry keeps names pairwise distinct. */
  lemma DropFirstDistinct(d: HeaderList)
    requires |d| > 0
    ensures DistinctNames(d) ==> DistinctNames(d[1..])
  {
    if DistinctNames(d) {
      forall i, j | 0 <= i < j < |d| - 1 ensures d[1..][i].name != d[1..][j].name {
        assert d[1..][i] == d[i + 1] && d[1..][j] == d[j + 1];
      }
    }
  }

  /** The value of the last pair named `k`, if any pair has that name. */
  function LastValue(hs: HeaderList, k: string): (r: Option<string>)
    ensures r.None? ==> forall i :: 0 <= i < |hs| ==> hs[i].name != k
    ensures r.Some? ==> exists i :: 0 <= i < |hs| && hs[i] == Header(k, r.value)
                                    && forall j :: i < j < |hs| ==> hs[j].name != k
  {
    if |hs| == 0 then None
    else if hs[|hs| - 1].name == k then Some(hs[|hs| - 1].value)
    else
      var r := LastValue(hs[..|hs| - 1], k);
      assert forall i :: 0 <= i < |hs| - 1 ==> hs[..|hs| - 1][i] == hs[i];
      r
  }

  /** The last pair named `k` is in the tail, or else it is the head. */
  lemma LastValueCons(hs: HeaderList, k: string)
    requires |hs| > 0
    ensures LastValue(hs, k) ==
              if LastValue(hs[1..], k).Some? then LastValue(hs[1..], k)
              else if hs[0].name == k then Some(hs[0].value) else None
  {
  }

  /** Inserting the pairs `hs` one by one into the dict `d`: a name of the
      pairs ends with the value of its last pair, every other key keeps its
      value. */
  function PutAll(d: HeaderList, hs: HeaderList): (r: HeaderList)
    ensures Names(r) == Names(d) + Names(hs)
    ensures forall h :: h in r ==> h in d || h in hs
    ensures DistinctNames(d) ==> DistinctNames(r)
    ensures forall k :: Get(r, k) == if LastValue(hs, k).Some? then LastValue(hs, k) else Get(d, k)
    decreases |hs|
  {
    if |hs| == 0 then
      d
    else
      var next := Put(d, hs[0].name, hs[0].value);
      var r := PutAll(next, hs[1..]);
      PutAllStep(d, hs, next, r);
      PutAllGetStep(d, hs, next, r);
      r
  }

  lemma PutAllGetStep(d: HeaderList, hs: HeaderList, next: HeaderList, r: HeaderList)
    requires |hs| > 0
    requires Get(next, hs[0].name) == Some(hs[0].value)
    requires forall k :: k != hs[0].name ==> Get(next, k) == Get(d, k)
    requires forall k :: Get(r, k) == if LastValue(hs[1..], k).Some? then LastValue(hs[1..], k) else Get(next, k)
    ensures forall k :: Get(r, k) == if LastValue(hs, k).Some? then LastValue(hs, k) else Get(d, k)
  {
    forall k ensures Get(r, k) == if LastValue(hs, k).Some? then LastValue(hs, k) else Get(d, k) {
      LastValueCons(hs, k);
    }
  }

  lemma PutAllStep(d: HeaderList, hs: HeaderList, next: HeaderList, r: HeaderList)
    requires |hs| > 0
    requires Names(next) == Names(d) + {hs[0].name}
    requires forall h :: h in next ==> h in d || h == hs[0]
    requires Names(r) == Names(next) + Names(hs[1..])
    requires forall h :: h in r ==> h in next || h in hs[1..]
    ensures Names(r) == Names(d) + Names(hs)
    ensures forall h :: h in r ==> h in d || h in hs
  {
    NamesUnion(Names(d), hs[0].name, Names(hs[1..]), Names(hs));
    TailMembers(hs);
  }

  /** Set algebra for one step of an insertion loop. */
  lemma NamesUnion(a: set<string>, x: string, b: set<string>, c: set<string>)
    requires c == {x} + b
    ensures (a + {x}) + b == a + c
  {
  }

  /** Every element of the tail of a sequence is an element of the sequence. */
  lemma TailMembers<T>(s: seq<T>)
    requires |s| > 0
    ensures forall x :: x in s[1..] ==> x in s
  {
  }

  /** Inserting pairs whose names are new and pairwise distinct appends
      them in order. */
  lemma {:induction false} PutAllAppends(d: HeaderList, hs: HeaderList)
    requires DistinctNames(d + hs)
    ensures PutAll(d, hs) == d + hs
    decreases |hs|
  {
    if |hs| == 0 {
      assert d + hs == d;
    } else {
      assert hs[0].name !in Names(d) by {
        NamesMember(d, hs[0].name);
        forall i | 0 <= i < |d| ensures d[i].name != hs[0].name {
          assert (d + hs)[i] == d[i] && (d + hs)[|d|] == hs[0];
        }
      }
      assert d + hs == (d + [hs[0]]) + hs[1..] by {
        assert hs == [hs[0]] + hs[1..];
      }
      PutAllAppends(d + [hs[0]], hs[1..]);
    }
  }

  /** The dict comprehension `{k: v for k, v in hs}`: a repeated name keeps
      its first position and its last value. */
  function FromPairs(hs: HeaderList): (r: HeaderList)
    ensures DistinctNames(r)
    ensures Names(r) == Names(hs)
    ensures forall h :: h in r ==> h in hs
    ensures forall k :: Get(r, k) == LastValue(hs, k)
    ensures DistinctNames(hs) ==> r == hs
  {
    var empty: HeaderList := [];
    var r := PutAll(empty, hs);
    FromEmptyAppends(hs, r);
    FromEmpty(hs, r);
    FromEmptyGet(hs, r);
    r
  }

  lemma FromEmptyAppends(hs: HeaderList, r: HeaderList)
    requires r == PutAll([], hs)
    ensures DistinctNames(hs) ==> r == [] + hs
  {
    if DistinctNames(hs) {
      PutAllAppends([], hs);
    }
  }

  lemma FromEmpty(hs: HeaderList, r: HeaderList)
    requires Names(r) == Names([]) + Names(hs)
    requires forall h :: h in r ==> h in [] || h in hs
    requires DistinctNames([]) ==> DistinctNames(r)
    requires DistinctNames(hs) ==> r == [] + hs
    ensures DistinctNames(r)
    ensures Names(r) == Names(hs)
    ensures forall h :: h in r ==> h in hs
    ensures DistinctNames(hs) ==> r == hs
  {
    var empty: HeaderList := [];
    assert Names(empty) == {};
    assert empty + hs == hs;
  }

  lemma FromEmptyGet(hs: HeaderList, r: HeaderList)
    requires r == PutAll([], hs)
    ensures forall k :: Get(r, k) == LastValue(hs, k)
  {
    var empty: HeaderList := [];
    forall k ensures Get(r, k) == LastValue(hs, k) {
      assert Get(empty, k) == None;
    }
  }

  /** The inbound-header test of the comprehension at the start of the
      outbound merge: the lower-cased name is not in the drop set. */
  predicate Undropped(h: Header, drop: set<string>) {
    Lower(h.name) !in drop
  }

  /** Steps 1 and 2 of the outbound merge: copy the inbound headers whose
      lower-cased name is not in `drop` into a dict, then pop the exact key
      `Host`. */
  function ForwardHeaders(inbound: HeaderList, drop: set<string>): (r: HeaderList)
    ensures DistinctNames(r)
    ensures forall h :: h in r ==> h in inbound && Lower(h.name) !in drop && h.name != "Host"
    ensures forall k :: k in Names(r) <==> k in Names(inbound) && Lower(k) !in drop && k != "Host"
    ensures DistinctNames(inbound) ==>
              (forall h :: h in r <==> h in inbound && Lower(h.name) !in drop && h.name != "Host")
    ensures DistinctNames(inbound) ==> IsSubsequence(r, inbound)
  {
    var kept := Filter(inbound, h => Undropped(h, drop));
    var dict := FromPairs(kept);
    var r := Pop(dict, "Host");
    ForwardSteps(inbound, drop, kept, dict, r);
    r
  }

  /** The filter, the comprehension and the pop, each given by its contract. */
  lemma ForwardSteps(inbound: HeaderList, drop: set<string>, kept: HeaderList, dict: HeaderList, r: HeaderList)
    requires forall h :: h in kept <==> h in inbound && Undropped(h, drop)
    requires IsSubsequence(kept, inbound)
    requires DistinctNames(dict) && Names(dict) == Names(kept)
    requires forall h :: h in dict ==> h in kept
    requires DistinctNames(kept) ==> dict == kept
    requires Names(r) == Names(dict) - {"Host"}
    requires forall h :: h in r <==> h in dict && h.name != "Host"
    requires IsSubsequence(r, dict)
    requires DistinctNames(dict) ==> DistinctNames(r)
    ensures DistinctNames(r)
    ensures forall h :: h in r ==> h in inbound && Lower(h.name) !in drop && h.name != "Host"
    ensures forall k :: k in Names(r) <==> k in Names(inbound) && Lower(k) !in drop && k != "Host"
    ensures DistinctNames(inbound) ==>
              (forall h :: h in r <==> h in inbound && Lower(h.name) !in drop && h.name != "Host")
    ensures DistinctNames(inbound) ==> IsSubsequence(r, inbound)
  {
    KeptNames(inbound, kept, drop);
    if DistinctNames(inbound) {
      SubsequenceDistinct(kept, inbound);
      SubsequenceTransitive(r, dict, inbound);
    }
  }

  /** The names left by the drop-set filter. */
  lemma KeptNames(inbound: HeaderList, kept: HeaderList, drop: set<string>)
    requires forall h :: h in kept <==> h in inbound && Undropped(h, drop)
    ensures forall k :: k in Names(kept) <==> k in Names(inbound) && Lower(k) !in drop
  {
    forall k ensures k in Names(kept) <==> k in Names(inbound) && Lower(k) !in drop {
      NamesByMembership(kept, k);
      NamesByMembership(inbound, k);
    }
  }

  /** A name is a key exactly when some entry carries it. */
  lemma NamesByMembership(d: HeaderList, k: string)
    ensures k in Names(d) <==> exists h :: h in d && h.name == k
  {
    NamesMember(d, k);
    if exists h :: h in d && h.name == k {
      var h :| h in d && h.name == k;
      var i :| 0 <= i < |d| && d[i] == h;
    }
  }

  /** Deleting entries keeps names pairwise distinct. */
  lemma {:induction false} SubsequenceDistinct(a: HeaderList, b: HeaderList)
    requires IsSubsequence(a, b) && DistinctNames(b)
    ensures DistinctNames(a)
    decreases |b|
  {
    if |a| > 0 {
      DropFirstDistinct(b);
      if a[0] == b[0] && IsSubsequence(a[1..], b[1..]) {
        SubsequenceDistinct(a[1..], b[1..]);
        SubsequenceMembers(a[1..], b[1..]);
        forall j | 0 < j < |a| ensures a[0].name != a[j].name {
          assert a[j] == a[1..][j - 1];
          assert a[j] in b[1..];
          var m :| 0 <= m < |b[1..]| && b[1..][m] == a[j];
          assert b[m + 1] == a[j];
        }
        forall i, j | 0 <= i < j < |a| ensures a[i].name != a[j].name {
          if i > 0 {
            assert a[i] == a[1..][i - 1] && a[j] == a[1..][j - 1];
          }
        }
      } else {
        SubsequenceDistinct(a, b[1..]);
      }
    }
  }

  /** Every element of a subsequence is an element of the sequence. */
  lemma {:induction false} SubsequenceMembers<T>(a: seq<T>, b: seq<T>)
    requires IsSubsequence(a, b)
    ensures forall x :: x in a ==> x in b
    decreases |b|
  {
    if |a| > 0 {
      if a[0] == b[0] && IsSubsequence(a[1..], b[1..]) {
        SubsequenceMembers(a[1..], b[1..]);
        assert a == [a[0]] + a[1..];
      } else {
        SubsequenceMembers(a, b[1..]);
      }
    }
  }

  /** A lower-cased name is present exactly when some key lower-cases to it. */
  lemma {:induction false} LowerNamesMember(d: HeaderList, x: string)
    ensures x in LowerNames(d) <==> exists n :: n in Names(d) && Lower(n) == x
  {
    if |d| > 0 {
      LowerNamesMember(d[1..], x);
      assert Names(d) == {d[0].name} + Names(d[1..]);
      assert LowerNames(d) == {Lower(d[0].name)} + LowerNames(d[1..]);
      if exists n :: n in Names(d) && Lower(n) == x {
        var n :| n in Names(d) && Lower(n) == x;
        if n != d[0].name {
          assert n in Names(d[1..]);
        }
      }
      if Lower(d[0].name) == x {
        assert d[0].name in Names(d);
      }
    }
  }

  /** Adding keys can only add lower-cased names. */
  lemma LowerNamesMonotone(d: HeaderList, e: HeaderList)
    requires Names(d) <= Names(e)
    ensures LowerNames(d) <= LowerNames(e)
  {
    forall x | x in LowerNames(d) ensures x in LowerNames(e) {
      LowerNamesMember(d, x);
      LowerNamesMember(e, x);
    }
  }

  /** The overwrite policy `route.get('force_header_overwrite', global)`,
      read for its truthiness: a missing key inherits the global default,
      an explicit `null` is `None` and so counts as false. */
  function OverwritePolicy(routeSetting: Field<bool>, globalDefault: bool): (r: bool)
    ensures routeSetting.Absent? ==> r == globalDefault
    ensures routeSetting.Null? ==> !r
    ensures routeSetting.Val? ==> r == routeSetting.value
  {
    TruthyOr(routeSetting, globalDefault)
  }

  /** Whether the merge loop writes custom header `c`: its lower-cased name
      was not among the names present before the loop, or overwriting is on. */
  predicate Writes(c: Header, present: set<string>, overwrite: bool) {
    Lower(c.name) !in present || overwrite
  }

  /** The loop over the custom headers. `present` is the set of lower-cased
      names taken before the loop starts, so it does not grow as custom
      headers are added; a write uses the custom key exactly as spelled. */
  function MergeCustom(d: HeaderList, present: set<string>, custom: HeaderList, overwrite: bool): (r: HeaderList)
    ensures Names(d) <= Names(r)
    ensures forall i :: 0 <= i < |custom| && Writes(custom[i], present, overwrite) ==> custom[i].name in Names(r)
    ensures forall h :: h in r ==> h in d || h in custom
    ensures DistinctNames(d) ==> DistinctNames(r)
    decreases |custom|
  {
    if |custom| == 0 then d
    else
      var c := custom[0];
      var next := if Writes(c, present, overwrite) then Put(d, c.name, c.value) else d;
      var r := MergeCustom(next, present, custom[1..], overwrite);
      assert forall i :: 1 <= i < |custom| ==> custom[i] == custom[1..][i - 1];
      assert forall h :: h in custom[1..] ==> h in custom;
      r
  }

  /** The key-by-key outcome of the merge, for custom headers with distinct
      keys (they come from a JSON object): a custom key the loop writes holds
      the custom value, every other key keeps what it had. */
  lemma {:induction false} MergeGet(d: HeaderList, present: set<string>, custom: HeaderList, overwrite: bool, k: string)
    requires DistinctNames(custom)
    ensures Get(MergeCustom(d, present, custom, overwrite), k) ==
              if Get(custom, k).Some? && (Lower(k) !in present || overwrite) then Get(custom, k) else Get(d, k)
    decreases |custom|
  {
    if |custom| > 0 {
      var c := custom[0];
      var next := if Writes(c, present, overwrite) then Put(d, c.name, c.value) else d;
      DropFirstDistinct(custom);
      MergeGet(next, present, custom[1..], overwrite, k);
      HeadNotInRest(custom);
    }
  }

  /** When every custom header's lower-cased name is already present and
      overwriting is off, the loop leaves the headers as they are. */
  lemma {:induction false} MergeKeepsAll(d: HeaderList, present: set<string>, custom: HeaderList)
    requires forall i :: 0 <= i < |custom| ==> Lower(custom[i].name) in present
    ensures MergeCustom(d, present, custom, false) == d
    decreases |custom|
  {
    if |custom| > 0 {
      assert forall i :: 0 <= i < |custom| - 1 ==> custom[1..][i] == custom[i + 1];
      MergeKeepsAll(d, present, custom[1..]);
    }
  }

  /** The custom headers of a route: `route.get('custom_headers', {})`, with
      a missing key and `null` both giving nothing to add. */
  function CustomList(custom: Field<HeaderList>): HeaderList {
    if custom.Val? then custom.value else []
  }

  /** Step 3 of the outbound merge. Nothing happens unless the route's
      `custom_headers` is truthy; otherwise the policy is resolved and the
      loop runs against the lower-cased names present before it. */
  function ApplyCustomHeaders(d: HeaderList, custom: Field<HeaderList>, routePolicy: Field<bool>, globalPolicy: bool): (r: HeaderList)
    ensures Names(d) <= Names(r)
    ensures forall h :: h in r ==> h in d || h in CustomList(custom)
    ensures DistinctNames(d) ==> DistinctNames(r)
  {
    if custom.Val? && |custom.value| > 0 then
      MergeCustom(d, LowerNames(d), custom.value, OverwritePolicy(routePolicy, globalPolicy))
    else
      d
  }

  /** The header-by-header outcome of step 3: a custom header whose name
      (compared in lower case) was absent is added; one that was present is
      written at the custom key when the policy is on and ignored when it is
      off; keys that are not custom keys are untouched. */
  lemma CustomHeaderOutcome(d: HeaderList, custom: Field<HeaderList>, routePolicy: Field<bool>, globalPolicy: bool, k: string)
    requires DistinctNames(CustomList(custom))
    ensures var cs := CustomList(custom);
            Get(ApplyCustomHeaders(d, custom, routePolicy, globalPolicy), k) ==
              if Get(cs, k).Some? && (Lower(k) !in LowerNames(d) || OverwritePolicy(routePolicy, globalPolicy))
              then Get(cs, k) else Get(d, k)
  {
    if custom.Val? && |custom.value| > 0 {
      MergeGet(d, LowerNames(d), custom.value, OverwritePolicy(routePolicy, globalPolicy), k);
    } else {
      assert Get(CustomList(custom), k).None?;
    }
  }

  /** With the policy off, merging the same custom headers a second time
      changes nothing: a kept client value is never overwritten later. */
  lemma KeepPolicyIdempotent(d: HeaderList, custom: Field<HeaderList>, routePolicy: Field<bool>, globalPolicy: bool)
    requires !OverwritePolicy(routePolicy, globalPolicy)
    ensures var once := ApplyCustomHeaders(d, custom, routePolicy, globalPolicy);
            ApplyCustomHeaders(once, custom, routePolicy, globalPolicy) == once
  {
    if custom.Val? && |custom.value| > 0 {
      var cs := custom.value;
      var once := MergeCustom(d, LowerNames(d), cs, false);
      LowerNamesMonotone(d, once);
      forall i | 0 <= i < |cs| ensures Lower(cs[i].name) in LowerNames(once) {
        if Lower(cs[i].name) !in LowerNames(d) {
          LowerNamesMember(once, Lower(cs[i].name));
        }
      }
      MergeKeepsAll(once, LowerNames(once), cs);
    }
  }

  /** The four response headers that are not relayed; the serving layer
      recomputes them. */
  const ExcludedResponseHeaders: set<string> :=
    {"content-encoding", "content-length", "transfer-encoding", "connection"}

  predicate Relayable(h: Header) {
    Lower(h.name) !in ExcludedResponseHeaders
  }

  /** The response header list: the upstream headers in their order, minus
      exactly those whose lower-cased name is excluded. */
  function FilterResponseHeaders(upstream: HeaderList): (r: HeaderList)
    ensures IsSubsequence(r, upstream)
    ensures forall h :: h in r <==> h in upstream && Lower(h.name) !in ExcludedResponseHeaders
    ensures forall h :: multiset(r)[h] ==
              if Lower(h.name) in ExcludedResponseHeaders then 0 else multiset(upstream)[h]
  {
    Filter(upstream, Relayable)
  }

  /** Filtering the response headers twice is filtering them once. */
  lemma ResponseFilterIdempotent(upstream: HeaderList)
    ensures FilterResponseHeaders(FilterResponseHeaders(upstream)) == FilterResponseHeaders(upstream)
  {
    FilterIdempotent(upstream, Relayable);
  }
}
