/** The handful of Python `str` operations the proxy relies on, over
    `string` (a sequence of `char`). Case mapping is ASCII only. */
module Text {
  import opened Values

  predicate IsAsciiUpper(c: char) {
    'A' <= c <= 'Z'
  }

  /** `c.lower()` restricted to ASCII: `A`..`Z` map to `a`..`z`, every other
      character is left alone. */
  function LowerChar(c: char): (d: char)
    ensures !IsAsciiUpper(d)
    ensures !IsAsciiUpper(c) ==> d == c
    ensures IsAsciiUpper(c) ==> 'a' <= d <= 'z' && d as int - c as int == 'a' as int - 'A' as int
  {
    if IsAsciiUpper(c) then (c as int + ('a' as int - 'A' as int)) as char else c
  }

  /** `s.lower()`: same length, character by character. */
  function Lower(s: string): (r: string)
    ensures |r| == |s|
    ensures forall i :: 0 <= i < |s| ==> r[i] == LowerChar(s[i])
  {
    if |s| == 0 then "" else [LowerChar(s[0])] + Lower(s[1..])
  }

  /** `Lower` on a concrete string, character by character. */
  lemma LowerIs(s: string, t: string)
    requires |s| == |t| && forall i :: 0 <= i < |s| ==> LowerChar(s[i]) == t[i]
    ensures Lower(s) == t
  {
  }

  /** `s.startswith(p)`. */
  predicate StartsWith(s: string, p: string) {
    p <= s
  }

  /** The result of `s.split(sep, 1)`: the text before the first `sep`, and
      the text after it when `sep` occurs at all (a one-element list in
      Python, so that indexing `[1]` raises `IndexError`). */
  datatype Split = Split(head: string, tail: Option<string>)

  function SplitFirst(s: string, sep: char): (r: Split)
    ensures sep !in r.head
    ensures r.tail.None? ==> r.head == s
    ensures r.tail.Some? ==> s == r.head + [sep] + r.tail.value
  {
    if |s| == 0 then Split("", None)
    else if s[0] == sep then Split("", Some(s[1..]))
    else
      var rest := SplitFirst(s[1..], sep);
      assert s == [s[0]] + s[1..];
      Split([s[0]] + rest.head, rest.tail)
  }

  /** The split is the only one with the shape its contract states. */
  lemma {:induction false} SplitFirstUnique(s: string, sep: char, head: string, tail: string)
    requires sep !in head && s == head + [sep] + tail
    ensures SplitFirst(s, sep) == Split(head, Some(tail))
  {
    if |head| > 0 {
      assert s[0] == head[0] && s[0] != sep;
      assert s[1..] == head[1..] + [sep] + tail;
      SplitFirstUnique(s[1..], sep, head[1..], tail);
      assert head == [head[0]] + head[1..];
    }
  }

  /** `s.find(pat, from)` as an option: the least index `i >= from` at which
      `pat` occurs. */
  function FindFrom(s: string, pat: string, from: nat): (r: Option<nat>)
    requires from <= |s|
    ensures r.Some? ==> from <= r.value <= |s| && pat <= s[r.value..]
    ensures r.Some? ==> forall j :: from <= j < r.value ==> !(pat <= s[j..])
    ensures r.None? ==> forall j :: from <= j <= |s| ==> !(pat <= s[j..])
    decreases |s| - from
  {
    if pat <= s[from..] then Some(from)
    else if from == |s| then None
    else FindFrom(s, pat, from + 1)
  }

  /** `s.replace(pat, replacement, 1)`: the first occurrence of `pat`, if any, is
      replaced by `replacement`. */
  function ReplaceFirst(s: string, pat: string, replacement: string): (r: string)
    ensures StartsWith(s, pat) ==> r == replacement + s[|pat|..]
    ensures (forall j :: 0 <= j <= |s| ==> !(pat <= s[j..])) ==> r == s
  {
    match FindFrom(s, pat, 0)
    case None => s
    case Some(i) => s[..i] + replacement + s[i + |pat|..]
  }

  /** `s.lstrip(c)`: every leading `c` removed. */
  function LStrip(s: string, c: char): (r: string)
    ensures |r| <= |s| && r == s[|s| - |r|..]
    ensures forall i :: 0 <= i < |s| - |r| ==> s[i] == c
    ensures r == [] || r[0] != c
  {
    if |s| > 0 && s[0] == c then LStrip(s[1..], c) else s
  }

  /** `s.rstrip(c)`: every trailing `c` removed. */
  function RStrip(s: string, c: char): (r: string)
    ensures r <= s
    ensures forall i :: |r| <= i < |s| ==> s[i] == c
    ensures r == [] || r[|r| - 1] != c
  {
    if |s| > 0 && s[|s| - 1] == c then RStrip(s[..|s| - 1], c) else s
  }

  /** Every character of `s` is `c`. */
  predicate AllChars(s: string, c: char) {
    forall i :: 0 <= i < |s| ==> s[i] == c
  }

  /** `s.lstrip(c)` is the only suffix of `s` that drops nothing but `c`s
      and does not itself start with `c`. */
  lemma {:induction false} LStripUnique(s: string, c: char, lead: string, rest: string)
    requires s == lead + rest
    requires AllChars(lead, c)
    requires rest == [] || rest[0] != c
    ensures LStrip(s, c) == rest
  {
    if |lead| > 0 {
      assert s[0] == c;
      assert s[1..] == lead[1..] + rest;
      LStripUnique(s[1..], c, lead[1..], rest);
    } else {
      assert s == rest;
    }
  }

  /** `s.rstrip(c)` is the only prefix of `s` that drops nothing but `c`s
      and does not itself end with `c`. */
  lemma {:induction false} RStripUnique(s: string, c: char, base: string, trail: string)
    requires s == base + trail
    requires AllChars(trail, c)
    requires base == [] || base[|base| - 1] != c
    ensures RStrip(s, c) == base
  {
    if |trail| > 0 {
      assert s[|s| - 1] == trail[|trail| - 1] == c;
      assert s[..|s| - 1] == base + trail[..|trail| - 1];
      RStripUnique(s[..|s| - 1], c, base, trail[..|trail| - 1]);
    } else {
      assert s == base;
    }
  }
}
