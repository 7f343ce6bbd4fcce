// cmd/godeb/main.go: how the download page becomes a list of tarballs,
// and how actionCommand picks one. parseURL and clearScripts are the same
// in main.go, which module LegacyListing models and which uses these.
// The HTTP fetch, the HTML parser and its XPath query are left out: the
// hrefs the query yields are an input.

module Listing {
  import opened Text
  import opened TarballSort
  import Deb

  // ---------------------------------------------------------------------
  // parseURL

  /** The file-name tail of an upstream tarball for GOARCH: ".linux-<arch>.tar.gz". */
  function Suffix(goarch: string): string {
    ".linux-" + goarch + ".tar.gz"
  }

  /** parseURL's test on the last path segment: "go", a digit 1-9, ..., the suffix. */
  predicate IsTarballName(s: string, goarch: string) {
    |s| >= 3 && HasPrefix(s, "go") && '1' <= s[2] <= '9' && HasSuffix(s, Suffix(goarch))
  }

  /**
   * parseURL: the tarball a download URL names, with the version between
   * "go" and the suffix of its last path segment, or None.
   */
  function ParseURL(url: string, goarch: string): (r: Option<Tarball>)
    ensures r.Some? <==> IsTarballName(AfterLastSlash(url), goarch)
    ensures r.Some? ==> r.value.url == url
    ensures r.Some? ==> r.value.version != [] && '1' <= r.value.version[0] <= '9' && '/' !in r.value.version
    ensures r.Some? ==> HasSuffix(url, "go" + r.value.version + Suffix(goarch))
  {
    var s := AfterLastSlash(url);
    var suffix := Suffix(goarch);
    if |s| < 3 || !HasPrefix(s, "go") || !('1' <= s[2] <= '9') then None
    else if !HasSuffix(s, suffix) then None
    else
      NameParts(url, s, suffix);
      Some(Tarball(url, s[2..|s| - |suffix|]))
  }

  /**
   * The version slice of parseURL is in range and non-empty: the suffix
   * starts with '.', which is neither of "go" nor the digit after them.
   */
  lemma NameParts(url: string, s: string, suffix: string)
    requires HasSuffix(url, s) && '/' !in s
    requires |s| >= 3 && HasPrefix(s, "go") && '1' <= s[2] <= '9' && HasSuffix(s, suffix)
    requires suffix != [] && suffix[0] == '.'
    ensures 3 <= |s| - |suffix|
    ensures var v := s[2..|s| - |suffix|];
      && v != [] && v[0] == s[2] && '/' !in v
      && HasSuffix(url, "go" + v + suffix)
  {
    assert s[|s| - |suffix|] == '.';
    var v := s[2..|s| - |suffix|];
    assert s == s[..2] + v + s[|s| - |suffix|..];
    assert forall k :: 0 <= k < |v| ==> v[k] == s[k + 2];
  }

  /** The tarball file name of a version: "go" + version + ".linux-<arch>.tar.gz". */
  function FileName(version: string, goarch: string): string {
    "go" + version + Suffix(goarch)
  }

  /** A URL whose last segment is a version's file name is parsed back to that version. */
  lemma ParseURLRoundTrip(base: string, version: string, goarch: string)
    requires version != [] && '1' <= version[0] <= '9' && '/' !in version && '/' !in goarch
    ensures var url := base + "/" + FileName(version, goarch);
      ParseURL(url, goarch) == Some(Tarball(url, version))
  {
    var suffix := Suffix(goarch);
    var tail := FileName(version, goarch);
    assert '/' !in suffix;
    assert '/' !in tail;
    AfterLastSlashOf(base, tail);
    BuiltName(version, suffix);
  }

  /** The pieces of "go" + version + suffix, as parseURL looks at them. */
  lemma BuiltName(version: string, suffix: string)
    requires version != []
    ensures var s := "go" + version + suffix;
      && |s| >= 3 && HasPrefix(s, "go") && s[2] == version[0] && HasSuffix(s, suffix)
      && s[2..|s| - |suffix|] == version
  {
    var s := "go" + version + suffix;
    assert s[..2] == "go";
    assert s[|s| - |suffix|..] == suffix;
  }

  // ---------------------------------------------------------------------
  // clearScripts

  const ScriptOpen := "<script"
  const ScriptClose := "</script>"

  /**
   * clearScripts ends only if every "<script" at or after j has a '>' after
   * it: otherwise the search restarts one byte before the same tag forever
   * (or, for a tag at 0, slices data[-1:]).
   */
  ghost predicate ScriptsClosed(s: string, j: int) {
    forall p :: j <= p && OccursAt(s, ScriptOpen, p) ==> exists g :: p < g < |s| && s[g] == '>'
  }

  /** s with the bytes in [i, c) replaced by spaces. */
  function Blank(s: string, i: int, c: int): (r: string)
    requires 0 <= i <= c <= |s|
    ensures |r| == |s|
    ensures forall k :: 0 <= k < |s| ==> r[k] == if i <= k < c then ' ' else s[k]
  {
    s[..i] + seq(c - i, _ => ' ') + s[c..]
  }

  lemma BlankKeepsClosed(s: string, i: int, c: int, j: int)
    requires 0 <= j <= i <= c <= |s| && ScriptsClosed(s, j)
    ensures ScriptsClosed(Blank(s, i, c), c)
  {
    var b := Blank(s, i, c);
    forall p | c <= p && OccursAt(b, ScriptOpen, p)
      ensures exists g :: p < g < |b| && b[g] == '>'
    {
      assert b[p..p + |ScriptOpen|] == s[p..p + |ScriptOpen|];
      assert OccursAt(s, ScriptOpen, p);
      var g :| p < g < |s| && s[g] == '>';
      assert b[g] == '>';
    }
  }

  /** What one round of clearScripts' outer loop does, starting at j. */
  datatype Round =
    | NoScript                  // no "<script" at or after j: the loop ends
    | Unclosed(next: int)       // no "</script>" after the tag: go on from its '>'
    | Body(start: int, end: int) // blank [start, end), go on from the "</script>" at end

  /** Where the next "<script" lies, relative to j, or -1. */
  function TagAt(s: string, j: int): (r: int)
    requires 0 <= j <= |s|
    ensures r == -1 || (0 <= r && OccursAt(s, ScriptOpen, j + r))
  {
    var r := Index(s[j..], ScriptOpen);
    if r == -1 then r
    else
      OccursAtShift(s, ScriptOpen, j, r);
      r
  }

  /** Where the next "</script>" lies, relative to i, or -1. */
  function CloseAt(s: string, i: int): (r: int)
    requires 0 <= i <= |s|
    ensures r == -1 || (0 <= r && OccursAt(s, ScriptClose, i + r))
  {
    var r := Index(s[i..], ScriptClose);
    if r == -1 then r
    else
      OccursAtShift(s, ScriptClose, i, r);
      r
  }

  /** Just past the '>' that ends the start tag found at j + d. */
  function AfterTag(s: string, j: int, d: int): (r: int)
    requires 0 <= j <= |s| && ScriptsClosed(s, j)
    requires d == TagAt(s, j) && d != -1
    ensures j + d + 1 < r <= |s|
  {
    TagEnd(s, j, d);
    j + d + IndexByte(s[j + d..], '>') + 1
  }

  /**
   * One round: find "<script" from j, step just past the next '>', then look
   * for "</script>" from there.
   */
  function NextRound(s: string, j: int): (r: Round)
    requires 0 <= j <= |s| && ScriptsClosed(s, j)
    ensures r.Unclosed? ==> j < r.next < |s|
    ensures r.Body? ==> j < r.start <= r.end <= |s| && OccursAt(s, ScriptClose, r.end)
  {
    var d := TagAt(s, j);
    if d == -1 then NoScript
    else
      var i := AfterTag(s, j, d);
      var e := CloseAt(s, i);
      if e == -1 then Unclosed(i - 1) else Body(i, i + e)
  }

  /**
   * What clearScripts leaves in the buffer when its outer loop starts at j:
   * every round blanks one script body, until no "<script" is left.
   */
  function Cleared(s: string, j: int): (r: string)
    requires 0 <= j <= |s| && ScriptsClosed(s, j)
    ensures |r| == |s|
    ensures forall k :: 0 <= k < j ==> r[k] == s[k]
    ensures forall k :: 0 <= k < |s| ==> r[k] == s[k] || r[k] == ' '
    decreases |s| - j
  {
    match NextRound(s, j)
    case NoScript => s
    case Unclosed(next) => Cleared(s, next)
    case Body(start, end) =>
      BlankKeepsClosed(s, start, end, j);
      Cleared(Blank(s, start, end), end)
  }

  /** What one round does to the result of clearScripts. */
  lemma ClearedRound(s: string, j: int)
    requires 0 <= j <= |s| && ScriptsClosed(s, j)
    ensures match NextRound(s, j)
      case NoScript => Cleared(s, j) == s
      case Unclosed(next) => ScriptsClosed(s, next) && Cleared(s, j) == Cleared(s, next)
      case Body(start, end) =>
        ScriptsClosed(Blank(s, start, end), end) && Cleared(s, j) == Cleared(Blank(s, start, end), end)
  {
    match NextRound(s, j)
    case NoScript =>
    case Unclosed(next) =>
    case Body(start, end) => BlankKeepsClosed(s, start, end, j);
  }

  /** A start tag found from j has its '>' after its '<'. */
  lemma TagEnd(s: string, j: int, d: int)
    requires 0 <= j <= |s| && ScriptsClosed(s, j)
    requires d == TagAt(s, j) && d != -1
    ensures j + d < |s| && s[j + d] == '<'
    ensures var g := IndexByte(s[j + d..], '>'); g >= 1 && j + d + g < |s|
  {
    var p := j + d;
    assert s[p] == s[p..p + |ScriptOpen|][0];
    var g' :| p < g' < |s| && s[g'] == '>';
    assert s[p..][g' - p] == '>';
  }

  /**
   * The first script element: the bytes between the '>' ending its start
   * tag and the next "</script>" become spaces, and everything up to and
   * including that '>' is left as it was.
   */
  lemma ClearedFirstScript(s: string, p: int, g: int, e: int)
    requires ScriptsClosed(s, 0)
    requires Index(s, ScriptOpen) == p >= 0
    requires 0 <= g && p + g < |s| && IndexByte(s[p..], '>') == g
    requires Index(s[p + g + 1..], ScriptClose) == e >= 0
    ensures var r := Cleared(s, 0);
      && (forall k :: 0 <= k <= p + g ==> r[k] == s[k])
      && (forall k :: p + g + 1 <= k < p + g + 1 + e ==> r[k] == ' ')
  {
    FirstRound(s, p, g, e);
    ClearedBody(s, p + g + 1, p + g + 1 + e);
  }

  /** A round that finds a body blanks it and keeps what lies before it. */
  lemma ClearedBody(s: string, start: int, end: int)
    requires ScriptsClosed(s, 0) && NextRound(s, 0) == Body(start, end)
    ensures var r := Cleared(s, 0);
      && (forall k :: 0 <= k < start ==> r[k] == s[k])
      && (forall k :: start <= k < end ==> r[k] == ' ')
  {
    BlankKeepsClosed(s, start, end, 0);
    var b := Blank(s, start, end);
    assert Cleared(s, 0) == Cleared(b, end);
  }

  lemma FirstRound(s: string, p: int, g: int, e: int)
    requires ScriptsClosed(s, 0)
    requires Index(s, ScriptOpen) == p >= 0
    requires 0 <= g && p + g < |s| && IndexByte(s[p..], '>') == g
    requires Index(s[p + g + 1..], ScriptClose) == e >= 0
    ensures NextRound(s, 0) == Body(p + g + 1, p + g + 1 + e)
  {
    assert s[0..] == s;
    var d := TagAt(s, 0);
    assert d == p;
    var i := AfterTag(s, 0, d);
    assert i == p + g + 1;
    var c := CloseAt(s, i);
    assert c == e;
    RoundFindsBody(s, 0, d, i, c);
  }

  /** A round whose tag and close tag are both found yields that body. */
  lemma RoundFindsBody(s: string, j: int, d: int, i: int, e: int)
    requires 0 <= j <= |s| && ScriptsClosed(s, j)
    requires d == TagAt(s, j) && d != -1
    requires i == AfterTag(s, j, d) && e == CloseAt(s, i) && e != -1
    ensures NextRound(s, j) == Body(i, i + e)
  {
  }

  /**
   * Byte k lies in a script body that the outer loop finds when it starts
   * at j on the original buffer: between the '>' ending a start tag and the
   * next "</script>".
   */
  predicate InBody(s: string, j: int, k: int)
    requires 0 <= j <= |s| && ScriptsClosed(s, j)
    decreases |s| - j
  {
    match NextRound(s, j)
    case NoScript => false
    case Unclosed(next) => InBody(s, next, k)
    case Body(start, end) => (start <= k < end) || InBody(s, end, k)
  }

  /** Buffers that agree from j on agree from every later i on. */
  lemma SameFrom(s: string, t: string, j: int, i: int)
    requires 0 <= j <= i <= |s| == |t| && s[j..] == t[j..]
    ensures s[i..] == t[i..]
  {
    assert s[i..] == s[j..][i - j..];
    assert t[i..] == t[j..][i - j..];
  }

  /** The start tag found from j ends at the same place in both buffers. */
  lemma AfterTagSuffix(s: string, t: string, j: int, d: int)
    requires 0 <= j <= |s| == |t| && s[j..] == t[j..]
    requires ScriptsClosed(s, j) && ScriptsClosed(t, j)
    requires d == TagAt(s, j) == TagAt(t, j) && d != -1
    ensures AfterTag(s, j, d) == AfterTag(t, j, d)
  {
    SameFrom(s, t, j, j + d);
  }

  /** A round started at j reads nothing before j. */
  lemma NextRoundSuffix(s: string, t: string, j: int)
    requires 0 <= j <= |s| == |t| && s[j..] == t[j..]
    requires ScriptsClosed(s, j) && ScriptsClosed(t, j)
    ensures NextRound(s, j) == NextRound(t, j)
  {
    var d := TagAt(s, j);
    assert d == TagAt(t, j);
    if d != -1 {
      AfterTagSuffix(s, t, j, d);
      SameFrom(s, t, j, AfterTag(s, j, d));
    }
  }

  /** Which bytes lie in a body depends only on the buffer from j on. */
  lemma {:induction false} InBodySuffix(s: string, t: string, j: int, k: int)
    requires 0 <= j <= |s| == |t| && s[j..] == t[j..]
    requires ScriptsClosed(s, j) && ScriptsClosed(t, j)
    ensures InBody(s, j, k) == InBody(t, j, k)
    decreases |s| - j
  {
    NextRoundSuffix(s, t, j);
    match NextRound(s, j)
    case NoScript =>
    case Unclosed(next) =>
      SameFrom(s, t, j, next);
      InBodySuffix(s, t, next, k);
    case Body(start, end) =>
      SameFrom(s, t, j, end);
      InBodySuffix(s, t, end, k);
  }

  /**
   * What clearScripts does to every byte: the bytes of each script body,
   * as the rounds find them in the original buffer, become spaces; every
   * byte outside the bodies is kept.
   */
  lemma {:induction false} ClearedBlanksBodies(s: string, j: int)
    requires 0 <= j <= |s| && ScriptsClosed(s, j)
    ensures forall k :: 0 <= k < |s| ==> Cleared(s, j)[k] == if InBody(s, j, k) then ' ' else s[k]
    decreases |s| - j
  {
    match NextRound(s, j)
    case NoScript =>
    case Unclosed(next) =>
      ClearedBlanksBodies(s, next);
    case Body(start, end) =>
      BlankKeepsClosed(s, start, end, j);
      var b := Blank(s, start, end);
      ClearedBlanksBodies(b, end);
      assert b[end..] == s[end..];
      forall k | 0 <= k < |s|
        ensures InBody(b, end, k) == InBody(s, end, k)
      {
        InBodySuffix(b, s, end, k);
      }
  }

  /** clearScripts: blanks the bodies of the script elements in place. */
  method ClearScripts(data: array<char>)
    requires ScriptsClosed(data[..], 0)
    modifies data
    ensures data[..] == Cleared(old(data[..]), 0)
  {
    var i, j := 0, 0;
    while true
      invariant 0 <= j <= data.Length
      invariant ScriptsClosed(data[..], j)
      invariant Cleared(data[..], j) == Cleared(old(data[..]), 0)
      decreases data.Length - j
    {
      ClearedRound(data[..], j);
      var next;
      i, next := FindScript(data, j);
      if i < j {
        break;
      }
      j := next;
      BlankBody(data, i, j);
    }
  }

  /**
   * The searches of one round of clearScripts' outer loop: i < j when no
   * "<script" is left; otherwise the body runs from i to the returned next.
   */
  method FindScript(data: array<char>, j: int) returns (i: int, next: int)
    requires 0 <= j <= data.Length && ScriptsClosed(data[..], j)
    ensures match NextRound(data[..], j)
      case NoScript => i < j
      case Unclosed(n) => j <= i && next == n && next < i
      case Body(start, end) => j <= i && i == start && next == end
  {
    ghost var s := data[..];
    var d := TagAt(data[..], j);
    i := j + d;
    if i < j {
      return i, j;
    }
    TagEnd(s, j, d);
    var g := IndexByte(data[i..], '>');
    i := i + g + 1;
    assert i == AfterTag(s, j, d);
    var e := CloseAt(data[..], i);
    next := i + e;
  }

  /** The inner loop of clearScripts: spaces over data[i..j], nothing when j < i. */
  method BlankBody(data: array<char>, i: int, j: int)
    requires 0 <= i && j <= data.Length
    modifies data
    ensures i <= j ==> data[..] == Blank(old(data[..]), i, j)
    ensures j < i ==> data[..] == old(data[..])
  {
    var k := i;
    while k < j
      invariant k == i || i <= k <= j
      invariant forall m :: 0 <= m < data.Length ==> data[m] == if i <= m < k then ' ' else old(data[m])
    {
      data[k] := ' ';
      k := k + 1;
    }
    assert j < i ==> data[..] == old(data[..]);
  }

  // ---------------------------------------------------------------------
  // tarballsFrom

  datatype ListingError = NoDownloads(at: string)

  /** The single source of cmd/godeb/main.go:186-188. */
  const DownloadPage := "https://golang.org/dl/"

  /** tarballsFrom's href normalisation: scheme-relative and site-relative links become absolute. */
  function Normalize(href: string, sourceURL: string): (s: string)
    ensures HasPrefix(href, "//") ==> s == "https:" + href
    ensures HasPrefix(href, "/dl/") ==> s == sourceURL + href[4..]
    ensures !HasPrefix(href, "//") && !HasPrefix(href, "/dl/") ==> s == href
  {
    var s := if HasPrefix(href, "//") then "https:" + href else href;
    assert HasPrefix(href, "//") ==> s[..4][0] == 'h';
    assert HasPrefix(href, "/dl/") ==> href[..2][1] == href[..4][1] == 'd';
    if HasPrefix(s, "/dl/") then sourceURL + s[4..] else s
  }

  /** A site-relative link to a tarball resolves against the page URL and names that tarball's version. */
  lemma RelativeLinkParses(base: string, version: string, goarch: string)
    requires version != [] && '1' <= version[0] <= '9' && '/' !in version && '/' !in goarch
    ensures var name := FileName(version, goarch);
      ParseURL(Normalize("/dl/" + name, base + "/"), goarch) == Some(Tarball(base + "/" + name, version))
  {
    var name := FileName(version, goarch);
    var href := "/dl/" + name;
    assert href[..4] == "/dl/" && href[4..] == name;
    ParseURLRoundTrip(base, version, goarch);
  }

  /** A scheme-relative link to a tarball gets "https:" and names that tarball's version. */
  lemma SchemeRelativeLinkParses(host: string, version: string, goarch: string, sourceURL: string)
    requires version != [] && '1' <= version[0] <= '9' && '/' !in version && '/' !in goarch
    requires HasPrefix(host, "//")
    ensures var href := host + "/" + FileName(version, goarch);
      ParseURL(Normalize(href, sourceURL), goarch) == Some(Tarball("https:" + href, version))
  {
    var href := host + "/" + FileName(version, goarch);
    assert href[..2] == host[..2];
    assert "https:" + href == ("https:" + host) + "/" + FileName(version, goarch);
    ParseURLRoundTrip("https:" + host, version, goarch);
  }

  /** The tarballs the links name, in link order, before duplicates are dropped. */
  function Candidates(hrefs: seq<string>, sourceURL: string, goarch: string): (ts: seq<Tarball>)
    ensures forall t :: t in ts ==> t.url != [] && t.version != [] && '1' <= t.version[0] <= '9'
  {
    if hrefs == [] then []
    else
      var prev := Candidates(hrefs[..|hrefs| - 1], sourceURL, goarch);
      match ParseURL(Normalize(hrefs[|hrefs| - 1], sourceURL), goarch)
      case Some(t) => prev + [t]
      case None => prev
  }

  function VersionSet(ts: seq<Tarball>): set<string> {
    set t | t in ts :: t.version
  }

  lemma VersionSetAppend(ts: seq<Tarball>, t: Tarball)
    ensures VersionSet(ts + [t]) == VersionSet(ts) + {t.version}
  {
    assert forall u :: u in ts + [t] <==> u in ts || u == t;
  }

  /**
   * The first tarball for each version, in input order: what the `seen`
   * map of tarballsFrom keeps.
   */
  function FirstPerVersion(ts: seq<Tarball>): (r: seq<Tarball>)
    ensures VersionSet(r) == VersionSet(ts)
    ensures forall t :: t in r ==> t in ts
    ensures forall i, j :: 0 <= i < j < |r| ==> r[i].version != r[j].version
  {
    if ts == [] then []
    else
      var prev := FirstPerVersion(ts[..|ts| - 1]);
      var t := ts[|ts| - 1];
      assert ts == ts[..|ts| - 1] + [t];
      VersionSetAppend(ts[..|ts| - 1], t);
      VersionSetAppend(prev, t);
      if t.version in VersionSet(prev) then prev
      else
        assert forall i :: 0 <= i < |prev| ==> prev[i] in prev && prev[i].version != t.version;
        prev + [t]
  }

  /** Each tarball kept is the first one of the input with its version. */
  lemma {:induction false} FirstPerVersionKeepsFirst(ts: seq<Tarball>, i: int)
    requires 0 <= i < |FirstPerVersion(ts)|
    ensures exists k :: (0 <= k < |ts| && ts[k] == FirstPerVersion(ts)[i]
      && forall m :: 0 <= m < k ==> ts[m].version != ts[k].version)
  {
    var prev := FirstPerVersion(ts[..|ts| - 1]);
    var t := ts[|ts| - 1];
    var r := FirstPerVersion(ts);
    if i < |prev| {
      var init := ts[..|ts| - 1];
      FirstPerVersionKeepsFirst(init, i);
      var k :| 0 <= k < |init| && init[k] == prev[i]
        && forall m :: 0 <= m < k ==> init[m].version != init[k].version;
      assert r[i] == prev[i];
      assert ts[k] == r[i];
      forall m | 0 <= m < k
        ensures ts[m].version != ts[k].version
      {
        assert ts[m] == init[m];
      }
    } else {
      assert r == prev + [t] && r[i] == t;
      forall m | 0 <= m < |ts| - 1
        ensures ts[m].version != t.version
      {
        assert ts[..|ts| - 1][m] in ts[..|ts| - 1];
      }
    }
  }

  /** ts[k] is the first tarball of ts with its version. */
  predicate FirstOfItsVersion(ts: seq<Tarball>, k: int)
    requires 0 <= k < |ts|
  {
    forall m :: 0 <= m < k ==> ts[m].version != ts[k].version
  }

  /** Those of the first n tarballs that no earlier tarball shares a version with, in input order. */
  function FirstsUpTo(ts: seq<Tarball>, n: int): seq<Tarball>
    requires 0 <= n <= |ts|
  {
    if n == 0 then []
    else FirstsUpTo(ts, n - 1) + if FirstOfItsVersion(ts, n - 1) then [ts[n - 1]] else []
  }

  lemma {:induction false} FirstsPrefix(ts: seq<Tarball>, u: seq<Tarball>, n: int)
    requires 0 <= n <= |u| <= |ts| && u == ts[..|u|]
    ensures FirstsUpTo(u, n) == FirstsUpTo(ts, n)
  {
    if n > 0 {
      FirstsPrefix(ts, u, n - 1);
      assert forall m :: 0 <= m < n ==> u[m] == ts[m];
      assert FirstOfItsVersion(u, n - 1) == FirstOfItsVersion(ts, n - 1);
    }
  }

  /**
   * The order the `seen` loop keeps: exactly the tarballs no earlier link
   * shares a version with, in link order.
   */
  lemma {:induction false} FirstPerVersionInOrder(ts: seq<Tarball>)
    ensures FirstPerVersion(ts) == FirstsUpTo(ts, |ts|)
  {
    if ts != [] {
      var init := ts[..|ts| - 1];
      var t := ts[|ts| - 1];
      FirstPerVersionInOrder(init);
      FirstsPrefix(ts, init, |init|);
      if FirstOfItsVersion(ts, |ts| - 1) {
        forall u | u in init
          ensures u.version != t.version
        {
          var m :| 0 <= m < |init| && init[m] == u;
          assert ts[m] == u;
        }
        assert t.version !in VersionSet(init);
      } else {
        var m :| 0 <= m < |ts| - 1 && ts[m].version == t.version;
        assert init[m] in init;
        assert t.version in VersionSet(init);
      }
    }
  }

  /** One more link: its tarball, if it names one, joins the candidates. */
  lemma CandidatesStep(hrefs: seq<string>, n: int, sourceURL: string, goarch: string)
    requires 0 <= n < |hrefs|
    ensures var c, tb := Candidates(hrefs[..n], sourceURL, goarch), ParseURL(Normalize(hrefs[n], sourceURL), goarch);
      Candidates(hrefs[..n + 1], sourceURL, goarch) == if tb.Some? then c + [tb.value] else c
  {
    assert hrefs[..n + 1][..n] == hrefs[..n];
  }

  /** One more candidate: kept unless its version was seen. */
  lemma FirstPerVersionStep(ts: seq<Tarball>, t: Tarball)
    ensures FirstPerVersion(ts + [t]) ==
      if t.version in VersionSet(FirstPerVersion(ts)) then FirstPerVersion(ts) else FirstPerVersion(ts) + [t]
  {
    assert (ts + [t])[..|ts|] == ts;
  }

  /** The body of tarballsFrom's loop up to parseURL: normalise the link, then parse it. */
  method ParseHref(href: string, sourceURL: string, goarch: string) returns (tb: Option<Tarball>)
    ensures tb == ParseURL(Normalize(href, sourceURL), goarch)
  {
    var s := href;
    if HasPrefix(s, "//") {
      s := "https:" + s;
    }
    if HasPrefix(s, "/dl/") {
      s := sourceURL + s[4..];
    }
    tb := ParseURL(s, goarch);
  }

  /** The `seen` map of tarballsFrom marks exactly the versions kept so far. */
  predicate SeenExactly(seen: map<string, bool>, tbs: seq<Tarball>) {
    seen.Keys == VersionSet(tbs) && forall v :: v in seen ==> seen[v]
  }

  /** Looking a version up in `seen` tells whether it was kept; marking it keeps the map exact. */
  lemma SeenStep(seen: map<string, bool>, tbs: seq<Tarball>, t: Tarball)
    requires SeenExactly(seen, tbs)
    ensures (t.version in seen && seen[t.version]) <==> t.version in VersionSet(tbs)
    ensures SeenExactly(seen[t.version := true], tbs + [t])
  {
    VersionSetAppend(tbs, t);
  }

  /** tarballsFrom after the fetch: keeps the first tarball per version; none at all is an error. */
  method TarballsFrom(sourceURL: string, hrefs: seq<string>, goarch: string)
    returns (r: Result<seq<Tarball>, ListingError>)
    ensures var ts := FirstPerVersion(Candidates(hrefs, sourceURL, goarch));
      r == if ts == [] then Err(NoDownloads(sourceURL)) else Ok(ts)
  {
    var tbs: seq<Tarball> := [];
    var seen: map<string, bool> := map[];
    var n := 0;
    while n < |hrefs|
      invariant 0 <= n <= |hrefs|
      invariant tbs == FirstPerVersion(Candidates(hrefs[..n], sourceURL, goarch))
      invariant SeenExactly(seen, tbs)
    {
      var tb := ParseHref(hrefs[n], sourceURL, goarch);
      CandidatesStep(hrefs, n, sourceURL, goarch);
      ghost var c := Candidates(hrefs[..n], sourceURL, goarch);
      ghost var c' := Candidates(hrefs[..n + 1], sourceURL, goarch);
      if tb.Some? {
        assert c' == c + [tb.value];
        FirstPerVersionStep(c, tb.value);
        SeenStep(seen, tbs, tb.value);
        if !(tb.value.version in seen && seen[tb.value.version]) {
          seen := seen[tb.value.version := true];
          tbs := tbs + [tb.value];
        }
      } else {
        assert c' == c;
      }
      assert tbs == FirstPerVersion(c');
      n := n + 1;
    }
    assert hrefs[..n] == hrefs;
    if |tbs| == 0 {
      return Err(NoDownloads(sourceURL));
    }
    return Ok(tbs);
  }

  // ---------------------------------------------------------------------
  // actionCommand

  datatype ActionError =
    | VersionUnavailable(version: string, at: string)
    | AlreadyInstalled(version: string)
    | QueryError(e: Deb.InstalledError)

  /** Where "not available" points: the source URLs joined with " or ". */
  function SourcesText(): string {
    Join([DownloadPage], " or ")
  }

  /** The index of the first tarball with this version, or -1. */
  function FirstWithVersion(tbs: seq<Tarball>, version: string): (k: int)
    ensures -1 <= k < |tbs|
    ensures k >= 0 ==> tbs[k].version == version && forall m :: 0 <= m < k ==> tbs[m].version != version
    ensures k == -1 ==> forall m :: 0 <= m < |tbs| ==> tbs[m].version != version
  {
    if tbs == [] then -1
    else if tbs[0].version == version then 0
    else
      var k := FirstWithVersion(tbs[1..], version);
      if k == -1 then -1 else k + 1
  }

  /**
   * The tarball actionCommand downloads: the first listed when no version
   * is asked for, else the first with that version; a match whose URL is
   * empty counts as no match, because the code tests the URL it found.
   */
  function Select(tbs: seq<Tarball>, version: string, at: string): (r: Result<Tarball, ActionError>)
    requires version == "" ==> tbs != []
    ensures version == "" ==> r == Ok(tbs[0])
    ensures version != "" && r.Ok? ==> r.value.version == version && r.value in tbs
    ensures version != "" && r.Ok? ==> r.value == tbs[FirstWithVersion(tbs, version)]
    ensures version != "" ==>
      (r.Ok? <==> FirstWithVersion(tbs, version) != -1 && tbs[FirstWithVersion(tbs, version)].url != "")
    ensures r.Err? ==> r == Err(VersionUnavailable(version, at))
  {
    if version == "" then Ok(tbs[0])
    else
      var k := FirstWithVersion(tbs, version);
      if k == -1 || tbs[k].url == "" then Err(VersionUnavailable(version, at))
      else Ok(tbs[k])
  }

  /** With no empty URL listed (parseURL never yields one), a version is found iff it is listed. */
  lemma SelectFindsListed(tbs: seq<Tarball>, version: string, at: string)
    requires version != ""
    requires forall t :: t in tbs ==> t.url != ""
    ensures Select(tbs, version, at).Ok? <==> version in VersionSet(tbs)
  {
    var k := FirstWithVersion(tbs, version);
    if version in VersionSet(tbs) {
      var t :| t in tbs && t.version == version;
      var m :| 0 <= m < |tbs| && tbs[m] == t;
      assert k != -1;
    }
    if k >= 0 {
      assert tbs[k] in tbs;
    }
  }

  /** actionCommand's version search loop. */
  method SelectTarball(tbs: seq<Tarball>, version: string, at: string) returns (r: Result<Tarball, ActionError>)
    requires version == "" ==> tbs != []
    ensures r == Select(tbs, version, at)
  {
    if version == "" {
      return Ok(Tarball(tbs[0].url, tbs[0].version));
    }
    var url := "";
    var n := 0;
    while n < |tbs|
      invariant 0 <= n <= |tbs|
      invariant forall m :: 0 <= m < n ==> tbs[m].version != version
      invariant url == ""
    {
      if version == tbs[n].version {
        url := tbs[n].url;
        break;
      }
      n := n + 1;
    }
    assert n < |tbs| ==> FirstWithVersion(tbs, version) == n;
    assert n == |tbs| ==> FirstWithVersion(tbs, version) == -1;
    if url == "" {
      return Err(VersionUnavailable(version, at));
    }
    return Ok(Tarball(url, version));
  }

  /**
   * actionCommand after the choice: an uninstalled package is fine, a
   * failed query stops it, and installing the version already installed
   * is refused.
   */
  function InstallCheck(version: string, install: bool, installed: Result<string, Deb.InstalledError>): (r: Option<ActionError>)
    ensures r == Some(AlreadyInstalled(version)) <==> install && installed.Ok? && Deb.DebVersion(version) == installed.value
    ensures installed == Err(Deb.NotInstalled) || (installed.Ok? && !install) ==> r == None
    ensures installed.Err? && installed.error.QueryFailed? ==> r == Some(QueryError(installed.error))
    ensures installed.Ok? && !(install && Deb.DebVersion(version) == installed.value) ==> r == None
  {
    match installed
    case Err(e) => if e.NotInstalled? then None else Some(QueryError(e))
    case Ok(v) => if install && Deb.DebVersion(version) == v then Some(AlreadyInstalled(version)) else None
  }

  /** Installing the version dpkg reports as installed is refused. */
  lemma ReinstallRefused(version: string, lookPath: Deb.LookPathOutcome)
    requires lookPath != Deb.NotFound
    ensures var installed := Deb.InstalledDebVersion(lookPath, Deb.Exited("ii " + Deb.DebVersion(version)));
      InstallCheck(version, true, installed) == Some(AlreadyInstalled(version))
  {
    var output := "ii " + Deb.DebVersion(version);
    assert HasPrefix(output, "ii ");
  }

  /** A version dpkg does not report is installed, when its upstream version differs. */
  lemma OtherVersionAccepted(version: string, other: string, lookPath: Deb.LookPathOutcome)
    requires '~' !in version && '~' !in other && version != other
    ensures var installed := Deb.InstalledDebVersion(lookPath, Deb.Exited("ii " + Deb.DebVersion(other)));
      InstallCheck(version, true, installed) == None
  {
    Deb.DebVersionRoundTrip(version);
    Deb.DebVersionRoundTrip(other);
  }

  // ---------------------------------------------------------------------
  // the .deb file name

  /** fmt.Sprintf("go_%s_%s.deb", debVersion(version), debArch()). */
  function DebFileName(version: string, goarch: string): string {
    "go_" + Deb.DebVersion(version) + "_" + Deb.DebArch(goarch) + ".deb"
  }

  /**
   * The file name splits at its underscores into the package name, the
   * Debian version and the architecture, when neither input has one.
   */
  lemma DebFileNameParts(version: string, goarch: string)
    requires '_' !in version && '_' !in goarch
    ensures Split(DebFileName(version, goarch), '_') == ["go", Deb.DebVersion(version), Deb.DebArch(goarch) + ".deb"]
  {
    var v, a := Deb.DebVersion(version), Deb.DebArch(goarch);
    Deb.DebVersionAdds(version, '_');
    var last := a + ".deb";
    assert '_' !in last;
    assert "go_" == "go" + ['_'];
    assert DebFileName(version, goarch) == "go" + ['_'] + v + ['_'] + last;
    SplitThree("go", v, last, '_');
  }
}
