// main.go: the older listing code. parseURL and clearScripts are the same
// as in cmd/godeb/main.go and are taken from module Listing; what differs
// is modelled here: every link gets "https:" in front, there is no
// de-duplication, the list is sorted by the version comparator, and the
// fromtarball command checks its arguments.

module LegacyListing {
  import opened Text
  import opened TarballSort
  import Listing

  /** The one page main.go lists downloads from. */
  const DownloadsURL := "https://code.google.com/p/go/downloads/list?can=1&q=linux"

  /** A listed tarball: an https URL and a version that starts with a digit 1-9. */
  predicate Listed(t: Tarball) {
    t.version != [] && '1' <= t.version[0] <= '9' && HasPrefix(t.url, "https:")
  }

  /** The tarballs the Download links name, in link order: each href is prefixed with "https:". */
  function Links(hrefs: seq<string>, goarch: string): (ts: seq<Tarball>)
    ensures forall t :: t in ts ==> Listed(t)
  {
    if hrefs == [] then []
    else
      var prev := Links(hrefs[..|hrefs| - 1], goarch);
      var url := "https:" + hrefs[|hrefs| - 1];
      var tb := Listing.ParseURL(url, goarch);
      if tb.None? then prev
      else
        assert url[..6] == "https:";
        assert Listed(tb.value);
        prev + [tb.value]
  }

  /** A scheme-relative Download link to a tarball names that tarball's version. */
  lemma DownloadLinkParses(host: string, version: string, goarch: string)
    requires version != [] && '1' <= version[0] <= '9' && '/' !in version && '/' !in goarch
    ensures var href := host + "/" + Listing.FileName(version, goarch);
      Links([href], goarch) == [Tarball("https:" + href, version)]
  {
    var href := host + "/" + Listing.FileName(version, goarch);
    assert "https:" + href == ("https:" + host) + "/" + Listing.FileName(version, goarch);
    Listing.ParseURLRoundTrip("https:" + host, version, goarch);
    assert [href][..0] == [];
  }

  /** One more link: its tarball, if it names one, is appended. */
  lemma LinksStep(hrefs: seq<string>, n: int, goarch: string)
    requires 0 <= n < |hrefs|
    ensures var tb := Listing.ParseURL("https:" + hrefs[n], goarch);
      Links(hrefs[..n + 1], goarch) == Links(hrefs[..n], goarch) + (if tb.Some? then [tb.value] else [])
  {
    assert hrefs[..n + 1][..n] == hrefs[..n];
  }

  /**
   * tarballs after the fetch: every tarball the links name, sorted by the
   * version comparator (newest first); an empty list is an error.
   */
  method Tarballs(hrefs: seq<string>, goarch: string) returns (r: Result<seq<Tarball>, Listing.ListingError>)
    ensures r.Err? <==> Links(hrefs, goarch) == []
    ensures r.Err? ==> r.error == Listing.NoDownloads(DownloadsURL)
    ensures r.Ok? ==> multiset(r.value) == multiset(Links(hrefs, goarch))
    ensures r.Ok? && Asymmetric(Links(hrefs, goarch)) ==> Sorted(r.value)
  {
    var tbs: seq<Tarball> := [];
    var n := 0;
    while n < |hrefs|
      invariant 0 <= n <= |hrefs|
      invariant tbs == Links(hrefs[..n], goarch)
    {
      var tb := Listing.ParseURL("https:" + hrefs[n], goarch);
      LinksStep(hrefs, n, goarch);
      if tb.Some? {
        tbs := tbs + [tb.value];
      }
      n := n + 1;
    }
    assert hrefs[..n] == hrefs;
    var a := new Tarball[|tbs|](k requires 0 <= k < |tbs| => tbs[k]);
    assert a[..] == tbs;
    SortTarballs(a);
    if a.Length == 0 {
      return Err(Listing.NoDownloads(DownloadsURL));
    }
    return Ok(a[..]);
  }

  // ---------------------------------------------------------------------
  // fromtarball

  datatype ArgsError =
    | WrongArgCount     // "wrong number of arguments to fromtarball command"
    | VersionMismatch   // "Tarball does not appear to correspond to given version"

  /**
   * run's checks for `godeb fromtarball <tarball> <version>`: exactly four
   * arguments, and the tarball name contains the version followed by a dot.
   */
  function FromTarballArgs(args: seq<string>): (r: Result<(string, string), ArgsError>)
    ensures r.Ok? <==> |args| == 4 && Contains(args[2], args[3] + ".")
    ensures r.Ok? ==> r.value == (args[2], args[3])
    ensures |args| != 4 ==> r == Err(WrongArgCount)
    ensures |args| == 4 && !Contains(args[2], args[3] + ".") ==> r == Err(VersionMismatch)
  {
    if |args| != 4 then Err(WrongArgCount)
    else if !Contains(args[2], args[3] + ".") then Err(VersionMismatch)
    else Ok((args[2], args[3]))
  }

  /** The name an upstream tarball is downloaded under passes the check for its own version. */
  lemma TarballNameAccepted(prog: string, dir: string, version: string, goarch: string)
    ensures var args := [prog, "fromtarball", dir + Listing.FileName(version, goarch), version];
      FromTarballArgs(args) == Ok((dir + Listing.FileName(version, goarch), version))
  {
    var name := dir + Listing.FileName(version, goarch);
    VersionDotOccurs(dir, version, Listing.Suffix(goarch));
    assert name == dir + "go" + version + Listing.Suffix(goarch);
  }

  /**
   * The check is a substring test, so a version also passes for the tarball
   * of any version that extends it after a dot: "1.2" for go1.2.1.
   */
  lemma ExtendedVersionAccepted(prog: string, dir: string, version: string, more: string, goarch: string)
    ensures var name := dir + Listing.FileName(version + "." + more, goarch);
      FromTarballArgs([prog, "fromtarball", name, version]).Ok?
  {
    var rest := more + Listing.Suffix(goarch);
    VersionDotOccurs(dir, version, "." + rest);
    assert dir + Listing.FileName(version + "." + more, goarch) == dir + "go" + version + ("." + rest);
  }

  /** In dir + "go" + version + tail, with tail starting with a dot, version + "." occurs. */
  lemma VersionDotOccurs(dir: string, version: string, tail: string)
    requires tail != [] && tail[0] == '.'
    ensures Contains(dir + "go" + version + tail, version + ".")
  {
    var s := dir + "go" + version + tail;
    var p := |dir| + 2;
    assert s[p..p + |version| + 1] == version + ".";
    assert OccursAt(s, version + ".", p);
  }
}
