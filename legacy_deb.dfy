// deb.go: the older copy of the package builder. debVersion, isDigit and
// debArch are the same functions as in cmd/godeb/deb.go and are taken from
// module Deb; what differs is modelled here: the dpkg-query check, the
// control template, and translateTarball, which has no skip list, no
// header processing, and never clears `first`.

module LegacyDeb {
  import opened Text
  import opened Archive
  import Deb

  /**
   * installedDebVersion: any error running dpkg-query is reported; otherwise
   * the version after "ii ", or no package when the status is not "ii".
   */
  function InstalledDebVersion(query: Deb.QueryOutcome): (r: Result<string, Deb.InstalledError>)
    ensures r.Ok? <==> query.Exited? && HasPrefix(query.output, "ii ")
    ensures r.Ok? ==> query.output == "ii " + r.value
    ensures query.Failed? ==> r == Err(Deb.QueryFailed(Deb.QueryFailedPrefix + query.err))
    ensures query.Exited? && !HasPrefix(query.output, "ii ") ==> r == Err(Deb.NotInstalled)
  {
    match query
    case Failed(err, _) => Err(Deb.QueryFailed(Deb.QueryFailedPrefix + err))
    case Exited(output) =>
      if !HasPrefix(output, "ii ") then Err(Deb.NotInstalled)
      else
        assert output == "ii " + output[3..];
        Ok(output[3..])
  }

  /** The fixed lines of deb.go's template: no Replaces or Provides, and no conflict with golang-go. */
  const ControlTail: seq<string> := [
    "Conflicts: golang, golang-stable, golang-tip, golang-weekly",
    "Section: devel",
    "Priority: extra",
    "Homepage: http://golang.org",
    "Description: Go language compiler and tools (gc)",
    " The Go programming language is an open source project to make programmers",
    " more productive. Go is expressive, concise, clean, and efficient.",
    " Its concurrency mechanisms make it easy to write programs that get the",
    " most out of multicore and networked machines, while its novel type system",
    " enables flexible and modular program construction. Go compiles quickly to",
    " machine code yet has the convenience of garbage collection and the power",
    " of run-time reflection. It's a fast, statically typed, compiled language",
    " that feels like a dynamically typed, interpreted language.",
    "" ]

  /** fmt.Sprintf(control, debVersion(version), debArch(), instSize/1024) with deb.go's template. */
  function ControlText(version: string, goarch: string, instSize: nat): string {
    Join(Deb.ControlHead(Deb.DebVersion(version), Deb.DebArch(goarch), Decimal(instSize / 1024)) + ControlTail, "\n")
  }

  /** The same four fields as the newer template, read back from deb.go's control text. */
  lemma ControlFields(version: string, goarch: string, instSize: nat)
    requires '\n' !in version && '\n' !in goarch
    ensures var lines := Split(ControlText(version, goarch, instSize), '\n');
      && Field(lines, "Package") == Some("go")
      && Field(lines, "Version") == Some(Deb.DebVersion(version))
      && Field(lines, "Architecture") == Some(Deb.DebArch(goarch))
      && Field(lines, "Installed-Size") == Some(Decimal(instSize / 1024))
  {
    Deb.DebVersionAdds(version, '\n');
    Deb.TemplateFields(Deb.DebVersion(version), Deb.DebArch(goarch), Decimal(instSize / 1024), ControlTail);
  }

  /**
   * The body of deb.go's translateTarball loop for entry k. `first` is
   * never cleared, so the root directory goes before every entry that is
   * neither "go" nor "go/".
   */
  method TranslateEntry(es: seq<Entry>, k: int, first: bool, md5: Digest)
    returns (err: Option<TranslateError>, added: seq<Member>, line: string)
    requires 0 <= k < |es| && first
    ensures err.Some? <==> Fails(Legacy, es[k])
    ensures err.Some? ==> err.value == Failure(Legacy, es[k])
    ensures err.None? ==> added == EntryMembers(Legacy, es, k) && line == EntryManifest(Legacy, md5, es, k)
  {
    var e := es[k];
    var h := e.hdr;
    var name := TrimLeft(h.name, {'.', '/'});
    var root: seq<Member> := [];
    if first && name != "go" && name != "go/" {
      root := [Member(RootDir(h.modTime), "")];
    }
    assert root == (if RootAt(Legacy, es, k) then [Member(RootDir(e.hdr.modTime), "")] else []);
    line := "";
    if !HasPrefix(name, "go/") {
      return Some(UnexpectedPath(name)), [], line;
    }
    name := Prefix + name;
    if h.kind == Directory && !HasSuffix(name, "/") {
      name := name + "/";
    }
    h := h.(name := name);
    assert h == KeptHeader(Legacy, e);
    if h.kind == Directory {
      if e.body.Truncated? {
        return Some(CannotRead), [], line;
      }
      return None, root + [Member(h, "")], line;
    }
    if e.body.Truncated? {
      return Some(CopyFailed), [], line;
    }
    line := Hex(md5(e.body.data)) + "  " + h.name[2..] + "\n";
    return None, root + [Member(h, e.body.data)], line;
  }

  /**
   * translateTarball's loop over the upstream entries: stops at the first
   * entry that fails, with its error, or has gone through all of them.
   */
  method TranslateEntries(es: seq<Entry>, md5: Digest)
    returns (err: Option<TranslateError>, ghost at: int, out: seq<Member>, md5buf: string, instSize: nat)
    ensures err.Some? ==> 0 <= at < |es| && Fails(Legacy, es[at]) && err.value == Failure(Legacy, es[at])
    ensures err.Some? ==> forall j :: 0 <= j < at ==> !Fails(Legacy, es[j])
    ensures err.None? ==> TranslatedUpTo(Legacy, md5, es, |es|, out, md5buf, instSize)
  {
    out, md5buf, instSize, at := [], "", 0, -1;
    var first := true;
    var k := 0;
    while k < |es|
      invariant TranslatedUpTo(Legacy, md5, es, k, out, md5buf, instSize)
    {
      instSize := instSize + es[k].hdr.size;
      var added, line;
      err, added, line := TranslateEntry(es, k, first, md5);
      if err.Some? {
        return err, k, out, md5buf, instSize;
      }
      TranslatedStep(Legacy, md5, es, k, out, md5buf, instSize - es[k].hdr.size, added, line);
      out := out + added;
      md5buf := md5buf + line;
      k := k + 1;
    }
    err := None;
  }

  /** deb.go's translateTarball: the same loop without the skip list, with `first` never cleared. */
  method TranslateTarball(now: int, up: Upstream, md5: Digest) returns (r: Result<Translation, TranslateError>)
    ensures r == Translate(Legacy, now, up, md5)
  {
    if !up.gzipOk {
      return Err(CannotUncompress);
    }
    var err, out, md5buf, instSize;
    ghost var at;
    err, at, out, md5buf, instSize := TranslateEntries(up.entries, md5);
    if err.Some? {
      TranslateStopsAt(Legacy, now, up, md5, at);
      return Err(err.value);
    }
    TranslatedAll(Legacy, now, up, md5, out, md5buf, instSize);
    if up.ending == ReadError {
      return Err(CannotRead);
    }
    return Ok(Translation(out + Symlinks(now), md5buf, instSize));
  }

  /** The .deb deb.go's createDeb writes, or the translation error that stops it. */
  function Package(now: int, version: string, goarch: string, up: Upstream, md5: Digest): Result<seq<ArMember>, TranslateError> {
    match Translate(Legacy, now, up, md5)
    case Err(e) => Err(e)
    case Ok(t) => Ok(DebMembers(now, ControlText(version, goarch, t.instSize), t))
  }

  method CreateDeb(now: int, version: string, goarch: string, up: Upstream, md5: Digest)
    returns (r: Result<seq<ArMember>, TranslateError>)
    ensures r == Package(now, version, goarch, up, md5)
  {
    var t := TranslateTarball(now, up, md5);
    if t.Err? {
      return Err(t.error);
    }
    var control := ControlText(version, goarch, t.value.instSize);
    return Ok(DebMembers(now, control, t.value));
  }

  /**
   * Every entry outside go/ aborts deb.go's translation: there is no skip
   * list, so a build artifact such as gocache/x is an unexpected path.
   */
  lemma NoSkipList(now: int, up: Upstream, md5: Digest, k: int)
    requires up.gzipOk && 0 <= k < |up.entries| && !UnderGo(Clean(up.entries[k]))
    requires forall j :: 0 <= j < k ==> !Fails(Legacy, up.entries[j])
    ensures Translate(Legacy, now, up, md5) == Err(UnexpectedPath(Clean(up.entries[k])))
  {
    OutsideGoAborts(Legacy, now, up, md5, k);
  }

  /**
   * The .deb of deb.go: the same three members as the newer copy, the
   * control file names the version and a size computed from every upstream
   * entry, and md5sums lists exactly the regular files of the data archive.
   */
  lemma PackageConsistent(now: int, version: string, goarch: string, up: Upstream, md5: Digest)
    requires '\n' !in version && '\n' !in goarch
    requires Package(now, version, goarch, up, md5).Ok?
    ensures var ms := Package(now, version, goarch, up, md5).value;
      && |ms| == 3
      && ms[0].name == "debian-binary" && ms[0].payload == Bytes("2.0\n")
      && ms[1].name == "control.tar.gz" && ms[1].payload.TarGz?
      && ms[2].name == "data.tar.gz" && ms[2].payload.TarGz?
      && var control, data := ms[1].payload.members, ms[2].payload.members;
      && |control| == 2 && |data| >= 3
      && control[0].hdr.name == "control" && control[1].hdr.name == "md5sums"
      && Field(Split(control[0].body, '\n'), "Version") == Some(Deb.DebVersion(version))
      && Field(Split(control[0].body, '\n'), "Installed-Size") == Some(Decimal(SizeSum(up.entries) / 1024))
      && control[1].body == ManifestOf(md5, data[..|data| - 3])
      && data[|data| - 3..] == Symlinks(now)
  {
    var t := Translate(Legacy, now, up, md5).value;
    var text := ControlText(version, goarch, t.instSize);
    var ms := Package(now, version, goarch, up, md5).value;
    assert ms == DebMembers(now, text, t);
    DebMembersLayout(now, text, t);
    assert t.instSize == SizeSum(up.entries);
    ControlFields(version, goarch, t.instSize);
    ManifestMatchesData(Legacy, now, up, md5);
    DataLayout(Legacy, now, up, md5);
    assert ms[1].payload.members[0].body == text;
    assert ms[1].payload.members[1].body == t.md5sums;
    assert ms[2].payload.members == t.data;
  }
}
