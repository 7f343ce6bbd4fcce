// cmd/godeb/deb.go: the package metadata helpers, the translation of the
// upstream tarball into data.tar.gz and md5sums, and the member order of
// the .deb file.
//
// GOARCH (build.Default.GOARCH), the clock, MD5, the environment and the
// outcome of running dpkg-query are parameters.

module Deb {
  import opened Text
  import opened Archive

  /** debArch: Debian's name for the GOARCH the binary was built for. */
  function DebArch(goarch: string): (arch: string)
    ensures goarch == "386" ==> arch == "i386"
    ensures goarch != "386" ==> arch == goarch
  {
    if goarch == "386" then "i386" else goarch
  }

  /** isDigit: position i of the version holds an ASCII digit; false outside the string. */
  predicate IsDigit(version: string, i: int)
    ensures IsDigit(version, i) ==> 0 <= i < |version|
  {
    0 <= i < |version| && IsAsciiDigit(version[i])
  }

  /**
   * debVersion's test for a tag s: the first occurrence of s, as
   * strings.Index finds it, has a digit right before and right after it.
   */
  predicate Flanked(version: string, s: string)
    ensures Flanked(version, s) ==> 1 <= Index(version, s) && OccursAt(version, s, Index(version, s))
  {
    var i := Index(version, s);
    IsDigit(version, i - 1) && IsDigit(version, i + |s|)
  }

  /**
   * The loop of debVersion over the tags: a '~' goes before the first
   * occurrence of the first tag that has a digit on both sides.
   */
  function InsertTilde(version: string, tags: seq<string>): string {
    if tags == [] then version
    else
      var s := tags[0];
      if Flanked(version, s) then
        var i := Index(version, s);
        version[..i] + "~" + version[i..]
      else InsertTilde(version, tags[1..])
  }

  /**
   * debVersion: the Debian version of an upstream Go version. The '~' makes
   * dpkg sort "1.2~rc3" before "1.2".
   */
  function DebVersion(version: string): string {
    InsertTilde(version, ["rc", "beta"]) + "-godeb1"
  }

  /** None of the first n tags is flanked: the loop has not broken before tag n. */
  predicate NoneFlankedBefore(version: string, tags: seq<string>, n: int)
    requires 0 <= n <= |tags|
  {
    forall m :: 0 <= m < n ==> !Flanked(version, tags[m])
  }

  /**
   * The tag loop with its break, reaching tag n: past the last tag the
   * version is left as it is; at a flanked tag the '~' goes right before
   * that tag's first occurrence.
   */
  lemma {:induction false} InsertTildeShape(version: string, tags: seq<string>, n: int)
    requires 0 <= n <= |tags| && NoneFlankedBefore(version, tags, n)
    ensures n == |tags| ==> InsertTilde(version, tags) == version
    ensures n < |tags| && Flanked(version, tags[n]) ==>
      var i := Index(version, tags[n]); InsertTilde(version, tags) == version[..i] + "~" + version[i..]
  {
    if n > 0 {
      var rest := tags[1..];
      assert !Flanked(version, tags[0]);
      assert forall m :: 0 <= m < n - 1 ==> rest[m] == tags[m + 1];
      InsertTildeShape(version, rest, n - 1);
      assert n < |tags| ==> rest[n - 1] == tags[n];
    }
  }

  /**
   * Where debVersion puts the '~' (cmd/godeb/deb.go:82-91): before the first
   * "rc" if that one sits between two digits, else before the first "beta"
   * if that one does, else nowhere; "-godeb1" always follows.
   */
  lemma DebVersionPlacement(version: string)
    ensures Flanked(version, "rc") ==>
      var i := Index(version, "rc"); DebVersion(version) == version[..i] + "~" + version[i..] + "-godeb1"
    ensures !Flanked(version, "rc") && Flanked(version, "beta") ==>
      var i := Index(version, "beta"); DebVersion(version) == version[..i] + "~" + version[i..] + "-godeb1"
    ensures !Flanked(version, "rc") && !Flanked(version, "beta") ==> DebVersion(version) == version + "-godeb1"
  {
    var tags := ["rc", "beta"];
    InsertTildeShape(version, tags, 0);
    if !Flanked(version, "rc") {
      InsertTildeShape(version, tags, 1);
      if !Flanked(version, "beta") {
        InsertTildeShape(version, tags, 2);
      }
    }
  }

  /** debVersion only appends "-godeb1" exactly when neither tag's first occurrence is flanked by digits. */
  lemma DebVersionPlain(version: string)
    ensures DebVersion(version) == version + "-godeb1" <==> !Flanked(version, "rc") && !Flanked(version, "beta")
  {
    DebVersionPlacement(version);
  }

  /** Drops the first '~'. */
  function RemoveTilde(s: string): (r: string)
    ensures '~' !in s ==> r == s
  {
    var i := IndexByte(s, '~');
    if i < 0 then s else s[..i] + s[i + 1..]
  }

  /** Recovers the upstream version from a Debian version that debVersion made. */
  function UpstreamVersion(deb: string): Option<string> {
    if HasSuffix(deb, "-godeb1") then Some(RemoveTilde(deb[..|deb| - 7])) else None
  }

  lemma {:induction false} RemoveInsertedTilde(version: string, tags: seq<string>)
    requires '~' !in version
    ensures RemoveTilde(InsertTilde(version, tags)) == version
  {
    if tags != [] {
      var s := tags[0];
      var i := Index(version, s);
      if Flanked(version, s) {
        var r := version[..i] + "~" + version[i..];
        assert r[i] == '~';
        assert forall p :: 0 <= p < i ==> r[p] == version[p];
        assert IndexByte(r, '~') == i;
        assert r[..i] + r[i + 1..] == version;
      } else {
        RemoveInsertedTilde(version, tags[1..]);
      }
    }
  }

  /** Round trip: a version without '~' is recovered from its Debian version. */
  lemma DebVersionRoundTrip(version: string)
    requires '~' !in version
    ensures UpstreamVersion(DebVersion(version)) == Some(version)
  {
    var t := InsertTilde(version, ["rc", "beta"]);
    RemoveInsertedTilde(version, ["rc", "beta"]);
    assert DebVersion(version)[..|DebVersion(version)| - 7] == t;
  }

  /** "1.2rc3" becomes "1.2~rc3-godeb1". */
  lemma DebVersionRc(v: string)
    requires v == "1.2rc3"
    ensures DebVersion(v) == "1.2~rc3-godeb1"
  {
    assert OccursAt(v, "rc", 3);
    forall p | 0 <= p < 3
      ensures !OccursAt(v, "rc", p)
    {
      assert v[p..p + 2][0] == v[p];
    }
    assert Index(v, "rc") == 3;
    assert InsertTilde(v, ["rc", "beta"]) == v[..3] + "~" + v[3..];
    assert v[..3] + "~" + v[3..] == "1.2~rc3";
  }

  /** "1.1beta2" becomes "1.1~beta2-godeb1": "rc" does not occur, "beta" does. */
  lemma DebVersionBeta(v: string)
    requires v == "1.1beta2"
    ensures DebVersion(v) == "1.1~beta2-godeb1"
  {
    forall p | 0 <= p && p + 2 <= |v|
      ensures !OccursAt(v, "rc", p)
    {
      assert v[p..p + 2][0] == v[p];
    }
    assert Index(v, "rc") == -1;
    assert OccursAt(v, "beta", 3);
    forall p | 0 <= p < 3
      ensures !OccursAt(v, "beta", p)
    {
      assert v[p..p + 4][0] == v[p];
    }
    assert Index(v, "beta") == 3;
    assert ["rc", "beta"][1..] == ["beta"];
    assert InsertTilde(v, ["rc", "beta"]) == InsertTilde(v, ["beta"]);
    assert InsertTilde(v, ["beta"]) == v[..3] + "~" + v[3..];
    assert v[..3] + "~" + v[3..] == "1.1~beta2";
  }

  // ---------------------------------------------------------------------
  // setEnv and the dpkg-query check

  /** The first entry that starts with `prefix`, or -1. */
  function KeyIndex(env: seq<string>, prefix: string): (i: int)
    ensures -1 <= i < |env|
    ensures i >= 0 ==> HasPrefix(env[i], prefix)
    ensures forall j :: 0 <= j < |env| && (i == -1 || j < i) ==> !HasPrefix(env[j], prefix)
  {
    if env == [] then -1
    else if HasPrefix(env[0], prefix) then 0
    else
      var i := KeyIndex(env[1..], prefix);
      if i == -1 then -1 else i + 1
  }

  /** The environment setEnv leaves: the first `key=` entry overwritten, or `key=value` appended. */
  function SetEnvResult(env: seq<string>, key: string, value: string): seq<string> {
    var i := KeyIndex(env, key + "=");
    if i >= 0 then env[i := key + "=" + value] else env + [key + "=" + value]
  }

  /**
   * setEnv: overwrites the first entry that starts with `key=` in place and
   * hands back the same array, or appends `key=value` to a copy.
   */
  method SetEnv(env: array<string>, key: string, value: string) returns (r: array<string>)
    modifies env
    ensures r[..] == SetEnvResult(old(env[..]), key, value)
    ensures KeyIndex(old(env[..]), key + "=") >= 0 ==> r == env
    ensures KeyIndex(old(env[..]), key + "=") < 0 ==> fresh(r) && env[..] == old(env[..])
  {
    var k := key + "=";
    for i := 0 to env.Length
      invariant env[..] == old(env[..])
      invariant forall j :: 0 <= j < i ==> !HasPrefix(env[j], k)
    {
      if HasPrefix(env[i], k) {
        env[i] := k + value;
        return env;
      }
    }
    r := new string[env.Length + 1];
    forall j | 0 <= j < env.Length {
      r[j] := env[j];
    }
    r[env.Length] := k + value;
  }

  /** The value the first `key=` entry gives `key`. */
  function Lookup(env: seq<string>, key: string): Option<string> {
    var i := KeyIndex(env, key + "=");
    if i < 0 then None else Some(env[i][|key| + 1..])
  }

  /** setEnv's result shows `key` with the value just set. */
  lemma SetThenLookup(env: seq<string>, key: string, value: string)
    ensures Lookup(SetEnvResult(env, key, value), key) == Some(value)
  {
    var e := SetEnvResult(env, key, value);
    var i := KeyIndex(env, key + "=");
    var line := key + "=" + value;
    assert HasPrefix(line, key + "=") && line[|key| + 1..] == value;
    if i >= 0 {
      assert forall j :: 0 <= j < i ==> e[j] == env[j];
      assert e[i] == line;
      assert KeyIndex(e, key + "=") == i;
    } else {
      assert forall j :: 0 <= j < |env| ==> e[j] == env[j];
      assert e[|env|] == line;
      assert KeyIndex(e, key + "=") == |env|;
    }
  }

  /** No string starts with both `key=` and `other=` when the keys differ and hold no '='. */
  lemma DistinctKeys(s: string, key: string, other: string)
    requires '=' !in key && '=' !in other && key != other
    requires HasPrefix(s, key + "=")
    ensures !HasPrefix(s, other + "=")
  {
    assert s[|key|] == '=';
    if |key| < |other| {
      assert other[|key|] != '=' && (other + "=")[|key|] == other[|key|];
    } else if |other| < |key| {
      assert s[|other|] == key[|other|] != '=';
    } else {
      assert s[..|key|] == key != other;
    }
  }

  /**
   * Setting one key leaves what every other key looks up unchanged
   * (cmd/godeb/deb.go:129-138: only the first `key=` entry is touched).
   */
  lemma SetKeepsOthers(env: seq<string>, key: string, value: string, other: string)
    requires '=' !in key && '=' !in other && key != other
    ensures Lookup(SetEnvResult(env, key, value), other) == Lookup(env, other)
  {
    var e := SetEnvResult(env, key, value);
    var i := KeyIndex(env, key + "=");
    var line := key + "=" + value;
    DistinctKeys(line, key, other);
    if i >= 0 {
      DistinctKeys(env[i], key, other);
      assert forall j :: 0 <= j < |env| && j != i ==> e[j] == env[j];
      assert KeyIndex(e, other + "=") == KeyIndex(env, other + "=");
    } else {
      assert forall j :: 0 <= j < |env| ==> e[j] == env[j];
      assert KeyIndex(e, other + "=") == KeyIndex(env, other + "=");
    }
  }

  /** The environment installedDebVersion gives dpkg-query. */
  function QueryEnvironment(env: seq<string>): seq<string> {
    SetEnvResult(SetEnvResult(SetEnvResult(env, "LC_ALL", "C"), "LANG", "C"), "LANGUAGE", "C")
  }

  /** dpkg-query runs in the C locale, whatever the caller's environment held. */
  lemma QueryEnvironmentIsC(env: seq<string>)
    ensures var e := QueryEnvironment(env);
      Lookup(e, "LC_ALL") == Some("C") && Lookup(e, "LANG") == Some("C") && Lookup(e, "LANGUAGE") == Some("C")
  {
    var e1 := SetEnvResult(env, "LC_ALL", "C");
    var e2 := SetEnvResult(e1, "LANG", "C");
    SetThenLookup(env, "LC_ALL", "C");
    SetThenLookup(e1, "LANG", "C");
    SetThenLookup(e2, "LANGUAGE", "C");
    SetKeepsOthers(e1, "LANG", "C", "LC_ALL");
    SetKeepsOthers(e2, "LANGUAGE", "C", "LC_ALL");
    SetKeepsOthers(e2, "LANGUAGE", "C", "LANG");
  }

  /** What exec.LookPath("dpkg-query") reports. */
  datatype LookPathOutcome = Found | NotFound | LookupFailed

  /** What running dpkg-query gave: its output, or the error and the combined output. */
  datatype QueryOutcome = Exited(output: string) | Failed(err: string, output: string)

  datatype InstalledError =
    | NotInstalled           // errNotInstalled
    | QueryFailed(msg: string)

  const QueryFailedPrefix := "while querying for installed go package version: "

  /**
   * installedDebVersion when dpkg-query fails: no package if its trimmed,
   * lower-cased output says "no packages found", otherwise the error with
   * the trimmed output appended when there is any.
   */
  function FailedQuery(err: string, output: string): (r: Result<string, InstalledError>)
    ensures r.Err?
    ensures r == Err(NotInstalled) <==> Contains(ToLower(TrimSpace(output)), "no packages found")
    ensures !Contains(ToLower(TrimSpace(output)), "no packages found") ==>
      var out := TrimSpace(output);
      r == Err(QueryFailed(QueryFailedPrefix + err + if |out| > 0 then ": " + out else ""))
  {
    var out := TrimSpace(output);
    if Contains(ToLower(out), "no packages found") then Err(NotInstalled)
    else
      var msg := if |out| > 0 then err + ": " + out else err;
      assert QueryFailedPrefix + msg == QueryFailedPrefix + err + if |out| > 0 then ": " + out else "";
      Err(QueryFailed(QueryFailedPrefix + msg))
  }

  /**
   * installedDebVersion: the installed package's version after "ii ", no
   * package when dpkg-query is missing, reports none, or the status is not
   * "ii", and otherwise the error with the trimmed output appended.
   */
  function InstalledDebVersion(lookPath: LookPathOutcome, query: QueryOutcome): (r: Result<string, InstalledError>)
    ensures r.Ok? <==> lookPath != NotFound && query.Exited? && HasPrefix(query.output, "ii ")
    ensures r.Ok? ==> query.output == "ii " + r.value
    ensures lookPath == NotFound ==> r == Err(NotInstalled)
    ensures query.Failed? && r.Err? && r.error.QueryFailed? ==> HasPrefix(r.error.msg, QueryFailedPrefix + query.err)
    ensures lookPath != NotFound && query.Exited? && !HasPrefix(query.output, "ii ") ==> r == Err(NotInstalled)
    ensures lookPath != NotFound && query.Failed? ==>
      (r == Err(NotInstalled) <==> Contains(ToLower(TrimSpace(query.output)), "no packages found"))
    ensures lookPath != NotFound && query.Failed? && !Contains(ToLower(TrimSpace(query.output)), "no packages found") ==>
      var out := TrimSpace(query.output);
      r == Err(QueryFailed(QueryFailedPrefix + query.err + if |out| > 0 then ": " + out else ""))
  {
    if lookPath == NotFound then Err(NotInstalled)
    else match query
      case Failed(err, output) => FailedQuery(err, output)
      case Exited(output) =>
        if !HasPrefix(output, "ii ") then Err(NotInstalled)
        else
          assert output == "ii " + output[3..];
          Ok(output[3..])
  }

  lemma LowerNoPackagesFound(s: string, t: string)
    requires s == "No packages found" && t == "no packages found"
    ensures ToLower(s) == t
  {
    assert forall k :: 0 <= k < |s| ==> LowerAscii(s[k]) == t[k];
  }

  /** dpkg-query's "No packages found" message survives the trimming and lower-casing. */
  lemma NoPackagesSeen(pre: string, mid: string, post: string)
    requires mid == "No packages found"
    ensures Contains(ToLower(TrimSpace(pre + mid + post)), "no packages found")
  {
    var out := TrimSpace(pre + mid + post);
    TrimSpaceKeepsInner(pre, mid, post);
    var k :| 0 <= k && k + 17 <= |out| && OccursAt(out, mid, k);
    OccursAtLower(out, mid, k);
    LowerNoPackagesFound(mid, "no packages found");
  }

  /** A failed query whose output says "No packages found" means go is not installed. */
  lemma NoPackagesFound(lookPath: LookPathOutcome, err: string, pre: string, post: string)
    ensures InstalledDebVersion(lookPath, Failed(err, pre + "No packages found" + post)) == Err(NotInstalled)
  {
    NoPackagesSeen(pre, "No packages found", post);
  }

  // ---------------------------------------------------------------------
  // The control file

  const MaintainerName := "Gustavo Niemeyer <niemeyer@canonical.com>"

  /** The lines of the `control` template up to the last filled-in field. */
  function ControlHead(debVersion: string, arch: string, size: string): seq<string> {
    [ "",
      "Package: go",
      "Version: " + debVersion,
      "Architecture: " + arch,
      "Maintainer: " + MaintainerName,
      "Installed-Size: " + size ]
  }

  /** The rest of the template: fixed text, ending in an empty line (the final newline). */
  const ControlTail: seq<string> := [
    "Conflicts: golang-go, golang, golang-stable, golang-tip, golang-weekly",
    "Replaces: golang-go",
    "Provides: golang-go",
    "Section: devel",
    "Priority: extra",
    "Homepage: http://golang.org",
    "Description: Go language compiler and tools (gc)",
    " The Go programming language is an open source project to make programmers",
    " more productive. Go is expressive, concise, clean, and efficient.",
    " Its concurrency mechanisms make it easy to write programs that get the",
    " most out of multicore and networked machines, while its novel type system",
    " enables flexible and modular program construction. Go compiles quickly to",
    " machine code yet has the convenience of garbage collection and the power",
    " of run-time reflection. It's a fast, statically typed, compiled language",
    " that feels like a dynamically typed, interpreted language.",
    "" ]

  /** fmt.Sprintf(control, debVersion(version), debArch(), instSize/1024) */
  function ControlText(version: string, goarch: string, instSize: nat): string {
    Join(ControlHead(DebVersion(version), DebArch(goarch), Decimal(instSize / 1024)) + ControlTail, "\n")
  }

  /** debVersion adds only '~' and "-godeb1" to the version. */
  lemma DebVersionAdds(version: string, c: char)
    requires c !in version && c != '~' && c !in "-godeb1"
    ensures c !in DebVersion(version)
  {
    DebVersionPlacement(version);
    var i := if Flanked(version, "rc") then Index(version, "rc") else Index(version, "beta");
    if Flanked(version, "rc") || Flanked(version, "beta") {
      assert c !in version[..i] && c !in version[i..];
    }
  }

  lemma ControlHeadSingle(debVersion: string, arch: string, size: string)
    requires '\n' !in debVersion && '\n' !in arch && '\n' !in size
    ensures forall k :: 0 <= k < 6 ==> '\n' !in ControlHead(debVersion, arch, size)[k]
  {
    assert '\n' !in MaintainerName;
  }

  /** The filled-in fields of the template, read back. */
  lemma HeadFields(debVersion: string, arch: string, size: string)
    ensures var head := ControlHead(debVersion, arch, size);
      && Field(head, "Package") == Some("go")
      && Field(head, "Version") == Some(debVersion)
      && Field(head, "Architecture") == Some(arch)
      && Field(head, "Installed-Size") == Some(size)
  {
    var head := ControlHead(debVersion, arch, size);
    assert head[1][0] == 'P' && head[2][0] == 'V' && head[3][0] == 'A' && head[4][0] == 'M';
    assert head[1] == "Package" + ": " + "go";
    FieldAt(head, "Package", 1, "go");
    assert head[2] == "Version" + ": " + debVersion;
    FieldAt(head, "Version", 2, debVersion);
    assert head[3] == "Architecture" + ": " + arch;
    FieldAt(head, "Architecture", 3, arch);
    assert head[5] == "Installed-Size" + ": " + size;
    FieldAt(head, "Installed-Size", 5, size);
  }

  /** Whatever fixed lines follow, the filled-in fields are read back from the text. */
  lemma TemplateFields(debVersion: string, arch: string, size: string, tail: seq<string>)
    requires '\n' !in debVersion && '\n' !in arch && '\n' !in size && |tail| >= 1
    ensures var lines := Split(Join(ControlHead(debVersion, arch, size) + tail, "\n"), '\n');
      && Field(lines, "Package") == Some("go")
      && Field(lines, "Version") == Some(debVersion)
      && Field(lines, "Architecture") == Some(arch)
      && Field(lines, "Installed-Size") == Some(size)
  {
    var head := ControlHead(debVersion, arch, size);
    ControlHeadSingle(debVersion, arch, size);
    JoinAppend(head, tail, "\n");
    SplitAfter(head, Join(tail, "\n"), '\n');
    var rest := Split(Join(tail, "\n"), '\n');
    HeadFields(debVersion, arch, size);
    FieldInFront(head, rest, "Package");
    FieldInFront(head, rest, "Version");
    FieldInFront(head, rest, "Architecture");
    FieldInFront(head, rest, "Installed-Size");
  }

  /**
   * The control file dpkg reads names the package "go", the Debian version,
   * the Debian architecture, and Installed-Size in KiB: the summed entry
   * sizes divided by 1024, rounded down.
   */
  lemma ControlFields(version: string, goarch: string, instSize: nat)
    requires '\n' !in version && '\n' !in goarch
    ensures var lines := Split(ControlText(version, goarch, instSize), '\n');
      && Field(lines, "Package") == Some("go")
      && Field(lines, "Version") == Some(DebVersion(version))
      && Field(lines, "Architecture") == Some(DebArch(goarch))
      && Field(lines, "Installed-Size") == Some(Decimal(instSize / 1024))
  {
    DebVersionAdds(version, '\n');
    TemplateFields(DebVersion(version), DebArch(goarch), Decimal(instSize / 1024), ControlTail);
  }

  // ---------------------------------------------------------------------
  // translateTarball

  /**
   * The body of translateTarball's loop for entry k: what it appends to the
   * data archive and to md5sums, the new value of `first`, or the error
   * that stops the translation.
   */
  method TranslateEntry(es: seq<Entry>, k: int, first: bool, md5: Digest)
    returns (err: Option<TranslateError>, added: seq<Member>, line: string, first': bool)
    requires 0 <= k < |es|
    requires first <==> NoRootBefore(es, k)
    ensures err.Some? <==> Fails(Current, es[k])
    ensures err.Some? ==> err.value == Failure(Current, es[k])
    ensures err.None? ==> added == EntryMembers(Current, es, k) && line == EntryManifest(Current, md5, es, k)
    ensures first' <==> NoRootBefore(es, k + 1)
  {
    var e := es[k];
    var h := DropPax(e.hdr);
    var name := TrimLeft(h.name, {'.', '/'});
    var root: seq<Member> := [];
    first' := first;
    if first && name != "go" && name != "go/" {
      first' := false;
      root := [Member(RootDir(h.modTime), "")];
    }
    assert root == (if RootAt(Current, es, k) then [Member(RootDir(e.hdr.modTime), "")] else []);
    line := "";
    if HasPrefix(name, "gocache/") || HasPrefix(name, "tmp/") {
      if e.body.Truncated? {
        return Some(CannotRead), [], line, first';
      }
      return None, root, line, first';
    }
    if !HasPrefix(name, "go/") {
      return Some(UnexpectedPath(name)), [], line, first';
    }
    name := Prefix + name;
    if h.kind == Directory && !HasSuffix(name, "/") {
      name := name + "/";
    }
    h := h.(name := name);
    assert h == KeptHeader(Current, e);
    if h.kind == Directory {
      if e.body.Truncated? {
        return Some(CannotRead), [], line, first';
      }
      return None, root + [Member(h, "")], line, first';
    }
    if e.body.Truncated? {
      return Some(CopyFailed), [], line, first';
    }
    line := Hex(md5(e.body.data)) + "  " + h.name[2..] + "\n";
    return None, root + [Member(h, e.body.data)], line, first';
  }

  /** translateTarball's loop stopped at entry k with error e: k is the first entry that fails, and e is its error. */
  predicate StopsAt(es: seq<Entry>, k: int, e: TranslateError) {
    && 0 <= k < |es| && Fails(Current, es[k]) && e == Failure(Current, es[k])
    && forall j :: 0 <= j < k ==> !Fails(Current, es[j])
  }

  /** The state of translateTarball's loop before entry k, `first` included. */
  predicate LoopState(es: seq<Entry>, md5: Digest, k: int, first: bool, out: seq<Member>, md5buf: string, instSize: int) {
    TranslatedUpTo(Current, md5, es, k, out, md5buf, instSize) && (first <==> NoRootBefore(es, k))
  }

  /** Before the first entry nothing is written and no entry needed the root. */
  lemma LoopStart(es: seq<Entry>, md5: Digest)
    ensures LoopState(es, md5, 0, true, [], "", 0)
  {
    assert es[..0] == [];
  }

  /**
   * One turn of translateTarball's loop: counts entry k's size and either
   * stops with its error or appends what it contributes.
   */
  method TranslateNext(es: seq<Entry>, k: int, md5: Digest, first: bool, out: seq<Member>, md5buf: string, instSize: nat)
    returns (err: Option<TranslateError>, first': bool, out': seq<Member>, md5buf': string, instSize': nat)
    requires 0 <= k < |es| && LoopState(es, md5, k, first, out, md5buf, instSize)
    ensures err.Some? ==> StopsAt(es, k, err.value)
    ensures err.None? ==> LoopState(es, md5, k + 1, first', out', md5buf', instSize')
  {
    var added, line;
    err, added, line, first' := TranslateEntry(es, k, first, md5);
    out', md5buf', instSize' := out, md5buf, instSize + es[k].hdr.size;
    if err.None? {
      TranslatedStep(Current, md5, es, k, out, md5buf, instSize, added, line);
      out', md5buf' := out + added, md5buf + line;
    }
  }

  /**
   * translateTarball's loop over the upstream entries: stops at the first
   * entry that fails, with its error, or has gone through all of them.
   */
  method TranslateEntries(es: seq<Entry>, md5: Digest)
    returns (err: Option<TranslateError>, ghost at: int, out: seq<Member>, md5buf: string, instSize: nat)
    ensures err.Some? ==> StopsAt(es, at, err.value)
    ensures err.None? ==> TranslatedUpTo(Current, md5, es, |es|, out, md5buf, instSize)
  {
    out, md5buf, instSize, at := [], "", 0, -1;
    var first := true;
    var k := 0;
    LoopStart(es, md5);
    while k < |es|
      invariant LoopState(es, md5, k, first, out, md5buf, instSize)
    {
      var out', md5buf', instSize';
      err, first, out', md5buf', instSize' := TranslateNext(es, k, md5, first, out, md5buf, instSize);
      if err.Some? {
        return err, k, out, md5buf, instSize';
      }
      out, md5buf, instSize := out', md5buf', instSize';
      k := k + 1;
    }
    err := None;
  }

  /**
   * translateTarball: reads the upstream entries one by one, counting their
   * sizes, writing the root directory before the first entry that is not
   * go/ itself, dropping build artifacts, moving the rest below
   * ./usr/local/ and recording one md5sums line per copied body; then adds
   * the three links.
   */
  method TranslateTarball(now: int, up: Upstream, md5: Digest) returns (r: Result<Translation, TranslateError>)
    ensures r == Translate(Current, now, up, md5)
  {
    if !up.gzipOk {
      return Err(CannotUncompress);
    }
    var err, out, md5buf, instSize;
    ghost var at;
    err, at, out, md5buf, instSize := TranslateEntries(up.entries, md5);
    if err.Some? {
      TranslateStopsAt(Current, now, up, md5, at);
      return Err(err.value);
    }
    TranslatedAll(Current, now, up, md5, out, md5buf, instSize);
    if up.ending == ReadError {
      return Err(CannotRead);
    }
    return Ok(Translation(out + Symlinks(now), md5buf, instSize));
  }

  // ---------------------------------------------------------------------
  // createDeb

  /** The .deb createDeb writes, or the translation error that stops it. */
  function Package(now: int, version: string, goarch: string, up: Upstream, md5: Digest): Result<seq<ArMember>, TranslateError> {
    match Translate(Current, now, up, md5)
    case Err(e) => Err(e)
    case Ok(t) => Ok(DebMembers(now, ControlText(version, goarch, t.instSize), t))
  }

  /** createDeb: translates the tarball, then writes debian-binary, control.tar.gz and data.tar.gz. */
  method CreateDeb(now: int, version: string, goarch: string, up: Upstream, md5: Digest)
    returns (r: Result<seq<ArMember>, TranslateError>)
    ensures r == Package(now, version, goarch, up, md5)
  {
    var t := TranslateTarball(now, up, md5);
    if t.Err? {
      return Err(t.error);
    }
    var control := ControlText(version, goarch, t.value.instSize);
    return Ok(DebMembers(now, control, t.value));
  }

  /**
   * A package that is written holds debian-binary "2.0\n", then a control
   * archive whose control file reports the package and Installed-Size
   * (the summed upstream sizes in KiB) and whose md5sums lists exactly the
   * upstream records of the data archive, then the data archive, which ends
   * in the three links.
   */
  lemma PackageConsistent(now: int, version: string, goarch: string, up: Upstream, md5: Digest)
    requires '\n' !in version && '\n' !in goarch
    requires Package(now, version, goarch, up, md5).Ok?
    ensures var ms := Package(now, version, goarch, up, md5).value;
      && |ms| == 3
      && ms[0].name == "debian-binary" && ms[0].payload == Bytes("2.0\n")
      && ms[1].name == "control.tar.gz" && ms[1].payload.TarGz?
      && ms[2].name == "data.tar.gz" && ms[2].payload.TarGz?
      && var control, data := ms[1].payload.members, ms[2].payload.members;
      && |control| == 2 && |data| >= 3
      && control[0].hdr.name == "control" && control[1].hdr.name == "md5sums"
      && Field(Split(control[0].body, '\n'), "Version") == Some(DebVersion(version))
      && Field(Split(control[0].body, '\n'), "Installed-Size") == Some(Decimal(SizeSum(up.entries) / 1024))
      && control[1].body == ManifestOf(md5, data[..|data| - 3])
      && data[|data| - 3..] == Symlinks(now)
  {
    var t := Translate(Current, now, up, md5).value;
    var text := ControlText(version, goarch, t.instSize);
    var ms := Package(now, version, goarch, up, md5).value;
    assert ms == DebMembers(now, text, t);
    DebMembersLayout(now, text, t);
    assert t.instSize == SizeSum(up.entries);
    ControlFields(version, goarch, t.instSize);
    ManifestMatchesData(Current, now, up, md5);
    DataLayout(Current, now, up, md5);
    assert ms[1].payload.members[0].body == text;
    assert ms[1].payload.members[1].body == t.md5sums;
    assert ms[2].payload.members == t.data;
  }
}
