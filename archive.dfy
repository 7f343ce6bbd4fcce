// The upstream tarball, the Debian package members, and what the two
// translateTarball functions (cmd/godeb/deb.go and deb.go) make of one.
//
// The tar, gzip and ar encodings and MD5 are library code: an archive is a
// sequence of header-and-body records, and the digest is a parameter.

module Archive {
  import opened Text

  /** tar.Header's Typeflag, as far as the translation tells them apart. */
  datatype Kind = Regular | Directory | Symlink | Other

  /** tar.Header's Format. */
  datatype TarFormat = FormatUnknown | FormatUSTAR | FormatPAX | FormatGNU

  datatype Header = Header(
    name: string, kind: Kind, size: nat, mode: nat, modTime: int,
    linkname: string, format: TarFormat, paxRecords: map<string, string>)

  /** One record of an archive that is written: a header and the bytes after it. */
  datatype Member = Member(hdr: Header, body: string)

  /** The bytes after an upstream header: all there, or cut short by a read error. */
  datatype Body = Intact(data: string) | Truncated

  datatype Entry = Entry(hdr: Header, body: Body)

  /** How tar.Reader.Next ends after the last entry: io.EOF, or another error. */
  datatype Ending = CleanEnd | ReadError

  /** The upstream .tar.gz: whether gzip accepts it, its entries, and how the entries end. */
  datatype Upstream = Upstream(gzipOk: bool, entries: seq<Entry>, ending: Ending)

  /** crypto/md5 over a body. */
  type Digest = string -> seq<byte>

  datatype TranslateError =
    | CannotUncompress           // "cannot uncompress upstream tarball"
    | CannotRead                 // "cannot read upstream tarball"
    | UnexpectedPath(name: string) // "upstream tarball has file in unexpected path"
    | CopyFailed                 // io.Copy of a body failed

  datatype Translation = Translation(data: seq<Member>, md5sums: string, instSize: nat)

  /** The differences between the two translateTarball functions. */
  datatype Variant = Variant(
    skipsBuildArtifacts: bool, // drops "gocache/" and "tmp/" entries
    rootOnce: bool,            // clears `first` once the root directory is written
    dropsPax: bool)            // processTarHeader is dropPax (format_go110.go)

  /** cmd/godeb/deb.go */
  const Current := Variant(true, true, true)

  /** deb.go */
  const Legacy := Variant(false, false, false)

  const Mode0644: nat := 420
  const Mode0755: nat := 493
  const Mode0777: nat := 511

  /** Where the package installs the tree: every output path starts with it. */
  const Prefix := "./usr/local/"

  const Root := "./usr/local/go/"

  /** strings.TrimLeft(name, "./"): every leading '.' and '/' is dropped. */
  function CleanName(name: string): string {
    TrimLeft(name, {'.', '/'})
  }

  function Clean(e: Entry): string {
    CleanName(e.hdr.name)
  }

  /** The entry is not the top-level directory itself, so the root must exist before it. */
  predicate NeedsRoot(c: string) {
    c != "go" && c != "go/"
  }

  predicate UnderGo(c: string) {
    HasPrefix(c, "go/")
  }

  /** Build artifacts of the go 1.11.5 release tarballs. */
  predicate IsBuildArtifact(c: string) {
    HasPrefix(c, "gocache/") || HasPrefix(c, "tmp/")
  }

  predicate Skipped(v: Variant, c: string) {
    v.skipsBuildArtifacts && IsBuildArtifact(c)
  }

  /** The synthesized top-level directory header. */
  function RootDir(modTime: int): Header {
    Header(Root, Directory, 0, Mode0755, modTime, "", FormatUnknown, map[])
  }

  /** The path an entry is written under: moved below Prefix, directories ending in '/'. */
  function OutputName(c: string, kind: Kind): (n: string)
    ensures HasPrefix(n, Prefix + c)
    ensures kind == Directory ==> HasSuffix(n, "/")
    ensures kind != Directory ==> n == Prefix + c
  {
    var n := Prefix + c;
    if kind == Directory && !HasSuffix(n, "/") then n + "/" else n
  }

  /** dropPax: the GNU format and no PAX records. */
  function DropPax(h: Header): Header {
    h.(format := FormatGNU, paxRecords := map[])
  }

  function ProcessHeader(v: Variant, h: Header): Header {
    if v.dropsPax then DropPax(h) else h
  }

  /** The header an entry is written with. */
  function KeptHeader(v: Variant, e: Entry): Header {
    ProcessHeader(v, e.hdr).(name := OutputName(Clean(e), e.hdr.kind))
  }

  /** One line of md5sums: `%x  %s\n` of the digest and the path without its "./". */
  function ManifestLine(md5: Digest, body: string, name: string): string
    requires |name| >= 2
  {
    Hex(md5(body)) + "  " + name[2..] + "\n"
  }

  function SymlinkHeader(now: int, name: string, target: string): Header {
    Header(name, Symlink, 0, Mode0777, now, target, FormatUnknown, map[])
  }

  /** The three links appended after the upstream entries. */
  function Symlinks(now: int): (links: seq<Member>)
    ensures |links| == 3
    ensures forall m :: m in links ==> m.hdr.kind == Symlink && m.body == ""
  {
    [ Member(SymlinkHeader(now, "./usr/bin/go", "/usr/local/go/bin/go"), ""),
      Member(SymlinkHeader(now, "./usr/bin/gofmt", "/usr/local/go/bin/gofmt"), ""),
      Member(SymlinkHeader(now, "./usr/bin/godoc", "/usr/local/go/bin/godoc"), "") ]
  }

  // ---------------------------------------------------------------------
  // The translation, stated entry by entry

  /** Entry `e` stops the translation. */
  predicate Fails(v: Variant, e: Entry) {
    (!Skipped(v, Clean(e)) && !UnderGo(Clean(e))) || e.body.Truncated?
  }

  /**
   * Why it stops: a path outside go/, else a body that cannot be copied,
   * else a body that tar.Reader.Next cannot skip.
   */
  function Failure(v: Variant, e: Entry): TranslateError
    requires Fails(v, e)
  {
    var c := Clean(e);
    if !Skipped(v, c) && !UnderGo(c) then UnexpectedPath(c)
    else if !Skipped(v, c) && e.hdr.kind != Directory then CopyFailed
    else CannotRead
  }

  /** The index of the first entry that stops the translation, or -1. */
  function FirstFailure(v: Variant, es: seq<Entry>): (r: int)
    ensures -1 <= r < |es|
    ensures r >= 0 ==> Fails(v, es[r])
    ensures forall j :: 0 <= j < |es| && (r == -1 || j < r) ==> !Fails(v, es[j])
  {
    if es == [] then -1
    else if Fails(v, es[0]) then 0
    else
      var r := FirstFailure(v, es[1..]);
      if r == -1 then -1 else r + 1
  }

  /** No entry before k needs the root: translateTarball's `first` is still set. */
  predicate NoRootBefore(es: seq<Entry>, k: int)
    requires k <= |es|
  {
    forall j :: 0 <= j < k ==> !NeedsRoot(Clean(es[j]))
  }

  /**
   * The root directory is written before entry k: the first entry that is
   * neither "go" nor "go/", or with `first` never cleared, every such entry.
   */
  predicate RootAt(v: Variant, es: seq<Entry>, k: int)
    requires 0 <= k < |es|
  {
    NeedsRoot(Clean(es[k])) && (v.rootOnce ==> NoRootBefore(es, k))
  }

  /** What entry k contributes to the data archive. */
  function EntryMembers(v: Variant, es: seq<Entry>, k: int): seq<Member>
    requires 0 <= k < |es| && !Fails(v, es[k])
  {
    var e := es[k];
    (if RootAt(v, es, k) then [Member(RootDir(e.hdr.modTime), "")] else [])
    + (if Skipped(v, Clean(e)) then []
       else [Member(KeptHeader(v, e), if e.hdr.kind == Directory then "" else e.body.data)])
  }

  /** What entry k contributes to md5sums. */
  function EntryManifest(v: Variant, md5: Digest, es: seq<Entry>, k: int): string
    requires 0 <= k < |es| && !Fails(v, es[k])
  {
    var e := es[k];
    if Skipped(v, Clean(e)) || e.hdr.kind == Directory then ""
    else ManifestLine(md5, e.body.data, OutputName(Clean(e), e.hdr.kind))
  }

  function MembersUpTo(v: Variant, es: seq<Entry>, n: int): seq<Member>
    requires 0 <= n <= |es| && forall j :: 0 <= j < n ==> !Fails(v, es[j])
  {
    if n == 0 then [] else MembersUpTo(v, es, n - 1) + EntryMembers(v, es, n - 1)
  }

  function ManifestUpTo(v: Variant, md5: Digest, es: seq<Entry>, n: int): string
    requires 0 <= n <= |es| && forall j :: 0 <= j < n ==> !Fails(v, es[j])
  {
    if n == 0 then "" else ManifestUpTo(v, md5, es, n - 1) + EntryManifest(v, md5, es, n - 1)
  }

  /** The sum of the declared sizes. */
  function SizeSum(es: seq<Entry>): nat {
    if es == [] then 0 else SizeSum(es[..|es| - 1]) + es[|es| - 1].hdr.size
  }

  /** translateTarball, result by result. */
  function Translate(v: Variant, now: int, up: Upstream, md5: Digest): Result<Translation, TranslateError> {
    var es := up.entries;
    if !up.gzipOk then Err(CannotUncompress)
    else
      var f := FirstFailure(v, es);
      if f >= 0 then Err(Failure(v, es[f]))
      else if up.ending == ReadError then Err(CannotRead)
      else Ok(Translation(MembersUpTo(v, es, |es|) + Symlinks(now), ManifestUpTo(v, md5, es, |es|), SizeSum(es)))
  }

  /** The translation stops at the first entry that fails, with that entry's error. */
  lemma TranslateStopsAt(v: Variant, now: int, up: Upstream, md5: Digest, k: int)
    requires up.gzipOk && 0 <= k < |up.entries| && Fails(v, up.entries[k])
    requires forall j :: 0 <= j < k ==> !Fails(v, up.entries[j])
    ensures Translate(v, now, up, md5) == Err(Failure(v, up.entries[k]))
  {
    assert FirstFailure(v, up.entries) == k;
  }

  /** One more entry that does not fail extends both the members and the manifest by its own part. */
  lemma UpToStep(v: Variant, md5: Digest, es: seq<Entry>, k: int)
    requires 0 <= k < |es| && forall j :: 0 <= j <= k ==> !Fails(v, es[j])
    ensures MembersUpTo(v, es, k + 1) == MembersUpTo(v, es, k) + EntryMembers(v, es, k)
    ensures ManifestUpTo(v, md5, es, k + 1) == ManifestUpTo(v, md5, es, k) + EntryManifest(v, md5, es, k)
  {
  }

  /** Past the last entry, the translation ends with the reader's error or with the links appended. */
  lemma TranslateEnds(v: Variant, now: int, up: Upstream, md5: Digest)
    requires up.gzipOk && forall j :: 0 <= j < |up.entries| ==> !Fails(v, up.entries[j])
    ensures up.ending == ReadError ==> Translate(v, now, up, md5) == Err(CannotRead)
    ensures up.ending == CleanEnd ==>
      Translate(v, now, up, md5) == Ok(Translation(MembersUpTo(v, up.entries, |up.entries|) + Symlinks(now),
        ManifestUpTo(v, md5, up.entries, |up.entries|), SizeSum(up.entries)))
  {
    assert FirstFailure(v, up.entries) == -1;
  }

  // ---------------------------------------------------------------------
  // What every translation guarantees

  /**
   * translateTarball's loop state after the first k entries: none of them
   * failed, and the data archive, md5sums and the size count hold exactly
   * their part.
   */
  predicate TranslatedUpTo(v: Variant, md5: Digest, es: seq<Entry>, k: int, out: seq<Member>, md5buf: string, instSize: int) {
    && 0 <= k <= |es|
    && (forall j :: 0 <= j < k ==> !Fails(v, es[j]))
    && out == MembersUpTo(v, es, k)
    && md5buf == ManifestUpTo(v, md5, es, k)
    && instSize == SizeSum(es[..k])
  }

  /** An entry that does not fail extends the loop state by its own part. */
  lemma TranslatedStep(v: Variant, md5: Digest, es: seq<Entry>, k: int, out: seq<Member>, md5buf: string, instSize: int,
                       added: seq<Member>, line: string)
    requires TranslatedUpTo(v, md5, es, k, out, md5buf, instSize) && k < |es| && !Fails(v, es[k])
    requires added == EntryMembers(v, es, k) && line == EntryManifest(v, md5, es, k)
    ensures TranslatedUpTo(v, md5, es, k + 1, out + added, md5buf + line, instSize + es[k].hdr.size)
  {
    UpToStep(v, md5, es, k);
    SizeSumStep(es, k);
  }

  /** After the last entry, the loop state is the translation, unless the reader failed. */
  lemma TranslatedAll(v: Variant, now: int, up: Upstream, md5: Digest, out: seq<Member>, md5buf: string, instSize: int)
    requires up.gzipOk && TranslatedUpTo(v, md5, up.entries, |up.entries|, out, md5buf, instSize)
    ensures up.ending == ReadError ==> Translate(v, now, up, md5) == Err(CannotRead)
    ensures up.ending == CleanEnd ==> Translate(v, now, up, md5) == Ok(Translation(out + Symlinks(now), md5buf, instSize))
  {
    assert up.entries[..|up.entries|] == up.entries;
    TranslateEnds(v, now, up, md5);
  }

  /** One more entry adds its declared size. */
  lemma SizeSumStep(es: seq<Entry>, k: int)
    requires 0 <= k < |es|
    ensures SizeSum(es[..k + 1]) == SizeSum(es[..k]) + es[k].hdr.size
  {
    assert es[..k + 1][..k] == es[..k];
  }

  /** The translation succeeds iff gzip accepts the input, no entry stops it, and the entries end cleanly. */
  lemma TranslateSucceeds(v: Variant, now: int, up: Upstream, md5: Digest)
    ensures Translate(v, now, up, md5).Ok? <==>
      up.gzipOk && up.ending == CleanEnd && forall k :: 0 <= k < |up.entries| ==> !Fails(v, up.entries[k])
  {
  }

  /**
   * An entry outside go/ that is not skipped aborts the whole translation,
   * and names itself when nothing before it went wrong.
   */
  lemma OutsideGoAborts(v: Variant, now: int, up: Upstream, md5: Digest, k: int)
    requires 0 <= k < |up.entries|
    requires !Skipped(v, Clean(up.entries[k])) && !UnderGo(Clean(up.entries[k]))
    ensures Translate(v, now, up, md5).Err?
    ensures up.gzipOk && (forall j :: 0 <= j < k ==> !Fails(v, up.entries[j])) ==>
      Translate(v, now, up, md5) == Err(UnexpectedPath(Clean(up.entries[k])))
  {
    var f := FirstFailure(v, up.entries);
    assert f != -1 && f <= k;
  }

  lemma PrefixTransitive<T>(s: seq<T>, t: seq<T>, u: seq<T>)
    requires HasPrefix(s, t) && HasPrefix(t, u)
    ensures HasPrefix(s, u)
  {
    assert s[..|u|] == t[..|t|][..|u|];
  }

  lemma OutputUnderRoot(c: string, kind: Kind)
    requires UnderGo(c)
    ensures HasPrefix(OutputName(c, kind), Root)
  {
    assert (Prefix + c)[..|Root|] == Prefix + c[..3];
    PrefixTransitive(OutputName(c, kind), Prefix + c, Root);
  }

  /** How many of the first n entries get the root directory written before them. */
  function RootsBefore(v: Variant, es: seq<Entry>, n: int): nat
    requires 0 <= n <= |es|
  {
    if n == 0 then 0 else RootsBefore(v, es, n - 1) + (if RootAt(v, es, n - 1) then 1 else 0)
  }

  /** How many of the first n entries are neither "go" nor "go/". */
  function NeedRoot(es: seq<Entry>, n: int): nat
    requires 0 <= n <= |es|
  {
    if n == 0 then 0 else NeedRoot(es, n - 1) + (if NeedsRoot(Clean(es[n - 1])) then 1 else 0)
  }

  /**
   * With `first` cleared after use (cmd/godeb/deb.go), the root directory is
   * written once if any entry needs it and never otherwise.
   */
  lemma {:induction false} RootOnce(v: Variant, es: seq<Entry>, n: int)
    requires v.rootOnce && 0 <= n <= |es|
    ensures RootsBefore(v, es, n) == if NeedRoot(es, n) > 0 then 1 else 0
  {
    if n > 0 {
      RootOnce(v, es, n - 1);
      NeedRootZero(es, n - 1);
      NeedRootZero(es, n);
      var due := RootAt(v, es, n - 1);
      assert due <==> NeedRoot(es, n - 1) == 0 && NeedsRoot(Clean(es[n - 1]));
    }
  }

  lemma {:induction false} NeedRootZero(es: seq<Entry>, n: int)
    requires 0 <= n <= |es|
    ensures NeedRoot(es, n) == 0 <==> forall j :: 0 <= j < n ==> !NeedsRoot(Clean(es[j]))
  {
    if n > 0 {
      NeedRootZero(es, n - 1);
      var c := Clean(es[n - 1]);
      if NeedsRoot(c) {
        assert NeedRoot(es, n) > 0;
      } else {
        assert NeedRoot(es, n) == NeedRoot(es, n - 1);
      }
    }
  }

  /**
   * With `first` never cleared (deb.go), the root directory is written again
   * before every entry that is neither "go" nor "go/".
   */
  lemma {:induction false} RootEveryTime(v: Variant, es: seq<Entry>, n: int)
    requires !v.rootOnce && 0 <= n <= |es|
    ensures RootsBefore(v, es, n) == NeedRoot(es, n)
  {
    if n > 0 {
      RootEveryTime(v, es, n - 1);
    }
  }

  /** A record of the data archive sits below /usr/local/go, and a directory's path ends in '/'. */
  predicate WellPlaced(m: Member) {
    HasPrefix(m.hdr.name, Root) && (m.hdr.kind == Directory ==> HasSuffix(m.hdr.name, "/"))
  }

  /** Every record of the sequence is well placed. */
  predicate AllPlaced(ms: seq<Member>) {
    forall i :: 0 <= i < |ms| ==> WellPlaced(ms[i])
  }

  lemma EntryWellPlaced(v: Variant, es: seq<Entry>, k: int)
    requires 0 <= k < |es| && !Fails(v, es[k])
    ensures AllPlaced(EntryMembers(v, es, k))
  {
    var e := es[k];
    assert WellPlaced(Member(RootDir(e.hdr.modTime), ""));
    if !Skipped(v, Clean(e)) {
      OutputUnderRoot(Clean(e), e.hdr.kind);
      assert WellPlaced(Member(KeptHeader(v, e), if e.hdr.kind == Directory then "" else e.body.data));
    }
  }

  lemma {:induction false} MembersWellPlaced(v: Variant, es: seq<Entry>, n: int)
    requires 0 <= n <= |es| && forall j :: 0 <= j < n ==> !Fails(v, es[j])
    ensures AllPlaced(MembersUpTo(v, es, n))
  {
    if n > 0 {
      MembersWellPlaced(v, es, n - 1);
      PlacedStep(v, es, n);
    }
  }

  lemma PlacedStep(v: Variant, es: seq<Entry>, n: int)
    requires 0 < n <= |es| && forall j :: 0 <= j < n ==> !Fails(v, es[j])
    requires AllPlaced(MembersUpTo(v, es, n - 1))
    ensures AllPlaced(MembersUpTo(v, es, n))
  {
    EntryWellPlaced(v, es, n - 1);
    MembersStep(v, es, n);
    PlacedConcat(MembersUpTo(v, es, n - 1), EntryMembers(v, es, n - 1), MembersUpTo(v, es, n));
  }

  lemma MembersStep(v: Variant, es: seq<Entry>, n: int)
    requires 0 < n <= |es| && forall j :: 0 <= j < n ==> !Fails(v, es[j])
    ensures MembersUpTo(v, es, n) == MembersUpTo(v, es, n - 1) + EntryMembers(v, es, n - 1)
  {
  }

  lemma PlacedConcat(a: seq<Member>, b: seq<Member>, c: seq<Member>)
    requires c == a + b && AllPlaced(a) && AllPlaced(b)
    ensures AllPlaced(c)
  {
    forall i | 0 <= i < |c| ensures WellPlaced(c[i]) {
      if i >= |a| {
        assert c[i] == b[i - |a|];
      }
    }
  }

  /**
   * The data archive holds the upstream tree below ./usr/local/go/, with
   * every directory path ending in '/', and then exactly the three links
   * ./usr/bin/go, ./usr/bin/gofmt and ./usr/bin/godoc.
   */
  lemma DataLayout(v: Variant, now: int, up: Upstream, md5: Digest)
    requires Translate(v, now, up, md5).Ok?
    ensures var d := Translate(v, now, up, md5).value.data;
      |d| >= 3 && d[|d| - 3..] == Symlinks(now)
      && forall i :: 0 <= i < |d| - 3 ==> WellPlaced(d[i])
  {
    var es := up.entries;
    MembersWellPlaced(v, es, |es|);
    var d := Translate(v, now, up, md5).value.data;
    assert d[..|d| - 3] == MembersUpTo(v, es, |es|);
    assert d[|d| - 3..] == Symlinks(now);
    assert AllPlaced(d[..|d| - 3]);
    forall i | 0 <= i < |d| - 3 ensures WellPlaced(d[i]) {
      assert d[i] == d[..|d| - 3][i];
    }
  }

  /** The md5sums line a record of the data archive calls for: none for a directory. */
  function MemberLine(md5: Digest, m: Member): string {
    if m.hdr.kind == Directory || |m.hdr.name| < 2 then "" else ManifestLine(md5, m.body, m.hdr.name)
  }

  /** The md5sums file that describes a sequence of records. */
  function ManifestOf(md5: Digest, ms: seq<Member>): string {
    if ms == [] then "" else ManifestOf(md5, ms[..|ms| - 1]) + MemberLine(md5, ms[|ms| - 1])
  }

  lemma {:induction false} ManifestOfAppend(md5: Digest, a: seq<Member>, b: seq<Member>)
    ensures ManifestOf(md5, a + b) == ManifestOf(md5, a) + ManifestOf(md5, b)
    decreases |b|
  {
    if b != [] {
      assert (a + b)[..|a + b| - 1] == a + b[..|b| - 1];
      ManifestOfAppend(md5, a, b[..|b| - 1]);
    } else {
      assert a + b == a;
    }
  }

  /** The manifest of a single record is its line. */
  lemma SingleManifest(md5: Digest, m: Member)
    ensures ManifestOf(md5, [m]) == MemberLine(md5, m)
  {
    assert [m][..0] == [];
  }

  /** The record kept for entry k carries exactly that entry's md5sums line. */
  lemma KeptLine(v: Variant, md5: Digest, es: seq<Entry>, k: int)
    requires 0 <= k < |es| && !Fails(v, es[k]) && !Skipped(v, Clean(es[k]))
    ensures var e := es[k];
      MemberLine(md5, Member(KeptHeader(v, e), if e.hdr.kind == Directory then "" else e.body.data))
        == EntryManifest(v, md5, es, k)
  {
  }

  lemma EntryManifestMatches(v: Variant, md5: Digest, es: seq<Entry>, k: int)
    requires 0 <= k < |es| && !Fails(v, es[k])
    ensures ManifestOf(md5, EntryMembers(v, es, k)) == EntryManifest(v, md5, es, k)
  {
    var e := es[k];
    var root: seq<Member> := if RootAt(v, es, k) then [Member(RootDir(e.hdr.modTime), "")] else [];
    var kept: seq<Member> :=
      if Skipped(v, Clean(e)) then []
      else [Member(KeptHeader(v, e), if e.hdr.kind == Directory then "" else e.body.data)];
    assert EntryMembers(v, es, k) == root + kept;
    ManifestOfAppend(md5, root, kept);
    if root != [] {
      SingleManifest(md5, root[0]);
    }
    if kept != [] {
      SingleManifest(md5, kept[0]);
      KeptLine(v, md5, es, k);
    }
  }

  lemma {:induction false} ManifestDescribesMembers(v: Variant, md5: Digest, es: seq<Entry>, n: int)
    requires 0 <= n <= |es| && forall j :: 0 <= j < n ==> !Fails(v, es[j])
    ensures ManifestOf(md5, MembersUpTo(v, es, n)) == ManifestUpTo(v, md5, es, n)
  {
    if n > 0 {
      ManifestDescribesMembers(v, md5, es, n - 1);
      EntryManifestMatches(v, md5, es, n - 1);
      ManifestOfAppend(md5, MembersUpTo(v, es, n - 1), EntryMembers(v, es, n - 1));
    }
  }

  /**
   * md5sums is exactly the manifest of the data archive's upstream records:
   * one `<md5 hex>  <path without ./>` line per non-directory record, in
   * archive order; the root directory and the three links add none.
   */
  lemma ManifestMatchesData(v: Variant, now: int, up: Upstream, md5: Digest)
    requires Translate(v, now, up, md5).Ok?
    ensures var t := Translate(v, now, up, md5).value;
      |t.data| >= 3 && t.md5sums == ManifestOf(md5, t.data[..|t.data| - 3])
  {
    var es := up.entries;
    ManifestDescribesMembers(v, md5, es, |es|);
    var d := Translate(v, now, up, md5).value.data;
    assert d[..|d| - 3] == MembersUpTo(v, es, |es|);
  }

  // ---------------------------------------------------------------------
  // The package around the data archive (createDeb, createControl and
  // addArFile, the same in both copies)

  /** The value of the first `name: value` line, as dpkg reads a control file. */
  function Field(lines: seq<string>, name: string): (r: Option<string>)
    ensures r.Some? ==> exists k :: 0 <= k < |lines| && lines[k] == name + ": " + r.value
    ensures r.None? ==> forall k :: 0 <= k < |lines| ==> !HasPrefix(lines[k], name + ": ")
  {
    if lines == [] then None
    else if HasPrefix(lines[0], name + ": ") then
      assert lines[0] == name + ": " + lines[0][|name| + 2..];
      Some(lines[0][|name| + 2..])
    else
      Field(lines[1..], name)
  }

  /**
   * Line k gives the field's value when every line before it is empty or
   * starts with another letter than the field name.
   */
  lemma {:induction false} FieldAt(lines: seq<string>, name: string, k: int, value: string)
    requires name != [] && 0 <= k < |lines| && lines[k] == name + ": " + value
    requires forall j :: 0 <= j < k ==> lines[j] == [] || lines[j][0] != name[0]
    ensures Field(lines, name) == Some(value)
  {
    if k > 0 {
      assert !HasPrefix(lines[0], name + ": ") by {
        if lines[0] != [] {
          assert (name + ": ")[0] == name[0];
        }
      }
      FieldAt(lines[1..], name, k - 1, value);
    } else {
      assert HasPrefix(lines[0], name + ": ");
      assert lines[0][|name| + 2..] == value;
    }
  }

  /** Lines after the first `name:` line do not change its value. */
  lemma {:induction false} FieldInFront(a: seq<string>, b: seq<string>, name: string)
    requires Field(a, name).Some?
    ensures Field(a + b, name) == Field(a, name)
  {
    assert (a + b)[0] == a[0];
    if !HasPrefix(a[0], name + ": ") {
      assert (a + b)[1..] == a[1..] + b;
      FieldInFront(a[1..], b, name);
    }
  }

  /** What an ar member holds: plain bytes, or a gzip-compressed tar archive of records. */
  datatype Payload = Bytes(data: string) | TarGz(members: seq<Member>)

  /** An ar member as addArFile writes it (mode 0644, the package's time stamp). */
  datatype ArMember = ArMember(name: string, mode: nat, modTime: int, payload: Payload)

  function RegularFile(now: int, name: string, body: string): (m: Member)
    ensures m.hdr.size == |m.body|
  {
    Member(Header(name, Regular, |body|, Mode0644, now, "", FormatUnknown, map[]), body)
  }

  /** The records of control.tar.gz: the control file, then md5sums. */
  function ControlMembers(now: int, control: string, md5sums: string): seq<Member> {
    [RegularFile(now, "control", control), RegularFile(now, "md5sums", md5sums)]
  }

  /** The members of the .deb, in the order dpkg requires. */
  function DebMembers(now: int, control: string, t: Translation): seq<ArMember> {
    [ ArMember("debian-binary", Mode0644, now, Bytes("2.0\n")),
      ArMember("control.tar.gz", Mode0644, now, TarGz(ControlMembers(now, control, t.md5sums))),
      ArMember("data.tar.gz", Mode0644, now, TarGz(t.data)) ]
  }

  /** The three members of the .deb, and the two files of its control archive, by position. */
  lemma DebMembersLayout(now: int, control: string, t: Translation)
    ensures var ms := DebMembers(now, control, t);
      && |ms| == 3
      && ms[0].name == "debian-binary" && ms[0].payload == Bytes("2.0\n")
      && ms[1].name == "control.tar.gz" && ms[1].payload == TarGz(ControlMembers(now, control, t.md5sums))
      && ms[2].name == "data.tar.gz" && ms[2].payload == TarGz(t.data)
    ensures var c := ControlMembers(now, control, t.md5sums);
      && |c| == 2
      && c[0].hdr.name == "control" && c[0].body == control
      && c[1].hdr.name == "md5sums" && c[1].body == t.md5sums
  {
  }
}
