# godeb in Dafny

godeb turns an upstream Go release tarball (`go<version>.linux-<arch>.tar.gz`)
into a Debian package. Its core has four parts, and this project models each
one and proves what it promises:

- **The version comparator** (`tarballSlice.Less`, sort.go): it scans two
  version strings section by section.
- **The tarball translation** (`translateTarball`, `createControl` and
  `createDeb`): it moves the upstream tree below `./usr/local/`, writes the
  root directory, computes `md5sums` and the installed size, and assembles
  the three ar members of the `.deb`.
- **The metadata helpers**: `debVersion`, `debArch`, `setEnv`, and the
  dpkg-query check `installedDebVersion`.
- **The download listing**: `parseURL`, `clearScripts`, link normalisation
  and de-duplication in `tarballsFrom`, the older `tarballs`, the version
  choice of `actionCommand`, the argument checks of `fromtarball`, and the
  `.deb` file name.

The repository holds two copies of the program: `cmd/godeb/` and an older one
at the top level. Functions that are identical in the two copies are modelled
once. These are `debVersion`, `isDigit`, `debArch`, `parseURL`,
`clearScripts`, `createControl`, `addArFile` and the debName format. What
differs is modelled per copy.

The modules are:

- `Text` (text.dfy): the parts of Go's `strings`, `bytes`, `path` and `fmt`
  that the core uses. A Go string is a `seq<char>` in which every char
  stands for one byte.
- `TarballSort` (tarball_sort.dfy): sort.go.
  - `Newer` is the comparator stated as a recursive predicate on the unread
    suffixes. `Less` is the scan with its index loops, proved equal to
    `Newer`.
  - `NewerOnReleases` shows that on Go release versions `Newer` is the
    release order: major, then minor, then point > final > rc > beta, then
    the channel number.
  - `SortTarballs` is an in-place insertion sort by adjacent swaps standing
    in for `sort.Sort`. `SortReference` proves the test of sort_test.go:
    every permutation of the 17 reference versions sorts to the listed order.
- `Archive` (archive.dfy): the upstream tarball as a sequence of header and
  body entries, and the translation as a function `Translate` of a `Variant`.
  The two variants are `Current` (cmd/godeb/deb.go) and `Legacy` (deb.go).
  Its lemmas prove:
  - where every output record is placed;
  - that the root directory is written once (`Current`) or before every
    entry (`Legacy`);
  - that `md5sums` is exactly the manifest of the data archive;
  - what makes the translation fail.
- `Deb` (deb.dfy) and `LegacyDeb` (legacy_deb.dfy): each copy's
  `translateTarball` as an imperative loop proved equal to `Translate`, plus
  its `createDeb`, control text and dpkg-query check.
- `Listing` (listing.dfy) and `LegacyListing` (legacy_listing.dfy): each
  copy's listing. `clearScripts` works in place on an `array<char>` and is
  proved against the function `Cleared`. The version choice and the
  `fromtarball` checks are functions with Result errors.

Outside state is an input, not something the model reads for itself:

- `build.Default.GOARCH` is the `goarch` parameter.
- `time.Now()` is `now`.
- MD5 is a function-typed parameter (`Digest`).
- The environment is a sequence of strings.
- The outcomes of `exec.LookPath` and of running dpkg-query are datatypes.
- The XPath query's results are the `hrefs` sequence.

### Behaviour as written

At five points the code does something a reader might not expect. The model
follows the code at each:

- **When exactly one side is at '.'**, the comparator returns true when `a`
  is at the '.' (sort.go:38-39), so the dotted side is the newer one. "1.1.2"
  is newer than "1.1rc2".
- **Installed-Size counts every entry.** `instSize += h.Size` runs before the
  skip and the directory tests (cmd/godeb/deb.go:222), so skipped build
  artifacts are counted, and so is any size a directory header declares.
- **The root directory.** It goes before the first entry that is neither
  "go" nor "go/", not only before the first entry. In deb.go `first` is
  never cleared (deb.go:183-193), so it is written again before every such
  entry (`Archive.RootEveryTime`).
- **Name cleaning.** `strings.TrimLeft(name, "./")` drops every leading '.'
  and '/', not just one "./" prefix.
- **The end-of-scan tie-break** tests `b[bi] >= '9'` (sort.go:66). So "1."
  and "1.9" are each newer than the other (`TarballSort.NineQuirk`).

## Model

| member | source | states |
|---|---|---|
| Text.Index | cmd/godeb/main.go:276 | bytes.Index: the result is -1 and the pattern occurs nowhere, or it is an occurrence with none before it |
| Text.IndexByte | cmd/godeb/main.go:280 | bytes.IndexByte: the first position holding the byte, or -1 when no position holds it |
| Text.TrimLeftShape | cmd/godeb/deb.go:223 | strings.TrimLeft keeps a suffix that does not start with a cutset char and drops only cutset chars |
| Text.AfterLastSlash | cmd/godeb/main.go:260 | path.Split's file part is a suffix without '/', preceded by a '/' whenever it is not the whole path |
| Text.AfterLastSlashOf | cmd/godeb/main.go:260 | the file part of base + "/" + tail is tail when tail has no '/' |
| Text.TrimSpaceKeepsInner | cmd/godeb/deb.go:113 | strings.TrimSpace on ASCII text: it keeps any text that neither starts nor ends with ASCII white space |
| Text.ToLower | cmd/godeb/deb.go:114 | strings.ToLower on ASCII text: it keeps the length and lower-cases each ASCII letter |
| Text.OccursAtLower | cmd/godeb/deb.go:114 | an occurrence stays in place, lower-cased, after strings.ToLower |
| Text.Decimal | cmd/godeb/deb.go:145 | `%d`: non-empty digits without a leading zero whose value is the number |
| Text.Hex | cmd/godeb/deb.go:260 | `%x`: two hex digits per byte |
| Text.HexRoundTrip | cmd/godeb/deb.go:260 | reading the `%x` text back gives the digest bytes |
| TarballSort.Swap | sort.go:9 | exchanges two elements and keeps the multiset |
| TarballSort.ScanDigits | sort.go:22-31 | stops at the end of the digit run and returns the run's numeric value |
| TarballSort.ScanTag | sort.go:42-47 | stops at the end of the run of bytes that are neither '.' nor digits |
| TarballSort.CompareTags | sort.go:50-60 | the rc/beta/empty/byte-order tests settle the order exactly when TagsDecide holds, with verdict TagNewer |
| TarballSort.DigitSection | sort.go:20-34 | two digit runs: unequal values settle Newer; equal ones resume after both runs |
| TarballSort.TagSection | sort.go:40-61 | two tag runs: the tag tests settle Newer or resume after both runs |
| TarballSort.Less | sort.go:11-70 | the scan returns exactly Newer(a, b), the comparator on the two versions |
| TarballSort.NewerDigitAgainstOther | sort.go:15-19 | a digit against a non-digit: the digit side is newer and not the reverse |
| TarballSort.NewerDigitRuns | sort.go:20-34 | digit runs compare by value; equal values leave the verdict to the rest |
| TarballSort.NewerDots | sort.go:35-37 | a '.' on both sides is skipped |
| TarballSort.NewerDotAgainstTag | sort.go:38-39 | a '.' against a tag byte: the '.' side is newer and not the reverse |
| TarballSort.NewerSameTag | sort.go:41-61 | equal tag runs leave the verdict to the rest |
| TarballSort.NewerTags | sort.go:50-60 | different tag runs: rc on one side wins, then beta on one side, then byte order |
| TarballSort.TagRunsNonEmpty | sort.go:55-57 | the empty-tag test never fires: both tag runs are non-empty, and the tag tests decide iff the runs differ |
| TarballSort.NewerIrreflexive | sort.go:14-69 | no version is newer than itself |
| TarballSort.NineQuirk | sort.go:63-68 | the `>= '9'` test makes "1." and "1.9" each newer than the other, while "1." is not newer than "1.8" |
| TarballSort.TenBeatsNine | sort.go:21-34 | "1.10" is newer than "1.9" and not the reverse: runs compare as numbers |
| TarballSort.NewerOnDotNumbers | sort.go:20-37 | numbers after a dot compare numerically |
| TarballSort.NewerOnTagNumbers | sort.go:20-61 | numbers after the same tag compare numerically |
| TarballSort.NewerOnChannels | sort.go:35-61 | on release channels Newer is the order point > final > rc > beta, then by number |
| TarballSort.NewerOnReleases | sort.go:11-70 | on release versions Newer is the release order: major, minor, channel |
| TarballSort.ReferenceTexts | sort_test.go:23-41 | the 17 reference versions are the texts of the listed releases |
| TarballSort.ReferenceRanked | sort_test.go:23-41 | one reference version is newer than another iff it is listed first |
| TarballSort.InsertAt | main.go:221 | one insertion pass keeps the multiset and extends the sorted prefix by one |
| TarballSort.SortTarballs | main.go:221 | sort.Sort keeps the multiset and, for an asymmetric comparator, leaves no tarball newer than its predecessor |
| TarballSort.RankedUnique | sort_test.go:50-54 | the only newest-first permutation of a ranked list is the list itself |
| TarballSort.VersionsPermute | sort_test.go:47-52 | permuting tarballs permutes their versions |
| TarballSort.SortRanked | sort_test.go:50-54 | sorting any permutation of a ranked list yields exactly that list |
| TarballSort.SortReference | sort_test.go:43-55 | every permutation of the reference versions sorts to the order of sort_test.go |
| Archive.OutputName | cmd/godeb/deb.go:243-247 | an output path is "./usr/local/" + the cleaned name, with '/' added to directories |
| Archive.Symlinks | cmd/godeb/deb.go:263-271 | exactly three symlink records with empty bodies |
| Archive.FirstFailure | cmd/godeb/deb.go:213-261 | the first entry that stops the loop, with every entry before it passing |
| Archive.TranslateStopsAt | cmd/godeb/deb.go:213-261 | the translation fails with the error of the first entry that fails |
| Archive.TranslateEnds | cmd/godeb/deb.go:213-279 | after the entries, a reader error fails the translation; otherwise the links follow the members |
| Archive.TranslatedStep | cmd/godeb/deb.go:221-260 | one entry that does not fail extends the loop state by its members, its md5sums line and its size |
| Archive.TranslatedAll | cmd/godeb/deb.go:213-279 | the loop state after the last entry is the translation, unless the reader failed |
| Archive.SizeSumStep | cmd/godeb/deb.go:222 | each entry adds its declared size |
| Archive.TranslateSucceeds | cmd/godeb/deb.go:207-279 | the translation succeeds iff gzip accepts the input, no entry fails and the entries end cleanly |
| Archive.OutsideGoAborts | cmd/godeb/deb.go:240-242 | an entry outside go/ that is not skipped aborts, naming itself when nothing before it failed |
| Archive.OutputUnderRoot | cmd/godeb/deb.go:243-247 | every moved path lies below ./usr/local/go/ |
| Archive.RootOnce | cmd/godeb/deb.go:224-235 | the root directory is written once if some entry is neither "go" nor "go/", else never |
| Archive.RootEveryTime | deb.go:183-193 | with `first` never cleared, the root goes before every entry that is neither "go" nor "go/" |
| Archive.EntryWellPlaced | cmd/godeb/deb.go:224-250 | every record an entry adds lies below the root, and directories end in '/' |
| Archive.MembersWellPlaced | cmd/godeb/deb.go:213-261 | every record of the upstream part of the data archive is well placed |
| Archive.DataLayout | cmd/godeb/deb.go:213-271 | the data archive is well-placed upstream records followed by exactly the three links |
| Archive.ManifestOfAppend | cmd/godeb/deb.go:260 | the manifest of two runs of records is the two manifests concatenated |
| Archive.EntryManifestMatches | cmd/godeb/deb.go:252-260 | an entry's md5sums line is the manifest of the records it adds |
| Archive.ManifestDescribesMembers | cmd/godeb/deb.go:213-261 | md5sums so far is the manifest of the records written so far |
| Archive.ManifestMatchesData | cmd/godeb/deb.go:256-260 | md5sums is one `<hex>  <path>` line per non-directory upstream record, in archive order |
| Archive.Field | cmd/godeb/deb.go:47-68 | a control field's value comes from a `name: value` line; None means no line starts with the name |
| Archive.FieldAt | cmd/godeb/deb.go:47-52 | a field's value is read from the first line that can carry it |
| Archive.FieldInFront | cmd/godeb/deb.go:47-68 | later lines do not change a field already found |
| Archive.RegularFile | cmd/godeb/deb.go:146-152 | a control.tar.gz record's size is its body length |
| Deb.DebArch | cmd/godeb/deb.go:70-76 | "386" becomes "i386"; every other GOARCH is kept |
| Deb.IsDigit | cmd/godeb/deb.go:78-80 | true only at a position inside the version |
| Deb.InsertTildeShape | cmd/godeb/deb.go:83-89 | the tag loop with its break: when no earlier tag was flanked by digits, the first flanked tag gets a '~' right before its first occurrence (strings.Index); with no flanked tag the version is unchanged |
| Deb.DebVersionPlacement | cmd/godeb/deb.go:82-91 | the '~' goes before the first "rc" if that occurrence has a digit on both sides, else before the first "beta" if that one does, else nowhere; "-godeb1" always follows |
| Deb.DebVersionPlain | cmd/godeb/deb.go:82-91 | debVersion only appends "-godeb1" iff neither tag's first occurrence has a digit on both sides |
| Deb.RemoveInsertedTilde | cmd/godeb/deb.go:83-89 | removing the first '~' undoes the tag loop |
| Deb.DebVersionRoundTrip | cmd/godeb/deb.go:82-91 | a version without '~' is recovered from its Debian version |
| Deb.DebVersionRc | cmd/godeb/deb.go:82-91 | "1.2rc3" becomes "1.2~rc3-godeb1" |
| Deb.DebVersionBeta | cmd/godeb/deb.go:82-91 | "1.1beta2" becomes "1.1~beta2-godeb1" |
| Deb.DebVersionAdds | cmd/godeb/deb.go:82-91 | debVersion adds no char other than '~' and those of "-godeb1" |
| Deb.KeyIndex | cmd/godeb/deb.go:131-136 | the first entry with the prefix, with no entry before it having it, or -1 |
| Deb.SetEnv | cmd/godeb/deb.go:129-138 | overwrites the first `key=` entry in the same array, or appends to a fresh copy |
| Deb.SetThenLookup | cmd/godeb/deb.go:129-138 | after setEnv the key looks up to the value just set |
| Deb.SetKeepsOthers | cmd/godeb/deb.go:129-138 | setEnv leaves every other key's value unchanged |
| Deb.QueryEnvironmentIsC | cmd/godeb/deb.go:104-107 | dpkg-query runs with LC_ALL, LANG and LANGUAGE all set to C |
| Deb.FailedQuery | cmd/godeb/deb.go:111-120 | a failed query means not installed iff its trimmed, lower-cased output contains "no packages found"; otherwise the error is the query-failure text, the error, and ": " + the trimmed output when that is non-empty |
| Deb.InstalledDebVersion | cmd/godeb/deb.go:95-127 | the version after "ii " iff the query ran and reported "ii "; a missing dpkg-query, or output without "ii ", means not installed; a failed query is not installed iff its output says "no packages found", else the full query-failure message |
| Deb.NoPackagesSeen | cmd/godeb/deb.go:113-114 | "No packages found" survives trimming and lower-casing |
| Deb.NoPackagesFound | cmd/godeb/deb.go:110-116 | a failed query whose output says "No packages found" means not installed |
| Deb.HeadFields | cmd/godeb/deb.go:47-52 | the filled-in fields of the control template read back as go, the version, the arch and the size |
| Deb.TemplateFields | cmd/godeb/deb.go:47-68 | the same fields read back from the joined, split control text |
| Deb.ControlFields | cmd/godeb/deb.go:145 | the control file reports Package go, debVersion, debArch and the size in KiB |
| Deb.TranslateEntry | cmd/godeb/deb.go:214-260 | one entry: its error iff it fails, else exactly its records and md5sums line; `first` stays set iff no entry so far needed the root |
| Deb.TranslateNext | cmd/godeb/deb.go:213-261 | one turn of the loop: the entry's error, or the loop state extended by one entry |
| Deb.TranslateEntries | cmd/godeb/deb.go:212-261 | the loop stops at the first failing entry with its error, or covers every entry |
| Deb.TranslateTarball | cmd/godeb/deb.go:199-280 | translateTarball returns exactly Translate(Current, ...) |
| Deb.CreateDeb | cmd/godeb/deb.go:20-45 | createDeb writes exactly Package(...) or the translation error |
| Deb.PackageConsistent | cmd/godeb/deb.go:20-45 | the package is debian-binary "2.0\n", control.tar.gz with control and md5sums, then data.tar.gz; the control file reports the version and total size, and md5sums is the manifest of the data archive without its links |
| LegacyDeb.InstalledDebVersion | deb.go:90-100 | any query error is reported; otherwise the version after "ii ", or not installed |
| LegacyDeb.ControlFields | deb.go:107 | deb.go's control file reports the same four fields |
| LegacyDeb.TranslateEntry | deb.go:174-214 | one entry: its error iff it fails, else exactly its records and md5sums line |
| LegacyDeb.TranslateEntries | deb.go:172-215 | the loop stops at the first failing entry with its error, or covers every entry |
| LegacyDeb.TranslateTarball | deb.go:159-234 | deb.go's translateTarball returns exactly Translate(Legacy, ...) |
| LegacyDeb.CreateDeb | deb.go:17-42 | createDeb writes exactly Package(...) or the translation error |
| LegacyDeb.NoSkipList | deb.go:194-196 | every entry outside go/, build artifacts included, aborts with an unexpected-path error |
| LegacyDeb.PackageConsistent | deb.go:17-42 | the same three members, control fields and md5sums as the newer copy |
| Listing.ParseURL | cmd/godeb/main.go:258-269 | a tarball iff the last segment is "go", a digit 1-9 and the suffix; the version sits between them and the URL is kept |
| Listing.NameParts | cmd/godeb/main.go:268 | the version slice is in range and non-empty, and has no '/' |
| Listing.ParseURLRoundTrip | cmd/godeb/main.go:258-269 | a URL ending in "/go<version>.linux-<arch>.tar.gz" parses back to that version |
| Listing.BuiltName | cmd/godeb/main.go:261-268 | the pieces parseURL looks at in "go" + version + suffix |
| Listing.Blank | cmd/godeb/main.go:282-285 | spaces over [i, c) and nothing else changed |
| Listing.TagAt | cmd/godeb/main.go:276 | the next "<script" from j, or -1 |
| Listing.CloseAt | cmd/godeb/main.go:281 | the next "</script>" from i, or -1 |
| Listing.AfterTag | cmd/godeb/main.go:280 | the position after the start tag's '>' lies beyond the tag |
| Listing.NextRound | cmd/godeb/main.go:276-281 | one outer round either finds nothing, goes on from the '>' of an unclosed tag, or finds a body ending at a "</script>" |
| Listing.Cleared | cmd/godeb/main.go:271-287 | the cleared buffer has the same length, keeps everything before j, and only turns bytes into spaces; which bytes, ClearedBlanksBodies states |
| Listing.ClearedRound | cmd/godeb/main.go:275-286 | one round of the outer loop leaves the final result unchanged |
| Listing.FirstRound | cmd/godeb/main.go:276-281 | the first round's body runs from after the first tag's '>' to the next "</script>" |
| Listing.ClearedBody | cmd/godeb/main.go:282-285 | a found body becomes spaces and everything before it is kept |
| Listing.NextRoundSuffix | cmd/godeb/main.go:276-281 | a round started at j reads only the buffer from j on, so blanking earlier bytes does not change later rounds |
| Listing.InBodySuffix | cmd/godeb/main.go:275-286 | which bytes lie in a later body depends only on the buffer from j on |
| Listing.ClearedBlanksBodies | cmd/godeb/main.go:271-287 | each byte of the result is a space iff it lies in a script body that the rounds find in the original buffer, from after a start tag's '>' up to the next "</script>"; every other byte is kept |
| Listing.ClearedFirstScript | cmd/godeb/main.go:271-287 | the first script body becomes spaces and everything up to its tag's '>' is kept |
| Listing.FindScript | cmd/godeb/main.go:276-281 | the searches of a round give i < j when no tag is left, else the body's bounds |
| Listing.BlankBody | cmd/godeb/main.go:282-285 | the inner loop blanks data[i..j], or does nothing when j < i |
| Listing.ClearScripts | cmd/godeb/main.go:271-287 | clearScripts leaves exactly Cleared(old data, 0) in the buffer: the script bodies blanked, everything else kept (ClearedBlanksBodies) |
| Listing.Normalize | cmd/godeb/main.go:241-246 | "//" links get "https:", "/dl/" links are resolved against the source URL, and other links are kept |
| Listing.RelativeLinkParses | cmd/godeb/main.go:244-247 | a "/dl/" link to a tarball resolves to its URL and version |
| Listing.SchemeRelativeLinkParses | cmd/godeb/main.go:241-247 | a "//" link to a tarball gets "https:" and its version |
| Listing.Candidates | cmd/godeb/main.go:239-251 | every parsed link has a URL and a version starting with 1-9 |
| Listing.VersionSetAppend | cmd/godeb/main.go:247-248 | appending a tarball adds its version to the seen versions |
| Listing.FirstPerVersion | cmd/godeb/main.go:238-250 | de-duplication keeps the same versions, drops no version, keeps only input tarballs, and leaves no version twice; the order is stated by FirstPerVersionInOrder |
| Listing.FirstPerVersionInOrder | cmd/godeb/main.go:247-250 | de-duplication yields exactly the tarballs that no earlier link shares a version with, in link order |
| Listing.FirstsPrefix | cmd/godeb/main.go:247-250 | whether a tarball is the first with its version depends only on the links before it |
| Listing.FirstPerVersionKeepsFirst | cmd/godeb/main.go:247-250 | each kept tarball is the first input with its version |
| Listing.CandidatesStep | cmd/godeb/main.go:239-247 | one more link adds its tarball if it parses |
| Listing.FirstPerVersionStep | cmd/godeb/main.go:247-250 | a candidate is kept iff its version was not seen |
| Listing.ParseHref | cmd/godeb/main.go:240-247 | the loop body parses the normalised link |
| Listing.SeenStep | cmd/godeb/main.go:247-248 | the `seen` map holds exactly the kept versions |
| Listing.TarballsFrom | cmd/godeb/main.go:236-255 | the first tarball per version in link order, or "no downloads" when there is none |
| Listing.FirstWithVersion | cmd/godeb/main.go:113-118 | the first tarball with the version, none before it, or -1 |
| Listing.Select | cmd/godeb/main.go:108-126 | the first tarball when no version is asked for; else the first listed tarball with that version, which is found iff such a tarball exists and has a non-empty URL; otherwise "not available" |
| Listing.SelectFindsListed | cmd/godeb/main.go:113-125 | with non-empty URLs, a version is found iff it is listed |
| Listing.SelectTarball | cmd/godeb/main.go:108-126 | the search loop returns exactly Select |
| Listing.InstallCheck | cmd/godeb/main.go:128-135 | installing the installed Debian version is refused; not installed, downloading, or installing over a different installed version goes ahead; query errors propagate |
| Listing.ReinstallRefused | cmd/godeb/main.go:128-135 | when dpkg reports the version's Debian version as installed, install is refused |
| Listing.OtherVersionAccepted | cmd/godeb/main.go:128-135 | another installed version does not block the install |
| Listing.DebFileNameParts | cmd/godeb/main.go:147 | the .deb name splits at '_' into "go", debVersion and debArch + ".deb" |
| LegacyListing.Links | main.go:214-220 | every listed tarball has an https URL and a version starting with 1-9 |
| LegacyListing.DownloadLinkParses | main.go:217 | a "//" Download link to a tarball gets "https:" and its version |
| LegacyListing.LinksStep | main.go:216-219 | one more link adds its tarball if it parses |
| LegacyListing.Tarballs | main.go:214-225 | the parsed links, permuted and sorted newest first; none is "no downloads at" the downloads page |
| LegacyListing.FromTarballArgs | main.go:67-77 | accepted iff there are four arguments and the name contains version + "."; a wrong count gives the count error, and four arguments with a non-matching name give the mismatch error |
| LegacyListing.TarballNameAccepted | main.go:74-77 | an upstream tarball name passes the check for its own version |
| LegacyListing.ExtendedVersionAccepted | main.go:74-77 | the substring test also accepts "1.2" for go1.2.1 |
| LegacyListing.VersionDotOccurs | main.go:74 | version + "." occurs in a name with the version followed by a dot |

main.go's `actionCommand` (main.go:121-144) and its debName (main.go:160) are
the same as those of cmd/godeb/main.go. `Listing.Select` and
`Listing.DebFileName` cover both. For main.go, Select's `at` argument is
`LegacyListing.DownloadsURL`.

## Left out

- HTTP, the HTML parser and its XPath query, goroutines and channels
  (`tarballs` in cmd/godeb/main.go:190-219), file creation and renaming,
  running `dpkg -i` and `dpkg --purge`, and printing. The model takes the
  hrefs as input and ends at the values the program would write.
- The sort at cmd/godeb/main.go:217 (`sort.Sort(sort.Reverse(tarballSlice(tbs)))`):
  the `tarballSlice` of cmd/godeb is not part of this model, so that sort
  is not modelled. main.go's `sort.Sort` is, through `SortTarballs`.
- The tar, gzip and ar byte encodings and MD5. Archives are sequences of
  header and body records, and the digest is a function parameter. Write
  and close errors of translateTarball's and createControl's writers are
  not modelled: those writers target in-memory buffers.
- Deb.CreateDeb and LegacyDeb.CreateDeb: the ar writer writes to the .deb
  file that `os.Create` opened, and the error returns for those writes
  (cmd/godeb/deb.go:30-43, deb.go:27-40) are not modelled. Once the
  translation succeeds, the model never fails.
- An upstream body that tar cannot copy is `Truncated`. An entry that is
  skipped, or a directory, whose body is cut short reports the next
  `in.Next()` failure (CannotRead). A regular file's reports the copy
  failure (CopyFailed).
- `processTarHeader` is modelled as dropPax, which builds with Go 1.10
  or later install (cmd/godeb/format_go110.go:25-27). Builds before Go 1.9
  keep the identity default (cmd/godeb/deb.go:197), which is not modelled.
  Builds with Go 1.9 fail on purpose (cmd/godeb/format_go19.go).
- TarballSort.SortTarballs: sortedness is proved only when the comparator
  is asymmetric on the input, because `Newer` is not a strict order on all
  strings (NineQuirk). It is an insertion sort, not Go's `sort.Sort`
  algorithm, so for inputs on which the comparator is not a strict weak
  order the resulting order may differ from Go's.
- LegacyListing.Tarballs: the same restriction, since it sorts through
  SortTarballs.
- TarballSort.Less: av and bv are unbounded naturals. Go's `int` would
  wrap on a digit run of more than 18 digits, which no Go version has.
- Listing.ClearScripts: requires every "<script" to have a '>' after it.
  Otherwise the Go loop never ends, or slices `data[-1:]` for a tag at
  offset 0.
- Listing.Select: requires a non-empty list when no version is given. The
  caller guarantees this because `tarballs` fails on an empty list.
- Error message texts are represented by error datatypes. This includes
  main.go's "not availble" misspelling (main.go:133) and the
  `fmt.Println` before the fromtarball error.
- `listCommand` and `removeCommand` only print or run external programs.
  run's help output, its argument errors ("command missing", "unknown
  option", "list command takes no arguments", "too many arguments to %s
  command") and its "unknown command" error (main.go:38-86,
  cmd/godeb/main.go:43-74) are command-line glue and are not modelled;
  only fromtarball's argument checks are.
- Bytes are modelled as chars. Digest bytes are `Text.byte`.
- Text.ToLower and Text.TrimSpace handle ASCII only. Go's `strings.ToLower`
  decodes UTF-8 and can change the byte length, and `strings.TrimSpace` also
  trims U+0085 and U+00A0. installedDebVersion runs dpkg-query with LC_ALL,
  LANG and LANGUAGE set to C (cmd/godeb/deb.go:104-107), so the text it
  trims and lower-cases is ASCII.
