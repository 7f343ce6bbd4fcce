// sort.go: tarballSlice and its Less, the release-version comparator.
//
// "Less" means "newer": sorting ascending with it lists the newest release
// first. The comparator is a scanner over two version strings that compares
// digit runs numerically, lets a '.' continuation beat a tag, and ranks the
// tags "rc" and "beta" above any other tag.

module TarballSort {
  import opened Text

  /** A downloadable release: where it is and which version it holds (main.go's Tarball). */
  datatype Tarball = Tarball(url: string, version: string)

  /** The characters that make up a tag run such as "rc" or "beta". */
  predicate IsTagChar(c: char) {
    c != '.' && !IsAsciiDigit(c)
  }

  /** Length of the digit run that starts `s` (the inner loops of sort.go:22-31). */
  function DigitRunLen(s: string): (n: nat)
    ensures n <= |s|
    ensures AllDigits(s[..n])
    ensures n < |s| ==> !IsAsciiDigit(s[n])
  {
    if s == [] || !IsAsciiDigit(s[0]) then 0
    else
      var n := 1 + DigitRunLen(s[1..]);
      assert s[..n] == [s[0]] + s[1..][..n - 1];
      n
  }

  /** Length of the tag run that starts `s` (the inner loops of sort.go:42-47). */
  function TagRunLen(s: string): (n: nat)
    ensures n <= |s|
    ensures forall k :: 0 <= k < n ==> IsTagChar(s[k])
    ensures n < |s| ==> !IsTagChar(s[n])
  {
    if s == [] || !IsTagChar(s[0]) then 0 else 1 + TagRunLen(s[1..])
  }

  /** Go's `x > y` on strings: byte-wise lexicographic order. */
  predicate LexGreater(x: string, y: string) {
    if y == [] then x != []
    else if x == [] then false
    else if x[0] != y[0] then x[0] > y[0]
    else LexGreater(x[1..], y[1..])
  }

  /**
   * The tie-break once one side has run out (sort.go:63-68): a remainder of
   * `a` that starts with '.' or a digit wins, and so does a remainder of `b`
   * that starts with neither '.' nor a byte in '0'..'8' (the source tests
   * `>= '9'`, so a '9' counts here).
   */
  predicate ExhaustedNewer(a: string, b: string) {
    (a != [] && (a[0] == '.' || IsAsciiDigit(a[0])))
    || (b != [] && b[0] != '.' && (b[0] < '0' || b[0] >= '9'))
  }

  /**
   * tarballSlice.Less on the two versions, stated on the unread suffixes of
   * the scan: true when version `a` is ranked before (newer than) `b`.
   */
  predicate Newer(a: string, b: string)
    decreases |a| + |b|
  {
    if a == [] || b == [] then ExhaustedNewer(a, b)
    else if IsAsciiDigit(a[0]) != IsAsciiDigit(b[0]) then IsAsciiDigit(a[0])
    else if IsAsciiDigit(a[0]) then
      var na, nb := DigitRunLen(a), DigitRunLen(b);
      var av, bv := DigitsValue(a[..na]), DigitsValue(b[..nb]);
      if av != bv then av > bv else Newer(a[na..], b[nb..])
    else if a[0] == '.' && b[0] == '.' then Newer(a[1..], b[1..])
    else if a[0] == '.' || b[0] == '.' then a[0] == '.'
    else
      var ta, tb := TagRunLen(a), TagRunLen(b);
      if TagsDecide(a[..ta], b[..tb]) then TagNewer(a[..ta], b[..tb])
      else Newer(a[ta..], b[tb..])
  }

  /** The tag comparison of sort.go:49-61 settles the order of the versions. */
  predicate TagsDecide(sa: string, sb: string) {
    (sa == "rc") != (sb == "rc") || (sa == "beta") != (sb == "beta")
    || |sa| == 0 || |sb| == 0 || sa != sb
  }

  /**
   * The verdict of that comparison: "rc" beats any other tag, then "beta"
   * does, then a longer run beats an empty one, then byte order decides.
   */
  predicate TagNewer(sa: string, sb: string) {
    if (sa == "rc") != (sb == "rc") then sa == "rc"
    else if (sa == "beta") != (sb == "beta") then sa == "beta"
    else if |sa| == 0 || |sb| == 0 then |sa| > |sb|
    else LexGreater(sa, sb)
  }

  // ---------------------------------------------------------------------
  // The slice and its sort.Interface methods

  /** tarballSlice.Len */
  function Len(tbs: array<Tarball>): nat {
    tbs.Length
  }

  /** tarballSlice.Swap: exchanges two elements in place. */
  method Swap(tbs: array<Tarball>, i: int, j: int)
    requires 0 <= i < tbs.Length && 0 <= j < tbs.Length
    modifies tbs
    ensures tbs[..] == old(tbs[..])[i := old(tbs[j])][j := old(tbs[i])]
    ensures multiset(tbs[..]) == multiset(old(tbs[..]))
  {
    tbs[i], tbs[j] := tbs[j], tbs[i];
  }

  lemma DigitRunIs(s: string, n: nat)
    requires n <= |s| && AllDigits(s[..n])
    requires n < |s| ==> !IsAsciiDigit(s[n])
    ensures DigitRunLen(s) == n
  {
    assert forall k :: 0 <= k < n ==> s[..n][k] == s[k];
    var m := DigitRunLen(s);
    assert forall k :: 0 <= k < m ==> s[..m][k] == s[k];
  }

  lemma TagRunIs(s: string, n: nat)
    requires n <= |s|
    requires forall k :: 0 <= k < n ==> IsTagChar(s[k])
    requires n < |s| ==> !IsTagChar(s[n])
    ensures TagRunLen(s) == n
  {
  }

  /** One digit-run step of the scan, stated on the unread suffixes. */
  lemma NewerDigitStep(a: string, b: string, ai: nat, bi: nat, aj: nat, bj: nat)
    requires ai < |a| && bi < |b| && IsAsciiDigit(a[ai]) && IsAsciiDigit(b[bi])
    requires ai <= aj <= |a| && bi <= bj <= |b|
    requires aj - ai == DigitRunLen(a[ai..]) && bj - bi == DigitRunLen(b[bi..])
    ensures AllDigits(a[ai..aj]) && AllDigits(b[bi..bj])
    ensures Newer(a[ai..], b[bi..]) ==
      if DigitsValue(a[ai..aj]) != DigitsValue(b[bi..bj]) then DigitsValue(a[ai..aj]) > DigitsValue(b[bi..bj])
      else Newer(a[aj..], b[bj..])
  {
    assert a[ai..][..aj - ai] == a[ai..aj] && a[ai..][aj - ai..] == a[aj..];
    assert b[bi..][..bj - bi] == b[bi..bj] && b[bi..][bj - bi..] == b[bj..];
  }

  /** One tag-run step of the scan, stated on the unread suffixes. */
  lemma NewerTagStep(a: string, b: string, ai: nat, bi: nat, aj: nat, bj: nat)
    requires ai < |a| && bi < |b| && IsTagChar(a[ai]) && IsTagChar(b[bi])
    requires ai <= aj <= |a| && bi <= bj <= |b|
    requires aj - ai == TagRunLen(a[ai..]) && bj - bi == TagRunLen(b[bi..])
    ensures Newer(a[ai..], b[bi..]) ==
      if TagsDecide(a[ai..aj], b[bi..bj]) then TagNewer(a[ai..aj], b[bi..bj])
      else Newer(a[aj..], b[bj..])
  {
    assert a[ai..][..aj - ai] == a[ai..aj] && a[ai..][aj - ai..] == a[aj..];
    assert b[bi..][..bj - bi] == b[bi..bj] && b[bi..][bj - bi..] == b[bj..];
  }

  /** A '.' on both sides is skipped. */
  lemma NewerDotStep(a: string, b: string, ai: nat, bi: nat)
    requires ai < |a| && bi < |b| && a[ai] == '.' && b[bi] == '.'
    ensures Newer(a[ai..], b[bi..]) == Newer(a[ai + 1..], b[bi + 1..])
  {
    assert a[ai..][1..] == a[ai + 1..] && b[bi..][1..] == b[bi + 1..];
  }

  /**
   * The digit-run loops of sort.go:22-31: reads the run that starts at `i`
   * and accumulates its value.
   */
  method ScanDigits(s: string, i: nat) returns (j: nat, v: nat)
    requires i <= |s|
    ensures i <= j <= |s| && j - i == DigitRunLen(s[i..])
    ensures AllDigits(s[i..j]) && v == DigitsValue(s[i..j])
  {
    j, v := i, 0;
    while j < |s| && '0' <= s[j] <= '9'
      invariant i <= j <= |s|
      invariant AllDigits(s[i..j])
      invariant v == DigitsValue(s[i..j])
    {
      assert s[i..j + 1] == s[i..j] + [s[j]];
      assert s[i..j + 1][..j - i] == s[i..j];
      v := v * 10;
      v := v + (s[j] as int - '0' as int);
      j := j + 1;
    }
    assert s[i..][..j - i] == s[i..j];
    DigitRunIs(s[i..], j - i);
  }

  /** The tag-run loops of sort.go:42-47: skips the run that starts at `i`. */
  method ScanTag(s: string, i: nat) returns (j: nat)
    requires i <= |s|
    ensures i <= j <= |s| && j - i == TagRunLen(s[i..])
  {
    j := i;
    while j < |s| && s[j] != '.' && (s[j] < '0' || s[j] > '9')
      invariant i <= j <= |s|
      invariant forall k :: i <= k < j ==> IsTagChar(s[k])
    {
      j := j + 1;
    }
    TagRunIs(s[i..], j - i);
  }

  /** The tag comparison of sort.go:49-61 on two tag runs. */
  method CompareTags(aTag: string, bTag: string) returns (decided: bool, r: bool)
    ensures decided == TagsDecide(aTag, bTag)
    ensures decided ==> r == TagNewer(aTag, bTag)
  {
    var tags := ["rc", "beta"];
    assert tags[0] == "rc" && tags[1] == "beta";
    for k := 0 to |tags|
      invariant forall m :: 0 <= m < k ==> (aTag == tags[m]) == (bTag == tags[m])
    {
      if (aTag == tags[k]) != (bTag == tags[k]) {
        assert k == 1 ==> (aTag == "rc") == (bTag == "rc");
        return true, aTag == tags[k];
      }
    }
    if |aTag| == 0 || |bTag| == 0 {
      return true, |aTag| > |bTag|;
    }
    if aTag != bTag {
      return true, LexGreater(aTag, bTag);
    }
    return false, false;
  }

  /** Where one section of the scan leaves it: settled, or resuming at new positions. */
  datatype Scan = Settled(newer: bool) | Resume(ai: nat, bi: nat)

  /** A section's outcome agrees with Newer on the suffixes it started from, and progresses. */
  predicate SectionSound(a: string, b: string, ai: nat, bi: nat, s: Scan)
    requires ai <= |a| && bi <= |b|
  {
    match s
    case Settled(newer) => newer == Newer(a[ai..], b[bi..])
    case Resume(aj, bj) =>
      ai < aj <= |a| && bi < bj <= |b| && Newer(a[ai..], b[bi..]) == Newer(a[aj..], b[bj..])
  }

  /** The digit section of the scan (sort.go:20-37): compares the values of two digit runs. */
  method DigitSection(a: string, b: string, ai: nat, bi: nat) returns (s: Scan)
    requires ai < |a| && bi < |b| && IsAsciiDigit(a[ai]) && IsAsciiDigit(b[bi])
    ensures SectionSound(a, b, ai, bi, s)
  {
    var aj, av := ScanDigits(a, ai);
    var bj, bv := ScanDigits(b, bi);
    NewerDigitStep(a, b, ai, bi, aj, bj);
    if av != bv {
      return Settled(av > bv);
    }
    return Resume(aj, bj);
  }

  /** The tag section of the scan (sort.go:40-61): compares two tag runs. */
  method TagSection(a: string, b: string, ai: nat, bi: nat) returns (s: Scan)
    requires ai < |a| && bi < |b| && IsTagChar(a[ai]) && IsTagChar(b[bi])
    ensures SectionSound(a, b, ai, bi, s)
  {
    var aj := ScanTag(a, ai);
    var bj := ScanTag(b, bi);
    NewerTagStep(a, b, ai, bi, aj, bj);
    var decided, verdict := CompareTags(a[ai..aj], b[bi..bj]);
    if decided {
      return Settled(verdict);
    }
    return Resume(aj, bj);
  }

  /** tarballSlice.Less: the scan of sort.go:11-70 over the two versions. */
  method Less(tbs: array<Tarball>, i: int, j: int) returns (r: bool)
    requires 0 <= i < tbs.Length && 0 <= j < tbs.Length
    ensures r == Newer(tbs[i].version, tbs[j].version)
  {
    var a, b := tbs[i].version, tbs[j].version;
    var ai, bi := 0, 0;
    assert a[ai..] == a && b[bi..] == b;
    ghost var goal := Newer(a, b);
    while ai < |a| && bi < |b|
      invariant 0 <= ai <= |a| && 0 <= bi <= |b|
      invariant goal == Newer(a[ai..], b[bi..])
      decreases |a| - ai + |b| - bi
    {
      var aIsDigit := '0' <= a[ai] <= '9';
      var bIsDigit := '0' <= b[bi] <= '9';
      if aIsDigit != bIsDigit {
        return aIsDigit;
      }
      var section: Scan;
      if aIsDigit {
        section := DigitSection(a, b, ai, bi);
      } else if a[ai] == '.' && b[bi] == '.' {
        NewerDotStep(a, b, ai, bi);
        section := Resume(ai + 1, bi + 1);
      } else if a[ai] == '.' || b[bi] == '.' {
        return a[ai] == '.';
      } else {
        section := TagSection(a, b, ai, bi);
      }
      if section.Settled? {
        return section.newer;
      }
      ai, bi := section.ai, section.bi;
    }
    if ai < |a| && (a[ai] == '.' || '0' <= a[ai] <= '9') {
      return true;
    }
    if bi < |b| && b[bi] != '.' && (b[bi] < '0' || b[bi] >= '9') {
      return true;
    }
    return false;
  }

  // ---------------------------------------------------------------------
  // What the comparator does, one section at a time

  /** Digit runs are compared as numbers; equal runs let the scan go on (sort.go:20-37). */
  lemma NewerDigitRuns(x: string, y: string, r1: string, r2: string)
    requires x != [] && y != [] && AllDigits(x) && AllDigits(y)
    requires r1 == [] || !IsAsciiDigit(r1[0])
    requires r2 == [] || !IsAsciiDigit(r2[0])
    ensures Newer(x + r1, y + r2) ==
      if DigitsValue(x) != DigitsValue(y) then DigitsValue(x) > DigitsValue(y) else Newer(r1, r2)
  {
    var a, b := x + r1, y + r2;
    assert a[..|x|] == x && a[|x|..] == r1;
    assert b[..|y|] == y && b[|y|..] == r2;
    DigitRunIs(a, |x|);
    DigitRunIs(b, |y|);
  }

  /** When exactly one side is at a digit, that side is newer (sort.go:15-19). */
  lemma NewerDigitAgainstOther(a: string, b: string)
    requires a != [] && b != [] && IsAsciiDigit(a[0]) && !IsAsciiDigit(b[0])
    ensures Newer(a, b) && !Newer(b, a)
  {
  }

  /** A '.' on both sides is skipped together (sort.go:35-36). */
  lemma NewerDots(r1: string, r2: string)
    ensures Newer(['.'] + r1, ['.'] + r2) == Newer(r1, r2)
  {
    assert (['.'] + r1)[1..] == r1 && (['.'] + r2)[1..] == r2;
  }

  /** A '.' against a tag: the '.' side is newer, so "1.1.2" beats "1.1rc2" (sort.go:37-39). */
  lemma NewerDotAgainstTag(a: string, b: string)
    requires a != [] && b != [] && a[0] == '.' && IsTagChar(b[0])
    ensures Newer(a, b) && !Newer(b, a)
  {
  }

  /** Equal tag runs let the scan go on past them (sort.go:49-61). */
  lemma NewerSameTag(t: string, r1: string, r2: string)
    requires t != [] && forall k :: 0 <= k < |t| ==> IsTagChar(t[k])
    requires r1 == [] || !IsTagChar(r1[0])
    requires r2 == [] || !IsTagChar(r2[0])
    ensures Newer(t + r1, t + r2) == Newer(r1, r2)
  {
    var a, b := t + r1, t + r2;
    assert a[..|t|] == t && a[|t|..] == r1;
    assert b[..|t|] == t && b[|t|..] == r2;
    TagRunIs(a, |t|);
    TagRunIs(b, |t|);
  }

  /**
   * Different tag runs settle the order: "rc" on one side only wins, then
   * "beta" on one side only, then the byte-wise greater tag (sort.go:49-60).
   */
  lemma NewerTags(t1: string, t2: string, r1: string, r2: string)
    requires t1 != [] && forall k :: 0 <= k < |t1| ==> IsTagChar(t1[k])
    requires t2 != [] && forall k :: 0 <= k < |t2| ==> IsTagChar(t2[k])
    requires r1 == [] || !IsTagChar(r1[0])
    requires r2 == [] || !IsTagChar(r2[0])
    requires t1 != t2
    ensures Newer(t1 + r1, t2 + r2) ==
      if (t1 == "rc") != (t2 == "rc") then t1 == "rc"
      else if (t1 == "beta") != (t2 == "beta") then t1 == "beta"
      else LexGreater(t1, t2)
  {
    var a, b := t1 + r1, t2 + r2;
    assert a[..|t1|] == t1 && a[|t1|..] == r1;
    assert b[..|t2|] == t2 && b[|t2|..] == r2;
    TagRunIs(a, |t1|);
    TagRunIs(b, |t2|);
  }

  /**
   * The `len(as) == 0 || len(bs) == 0` test of sort.go:55 never decides
   * anything: the scan enters the tag section only at a tag byte on both
   * sides, so both runs are non-empty.
   */
  lemma TagRunsNonEmpty(a: string, b: string)
    requires a != [] && b != [] && IsTagChar(a[0]) && IsTagChar(b[0])
    ensures TagRunLen(a) > 0 && TagRunLen(b) > 0
    ensures TagsDecide(a[..TagRunLen(a)], b[..TagRunLen(b)])
      <==> a[..TagRunLen(a)] != b[..TagRunLen(b)]
  {
  }

  lemma {:induction false} LexGreaterIrreflexive(x: string)
    ensures !LexGreater(x, x)
  {
    if x != [] {
      LexGreaterIrreflexive(x[1..]);
    }
  }

  /** No version is newer than itself: both scans run out together (sort.go:14-69). */
  lemma {:induction false} NewerIrreflexive(v: string)
    ensures !Newer(v, v)
    decreases |v|
  {
    if v != [] {
      if IsAsciiDigit(v[0]) {
        var n := DigitRunLen(v);
        NewerIrreflexive(v[n..]);
      } else if v[0] == '.' {
        NewerIrreflexive(v[1..]);
      } else {
        var n := TagRunLen(v);
        NewerIrreflexive(v[n..]);
      }
    }
  }

  /**
   * The tie-break once a side has run out, as written (sort.go:63-68): "1."
   * against "1.9" and "1.9" against "1." both come out newer, because the
   * test on the remainder of `b` is `>= '9'` where `> '9'` would exclude
   * every digit; against "1.8" the same "1." is not newer.
   */
  lemma NineQuirk()
    ensures Newer("1.", "1.9") && Newer("1.9", "1.")
    ensures !Newer("1.", "1.8")
  {
    NewerDigitRuns("1", "1", ".", ".9");
    NewerDots([], ['9']);
    NewerDigitRuns("1", "1", ".", ".8");
    NewerDots([], ['8']);
    NewerDigitRuns("1", "1", ".9", ".");
    NewerDots(['9'], []);
  }

  /** Numbers, not text: "1.10" is newer than "1.9" (sort.go:21-34). */
  lemma TenBeatsNine()
    ensures Newer("1.10", "1.9") && !Newer("1.9", "1.10")
  {
    NewerDigitRuns("1", "1", ".10", ".9");
    NewerDots("10", "9");
    NewerDigitRuns("10", "9", [], []);
    NewerDigitRuns("1", "1", ".9", ".10");
    NewerDots("9", "10");
    NewerDigitRuns("9", "10", [], []);
  }

  // ---------------------------------------------------------------------
  // The order on Go release versions

  /** What follows "major.minor" in a Go release version. */
  datatype Channel = Final | Point(n: nat) | Rc(n: nat) | Beta(n: nat)

  /** A Go release version "major.minor" followed by its channel, e.g. 1.1beta2 or 1.0.3. */
  datatype Release = Release(major: nat, minor: nat, channel: Channel)

  function ChannelText(c: Channel): string {
    match c
    case Final => ""
    case Point(n) => "." + Decimal(n)
    case Rc(n) => "rc" + Decimal(n)
    case Beta(n) => "beta" + Decimal(n)
  }

  function ReleaseText(r: Release): string {
    Decimal(r.major) + ("." + (Decimal(r.minor) + ChannelText(r.channel)))
  }

  /** Point releases come after the final release, which comes after its rcs, then betas. */
  function Rank(c: Channel): nat {
    match c
    case Point(_) => 3
    case Final => 2
    case Rc(_) => 1
    case Beta(_) => 0
  }

  predicate ChannelAbove(c1: Channel, c2: Channel) {
    if Rank(c1) != Rank(c2) then Rank(c1) > Rank(c2)
    else !c1.Final? && c1.n > c2.n
  }

  /** Release `x` is a later release than `y`. */
  predicate ReleaseAbove(x: Release, y: Release) {
    if x.major != y.major then x.major > y.major
    else if x.minor != y.minor then x.minor > y.minor
    else ChannelAbove(x.channel, y.channel)
  }

  /** Two numbers after a dot compare numerically. */
  lemma NewerOnDotNumbers(n: nat, m: nat)
    ensures Newer("." + Decimal(n), "." + Decimal(m)) == (n > m)
  {
    NewerDots(Decimal(n), Decimal(m));
    NewerDigitRuns(Decimal(n), Decimal(m), [], []);
    assert Decimal(n) + [] == Decimal(n) && Decimal(m) + [] == Decimal(m);
    NewerIrreflexive([]);
  }

  /** Two numbers after the same tag compare numerically. */
  lemma NewerOnTagNumbers(tag: string, n: nat, m: nat)
    requires tag == "rc" || tag == "beta"
    ensures Newer(tag + Decimal(n), tag + Decimal(m)) == (n > m)
  {
    NewerSameTag(tag, Decimal(n), Decimal(m));
    NewerDigitRuns(Decimal(n), Decimal(m), [], []);
    assert Decimal(n) + [] == Decimal(n) && Decimal(m) + [] == Decimal(m);
    NewerIrreflexive([]);
  }

  /** A channel's text never starts with a digit. */
  lemma ChannelTextStart(c: Channel)
    ensures ChannelText(c) == [] || !IsAsciiDigit(ChannelText(c)[0])
  {
  }

  lemma NewerOnChannels(c1: Channel, c2: Channel)
    ensures Newer(ChannelText(c1), ChannelText(c2)) == ChannelAbove(c1, c2)
  {
    match (c1, c2)
    case (Point(n), Point(m)) =>
      NewerOnDotNumbers(n, m);
    case (Rc(n), Rc(m)) =>
      NewerOnTagNumbers("rc", n, m);
    case (Beta(n), Beta(m)) =>
      NewerOnTagNumbers("beta", n, m);
    case (Rc(n), Beta(m)) =>
      NewerTags("rc", "beta", Decimal(n), Decimal(m));
    case (Beta(n), Rc(m)) =>
      NewerTags("beta", "rc", Decimal(n), Decimal(m));
    case (Point(n), Rc(m)) =>
      NewerDotAgainstTag(ChannelText(c1), ChannelText(c2));
    case (Point(n), Beta(m)) =>
      NewerDotAgainstTag(ChannelText(c1), ChannelText(c2));
    case (Rc(n), Point(m)) =>
      NewerDotAgainstTag(ChannelText(c2), ChannelText(c1));
    case (Beta(n), Point(m)) =>
      NewerDotAgainstTag(ChannelText(c2), ChannelText(c1));
    case _ =>
  }

  /**
   * On release versions the comparator is the release order: major, then
   * minor numerically, then point > final > rc > beta, then the channel's
   * number (sort.go:11-70).
   */
  lemma NewerOnReleases(x: Release, y: Release)
    ensures Newer(ReleaseText(x), ReleaseText(y)) == ReleaseAbove(x, y)
  {
    var cx, cy := ChannelText(x.channel), ChannelText(y.channel);
    var tx, ty := Decimal(x.minor) + cx, Decimal(y.minor) + cy;
    ChannelTextStart(x.channel);
    ChannelTextStart(y.channel);
    assert ("." + tx)[0] == '.' && ("." + ty)[0] == '.';
    NewerDigitRuns(Decimal(x.major), Decimal(y.major), "." + tx, "." + ty);
    NewerDots(tx, ty);
    NewerDigitRuns(Decimal(x.minor), Decimal(y.minor), cx, cy);
    NewerOnChannels(x.channel, y.channel);
  }

  // ---------------------------------------------------------------------
  // The reference order of sort_test.go

  /** The versions of sort_test.go:23-41, newest first. */
  const ReferenceVersions: seq<string> := [
    "1.2", "1.2rc5", "1.2rc4", "1.2rc3", "1.2rc2", "1.2rc1",
    "1.1.2", "1.1.1", "1.1", "1.1rc3", "1.1rc2", "1.1rc1", "1.1beta2", "1.1beta1",
    "1.0.3", "1.0.2", "1.0.1"
  ]

  const ReferenceReleases: seq<Release> := [
    Release(1, 2, Final), Release(1, 2, Rc(5)), Release(1, 2, Rc(4)), Release(1, 2, Rc(3)),
    Release(1, 2, Rc(2)), Release(1, 2, Rc(1)),
    Release(1, 1, Point(2)), Release(1, 1, Point(1)), Release(1, 1, Final),
    Release(1, 1, Rc(3)), Release(1, 1, Rc(2)), Release(1, 1, Rc(1)),
    Release(1, 1, Beta(2)), Release(1, 1, Beta(1)),
    Release(1, 0, Point(3)), Release(1, 0, Point(2)), Release(1, 0, Point(1))
  ]

  lemma ReferenceTexts()
    ensures |ReferenceReleases| == |ReferenceVersions|
    ensures forall k :: 0 <= k < |ReferenceVersions| ==> ReleaseText(ReferenceReleases[k]) == ReferenceVersions[k]
  {
    ReferenceTextsGo12();
    ReferenceTextsGo11Points();
    ReferenceTextsGo11Pre();
    ReferenceTextsGo10();
  }

  lemma SmallDecimals()
    ensures Decimal(0) == "0" && Decimal(1) == "1" && Decimal(2) == "2"
    ensures Decimal(3) == "3" && Decimal(4) == "4" && Decimal(5) == "5"
  {
  }

  lemma ReferenceTextsGo12()
    ensures forall k :: 0 <= k < 6 ==> ReleaseText(ReferenceReleases[k]) == ReferenceVersions[k]
  {
    SmallDecimals();
    assert ReleaseText(Release(1, 2, Final)) == "1.2";
    assert ReleaseText(Release(1, 2, Rc(5))) == "1.2rc5";
    assert ReleaseText(Release(1, 2, Rc(4))) == "1.2rc4";
    assert ReleaseText(Release(1, 2, Rc(3))) == "1.2rc3";
    assert ReleaseText(Release(1, 2, Rc(2))) == "1.2rc2";
    assert ReleaseText(Release(1, 2, Rc(1))) == "1.2rc1";
  }

  lemma ReferenceTextsGo11Points()
    ensures forall k :: 6 <= k < 9 ==> ReleaseText(ReferenceReleases[k]) == ReferenceVersions[k]
  {
    SmallDecimals();
    assert ReleaseText(Release(1, 1, Point(2))) == "1.1.2";
    assert ReleaseText(Release(1, 1, Point(1))) == "1.1.1";
    assert ReleaseText(Release(1, 1, Final)) == "1.1";
  }

  lemma ReferenceTextsGo11Pre()
    ensures forall k :: 9 <= k < 14 ==> ReleaseText(ReferenceReleases[k]) == ReferenceVersions[k]
  {
    SmallDecimals();
    assert ReleaseText(Release(1, 1, Rc(3))) == "1.1rc3";
    assert ReleaseText(Release(1, 1, Rc(2))) == "1.1rc2";
    assert ReleaseText(Release(1, 1, Rc(1))) == "1.1rc1";
    assert ReleaseText(Release(1, 1, Beta(2))) == "1.1beta2";
    assert ReleaseText(Release(1, 1, Beta(1))) == "1.1beta1";
  }

  lemma ReferenceTextsGo10()
    ensures forall k :: 14 <= k < 17 ==> ReleaseText(ReferenceReleases[k]) == ReferenceVersions[k]
  {
    SmallDecimals();
    assert ReleaseText(Release(1, 0, Point(3))) == "1.0.3";
    assert ReleaseText(Release(1, 0, Point(2))) == "1.0.2";
    assert ReleaseText(Release(1, 0, Point(1))) == "1.0.1";
  }

  lemma ReleaseAboveTransitive(x: Release, y: Release, z: Release)
    requires ReleaseAbove(x, y) && ReleaseAbove(y, z)
    ensures ReleaseAbove(x, z)
  {
  }

  lemma {:induction false} ChainRanked(rs: seq<Release>, i: nat, j: nat)
    requires forall k :: 0 < k < |rs| ==> ReleaseAbove(rs[k - 1], rs[k])
    requires i < j < |rs|
    ensures ReleaseAbove(rs[i], rs[j])
    decreases j - i
  {
    if i + 1 < j {
      ChainRanked(rs, i + 1, j);
      ReleaseAboveTransitive(rs[i], rs[i + 1], rs[j]);
    }
  }

  /**
   * The comparator ranks the reference versions exactly as listed: one is
   * newer than another iff it comes first (sort_test.go:23-41).
   */
  lemma ReferenceRanked()
    ensures Ranked(ReferenceVersions)
  {
    ReferenceTexts();
    ReferenceChain();
    RankedFromChain(ReferenceReleases, ReferenceVersions);
  }

  lemma ReferenceChain()
    ensures forall k :: 0 < k < |ReferenceReleases| ==> ReleaseAbove(ReferenceReleases[k - 1], ReferenceReleases[k])
  {
  }

  /** Release texts listed in strictly descending release order are ranked by the comparator. */
  lemma RankedFromChain(rs: seq<Release>, vs: seq<string>)
    requires |rs| == |vs| && forall k :: 0 <= k < |vs| ==> ReleaseText(rs[k]) == vs[k]
    requires forall k :: 0 < k < |rs| ==> ReleaseAbove(rs[k - 1], rs[k])
    ensures Ranked(vs)
  {
    forall i, j | 0 <= i < |vs| && 0 <= j < |vs|
      ensures Newer(vs[i], vs[j]) <==> i < j
    {
      NewerOnReleases(rs[i], rs[j]);
      if i < j {
        ChainRanked(rs, i, j);
      } else if j < i {
        ChainRanked(rs, j, i);
      }
    }
  }

  // ---------------------------------------------------------------------
  // Sorting with the comparator

  function Versions(s: seq<Tarball>): (vs: seq<string>)
    ensures |vs| == |s| && forall k :: 0 <= k < |s| ==> vs[k] == s[k].version
  {
    seq(|s|, k requires 0 <= k < |s| => s[k].version)
  }

  /** sort.IsSorted: no element is newer than the one just before it, between lo and hi. */
  predicate SortedBetween(s: seq<Tarball>, lo: int, hi: int)
    requires 0 <= lo <= hi <= |s|
  {
    forall k :: lo < k < hi ==> !Newer(s[k].version, s[k - 1].version)
  }

  predicate Sorted(s: seq<Tarball>) {
    SortedBetween(s, 0, |s|)
  }

  /**
   * The comparator is a strict order on these tarballs' versions as far as
   * asymmetry goes; it is not on every pair of strings (see NineQuirk).
   */
  predicate Asymmetric(s: seq<Tarball>) {
    forall x, y :: x in s && y in s && Newer(x.version, y.version) ==> !Newer(y.version, x.version)
  }

  /**
   * Insertion sort by adjacent swaps, standing in for sort.Sort on a
   * tarballSlice: afterwards the slice is a permutation of what it held and
   * no tarball is newer than its predecessor, i.e. newest first.
   */
  method SortTarballs(tbs: array<Tarball>)
    modifies tbs
    ensures multiset(tbs[..]) == multiset(old(tbs[..]))
    ensures Asymmetric(old(tbs[..])) ==> Sorted(tbs[..])
  {
    ghost var asym := Asymmetric(tbs[..]);
    var i := 0;
    while i < tbs.Length
      invariant 0 <= i <= tbs.Length
      invariant multiset(tbs[..]) == multiset(old(tbs[..]))
      invariant asym ==> SortedBetween(tbs[..], 0, i)
    {
      SameElements(tbs[..], old(tbs[..]));
      InsertAt(tbs, i, asym);
      i := i + 1;
    }
  }

  /** Tarballs with the same elements are asymmetric together. */
  lemma SameElements(s: seq<Tarball>, t: seq<Tarball>)
    requires multiset(s) == multiset(t)
    ensures Asymmetric(s) == Asymmetric(t)
  {
    forall x ensures x in s <==> x in t {
      assert x in s <==> x in multiset(s);
    }
  }

  /**
   * The state of one insertion pass: the element that started at i is at j,
   * newer than everything after it up to i, and, for an asymmetric
   * comparator, the rest of the prefix is in order around it.
   */
  predicate Inserting(s: seq<Tarball>, i: int, j: int, asym: bool)
    requires 0 <= j <= i < |s|
  {
    && (asym ==> SortedBetween(s, 0, j) && SortedBetween(s, j + 1, i + 1)
                 && (0 < j < i ==> !Newer(s[j + 1].version, s[j - 1].version)))
    && (j < i ==> Newer(s[j].version, s[j + 1].version))
  }

  lemma InsertingStep(s: seq<Tarball>, i: int, j: int, asym: bool)
    requires 0 < j <= i < |s| && Inserting(s, i, j, asym)
    requires Newer(s[j].version, s[j - 1].version)
    ensures Inserting(s[j := s[j - 1]][j - 1 := s[j]], i, j - 1, asym)
  {
  }

  lemma InsertingDone(s: seq<Tarball>, i: int, j: int, asym: bool)
    requires 0 <= j <= i < |s| && Inserting(s, i, j, asym)
    requires asym ==> Asymmetric(s)
    requires j > 0 ==> !Newer(s[j].version, s[j - 1].version)
    ensures asym ==> SortedBetween(s, 0, i + 1)
  {
    if asym && j < i {
      AsymmetricAt(s, j, j + 1);
    }
  }

  lemma AsymmetricAt(s: seq<Tarball>, a: int, b: int)
    requires Asymmetric(s) && 0 <= a < |s| && 0 <= b < |s|
    requires Newer(s[a].version, s[b].version)
    ensures !Newer(s[b].version, s[a].version)
  {
    assert s[a] in s && s[b] in s;
  }

  /**
   * One pass of the insertion sort: moves tbs[i] down past every newer
   * predecessor, so a sorted prefix of length i becomes one of length i + 1.
   */
  method InsertAt(tbs: array<Tarball>, i: int, ghost asym: bool)
    requires 0 <= i < tbs.Length
    requires asym ==> Asymmetric(tbs[..]) && SortedBetween(tbs[..], 0, i)
    modifies tbs
    ensures multiset(tbs[..]) == multiset(old(tbs[..]))
    ensures asym ==> SortedBetween(tbs[..], 0, i + 1)
  {
    var j := i;
    while j > 0
      invariant 0 <= j <= i
      invariant multiset(tbs[..]) == multiset(old(tbs[..]))
      invariant Inserting(tbs[..], i, j, asym)
    {
      var newer := Less(tbs, j, j - 1);
      if !newer {
        break;
      }
      InsertingStep(tbs[..], i, j, asym);
      Swap(tbs, j, j - 1);
      j := j - 1;
    }
    SameElements(tbs[..], old(tbs[..]));
    InsertingDone(tbs[..], i, j, asym);
  }

  /** Versions listed so that none is newer than the one before it. */
  predicate NewestFirst(vs: seq<string>) {
    forall k :: 0 < k < |vs| ==> !Newer(vs[k], vs[k - 1])
  }

  /** The comparator puts `r` in exactly this order: one is newer than another iff it comes first. */
  predicate Ranked(r: seq<string>) {
    forall i, j :: 0 <= i < |r| && 0 <= j < |r| ==> (Newer(r[i], r[j]) <==> i < j)
  }

  lemma RankedDistinct(r: seq<string>, i: int, j: int)
    requires Ranked(r) && 0 <= i < |r| && 0 <= j < |r| && r[i] == r[j]
    ensures i == j
  {
    assert Newer(r[i], r[j]) == Newer(r[j], r[i]);
  }

  /**
   * Along a newest-first list drawn from a ranked `r` and starting at r[m],
   * no element is one of r[..m].
   */
  lemma {:induction false} RankFloor(vs: seq<string>, r: seq<string>, m: nat, k: nat)
    requires Ranked(r) && NewestFirst(vs)
    requires forall x :: x in vs ==> x in r
    requires m < |r| && k < |vs| && vs[0] == r[m]
    ensures forall p :: 0 <= p < m ==> vs[k] != r[p]
  {
    if k == 0 {
      forall p | 0 <= p < m ensures vs[0] != r[p] {
        if vs[0] == r[p] {
          RankedDistinct(r, p, m);
        }
      }
    } else {
      RankFloor(vs, r, m, k - 1);
      assert vs[k - 1] in vs && vs[k] in vs;
      var q :| 0 <= q < |r| && r[q] == vs[k - 1];
      var q' :| 0 <= q' < |r| && r[q'] == vs[k];
      assert q >= m;
      assert !Newer(vs[k], vs[k - 1]);
      assert q' >= q;
      forall p | 0 <= p < m ensures vs[k] != r[p] {
        if vs[k] == r[p] {
          RankedDistinct(r, p, q');
        }
      }
    }
  }

  lemma RankedTail(r: seq<string>)
    requires Ranked(r) && r != []
    ensures Ranked(r[1..])
  {
    forall i, j | 0 <= i < |r| - 1 && 0 <= j < |r| - 1
      ensures Newer(r[1..][i], r[1..][j]) <==> i < j
    {
      assert r[1..][i] == r[i + 1] && r[1..][j] == r[j + 1];
    }
  }

  /** The head of a newest-first permutation of a ranked list is the list's head. */
  lemma RankedHead(vs: seq<string>, r: seq<string>)
    requires Ranked(r) && NewestFirst(vs) && multiset(vs) == multiset(r) && r != []
    ensures vs != [] && vs[0] == r[0]
  {
    assert |vs| == |multiset(vs)| == |multiset(r)| == |r|;
    assert forall x :: x in vs ==> x in r by {
      forall x | x in vs ensures x in r {
        assert x in multiset(vs);
      }
    }
    assert vs[0] in vs;
    var m :| 0 <= m < |r| && r[m] == vs[0];
    if m != 0 {
      assert r[0] in multiset(vs);
      var k :| 0 <= k < |vs| && vs[k] == r[0];
      RankFloor(vs, r, m, k);
      assert false;
    }
  }

  /** Two permutations of each other with the same head have permuted tails. */
  lemma TailsPermuted(vs: seq<string>, r: seq<string>)
    requires multiset(vs) == multiset(r) && vs != [] && r != [] && vs[0] == r[0]
    ensures multiset(vs[1..]) == multiset(r[1..])
  {
    assert vs == [vs[0]] + vs[1..] && r == [r[0]] + r[1..];
    assert multiset(vs[1..]) == multiset(vs) - multiset{vs[0]};
    assert multiset(r[1..]) == multiset(r) - multiset{r[0]};
  }

  /** A newest-first permutation of a ranked list is that list. */
  lemma {:induction false} RankedUnique(vs: seq<string>, r: seq<string>)
    requires Ranked(r) && NewestFirst(vs) && multiset(vs) == multiset(r)
    ensures vs == r
    decreases |r|
  {
    if r == [] {
      assert |vs| == |multiset(vs)| == 0;
    } else {
      RankedHead(vs, r);
      TailsPermuted(vs, r);
      RankedTail(r);
      RankedUnique(vs[1..], r[1..]);
    }
  }

  lemma VersionsDrawnFrom(s: seq<Tarball>, r: seq<string>)
    requires multiset(Versions(s)) == multiset(r)
    ensures forall k :: 0 <= k < |s| ==> s[k].version in r
  {
    forall k | 0 <= k < |s| ensures s[k].version in r {
      assert Versions(s)[k] == s[k].version;
      assert s[k].version in multiset(Versions(s));
    }
  }

  /** Tarballs whose versions are drawn from a ranked list are asymmetric. */
  lemma RankedAsymmetric(s: seq<Tarball>, r: seq<string>)
    requires Ranked(r) && forall k :: 0 <= k < |s| ==> s[k].version in r
    ensures Asymmetric(s)
  {
    forall x, y | x in s && y in s && Newer(x.version, y.version)
      ensures !Newer(y.version, x.version)
    {
      var i :| 0 <= i < |s| && s[i] == x;
      var j :| 0 <= j < |s| && s[j] == y;
      var p :| 0 <= p < |r| && r[p] == x.version;
      var q :| 0 <= q < |r| && r[q] == y.version;
    }
  }

  lemma VersionsAppend(a: seq<Tarball>, b: seq<Tarball>)
    ensures Versions(a + b) == Versions(a) + Versions(b)
  {
  }

  /** Taking the first element out of s and its copy out of t leaves permutations of each other. */
  lemma RestPermutes(s: seq<Tarball>, t: seq<Tarball>, k: int)
    requires multiset(s) == multiset(t) && s != [] && 0 <= k < |t| && t[k] == s[0]
    ensures t == t[..k] + [s[0]] + t[k + 1..]
    ensures multiset(s[1..]) == multiset(t[..k] + t[k + 1..])
  {
    var front, back := t[..k], t[k + 1..];
    assert t == front + [s[0]] + back;
    assert s == [s[0]] + s[1..];
    assert multiset(t) == multiset(front) + multiset{s[0]} + multiset(back);
    assert multiset(s) == multiset{s[0]} + multiset(s[1..]);
    calc {
      multiset(s[1..]);
      multiset(s) - multiset{s[0]};
      multiset(t) - multiset{s[0]};
      (multiset(front) + multiset(back) + multiset{s[0]}) - multiset{s[0]};
      multiset(front) + multiset(back);
      multiset(front + back);
    }
  }

  /** Permuting tarballs permutes their versions. */
  lemma {:induction false} VersionsPermute(s: seq<Tarball>, t: seq<Tarball>)
    requires multiset(s) == multiset(t)
    ensures multiset(Versions(s)) == multiset(Versions(t))
    decreases |s|
  {
    if s == [] {
      assert |t| == |multiset(t)| == 0;
    } else {
      assert s[0] in multiset(t);
      var k :| 0 <= k < |t| && t[k] == s[0];
      var front, back := t[..k], t[k + 1..];
      var first := Versions([s[0]]);
      RestPermutes(s, t, k);
      calc {
        multiset(Versions(t));
        { VersionsAppend(front + [s[0]], back); VersionsAppend(front, [s[0]]); }
        multiset(Versions(front) + first + Versions(back));
        multiset(Versions(front) + Versions(back)) + multiset(first);
        { VersionsAppend(front, back); }
        multiset(Versions(front + back)) + multiset(first);
        { VersionsPermute(s[1..], front + back); }
        multiset(Versions(s[1..])) + multiset(first);
        { assert s == [s[0]] + s[1..]; VersionsAppend([s[0]], s[1..]); }
        multiset(Versions(s));
      }
    }
  }

  lemma SortedNewestFirst(s: seq<Tarball>)
    requires Sorted(s)
    ensures NewestFirst(Versions(s))
  {
  }

  /** Sorting any permutation of a ranked list of versions yields that list. */
  method SortRanked(tbs: array<Tarball>, r: seq<string>)
    requires Ranked(r) && multiset(Versions(tbs[..])) == multiset(r)
    modifies tbs
    ensures Versions(tbs[..]) == r
  {
    VersionsDrawnFrom(tbs[..], r);
    RankedAsymmetric(tbs[..], r);
    ghost var before := tbs[..];
    SortTarballs(tbs);
    VersionsPermute(before, tbs[..]);
    SortedNewestFirst(tbs[..]);
    RankedUnique(Versions(tbs[..]), r);
  }

  /**
   * sort_test.go:43-55: whatever order the 17 reference versions come in,
   * sorting them with the comparator lists them exactly as in sort_test.go:23-41.
   */
  method SortReference(tbs: array<Tarball>)
    requires multiset(Versions(tbs[..])) == multiset(ReferenceVersions)
    modifies tbs
    ensures Versions(tbs[..]) == ReferenceVersions
  {
    ReferenceRanked();
    SortRanked(tbs, ReferenceVersions);
  }
}
