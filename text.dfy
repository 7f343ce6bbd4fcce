// String and byte helpers standing in for the parts of Go's strings, bytes,
// path and fmt packages that godeb relies on.
//
// A Go string is a sequence of bytes; here it is a `string` whose every char
// stands for one byte (no UTF-8 decoding). Digest bytes are `byte` values.

module Text {

  datatype Option<T> = None | Some(value: T)

  datatype Result<T, E> = Ok(value: T) | Err(error: E)

  /** One byte of an MD5 digest. */
  type byte = b: int | 0 <= b < 256

  predicate IsAsciiDigit(c: char) {
    '0' <= c <= '9'
  }

  predicate AllDigits(s: string) {
    forall k :: 0 <= k < |s| ==> IsAsciiDigit(s[k])
  }

  /** strings.HasPrefix */
  predicate HasPrefix<T(==)>(s: seq<T>, prefix: seq<T>) {
    |prefix| <= |s| && s[..|prefix|] == prefix
  }

  /** strings.HasSuffix */
  predicate HasSuffix<T(==)>(s: seq<T>, suffix: seq<T>) {
    |suffix| <= |s| && s[|s| - |suffix|..] == suffix
  }

  /** `sub` starts at offset `k` of `s`. */
  predicate OccursAt<T(==)>(s: seq<T>, sub: seq<T>, k: int) {
    0 <= k && k + |sub| <= |s| && s[k..k + |sub|] == sub
  }

  /** First occurrence of `sub` in `s` at or after `k`, or -1. */
  function IndexFrom<T(==)>(s: seq<T>, sub: seq<T>, k: nat): (r: int)
    requires k <= |s|
    ensures r == -1 || (k <= r && OccursAt(s, sub, r))
    ensures r == -1 ==> forall p :: k <= p ==> !OccursAt(s, sub, p)
    ensures r != -1 ==> forall p :: k <= p < r ==> !OccursAt(s, sub, p)
    decreases |s| - k
  {
    if OccursAt(s, sub, k) then k
    else if k == |s| then -1
    else IndexFrom(s, sub, k + 1)
  }

  /** strings.Index and bytes.Index: the first occurrence of `sub` in `s`, or -1. */
  function Index<T(==)>(s: seq<T>, sub: seq<T>): (r: int)
    ensures r == -1 || OccursAt(s, sub, r)
    ensures r == -1 ==> forall p :: !OccursAt(s, sub, p)
    ensures r != -1 ==> forall p :: 0 <= p < r ==> !OccursAt(s, sub, p)
  {
    IndexFrom(s, sub, 0)
  }

  /** strings.Contains */
  predicate Contains<T(==)>(s: seq<T>, sub: seq<T>) {
    Index(s, sub) >= 0
  }

  /** bytes.IndexByte: the first position of `c` in `s`, or -1. */
  function IndexByte(s: string, c: char): (r: int)
    ensures -1 <= r < |s|
    ensures r >= 0 ==> s[r] == c && forall p :: 0 <= p < r ==> s[p] != c
    ensures r == -1 ==> forall p :: 0 <= p < |s| ==> s[p] != c
  {
    if s == [] then -1
    else if s[0] == c then 0
    else
      var r := IndexByte(s[1..], c);
      if r == -1 then -1 else r + 1
  }

  /** strings.TrimLeft(s, cutset): drops every leading char that is in `cutset`. */
  function TrimLeft(s: string, cutset: set<char>): string {
    if s != [] && s[0] in cutset then TrimLeft(s[1..], cutset) else s
  }

  /**
   * TrimLeft keeps a suffix of its input that does not start with a cutset
   * char, and everything it drops is in the cutset.
   */
  lemma {:induction false} TrimLeftShape(s: string, cutset: set<char>)
    ensures var r := TrimLeft(s, cutset);
      && HasSuffix(s, r)
      && (r == [] || r[0] !in cutset)
      && forall k :: 0 <= k < |s| - |r| ==> s[k] in cutset
  {
    if s != [] && s[0] in cutset {
      TrimLeftShape(s[1..], cutset);
      var r := TrimLeft(s, cutset);
      assert s[|s| - |r|..] == s[1..][|s| - 1 - |r|..];
    }
  }

  /** The file part of path.Split: everything after the last '/'. */
  function AfterLastSlash(p: string): (file: string)
    ensures HasSuffix(p, file)
    ensures '/' !in file
    ensures |file| < |p| ==> p[|p| - |file| - 1] == '/'
  {
    if p == [] || p[|p| - 1] == '/' then []
    else AfterLastSlash(p[..|p| - 1]) + [p[|p| - 1]]
  }

  /** path.Split's file part of a path whose last segment is `tail`. */
  lemma AfterLastSlashOf(base: string, tail: string)
    requires '/' !in tail
    ensures AfterLastSlash(base + "/" + tail) == tail
  {
    var p := base + "/" + tail;
    var f := AfterLastSlash(p);
    assert p[|p| - |tail| - 1] == '/';
    assert p[|p| - |tail|..] == tail;
  }

  /** An occurrence in a suffix is an occurrence in the whole sequence, shifted. */
  lemma OccursAtShift<T>(s: seq<T>, sub: seq<T>, j: int, d: int)
    requires 0 <= j <= |s| && 0 <= d
    ensures OccursAt(s[j..], sub, d) <==> OccursAt(s, sub, j + d)
  {
    if j + d + |sub| <= |s| {
      assert s[j..][d..d + |sub|] == s[j + d..j + d + |sub|];
    }
  }

  /** ASCII white space, as strings.TrimSpace sees it below U+0080. */
  predicate IsSpace(c: char) {
    c == ' ' || c == '\t' || c == '\n' || c == '\r' || c == 11 as char || c == 12 as char
  }

  /** strings.TrimSpace, restricted to ASCII white space. */
  function TrimSpace(s: string): (r: string)
    ensures r == [] || (!IsSpace(r[0]) && !IsSpace(r[|r| - 1]))
    ensures |r| <= |s|
  {
    if s != [] && IsSpace(s[0]) then TrimSpace(s[1..])
    else if s != [] && IsSpace(s[|s| - 1]) then TrimSpace(s[..|s| - 1])
    else s
  }

  /** Text that neither starts nor ends with white space survives the trimming around it. */
  lemma {:induction false} TrimSpaceKeepsInner(pre: string, mid: string, post: string)
    requires mid != [] && !IsSpace(mid[0]) && !IsSpace(mid[|mid| - 1])
    ensures exists k :: 0 <= k && k + |mid| <= |TrimSpace(pre + mid + post)| && OccursAt(TrimSpace(pre + mid + post), mid, k)
    decreases |pre| + |post|
  {
    var s := pre + mid + post;
    if s != [] && IsSpace(s[0]) {
      assert pre != [];
      assert s[1..] == pre[1..] + mid + post;
      assert TrimSpace(s) == TrimSpace(s[1..]);
      TrimSpaceKeepsInner(pre[1..], mid, post);
    } else if s != [] && IsSpace(s[|s| - 1]) {
      assert post != [];
      assert s[..|s| - 1] == pre + mid + post[..|post| - 1];
      assert TrimSpace(s) == TrimSpace(s[..|s| - 1]);
      TrimSpaceKeepsInner(pre, mid, post[..|post| - 1]);
    } else {
      assert s[|pre|..|pre| + |mid|] == mid;
      assert OccursAt(TrimSpace(s), mid, |pre|);
    }
  }

  function LowerAscii(c: char): char {
    if 'A' <= c <= 'Z' then (c as int - 'A' as int + 'a' as int) as char else c
  }

  /** strings.ToLower, restricted to ASCII letters. */
  function ToLower(s: string): (r: string)
    ensures |r| == |s|
    ensures forall k :: 0 <= k < |s| ==> r[k] == LowerAscii(s[k])
  {
    if s == [] then [] else [LowerAscii(s[0])] + ToLower(s[1..])
  }

  /** Lower-casing keeps every occurrence in place, lower-cased. */
  lemma OccursAtLower(s: string, sub: string, k: int)
    requires OccursAt(s, sub, k)
    ensures OccursAt(ToLower(s), ToLower(sub), k)
  {
    assert ToLower(s)[k..k + |sub|] == ToLower(sub);
  }

  /** strings.Join */
  function Join(parts: seq<string>, sep: string): string {
    if parts == [] then ""
    else if |parts| == 1 then parts[0]
    else parts[0] + sep + Join(parts[1..], sep)
  }

  /** strings.Split on one separator char: the pieces between the separators. */
  function Split(s: string, sep: char): (parts: seq<string>)
    ensures |parts| >= 1
  {
    var i := IndexByte(s, sep);
    if i < 0 then [s] else [s[..i]] + Split(s[i + 1..], sep)
  }

  lemma {:induction false} JoinAppend(a: seq<string>, b: seq<string>, sep: string)
    requires |a| >= 1 && |b| >= 1
    ensures Join(a + b, sep) == Join(a, sep) + sep + Join(b, sep)
  {
    if |a| > 1 {
      assert (a + b)[1..] == a[1..] + b;
      JoinAppend(a[1..], b, sep);
    } else {
      assert (a + b)[1..] == b;
    }
  }

  /** A string without the separator is a single field. */
  lemma SplitNone(s: string, sep: char)
    requires sep !in s
    ensures Split(s, sep) == [s]
  {
    assert IndexByte(s, sep) == -1;
  }

  /** Three fields joined by a separator none of them holds split back into those fields. */
  lemma SplitThree(a: string, b: string, c: string, sep: char)
    requires sep !in a && sep !in b && sep !in c
    ensures Split(a + [sep] + b + [sep] + c, sep) == [a, b, c]
  {
    var tail := b + [sep] + c;
    SplitNone(c, sep);
    SplitFirst(b, c, sep);
    SplitFirst(a, tail, sep);
    RegroupThree(a, b, c, sep);
  }

  lemma RegroupThree<T>(a: seq<T>, b: seq<T>, c: seq<T>, x: T)
    ensures a + [x] + b + [x] + c == a + [x] + (b + [x] + c)
  {
  }

  /** Splitting at the first separator: the piece before it, then the split of the rest. */
  lemma SplitFirst(p: string, tail: string, sep: char)
    requires sep !in p
    ensures Split(p + [sep] + tail, sep) == [p] + Split(tail, sep)
  {
    var s := p + [sep] + tail;
    assert s[|p|] == sep;
    assert forall q :: 0 <= q < |p| ==> s[q] == p[q];
    assert IndexByte(s, sep) == |p|;
    assert s[..|p|] == p;
    assert s[|p| + 1..] == tail;
  }

  /** Splitting text that starts with joined pieces gives those pieces first. */
  lemma {:induction false} SplitAfter(parts: seq<string>, rest: string, sep: char)
    requires |parts| >= 1
    requires forall k :: 0 <= k < |parts| ==> sep !in parts[k]
    ensures Split(Join(parts, [sep]) + [sep] + rest, sep) == parts + Split(rest, sep)
  {
    if |parts| == 1 {
      SplitFirst(parts[0], rest, sep);
    } else {
      var tail := Join(parts[1..], [sep]) + [sep] + rest;
      assert Join(parts, [sep]) == parts[0] + [sep] + Join(parts[1..], [sep]);
      RegroupThree(parts[0], Join(parts[1..], [sep]), rest, sep);
      SplitFirst(parts[0], tail, sep);
      SplitAfter(parts[1..], rest, sep);
      assert parts == [parts[0]] + parts[1..];
    }
  }

  function DigitValue(c: char): nat
    requires IsAsciiDigit(c)
  {
    c as int - '0' as int
  }

  /**
   * The number a run of decimal digits denotes, accumulated left to right
   * (`v = v*10 + digit`), as Go's loops and `%d` parsing do.
   */
  function DigitsValue(s: string): nat
    requires AllDigits(s)
  {
    if s == [] then 0 else DigitsValue(s[..|s| - 1]) * 10 + DigitValue(s[|s| - 1])
  }

  function DigitChar(d: nat): (c: char)
    requires d < 10
    ensures IsAsciiDigit(c) && DigitValue(c) == d
  {
    ('0' as int + d) as char
  }

  /** fmt's `%d` of a non-negative number: shortest decimal text, read back by DigitsValue. */
  function Decimal(n: nat): (r: string)
    ensures r != [] && AllDigits(r)
    ensures DigitsValue(r) == n
    ensures r[0] == '0' ==> r == "0"
  {
    if n < 10 then [DigitChar(n)]
    else
      var r := Decimal(n / 10) + [DigitChar(n % 10)];
      assert r[..|r| - 1] == Decimal(n / 10);
      r
  }

  function HexDigit(d: nat): (c: char)
    requires d < 16
  {
    if d < 10 then ('0' as int + d) as char else ('a' as int + d - 10) as char
  }

  predicate IsHexDigit(c: char) {
    IsAsciiDigit(c) || 'a' <= c <= 'f'
  }

  function HexDigitValue(c: char): (d: nat)
    requires IsHexDigit(c)
    ensures d < 16 && HexDigit(d) == c
  {
    if IsAsciiDigit(c) then c as int - '0' as int else c as int - 'a' as int + 10
  }

  /** fmt's `%x` of a byte slice: two lower-case hex digits per byte. */
  function Hex(bs: seq<byte>): (r: string)
    ensures |r| == 2 * |bs|
    ensures forall k :: 0 <= k < |r| ==> IsHexDigit(r[k])
  {
    if bs == [] then "" else [HexDigit(bs[0] / 16), HexDigit(bs[0] % 16)] + Hex(bs[1..])
  }

  /** Reads `%x` text back into bytes. */
  function UnHex(s: string): seq<byte>
    requires |s| % 2 == 0
    requires forall k :: 0 <= k < |s| ==> IsHexDigit(s[k])
  {
    if s == [] then [] else [HexDigitValue(s[0]) * 16 + HexDigitValue(s[1])] + UnHex(s[2..])
  }

  lemma {:induction false} HexRoundTrip(bs: seq<byte>)
    ensures UnHex(Hex(bs)) == bs
  {
    if bs != [] {
      HexRoundTrip(bs[1..]);
      var h := Hex(bs);
      assert h[2..] == Hex(bs[1..]);
      assert HexDigitValue(h[0]) == bs[0] / 16;
      assert HexDigitValue(h[1]) == bs[0] % 16;
    }
  }
}
