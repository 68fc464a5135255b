/**
 * The few Python `str` operations the system relies on, written out with the
 * semantics CPython gives them: `strip`, `startswith`, `endswith`, `find`,
 * `rfind`, substring search and `in`, `splitlines`, `split` on one
 * character, `join`, `lower` (ASCII letters only) and `str(n)` for naturals.
 */
module Text {
  import opened Wrappers

  /** `c.isspace()` in CPython: the Unicode whitespace characters. */
  predicate IsSpace(c: char) {
    || c == ' ' || '\t' <= c <= '\r' || '\U{1c}' <= c <= '\U{1f}'
    || c == '\U{85}' || c == '\U{a0}' || c == '\U{1680}'
    || '\U{2000}' <= c <= '\U{200a}' || c == '\U{2028}' || c == '\U{2029}'
    || c == '\U{202f}' || c == '\U{205f}' || c == '\U{3000}'
  }

  /** Every character is whitespace (so `s.strip()` is falsy). */
  predicate Blank(s: string) {
    forall i :: 0 <= i < |s| ==> IsSpace(s[i])
  }

  /** `r` occurs in `s` as a contiguous slice. */
  ghost predicate IsSlice(r: string, s: string) {
    exists i, j :: 0 <= i <= j <= |s| && s[i..j] == r
  }

  lemma SliceTransitive(a: string, b: string, c: string)
    requires IsSlice(a, b) && IsSlice(b, c)
    ensures IsSlice(a, c)
  {
    var i, i' :| 0 <= i <= i' <= |b| && b[i..i'] == a;
    var j, j' :| 0 <= j <= j' <= |c| && c[j..j'] == b;
    SliceOfSlice(c, j, j', i, i');
    SliceRange(c, j + i, j + i');
  }

  lemma SliceOfSlice(c: string, j: int, j': int, i: int, i': int)
    requires 0 <= j <= j' <= |c| && 0 <= i <= i' <= j' - j
    ensures c[j..j'][i..i'] == c[j + i..j + i']
  {
    forall k | 0 <= k < i' - i ensures c[j..j'][i..i'][k] == c[j + i..j + i'][k] {
    }
  }

  lemma SliceOfSelf(s: string)
    ensures IsSlice(s, s)
  {
    assert s[0..|s|] == s;
  }

  lemma SliceRange(s: string, i: int, j: int)
    requires 0 <= i <= j <= |s|
    ensures IsSlice(s[i..j], s)
  {
  }

  /** A character missing from a text is missing from every slice of it. */
  lemma NotInSlice(r: string, s: string, c: char)
    requires IsSlice(r, s) && c !in s
    ensures c !in r
  {
    var i, j :| 0 <= i <= j <= |s| && s[i..j] == r;
    assert forall k :: 0 <= k < |r| ==> r[k] == s[i + k];
  }

  /** The number of whitespace characters `s` starts with. */
  function LeadingSpaces(s: string): (n: nat)
    ensures n <= |s|
    decreases |s|
  {
    if s != [] && IsSpace(s[0]) then 1 + LeadingSpaces(s[1..]) else 0
  }

  /** They are whitespace, and the character after them is not. */
  lemma {:induction false} LeadingSpacesSpec(s: string)
    ensures Blank(s[..LeadingSpaces(s)])
    ensures LeadingSpaces(s) < |s| ==> !IsSpace(s[LeadingSpaces(s)])
    decreases |s|
  {
    if s != [] && IsSpace(s[0]) {
      var t := s[1..];
      LeadingSpacesSpec(t);
      var m := LeadingSpaces(t);
      assert m < |t| ==> s[m + 1] == t[m];
      var pre := s[..m + 1];
      forall k | 0 <= k < |pre| ensures IsSpace(pre[k]) {
        if k > 0 { assert pre[k] == t[..m][k - 1]; }
      }
    }
  }

  /** `s.lstrip()`: drops the leading whitespace and nothing else. */
  function LStrip(s: string): (r: string)
    ensures |r| <= |s| && r == s[|s| - |r|..]
    ensures Blank(s[..|s| - |r|])
    ensures r != [] ==> !IsSpace(r[0])
  {
    LeadingSpacesSpec(s);
    s[LeadingSpaces(s)..]
  }

  /** The number of whitespace characters `s` ends with. */
  function TrailingSpaces(s: string): (n: nat)
    ensures n <= |s|
    decreases |s|
  {
    if s != [] && IsSpace(s[|s| - 1]) then 1 + TrailingSpaces(s[..|s| - 1]) else 0
  }

  /** They are whitespace, and the character before them is not. */
  lemma {:induction false} TrailingSpacesSpec(s: string)
    ensures Blank(s[|s| - TrailingSpaces(s)..])
    ensures TrailingSpaces(s) < |s| ==> !IsSpace(s[|s| - TrailingSpaces(s) - 1])
    decreases |s|
  {
    if s != [] && IsSpace(s[|s| - 1]) {
      var t := s[..|s| - 1];
      TrailingSpacesSpec(t);
      var m := TrailingSpaces(t);
      var i := |t| - m;
      assert m < |t| ==> s[i - 1] == t[i - 1];
      forall k | 0 <= k < m + 1 ensures IsSpace(s[i..][k]) {
        if k < m { assert s[i..][k] == t[i..][k]; }
      }
    }
  }

  /** `s.rstrip()`: drops the trailing whitespace and nothing else. */
  function RStrip(s: string): (r: string)
    ensures |r| <= |s| && r == s[..|r|]
    ensures Blank(s[|r|..])
    ensures r != [] ==> !IsSpace(r[|r| - 1])
  {
    TrailingSpacesSpec(s);
    s[..|s| - TrailingSpaces(s)]
  }

  /** `s.strip()`: a slice of `s` that neither starts nor ends with whitespace,
      empty exactly when `s` is blank. */
  function Strip(s: string): (r: string)
    ensures r != [] ==> !IsSpace(r[0]) && !IsSpace(r[|r| - 1])
    ensures r == [] <==> Blank(s)
  {
    var l := LStrip(s);
    var r := RStrip(l);
    StripEmptyOnlyIfBlank(s, l, r);
    StripEmptyIfBlank(s, l, r);
    r
  }

  /** `strip` only cuts: its result is a slice of its argument. */
  lemma StripSlice(s: string)
    ensures IsSlice(Strip(s), s)
  {
    var l := LStrip(s);
    var r := RStrip(l);
    assert Strip(s) == r;
    SliceOfStrips(s, l, r);
  }

  lemma SliceOfStrips(s: string, l: string, r: string)
    requires |l| <= |s| && l == s[|s| - |l|..] && |r| <= |l| && r == l[..|r|]
    ensures IsSlice(r, s)
  {
    var i := |s| - |l|;
    assert s[i..][..|r|] == s[i..i + |r|];
    SliceRange(s, i, i + |r|);
  }

  lemma StripEmptyOnlyIfBlank(s: string, l: string, r: string)
    requires |l| <= |s| && l == s[|s| - |l|..] && Blank(s[..|s| - |l|])
    requires |r| <= |l| && Blank(l[|r|..])
    ensures r == [] ==> Blank(s)
  {
    if r == [] {
      var i := |s| - |l|;
      assert l[|r|..] == l;
      forall k | 0 <= k < |s| ensures IsSpace(s[k]) {
        if k < i { assert s[k] == s[..i][k]; } else { assert s[k] == l[k - i]; }
      }
    }
  }

  lemma StripEmptyIfBlank(s: string, l: string, r: string)
    requires |l| <= |s| && l == s[|s| - |l|..] && (l != [] ==> !IsSpace(l[0]))
    requires |r| <= |l| && r == l[..|r|]
    ensures Blank(s) ==> r == []
  {
    var i := |s| - |l|;
    if r != [] {
      assert r[0] == l[0] == s[i];
    }
  }

  lemma {:induction false} LeadingSpacesOfPadded(p: string, s: string)
    requires Blank(p) && s != [] && !IsSpace(s[0])
    ensures LeadingSpaces(p + s) == |p|
    decreases |p|
  {
    if p == [] {
      assert p + s == s;
    } else {
      assert (p + s)[0] == p[0];
      assert (p + s)[1..] == p[1..] + s;
      LeadingSpacesOfPadded(p[1..], s);
    }
  }

  lemma LStripBlankPrefix(p: string, s: string)
    requires Blank(p) && s != [] && !IsSpace(s[0])
    ensures LStrip(p + s) == s
  {
    LeadingSpacesOfPadded(p, s);
    assert (p + s)[|p|..] == s;
  }

  lemma {:induction false} TrailingSpacesOfPadded(s: string, q: string)
    requires Blank(q) && s != [] && !IsSpace(s[|s| - 1])
    ensures TrailingSpaces(s + q) == |q|
    decreases |q|
  {
    if q == [] {
      assert s + q == s;
    } else {
      assert (s + q)[|s + q| - 1] == q[|q| - 1];
      assert (s + q)[..|s + q| - 1] == s + q[..|q| - 1];
      TrailingSpacesOfPadded(s, q[..|q| - 1]);
    }
  }

  lemma RStripBlankSuffix(s: string, q: string)
    requires Blank(q) && s != [] && !IsSpace(s[|s| - 1])
    ensures RStrip(s + q) == s
  {
    TrailingSpacesOfPadded(s, q);
    assert (s + q)[..|s|] == s;
  }

  /** Whitespace padding on either side of a trimmed text is exactly what
      `strip` removes. */
  lemma StripPadded(p: string, d: string, q: string)
    requires Blank(p) && Blank(q)
    requires d != [] && !IsSpace(d[0]) && !IsSpace(d[|d| - 1])
    ensures Strip(p + d + q) == d
  {
    assert p + d + q == p + (d + q);
    LStripBlankPrefix(p, d + q);
    RStripBlankSuffix(d, q);
  }

  /** A string that does not begin or end with whitespace is its own strip. */
  lemma StripUnchanged(s: string)
    requires s != [] ==> !IsSpace(s[0]) && !IsSpace(s[|s| - 1])
    ensures Strip(s) == s
  {
  }

  /** `s.startswith(p)`. */
  predicate StartsWith(s: string, p: string) {
    |p| <= |s| && s[..|p|] == p
  }

  /** `s.endswith(p)`. */
  predicate EndsWith(s: string, p: string) {
    |p| <= |s| && s[|s| - |p|..] == p
  }

  /** `s.find(c)` for a one-character needle: the first index of `c`, or -1. */
  function FindChar(s: string, c: char): (r: int)
    ensures -1 <= r < |s|
    ensures r == -1 <==> c !in s
    ensures r >= 0 ==> s[r] == c && c !in s[..r]
  {
    if s == [] then -1
    else if s[0] == c then 0
    else
      var k := FindChar(s[1..], c);
      assert s == [s[0]] + s[1..];
      if k == -1 then -1
      else
        assert s[..k + 1] == [s[0]] + s[1..][..k];
        k + 1
  }

  /** `s.find(c)` is no later than any occurrence of `c`. */
  lemma {:induction false} FindCharAtMost(s: string, c: char, i: int)
    requires 0 <= i < |s| && s[i] == c
    ensures 0 <= FindChar(s, c) <= i
    decreases i
  {
    if s[0] != c {
      FindCharAtMost(s[1..], c, i - 1);
    }
  }

  /** `s.find(c)` skips a prefix that does not contain `c`. */
  lemma {:induction false} FindCharSkips(s: string, c: char, n: int)
    requires 0 <= n <= |s| && c !in s[..n]
    ensures FindChar(s, c) == -1 || FindChar(s, c) >= n
    decreases n
  {
    if n > 0 {
      assert s[..n] == [s[0]] + s[1..][..n - 1];
      FindCharSkips(s[1..], c, n - 1);
    }
  }

  /** The first occurrence of `c` is where `find` stops. */
  lemma FindCharIs(s: string, c: char, i: int)
    requires 0 <= i < |s| && s[i] == c && c !in s[..i]
    ensures FindChar(s, c) == i
  {
    FindCharAtMost(s, c, i);
  }

  /** `s.rfind(c)` for a one-character needle: the last index of `c`, or -1. */
  function RFindChar(s: string, c: char): (r: int)
    ensures -1 <= r < |s|
    ensures r == -1 <==> c !in s
    ensures r >= 0 ==> s[r] == c && c !in s[r + 1..]
  {
    if s == [] then -1
    else if s[|s| - 1] == c then |s| - 1
    else
      assert s == s[..|s| - 1] + [s[|s| - 1]];
      RFindChar(s[..|s| - 1], c)
  }

  /** `s.rfind(c)` is no earlier than any occurrence of `c`. */
  lemma {:induction false} RFindCharAtLeast(s: string, c: char, j: int)
    requires 0 <= j < |s| && s[j] == c
    ensures j <= RFindChar(s, c)
    decreases |s| - j
  {
    if s[|s| - 1] != c {
      RFindCharAtLeast(s[..|s| - 1], c, j);
    }
  }

  /** `s.rfind(c)` skips a suffix that does not contain `c`. */
  lemma {:induction false} RFindCharSkips(s: string, c: char, n: int)
    requires 0 <= n <= |s| && c !in s[n..]
    ensures RFindChar(s, c) < n
    decreases |s| - n
  {
    if n < |s| {
      assert s[n..] == s[..|s| - 1][n..] + [s[|s| - 1]];
      RFindCharSkips(s[..|s| - 1], c, n);
    }
  }

  /** The last occurrence of `c` is where `rfind` stops. */
  lemma RFindCharIs(s: string, c: char, j: int)
    requires 0 <= j < |s| && s[j] == c && c !in s[j + 1..]
    ensures RFindChar(s, c) == j
  {
    RFindCharAtLeast(s, c, j);
  }

  /** `s.find(p)` for a needle of any length, as an option: the first position
      at which `p` occurs. */
  function FindSub(s: string, p: string): (r: Option<nat>)
    ensures r.Some? ==> r.value <= |s| - |p| && StartsWith(s[r.value..], p)
    ensures forall j :: 0 <= j <= |s| - |p| && (r.None? || j < r.value) ==> !StartsWith(s[j..], p)
    decreases |s|
  {
    if |s| < |p| then None
    else if StartsWith(s, p) then Some(0)
    else
      var k := FindSub(s[1..], p);
      assert forall j :: 1 <= j <= |s| ==> s[1..][j - 1..] == s[j..];
      match k
      case None => None
      case Some(k) => Some(k + 1)
  }

  /** `p in s` for strings. */
  predicate Contains(s: string, p: string) {
    FindSub(s, p).Some?
  }

  lemma ContainsAt(s: string, p: string, j: int)
    requires 0 <= j <= |s| - |p| && s[j..j + |p|] == p
    ensures Contains(s, p)
  {
    assert StartsWith(s[j..], p);
  }

  /** The characters CPython's `str.splitlines` breaks at. */
  predicate IsLineBreak(c: char) {
    || c == '\n' || c == '\r' || c == '\U{b}' || c == '\U{c}'
    || '\U{1c}' <= c <= '\U{1e}' || c == '\U{85}' || c == '\U{2028}' || c == '\U{2029}'
  }

  function FirstBreak(s: string): (r: Option<nat>)
    ensures r.Some? ==> r.value < |s| && IsLineBreak(s[r.value])
    ensures forall k :: 0 <= k < |s| && (r.None? || k < r.value) ==> !IsLineBreak(s[k])
  {
    if s == [] then None
    else if IsLineBreak(s[0]) then Some(0)
    else match FirstBreak(s[1..])
      case None => None
      case Some(k) => Some(k + 1)
  }

  /** `s.splitlines()`: the lines of `s` without their terminators; "\r\n"
      counts as one terminator and a final terminator starts no extra line. */
  function SplitLines(s: string): (lines: seq<string>)
    ensures forall i, k :: 0 <= i < |lines| && 0 <= k < |lines[i]| ==> !IsLineBreak(lines[i][k])
    ensures lines == [] <==> s == []
    decreases |s|
  {
    if s == [] then []
    else match FirstBreak(s)
      case None => [s]
      case Some(i) =>
        var width := if s[i] == '\r' && i + 1 < |s| && s[i + 1] == '\n' then 2 else 1;
        [s[..i]] + SplitLines(s[i + width..])
  }

  lemma SplitLinesSingle(s: string)
    requires s != [] && forall k :: 0 <= k < |s| ==> !IsLineBreak(s[k])
    ensures SplitLines(s) == [s]
  {
  }

  /** The only line break `s` holds, if any, is '\n'. */
  predicate OnlyNewlines(s: string) {
    forall k :: 0 <= k < |s| && IsLineBreak(s[k]) ==> s[k] == '\n'
  }

  /** For a text whose only line break is '\n' and that does not end with
      one, joining the lines with '\n' gives the text back: `splitlines`
      drops the breaks and nothing else. */
  lemma {:induction false} SplitLinesJoin(s: string)
    requires OnlyNewlines(s)
    requires s != [] ==> s[|s| - 1] != '\n'
    ensures Join("\n", SplitLines(s)) == s
    decreases |s|
  {
    if s != [] && FirstBreak(s).Some? {
      var i := FirstBreak(s).value;
      var rest := s[i + 1..];
      NewlineBreak(s, i);
      SplitLinesStep(s, i);
      OnlyNewlinesSuffix(s, i + 1);
      SplitLinesJoin(rest);
      JoinCons(s[..i], SplitLines(rest));
      SplitAround(s, i);
    }
  }

  lemma SplitAround(s: string, i: nat)
    requires i < |s| && s[i] == '\n'
    ensures s == s[..i] + "\n" + s[i + 1..]
  {
    assert s[..i] + "\n" + s[i + 1..] == s[..i] + s[i..];
  }

  lemma NewlineBreak(s: string, i: nat)
    requires OnlyNewlines(s) && s != [] && s[|s| - 1] != '\n'
    requires i < |s| && IsLineBreak(s[i])
    ensures s[i] == '\n' && i < |s| - 1 && s[i + 1..] != []
  {
  }

  lemma SplitLinesStep(s: string, i: nat)
    requires FirstBreak(s) == Some(i) && s[i] == '\n'
    ensures SplitLines(s) == [s[..i]] + SplitLines(s[i + 1..])
  {
  }

  lemma OnlyNewlinesSuffix(s: string, n: nat)
    requires OnlyNewlines(s) && n <= |s|
    ensures OnlyNewlines(s[n..])
  {
    assert forall k :: 0 <= k < |s| - n ==> s[n..][k] == s[n + k];
  }

  lemma JoinCons(head: string, rest: seq<string>)
    requires rest != []
    ensures Join("\n", [head] + rest) == head + "\n" + Join("\n", rest)
  {
    assert ([head] + rest)[1..] == rest;
  }

  /** `sep.join(parts)`. */
  function Join(sep: string, parts: seq<string>): (r: string)
    ensures parts == [] ==> r == []
    ensures |parts| == 1 ==> r == parts[0]
  {
    if parts == [] then []
    else if |parts| == 1 then parts[0]
    else parts[0] + sep + Join(sep, parts[1..])
  }

  /** `s.split(c)` for a one-character separator: never empty. */
  function SplitOn(s: string, c: char): (r: seq<string>)
    ensures |r| >= 1
    ensures forall i :: 0 <= i < |r| ==> c !in r[i]
    decreases |s|
  {
    var k := FindChar(s, c);
    if k == -1 then [s] else [s[..k]] + SplitOn(s[k + 1..], c)
  }

  /** Splitting a join on its separator gives the parts back, provided no part
      contains the separator. */
  lemma {:induction false} SplitJoin(parts: seq<string>, c: char)
    requires |parts| >= 1
    requires forall i :: 0 <= i < |parts| ==> c !in parts[i]
    ensures SplitOn(Join([c], parts), c) == parts
    decreases |parts|
  {
    if |parts| == 1 {
      SplitNoSeparator(parts[0], c);
    } else {
      var rest := Join([c], parts[1..]);
      assert Join([c], parts) == parts[0] + [c] + rest;
      assert forall i :: 0 <= i < |parts[1..]| ==> c !in parts[1..][i];
      SplitJoin(parts[1..], c);
      SplitCons(parts[0], c, rest);
      assert parts == [parts[0]] + parts[1..];
    }
  }

  lemma SplitNoSeparator(s: string, c: char)
    requires c !in s
    ensures SplitOn(s, c) == [s]
  {
    assert FindChar(s, c) == -1;
  }

  /** A part without the separator, then the separator, splits off first. */
  lemma SplitCons(head: string, c: char, rest: string)
    requires c !in head
    ensures SplitOn(head + [c] + rest, c) == [head] + SplitOn(rest, c)
  {
    var s := head + [c] + rest;
    JoinFirst(c, head, rest, s);
    SplitOnStep(s, c, |head|);
  }

  lemma JoinFirst(c: char, head: string, rest: string, s: string)
    requires s == head + [c] + rest
    ensures s[|head|] == c && s[..|head|] == head && s[|head| + 1..] == rest
  {
  }

  lemma SplitOnStep(s: string, c: char, n: int)
    requires 0 <= n < |s| && s[n] == c && c !in s[..n]
    ensures SplitOn(s, c) == [s[..n]] + SplitOn(s[n + 1..], c)
  {
    FindCharIs(s, c, n);
  }

  /** ASCII `c.lower()`. */
  function LowerChar(c: char): char {
    if 'A' <= c <= 'Z' then (c as int + 32) as char else c
  }

  /** `s.lower()` restricted to ASCII letters; every other character is kept. */
  function Lower(s: string): (r: string)
    ensures |r| == |s|
    ensures forall i :: 0 <= i < |s| ==> r[i] == LowerChar(s[i])
  {
    seq(|s|, i requires 0 <= i < |s| => LowerChar(s[i]))
  }

  /** Lower-casing twice is lower-casing once. */
  lemma LowerIdempotent(s: string)
    ensures Lower(Lower(s)) == Lower(s)
  {
  }

  /** A text without ASCII capitals is its own lower case. */
  lemma LowerNoCapitals(s: string)
    requires forall i :: 0 <= i < |s| ==> !('A' <= s[i] <= 'Z')
    ensures Lower(s) == s
  {
  }

  lemma LowerConcat(a: string, b: string)
    ensures Lower(a + b) == Lower(a) + Lower(b)
  {
    assert forall i :: 0 <= i < |a| ==> (a + b)[i] == a[i];
    assert forall i :: |a| <= i < |a| + |b| ==> (a + b)[i] == b[i - |a|];
  }

  /** Lower-casing leaves whitespace alone, so it neither adds nor removes any. */
  lemma LowerKeepsSpace(s: string)
    ensures Blank(s) ==> Lower(s) == s
    ensures s != [] ==> (IsSpace(Lower(s)[0]) <==> IsSpace(s[0]))
    ensures s != [] ==> (IsSpace(Lower(s)[|s| - 1]) <==> IsSpace(s[|s| - 1]))
  {
  }

  predicate IsDigit(c: char) {
    '0' <= c <= '9'
  }

  function DigitChar(d: nat): (c: char)
    requires d < 10
    ensures IsDigit(c)
  {
    (48 + d) as char
  }

  /** `str(n)` for a natural number: its decimal digits, most significant first. */
  function Decimal(n: nat): (r: string)
    ensures r != []
    ensures forall i :: 0 <= i < |r| ==> IsDigit(r[i])
    decreases n
  {
    if n < 10 then [DigitChar(n)] else Decimal(n / 10) + [DigitChar(n % 10)]
  }

  /** `int(s)` for a string of decimal digits. */
  function ParseDecimal(s: string): nat
    requires forall i :: 0 <= i < |s| ==> IsDigit(s[i])
  {
    if s == [] then 0
    else
      assert IsDigit(s[|s| - 1]);
      ParseDecimal(s[..|s| - 1]) * 10 + (s[|s| - 1] as int - 48)
  }

  lemma {:induction false} DecimalRoundTrip(n: nat)
    ensures ParseDecimal(Decimal(n)) == n
    decreases n
  {
    var r := Decimal(n);
    if n >= 10 {
      DecimalRoundTrip(n / 10);
      assert r[..|r| - 1] == Decimal(n / 10);
    }
  }

  /** Distinct numbers have distinct decimal spellings. */
  lemma DecimalInjective(a: nat, b: nat)
    requires Decimal(a) == Decimal(b)
    ensures a == b
  {
    DecimalRoundTrip(a);
    DecimalRoundTrip(b);
  }

  /** A digit string followed by a non-digit is determined by the whole:
      the boundary between them is the first non-digit. */
  lemma DigitPrefixUnique(a: string, x: string, b: string, y: string)
    requires forall i :: 0 <= i < |a| ==> IsDigit(a[i])
    requires forall i :: 0 <= i < |b| ==> IsDigit(b[i])
    requires x != [] && !IsDigit(x[0])
    requires y != [] && !IsDigit(y[0])
    requires a + x == b + y
    ensures a == b && x == y
  {
    assert forall k :: 0 <= k < |a| ==> (a + x)[k] == a[k];
    assert forall k :: 0 <= k < |b| ==> (b + y)[k] == b[k];
    assert (a + x)[|a|] == x[0] && (b + y)[|b|] == y[0];
    assert |a| == |b|;
    assert a == (a + x)[..|a|] && b == (b + y)[..|b|];
    assert x == (a + x)[|a|..] && y == (b + y)[|b|..];
  }
}
