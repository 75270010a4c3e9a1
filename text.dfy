/**
 The pieces of Python's `str` and `pathlib` that the recommender relies on:
 `strip()`, ASCII `lower()`, `startswith`/`endswith`/`in`, splitting on a
 separator, `Path(rel).name` and `splitlines()`.
 */
module Text {

  import opened Dedupe

  /** The characters for which Python's `str.isspace()` holds; `str.strip()`
      with no argument removes exactly these from both ends. */
  predicate IsSpace(c: char) {
    || c == ' ' || c == '\t' || c == '\n' || c == '\r'
    || c == '\U{000B}' || c == '\U{000C}'
    || ('\U{001C}' <= c <= '\U{001F}')
    || c == '\U{0085}' || c == '\U{00A0}' || c == '\U{1680}'
    || ('\U{2000}' <= c <= '\U{200A}')
    || c == '\U{2028}' || c == '\U{2029}' || c == '\U{202F}'
    || c == '\U{205F}' || c == '\U{3000}'
  }

  /** The line boundaries recognised by Python's `str.splitlines()`
      ("\r\n" counts as one boundary, see SplitLines). */
  predicate IsLineBreak(c: char) {
    || c == '\n' || c == '\r' || c == '\U{000B}' || c == '\U{000C}'
    || c == '\U{001C}' || c == '\U{001D}' || c == '\U{001E}'
    || c == '\U{0085}' || c == '\U{2028}' || c == '\U{2029}'
  }

  predicate NoLineBreak(s: string) {
    forall k :: 0 <= k < |s| ==> !IsLineBreak(s[k])
  }

  predicate AllSpace(s: string) {
    forall k :: 0 <= k < |s| ==> IsSpace(s[k])
  }

  /** `s.lstrip()`. */
  function TrimStart(s: string): string
    decreases |s|
  {
    if s != [] && IsSpace(s[0]) then TrimStart(s[1..]) else s
  }

  /** `s.lstrip()` is the longest suffix of `s` that does not start with whitespace. */
  lemma {:induction false} TrimStartSpec(s: string)
    ensures |TrimStart(s)| <= |s| && TrimStart(s) == s[|s| - |TrimStart(s)|..]
    ensures forall k :: 0 <= k < |s| - |TrimStart(s)| ==> IsSpace(s[k])
    ensures TrimStart(s) != [] ==> !IsSpace(TrimStart(s)[0])
    decreases |s|
  {
    if s != [] && IsSpace(s[0]) {
      TrimStartSpec(s[1..]);
    }
  }

  /** `s.rstrip()`. */
  function TrimEnd(s: string): string
    decreases |s|
  {
    if s != [] && IsSpace(s[|s| - 1]) then TrimEnd(s[..|s| - 1]) else s
  }

  /** `s.rstrip()` is the longest prefix of `s` that does not end with whitespace. */
  lemma {:induction false} TrimEndSpec(s: string)
    ensures |TrimEnd(s)| <= |s| && TrimEnd(s) == s[..|TrimEnd(s)|]
    ensures forall k :: |TrimEnd(s)| <= k < |s| ==> IsSpace(s[k])
    ensures TrimEnd(s) != [] ==> !IsSpace(TrimEnd(s)[|TrimEnd(s)| - 1])
    decreases |s|
  {
    if s != [] && IsSpace(s[|s| - 1]) {
      TrimEndSpec(s[..|s| - 1]);
    }
  }

  /** `s.strip()`. */
  function Strip(s: string): string {
    TrimEnd(TrimStart(s))
  }

  /** A string that starts and ends with a visible character is its own `strip()`. */
  lemma StripOfVisibleEnds(s: string)
    requires s != [] && !IsSpace(s[0]) && !IsSpace(s[|s| - 1])
    ensures Strip(s) == s
  {
  }

  /** `s.strip()` is empty exactly when `s` consists of whitespace only. */
  lemma StripEmptyIff(s: string)
    ensures Strip(s) == [] <==> AllSpace(s)
  {
    var t := TrimStart(s);
    TrimStartSpec(s);
    TrimEndSpec(t);
    if Strip(s) == [] {
      assert t == [];
    }
  }

  /** `s.strip()` keeps a stretch of `s`, so it adds no line boundary. */
  lemma StripKeepsNoLineBreak(s: string)
    requires NoLineBreak(s)
    ensures NoLineBreak(Strip(s))
  {
    var t := TrimStart(s);
    var r := TrimEnd(t);
    TrimStartSpec(s);
    TrimEndSpec(t);
    forall k | 0 <= k < |r| ensures !IsLineBreak(r[k]) {
      assert r[k] == t[k] == s[|s| - |t| + k];
    }
  }

  /** ASCII `lower()` of one character. */
  function LowerChar(c: char): char {
    if 'A' <= c <= 'Z' then (c as int + 32) as char else c
  }

  /** `s.lower()`, restricted to ASCII letters. */
  function Lower(s: string): (r: string)
    ensures |r| == |s|
  {
    seq(|s|, k requires 0 <= k < |s| => LowerChar(s[k]))
  }

  lemma LowerIdempotent(s: string)
    ensures Lower(Lower(s)) == Lower(s)
  {
  }

  /** `lower()` leaves a string without capital letters unchanged. */
  lemma LowerOfLowercase(s: string)
    requires forall k :: 0 <= k < |s| ==> !('A' <= s[k] <= 'Z')
    ensures Lower(s) == s
  {
  }

  /** `s.startswith(p)`. */
  predicate StartsWith(s: string, p: string) {
    |p| <= |s| && s[..|p|] == p
  }

  /** `s.endswith(x)`. */
  predicate EndsWith(s: string, x: string) {
    |x| <= |s| && s[|s| - |x|..] == x
  }

  /** A string whose `k`-th character differs from the prefix's does not start with it. */
  lemma StartsWithMismatch(s: string, p: string, k: nat)
    requires k < |s| && k < |p| && s[k] != p[k]
    ensures !StartsWith(s, p)
  {
  }

  /** A string whose last character differs from the suffix's does not end with it. */
  lemma EndsWithMismatch(s: string, x: string)
    requires |s| > 0 && |x| > 0 && s[|s| - 1] != x[|x| - 1]
    ensures !EndsWith(s, x)
  {
  }

  /** `t in s` for strings: `t` occurs somewhere in `s`. */
  predicate Contains(s: string, t: string)
    decreases |s|
  {
    StartsWith(s, t) || (s != [] && Contains(s[1..], t))
  }

  /** `t` occurs in `s` starting at index `i`. */
  predicate OccursAt(s: string, t: string, i: int) {
    0 <= i && i + |t| <= |s| && s[i..i + |t|] == t
  }

  /** `Contains` agrees with the positional reading of `t in s`: some window
      of `s` spells `t`. */
  lemma {:induction false} ContainsIff(s: string, t: string)
    ensures Contains(s, t) <==> exists i :: OccursAt(s, t, i)
    decreases |s|
  {
    if s != [] {
      ContainsIff(s[1..], t);
      if exists i :: OccursAt(s[1..], t, i) {
        var i :| OccursAt(s[1..], t, i);
        assert s[i + 1..i + 1 + |t|] == s[1..][i..i + |t|];
        assert OccursAt(s, t, i + 1);
      }
      if exists i :: OccursAt(s, t, i) {
        var i :| OccursAt(s, t, i);
        if i == 0 {
          assert StartsWith(s, t);
        } else {
          assert s[1..][i - 1..i - 1 + |t|] == s[i..i + |t|];
          assert OccursAt(s[1..], t, i - 1);
        }
      }
      if StartsWith(s, t) {
        assert OccursAt(s, t, 0);
      }
    } else if t == [] {
      assert OccursAt(s, t, 0);
    }
  }

  /** A string without the character `c` contains no string that has it. */
  lemma {:induction false} MissingCharNotContained(s: string, t: string, c: char)
    requires c in t && c !in s
    ensures !Contains(s, t)
    decreases |s|
  {
    if s != [] {
      MissingCharNotContained(s[1..], t, c);
    }
  }

  /** `s.split(sep)`: the pieces between occurrences of `sep`, empty ones included. */
  function Split(s: string, sep: char): (parts: seq<string>)
    ensures |parts| >= 1
    decreases |s|
  {
    if sep !in s then [s]
    else
      var k := FirstIndex(s, sep);
      [s[..k]] + Split(s[k + 1..], sep)
  }

  /** Each piece lower-cased. */
  function LowerAll(parts: seq<string>): (r: seq<string>)
    ensures |r| == |parts| && forall k :: 0 <= k < |r| ==> r[k] == Lower(parts[k])
  {
    seq(|parts|, k requires 0 <= k < |parts| => Lower(parts[k]))
  }

  /** Lower-casing does not move any `/`, so it commutes with splitting on it. */
  lemma {:induction false} SplitLower(s: string)
    ensures Split(Lower(s), '/') == LowerAll(Split(s, '/'))
    decreases |s|
  {
    var t := Lower(s);
    assert forall j :: 0 <= j < |s| ==> (t[j] == '/' <==> s[j] == '/');
    if '/' in s {
      var k := FirstIndex(s, '/');
      assert FirstIndex(t, '/') == k by {
        FirstIndexUnique(t, '/', k);
      }
      assert t[..k] == Lower(s[..k]);
      assert t[k + 1..] == Lower(s[k + 1..]);
      SplitLower(s[k + 1..]);
    }
  }

  /** Lower-casing keeps a piece empty or `.` exactly when it was. */
  lemma {:induction false} LastNamedLower(parts: seq<string>)
    ensures LastNamed(LowerAll(parts)) == Lower(LastNamed(parts))
    decreases |parts|
  {
    if parts != [] {
      var last := parts[|parts| - 1];
      assert Lower(last) == "" <==> last == "";
      assert Lower(last) == "." <==> last == "." by {
        if Lower(last) == "." {
          assert Lower(last)[0] == LowerChar(last[0]) == '.';
          assert last == [last[0]];
        }
      }
      assert LowerAll(parts)[..|parts| - 1] == LowerAll(parts[..|parts| - 1]);
      LastNamedLower(parts[..|parts| - 1]);
    }
  }

  /** The name of a lower-cased path is the lower-cased name. */
  lemma BaseNameLower(s: string)
    ensures BaseName(Lower(s)) == Lower(BaseName(s))
  {
    SplitLower(s);
    LastNamedLower(Split(s, '/'));
  }

  /** A `..` segment of `s` starts at index `i`: it is bounded by `/` or an end of `s` on both sides. */
  predicate ParentSegmentAt(s: string, i: int) {
    && 0 <= i && i + 2 <= |s|
    && s[i] == '.' && s[i + 1] == '.'
    && (i == 0 || s[i - 1] == '/')
    && (i + 2 == |s| || s[i + 2] == '/')
  }

  ghost predicate HasParentSegment(s: string) {
    exists i :: ParentSegmentAt(s, i)
  }

  /** Splitting on `/` produces a `..` piece exactly when `s` has a `..` segment. */
  lemma {:induction false} SplitParentSegment(s: string)
    ensures ".." in Split(s, '/') <==> HasParentSegment(s)
    decreases |s|
  {
    if '/' !in s {
      assert Split(s, '/') == [s];
      if s == ".." {
        assert ParentSegmentAt(s, 0);
      }
      if HasParentSegment(s) {
        var i :| ParentSegmentAt(s, i);
        assert i == 0 && i + 2 == |s|;
        assert s == s[i..i + 2];
      }
    } else {
      var k := FirstIndex(s, '/');
      var rest := s[k + 1..];
      assert Split(s, '/') == [s[..k]] + Split(rest, '/');
      SplitParentSegment(rest);
      if s[..k] == ".." {
        assert ParentSegmentAt(s, 0);
      } else if ".." in Split(rest, '/') {
        var i' :| ParentSegmentAt(rest, i');
        assert ParentSegmentAt(s, i' + k + 1);
      }
      if HasParentSegment(s) {
        var i :| ParentSegmentAt(s, i);
        if i < k {
          assert i == 0;
          assert k == 2;
          assert s[..k] == "..";
        } else {
          assert i != k;
          assert ParentSegmentAt(rest, i - k - 1);
        }
      }
    }
  }

  /** The last piece that is neither empty nor `.`, or "" when there is none. */
  function LastNamed(parts: seq<string>): (r: string)
    ensures r == "" || r in parts
    ensures r != "."
  {
    if parts == [] then ""
    else if parts[|parts| - 1] != "" && parts[|parts| - 1] != "." then parts[|parts| - 1]
    else LastNamed(parts[..|parts| - 1])
  }

  /** `PurePosixPath(s).name`: pathlib drops empty and `.` parts, so the name is
      the last `/`-separated piece that is neither. */
  function BaseName(s: string): string {
    LastNamed(Split(s, '/'))
  }

  /** Index of the first line boundary in `s`, or `|s|` if there is none. */
  function FirstBreak(s: string): (k: nat)
    ensures k <= |s|
    ensures forall j :: 0 <= j < k ==> !IsLineBreak(s[j])
    ensures k < |s| ==> IsLineBreak(s[k])
  {
    if s == [] || IsLineBreak(s[0]) then 0 else 1 + FirstBreak(s[1..])
  }

  /** `s.splitlines()`: the lines of `s` without their terminators; a final
      terminator does not start another line and "\r\n" is one terminator. */
  function SplitLines(s: string): (lines: seq<string>)
    ensures forall k :: 0 <= k < |lines| ==> NoLineBreak(lines[k])
    decreases |s|
  {
    if s == [] then []
    else
      var k := FirstBreak(s);
      if k == |s| then [s]
      else
        var width := if s[k] == '\r' && k + 1 < |s| && s[k + 1] == '\n' then 2 else 1;
        [s[..k]] + SplitLines(s[k + width..])
  }

  /** A line without boundaries followed by "\n" is split off as one line. */
  lemma SplitLinesCons(line: string, rest: string)
    requires NoLineBreak(line)
    ensures SplitLines(line + "\n" + rest) == [line] + SplitLines(rest)
  {
    var s := line + "\n" + rest;
    assert s[|line|] == '\n';
    assert forall j :: 0 <= j < |line| ==> s[j] == line[j];
    var k := FirstBreak(s);
    assert k == |line|;
    assert s[..k] == line;
    assert s[k + 1..] == rest;
  }
}
