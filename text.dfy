/** The handful of Python `str` operations that the core relies on,
    written out with the semantics of CPython 3. */
module Text {

  /** `c.isspace()` in Python 3: the characters whose bidirectional class is
      WS, B or S, or whose general category is Zs. This is the set that
      `str.strip()` with no argument removes; among ASCII characters it is
      `string.whitespace` and the four information separators. */
  predicate IsSpace(c: char)
    ensures c as int < 0x80 ==>
      (IsSpace(c) <==> c as int in {0x20, 0x09, 0x0A, 0x0B, 0x0C, 0x0D, 0x1C, 0x1D, 0x1E, 0x1F})
  {
    var n := c as int;
    || 0x09 <= n <= 0x0D
    || 0x1C <= n <= 0x20
    || n == 0x85
    || n == 0xA0
    || n == 0x1680
    || 0x2000 <= n <= 0x200A
    || n == 0x2028
    || n == 0x2029
    || n == 0x202F
    || n == 0x205F
    || n == 0x3000
  }

  /** The first index, from `i` on, whose character `drop` does not select,
      or `|s|` when there is none: where `s.lstrip(chars)` begins. */
  function FirstKept(s: string, drop: char -> bool, i: nat): (k: nat)
    requires i <= |s|
    ensures i <= k <= |s|
    ensures forall m :: i <= m < k ==> drop(s[m])
    ensures k == |s| || !drop(s[k])
    decreases |s| - i
  {
    if i < |s| && drop(s[i]) then FirstKept(s, drop, i + 1) else i
  }

  /** The index just past the last character, below `j` and not below `lo`,
      that `drop` does not select, or `lo` when there is none: where
      `s.rstrip(chars)` ends. */
  function LastKeptEnd(s: string, drop: char -> bool, lo: nat, j: nat): (k: nat)
    requires lo <= j <= |s|
    ensures lo <= k <= j
    ensures forall m :: k <= m < j ==> drop(s[m])
    ensures k == lo || !drop(s[k - 1])
    decreases j
  {
    if j > lo && drop(s[j - 1]) then LastKeptEnd(s, drop, lo, j - 1) else j
  }

  /** `s.strip(chars)`: the longest factor of `s` that neither starts nor
      ends with a dropped character; it is empty exactly when every
      character of `s` is dropped. */
  function Trim(s: string, drop: char -> bool): (r: string)
    ensures |r| <= |s|
    ensures r == [] || (!drop(r[0]) && !drop(r[|r| - 1]))
    ensures r == [] <==> forall i :: 0 <= i < |s| ==> drop(s[i])
    ensures exists i, j :: IsTrimmedFactor(s, drop, r, i, j)
  {
    var i := FirstKept(s, drop, 0);
    var j := LastKeptEnd(s, drop, i, |s|);
    assert IsTrimmedFactor(s, drop, s[i..j], i, j);
    s[i..j]
  }

  /** `r` is `s[i..j]`, and everything of `s` outside it is dropped. */
  predicate IsTrimmedFactor(s: string, drop: char -> bool, r: string, i: int, j: int) {
    && 0 <= i <= j <= |s| && r == s[i..j]
    && (forall k :: 0 <= k < i ==> drop(s[k]))
    && (forall k :: j <= k < |s| ==> drop(s[k]))
  }

  /** `s.strip()`. */
  function Strip(s: string): (r: string)
    ensures |r| <= |s|
    ensures r == [] || (!IsSpace(r[0]) && !IsSpace(r[|r| - 1]))
    ensures r == [] <==> forall i :: 0 <= i < |s| ==> IsSpace(s[i])
    ensures exists i, j :: IsTrimmedFactor(s, IsSpace, r, i, j)
  {
    Trim(s, IsSpace)
  }

  /** A string that neither starts nor ends with a dropped character is its
      own trimmed form. */
  lemma TrimOfTrimmed(s: string, drop: char -> bool)
    requires s == [] || (!drop(s[0]) && !drop(s[|s| - 1]))
    ensures Trim(s, drop) == s
  {
    assert s[0..|s|] == s;
  }

  /** Stripping twice is stripping once. */
  lemma StripIdempotent(s: string)
    ensures Strip(Strip(s)) == Strip(s)
  {
    TrimOfTrimmed(Strip(s), IsSpace);
  }

  /** `s.replace(pat, "")`: every non-overlapping occurrence of `pat`, found
      left to right, is removed; text that a removal brings together is not
      searched again. */
  function RemoveAll(s: string, pat: string): (r: string)
    requires |pat| > 0
    ensures |r| <= |s|
    decreases |s|
  {
    if |s| < |pat| then s
    else if s[..|pat|] == pat then RemoveAll(s[|pat|..], pat)
    else [s[0]] + RemoveAll(s[1..], pat)
  }

  /** A string that lacks one of the characters of `pat` has no occurrence
      to remove. */
  lemma {:induction false} RemoveAllAbsent(s: string, pat: string, k: nat)
    requires k < |pat|
    requires forall i :: 0 <= i < |s| ==> s[i] != pat[k]
    ensures RemoveAll(s, pat) == s
    decreases |s|
  {
    if |s| >= |pat| {
      assert s[..|pat|][k] == s[k] != pat[k];
      RemoveAllAbsent(s[1..], pat, k);
      assert s == [s[0]] + s[1..];
    }
  }

  /** Removing a single character distributes over concatenation. */
  lemma {:induction false} RemoveCharAppend(a: string, b: string, c: char)
    ensures RemoveAll(a + b, [c]) == RemoveAll(a, [c]) + RemoveAll(b, [c])
    decreases |a|
  {
    if a != [] {
      assert (a + b)[1..] == a[1..] + b;
      assert (a + b)[..1] == a[..1];
      RemoveCharAppend(a[1..], b, c);
    } else {
      assert a + b == b;
    }
  }

  /** `pat` occurs in `s` at index `i`. */
  predicate OccursAt(s: string, pat: string, i: int) {
    0 <= i && i + |pat| <= |s| && s[i..i + |pat|] == pat
  }

  /** `s.startswith(pat)`: the pattern occurs at index 0. */
  predicate StartsWith(s: string, pat: string)
    ensures StartsWith(s, pat) <==> OccursAt(s, pat, 0)
  {
    |pat| <= |s| && s[..|pat|] == pat
  }

  lemma OccursAtTail(s: string, pat: string, j: int)
    requires |s| > 0 && 1 <= j
    ensures OccursAt(s, pat, j) <==> OccursAt(s[1..], pat, j - 1)
  {
    if j + |pat| <= |s| {
      assert s[1..][j - 1..j - 1 + |pat|] == s[j..j + |pat|];
    }
  }

  /** `s.find(pat)`: the index of the first occurrence, or -1. */
  function Find(s: string, pat: string): (i: int)
    ensures -1 <= i
    ensures i >= 0 ==> OccursAt(s, pat, i)
    ensures forall j :: 0 <= j && (i < 0 || j < i) ==> !OccursAt(s, pat, j)
    decreases |s|
  {
    if |s| < |pat| then -1
    else if s[..|pat|] == pat then 0
    else
      var k := Find(s[1..], pat);
      assert forall j :: 1 <= j ==> (OccursAt(s, pat, j) <==> OccursAt(s[1..], pat, j - 1)) by {
        forall j | 1 <= j { OccursAtTail(s, pat, j); }
      }
      assert !OccursAt(s, pat, 0);
      if k < 0 then -1 else k + 1
  }

  /** `pat in s`. */
  predicate Contains(s: string, pat: string)
    ensures Contains(s, pat) <==> exists i :: OccursAt(s, pat, i)
  {
    Find(s, pat) >= 0
  }

  /** An occurrence at any index makes the text contain the pattern. */
  lemma OccursAtContains(s: string, pat: string, i: int)
    requires OccursAt(s, pat, i)
    ensures Contains(s, pat)
  {
  }

  /** Appending text never removes an occurrence. */
  lemma ContainsAppend(s: string, t: string, pat: string)
    requires Contains(s, pat)
    ensures Contains(s + t, pat)
  {
    var i := Find(s, pat);
    assert (s + t)[i..i + |pat|] == s[i..i + |pat|];
    OccursAtContains(s + t, pat, i);
  }

  /** `s.replace(a, b, 1)`: the first occurrence of `a`, if any, becomes `b`. */
  function ReplaceFirst(s: string, a: string, b: string): (r: string)
    ensures !Contains(s, a) ==> r == s
    ensures Contains(s, a) ==>
      var i := Find(s, a);
      && |r| == |s| - |a| + |b|
      && r[..i] == s[..i] && (forall j :: 0 <= j < i ==> !OccursAt(s, a, j))
      && OccursAt(r, b, i)
      && r[i + |b|..] == s[i + |a|..]
  {
    var i := Find(s, a);
    if i < 0 then s else s[..i] + b + s[i + |a|..]
  }

  /** A replacement of the first occurrence, when the text starts with
      the pattern, replaces the prefix. */
  lemma ReplaceFirstAtStart(s: string, a: string, b: string)
    requires StartsWith(s, a)
    ensures ReplaceFirst(s, a, b) == b + s[|a|..]
  {
    assert OccursAt(s, a, 0);
  }

  /** ASCII lower case, as the `decimal` module compares the spellings of
      Infinity and NaN. */
  function LowerAscii(s: string): (r: string)
    ensures |r| == |s|
  {
    seq(|s|, i requires 0 <= i < |s| =>
      if 'A' <= s[i] <= 'Z' then (s[i] as int + 32) as char else s[i])
  }
}
