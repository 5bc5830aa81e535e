/** The part of Python's `uuid.UUID` that a transaction identifier uses:
    its canonical text, `str(u)`, and the constructor `UUID(text)`. */
module Uuids {
  import opened Errors
  import opened Text

  type Nibble = x: int | 0 <= x < 16

  /** A UUID: its 128 bits as 32 hexadecimal digits, most significant
      first. Two UUIDs are equal exactly when their integers are. */
  type Uuid = s: seq<Nibble> | |s| == 32 witness seq(32, i => 0)

  predicate IsHexDigit(c: char) {
    '0' <= c <= '9' || 'a' <= c <= 'f' || 'A' <= c <= 'F'
  }

  function HexChar(d: Nibble): (c: char)
    ensures IsHexDigit(c)
  {
    if d < 10 then ('0' as int + d) as char else ('a' as int + d - 10) as char
  }

  /** The digit that `int(c, 16)` reads, in either case. */
  function HexValue(c: char): (v: Nibble)
    requires IsHexDigit(c)
  {
    if '0' <= c <= '9' then c as int - '0' as int
    else if 'a' <= c <= 'f' then c as int - 'a' as int + 10
    else c as int - 'A' as int + 10
  }

  lemma HexValueOfHexChar(d: Nibble)
    ensures HexValue(HexChar(d)) == d
  {
  }

  /** `'%0*x' % n`: lower-case hex digits, one per nibble. */
  function Hex(ds: seq<Nibble>): (s: string)
    ensures |s| == |ds|
    ensures forall i :: 0 <= i < |ds| ==> s[i] == HexChar(ds[i])
  {
    seq(|ds|, i requires 0 <= i < |ds| => HexChar(ds[i]))
  }

  /** The digits of a group of nibbles are that group of the digits. */
  lemma HexSlice(ds: seq<Nibble>, i: int, j: int)
    requires 0 <= i <= j <= |ds|
    ensures Hex(ds[i..j]) == Hex(ds)[i..j]
  {
  }

  /** `str(u)`: the 32 lower-case hex digits grouped 8-4-4-4-12 and joined
      by hyphens. */
  function UuidToString(u: Uuid): (s: string)
    ensures |s| == 36
    ensures s[8] == '-' && s[13] == '-' && s[18] == '-' && s[23] == '-'
    ensures s[..8] == Hex(u[..8]) && s[9..13] == Hex(u[8..12]) && s[14..18] == Hex(u[12..16])
    ensures s[19..23] == Hex(u[16..20]) && s[24..] == Hex(u[20..])
  {
    var h := Hex(u);
    HexSlice(u, 0, 8);
    HexSlice(u, 8, 12);
    HexSlice(u, 12, 16);
    HexSlice(u, 16, 20);
    HexSlice(u, 20, 32);
    GroupsJoined(h[..8], h[8..12], h[12..16], h[16..20], h[20..]);
    h[..8] + "-" + h[8..12] + "-" + h[12..16] + "-" + h[16..20] + "-" + h[20..]
  }

  /** Five groups of 8, 4, 4, 4 and 12 characters joined by hyphens. */
  lemma GroupsJoined(a: string, b: string, c: string, d: string, e: string)
    requires |a| == 8 && |b| == 4 && |c| == 4 && |d| == 4 && |e| == 12
    ensures var s := a + "-" + b + "-" + c + "-" + d + "-" + e;
      && |s| == 36
      && s[8] == '-' && s[13] == '-' && s[18] == '-' && s[23] == '-'
      && s[..8] == a && s[9..13] == b && s[14..18] == c && s[19..23] == d && s[24..] == e
  {
    var s := a + "-" + b + "-" + c + "-" + d + "-" + e;
    assert s[..8] == a && s[9..13] == b;
    assert s[14..18] == c && s[19..23] == d;
    assert s[24..] == e;
  }

  predicate IsBrace(c: char) {
    c == '{' || c == '}'
  }

  /** What `UUID(text)` keeps of its argument before reading digits: every
      `urn:` and then every `uuid:` removed, braces stripped from both
      ends, and every hyphen removed. */
  function Normalize(text: string): (h: string) {
    RemoveAll(Trim(RemoveAll(RemoveAll(text, "urn:"), "uuid:"), IsBrace), "-")
  }

  /** Exactly 32 hex digits. */
  predicate IsHexText(h: string) {
    |h| == 32 && forall i :: 0 <= i < 32 ==> IsHexDigit(h[i])
  }

  /** `UUID(text)`: the normalised text must be exactly 32 hex digits;
      `None` stands for the ValueError raised otherwise. */
  function ParseUuid(text: string): (r: Option<Uuid>)
    ensures r.Some? <==> IsHexText(Normalize(text))
    ensures r.Some? ==> forall i :: 0 <= i < 32 ==> r.value[i] == HexValue(Normalize(text)[i])
  {
    var h := Normalize(text);
    if IsHexText(h) then Some(ReadHex(h)) else None
  }

  /** The nibbles that 32 hex digits spell, in either case. */
  function ReadHex(h: string): (u: Uuid)
    requires IsHexText(h)
    ensures forall i :: 0 <= i < 32 ==> u[i] == HexValue(h[i])
  {
    seq(32, i requires 0 <= i < 32 => HexValue(h[i]))
  }

  predicate HyphenFree(p: string) {
    forall i :: 0 <= i < |p| ==> p[i] != '-'
  }

  /** One joining hyphen and a hyphen-free group: removing hyphens keeps
      only the group. */
  lemma JoinStep(acc: string, part: string)
    requires HyphenFree(part)
    ensures RemoveAll(acc + "-" + part, "-") == RemoveAll(acc, "-") + part
  {
    RemoveCharAppend(acc, "-", '-');
    RemoveCharAppend(acc + "-", part, '-');
    assert RemoveAll("-", "-") == "";
    RemoveAllAbsent(part, "-", 0);
  }

  /** Removing the hyphens that join five hyphen-free groups leaves the
      groups run together. */
  lemma HyphensOfGroups(a: string, b: string, c: string, d: string, e: string)
    requires HyphenFree(a) && HyphenFree(b) && HyphenFree(c) && HyphenFree(d) && HyphenFree(e)
    ensures RemoveAll(a + "-" + b + "-" + c + "-" + d + "-" + e, "-") == a + b + c + d + e
  {
    RemoveAllAbsent(a, "-", 0);
    JoinStep(a, b);
    JoinStep(a + "-" + b, c);
    JoinStep(a + "-" + b + "-" + c, d);
    JoinStep(a + "-" + b + "-" + c + "-" + d, e);
  }

  /** Removing the hyphens of the canonical text leaves the 32 digits. */
  lemma HyphensOfCanonical(u: Uuid)
    ensures RemoveAll(UuidToString(u), "-") == Hex(u)
  {
    var h := Hex(u);
    assert HyphenFree(h);
    assert HyphenFree(h[..8]) && HyphenFree(h[8..12]) && HyphenFree(h[12..16]);
    assert HyphenFree(h[16..20]) && HyphenFree(h[20..]);
    HyphensOfGroups(h[..8], h[8..12], h[12..16], h[16..20], h[20..]);
    assert h[..8] + h[8..12] + h[12..16] + h[16..20] + h[20..] == h;
  }

  /** The canonical text normalises to its own digits. */
  lemma NormalizeCanonical(u: Uuid)
    ensures Normalize(UuidToString(u)) == Hex(u)
  {
    var s := UuidToString(u);
    var h := Hex(u);
    assert forall i :: 0 <= i < |s| ==> IsHexDigit(s[i]) || s[i] == '-';
    RemoveAllAbsent(s, "urn:", 3);
    RemoveAllAbsent(s, "uuid:", 4);
    assert s[0] == h[0] && s[35] == h[31];
    TrimOfTrimmed(s, IsBrace);
    HyphensOfCanonical(u);
  }

  /** Reading back the canonical text gives the same UUID. */
  lemma ParseOfToString(u: Uuid)
    ensures ParseUuid(UuidToString(u)) == Some(u)
  {
    NormalizeCanonical(u);
    var r := ParseUuid(UuidToString(u));
    assert r.Some?;
    forall i | 0 <= i < 32 ensures r.value[i] == u[i] {
      HexValueOfHexChar(u[i]);
    }
    assert r.value == u;
  }

  /** Hex digits and hyphens, as the canonical text is made of. */
  predicate HexOrHyphens(s: string) {
    forall i :: 0 <= i < |s| ==> IsHexDigit(s[i]) || s[i] == '-'
  }

  lemma RemovePrefix(pat: string, rest: string)
    requires |pat| > 0
    ensures RemoveAll(pat + rest, pat) == RemoveAll(rest, pat)
  {
    assert (pat + rest)[..|pat|] == pat;
    assert (pat + rest)[|pat|..] == rest;
  }

  lemma NormalizeUrnPrefix(s: string)
    requires HexOrHyphens(s)
    ensures Normalize("urn:uuid:" + s) == Normalize(s)
  {
    var rest := "uuid:" + s;
    assert "urn:uuid:" + s == "urn:" + rest;
    RemovePrefix("urn:", rest);
    assert forall i :: 0 <= i < |rest| ==> rest[i] != "urn:"[1];
    RemoveAllAbsent(rest, "urn:", 1);
    RemovePrefix("uuid:", s);
    RemoveAllAbsent(s, "uuid:", 0);
    RemoveAllAbsent(s, "urn:", 3);
  }

  /** The URN spelling `urn:uuid:...` of a UUID is read as that UUID. */
  lemma ParseUrnForm(u: Uuid)
    ensures ParseUuid("urn:uuid:" + UuidToString(u)) == Some(u)
  {
    assert HexOrHyphens(UuidToString(u));
    NormalizeUrnPrefix(UuidToString(u));
    ParseOfToString(u);
  }

  lemma TrimBraces(s: string)
    requires |s| > 0 && !IsBrace(s[0]) && !IsBrace(s[|s| - 1])
    ensures Trim("{" + s + "}", IsBrace) == s
  {
    var t := "{" + s + "}";
    assert t[1] == s[0] && t[|t| - 2] == s[|s| - 1];
    assert FirstKept(t, IsBrace, 0) == 1;
    assert LastKeptEnd(t, IsBrace, 1, |t|) == |t| - 1;
    assert t[1..|t| - 1] == s;
  }

  lemma NormalizeBraced(s: string)
    requires HexOrHyphens(s) && |s| > 0 && IsHexDigit(s[0]) && IsHexDigit(s[|s| - 1])
    ensures Normalize("{" + s + "}") == Normalize(s)
  {
    var t := "{" + s + "}";
    assert forall i :: 0 <= i < |t| ==> t[i] != "urn:"[3];
    assert forall i :: 0 <= i < |t| ==> t[i] != "uuid:"[4];
    RemoveAllAbsent(t, "urn:", 3);
    RemoveAllAbsent(t, "uuid:", 4);
    RemoveAllAbsent(s, "urn:", 3);
    RemoveAllAbsent(s, "uuid:", 4);
    TrimBraces(s);
    TrimOfTrimmed(s, IsBrace);
  }

  /** The braced spelling `{...}` of a UUID is read as that UUID. */
  lemma ParseBracedForm(u: Uuid)
    ensures ParseUuid("{" + UuidToString(u) + "}") == Some(u)
  {
    var s := UuidToString(u);
    assert HexOrHyphens(s);
    assert s[0] == Hex(u)[0] && s[35] == Hex(u)[31];
    NormalizeBraced(s);
    ParseOfToString(u);
  }

  /** Distinct UUIDs have distinct canonical texts. */
  lemma ToStringInjective(u: Uuid, v: Uuid)
    requires UuidToString(u) == UuidToString(v)
    ensures u == v
  {
    ParseOfToString(u);
    ParseOfToString(v);
  }
}
