/** The scheme component that `urllib.parse.urlparse` reports for a reference:
    a simplified model of section 3.1 of RFC 3986 as Python's `urlsplit` applies it.
    The scheme is the text before the first `:` when that text is non-empty,
    starts with an ASCII letter and holds only letters, digits, `+`, `-` and `.`;
    it is reported in lower case, and is empty when there is no such text. */
module Url {
  import opened Text

  predicate IsAsciiLetter(c: char) {
    ('a' <= c <= 'z') || ('A' <= c <= 'Z')
  }

  /** The characters RFC 3986 allows in a scheme token. */
  predicate IsSchemeChar(c: char) {
    IsAsciiLetter(c) || IsDigit(c) || c == '+' || c == '-' || c == '.'
  }

  /** A well-formed scheme token: a letter followed by scheme characters. */
  predicate IsSchemeToken(t: string) {
    t != [] && IsAsciiLetter(t[0]) && forall k :: 0 <= k < |t| ==> IsSchemeChar(t[k])
  }

  /** `s.find(':')`, with `|s|` standing for Python's `-1` (no colon). */
  function FindColon(s: string): (i: nat)
    ensures i <= |s|
    ensures i < |s| ==> s[i] == ':'
    ensures forall k :: 0 <= k < i ==> s[k] != ':'
  {
    if s == [] || s[0] == ':' then 0 else 1 + FindColon(s[1..])
  }

  /** `urlparse(s).scheme`. */
  function Scheme(s: string): string {
    var i := FindColon(s);
    if 0 < i < |s| && IsSchemeToken(s[..i]) then LowerAscii(s[..i]) else ""
  }

  /** A reference that opens with a scheme token and a colon has that token,
      lower-cased, as its scheme. */
  lemma SchemeOfPrefix(s: string, t: string)
    requires IsSchemeToken(t) && t + ":" <= s
    ensures Scheme(s) == LowerAscii(t)
  {
    var i := FindColon(s);
    assert s[|t|] == (t + ":")[|t|] == ':';
    assert forall k :: 0 <= k < |t| ==> s[k] == t[k] && s[k] != ':';
    assert i == |t|;
    assert s[..i] == t;
  }

  /** A reference whose text before its first colon holds a character that no
      scheme may hold has no scheme. */
  lemma NoSchemeWithForeignChar(s: string, p: string, k: nat)
    requires p + ":" <= s && forall j :: 0 <= j < |p| ==> p[j] != ':'
    requires k < |p| && !IsSchemeChar(p[k])
    ensures Scheme(s) == ""
  {
    assert s[|p|] == (p + ":")[|p|] == ':';
    assert forall j :: 0 <= j < |p| ==> s[j] == p[j];
    assert FindColon(s) == |p|;
    assert s[..|p|] == p;
  }

  /** A reference that does not start with an ASCII letter has no scheme. */
  lemma NoSchemeWithoutLeadingLetter(s: string)
    requires s == [] || !IsAsciiLetter(s[0])
    ensures Scheme(s) == ""
  {
  }

  /** A non-empty scheme is always a lower-case token that stands, followed by
      a colon, at the very start of the reference. */
  lemma SchemeIsLeadingToken(s: string)
    requires Scheme(s) != ""
    ensures IsSchemeToken(Scheme(s))
    ensures |Scheme(s)| < |s| && s[|Scheme(s)|] == ':'
    ensures LowerAscii(s[..|Scheme(s)|]) == Scheme(s)
  {
    var i := FindColon(s);
    var t := s[..i];
    var r := LowerAscii(t);
    forall k | 0 <= k < |t| ensures IsSchemeChar(r[k]) {
      assert IsSchemeChar(t[k]);
    }
  }
}
