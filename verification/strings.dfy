/**
 * `String.prototype.trim` as `addSegment` uses it: once to decide whether the text is blank, once to
 * obtain the text that is stored.
 */
module Strings {

  /**
   * The characters `trim` removes: the ECMAScript WhiteSpace and LineTerminator code points
   * (tab, vertical tab, form feed, the space separators of Unicode category Zs, the byte order mark,
   * line feed, carriage return, line and paragraph separator).
   */
  predicate IsWhitespace(c: char) {
    || c == '\t' || c == '\n' || c == '\U{000B}' || c == '\U{000C}' || c == '\r'
    || c == ' ' || c == '\U{00A0}' || c == '\U{1680}'
    || ('\U{2000}' <= c <= '\U{200A}')
    || c == '\U{2028}' || c == '\U{2029}' || c == '\U{202F}' || c == '\U{205F}'
    || c == '\U{3000}' || c == '\U{FEFF}'
  }

  predicate AllWhitespace(s: string) {
    forall i :: 0 <= i < |s| ==> IsWhitespace(s[i])
  }

  /** Neither end of `t` is whitespace (lemma TrimmedIsFixed: `t` is then its own trim). */
  predicate Trimmed(t: string) {
    t == [] || (!IsWhitespace(t[0]) && !IsWhitespace(t[|t| - 1]))
  }

  /** The number of whitespace characters `s` starts with. */
  function LeadingBlanks(s: string): (n: nat)
    ensures n <= |s|
    ensures AllWhitespace(s[..n])
    ensures n == |s| || !IsWhitespace(s[n])
  {
    if |s| == 0 || !IsWhitespace(s[0]) then 0
    else
      var n := 1 + LeadingBlanks(s[1..]);
      assert forall i :: 1 <= i < n ==> s[i] == s[1..][..n - 1][i - 1];
      n
  }

  /** The number of whitespace characters `s` ends with. */
  function TrailingBlanks(s: string): (n: nat)
    ensures n <= |s|
    ensures AllWhitespace(s[|s| - n..])
    ensures n == |s| || !IsWhitespace(s[|s| - n - 1])
  {
    if |s| == 0 || !IsWhitespace(s[|s| - 1]) then 0
    else
      var init := s[..|s| - 1];
      var n := 1 + TrailingBlanks(init);
      assert forall i :: |s| - n <= i < |s| - 1 ==> s[i] == init[|init| - (n - 1)..][i - (|s| - n)];
      n
  }

  /**
   * `s.trim()`: `s` without its leading and trailing whitespace. The result is empty exactly when
   * `s` is all whitespace; otherwise it starts and ends with a non-whitespace character, and
   * (lemma TrimSplits) `s` is the result surrounded by whitespace.
   */
  function Trim(s: string): (r: string)
    ensures |r| <= |s|
    ensures r == [] <==> AllWhitespace(s)
    ensures Trimmed(r)
  {
    var lead := LeadingBlanks(s);
    if lead == |s| then
      assert s[..lead] == s;
      []
    else
      var rest := s[lead..];
      var trail := TrailingBlanks(rest);
      assert rest[0] == s[lead];
      var r := rest[..|rest| - trail];
      assert r[0] == s[lead];
      assert r[|r| - 1] == rest[|rest| - trail - 1];
      r
  }

  /** `s` is the trimmed text with a whitespace prefix and a whitespace suffix around it. */
  lemma TrimSplits(s: string) returns (before: string, after: string)
    ensures s == before + Trim(s) + after
    ensures AllWhitespace(before) && AllWhitespace(after)
  {
    var lead := LeadingBlanks(s);
    if lead == |s| {
      assert s[..lead] == s;
      before, after := s, [];
    } else {
      var rest := s[lead..];
      var trail := TrailingBlanks(rest);
      assert Trim(s) == rest[..|rest| - trail];
      assert rest[|rest| - trail..] == s[|s| - trail..];
      SplitInThree(s, lead, |s| - trail);
      assert rest[..|rest| - trail] == s[lead..|s| - trail];
      before, after := s[..lead], s[|s| - trail..];
    }
  }

  lemma SplitInThree<C>(s: seq<C>, i: nat, j: nat)
    requires i <= j <= |s|
    ensures s == s[..i] + s[i..j] + s[j..]
  {
  }

  /** A string with no whitespace at either end is its own trim. */
  lemma TrimmedIsFixed(t: string)
    requires Trimmed(t)
    ensures Trim(t) == t
  {
    if t != [] {
      assert LeadingBlanks(t) == 0;
      assert t[0..] == t;
      assert TrailingBlanks(t) == 0;
    }
  }

  /** Trimming twice is trimming once: text stored by `addSegment` is already its own trim. */
  lemma TrimIdempotent(s: string)
    ensures Trim(Trim(s)) == Trim(s)
  {
    TrimmedIsFixed(Trim(s));
  }
}
