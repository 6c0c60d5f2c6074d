/**
 * The string operations the controllers lean on: JavaScript truthiness of a
 * request field, `String.prototype.trim`, `toLowerCase`, and the
 * case-insensitive containment a `$regex` with option "i" performs.
 */
module Text {
  import opened Wrappers

  /** A request field is truthy when it was sent and is not the empty string. */
  predicate Truthy(field: Option<string>) {
    field.Some? && field.value != ""
  }

  /** The characters `trim` removes: ECMAScript WhiteSpace and LineTerminator. */
  predicate IsWhitespace(c: char) {
    || c == ' ' || c == '\t' || c == '\n' || c == '\r'
    || c == '\U{000B}' || c == '\U{000C}' || c == '\U{00A0}' || c == '\U{FEFF}'
    || c == '\U{1680}' || ('\U{2000}' <= c <= '\U{200A}')
    || c == '\U{2028}' || c == '\U{2029}' || c == '\U{202F}' || c == '\U{205F}' || c == '\U{3000}'
  }

  predicate IsBlank(s: string) {
    forall i | 0 <= i < |s| :: IsWhitespace(s[i])
  }

  /** The first position at or after `i` that does not hold whitespace, or `|s|` when there is none. */
  function FirstNonBlank(s: string, i: nat): (n: nat)
    requires i <= |s|
    ensures i <= n <= |s|
    ensures forall k | i <= k < n :: IsWhitespace(s[k])
    ensures n < |s| ==> !IsWhitespace(s[n])
    decreases |s| - i
  {
    if i < |s| && IsWhitespace(s[i]) then FirstNonBlank(s, i + 1) else i
  }

  /** The end of `s[lo..j]` once its trailing whitespace is dropped. */
  function EndOfNonBlank(s: string, lo: nat, j: nat): (m: nat)
    requires lo <= j <= |s|
    ensures lo <= m <= j
    ensures forall k | m <= k < j :: IsWhitespace(s[k])
    ensures lo < m ==> !IsWhitespace(s[m - 1])
  {
    if lo < j && IsWhitespace(s[j - 1]) then EndOfNonBlank(s, lo, j - 1) else j
  }

  /**
   * `s.trim()`: the piece of `s` left once the leading and the trailing
   * whitespace are dropped, empty exactly when `s` is all whitespace.
   */
  function Trim(s: string): (r: string)
    ensures r == [] <==> IsBlank(s)
    ensures r != [] ==> !IsWhitespace(r[0]) && !IsWhitespace(r[|r| - 1])
    ensures var a := FirstNonBlank(s, 0);
      && OccursAt(r, s, a)
      && IsBlank(s[..a])
      && IsBlank(s[a + |r|..])
  {
    var a := FirstNonBlank(s, 0);
    var b := EndOfNonBlank(s, a, |s|);
    assert a < |s| ==> a < b;
    s[a..b]
  }

  /** `field?.trim() === ""`: the field was sent and holds only whitespace. An absent field is not caught. */
  predicate TrimsToEmpty(field: Option<string>) {
    field.Some? && Trim(field.value) == ""
  }

  /** `toLowerCase` on the ASCII letters. */
  function LowerChar(c: char): char {
    if 'A' <= c <= 'Z' then (c as int + 32) as char else c
  }

  function Lower(s: string): string {
    seq(|s|, i requires 0 <= i < |s| => LowerChar(s[i]))
  }

  /** `pattern` occurs in `text` starting at position `i`. */
  predicate OccursAt(pattern: string, text: string, i: int) {
    0 <= i <= |text| - |pattern| && text[i..i + |pattern|] == pattern
  }

  predicate IsSubstring(pattern: string, text: string) {
    exists i | 0 <= i <= |text| :: OccursAt(pattern, text, i)
  }

  /** What `{ $regex: query, $options: "i" }` matches, with the query read as literal text. */
  predicate ContainsIgnoringCase(text: string, query: string) {
    IsSubstring(Lower(query), Lower(text))
  }

  /** Lowercasing twice is lowercasing once, so a stored (lowercased) username is a fixed point. */
  lemma LowerIdempotent(s: string)
    ensures Lower(Lower(s)) == Lower(s)
  {
  }

  /** A literal occurrence of the query is always a match, whatever the case of either side. */
  lemma {:induction false} LiteralOccurrenceMatches(text: string, query: string)
    requires IsSubstring(query, text)
    ensures ContainsIgnoringCase(text, query)
  {
    var i :| 0 <= i <= |text| && OccursAt(query, text, i);
    assert Lower(text)[i..i + |query|] == Lower(query);
    assert OccursAt(Lower(query), Lower(text), i);
  }

  /** The match ignores the case of the query and of the text. */
  lemma {:induction false} MatchIgnoresCase(text: string, query: string)
    ensures ContainsIgnoringCase(Lower(text), Lower(query)) == ContainsIgnoringCase(text, query)
  {
    LowerIdempotent(text);
    LowerIdempotent(query);
  }
}
