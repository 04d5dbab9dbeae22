/** Character classes and string operations the validators and the tables
    rely on, written out for the JavaScript built-ins they stand for. */
module Text {

  /** The characters JavaScript's `\s` class matches and `String.prototype.trim`
      removes: the ECMAScript WhiteSpace and LineTerminator code points. */
  predicate IsWhitespace(c: char) {
    || c == '\t' || c == '\n' || c == '\U{000B}' || c == '\U{000C}' || c == '\r'
    || c == ' ' || c == '\U{00A0}' || c == '\U{1680}'
    || ('\U{2000}' <= c <= '\U{200A}')
    || c == '\U{2028}' || c == '\U{2029}' || c == '\U{202F}' || c == '\U{205F}'
    || c == '\U{3000}' || c == '\U{FEFF}'
  }

  /** `\d` and `[0-9]`: ASCII decimal digits only. */
  predicate IsDigit(c: char) { '0' <= c <= '9' }

  /** `[a-z]` */
  predicate IsLower(c: char) { 'a' <= c <= 'z' }

  /** `[A-Z]` */
  predicate IsUpper(c: char) { 'A' <= c <= 'Z' }

  /** Every character of `s` is a decimal digit (`/^\d*$/`). */
  predicate AllDigits(s: string) {
    forall k :: 0 <= k < |s| ==> IsDigit(s[k])
  }

  /** Nothing but whitespace: what `trim()` reduces to the empty string. */
  predicate Blank(s: string) {
    forall k :: 0 <= k < |s| ==> IsWhitespace(s[k])
  }

  /** Some character of `s` satisfies the class `p`. */
  predicate Contains(s: string, p: char -> bool) {
    exists k :: 0 <= k < |s| && p(s[k])
  }

  /** A non-empty string contains a character with `p` when its first one
      has it or the rest contains one. */
  lemma ContainsCons(s: string, p: char -> bool)
    requires |s| > 0
    ensures Contains(s, p) <==> p(s[0]) || Contains(s[1..], p)
  {
    if Contains(s, p) && !p(s[0]) {
      var k :| 0 <= k < |s| && p(s[k]);
      assert s[1..][k - 1] == s[k];
    }
    if Contains(s[1..], p) {
      var k :| 0 <= k < |s[1..]| && p(s[1..][k]);
      assert s[k + 1] == s[1..][k];
    }
  }

  /** Number of leading whitespace characters. */
  function LeadingSpace(s: string): (n: nat)
    ensures n <= |s|
    ensures forall k :: 0 <= k < n ==> IsWhitespace(s[k])
    ensures n < |s| ==> !IsWhitespace(s[n])
  {
    if |s| == 0 || !IsWhitespace(s[0]) then 0
    else 1 + LeadingSpace(s[1..])
  }

  /** Number of trailing whitespace characters. */
  function TrailingSpace(s: string): (n: nat)
    ensures n <= |s|
    ensures forall k :: |s| - n <= k < |s| ==> IsWhitespace(s[k])
    ensures n < |s| ==> !IsWhitespace(s[|s| - n - 1])
  {
    if |s| == 0 || !IsWhitespace(s[|s| - 1]) then 0
    else 1 + TrailingSpace(s[..|s| - 1])
  }

  /** `String.prototype.trim`: drop whitespace at both ends. The result is the
      piece of `s` starting after its leading whitespace, everything after it
      is whitespace, and a non-empty result starts and ends with a
      non-whitespace character. */
  function Trim(s: string): (r: string)
    ensures LeadingSpace(s) + |r| <= |s|
    ensures r == s[LeadingSpace(s)..LeadingSpace(s) + |r|]
    ensures forall k :: LeadingSpace(s) + |r| <= k < |s| ==> IsWhitespace(s[k])
    ensures |r| > 0 ==> !IsWhitespace(r[0]) && !IsWhitespace(r[|r| - 1])
  {
    var a := LeadingSpace(s);
    var rest := s[a..];
    var b := TrailingSpace(rest);
    var r := rest[..|rest| - b];
    assert forall k :: a + |r| <= k < |s| ==> s[k] == rest[k - a];
    assert |r| > 0 ==> r[0] == s[a] && r[|r| - 1] == rest[|rest| - b - 1];
    r
  }

  /** Trimming keeps every character that is not whitespace, in place. */
  lemma TrimKeeps(s: string, k: nat)
    requires k < |s| && !IsWhitespace(s[k])
    ensures LeadingSpace(s) <= k < LeadingSpace(s) + |Trim(s)|
    ensures Trim(s)[k - LeadingSpace(s)] == s[k]
  {
  }

  /** `!s.trim()` in JavaScript: the trimmed string is empty exactly when `s`
      is blank. */
  lemma TrimEmptyIffBlank(s: string)
    ensures Trim(s) == [] <==> Blank(s)
  {
    if !Blank(s) {
      var k :| 0 <= k < |s| && !IsWhitespace(s[k]);
      TrimKeeps(s, k);
    }
  }

  /** ASCII lower-casing of one character (`toLowerCase` restricted to ASCII). */
  function ToLower(c: char): (d: char)
    ensures IsUpper(c) ==> IsLower(d) && d as int == c as int + 32
    ensures !IsUpper(c) ==> d == c
  {
    if IsUpper(c) then (c as int + 32) as char else c
  }

  /** `String.prototype.toLowerCase` over the ASCII letters. */
  function Lower(s: string): (r: string)
    ensures |r| == |s|
    ensures forall k :: 0 <= k < |s| ==> r[k] == ToLower(s[k])
  {
    seq(|s|, k requires 0 <= k < |s| => ToLower(s[k]))
  }

  /** `s.startsWith(p)` */
  predicate StartsWith(s: string, p: string) {
    |p| <= |s| && s[..|p|] == p
  }
}
