/** The email shape shared by the student signup form, the admin
    registration form and the admin login form: the regular expression
    `^[^\s@]+@[^\s@]+\.[^\s@]+$`, written as a predicate over characters. */
module EmailPattern {
  import opened Text

  /** `[^\s@]`: any character that is neither whitespace nor `@`. */
  predicate AddressChar(c: char) {
    !IsWhitespace(c) && c != '@'
  }

  /** `s[lo..hi]` is a run of `[^\s@]`. */
  predicate AddressRun(s: string, lo: int, hi: int)
    requires 0 <= lo && hi <= |s|
  {
    forall k :: lo <= k < hi ==> AddressChar(s[k])
  }

  /** The regular expression itself: `s` splits as A `@` B `.` C with A, B and C
      non-empty runs of `[^\s@]`, the `@` at index `i` and the `.` at index `j`. */
  ghost predicate MatchesEmailRegex(s: string) {
    exists i, j :: 0 < i && i + 1 < j && j + 1 < |s| && s[i] == '@' && s[j] == '.'
      && AddressRun(s, 0, i) && AddressRun(s, i + 1, j) && AddressRun(s, j + 1, |s|)
  }

  /** Index of the first `c` in `s` at or after `from`, or `|s|` when there is none. */
  function IndexFrom(s: string, c: char, from: nat): (i: nat)
    requires from <= |s|
    ensures from <= i <= |s|
    ensures forall k :: from <= k < i ==> s[k] != c
    ensures i < |s| ==> s[i] == c
    decreases |s| - from
  {
    if from == |s| || s[from] == c then from
    else IndexFrom(s, c, from + 1)
  }

  /** Index of the first `c` in `s`, or `|s|` when there is none. */
  function IndexOf(s: string, c: char): (i: nat)
    ensures i <= |s|
    ensures forall k :: 0 <= k < i ==> s[k] != c
    ensures i < |s| ==> s[i] == c
  {
    IndexFrom(s, c, 0)
  }

  /** The email check as the forms compute it: find the `@`, require address
      characters everywhere else, and find a `.` in the domain after its first
      character and before its last. */
  predicate IsEmail(s: string) {
    var at := IndexOf(s, '@');
    && 0 < at < |s|
    && AddressRun(s, 0, at)
    && AddressRun(s, at + 1, |s|)
    && at + 2 <= |s|
    && IndexFrom(s, '.', at + 2) < |s| - 1
  }

  /** Every string the computed check accepts matches the regular expression. */
  lemma {:induction false} IsEmailSound(s: string)
    requires IsEmail(s)
    ensures MatchesEmailRegex(s)
  {
    var i := IndexOf(s, '@');
    var j := IndexFrom(s, '.', i + 2);
    assert AddressRun(s, i + 1, j);
    assert AddressRun(s, j + 1, |s|);
  }

  /** Every string the regular expression matches passes the computed check. */
  lemma {:induction false} IsEmailComplete(s: string)
    requires MatchesEmailRegex(s)
    ensures IsEmail(s)
  {
    var i, j :| 0 < i && i + 1 < j && j + 1 < |s| && s[i] == '@' && s[j] == '.'
      && AddressRun(s, 0, i) && AddressRun(s, i + 1, j) && AddressRun(s, j + 1, |s|);
    var at := IndexOf(s, '@');
    assert at <= i;
    assert AddressChar(s[j]);
    assert AddressRun(s, i + 1, |s|);
    assert IndexFrom(s, '.', i + 2) <= j;
  }

  /** The computed check accepts exactly the strings the regular expression
      matches. */
  lemma IsEmailMatchesRegex(s: string)
    ensures IsEmail(s) <==> MatchesEmailRegex(s)
  {
    if IsEmail(s) {
      IsEmailSound(s);
    }
    if MatchesEmailRegex(s) {
      IsEmailComplete(s);
    }
  }

  /** The email check in plain words: no whitespace anywhere, exactly one `@`,
      something before it, and a `.` in the domain with text on both sides. */
  lemma EmailShape(s: string)
    ensures IsEmail(s) <==>
      && (forall k :: 0 <= k < |s| ==> !IsWhitespace(s[k]))
      && IndexOf(s, '@') < |s|
      && (forall k :: 0 <= k < |s| && s[k] == '@' ==> k == IndexOf(s, '@'))
      && 0 < IndexOf(s, '@')
      && (exists k :: IndexOf(s, '@') + 1 < k < |s| - 1 && s[k] == '.')
  {
    var at := IndexOf(s, '@');
    if at < |s| && exists k :: at + 1 < k < |s| - 1 && s[k] == '.' {
      var d :| at + 1 < d < |s| - 1 && s[d] == '.';
      assert IndexFrom(s, '.', at + 2) <= d;
    }
    if IsEmail(s) {
      assert s[IndexFrom(s, '.', at + 2)] == '.';
    }
  }

  /** The email message both admin forms show: required when empty, a format
      complaint when the check fails, nothing otherwise. */
  function AdminEmailError(email: string): (r: string)
    ensures r == "" <==> IsEmail(email)
    ensures email == "" ==> r == "Email Address is required"
    ensures email != "" && !IsEmail(email) ==> r == "Invalid email format"
  {
    if email == "" then "Email Address is required"
    else if !IsEmail(email) then "Invalid email format"
    else ""
  }
}
