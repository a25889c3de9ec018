/**
 * The two regular expressions the form validators test.
 *
 *   email: ^[^\s@]+@[^\s@]+\.[^\s@]+$
 *   phone: ^[\d\s\-\+\(\)]+$
 *
 * Each is written the way the regular expression is built: a bracketed
 * character class repeated one or more times (Plus), concatenated with
 * literal characters. An anchored regular expression matches when SOME
 * split of the string fits it, so the email pattern is an existential over
 * the positions of the literal '@' and '.'. The lemmas below then
 * characterise both patterns without reference to the splitting.
 */
module Patterns {
  import opened Text

  /** The two bracketed character classes the patterns use. */
  datatype CharClass =
    | NotSpaceOrAt  // [^\s@]
    | PhoneChar     // [\d\s\-\+\(\)], with \d the ASCII digits

  predicate InClass(cls: CharClass, c: char) {
    match cls
    case NotSpaceOrAt => !IsWs(c) && c != '@'
    case PhoneChar => ('0' <= c <= '9') || IsWs(c) || c == '-' || c == '+' || c == '(' || c == ')'
  }

  /** s matches cls+ : one character of the class, then cls* . */
  predicate Plus(cls: CharClass, s: string)
    decreases |s|
  {
    |s| > 0 && InClass(cls, s[0]) && (|s| == 1 || Plus(cls, s[1..]))
  }

  /** cls+ matches exactly the non-empty strings made only of class characters. */
  lemma {:induction false} PlusIff(cls: CharClass, s: string)
    ensures Plus(cls, s) <==> |s| > 0 && forall i | 0 <= i < |s| :: InClass(cls, s[i])
    decreases |s|
  {
    if |s| > 1 {
      PlusIff(cls, s[1..]);
      assert forall i | 1 <= i < |s| :: s[i] == s[1..][i - 1];
    }
  }

  /** The email pattern matches with its '@' at index at and its '.' at index dot. */
  predicate EmailSplit(s: string, at: int, dot: int) {
    0 <= at < dot < |s| && s[at] == '@' && s[dot] == '.'
    && Plus(NotSpaceOrAt, s[..at])
    && Plus(NotSpaceOrAt, s[at + 1..dot])
    && Plus(NotSpaceOrAt, s[dot + 1..])
  }

  /** emailRegex.test(s) */
  predicate EmailRegex(s: string) {
    exists at, dot | 0 <= at < dot < |s| :: EmailSplit(s, at, dot)
  }

  /** phoneRegex.test(s) */
  predicate PhoneRegex(s: string) {
    Plus(PhoneChar, s)
  }

  // ---------------------------------------------------------------------
  // Characterisations

  predicate NoWs(s: string) {
    forall i | 0 <= i < |s| :: !IsWs(s[i])
  }

  /** at is the position of the one and only '@' in s. */
  predicate OnlyAtSign(s: string, at: int) {
    0 <= at < |s| && s[at] == '@' && forall i | 0 <= i < |s| && i != at :: s[i] != '@'
  }

  /** t holds a '.' that is neither its first nor its last character. */
  predicate InnerDot(t: string) {
    exists d | 0 < d < |t| - 1 :: t[d] == '.'
  }

  /**
   * The shape the email pattern accepts, stated without splitting: no
   * whitespace, exactly one '@', something before it, and after it a '.'
   * that is neither the first nor the last character.
   */
  predicate EmailShape(s: string) {
    NoWs(s) && exists at | 0 < at < |s| :: OnlyAtSign(s, at) && InnerDot(s[at + 1..])
  }

  lemma EmailRegexIff(s: string)
    ensures EmailRegex(s) <==> EmailShape(s)
  {
    if EmailRegex(s) {
      var at, dot :| 0 <= at < dot < |s| && EmailSplit(s, at, dot);
      SplitHasShape(s, at, dot);
    }
    if EmailShape(s) {
      var at :| 0 < at < |s| && OnlyAtSign(s, at) && InnerDot(s[at + 1..]);
      var d :| 0 < d < |s[at + 1..]| - 1 && s[at + 1..][d] == '.';
      ShapeHasSplit(s, at, at + 1 + d);
    }
  }

  lemma SplitHasShape(s: string, at: int, dot: int)
    requires EmailSplit(s, at, dot)
    ensures EmailShape(s)
  {
    var a, b, c := s[..at], s[at + 1..dot], s[dot + 1..];
    PlusIff(NotSpaceOrAt, a);
    PlusIff(NotSpaceOrAt, b);
    PlusIff(NotSpaceOrAt, c);
    forall i | 0 <= i < |s| ensures !IsWs(s[i]) && (i != at ==> s[i] != '@') {
      if i < at { assert s[i] == a[i]; }
      else if at < i < dot { assert s[i] == b[i - at - 1]; }
      else if dot < i { assert s[i] == c[i - dot - 1]; }
    }
    assert s[at + 1..][dot - at - 1] == '.';
    assert InnerDot(s[at + 1..]);
    assert 0 < at && OnlyAtSign(s, at);
  }

  lemma ShapeHasSplit(s: string, at: int, dot: int)
    requires NoWs(s) && OnlyAtSign(s, at) && 0 < at
    requires at + 1 < dot < |s| - 1 && s[dot] == '.'
    ensures EmailSplit(s, at, dot)
  {
    var a, b, c := s[..at], s[at + 1..dot], s[dot + 1..];
    forall i | 0 <= i < |a| ensures InClass(NotSpaceOrAt, a[i]) { assert a[i] == s[i]; }
    forall i | 0 <= i < |b| ensures InClass(NotSpaceOrAt, b[i]) { assert b[i] == s[at + 1 + i]; }
    forall i | 0 <= i < |c| ensures InClass(NotSpaceOrAt, c[i]) { assert c[i] == s[dot + 1 + i]; }
    PlusIff(NotSpaceOrAt, a);
    PlusIff(NotSpaceOrAt, b);
    PlusIff(NotSpaceOrAt, c);
  }

  /** The phone pattern accepts exactly the non-empty strings of digits, whitespace, '+', '-', '(' and ')'. */
  lemma PhoneRegexIff(s: string)
    ensures PhoneRegex(s) <==> |s| > 0 && forall i | 0 <= i < |s| ::
      ('0' <= s[i] <= '9') || IsWs(s[i]) || s[i] in "+-()"
  {
    PlusIff(PhoneChar, s);
  }
}
