/** The two input predicates of the portal, `validate_email` and
    `validate_phone`. Each is one Python `re.match` of a pattern anchored by
    `^` and `$`; Python's `$` also matches just before a final newline, so a
    string ending in "\n" matches when the string without it does. */
module Validation {
  import opened Text

  // ---------- validate_email: ^[a-zA-Z0-9._%+-]+@[a-zA-Z0-9.-]+\.[a-zA-Z]{2,}$

  predicate IsLocalChar(c: char) {
    IsLetter(c) || IsDigit(c) || c == '.' || c == '_' || c == '%' || c == '+' || c == '-'
  }

  predicate IsDomainChar(c: char) {
    IsLetter(c) || IsDigit(c) || c == '.' || c == '-'
  }

  predicate LocalChars(s: string) { forall i :: 0 <= i < |s| ==> IsLocalChar(s[i]) }
  predicate DomainChars(s: string) { forall i :: 0 <= i < |s| ==> IsDomainChar(s[i]) }
  predicate Letters(s: string) { forall i :: 0 <= i < |s| ==> IsLetter(s[i]) }

  /** The pattern's language read off the regular expression: a non-empty
      local part, '@', a non-empty domain, '.', and at least two letters. The
      witnesses are the positions of the '@' and of the final '.'. */
  ghost predicate EmailShapeAt(s: string, at: int, dot: int) {
    && 1 <= at && at + 1 < dot && dot + 2 < |s|
    && s[at] == '@' && s[dot] == '.'
    && LocalChars(s[..at]) && DomainChars(s[at + 1..dot]) && Letters(s[dot + 1..])
  }

  ghost predicate EmailShape(s: string) {
    exists at, dot :: EmailShapeAt(s, at, dot)
  }

  /** Position of the first `c` in `s`, or |s|. */
  function IndexOf(s: string, c: char): (k: nat)
    ensures k <= |s|
    ensures k < |s| ==> s[k] == c
    ensures forall i :: 0 <= i < k ==> s[i] != c
  {
    if s == [] then 0 else if s[0] == c then 0 else 1 + IndexOf(s[1..], c)
  }

  /** Position of the last `c` in `s`, or -1. */
  function LastIndexOf(s: string, c: char): (k: int)
    ensures -1 <= k < |s|
    ensures k >= 0 ==> s[k] == c
    ensures forall i :: k < i < |s| ==> s[i] != c
  {
    if s == [] then -1
    else if s[|s| - 1] == c then |s| - 1
    else LastIndexOf(s[..|s| - 1], c)
  }

  /** A deterministic reading of the pattern: the first '@' ends the local
      part, and the last '.' of the rest starts the top-level domain. */
  function MatchesEmail(s: string): bool {
    var at := IndexOf(s, '@');
    at < |s| && 1 <= at && LocalChars(s[..at]) &&
    var rest := s[at + 1..];
    var dot := LastIndexOf(rest, '.');
    1 <= dot && dot + 2 < |rest| && DomainChars(rest[..dot]) && Letters(rest[dot + 1..])
  }

  lemma MatchesEmailIsShape(s: string)
    ensures MatchesEmail(s) <==> EmailShape(s)
  {
    if MatchesEmail(s) { MatchGivesShape(s); }
    if EmailShape(s) {
      var a, d :| EmailShapeAt(s, a, d);
      ShapeGivesMatch(s, a, d);
    }
  }

  lemma MatchGivesShape(s: string)
    requires MatchesEmail(s)
    ensures EmailShape(s)
  {
    var at := IndexOf(s, '@');
    var rest := s[at + 1..];
    var dot := LastIndexOf(rest, '.');
    assert s[at + 1..at + 1 + dot] == rest[..dot];
    assert s[at + 1 + dot + 1..] == rest[dot + 1..];
    assert EmailShapeAt(s, at, at + 1 + dot);
  }

  lemma ShapeGivesMatch(s: string, a: int, d: int)
    requires EmailShapeAt(s, a, d)
    ensures MatchesEmail(s)
  {
    var at := IndexOf(s, '@');
    // '@' is not a local character, so `a` is the first '@'
    assert forall i :: 0 <= i < a ==> s[..a][i] == s[i];
    assert at == a;
    var rest := s[at + 1..];
    var k := d - at - 1;
    assert rest[k] == '.';
    // no '.' among the letters after position k
    forall i | k < i < |rest| ensures rest[i] != '.' {
      assert rest[i] == s[d + 1..][i - k - 1];
    }
    assert LastIndexOf(rest, '.') == k;
    assert rest[..k] == s[at + 1..d];
    assert rest[k + 1..] == s[d + 1..];
  }

  /** Python's `re.match` of an anchored pattern: the whole string, or the
      string less one final newline. */
  predicate PythonFullMatch(s: string, p: string -> bool) {
    p(s) || (|s| > 0 && s[|s| - 1] == '\n' && p(s[..|s| - 1]))
  }

  /** `validate_email`: `re.match` of the pattern (see `ValidateEmailSpec`). */
  function ValidateEmail(email: string): bool {
    PythonFullMatch(email, MatchesEmail)
  }

  /** `validate_email` accepts exactly the strings that, whole or less a
      final newline, have the pattern's shape. */
  lemma ValidateEmailSpec(email: string)
    ensures ValidateEmail(email) <==>
      || EmailShape(email)
      || (|email| > 0 && email[|email| - 1] == '\n' && EmailShape(email[..|email| - 1]))
  {
    MatchesEmailIsShape(email);
    if |email| > 0 {
      MatchesEmailIsShape(email[..|email| - 1]);
    }
  }

  /** A string of the pattern's shape holds exactly one '@'. */
  lemma ShapeHasOneAt(s: string)
    requires EmailShape(s)
    ensures exists at :: 0 < at < |s| && s[at] == '@' &&
              forall i :: 0 <= i < |s| && i != at ==> s[i] != '@'
  {
    var a, d :| EmailShapeAt(s, a, d);
    forall i | 0 <= i < |s| && i != a ensures s[i] != '@' {
      if i < a {
        assert s[..a][i] == s[i];
      } else if i < d {
        assert s[a + 1..d][i - a - 1] == s[i];
      } else if i > d {
        assert s[d + 1..][i - d - 1] == s[i];
      }
    }
  }

  /** An address accepted by `validate_email`, with or without the tolerated
      final newline, holds exactly one '@'. */
  lemma ValidEmailHasOneAt(email: string)
    requires ValidateEmail(email)
    ensures exists at :: 0 < at < |email| && email[at] == '@' &&
              forall i :: 0 <= i < |email| && i != at ==> email[i] != '@'
  {
    ValidateEmailSpec(email);
    if EmailShape(email) {
      ShapeHasOneAt(email);
    } else {
      var p := email[..|email| - 1];
      ShapeHasOneAt(p);
      var at :| 0 < at < |p| && p[at] == '@' &&
                forall i :: 0 <= i < |p| && i != at ==> p[i] != '@';
      forall i | 0 <= i < |email| && i != at ensures email[i] != '@' {
        if i < |p| {
          assert p[i] == email[i];
        }
      }
      assert email[at] == '@';
    }
  }

  // ---------- validate_phone: empty is accepted, else ^[0-9+\-\s]{10,15}$

  predicate IsPhoneChar(c: char) { IsDigit(c) || c == '+' || c == '-' || IsSpace(c) }
  predicate PhoneChars(s: string) { forall i :: 0 <= i < |s| ==> IsPhoneChar(s[i]) }

  predicate MatchesPhone(s: string) { 10 <= |s| <= 15 && PhoneChars(s) }

  /** `validate_phone`: an absent or empty phone is accepted; otherwise 10 to
      15 digits, '+', '-' or spaces, where a 16th character is tolerated only
      if it is the final newline that `$` may skip. */
  function ValidatePhone(phone: string): (ok: bool)
    ensures ok <==> phone == [] || MatchesPhone(phone)
                    || (|phone| == 16 && phone[15] == '\n' && PhoneChars(phone[..15]))
  {
    phone == [] || PythonFullMatch(phone, MatchesPhone)
  }
}
