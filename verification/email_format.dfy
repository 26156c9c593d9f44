/** The e-mail format check of `SellerBase` (and of `StatisticsRequest`):
    a full match of the pattern `^[a-zA-Z0-9_.+-]+@[a-zA-Z0-9-]+\.[a-zA-Z0-9-.]+$`,
    i.e. a local part, '@', a domain label, '.', and a suffix. */
module EmailFormat {

  const InvalidFormat: string := "Invalid email format"

  /** The outcome of the field validator: the value unchanged, or the error. */
  datatype Validated = Accepted(email: string) | Rejected(message: string)

  predicate IsAsciiAlnum(c: char)
  {
    'a' <= c <= 'z' || 'A' <= c <= 'Z' || '0' <= c <= '9'
  }

  /** `[a-zA-Z0-9_.+-]` */
  predicate IsLocalChar(c: char)
  {
    IsAsciiAlnum(c) || c == '_' || c == '.' || c == '+' || c == '-'
  }

  /** `[a-zA-Z0-9-]` */
  predicate IsDomainChar(c: char)
  {
    IsAsciiAlnum(c) || c == '-'
  }

  /** `[a-zA-Z0-9-.]`: after the range 0-9 the '-' is a literal. */
  predicate IsSuffixChar(c: char)
  {
    IsAsciiAlnum(c) || c == '-' || c == '.'
  }

  predicate LocalPart(s: string)
  {
    |s| > 0 && forall k :: 0 <= k < |s| ==> IsLocalChar(s[k])
  }

  predicate DomainPart(s: string)
  {
    |s| > 0 && forall k :: 0 <= k < |s| ==> IsDomainChar(s[k])
  }

  predicate SuffixPart(s: string)
  {
    |s| > 0 && forall k :: 0 <= k < |s| ==> IsSuffixChar(s[k])
  }

  /** `s` is local part, '@' at `at`, domain label, '.' at `dot`, suffix. */
  predicate SplitsAt(s: string, at: int, dot: int)
  {
    && 0 <= at < dot < |s|
    && s[at] == '@' && s[dot] == '.'
    && LocalPart(s[..at]) && DomainPart(s[at + 1..dot]) && SuffixPart(s[dot + 1..])
  }

  /** The whole of `s` matches the pattern, for some choice of the two separators. */
  ghost predicate MatchesPattern(s: string)
  {
    exists at, dot :: SplitsAt(s, at, dot)
  }

  /** The first position at or after `from` holding `c`, or `|s|`. */
  function IndexOf(s: string, c: char, from: nat): (k: nat)
    requires from <= |s|
    ensures from <= k <= |s|
    ensures k < |s| ==> s[k] == c
    ensures forall m :: from <= m < k ==> s[m] != c
    decreases |s| - from
  {
    if from == |s| || s[from] == c then from else IndexOf(s, c, from + 1)
  }

  /** The scanner: the separators are the first '@' and the first '.' after it. */
  predicate IsValidEmail(s: string)
  {
    var at := IndexOf(s, '@', 0);
    at < |s| && SplitsAt(s, at, IndexOf(s, '.', at + 1))
  }

  /** The scanner accepts exactly the strings that match the pattern: no
      character class of the pattern holds '@', and the domain class holds
      no '.', so the separators can only be the ones the scanner picks. */
  lemma IsValidEmailIffMatches(s: string)
    ensures IsValidEmail(s) <==> MatchesPattern(s)
  {
    if MatchesPattern(s) {
      var at, dot :| SplitsAt(s, at, dot);
      assert IndexOf(s, '@', 0) == at by {
        assert forall k :: 0 <= k < at ==> s[k] == s[..at][k];
      }
      assert IndexOf(s, '.', at + 1) == dot by {
        assert forall k :: at < k < dot ==> s[k] == s[at + 1..dot][k - at - 1];
      }
    }
  }

  /** An accepted address holds exactly one '@'. */
  lemma AcceptedHasOneAt(s: string)
    requires MatchesPattern(s)
    ensures |set k | 0 <= k < |s| && s[k] == '@'| == 1
  {
    var at, dot :| SplitsAt(s, at, dot);
    var ats := set k | 0 <= k < |s| && s[k] == '@';
    assert forall k :: 0 <= k < at ==> s[k] == s[..at][k];
    assert forall k :: at < k < dot ==> s[k] == s[at + 1..dot][k - at - 1];
    assert forall k :: dot < k < |s| ==> s[k] == s[dot + 1..][k - dot - 1];
    assert ats == {at};
  }

  /** A plain address is accepted. */
  lemma AcceptedPlain()
    ensures MatchesPattern("a@x.com")
  {
    assert SplitsAt("a@x.com", 1, 3);
  }

  /** The local part may hold dots and '+', the domain label '-', and the
      suffix after the first dot further dots. */
  lemma AcceptedDotted()
    ensures MatchesPattern("a.b+c@d-e.f.g")
  {
    var s := "a.b+c@d-e.f.g";
    assert s[..5] == "a.b+c" && s[6..9] == "d-e" && s[10..] == "f.g";
    assert SplitsAt(s, 5, 9);
  }

  /** A missing dot after the '@' is rejected. */
  lemma RejectedWithoutDot()
    ensures !MatchesPattern("a@b")
  {
    IsValidEmailIffMatches("a@b");
  }

  /** An empty domain label is rejected. */
  lemma RejectedEmptyDomain()
    ensures !MatchesPattern("a@.c")
  {
    IsValidEmailIffMatches("a@.c");
  }

  /** A second '@' is rejected. */
  lemma RejectedSecondAt()
    ensures !MatchesPattern("a@@b.c")
  {
    IsValidEmailIffMatches("a@@b.c");
  }

  /** `validate_email`: the value unchanged when it matches, else the error. */
  function ValidateEmail(v: string): (r: Validated)
    ensures r.Accepted? <==> MatchesPattern(v)
    ensures r.Accepted? ==> r.email == v
    ensures r.Rejected? ==> r.message == InvalidFormat
  {
    IsValidEmailIffMatches(v);
    if IsValidEmail(v) then Accepted(v) else Rejected(InvalidFormat)
  }
}
