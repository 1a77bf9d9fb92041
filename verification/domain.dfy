/**
 * The domain rules of generate-config.py: `validate_domain`, a full match of
 * `^[a-z0-9.-]+\.[a-z]{2,}$` under Python's `re.match`, and
 * `detect_current_domain`, two `re.search`es over docker-compose.yml with the
 * `# Domain:` comment taking priority over the Traefik `Host` label.
 */
module Domain {
  import opened Wrappers
  import opened Text

  predicate IsLowerLetter(c: char) {
    'a' <= c <= 'z'
  }

  /** The class `[a-z0-9.-]`. */
  predicate IsDomainChar(c: char) {
    IsLowerLetter(c) || '0' <= c <= '9' || c == '.' || c == '-'
  }

  predicate AllDomainChars(s: string) {
    forall i :: 0 <= i < |s| ==> IsDomainChar(s[i])
  }

  predicate AllLowerLetters(s: string) {
    forall i :: 0 <= i < |s| ==> IsLowerLetter(s[i])
  }

  /** `[a-z0-9.-]+\.[a-z]{2,}` covers all of `s`, with its literal dot at `k`. */
  predicate ShapeAt(s: string, k: int) {
    && 1 <= k && k + 3 <= |s| && s[k] == '.'
    && AllDomainChars(s[..k]) && AllLowerLetters(s[k + 1..])
  }

  /** The domain pattern covers all of `s` for some choice of the dot. */
  ghost predicate DomainShaped(s: string) {
    exists k :: ShapeAt(s, k)
  }

  /**
   * `re.match` with `^…$`: `$` also matches just before one final newline,
   * so the pattern may cover the string without its last `\n`.
   */
  ghost predicate RegexFullMatch(d: string) {
    DomainShaped(d) || (|d| > 0 && d[|d| - 1] == '\n' && DomainShaped(d[..|d| - 1]))
  }

  /** How many lowercase letters end `s`. */
  function TrailingLetters(s: string): (t: nat)
    ensures t <= |s|
    ensures AllLowerLetters(s[|s| - t..])
    ensures t < |s| ==> !IsLowerLetter(s[|s| - t - 1])
  {
    if s == [] || !IsLowerLetter(s[|s| - 1]) then 0
    else
      var init := s[..|s| - 1];
      var t := TrailingLetters(init);
      assert s[|s| - (t + 1)..] == init[|init| - t..] + [s[|s| - 1]];
      t + 1
  }

  /** Read the final label from the right: letters, then the dot, then the domain characters before it. */
  predicate ShapeCheck(s: string) {
    var t := TrailingLetters(s);
    t >= 2 && t + 2 <= |s| && s[|s| - t - 1] == '.' && AllDomainChars(s[..|s| - t - 1])
  }

  /** The right-to-left reading finds a match exactly when some placement of the dot does. */
  lemma ShapeCheckIff(s: string)
    ensures ShapeCheck(s) <==> DomainShaped(s)
  {
    var t := TrailingLetters(s);
    if ShapeCheck(s) {
      assert ShapeAt(s, |s| - t - 1);
    }
    if DomainShaped(s) {
      var k :| ShapeAt(s, k);
      assert forall j :: k < j < |s| ==> s[j] == s[k + 1..][j - k - 1];
    }
  }

  /** `validate_domain`. */
  function ValidateDomain(d: string): (ok: bool)
    ensures ok <==> RegexFullMatch(d)
  {
    ShapeCheckIff(d);
    if |d| > 0 && d[|d| - 1] == '\n' then
      ShapeCheckIff(d[..|d| - 1]);
      ShapeCheck(d[..|d| - 1])
    else ShapeCheck(d)
  }

  /** What any shaped string must have: four characters, a domain character first, a letter last, a dot. */
  lemma ShapeNeeds(s: string)
    requires DomainShaped(s)
    ensures |s| >= 4 && IsDomainChar(s[0]) && IsLowerLetter(s[|s| - 1]) && '.' in s
  {
    var k :| ShapeAt(s, k);
    assert s[0] == s[..k][0];
    assert s[|s| - 1] == s[k + 1..][|s| - k - 2];
  }

  lemma TypicalDomainsAccepted()
    ensures ValidateDomain("ossiba.local")
    ensures ValidateDomain("example.com")
  {
    assert ShapeAt("ossiba.local", 6);
    assert ShapeAt("example.com", 7);
  }

  /** No dot at all. */
  lemma BareHostRejected()
    ensures !ValidateDomain("localhost")
  {
    if DomainShaped("localhost") {
      ShapeNeeds("localhost");
    }
  }

  /** A one-letter top-level label. */
  lemma ShortLabelRejected()
    ensures !ValidateDomain("a.b")
  {
    if DomainShaped("a.b") {
      ShapeNeeds("a.b");
    }
  }

  /** Capitals are outside the class. */
  lemma CapitalRejected()
    ensures !ValidateDomain("Example.com")
  {
    if DomainShaped("Example.com") {
      ShapeNeeds("Example.com");
    }
  }

  /** A trailing newline passes, the quirk of `$` under `re.match`. */
  lemma TrailingNewlineAccepted()
    ensures ValidateDomain("a.com\n")
  {
    assert "a.com\n"[..5] == "a.com";
    assert ShapeAt("a.com", 1);
  }

  /** Two trailing newlines do not. */
  lemma TwoNewlinesRejected()
    ensures !ValidateDomain("a.com\n\n")
  {
    var d := "a.com\n\n";
    if DomainShaped(d) {
      ShapeNeeds(d);
    }
    assert d[..|d| - 1] == "a.com\n";
    if DomainShaped("a.com\n") {
      ShapeNeeds("a.com\n");
    }
  }

  /** Empty labels pass: the class admits dots anywhere before the last one. */
  lemma EmptyLabelsAccepted()
    ensures ValidateDomain("..com")
  {
    assert ShapeAt("..com", 1);
  }

  /** Every shaped string consists of domain characters only. */
  lemma ShapedIsDomainChars(s: string)
    requires DomainShaped(s)
    ensures AllDomainChars(s)
  {
    var k :| ShapeAt(s, k);
    forall i | 0 <= i < |s|
      ensures IsDomainChar(s[i])
    {
      if i < k {
        assert s[i] == s[..k][i];
      } else if i > k {
        assert s[i] == s[k + 1..][i - k - 1];
      }
    }
  }

  /** Length of the run of domain characters that starts `s`. */
  function DomainRun(s: string): (n: nat)
    ensures n <= |s|
    ensures AllDomainChars(s[..n])
    ensures n < |s| ==> !IsDomainChar(s[n])
  {
    if s == [] || !IsDomainChar(s[0]) then 0
    else
      var n := DomainRun(s[1..]);
      assert s[..n + 1] == [s[0]] + s[1..][..n];
      n + 1
  }

  /** No shaped prefix reaches past the run of domain characters. */
  lemma ShapedPrefixWithinRun(s: string, n: nat)
    requires n <= |s| && DomainShaped(s[..n])
    ensures n <= DomainRun(s)
  {
    ShapedIsDomainChars(s[..n]);
    var r := DomainRun(s);
  }

  /** The longest shaped prefix among those of length at most `n`. */
  function LongestUpTo(rest: string, n: nat): (r: Option<string>)
    requires n <= |rest|
    ensures r.Some? ==> |r.value| <= n && r.value == rest[..|r.value|] && DomainShaped(r.value)
    ensures r.Some? ==> forall m :: |r.value| < m <= n ==> !DomainShaped(rest[..m])
    ensures r.None? ==> forall m :: 0 <= m <= n ==> !DomainShaped(rest[..m])
  {
    ShapeCheckIff(rest[..n]);
    if ShapeCheck(rest[..n]) then Some(rest[..n])
    else if n == 0 then None
    else LongestUpTo(rest, n - 1)
  }

  /**
   * The group of `([a-z0-9.-]+\.[a-z]{2,})` at the start of `rest` with
   * nothing required after it: greedy backtracking settles on the longest
   * prefix that has the shape.
   */
  function LongestDomainPrefix(rest: string): (r: Option<string>)
    ensures r.Some? ==> StartsWith(rest, r.value) && DomainShaped(r.value)
    ensures r.Some? ==> forall m :: |r.value| < m <= |rest| ==> !DomainShaped(rest[..m])
    ensures r.None? ==> forall m :: 0 <= m <= |rest| ==> !DomainShaped(rest[..m])
  {
    var run := DomainRun(rest);
    var r := LongestUpTo(rest, run);
    assert forall m :: run < m <= |rest| ==> !DomainShaped(rest[..m]) by {
      forall m | run < m <= |rest|
        ensures !DomainShaped(rest[..m])
      {
        if DomainShaped(rest[..m]) {
          ShapedPrefixWithinRun(rest, m);
        }
      }
    }
    r
  }

  const HostClose: string := "`)"

  /**
   * The group of `([a-z0-9.-]+\.[a-z]{2,})` when "`)" must follow it: the
   * backquote is not a domain character, so the group is the whole run.
   */
  function ClosedDomainPrefix(rest: string): (r: Option<string>)
    ensures r.Some? ==> StartsWith(rest, r.value) && DomainShaped(r.value) && StartsWith(rest[|r.value|..], HostClose)
    ensures r.None? ==>
              forall m :: 0 <= m <= |rest| && DomainShaped(rest[..m]) ==> !StartsWith(rest[m..], HostClose)
  {
    var run := DomainRun(rest);
    ShapeCheckIff(rest[..run]);
    assert forall m :: 0 <= m <= |rest| && DomainShaped(rest[..m]) && m != run ==> !StartsWith(rest[m..], HostClose) by {
      forall m | 0 <= m <= |rest| && DomainShaped(rest[..m]) && m != run
        ensures !StartsWith(rest[m..], HostClose)
      {
        ShapedPrefixWithinRun(rest, m);
        assert rest[m..][0] == rest[m];
      }
    }
    if ShapeCheck(rest[..run]) && StartsWith(rest[run..], HostClose) then Some(rest[..run]) else None
  }

  /** The two searches of `detect_current_domain`. */
  datatype Pattern = CommentPattern | HostLabelPattern

  function Marker(p: Pattern): string {
    match p
    case CommentPattern => "# Domain: "
    case HostLabelPattern => "Host(`v4."
  }

  /** The captured domain when the pattern matches starting at position `j`. */
  function MatchAt(p: Pattern, content: string, j: nat): (r: Option<string>)
    requires j <= |content|
    ensures r.Some? ==> StartsWith(content[j..], Marker(p)) && DomainShaped(r.value)
  {
    var m := Marker(p);
    if !StartsWith(content[j..], m) then None
    else
      var rest := content[j + |m|..];
      match p
      case CommentPattern => LongestDomainPrefix(rest)
      case HostLabelPattern => ClosedDomainPrefix(rest)
  }

  /** The leftmost position at or after `i` where the pattern matches. */
  function FirstMatch(p: Pattern, content: string, i: nat): (r: Option<nat>)
    requires i <= |content|
    ensures r.Some? ==>
              i <= r.value <= |content| && MatchAt(p, content, r.value).Some?
              && forall j :: i <= j < r.value ==> MatchAt(p, content, j).None?
    ensures r.None? ==> forall j :: i <= j <= |content| ==> MatchAt(p, content, j).None?
    decreases |content| - i
  {
    if MatchAt(p, content, i).Some? then Some(i)
    else if i == |content| then None
    else FirstMatch(p, content, i + 1)
  }

  /** `re.search(...).group(1)`, or None when the pattern matches nowhere. */
  function Search(p: Pattern, content: string): (r: Option<string>)
    ensures r.Some? ==> exists j :: 0 <= j <= |content| && MatchAt(p, content, j) == r
    ensures r.None? <==> forall j :: 0 <= j <= |content| ==> MatchAt(p, content, j).None?
  {
    match FirstMatch(p, content, 0)
    case Some(j) => MatchAt(p, content, j)
    case None => None
  }

  /**
   * `detect_current_domain`: `content` is None when reading the file raised
   * (the bare `except` turns that into None).
   */
  function DetectCurrentDomain(composeExists: bool, content: Option<string>): (r: Option<string>)
    ensures !composeExists || content.None? ==> r == None
    // A comment anywhere wins over a label anywhere, even an earlier one.
    ensures composeExists && content.Some? && Search(CommentPattern, content.value).Some? ==>
              r == Search(CommentPattern, content.value)
    ensures composeExists && content.Some? && Search(CommentPattern, content.value).None? ==>
              r == Search(HostLabelPattern, content.value)
    // Whatever is detected would itself pass `validate_domain`.
    ensures r.Some? ==> ValidateDomain(r.value)
  {
    if !composeExists then None
    else match content
      case None => None
      case Some(c) =>
        var comment := Search(CommentPattern, c);
        if comment.Some? then comment else Search(HostLabelPattern, c)
  }
}
