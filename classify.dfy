/**
 * The pure classifiers of the rewriter: recognising a mention URL and
 * normalising a video id (lib/lfm/index.js, lines 62-63, 129, 132, 142-144).
 */
module Classify {
  import opened Wrappers
  import opened Patterns

  predicate StartsWith(s: string, prefix: string) {
    |s| >= |prefix| && s[..|prefix|] == prefix
  }

  predicate EndsWith(s: string, suffix: string) {
    |s| >= |suffix| && s[|s| - |suffix|..] == suffix
  }

  /** The path of a user's page. */
  const MentionPrefix: string := "/user/"
  /** The path of a user's page on the legacy site. */
  const LegacyMentionPrefix: string := "/space/show?uid="

  /** `^\/user\/(\d+)$` */
  const MentionRegex: Regex := Literal(MentionPrefix) + DigitPlus
  /** `^\/space\/show\?uid=(\d+)$` */
  const LegacyMentionRegex: Regex := Literal(LegacyMentionPrefix) + DigitPlus

  /**
   * `exec` of the anchored pattern `^<prefix>(\d+)$` on `url`: the captured
   * digits, or None (the source's `null`) when the pattern does not match.
   */
  function CaptureDigits(prefix: string, url: string): (r: Option<string>)
    ensures r.Some? <==> Matches(Literal(prefix) + DigitPlus, url)
    ensures r.Some? ==> |r.value| > 0 && AllDigits(r.value) && url == prefix + r.value
  {
    AnchoredDigitsMatches(prefix, url);
    if |url| > |prefix| && url[..|prefix|] == prefix && AllDigits(url[|prefix|..]) then
      assert url == url[..|prefix|] + url[|prefix|..];
      Some(url[|prefix|..])
    else
      None
  }

  /**
   * `mentionReg.exec(url) ?? legacyMentionReg.exec(url)`, with the capture
   * turned into a user id as `parseInt` does.
   */
  function MentionUid(url: string): (r: Option<nat>)
    ensures r.Some? <==> Matches(MentionRegex, url) || Matches(LegacyMentionRegex, url)
    ensures Matches(MentionRegex, url) ==>
              |url| > |MentionPrefix| && AllDigits(url[|MentionPrefix|..]) &&
              r == Some(DecimalValue(url[|MentionPrefix|..]))
    ensures !Matches(MentionRegex, url) && Matches(LegacyMentionRegex, url) ==>
              |url| > |LegacyMentionPrefix| && AllDigits(url[|LegacyMentionPrefix|..]) &&
              r == Some(DecimalValue(url[|LegacyMentionPrefix|..]))
  {
    match CaptureDigits(MentionPrefix, url)
    case Some(d) => Some(DecimalValue(d))
    case None =>
      match CaptureDigits(LegacyMentionPrefix, url)
      case Some(d) => Some(DecimalValue(d))
      case None => None
  }

  /** Every user id is reachable from a `/user/<uid>` link. */
  lemma MentionUidOfUserPath(uid: nat)
    ensures MentionUid(MentionPrefix + DecimalString(uid)) == Some(uid)
  {
    var d := DecimalString(uid);
    var url := MentionPrefix + d;
    assert url[..|MentionPrefix|] == MentionPrefix && url[|MentionPrefix|..] == d;
    AnchoredDigitsMatches(MentionPrefix, url);
    DecimalRoundTrip(uid);
  }

  /** ... and from a legacy `/space/show?uid=<uid>` link, which the primary pattern rejects. */
  lemma MentionUidOfLegacyPath(uid: nat)
    ensures !Matches(MentionRegex, LegacyMentionPrefix + DecimalString(uid))
    ensures MentionUid(LegacyMentionPrefix + DecimalString(uid)) == Some(uid)
  {
    var d := DecimalString(uid);
    var url := LegacyMentionPrefix + d;
    assert url[..|LegacyMentionPrefix|] == LegacyMentionPrefix && url[|LegacyMentionPrefix|..] == d;
    assert url[1] == 's';
    assert !StartsWith(url, MentionPrefix);
    AnchoredDigitsMatches(MentionPrefix, url);
    AnchoredDigitsMatches(LegacyMentionPrefix, url);
    DecimalRoundTrip(uid);
  }

  /** A URL that ends in a non-digit matches neither pattern (the `$` anchor). */
  lemma MentionRejectsTrailingNonDigit(url: string, c: char)
    requires !IsDigit(c)
    ensures MentionUid(url + [c]) == None
  {
    var u := url + [c];
    if |u| > |MentionPrefix| {
      assert u[|MentionPrefix|..][|u| - 1 - |MentionPrefix|] == c;
    }
    if |u| > |LegacyMentionPrefix| {
      assert u[|LegacyMentionPrefix|..][|u| - 1 - |LegacyMentionPrefix|] == c;
    }
    AnchoredDigitsMatches(MentionPrefix, u);
    AnchoredDigitsMatches(LegacyMentionPrefix, u);
  }

  /** A URL that does not start with '/' matches neither pattern (the `^` anchor), so neither does an absolute URL. */
  lemma MentionRejectsLeadingChar(url: string)
    requires url == [] || url[0] != '/'
    ensures MentionUid(url) == None
  {
    if |url| >= |MentionPrefix| {
      assert url[..|MentionPrefix|][0] == url[0];
    }
    if |url| >= |LegacyMentionPrefix| {
      assert url[..|LegacyMentionPrefix|][0] == url[0];
    }
    AnchoredDigitsMatches(MentionPrefix, url);
    AnchoredDigitsMatches(LegacyMentionPrefix, url);
  }

  /** A prefix with no digits after it matches neither pattern. */
  lemma MentionRejectsBarePrefix()
    ensures MentionUid(MentionPrefix) == None
    ensures MentionUid(LegacyMentionPrefix) == None
  {
    AnchoredDigitsMatches(MentionPrefix, MentionPrefix);
    AnchoredDigitsMatches(LegacyMentionPrefix, MentionPrefix);
    AnchoredDigitsMatches(MentionPrefix, LegacyMentionPrefix);
    AnchoredDigitsMatches(LegacyMentionPrefix, LegacyMentionPrefix);
  }

  /** `lastNode.value.endsWith("@")` */
  predicate EndsWithAt(value: string) {
    EndsWith(value, "@")
  }

  /** The URL scheme of an embedded video. */
  const VideoScheme: string := "bilibili:"

  /**
   * JavaScript's `s.replace(pattern, "")` for a string pattern: only the first
   * occurrence of `pattern` is removed.
   */
  function RemoveFirst(s: string, pattern: string): (r: string)
    ensures r == s || |r| + |pattern| == |s|
    decreases |s|
  {
    if |s| < |pattern| then s
    else if s[..|pattern|] == pattern then s[|pattern|..]
    else [s[0]] + RemoveFirst(s[1..], pattern)
  }

  /** `pattern` occurs in `s` at position `j`. */
  predicate OccursAt(s: string, pattern: string, j: nat) {
    j + |pattern| <= |s| && s[j..j + |pattern|] == pattern
  }

  /** `pattern` does not occur in `s` at any position before `i`. */
  predicate NoOccurrenceBefore(s: string, pattern: string, i: nat) {
    forall j: nat :: j < i ==> !OccursAt(s, pattern, j)
  }

  /** `replace` removes the first occurrence of the pattern, keeping what comes before and after it. */
  lemma {:induction false} RemoveFirstAtFirstOccurrence(s: string, pattern: string, i: nat)
    requires OccursAt(s, pattern, i) && NoOccurrenceBefore(s, pattern, i)
    ensures RemoveFirst(s, pattern) == s[..i] + s[i + |pattern|..]
  {
    if i > 0 {
      assert !OccursAt(s, pattern, 0);
      assert OccursAt(s[1..], pattern, i - 1) by {
        assert s[1..][i - 1..i - 1 + |pattern|] == s[i..i + |pattern|];
      }
      forall j: nat | j < i - 1 ensures !OccursAt(s[1..], pattern, j) {
        assert !OccursAt(s, pattern, j + 1);
        if j + |pattern| <= |s[1..]| {
          assert s[1..][j..j + |pattern|] == s[j + 1..j + 1 + |pattern|];
        }
      }
      RemoveFirstAtFirstOccurrence(s[1..], pattern, i - 1);
      assert s == [s[0]] + s[1..];
      assert s[..i] == [s[0]] + s[1..][..i - 1];
      assert s[i + |pattern|..] == s[1..][i - 1 + |pattern|..];
    }
  }

  /** `replace` keeps a string in which the pattern does not occur. */
  lemma {:induction false} RemoveFirstWithoutOccurrence(s: string, pattern: string)
    requires forall j: nat :: !OccursAt(s, pattern, j)
    ensures RemoveFirst(s, pattern) == s
  {
    if |s| >= |pattern| {
      assert !OccursAt(s, pattern, 0);
      forall j: nat ensures !OccursAt(s[1..], pattern, j) {
        assert !OccursAt(s, pattern, j + 1);
        if j + |pattern| <= |s[1..]| {
          assert s[1..][j..j + |pattern|] == s[j + 1..j + 1 + |pattern|];
        }
      }
      RemoveFirstWithoutOccurrence(s[1..], pattern);
      assert s == [s[0]] + s[1..];
    }
  }

  /** The id of an embedded video: the URL minus its scheme, with `av` in front of an id that starts with a digit. */
  function VideoId(url: string): (id: string)
    requires StartsWith(url, VideoScheme)
    ensures id == url[|VideoScheme|..] || id == "av" + url[|VideoScheme|..]
    ensures id == "av" + url[|VideoScheme|..] <==> |url| > |VideoScheme| && IsDigit(url[|VideoScheme|])
    ensures id == [] || !IsDigit(id[0])
  {
    var rest := RemoveFirst(url, VideoScheme);
    if |rest| > 0 && IsDigit(rest[0]) then "av" + rest else rest
  }

  /** Removing the first occurrence of a pattern that the string starts with strips that prefix. */
  lemma RemoveFirstOfPrefix(s: string, pattern: string)
    requires StartsWith(s, pattern)
    ensures RemoveFirst(s, pattern) == s[|pattern|..]
  {
  }

  /** A second `bilibili:` inside the id is kept: only the scheme is removed. */
  lemma VideoIdKeepsInnerScheme()
    ensures VideoId("bilibili:bilibili:1") == "bilibili:1"
  {
    assert StartsWith("bilibili:bilibili:1", VideoScheme);
  }

  /** The three cases of normalisation: numeric ids gain `av`, other ids and the empty id are kept. */
  lemma VideoIdExamples()
    ensures VideoId("bilibili:123456") == "av123456"
    ensures VideoId("bilibili:BV1cf4y1W771") == "BV1cf4y1W771"
    ensures VideoId("bilibili:") == ""
  {
    assert StartsWith("bilibili:123456", VideoScheme);
    assert StartsWith("bilibili:BV1cf4y1W771", VideoScheme);
    assert StartsWith("bilibili:", VideoScheme);
  }
}
