/**
 * The allow/deny filter of the controller: `isLinkAllowed` (lines 483-491) asks whether
 * any pattern of a list matches a link, and both extractors accept a link when the
 * allow list is empty or matches it, unless a non-empty deny list matches it
 * (lines 297-300 and 388-393). PCRE matching is not modelled: `preg_match` is a given
 * `Matcher`, applied as `matches(pattern, subject)`.
 */
module LinkFilter {

  /** `preg_match($pattern, $subject)`, read as true when it returns 1. */
  type Matcher = (string, string) -> bool

  /** What `isLinkAllowed` answers: some pattern of the list matches the link. */
  predicate MatchesAny(link: string, patterns: seq<string>, matches: Matcher) {
    exists i :: 0 <= i < |patterns| && matches(patterns[i], link)
  }

  /** `$isWhitelisted && !$isBlacklisted`. */
  predicate Accepts(link: string, allow: seq<string>, deny: seq<string>, matches: Matcher) {
    (|allow| == 0 || MatchesAny(link, allow, matches)) && !(|deny| > 0 && MatchesAny(link, deny, matches))
  }

  /**
   * The accept policy: a link a deny pattern matches is never accepted, whatever the
   * allow list says; with an empty allow list every link no deny pattern matches is
   * accepted; and with a non-empty allow list only links it matches are.
   */
  lemma AcceptPolicy(link: string, allow: seq<string>, deny: seq<string>, matches: Matcher)
    ensures MatchesAny(link, deny, matches) ==> !Accepts(link, allow, deny, matches)
    ensures |allow| == 0 ==> (Accepts(link, allow, deny, matches) <==> !MatchesAny(link, deny, matches))
    ensures |allow| > 0 && !MatchesAny(link, allow, matches) ==> !Accepts(link, allow, deny, matches)
    ensures !MatchesAny(link, [], matches)
  {
  }
}
