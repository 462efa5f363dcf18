/**
 * Collapsing a long text for display: shown whole when it is expanded or
 * fits within `limit` characters, otherwise cut to its first `limit`
 * characters followed by an ellipsis. The chat card and the gallery card
 * both display text this way, with different limits and ellipses.
 */
module Display {

  function Collapse(s: string, limit: nat, ellipsis: string, expanded: bool): (r: string)
  {
    if !expanded && |s| > limit then s[..limit] + ellipsis else s
  }

  /** Whether collapsing can change the text at all (the See More control is offered). */
  predicate IsLong(s: string, limit: nat) {
    |s| > limit
  }

  /** The collapsed form of a long text is a proper prefix of it plus the ellipsis. */
  lemma CollapsedIsPrefixPlusEllipsis(s: string, limit: nat, ellipsis: string)
    requires IsLong(s, limit)
    ensures var r := Collapse(s, limit, ellipsis, false);
      |r| == limit + |ellipsis| && r[..limit] == s[..limit] && r[limit..] == ellipsis
      && |r[..limit]| < |s|
  {
  }

  /** Expanded text, and text within the limit, are shown unchanged. */
  lemma ShownWholeUnlessLongAndCollapsed(s: string, limit: nat, ellipsis: string, expanded: bool)
    ensures expanded || !IsLong(s, limit) ==> Collapse(s, limit, ellipsis, expanded) == s
  {
  }
}
