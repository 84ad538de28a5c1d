/**
 * The address of a `mailto:` link, js/main.js lines 203-209:
 * `link.getAttribute('href').replace('mailto:', '')`. With a string pattern,
 * `String.prototype.replace` replaces only the FIRST occurrence.
 */
module Mailto {
  import opened Wrappers

  const Scheme: string := "mailto:"

  /** `pattern` occurs in `s` at position `i`. */
  predicate OccursAt(s: string, pattern: string, i: nat)
  {
    i + |pattern| <= |s| && s[i..i + |pattern|] == pattern
  }

  /** `s.indexOf(pattern)`: the first position where `pattern` occurs. */
  function IndexOf(s: string, pattern: string): (r: Option<nat>)
    ensures r.Some? ==> OccursAt(s, pattern, r.value) && forall j :: 0 <= j < r.value ==> !OccursAt(s, pattern, j)
    ensures r.None? ==> forall j :: 0 <= j <= |s| ==> !OccursAt(s, pattern, j)
    decreases |s|
  {
    if |pattern| > |s| then None
    else if s[..|pattern|] == pattern then Some(0)
    else
      assert s[0..|pattern|] == s[..|pattern|];
      ShiftOccurs(s, pattern);
      match IndexOf(s[1..], pattern)
      case None => None
      case Some(i) => Some(i + 1)
  }

  /** An occurrence in the tail is an occurrence one further on in the whole. */
  lemma ShiftOccurs(s: string, pattern: string)
    requires |s| > 0
    ensures forall j: nat :: 1 <= j ==> (OccursAt(s, pattern, j) <==> OccursAt(s[1..], pattern, j - 1))
  {
  }

  /** `s.replace(pattern, replacement)` for a string pattern and a
      replacement without `$` patterns. */
  function ReplaceFirst(s: string, pattern: string, replacement: string): string
  {
    match IndexOf(s, pattern)
    case None => s
    case Some(i) => s[..i] + replacement + s[i + |pattern|..]
  }

  /** The address the click handler extracts from the link's href. */
  function ExtractEmail(href: string): string
  {
    ReplaceFirst(href, Scheme, "")
  }

  /** For every href the `a[href^="mailto:"]` selector admits, the address is
      the href without its first seven characters, and putting the scheme back
      gives the href. */
  lemma ExtractDropsPrefix(href: string)
    requires |href| >= |Scheme| && href[..|Scheme|] == Scheme
    ensures ExtractEmail(href) == href[|Scheme|..]
    ensures Scheme + ExtractEmail(href) == href
  {
  }

  /** Later occurrences of the scheme stay. */
  lemma OnlyFirstOccurrenceRemoved()
    ensures ExtractEmail("mailto:mailto:x@y") == "mailto:x@y"
  {
    ExtractDropsPrefix("mailto:mailto:x@y");
  }

  /** With no `mailto:` in it, an href comes back unchanged. */
  lemma NoSchemeUnchanged(href: string)
    requires forall j :: 0 <= j <= |href| ==> !OccursAt(href, Scheme, j)
    ensures ExtractEmail(href) == href
  {
  }
}
