/**
 * Active-section highlighting of js/main.js (`updateActiveNav`, lines 57-78).
 *
 * The look-ahead position is `scrollY + 200`. Sections are visited in
 * document order; for EACH section whose half-open range
 * `[offsetTop, offsetTop + offsetHeight)` contains that position, every
 * `.nav-link` loses `active` and the links whose href is `#` + the section's
 * id gain it. So the last matching section decides, and when no section
 * matches the links keep whatever classes they had.
 */
module ActiveNav {
  import opened Wrappers

  /** How far below the top of the viewport the position is taken. */
  const LookAhead: int := 200

  /** A `<section>` as laid out when the update runs. */
  datatype Section = Section(top: int, height: int, id: string)

  /** A `.nav-link`: its href and whether it carries the `active` class. */
  datatype NavLink = NavLink(href: string, active: bool)

  /** The test of line 69. */
  predicate Contains(s: Section, position: int)
  {
    s.top <= position < s.top + s.height
  }

  /** The index of the last section in document order that contains `position`. */
  function LastMatching(sections: seq<Section>, position: int): (r: Option<nat>)
    ensures r.Some? ==> r.value < |sections| && Contains(sections[r.value], position)
                        && forall j :: r.value < j < |sections| ==> !Contains(sections[j], position)
    ensures r.None? ==> forall j :: 0 <= j < |sections| ==> !Contains(sections[j], position)
  {
    if sections == [] then None
    else if Contains(sections[|sections| - 1], position) then Some(|sections| - 1)
    else LastMatching(sections[..|sections| - 1], position)
  }

  /** The links after one matching section: active exactly where the href is `#id`. */
  function MarkFragment(links: seq<NavLink>, fragment: string): (r: seq<NavLink>)
    ensures |r| == |links|
    ensures forall i :: 0 <= i < |r| ==> r[i].href == links[i].href && (r[i].active <==> links[i].href == fragment)
  {
    seq(|links|, i requires 0 <= i < |links| => NavLink(links[i].href, links[i].href == fragment))
  }

  /** The links after `updateActiveNav` at look-ahead `position`. */
  function Highlight(links: seq<NavLink>, sections: seq<Section>, position: int): (r: seq<NavLink>)
    ensures |r| == |links|
    ensures forall i :: 0 <= i < |r| ==> r[i].href == links[i].href
  {
    match LastMatching(sections, position)
    case None => links
    case Some(j) => MarkFragment(links, "#" + sections[j].id)
  }

  /** The meaning of the update: with no section containing the position the
      links are left as they were; otherwise a link is active exactly when its
      href is `#` + the id of the LAST section that contains it. */
  lemma HighlightSelectsLastMatch(links: seq<NavLink>, sections: seq<Section>, position: int)
    ensures (forall j :: 0 <= j < |sections| ==> !Contains(sections[j], position))
            ==> Highlight(links, sections, position) == links
    ensures forall j :: 0 <= j < |sections| && Contains(sections[j], position)
                        && (forall k :: j < k < |sections| ==> !Contains(sections[k], position))
                   ==> forall i :: 0 <= i < |links| ==>
                         (Highlight(links, sections, position)[i].active <==> links[i].href == "#" + sections[j].id)
  {
  }

  /** Adding one more section to the visit: it decides if it matches, and
      changes nothing otherwise. */
  lemma HighlightStep(links: seq<NavLink>, sections: seq<Section>, k: nat, position: int)
    requires k < |sections|
    ensures Highlight(links, sections[..k + 1], position)
            == if Contains(sections[k], position)
               then MarkFragment(Highlight(links, sections[..k], position), "#" + sections[k].id)
               else Highlight(links, sections[..k], position)
  {
  }

  /** When the hrefs are distinct and some link points at the deciding section,
      exactly that link is active. */
  lemma OneLinkActive(links: seq<NavLink>, sections: seq<Section>, position: int, j: nat, n: nat)
    requires forall a, b :: 0 <= a < b < |links| ==> links[a].href != links[b].href
    requires LastMatching(sections, position) == Some(j)
    requires n < |links| && links[n].href == "#" + sections[j].id
    ensures forall i :: 0 <= i < |links| ==> (Highlight(links, sections, position)[i].active <==> i == n)
  {
    HighlightSelectsLastMatch(links, sections, position);
  }

  /** Pairs each href with its flag. */
  function Zip(hrefs: seq<string>, flags: seq<bool>): (r: seq<NavLink>)
    requires |hrefs| == |flags|
    ensures |r| == |hrefs| && forall i :: 0 <= i < |r| ==> r[i] == NavLink(hrefs[i], flags[i])
  {
    seq(|hrefs|, i requires 0 <= i < |hrefs| => NavLink(hrefs[i], flags[i]))
  }

  /** The `.nav-link` elements: their hrefs and their `active` classes, in document order. */
  class NavLinks {
    const hrefs: seq<string>
    const active: array<bool>

    ghost predicate Valid()
      reads this
    {
      active.Length == |hrefs|
    }

    /** The links as `NavLink` values. */
    function Links(): (r: seq<NavLink>)
      reads this, active
      requires Valid()
      ensures |r| == |hrefs|
    {
      Zip(hrefs, active[..])
    }

    constructor (links: seq<NavLink>)
      ensures Valid() && fresh(active)
      ensures Links() == links
    {
      hrefs := seq(|links|, i requires 0 <= i < |links| => links[i].href);
      active := new bool[|links|](i requires 0 <= i < |links| => links[i].active);
    }

    /** The inner `forEach` of `updateActiveNav`: clear every link, then set
        those whose href is `fragment`. */
    method MarkLinks(fragment: string)
      requires Valid()
      modifies active
      ensures Valid()
      ensures Links() == MarkFragment(old(Links()), fragment)
    {
      var j := 0;
      while j < active.Length
        invariant 0 <= j <= active.Length
        invariant forall i :: 0 <= i < j ==> active[i] == (hrefs[i] == fragment)
      {
        active[j] := false;
        if hrefs[j] == fragment {
          active[j] := true;
        }
        j := j + 1;
      }
    }

    /** `updateActiveNav`, with the page scrolled to `scrollY` and laid out as `sections`. */
    method UpdateActiveNav(scrollY: int, sections: seq<Section>)
      requires Valid()
      modifies active
      ensures Valid()
      ensures Links() == Highlight(old(Links()), sections, scrollY + LookAhead)
    {
      ghost var initial := Links();
      var scrollPosition := scrollY + LookAhead;
      var k := 0;
      while k < |sections|
        invariant 0 <= k <= |sections|
        invariant Links() == Highlight(initial, sections[..k], scrollPosition)
      {
        var section := sections[k];
        HighlightStep(initial, sections, k, scrollPosition);
        if scrollPosition >= section.top && scrollPosition < section.top + section.height {
          MarkLinks("#" + section.id);
        }
        k := k + 1;
      }
      assert sections[..|sections|] == sections;
    }
  }
}
