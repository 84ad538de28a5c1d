/**
 * Smooth scrolling for in-page links, js/main.js lines 39-55.
 *
 * Every anchor whose href starts with `#` gets a click listener that first
 * prevents the default navigation, then looks the target up with
 * `document.querySelector(href)`. When an element is found, the page scrolls
 * to the target's `offsetTop` minus the navbar's `offsetHeight`; when none is
 * found nothing else happens. The bare fragment `#` is not a valid selector:
 * `querySelector` throws, after the default has already been prevented.
 */
module SmoothScroll {
  import opened Wrappers

  /** An element as `querySelector` sees it: its id and its `offsetTop`. */
  datatype Element = Element(id: string, offsetTop: int)

  /** What `document.querySelector(href)` gives for an in-page href. */
  datatype Lookup = SyntaxError | NotFound | Found(offsetTop: int)

  /** What one click does. */
  datatype ClickOutcome = ClickOutcome(defaultPrevented: bool, scrollTop: Option<int>, threw: bool)

  /** The position of the first element in document order with id `id`. */
  function FirstWithId(elements: seq<Element>, id: string): (r: Option<nat>)
    ensures r.Some? ==> r.value < |elements| && elements[r.value].id == id
                        && forall i :: 0 <= i < r.value ==> elements[i].id != id
    ensures r.None? ==> forall i :: 0 <= i < |elements| ==> elements[i].id != id
  {
    if elements == [] then None
    else if elements[0].id == id then Some(0)
    else match FirstWithId(elements[1..], id)
      case None => None
      case Some(i) => Some(i + 1)
  }

  /** `document.querySelector(href)` for an href `#name`, read as an id
      selector: `#` alone is a syntax error, otherwise the first element with
      that id, if any. */
  function QueryFragment(elements: seq<Element>, href: string): (r: Lookup)
    requires |href| >= 1 && href[0] == '#'
    ensures r.SyntaxError? <==> href == "#"
    ensures r.Found? ==> exists i :: 0 <= i < |elements| && elements[i].id == href[1..] && elements[i].offsetTop == r.offsetTop
    ensures r.NotFound? ==> forall i :: 0 <= i < |elements| ==> elements[i].id != href[1..]
  {
    if href == "#" then SyntaxError
    else match FirstWithId(elements, href[1..])
      case None => NotFound
      case Some(i) => Found(elements[i].offsetTop)
  }

  /** The click listener, given the lookup's result and the navbar's height. */
  function OnAnchorClick(target: Lookup, navbarHeight: int): (r: ClickOutcome)
    ensures r.defaultPrevented
    ensures r.scrollTop.Some? <==> target.Found?
    ensures target.Found? ==> r.scrollTop.value == target.offsetTop - navbarHeight
    ensures r.threw <==> target.SyntaxError?
  {
    match target
    case SyntaxError => ClickOutcome(true, None, true)
    case NotFound => ClickOutcome(true, None, false)
    case Found(top) => ClickOutcome(true, Some(top - navbarHeight), false)
  }

  /** A click on a link to a present section lands with the section's top
      just below the fixed navbar. */
  lemma ScrollsBelowNavbar(elements: seq<Element>, href: string, navbarHeight: int, i: nat)
    requires |href| >= 1 && href[0] == '#' && href != "#"
    requires i < |elements| && elements[i].id == href[1..]
    requires forall j :: 0 <= j < i ==> elements[j].id != href[1..]
    ensures OnAnchorClick(QueryFragment(elements, href), navbarHeight).scrollTop
            == Some(elements[i].offsetTop - navbarHeight)
  {
  }
}
