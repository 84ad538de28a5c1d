/**
 * The mobile navigation toggle of js/main.js (lines 9-37).
 *
 * Three pieces of page state: the `active` class of the burger button, the
 * `active` class of the `.nav-links` container, and `document.body.style.overflow`.
 * The burger toggles both classes and locks page scrolling while the links
 * are shown; clicking a link, or clicking anywhere outside `.navbar`, removes
 * both classes and restores scrolling.
 */
module Menu {
  import opened Wrappers

  /** The value `body.style.overflow` takes while the menu is open. */
  const Hidden: string := "hidden"

  /** The state the three handlers act on. */
  datatype MenuState = MenuState(burgerActive: bool, navLinksActive: bool, bodyOverflow: string)

  /** The menu counts as open when the links container carries `active`. */
  predicate IsOpen(s: MenuState)
  {
    s.navLinksActive
  }

  /** The page as loaded: no `active` class, no inline overflow. */
  const Initial: MenuState := MenuState(false, false, "")

  /** The three facts every handler keeps together. */
  predicate Consistent(s: MenuState)
  {
    && s.burgerActive == s.navLinksActive
    && (s.bodyOverflow == Hidden <==> s.navLinksActive)
    && (s.bodyOverflow == Hidden || s.bodyOverflow == "")
  }

  /** The burger's click handler: toggle both classes, then set the overflow
      from the links container's class. */
  function Toggle(s: MenuState): (r: MenuState)
    ensures r.burgerActive == !s.burgerActive && r.navLinksActive == !s.navLinksActive
    ensures r.bodyOverflow == if r.navLinksActive then Hidden else ""
  {
    var nav := !s.navLinksActive;
    MenuState(!s.burgerActive, nav, if nav then Hidden else "")
  }

  /** What both closing handlers do: remove both classes, clear the overflow. */
  function Close(s: MenuState): (r: MenuState)
    ensures !IsOpen(r) && Consistent(r)
  {
    MenuState(false, false, "")
  }

  /** A click target, as the classes of the target element (first) and of each
      of its ancestors up to the root. */
  type Ancestry = seq<set<string>>

  /** `element.closest('.' + cls)`: the position of the nearest element, the
      target itself included, that has class `cls`. */
  function Closest(chain: Ancestry, cls: string): (r: Option<nat>)
    ensures r.Some? ==> r.value < |chain| && cls in chain[r.value]
                        && forall i :: 0 <= i < r.value ==> cls !in chain[i]
    ensures r.None? ==> forall i :: 0 <= i < |chain| ==> cls !in chain[i]
  {
    if chain == [] then None
    else if cls in chain[0] then Some(0)
    else match Closest(chain[1..], cls)
      case None => None
      case Some(i) => Some(i + 1)
  }

  /** The document's click handler: close unless the target is inside `.navbar`. */
  function CloseIfOutside(s: MenuState, target: Ancestry): MenuState
  {
    if Closest(target, "navbar").None? then Close(s) else s
  }

  /** The events the three handlers respond to. */
  datatype MenuEvent = BurgerClick | LinkClick | DocumentClick(target: Ancestry)

  function Handle(s: MenuState, e: MenuEvent): MenuState
  {
    match e
    case BurgerClick => Toggle(s)
    case LinkClick => Close(s)
    case DocumentClick(target) => CloseIfOutside(s, target)
  }

  /** The state after handling `events` in order from `s`. */
  function Run(s: MenuState, events: seq<MenuEvent>): MenuState
    decreases events
  {
    if events == [] then s else Run(Handle(s, events[0]), events[1..])
  }

  /** The toggle keeps the invariant and flips open and closed. */
  lemma ToggleFlips(s: MenuState)
    requires Consistent(s)
    ensures Consistent(Toggle(s)) && IsOpen(Toggle(s)) == !IsOpen(s)
  {
  }

  /** A link click always closes the menu. */
  lemma LinkClickCloses(s: MenuState)
    ensures Handle(s, LinkClick) == Initial
  {
  }

  /** A click whose target lies outside `.navbar` gives the closed state as
      loaded; one inside it leaves the state as it was. */
  lemma DocumentClickOutsideCloses(s: MenuState, target: Ancestry)
    ensures (forall i :: 0 <= i < |target| ==> "navbar" !in target[i]) ==> CloseIfOutside(s, target) == Initial && !IsOpen(CloseIfOutside(s, target))
    ensures (exists i :: 0 <= i < |target| && "navbar" in target[i]) ==> CloseIfOutside(s, target) == s
  {
  }

  /** Every handler keeps the three facts together. */
  lemma HandlePreservesConsistent(s: MenuState, e: MenuEvent)
    requires Consistent(s)
    ensures Consistent(Handle(s, e))
  {
  }

  /** Starting from the page as loaded, every sequence of events leaves burger
      and links in the same state, and overflow hidden exactly while open. */
  lemma {:induction false} ReachableConsistent(s: MenuState, events: seq<MenuEvent>)
    requires Consistent(s)
    ensures Consistent(Run(s, events))
    decreases events
  {
    if events != [] {
      HandlePreservesConsistent(s, events[0]);
      ReachableConsistent(Handle(s, events[0]), events[1..]);
    }
  }

  /** The same from the page as loaded. */
  lemma LoadedPageStaysConsistent(events: seq<MenuEvent>)
    ensures Consistent(Run(Initial, events))
  {
    ReachableConsistent(Initial, events);
  }

  /** The menu as the page holds it. */
  class MobileMenu {
    /** `burger.classList.contains('active')`. */
    var burgerActive: bool
    /** `navLinks.classList.contains('active')`. */
    var navLinksActive: bool
    /** `document.body.style.overflow`. */
    var bodyOverflow: string

    function State(): MenuState
      reads this
    {
      MenuState(burgerActive, navLinksActive, bodyOverflow)
    }

    constructor ()
      ensures State() == Initial
    {
      burgerActive, navLinksActive, bodyOverflow := false, false, "";
    }

    /** The burger's click listener. */
    method OnBurgerClick()
      modifies this
      ensures State() == Toggle(old(State()))
    {
      burgerActive := !burgerActive;
      navLinksActive := !navLinksActive;
      bodyOverflow := if navLinksActive then Hidden else "";
    }

    /** The click listener of each `.nav-link`. */
    method OnLinkClick()
      modifies this
      ensures State() == Close(old(State()))
    {
      burgerActive := false;
      navLinksActive := false;
      bodyOverflow := "";
    }

    /** The document's click listener. */
    method OnDocumentClick(target: Ancestry)
      modifies this
      ensures State() == CloseIfOutside(old(State()), target)
    {
      var inNavbar := Closest(target, "navbar");
      if inNavbar.None? {
        burgerActive := false;
        navLinksActive := false;
        bodyOverflow := "";
      }
    }
  }
}
