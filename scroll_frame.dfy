/**
 * The scroll listener of js/main.js (lines 114-136) and the updates it runs.
 *
 * A scroll event requests an animation frame only when none is pending,
 * tracked by the module-level flag `isScrolling`; further scroll events
 * before that frame are dropped. The frame runs the four updates in a fixed
 * order (active link, progress bar, back-to-top button, navbar shadow) and
 * then clears the flag. The browser's queue of requested frames is modelled
 * as the count `pendingFrames`.
 */
module ScrollFrame {
  import opened ActiveNav
  import opened Thresholds

  /** The four updates, as they appear in the order a handler runs them. */
  datatype Update = ActiveNavUpdate | ProgressUpdate | BackToTopUpdate | NavbarUpdate

  /** The order of the frame callback (lines 120-123). */
  const FrameOrder: seq<Update> := [ActiveNavUpdate, ProgressUpdate, BackToTopUpdate, NavbarUpdate]
  /** The order of the load handler (lines 132-135). */
  const LoadOrder: seq<Update> := [ProgressUpdate, ActiveNavUpdate, BackToTopUpdate, NavbarUpdate]

  /** What the page looks like when an update reads it. */
  datatype Viewport = Viewport(scrollY: int, sections: seq<Section>)

  /** The coalescing guard: the flag and the number of frames the browser holds for it. */
  datatype Guard = Guard(isScrolling: bool, pendingFrames: nat)

  /** At load: no flag, no frame. */
  const Idle: Guard := Guard(false, 0)

  /** The guard's invariant: at most one pending frame, and the flag is set
      exactly while one is pending. */
  predicate GuardValid(g: Guard)
  {
    g.pendingFrames <= 1 && (g.isScrolling <==> g.pendingFrames == 1)
  }

  /** The scroll listener's effect on the guard. */
  function AfterScroll(g: Guard): Guard
  {
    if !g.isScrolling then Guard(true, g.pendingFrames + 1) else g
  }

  /** The browser's next frame: the one pending callback, if any, runs and
      clears the flag. */
  function AfterFrame(g: Guard): Guard
  {
    if g.pendingFrames > 0 then Guard(false, g.pendingFrames - 1) else g
  }

  /** The events the guard sees. */
  datatype GuardEvent = Scroll | Frame

  /** A run of events: the guard afterwards and how many frame callbacks ran. */
  function RunGuard(g: Guard, events: seq<GuardEvent>): (Guard, nat)
    decreases events
  {
    if events == [] then (g, 0)
    else
      var ran := if events[0] == Frame && g.pendingFrames > 0 then 1 else 0;
      var next := if events[0] == Scroll then AfterScroll(g) else AfterFrame(g);
      var (final, more) := RunGuard(next, events[1..]);
      (final, ran + more)
  }

  /** The number of scroll events in `events`. */
  function Scrolls(events: seq<GuardEvent>): nat
  {
    if events == [] then 0 else (if events[0] == Scroll then 1 else 0) + Scrolls(events[1..])
  }

  /** A scroll with no frame pending requests exactly one and sets the flag;
      a scroll while one is pending changes nothing. */
  lemma ScrollSchedulesOnce(g: Guard)
    requires GuardValid(g)
    ensures !g.isScrolling ==> AfterScroll(g) == Guard(true, 1)
    ensures g.isScrolling ==> AfterScroll(g) == g
  {
  }

  /** A frame clears the flag and leaves nothing pending. */
  lemma FrameClears(g: Guard)
    requires GuardValid(g)
    ensures AfterFrame(g) == Idle
  {
  }

  /** Any burst of scroll events, however long, leaves exactly one frame pending. */
  lemma {:induction false} BurstCoalesces(g: Guard, n: nat)
    requires GuardValid(g) && n > 0
    ensures RunGuard(g, seq(n, _ => Scroll)) == (Guard(true, 1), 0)
    decreases n
  {
    var burst := seq(n, _ => Scroll);
    assert burst[0] == Scroll;
    if n > 1 {
      assert burst[1..] == seq(n - 1, _ => Scroll);
      BurstCoalesces(AfterScroll(g), n - 1);
    } else {
      assert burst[1..] == [];
    }
  }

  /** Every run of events from a valid guard keeps it valid, and never runs
      more frame callbacks than there were scroll events plus the one pending
      at the start. */
  lemma {:induction false} RunKeepsGuard(g: Guard, events: seq<GuardEvent>)
    requires GuardValid(g)
    ensures GuardValid(RunGuard(g, events).0)
    ensures RunGuard(g, events).1 <= Scrolls(events) + g.pendingFrames
    decreases events
  {
    if events != [] {
      var next := if events[0] == Scroll then AfterScroll(g) else AfterFrame(g);
      RunKeepsGuard(next, events[1..]);
    }
  }

  /** The page parts the scroll updates write, and the guard. */
  class ScrollController {
    /** `navLinksList`. */
    const links: NavLinks
    /** The back-to-top button's class list. */
    var backToTopClasses: set<string>
    /** `navbar.style.boxShadow`. */
    var navbarShadow: string
    /** `isScrolling`. */
    var isScrolling: bool
    /** The frames requested from the browser and not yet run. */
    var pendingFrames: nat
    /** The updates run so far, in order. The progress bar is recorded but not
        modelled. */
    ghost var trace: seq<Update>

    ghost predicate Valid()
      reads this, links
    {
      links.Valid() && GuardValid(Guard(isScrolling, pendingFrames))
    }

    function GuardState(): Guard
      reads this
    {
      Guard(isScrolling, pendingFrames)
    }

    constructor (navLinks: NavLinks, classes: set<string>, shadow: string)
      requires navLinks.Valid()
      ensures Valid()
      ensures links == navLinks && backToTopClasses == classes && navbarShadow == shadow
      ensures GuardState() == Idle && trace == []
    {
      links := navLinks;
      backToTopClasses := classes;
      navbarShadow := shadow;
      isScrolling := false;
      pendingFrames := 0;
      trace := [];
    }

    /** `updateBackToTop`. */
    method UpdateBackToTop(scrollY: int)
      modifies this`backToTopClasses, this`trace
      ensures backToTopClasses == BackToTopClasses(old(backToTopClasses), scrollY)
      ensures trace == old(trace) + [BackToTopUpdate]
    {
      if scrollY > BackToTopThreshold {
        backToTopClasses := backToTopClasses + {Visible};
      } else {
        backToTopClasses := backToTopClasses - {Visible};
      }
      trace := trace + [BackToTopUpdate];
    }

    /** `updateNavbar`. */
    method UpdateNavbar(scrollY: int)
      modifies this`navbarShadow, this`trace
      ensures navbarShadow == NavbarShadow(scrollY)
      ensures trace == old(trace) + [NavbarUpdate]
    {
      if scrollY > NavbarThreshold {
        navbarShadow := HeavyShadow;
      } else {
        navbarShadow := LightShadow;
      }
      trace := trace + [NavbarUpdate];
    }

    /** The four updates in frame order. */
    method RunFrameUpdates(view: Viewport)
      requires Valid()
      modifies this`backToTopClasses, this`navbarShadow, this`trace, links.active
      ensures Valid()
      ensures links.Links() == Highlight(old(links.Links()), view.sections, view.scrollY + LookAhead)
      ensures backToTopClasses == BackToTopClasses(old(backToTopClasses), view.scrollY)
      ensures navbarShadow == NavbarShadow(view.scrollY)
      ensures trace == old(trace) + FrameOrder
    {
      links.UpdateActiveNav(view.scrollY, view.sections);
      trace := trace + [ActiveNavUpdate];
      trace := trace + [ProgressUpdate];
      UpdateBackToTop(view.scrollY);
      UpdateNavbar(view.scrollY);
    }

    /** The scroll listener. */
    method OnScroll()
      requires Valid()
      modifies this
      ensures Valid()
      ensures GuardState() == AfterScroll(old(GuardState()))
      ensures backToTopClasses == old(backToTopClasses) && navbarShadow == old(navbarShadow)
      ensures trace == old(trace)
    {
      if !isScrolling {
        pendingFrames := pendingFrames + 1;
        isScrolling := true;
      }
    }

    /** The browser's next animation frame: the pending callback, if any, runs
        the updates and clears the flag. */
    method RunAnimationFrame(view: Viewport)
      requires Valid()
      modifies this, links.active
      ensures Valid()
      ensures GuardState() == AfterFrame(old(GuardState()))
      ensures old(pendingFrames) > 0 ==>
                && links.Links() == Highlight(old(links.Links()), view.sections, view.scrollY + LookAhead)
                && backToTopClasses == BackToTopClasses(old(backToTopClasses), view.scrollY)
                && navbarShadow == NavbarShadow(view.scrollY)
                && trace == old(trace) + FrameOrder
      ensures old(pendingFrames) == 0 ==>
                && links.Links() == old(links.Links())
                && backToTopClasses == old(backToTopClasses) && navbarShadow == old(navbarShadow)
                && trace == old(trace)
    {
      if pendingFrames > 0 {
        RunFrameUpdates(view);
        isScrolling := false;
        pendingFrames := pendingFrames - 1;
      }
    }

    /** The load listener of lines 131-136: the same four updates, progress bar first. */
    method OnLoad(view: Viewport)
      requires Valid()
      modifies this`backToTopClasses, this`navbarShadow, this`trace, links.active
      ensures Valid()
      ensures links.Links() == Highlight(old(links.Links()), view.sections, view.scrollY + LookAhead)
      ensures backToTopClasses == BackToTopClasses(old(backToTopClasses), view.scrollY)
      ensures navbarShadow == NavbarShadow(view.scrollY)
      ensures trace == old(trace) + LoadOrder
    {
      trace := trace + [ProgressUpdate];
      links.UpdateActiveNav(view.scrollY, view.sections);
      trace := trace + [ActiveNavUpdate];
      UpdateBackToTop(view.scrollY);
      UpdateNavbar(view.scrollY);
    }
  }
}
