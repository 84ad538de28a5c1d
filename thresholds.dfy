/**
 * The two scroll thresholds of js/main.js: the back-to-top button
 * (`updateBackToTop`, lines 92-101) and the navbar shadow (`updateNavbar`,
 * lines 103-112). Both depend on the vertical scroll offset alone.
 */
module Thresholds {

  /** The offset above which the back-to-top button shows. */
  const BackToTopThreshold: int := 300
  /** The offset above which the navbar gets its heavy shadow. */
  const NavbarThreshold: int := 50

  /** The class `updateBackToTop` adds or removes. */
  const Visible: string := "visible"

  /** `navbar.style.boxShadow` once the page is scrolled past the threshold ... */
  const HeavyShadow: string := "0 4px 20px rgba(0, 0, 0, 0.1)"
  /** ... and before that. */
  const LightShadow: string := "0 1px 2px 0 rgba(0, 0, 0, 0.05)"

  /** The back-to-top button's class list after `updateBackToTop`. */
  function BackToTopClasses(classes: set<string>, scrollY: int): (r: set<string>)
    ensures Visible in r <==> scrollY > BackToTopThreshold
    ensures r - {Visible} == classes - {Visible}
  {
    if scrollY > BackToTopThreshold then classes + {Visible} else classes - {Visible}
  }

  /** The navbar's box shadow after `updateNavbar`. */
  function NavbarShadow(scrollY: int): (r: string)
    ensures r == HeavyShadow <==> scrollY > NavbarThreshold
    ensures r == HeavyShadow || r == LightShadow
  {
    if scrollY > NavbarThreshold then HeavyShadow else LightShadow
  }

  /** The boundary: at 300 the button is hidden, at 301 it shows. */
  lemma BackToTopBoundary(classes: set<string>)
    ensures Visible !in BackToTopClasses(classes, 300)
    ensures Visible in BackToTopClasses(classes, 301)
  {
  }

  /** The boundary of the navbar shadow: light at 50, heavy at 51. */
  lemma NavbarBoundary()
    ensures NavbarShadow(50) == LightShadow && NavbarShadow(51) == HeavyShadow
  {
  }

  /** For a fixed offset, running `updateBackToTop` again changes nothing. */
  lemma BackToTopIdempotent(classes: set<string>, scrollY: int)
    ensures BackToTopClasses(BackToTopClasses(classes, scrollY), scrollY) == BackToTopClasses(classes, scrollY)
  {
  }

  /** The button's visibility only depends on the offset, not on what it showed before. */
  lemma BackToTopForgetsHistory(c1: set<string>, c2: set<string>, scrollY: int)
    ensures (Visible in BackToTopClasses(c1, scrollY)) == (Visible in BackToTopClasses(c2, scrollY))
  {
  }
}
