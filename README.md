# resume2025 page script: a Dafny model

This project models the logic of `js/main.js`, the script of a static résumé
page. That logic is small and event driven:

- a mobile menu that opens and closes;
- smooth scrolling to in-page fragments;
- a scroll handler that, at most once per animation frame, updates four
  things: the active navigation link, the progress bar, the back-to-top
  button and the navbar shadow;
- extraction of the address from `mailto:` links;
- a Konami-code easter egg that keeps a rolling buffer of the last ten keys.

The DOM is abstract:

- a section is `Section(top, height, id)`;
- a navigation link is `NavLink(href, active)`;
- a class list is a `set<string>`;
- a click target is the list of class sets of the element and its ancestors;
- the ids in the document are a sequence.

Where the script changes state step by step, the model has a class:

- `Konami.KonamiDetector`: the key buffer, the body animation and the
  document's ids;
- `Menu.MobileMenu`: the burger and nav-links `active` classes and the body
  overflow;
- `ActiveNav.NavLinks`: the link hrefs, and an array of `active` flags
  updated by nested loops;
- `ScrollFrame.ScrollController`: the `isScrolling` flag, the browser's
  pending frames, the back-to-top classes, the navbar shadow, and a ghost
  trace of the updates run.

Each method's `ensures` says that the new state equals a pure function of the
old state. Lemmas then prove what the script promises about those functions.

Modules and files:

| file | module | part of `js/main.js` |
|---|---|---|
| wrappers.dfy | `Wrappers` | `Option`, for lookups that may find nothing |
| konami.dfy | `Konami` | keydown buffer and rainbow effect (lines 269-298) |
| menu.dfy | `Menu` | burger, link-click and outside-click handlers (lines 9-37) |
| active_nav.dfy | `ActiveNav` | `updateActiveNav` (lines 57-78) |
| thresholds.dfy | `Thresholds` | `updateBackToTop`, `updateNavbar` (lines 92-112) |
| scroll_frame.dfy | `ScrollFrame` | scroll guard, frame callback and load handler (lines 114-136) |
| smooth_scroll.dfy | `SmoothScroll` | in-page anchor clicks (lines 39-55) |
| mailto.dfy | `Mailto` | `href.replace('mailto:', '')` (lines 203-209) |

Three behaviours of the code are worth stating plainly, because a reader
might expect otherwise:

- `updateActiveNav` does not keep exactly one link active. When no section
  contains `scrollY + 200`, the links keep their previous classes. When a
  section matches, every link whose href is `#` + its id becomes active: that
  can be none of them, or several. `ActiveNav.OneLinkActive` proves "exactly
  one" only when the hrefs are distinct and one of them names the section.
- The Konami test compares the two joined strings, not the two arrays entry
  by entry. The model keeps the string comparison, and
  `Konami.JoinedMatchIsNotElementwise` shows a buffer that differs from the
  target but still fires.
- A click on an anchor whose href is just `#` makes `querySelector('#')`
  throw. This happens after `preventDefault`, so the outcome is: default
  prevented, no scrolling, and an exception.

## Model

| member | source | states |
|---|---|---|
| `Konami.LastKeys` | js/main.js:275 | `slice(-10)` keeps `min(10, n)` entries, and they are the last ones, in order |
| `Konami.Join` | js/main.js:277 | `join('')` on an array of strings: the keys concatenated in order; `JoinAppend`, `JoinPair` and `MergeKeepsJoin` state its behaviour |
| `Konami.JoinAppend` | js/main.js:277 | `join('')` of a concatenation is the concatenation of the joins |
| `Konami.Step` | js/main.js:274-275 | one keydown, push then `slice(-10)`; `StepKeepsLastKeys` proves it takes the last 10 keys of a history to the last 10 keys of the history plus the new key |
| `Konami.BufferAfter` | js/main.js:270-275 | the buffer after a key history, starting from the empty `konamiCode`; `BufferIsLastKeys` proves it is the last `min(10, n)` keys |
| `Konami.Matches` | js/main.js:277 | the test of line 277: the joined buffer equals the joined target; `MergedTargetMatches` shows it is not an entry-by-entry comparison |
| `Konami.Fires` | js/main.js:271-277 | `Matches` against the Konami sequence; `TargetFiresAfterAnyKeys` and `NineKeysNeverFire` state when it holds |
| `Konami.StepKeepsLastKeys` | js/main.js:274-275 | one push-then-slice step takes the last keys of a history to the last keys of the history plus the new key |
| `Konami.BufferIsLastKeys` | js/main.js:270-275 | after any key history the buffer has at most 10 entries and is exactly the last `min(10, n)` keys, in order |
| `Konami.TargetFillsBuffer` | js/main.js:274-275 | after a 10-key sequence, whatever came before, the buffer is that sequence |
| `Konami.TargetFiresAfterAnyKeys` | js/main.js:271-277 | pressing the Konami sequence fires after any earlier keys, including one extra leading key |
| `Konami.PrefixJoinShorter` | js/main.js:277 | for non-empty keys, the join of a proper prefix is strictly shorter than the join of the whole target |
| `Konami.ProperPrefixNeverMatches` | js/main.js:273-277 | from load, a proper prefix of a target with non-empty keys never matches it |
| `Konami.ProperPrefixDoesNotFire` | js/main.js:271-277 | from load, the first `k < 10` Konami keys (in particular the first 9) do not fire |
| `Konami.NineOfTenNeverMatch` | js/main.js:273-277 | the first nine keys of a suitable 10-key target never match it, whatever came before |
| `Konami.NineKeysNeverFire` | js/main.js:271-277 | the first nine Konami keys never fire, after any earlier keys |
| `Konami.JoinPair` | js/main.js:277 | the join of two keys, and of their one-entry merge, is their concatenation |
| `Konami.MergeKeepsJoin` | js/main.js:277 | merging two adjacent entries into one string leaves the joined string unchanged |
| `Konami.MergedTargetMatches` | js/main.js:277 | the match is on the concatenation: an 8-entry buffer that differs from a target still matches it |
| `Konami.JoinedMatchIsNotElementwise` | js/main.js:271-277 | the buffer `["ArrowUpArrowUp", ..., "ba"]` differs from the Konami sequence, is the buffer after those eight keys from load, and fires |
| `Konami.MatchCount` | js/main.js:273-277 | the number of keydowns along a history on which the test of line 277 succeeds; `TargetMatchesExactlyOnce` proves it is 1 for one press of a target |
| `Konami.TargetMatchesExactlyOnce` | js/main.js:273-277 | pressing a 10-key target with non-empty keys once from load matches on exactly one keydown |
| `Konami.TargetFiresExactlyOnce` | js/main.js:271-277 | pressing the Konami sequence once from load fires exactly once |
| `Konami.InjectRainbowStyle` | js/main.js:282-292 | afterwards a `rainbow-style` element exists; when one already existed the ids are unchanged; otherwise `rainbow-style` is appended once and nothing else changes |
| `Konami.StyleInjectedAtMostOnce` | js/main.js:282-292 | firing any number of times injects the style no more than firing once |
| `Konami.KonamiDetector.constructor` | js/main.js:270-271 | the buffer starts empty and the target is the Konami sequence |
| `Konami.KonamiDetector.AddStyleIfMissing` | js/main.js:282-292 | the document's ids become `InjectRainbowStyle` of the old ids |
| `Konami.KonamiDetector.OnKeyDown` | js/main.js:273-293 | the buffer becomes push-then-slice of the old one and stays the last keys of the history; when the joined buffer equals the joined target, the body gets the rainbow animation and the style is injected, guarded by the document's ids |
| `Menu.Toggle` | js/main.js:15-19 | flips both `active` classes; overflow is `hidden` exactly when the links are active afterwards |
| `Menu.Close` | js/main.js:22-36 | the result is closed and consistent |
| `Menu.Closest` | js/main.js:32 | `closest('.navbar')` finds the nearest element, the target itself included, that has the class; it finds none exactly when no element does |
| `Menu.CloseIfOutside` | js/main.js:31-37 | closes the menu when neither the target nor any ancestor has class `navbar` and leaves it as it is otherwise; `DocumentClickOutsideCloses` proves both directions |
| `Menu.Handle` | js/main.js:15-37 | dispatches one click to the burger, link or document handler; `HandlePreservesConsistent` proves each keeps the invariant |
| `Menu.Run` | js/main.js:15-37 | applies a sequence of clicks in order; `ReachableConsistent` proves any run from a consistent state ends consistent |
| `Menu.ToggleFlips` | js/main.js:15-19 | from a consistent state, the toggle keeps consistency and flips open and closed |
| `Menu.LinkClickCloses` | js/main.js:22-28 | a link click always gives the closed state as loaded |
| `Menu.DocumentClickOutsideCloses` | js/main.js:31-37 | a click outside `.navbar` gives the closed state as loaded (both classes removed, overflow cleared); a click inside leaves the state unchanged |
| `Menu.HandlePreservesConsistent` | js/main.js:15-37 | every handler keeps burger = links and overflow `hidden` exactly while open |
| `Menu.ReachableConsistent` | js/main.js:15-37 | any sequence of events from a consistent state ends consistent |
| `Menu.LoadedPageStaysConsistent` | js/main.js:10-37 | from the page as loaded, every sequence of events keeps the three facts together |
| `Menu.MobileMenu.constructor` | js/main.js:10-12 | the menu starts closed with no inline overflow |
| `Menu.MobileMenu.OnBurgerClick` | js/main.js:15-19 | the new state is `Toggle` of the old one |
| `Menu.MobileMenu.OnLinkClick` | js/main.js:22-28 | the new state is `Close` of the old one |
| `Menu.MobileMenu.OnDocumentClick` | js/main.js:31-37 | the menu closes exactly when neither the target nor any ancestor has class `navbar` |
| `ActiveNav.Contains` | js/main.js:69 | the position lies in `[top, top + height)`; `LastMatching` and `HighlightSelectsLastMatch` are stated in terms of it |
| `ActiveNav.LastMatching` | js/main.js:64-69 | finds the last section in document order whose `[top, top+height)` contains the position, or none when no section does |
| `ActiveNav.MarkFragment` | js/main.js:70-75 | every link keeps its href and is active exactly when its href is the fragment |
| `ActiveNav.Highlight` | js/main.js:61-78 | the links keep their number and hrefs |
| `ActiveNav.HighlightSelectsLastMatch` | js/main.js:61-78 | when no section contains `scrollY + 200`, the links are unchanged; otherwise a link is active exactly when its href is `#` + the id of the last containing section |
| `ActiveNav.HighlightStep` | js/main.js:64-77 | visiting one more section re-marks the links if it matches and changes nothing otherwise |
| `ActiveNav.OneLinkActive` | js/main.js:61-78 | with distinct hrefs and a link naming the deciding section, exactly that link is active |
| `ActiveNav.NavLinks.constructor` | js/main.js:59 | the links hold the given hrefs and flags |
| `ActiveNav.NavLinks.MarkLinks` | js/main.js:70-75 | the inner loop leaves the links as `MarkFragment` of the old links |
| `ActiveNav.NavLinks.UpdateActiveNav` | js/main.js:61-78 | the nested loops leave the links as `Highlight` of the old links at `scrollY + 200` |
| `Thresholds.BackToTopClasses` | js/main.js:95-101 | `visible` is present exactly when `scrollY > 300`; no other class changes |
| `Thresholds.NavbarShadow` | js/main.js:106-112 | the shadow is the heavy one exactly when `scrollY > 50`, and the light one otherwise |
| `Thresholds.BackToTopBoundary` | js/main.js:96 | at 300 the button is not visible; at 301 it is |
| `Thresholds.NavbarBoundary` | js/main.js:107 | at 50 the shadow is light; at 51 it is heavy |
| `Thresholds.BackToTopIdempotent` | js/main.js:95-101 | running the update twice at the same offset is the same as running it once |
| `Thresholds.BackToTopForgetsHistory` | js/main.js:95-101 | visibility depends on the offset alone, not on the earlier classes |
| `ScrollFrame.AfterScroll` | js/main.js:117-128 | the guard after one scroll event; `ScrollSchedulesOnce` proves what it does in each case of line 118 |
| `ScrollFrame.AfterFrame` | js/main.js:119-125 | the guard after one animation frame; `FrameClears` proves it leaves the guard idle |
| `ScrollFrame.RunGuard` | js/main.js:115-128 | the guard and the number of callbacks run after a sequence of scrolls and frames; `BurstCoalesces` and `RunKeepsGuard` state its properties |
| `ScrollFrame.ScrollSchedulesOnce` | js/main.js:117-128 | a scroll with the flag down requests exactly one frame and raises the flag; a scroll with the flag up changes nothing |
| `ScrollFrame.FrameClears` | js/main.js:119-125 | a frame clears the flag and leaves no frame pending |
| `ScrollFrame.BurstCoalesces` | js/main.js:115-128 | any burst of `n >= 1` scrolls leaves exactly one frame pending and runs none |
| `ScrollFrame.RunKeepsGuard` | js/main.js:115-128 | every event sequence keeps at most one pending frame, with the flag up exactly while it is pending; no more callbacks run than there were scrolls plus the one pending at the start |
| `ScrollFrame.ScrollController.constructor` | js/main.js:115 | the flag starts down, with no frame pending |
| `ScrollFrame.ScrollController.UpdateBackToTop` | js/main.js:95-101 | the button's classes become `BackToTopClasses` of the old ones |
| `ScrollFrame.ScrollController.UpdateNavbar` | js/main.js:106-112 | the shadow becomes `NavbarShadow(scrollY)` |
| `ScrollFrame.ScrollController.RunFrameUpdates` | js/main.js:120-123 | active nav, progress, back-to-top, then navbar, with each part's new state |
| `ScrollFrame.ScrollController.OnScroll` | js/main.js:117-128 | the guard becomes `AfterScroll` of the old guard; nothing else changes |
| `ScrollFrame.ScrollController.RunAnimationFrame` | js/main.js:119-125 | a pending callback runs the four updates in frame order and clears the flag; with none pending nothing changes |
| `ScrollFrame.ScrollController.OnLoad` | js/main.js:131-136 | the load handler runs the same four updates, with the progress bar first |
| `SmoothScroll.FirstWithId` | js/main.js:43 | the first element in document order with the id, or none when no element has it |
| `SmoothScroll.QueryFragment` | js/main.js:43 | `#` alone is a syntax error; otherwise an element is found or none exists with that id |
| `SmoothScroll.OnAnchorClick` | js/main.js:41-54 | the default is always prevented; it scrolls exactly when the target was found, to `offsetTop - navbarHeight`; it throws exactly on a syntax error |
| `SmoothScroll.ScrollsBelowNavbar` | js/main.js:40-55 | a link to the first element with that id scrolls to that element's top minus the navbar height |
| `Mailto.IndexOf` | js/main.js:209 | the first position where the pattern occurs, or none when it occurs nowhere |
| `Mailto.ReplaceFirst` | js/main.js:209 | `String.prototype.replace` with a string pattern and a replacement without `$` patterns: the text before and after the first occurrence around the replacement, or the input when there is none; `OnlyFirstOccurrenceRemoved` and `NoSchemeUnchanged` state its behaviour |
| `Mailto.ExtractEmail` | js/main.js:209 | replaces the first `mailto:` with nothing; `ExtractDropsPrefix` proves it drops exactly the 7-character prefix of every `mailto:` href |
| `Mailto.ExtractDropsPrefix` | js/main.js:204-209 | for every `mailto:` href the address is the href without its first 7 characters; prepending `mailto:` gives the href back |
| `Mailto.OnlyFirstOccurrenceRemoved` | js/main.js:209 | only the first occurrence is removed: `mailto:mailto:x@y` gives `mailto:x@y` |
| `Mailto.NoSchemeUnchanged` | js/main.js:209 | an href without `mailto:` is returned unchanged |

## Left out

- `Mailto.ReplaceFirst` does not apply JavaScript's `$` substitutions (`$&`,
  `` $` ``, `$'`, `$$`) to the replacement string; the only call, with `''`
  at line 209, has none.
- Keys are arbitrary strings in the model. A browser's `KeyboardEvent.key` never
  takes values such as `"ArrowUpArrowUp"`, so the buffer of
  `Konami.JoinedMatchIsNotElementwise` exists only in the model; it shows what
  the comparison of line 277 accepts, not a key sequence a user can type.
- AOS initialisation (lines 1-7): a call into a third-party library.
- Ripple and tilt effects (lines 138-186): floating-point geometry from
  `getBoundingClientRect`, purely cosmetic style strings, and a 600 ms
  removal timer.
- Progress bar (lines 80-90): a floating-point division whose denominator
  can be zero or negative. The frame and load handlers record it as a step
  in their update order, but it has no state in the model.
- `animateCounter` and `debounce` (lines 188-201, 300-315): timer and closure
  based, and never called.
- Clipboard write and tooltip (lines 211-241): an asynchronous platform call
  whose errors are swallowed, and two chained timers. Only the address
  extraction is modelled.
- Rainbow reset timer (lines 294-296): timer scheduling. The model sets the
  body animation but never resets it.
- Lazy image loader (lines 245-262): a thin wrapper over
  `IntersectionObserver`.
- Load-time `loaded` class, console messages and the hostname check
  (lines 264-267, 317-344): side effects only, and the hostname branch holds
  only commented-out code.
- Scroll offsets and element geometry are integers. A browser reports
  `scrollY` as a double, so fractional offsets are not modelled.
- Calls into the browser become parameters: the layout at frame time
  (`Viewport`), the click target's ancestry, the document's elements and
  ids, and the navbar height. Event dispatch (capture, bubbling, and which
  listeners a click reaches) is not modelled. Each handler is a separate
  method.
- `SmoothScroll.QueryFragment` reads every href as an id selector and treats
  only `#` alone as invalid. Other fragments that are not CSS identifiers
  (`#1a` throws) or that form compound selectors (`#a.b`) are not modelled.
- `ActiveNav.NavLinks.UpdateActiveNav` takes every section id as a string. A
  section without an `id` attribute yields the fragment `#null` in the
  source; the caller must pass `"null"` for it.
- The browser's animation-frame queue is a count, `pendingFrames`. The frame
  method runs one pending callback per frame. Several callbacks are never
  pending, because the guard's invariant allows at most one.
