# Shared-header pager: offset synchronisation and page activation

This project models the controller inside `SharedHeaderPager`, a React Native
component. It shows one collapsible header above a horizontal pager of
vertically scrolling pages. Beneath its rendering and animation plumbing the
controller is a small state machine over a handful of shared cells:

- `selectedIndex`, which is copied from the owner's `selectedIndex` prop;
- `currentPageOffset`, the single page scroll value that every page's
  `context.scrollOffset` aliases;
- the derived header offset `clamp(currentPageOffset, 0, headerHeight)`;
- `pagerScrollOffset` and `isPagerScrolling`, which are written by the pager's
  scroll handler;
- two cells per page: a pending delayed commit (`debouncedAdjust`) and a
  one-shot adjustment slot (`scrollAdjust`).

`derivations.dfy` (module `Derivations`) holds the pure parts:

- the clamp and `Math.round`, and the page that a pager offset settles on;
- page visibility;
- what one header change does to the per-page pending commits
  (`Rescheduled`).

`header_pager.dfy` (module `HeaderPager`) holds the class
`SharedHeaderPager`. Each event handler and each reaction of the source is one
method of it:

- `onScroll` and `onMomentumEnd`;
- the prop effect and the `selectedIndex` reaction;
- a page's scroll report;
- each page's header reaction and copy reaction;
- the delayed commit firing;
- the one-shot consumer.

The effects the controller sends out (`onSelect`, the pager's `scrollTo`, a
page's `offscreenScroll`) are appended in order to the `effects` log. The
32 ms delay is abstract: the commit happens when the environment calls
`TimerFires(p)`. A newer schedule replaces the pending one, which is how the
source's "cancelled animation fires with `finished == false`" rule behaves.
The ghost field `lastTarget` records the last target scheduled for each page.
`Valid()` states that any pending commit carries that target, so an earlier,
superseded target can never be committed.

`scenarios.dfy` (module `Scenarios`) replays short event sequences against the
class. The verifier proves each sequence's outcome from the method contracts
alone.

Offsets are exact reals, and `Math.round(x)` is `floor(x + 1/2)`. The
window width, the header height, the page count, whether an
`animatedIndex` was passed and that cell's initial value are constructor
parameters. The width must be
positive.

## Model

| member | source | states |
|---|---|---|
| `Derivations.Clamp` | components/SharedHeaderPager.tsx:80-82 | for `lo <= hi` the result lies in `[lo, hi]`; a value already in range is returned unchanged; below the range gives `lo`, above gives `hi`; with `lo > hi` the upper bound wins, as `min(max(x, lo), hi)` does |
| `Derivations.ClampIdempotent` | components/SharedHeaderPager.tsx:80-82 | clamping an already clamped header offset changes nothing, for any bounds |
| `Derivations.ClampMonotonic` | components/SharedHeaderPager.tsx:80-82 | the clamp preserves order, so the header follows the page's scroll direction |
| `Derivations.ClampIndex` | components/SharedHeaderPager.tsx:108 | the same clamp applied to the integer settled index, defined through `Clamp`: within `[lo, hi]` when `lo <= hi`, identity in range, the nearer bound outside it |
| `Derivations.Round` | components/SharedHeaderPager.tsx:107 | `Math.round`: the result lies within half a unit of `x`, with halves rounded up |
| `Derivations.RoundUnique` | components/SharedHeaderPager.tsx:107 | any integer within that half-unit window is the rounded value, so the rounding is determined |
| `Derivations.SettleIndex` | components/SharedHeaderPager.tsx:107-108 | the momentum-end index is a valid page index when there is at least one page (and -1 for no pages); it is page 0 below the first half page; it is the last page beyond the last half page; otherwise it is the page whose span `[(r - 1/2)·width, (r + 1/2)·width)` contains the offset |
| `Derivations.SettleAtPageOffset` | components/SharedHeaderPager.tsx:107-120 | settling at `k·width`, where the programmatic `scrollTo` for index `k` leaves the pager, yields `k` again: the round trip between the two |
| `Derivations.RoundMonotonic` | components/SharedHeaderPager.tsx:107 | `Math.round` preserves order |
| `Derivations.SettleMonotonic` | components/SharedHeaderPager.tsx:107-108 | a pager that has scrolled further never settles on an earlier page |
| `Derivations.VisiblePages` | components/SharedHeaderPager.tsx:176 | the visible pages are exactly `{selectedIndex}` when that index is a page, and none otherwise |
| `Derivations.AtMostOneVisible` | components/SharedHeaderPager.tsx:176 | at most one page is visible at any time |
| `Derivations.Rescheduled` | components/SharedHeaderPager.tsx:190-207 | after a header change to `target`, the visible page's pending commit is untouched and every other page has exactly `target` pending |
| `Derivations.RescheduleSupersedes` | components/SharedHeaderPager.tsx:196-206 | last-scheduled-wins: two header changes in a row leave what the second alone leaves; the earlier target leaves no trace |
| `Derivations.RescheduledAll` | components/SharedHeaderPager.tsx:190-207 | any run of header changes leaves the visible page's pending commit untouched |
| `Derivations.RescheduleAllLast` | components/SharedHeaderPager.tsx:190-207 | after any non-empty run of header changes, each inactive page has exactly the last target pending, whatever came before |
| `HeaderPager.SharedHeaderPager.HeaderOffset` | components/SharedHeaderPager.tsx:80-82 | the header offset lies in `[0, headerHeight]` for a non-negative height and equals `currentPageOffset` when that is already in range |
| `HeaderPager.SharedHeaderPager.constructor` | components/SharedHeaderPager.tsx:73-93 | every shared cell starts at its initial value (index 0, offsets 0, not scrolling); the owner's `animatedIndex` keeps the value it was given; no page has a pending commit or a filled slot; nothing has been emitted |
| `HeaderPager.SharedHeaderPager.SetSelectedIndexProp` | components/SharedHeaderPager.tsx:76-78 | the shared index becomes the prop; a `scrollTo(p·width)` is emitted exactly when the index changed and no gesture is in flight; during a gesture nothing is emitted |
| `HeaderPager.SharedHeaderPager.SelectedIndexReaction` | components/SharedHeaderPager.tsx:114-122 | emits `scrollTo(selectedIndex·width)` unless `isPagerScrolling`, and changes nothing else |
| `HeaderPager.SharedHeaderPager.PagerScroll` | components/SharedHeaderPager.tsx:96-104 | sets the scrolling flag, stores the offset, and sets `animatedIndex` to `offset/width` only when one was passed; the frame leaves `selectedIndex`, the page cells and the log untouched, so a drag without a settle never changes the selection |
| `HeaderPager.SharedHeaderPager.PagerMomentumEnd` | components/SharedHeaderPager.tsx:105-111 | returns and emits exactly one `onSelect` with `SettleIndex(pagerScrollOffset)`, a valid page index; clears the scrolling flag; does not write `selectedIndex` |
| `HeaderPager.SharedHeaderPager.PageScroll` | components/SharedHeaderPager.tsx:179-218 | any page's report, visible or not, becomes `currentPageOffset`, so the header is the clamped latest report; if the header moved, every inactive page's pending commit is replaced by the new header value and the visible page's is kept; otherwise nothing is scheduled |
| `HeaderPager.SharedHeaderPager.HeaderOffsetChanged` | components/SharedHeaderPager.tsx:190-208 | running every page's header reaction updates the pending commits (and the last targets) to `Rescheduled` of the old ones |
| `HeaderPager.SharedHeaderPager.AdjustOffscreen` | components/SharedHeaderPager.tsx:190-207 | a visible page schedules nothing and cancels nothing; an inactive page's pending commit becomes the new target, replacing the old one |
| `HeaderPager.SharedHeaderPager.OffsetCopyReaction` | components/SharedHeaderPager.tsx:211-218 | writes the observed offset into `currentPageOffset` only when the page is visible, and otherwise changes nothing |
| `HeaderPager.SharedHeaderPager.TimerFires` | components/SharedHeaderPager.tsx:196-206 | a pending target moves into the page's one-shot slot and the pending commit is cleared; the committed value is the last target scheduled for that page; with nothing pending, nothing changes |
| `HeaderPager.SharedHeaderPager.ConsumeAdjust` | components/SharedHeaderPager.tsx:52-60 | a filled slot is handed to `offscreenScroll` exactly once and reset to empty; an empty slot emits nothing and stays empty |
| `Scenarios.ScrollPastHeaderThenSwipe` | components/SharedHeaderPager.tsx:96-122 | scrolling page 0 to 300 under a 250 header clamps the header to 250, commits 250 to pages 1 and 2, and a swipe to page 1 emits `onSelect(1)` once; the switch schedules nothing for page 0 |
| `Scenarios.HeaderReturnsThenSwipeBack` | components/SharedHeaderPager.tsx:190-218 | with page 1 active, scrolling it to 0 supersedes page 0's pending 250 with 0; page 0 then jumps to 0, and the swipe back emits `onSelect(0)` once |
| `Scenarios.OffscreenEchoReachesSharedCell` | components/SharedHeaderPager.tsx:179-185 | the echo of an inactive page's offscreen jump overwrites the shared page offset |
| `Scenarios.SelectionDuringDrag` | components/SharedHeaderPager.tsx:114-122 | a prop change mid-drag emits no `scrollTo`, but the selection and page visibility follow the prop at once; the drag then settles on page 0 |
| `Scenarios.CommitOutlivesSwitch` | components/SharedHeaderPager.tsx:190-207 | a commit scheduled while page 1 was inactive still lands, and reaches `offscreenScroll`, after page 1 has become visible and the header has moved elsewhere |

## Behaviour worth knowing

- Momentum end only announces the index through `onSelect`. The selection
  changes when the owner passes that index back as the prop
  (`PagerMomentumEnd`, `SetSelectedIndexProp`).
- A prop change during a drag still changes the selection, and page
  visibility switches with it at once. Only the `scrollTo` is suppressed
  (`SelectionDuringDrag`).
- Every page's `context.scrollOffset` is `currentPageOffset` itself, so any
  page's scroll report lands in the shared cell directly, visible or not. The
  visibility-guarded copy then writes back the value it just read
  (`PageScroll`, `OffscreenEchoReachesSharedCell`).
- A page switch schedules nothing for the page that was left. Pages are
  scheduled only when the clamped header value later changes
  (`ScrollPastHeaderThenSwipe`).
- The visible-page branch of the header reaction returns without cancelling
  the pending commit. A commit scheduled just before a switch can therefore
  still land on the page that has just become visible (`CommitOutlivesSwitch`).
- No configuration is validated. The model requires only a positive width
  (the window width). The clamps are modelled for any `headerHeight` and any
  page count, including `lo > hi`.

## Left out

- Rendering: JSX, `StyleSheet` styles, `headerAnimatedStyle`, and the
  `ScrollView` props `snapToInterval`, `decelerationRate` and
  `disableIntervalMomentum` (components/SharedHeaderPager.tsx:84-89, 140-158,
  227-248). These are layout and have no effect on the controller's state.
- `Dimensions.get('window')`: the width is a positive constructor parameter.
- Timing of `withDelay`/`withSequence`/`withTiming`: the 32 ms delay is not
  modelled. `TimerFires` may be called at any time while a commit is
  pending. The model therefore does not capture that a commit only lands 32 ms after
  the last header change.
- `runOnJS`: `onSelect` runs later on the JavaScript thread. The model
  records it as an effect at the moment of the momentum end.
- Thread interleaving and the scheduling of worklets on the UI thread: events
  are handled one at a time, in the order the environment calls them.
- The consumer reaction runs right after a commit in the source. Here
  `ConsumeAdjust` is a separate event. This also covers pages that never call
  `useSharedHeaderContext` and so never consume.
- First runs of the reactions when they are registered at mount. At mount the
  `selectedIndex` reaction emits `scrollTo(0)` (components/SharedHeaderPager.tsx:114-122),
  and every inactive page's header reaction schedules a commit of the initial
  header offset 0 (components/SharedHeaderPager.tsx:190-207). The model leaves both out:
  the constructor starts with an empty effect log and with nothing pending for
  any page. The mount-time copy of the initial prop is a call to
  `SetSelectedIndexProp`.
- Reaction triggering: the header reactions run when the clamped header value
  changes. A report that leaves the clamped value unchanged runs none of them.
- `memo`/`useMemo` caching, remounting, and a page count that changes at
  runtime: the page count is fixed at construction.
- Floating-point behaviour of `/` and `Math.round`: offsets are exact reals.
- components/AnimatedIndex.tsx formats the fractional index for display. The
  model stops at the `animatedIndex` cell.
- app/index.tsx is the demo owner and its lists. Its scroll handler is the
  input `PageScroll`. Its `offscreenScroll`, which scrolls the list without
  animation, is the `OffscreenScroll` effect.
