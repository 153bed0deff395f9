# AgroAnimal landing page: carousel and product filter, modelled in Dafny

This project models the two pieces of logic in the AgroAnimal landing page scripts that have state worth stating:

- **The image carousel** of `script.js`. Each `.carousel` keeps a current slide index, a drag flag with its origin, an autoplay interval handle and a row of dot buttons. It is driven by prev/next clicks, dot clicks, arrow keys, an autoplay interval, the debounced scroll-settle and resize callbacks, and pointer drags. The model gathers the closure variables into an immutable `Carousel.State` record and writes each handler as a pure transition. `Carousel.Valid` is the invariant every transition keeps:
  - the index stays within the slides;
  - at most one interval is alive, and it is the one whose handle is held;
  - when dots exist, there is one dot per slide, in slide order, and exactly the current one is active.
- **Product search, filter buttons and the detail modal** of `products.js`:
  - a card is shown exactly when it matches both the normalised query and the active category token;
  - a click on a filter button leaves that button as the only active one;
  - the modal is a two-state overlay, and a card fills it with defaults for missing attributes.

Modules:

| file | module | contents |
|---|---|---|
| wrappers.dfy | `Wrappers` | `Option`, `Result` |
| snap.dfy | `Snap` | nearest-slide selection: candidates, stable sort by distance, first-nearest reference definition |
| carousel.dfy | `Carousel` | carousel state, invariant, every handler, multi-step lemmas |
| ascii_text.dfy | `AsciiText` | ASCII `toLowerCase`, `trim`, `includes` |
| products.dfy | `Products` | cards, query normalisation, filter token, visibility, filter buttons, catalogue events |
| product_modal.dfy | `ProductModal` | modal fields and visibility, open/close handlers |

Inputs the page gets from the browser are parameters of the model:
- slide centre scroll positions (`centers`), which `getCenterScroll` computes from the layout;
- the track's `scrollLeft`;
- pointer x positions;
- the interval handle that `setInterval` returns;
- the card attributes and heading text;
- the click target and the key pressed.

## Behaviour worth knowing

- `goTo` clamps its index into the slides (script.js:208). So the prev/next buttons and the arrow keys stop at the first and last slide. Only the autoplay tick wraps from the last slide to the first (script.js:254).
- A drag ends by snapping to the slide whose centre is nearest the track's scroll position, whatever the drag distance (script.js:274-280). Ties go to the lowest index, because the host's sort is stable. The model uses a stable insertion sort; every stable sort puts the same candidate first.
- The query is matched against the lower-cased `data-name` and the lower-cased heading text only. The category takes part only through the filter token (products.js:65-68).
- Every drag restarts autoplay, even while the pointer is still over the track (script.js:279). `Carousel.DragResumesAutoplayWhileHovering` states this.
- The carousel moves by scrolling the track (script.js:210). Only the dots carry an `active` class; the slides carry none.

## Model

| member | source | states |
|---|---|---|
| Carousel.Clamp | script.js:208 | an index inside the slides is kept; below 0 gives 0; at or past the count gives the last slide; the result is always a slide index |
| Carousel.GoTo | script.js:207-213 | the current index becomes the clamped target; dots keep their count and targets and only the new current dot is active; nothing else changes; the invariant is kept |
| Carousel.UpdateDots | script.js:228-231 | every existing dot keeps its target and is active exactly when its position is the current index |
| Carousel.SyncDots | script.js:229-230 | without a dot container nothing changes; otherwise every dot keeps its target and only the dot at the current index is active |
| Carousel.BuildDots | script.js:215-226 | one dot per slide, dot i navigates to slide i, only the current one active |
| Carousel.Prev | script.js:234 | one slide back, but the first slide stays first (no wrap); only the index changes, and an existing dot container is kept and re-marked for the new slide |
| Carousel.Next | script.js:235 | one slide forward, but the last slide stays last (no wrap); only the index changes, and an existing dot container is kept and re-marked for the new slide |
| Carousel.DotClick | script.js:222 | clicking dot i makes slide i current and dot i active; only the index changes, and the dot container is kept and re-marked |
| Carousel.Tick | script.js:253-255 | an autoplay tick moves one forward and from the last slide to slide 0; only the index changes, and an existing dot container is kept and re-marked |
| Carousel.KeyDown | script.js:286-289 | ArrowRight moves forward unless on the last slide, ArrowLeft back unless on the first, any other key changes nothing; an arrow changes only the index, keeping and re-marking an existing dot container |
| Carousel.StartAuto | script.js:251-257 | no-op when a handle is held; otherwise the new interval is held and alive; afterwards exactly one interval is alive |
| Carousel.StopAuto | script.js:258 | the handle is dropped and its interval cleared; safe and a no-op when none is held; no interval is left alive |
| Carousel.PointerDown | script.js:265-268 | a drag starts at the pointer and track position and autoplay is stopped with no interval alive |
| Carousel.PointerMove | script.js:269-273 | ignored unless dragging; while dragging the track scrolls opposite to the pointer by exactly the pointer's displacement |
| Carousel.EndDrag | script.js:274-283 | no-op when not dragging; otherwise the drag flag clears, the first nearest slide becomes current, and autoplay runs on the held handle or else on the new handle; an existing dot container is kept and re-marked, nothing else changes |
| Carousel.ScrollSettle | script.js:238-247 | the first nearest slide to the scroll position becomes current; an existing dot container is kept and re-marked for it, and nothing else changes |
| Carousel.Resize | script.js:295 | re-navigating to the current slide leaves a valid state exactly as it was |
| Carousel.ResizeKeepsState | script.js:295 | `goTo(current)` is the identity on every valid state |
| Carousel.Init | script.js:179-199 | no track or no slides skips the carousel; otherwise slide 0 is current, dots exist iff the container does, autoplay runs, and the invariant holds |
| Carousel.ExactlyOneActiveDot | script.js:228-231 | in every valid state with dots the set of active dots is exactly the current index |
| Carousel.KeysActLikeButtons | script.js:286-289 | the arrow keys give exactly the prev/next button transitions |
| Carousel.GoToIdempotent | script.js:207-213 | navigating twice to the same index equals navigating once |
| Carousel.StartAutoTwice | script.js:251-252 | a second start never creates a second interval |
| Carousel.NextTimesSaturates | script.js:235 | k next clicks reach min(current + k, n - 1) |
| Carousel.PrevTimesSaturates | script.js:234 | k prev clicks reach max(current - k, 0) |
| Carousel.TickTimesCycles | script.js:253-255 | k autoplay ticks reach (current + k) mod n |
| Carousel.TicksFullRound | script.js:253-256 | n ticks return to the starting slide |
| Carousel.SettleAfterGoTo | script.js:241-245 | once the track rests on the centre of the slide goTo chose, the scroll-settle keeps that slide (distinct centres) |
| Carousel.DragResumesAutoplayWhileHovering | script.js:260-280 | after mouseenter stopped autoplay, a drag on the track still ends with exactly one live interval |
| Snap.SnapIndex | script.js:242-244 | the chosen slide is nearest to the scroll position and strictly nearer than every lower slide |
| Snap.Candidates | script.js:242 | one candidate per slide, in slide order, carrying the slide's index and its distance to the scroll position |
| Snap.SortByDist | script.js:243 | the sorted list is a permutation of the candidates; its order by distance, ties by index, is Snap.SortByDistLexSorted |
| Snap.SortedCandidatesHeadIsFirstNearest | script.js:276-278 | the head of the distance-sorted candidate list is the first nearest slide |
| Snap.SortByDistLexSorted | script.js:243 | the stable sort orders candidates by distance and equal distances by slide index |
| Snap.InsertKeepsLexSorted | script.js:243 | inserting an earlier candidate into a sorted list keeps it sorted by distance then index |
| Snap.FirstNearestUnique | script.js:242-244 | at most one slide is first nearest, so the snap target is determined |
| Snap.SnapAtCentre | script.js:242-244 | resting exactly on a slide's centre snaps to that slide when centres strictly increase |
| AsciiText.Lower | products.js:61 | same length, no upper-case letter left, upper-case letters shifted to lower case, all else kept, white space preserved |
| AsciiText.LowerIdempotent | products.js:65 | lower-casing twice equals once |
| AsciiText.TrimStart | products.js:61 | result is a suffix, all dropped characters are white space, it does not start with white space |
| AsciiText.TrimEnd | products.js:61 | result is a prefix, all dropped characters are white space, it does not end with white space |
| AsciiText.Trim | products.js:61 | result is a slice with only white space around it and white space at neither end |
| AsciiText.TrimAllSpace | products.js:61 | a white-space-only string trims to empty |
| AsciiText.TrimLower | products.js:61 | trimming commutes with lower-casing |
| AsciiText.Includes | products.js:67 | the substring test is true exactly when the needle occurs at some position of the text |
| AsciiText.OccursInTail | products.js:67 | when the needle is not a prefix, it occurs in the text iff it occurs in the text without its first character |
| AsciiText.IncludesEmpty | products.js:67 | the empty string is included in every string |
| Products.NormalizeQuery | products.js:61 | the query is the trimmed input, lower-cased: no upper case, no white space at either end, and a blank input gives the empty query |
| Products.OrElse | products.js:19-21 | a present non-empty attribute is used as is; a missing or empty one gives the fallback |
| Products.ActiveFilter | products.js:62 | the first active button's data-filter, or "all" when none is active or its data-filter is missing or empty |
| Products.FilterProducts | products.js:60-71 | one flag per card: shown iff it matches both the normalised query and the active token |
| Products.MatchesQuery | products.js:65-67 | a card matches iff the query is empty or occurs in the lower-cased name (missing name read as empty) or in the lower-cased heading text of a card that has one |
| Products.MatchesFilter | products.js:66-68 | the token "all" lets every card through; any other matching token is, letter by letter, the card's category lower-cased |
| Products.OwnCategoryPasses | products.js:66-68 | the button whose token is the card's own lower-cased category shows the card |
| Products.BlankQueryFiltersByCategoryOnly | products.js:61-69 | with a blank query a card is shown iff it passes the category filter |
| Products.NoActiveButtonFiltersByQueryOnly | products.js:62-69 | with no active button the filter is "all" and only the query decides |
| Products.CategoryNotSearched | products.js:65-67 | changing a card's category never changes whether it matches the query |
| Products.QueryCaseInsensitive | products.js:61-67 | lower-casing the typed query never changes which cards are shown |
| Products.UpperCaseTokenMatchesNothing | products.js:66-68 | a token other than "all" with an upper-case letter matches no card, because only the category is lower-cased |
| Products.ClearActive | products.js:80 | every button loses the active class, filters unchanged |
| Products.ClickFilter | products.js:80-81 | after the click exactly the clicked button is active, filters unchanged |
| Products.ClickMakesTokenActive | products.js:78-83 | after a click the active set is the clicked button and its token is the filter in force |
| Products.OnInput | products.js:73-75 | typing records the query and the visibility matches it |
| Products.OnFilterClick | products.js:78-84 | a filter click keeps every button and its data-filter, leaves only the clicked button active, and shows exactly the cards matching the query and the clicked token |
| Products.ShirtSearchExample | products.js:60-71 | "shirt" with no active filter over a red shirt and blue pants shows only the shirt |
| ProductModal.OpenModal | products.js:17-30 | missing image or missing title source throws before any change; a card with an image and a title source always opens, and the modal is shown, not aria-hidden, titled by data-name or else the heading, with description and price defaulting to empty |
| ProductModal.ClickCard | products.js:37-46 | when openModal throws (no image, or no name and no heading) the modal is untouched; otherwise it is exactly the opened modal, filled from the card |
| ProductModal.CloseModal | products.js:32-35 | the modal is hidden and aria-hidden, its fields unchanged |
| ProductModal.BackdropClick | products.js:50-52 | a click on the backdrop itself is exactly closeModal, so the fields are kept; a click inside changes nothing |
| ProductModal.KeyDown | products.js:55-57 | Escape is exactly closeModal, so the fields are kept; any other key changes nothing |
| ProductModal.CloseIdempotent | products.js:32-35 | closing twice equals closing once |
| ProductModal.OpenForgetsPrevious | products.js:38-45 | the opened modal depends only on the card, so the card and "Ver" handlers opening twice equal opening once |
| ProductModal.HandlersKeepConsistent | products.js:28-35 | every handler keeps display and aria-hidden in agreement |

## Left out

- DOM lookups, element creation and class and style mutation are left out. Only the resulting abstract state is modelled: indices, flags, dots, visibility and modal fields.
- The smooth `scrollTo` issued by `goTo` is left out. The track's scroll position is an input wherever the code reads it.
- `getCenterScroll` (script.js:200-205) is left out: it is pixel layout arithmetic over `offsetLeft`/`clientWidth` and `Math.round`. Slide centres are given integers. Fractional `scrollLeft` values are not modelled.
- Wrapping the track's children into `.inner` (script.js:183-190) is left out. It is DOM restructuring with no effect on the state.
- Timing is left out: the 4200 ms autoplay period, the 120 ms scroll and resize debounce, and `debounce` (script.js:16-19). An interval or debounce firing is an event that simply happens. Clearing a pending debounce timer is not modelled.
- `setPointerCapture` and the cursor style on drag are left out. They are browser side effects.
- Hero parallax (script.js:137-154) is left out: floating-point mouse and scroll arithmetic.
- Reveal-on-scroll, the header shrink, smooth anchors, the mobile menu, toasts, the add-to-cart animation, the floating contact button and the global "c"/"g" shortcuts are left out. They are browser plumbing with no state to state.
- The Enter key on the search box (products.js:87-92) is left out. It picks the first visible card through an inline-style attribute selector.
- Unicode is left out. `toLowerCase` is modelled on ASCII letters only, and `trim` on the six ASCII white-space characters only. JavaScript's versions are Unicode-aware.
- The missing-element paths of products.js are left out: the grid, search box, modal and close buttons are assumed present, as the page's markup provides them. Failures of `openModal` itself are modelled.
- Carousel.PointerMove: states only the new scroll position. Writing it to the track is the host's `scrollLeft` setter, which is not modelled.
