# Explore My Gallery — a Dafny model of the gallery controller

The repository is a single client-side widget, `ExploreMyGallery` in
`script.js`. It filters a gallery of images by category, revealing the shown
items with a staggered animation. It also runs a lightbox that steps through
the visible images with buttons, arrow keys and horizontal swipes, and shows a
"position / total" counter.

This project models the controller's state machine with the page taken away:

- The gallery items are a fixed sequence of `Item` values. An item's identity,
  which `indexOf` compares, is its position in that sequence.
- The filter buttons are the sequence of their `data-filter` values.
- Everything the controller writes to the page is a field of the class
  `GalleryWidget.ExploreMyGallery`:
  - the `hidden` class of each item (an array);
  - the stagger rank each shown item last received (an array);
  - which buttons carry `active`;
  - whether the lightbox carries `active`;
  - the body's `overflow` style;
  - the item the lightbox shows;
  - the counter text.
- `visibleImages` and `currentImageIndex` are fields as in the source.

Modules:

- `Filtering`: which items a category shows and which the `hidden` flags leave visible.
- `Navigation`: JavaScript's truncating `%`, the next/previous wrap-around,
  `indexOf`, the swipe rule and the key switch.
- `CounterText`: the decimal counter text and a parser that reads it back.
- `GalleryWidget`: the controller class.
- `Scenarios`: short runs showing the source's less obvious behaviour.
- `Wrappers`: `Option`.

The class invariant `Valid()` says that `visibleImages` is exactly the
unhidden items in gallery order. It also says that `currentImageIndex` never
drops below -1, the value `indexOf` gives for a missing item.

The model follows these less obvious behaviours of the code:

- Opening a hidden item is not a no-op: the index becomes -1 (script.js:138-140).
- A category that no element carries as `data-filter` does not yield an empty
  list. The page query returns null and `filterImages` throws after every
  button has lost `active` (script.js:101-102). `FilterImages` returns
  `ok == false` with exactly that state.
- Previous/next from the buttons and from swipes do not check whether the
  lightbox is open; only the keyboard listener does (script.js:44).
- The counter reads `"{i+1} / {len}"` with spaces around the slash (script.js:131).
- Filtering neither closes the lightbox nor resets the index. The index can
  therefore exceed the new list until the next step wraps it
  (`Scenarios.FilterKeepsStaleIndex`).

## Model

| member | source | states |
|---|---|---|
| `GalleryWidget.ExploreMyGallery.constructor` | script.js:2-24 | every item is navigable in gallery order; the index is 0; the lightbox is closed; a non-empty gallery shows "1 / n" |
| `GalleryWidget.ExploreMyGallery.FilterImages` | script.js:99-121 | succeeds exactly when some button carries the category, and the first such button is then the only active one; the visible items become exactly those the category shows, in gallery order; each shown item's stagger rank is its position in the new list; hidden items keep their old rank; on failure no button is active and nothing else changes; the index and lightbox are untouched |
| `GalleryWidget.ExploreMyGallery.HideAndRank` | script.js:105-117 | each item is hidden exactly when the category does not show it; each shown item's rank is the number of shown items before it; a hidden item keeps its rank |
| `GalleryWidget.ExploreMyGallery.UpdateVisibleImages` | script.js:123-127 | the navigable items become the unhidden ones in gallery order |
| `GalleryWidget.ExploreMyGallery.UpdateImageCounter` | script.js:129-133 | with visible items the counter reads the 1-based index over the count; with none it keeps its text |
| `GalleryWidget.ExploreMyGallery.OpenLightbox` | script.js:135-153 | the index becomes the clicked item's position among the visible items (-1 exactly when it is hidden); a visible item is displayed with its counter, the lightbox opens and scrolling locks; a hidden one changes nothing else |
| `GalleryWidget.ExploreMyGallery.CloseLightbox` | script.js:155-158 | from any state the lightbox is closed and the page scrolls, so a second close changes nothing |
| `GalleryWidget.ExploreMyGallery.PreviousImage` | script.js:160-163 | the index moves one back with wrap-around and stays in range; that item is displayed with its counter |
| `GalleryWidget.ExploreMyGallery.NextImage` | script.js:165-168 | the index moves one on with wrap-around and stays in range; that item is displayed with its counter |
| `GalleryWidget.ExploreMyGallery.UpdateLightboxImage` | script.js:170-189 | the item at the index is displayed and the counter shows it |
| `GalleryWidget.ExploreMyGallery.KeyDown` | script.js:43-57 | a closed lightbox or any other key changes nothing; Escape closes; ArrowLeft steps back; ArrowRight steps on |
| `GalleryWidget.ExploreMyGallery.LightboxClick` | script.js:60-64 | a click on the backdrop closes the lightbox; any other click leaves it as it was |
| `GalleryWidget.ExploreMyGallery.HandleSwipe` | script.js:79-90 | leftward travel of more than 50 px steps on; rightward travel of more than 50 px steps back; anything within 50 px changes nothing |
| `GalleryWidget.OpenAfterFilter` | script.js:105-138 | right after a filter, opening a shown item lands on the stagger rank the filter gave it |
| `GalleryWidget.OpenHiddenAfterFilter` | script.js:137-140 | right after a filter, opening an item it hides finds nothing (-1) |
| `Filtering.MatchingIncreasing` | script.js:106-117 | the filter's result lists gallery positions in strictly increasing order, so it keeps gallery order and has no repeats |
| `Filtering.MatchingMembers` | script.js:106-117 | a position is in the filter's result exactly when the category is "all" or equals the item's category |
| `Filtering.MatchingAll` | script.js:108 | filtering by "all" shows every item in gallery order |
| `Filtering.MatchingPrefix` | script.js:106-117 | what the filter shows among the first m items is a prefix of its whole result |
| `Filtering.StaggerRankIsPosition` | script.js:105-116 | the number of shown items before a shown item is that item's position in the filtered list |
| `Filtering.UnhiddenMatching` | script.js:106-127 | hiding every item the category does not show leaves exactly the filter's result visible |
| `Filtering.UnhiddenNone` | script.js:14-15 | with nothing hidden, every item is visible in gallery order |
| `Navigation.JsRem` | script.js:161-166 | JavaScript's `%` with a positive divisor: its magnitude is the remainder of the magnitudes and it takes the dividend's sign; for a non-negative dividend it agrees with Euclidean `%` |
| `Navigation.NextIndex` | script.js:166 | for any index from -1 up the result is in range; it is the following index, and 0 after the last |
| `Navigation.PrevIndex` | script.js:161 | for any index from -1 up the result is in range; it is the preceding index, and the last one before 0 |
| `Navigation.NextPrevInverse` | script.js:160-168 | for an index in range, previous undoes next and next undoes previous |
| `Navigation.NextTimes` | script.js:165-168 | any number of "next" steps from a valid index stays in range |
| `Navigation.NextTimesValue` | script.js:165-168 | within one round, k steps of "next" advance the index by k, wrapping once past the end |
| `Navigation.NextFullRound` | script.js:165-168 | as many "next" steps as there are visible items return to the starting item |
| `Navigation.NextReachesAll` | script.js:165-168 | every visible item is reached from any other in fewer steps than there are items |
| `Navigation.IndexOf` | script.js:138 | the result is -1 exactly when the value is absent; otherwise it is the first position holding the value |
| `Navigation.IndexOfIncreasing` | script.js:138 | in a list without repeats in increasing order, indexOf finds the one position holding the value |
| `Navigation.SwipeDecision` | script.js:79-90 | strictly more than 50 px leftwards means next; strictly more than 50 px rightwards means previous; anything within 50 px inclusive is ignored |
| `Navigation.SwipeMirror` | script.js:81-88 | reversing a gesture reverses the decision |
| `Navigation.SwipeShift` | script.js:81 | only the distance travelled matters, not where the touch happens |
| `Navigation.KeyCommand` | script.js:45-55 | exactly Escape, ArrowLeft and ArrowRight produce a command |
| `CounterText.Decimal` | script.js:131 | a whole number renders as a canonical numeral, starting with '0' exactly for zero |
| `CounterText.DecimalValue` | script.js:131 | the rendered numeral denotes the number rendered |
| `CounterText.DigitRun` | script.js:131 | the leading run of digits is all digits and is followed by a non-digit or the end |
| `CounterText.CounterRoundTrip` | script.js:129-133 | the counter text reads back to the position and total it was made from |

## Left out

- Querying the page and wiring event listeners (script.js:2-12, 26-41, 60-77, 193-195) are not modelled. Items and buttons are constructor arguments; events are method calls. The touch positions arrive as arguments of `HandleSwipe`.
- `animateGalleryItems` and the animation strings, delays and opacity/scale styles (script.js:93-97, 111, 175-185) are cosmetic. Only the integer stagger rank behind `visibleCount * 0.03` is kept.
- UpdateLightboxImage: the 200 ms `setTimeout` (script.js:178-188) is taken as immediate. The race in which a stale callback overwrites a newer image is therefore not modelled.
- Copying the image source, alt text, title and description into the overlay (script.js:145-148, 179-182) is modelled as "the displayed item is this position".
- The constructor: the starting markup is assumed to hide no item and to leave the lightbox closed, without an image, with the body's overflow style unset. The source's constructor (script.js:2-24) sets none of these itself. The model starts with every stagger rank at -1.
- FilterImages: `data-filter` values stand for every element of the page that carries one, in page order. A category that makes the CSS selector itself invalid (a quote in it) is not modelled.
- NextImage, PreviousImage, KeyDown, HandleSwipe: a step with no visible items divides by zero in the source, and reading the resulting item then throws (script.js:161, 166, 171-172). The model requires at least one visible item for a step instead of modelling the crash.
- HandleSwipe and Navigation.SwipeDecision: touch coordinates are exact reals; the rounding of floating-point subtraction is not modelled.
- UpdateImageCounter: with the delay taken as immediate, every call in the model has an index in range. In the source, the delayed callback reads the index when it fires (script.js:178-187). A filter or a click on a hidden item in between can leave that index stale or at -1, and the counter then reads, for example, "2 / 1" or "0 / n". That interleaving is not modelled.
- Missing `data-category` attributes, which read as `undefined`, are not modelled; every item has a category string.
