# Gallery lightbox, clock and visitor counter

A model of the behaviour in `script.js` of a static photo-gallery page:

- **Lightbox** (module `Lightbox`): a cursor `currentIndex` into the fixed list of
  gallery images, the `src` shown by the lightbox's `<img>`, and whether the lightbox
  carries the `hidden` class. The class `Lightbox.Viewer` has one method per handler
  of the page: open (click on a thumbnail), close, previous, next, the window's
  `keydown` listener and the lightbox's `touchstart`/`touchend` listeners. Index
  arithmetic is modelled with JavaScript's truncating `%` (`JsRem`) and specified by
  the functions `Prev` and `Next`, with lemmas that they are inverse and that `n`
  steps in either direction go round the gallery once.
- **Clock** (module `Clock`): the `hh:mm:ss` text built from
  `String(v).padStart(2, '0')`, with its inverse `ParseClock` and a proof that
  formatting and parsing agree in both directions.
- **Visitor count fallback** (module `Visitor`): the localStorage branch of
  `getVisitorCount`, which stores 1 on a browser with no count and otherwise
  stores and reports the stored count plus one.

Each image is represented by its `src` string; the stored visitor count is an
`Option<int>` (`None` when the key is absent); the clock's hours, minutes and seconds
and the touch coordinates are integer inputs.

## Model

| member | source | states |
|---|---|---|
| `Lightbox.JsRem` | script.js:21 | JavaScript `%` with a positive divisor: the remainder lies strictly between `-b` and `b`, differs from `a` by a multiple of `b`, and has the sign of `a` |
| `Lightbox.Prev` | script.js:21 | `(i - 1 + n) % n` stays in `[0, n)` and is `i - 1`, except that index 0 wraps round to `n - 1` |
| `Lightbox.Next` | script.js:25 | `(i + 1) % n` stays in `[0, n)` and is `i + 1`, except that index `n - 1` wraps round to 0 |
| `Lightbox.PrevNextInverse` | script.js:20-27 | next then previous, and previous then next, both return to the starting index |
| `Lightbox.NextN` | script.js:24-27 | any number of "next" presses keeps the cursor in `[0, n)` |
| `Lightbox.PrevN` | script.js:20-23 | any number of "previous" presses keeps the cursor in `[0, n)` |
| `Lightbox.NextNIsShift` | script.js:25 | `k` presses of "next" move the cursor from `i` to `(i + k) mod n` |
| `Lightbox.PrevNIsShift` | script.js:21 | `k` presses of "previous" move the cursor from `i` to `(i - k) mod n` |
| `Lightbox.FullCycle` | script.js:20-27 | `n` presses of "next", or of "previous", return to the starting image |
| `Lightbox.NextNThenPrevN` | script.js:20-27 | `k` presses of "next" followed by `k` presses of "previous" return to the starting image |
| `Lightbox.Abs` | script.js:51 | `Math.abs`: non-negative and equal to `x` or `-x` |
| `Lightbox.Viewer.constructor` | script.js:9-10 | on page load the cursor is 0 and the image list is fixed; the lightbox starts hidden, as the page markup has it |
| `Lightbox.Viewer.OpenLightbox` | script.js:12-16 | the cursor becomes `index`, the shown src becomes `images[index]` and the lightbox becomes visible; the invariant is kept |
| `Lightbox.Viewer.CloseLightbox` | script.js:17-19 | the lightbox becomes hidden; cursor and shown src are unchanged |
| `Lightbox.Viewer.ShowPrev` | script.js:20-23 | the cursor moves to `Prev` of its old value, the shown src is the image at the new cursor, visibility is unchanged |
| `Lightbox.Viewer.ShowNext` | script.js:24-27 | the cursor moves to `Next` of its old value, the shown src is the image at the new cursor, visibility is unchanged |
| `Lightbox.Viewer.KeyDown` | script.js:36-42 | while hidden every key leaves the state unchanged; while visible Escape hides, ArrowLeft acts as previous, ArrowRight as next, and any other key changes nothing |
| `Lightbox.Viewer.TouchStart` | script.js:45-48 | records where the touch began |
| `Lightbox.Viewer.TouchEnd` | script.js:49-54 | a drag of at most 50 either way changes nothing; more than 50 to the right acts as previous, more than 50 to the left as next |
| `Clock.Digit` | script.js:86 | the character of a decimal digit, whose code lies `d` above '0' |
| `Clock.DecimalString` | script.js:86 | `String(v)`: decimal digits denoting `v`, with no leading zero, one digit exactly when `v < 10`, at most two when `v < 100` |
| `Clock.PadStart` | script.js:86 | `padStart(width, fill)`: the result is `width` long (or `s` if already longer), ends with `s`, and is `fill` before it |
| `Clock.LeadingZero` | script.js:86 | a leading '0' does not change the value a digit string denotes |
| `Clock.Pad2` | script.js:86-88 | `String(v).padStart(2, '0')` denotes `v`, starts with '0' exactly when `v < 10`, and for `v < 100` is the tens digit followed by the units digit |
| `Clock.FormatClock` | script.js:102-106 | for a time of day the text is 8 characters with ':' at positions 2 and 5, and reading it back gives the same hours, minutes and seconds |
| `Clock.FormatParseClock` | script.js:102-106 | every text that reads back as a time of day is the text formatted for that time, so format and parse are mutually inverse |
| `Visitor.NextCount` | script.js:68-76 | with no stored count the result is 1; otherwise it exceeds the stored count |
| `Visitor.StoredAfterFromNothing` | script.js:68-76 | on a browser with no count, the `k`-th fallback visit stores `k` |
| `Visitor.StoredAfterFromCount` | script.js:68-76 | after a stored count `c`, `k` more fallback visits store `c + k` |
| `Visitor.LocalStorage.constructor` | script.js:68 | the storage starts with whatever count the browser already holds |
| `Visitor.LocalStorage.FallbackVisitorCount` | script.js:68-76 | reports 1 when no count was stored and the stored count plus one otherwise, and afterwards the stored count equals the reported one |

## Left out

- The DOM: element lookups and the wiring of click, key and touch listeners (script.js:2-7, script.js:30-33, script.js:81-82). Handlers are methods of `Lightbox.Viewer` instead.
- The counter-service request and its `data.value || 0` handling (script.js:60-65): network I/O. Only the fallback branch is modelled.
- `updateInfo`, `setInterval` and `new Date()` (script.js:84-107): timers, wall-clock time and the async re-fetch guard. The time is an input to `Clock.FormatClock`, and the `visitors` text is not modelled.
- The grid/list view toggle and its animated transition: that code is not in script.js and is not part of this model.
- Lightbox.Viewer.ShowPrev: requires at least one image, because with none JavaScript divides by zero, the cursor becomes NaN and reading `images[NaN].src` throws a TypeError; the same holds for `ShowNext`, and for `TouchEnd` only on a drag longer than 50 (a shorter drag on an empty gallery is a no-op and is modelled).
- Lightbox.Viewer.OpenLightbox: requires a valid index, as the click handlers pass (script.js:30); an out-of-range index would throw in JavaScript after setting the cursor.
- Lightbox.Viewer.constructor: the `src` the lightbox `<img>` holds before the first open comes from the page markup and is a parameter; that the lightbox starts hidden is also an assumption about the markup (script.js sets no `hidden` class at load), and `Valid()` relies on it, since a lightbox visible at load would show that initial `src` rather than the first image.
- Clock.FormatClock: requires hours below 24 and minutes and seconds below 60, the ranges `Date` reports; `Clock.Pad2` itself is total.
- Touch `pageX` is a floating-point number in the browser; it is an integer here.
- Visitor.NextCount: counts are unbounded integers, not JavaScript doubles, so the loss of precision from 2^53 on (where `parseInt(count) + 1` gives back the same number) and the exponent notation `setItem` writes from 1e21 on (which `parseInt` reads back as 1) are not modelled; the same holds for `Visitor.StoredAfterFromCount`. The stored value is an integer, not the string localStorage keeps; `parseInt` of arbitrary text (NaN) and an empty stored string, which JavaScript also treats as absent, are not modelled. The code itself only ever stores whole numbers.
