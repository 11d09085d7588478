# Photo gallery view: a Dafny model

This project models the client-side state machine of the CollegeTips photo
gallery page (`src/components/PhotoGallery.tsx`). It covers:

- the static catalog of nine image records and the category list;
- the `filteredImages` computation: category filter plus case-insensitive
  search over description, category and alt text;
- the mobile carousel: open on tap, `nextImage`/`prevImage` with wrap-around
  over the filtered list, the keydown handler, and close;
- the load/error/retry bookkeeping: the loaded-id set, the error message that
  replaces the page, and the "Try Again" reset of every record's retry count;
- the file name a download is saved under, and the link a share passes on.

Modules:

- `Wrappers` (wrappers.dfy): `Option`, standing for `T | undefined` and `T | null`.
- `Text` (text.dfy): ASCII `toLowerCase`, `includes`, the `\s` class, and decimal rendering of ids.
- `Catalog` (catalog.dfy): `GalleryImage`, `Categories` and `GalleryImages`.
- `Filter` (filter.dfy): `FilterImages` and the lemmas about it.
- `Carousel` (carousel.dfy): the carousel state and its transitions, as functions.
- `LoadStatus` (load_status.dfy): record lookup, the error messages, the retry reset and retry counting.
- `Download` (download.dfy): the download file name and the share link.
- `Gallery` (gallery.dfy): the class `PhotoGallery`. It has one field per `useState` hook of the view and one method per handler.

Every `PhotoGallery` method names the fields it may change in its
`modifies` clause, so all other fields are unchanged. Its `ensures` gives the
new value of each changed field, using the functions of the other modules.

Details of the code the model follows:

- The third real category is `"Work Hard, Play Hard"`, with a comma, as in
  `PhotoGallery.tsx:104`.
- `handleImageError` does not increment the stored `retryCount`. It computes
  `retryCount + 1`, compares it with 3 and throws it away. So every error shows
  the transient message, and the terminal message is unreachable (see
  "## Findings").
- `retryCount` is an optional field. The catalog leaves it unset and "Try
  Again" writes 0. `(image?.retryCount || 0)` therefore reads both as 0.
- `if (error)` uses JavaScript truthiness, so an empty message would not show
  the error page. `ShowsErrorView` says so, and every message the code sets
  is non-empty.

## Model

| member | source | states |
|---|---|---|
| Text.ToLower | src/components/PhotoGallery.tsx:308-310 | `toLowerCase` keeps the length and lowers each character, ASCII letters only |
| Text.Contains | src/components/PhotoGallery.tsx:308-310 | `includes` is true iff the query occurs as a contiguous slice at some position |
| Text.NatToString | src/components/PhotoGallery.tsx:354 | `${id}` gives a non-empty digit string with no leading zero whose decimal value is the id |
| Catalog.CatalogIds | src/components/PhotoGallery.tsx:20-102 | the catalog has nine records with ids 1 to 9 in order, so the ids are unique |
| Catalog.CatalogWellFormed | src/components/PhotoGallery.tsx:19-104 | every record's category is a real (non-"All") category, every record has a `sourceUrl`, and none has a `retryCount` |
| Filter.FilterImages | src/components/PhotoGallery.tsx:305-312 | the result is no longer than the input, and every element is an input record that matches on category and search |
| Filter.FilterIsSubsequence | src/components/PhotoGallery.tsx:305 | the filtered list is a subsequence of the records: nothing is added and the order is kept |
| Filter.FilterMembership | src/components/PhotoGallery.tsx:305-312 | a record is shown iff it is among the records and matches on category and on search (both directions) |
| Filter.FilterAppend | src/components/PhotoGallery.tsx:305 | filtering a concatenation is the concatenation of the filtered parts |
| Filter.FilterAllEmptyIsIdentity | src/components/PhotoGallery.tsx:306-307 | with "All" selected and an empty query every record is shown, in order |
| Filter.FilterIdempotent | src/components/PhotoGallery.tsx:305-312 | filtering the filtered list again with the same settings changes nothing |
| Filter.FilterCaseInsensitive | src/components/PhotoGallery.tsx:307-310 | two queries with the same lower-case form select the same records |
| Filter.FilterIgnoresQueryCase | src/components/PhotoGallery.tsx:307-310 | a query and its lower-cased form select the same records |
| Filter.AnyFieldSuffices | src/components/PhotoGallery.tsx:307-310 | a record of the selected category is shown when the query matches any one of description, category or alt |
| Filter.NoFieldHides | src/components/PhotoGallery.tsx:307-311 | a non-empty query hides a record that none of the three fields matches, whatever the category |
| Filter.ClearingWidens | src/components/PhotoGallery.tsx:307-311 | the list for the empty query is at least as long as the list for any query of the same category |
| Filter.SearchNarrowsCategory | src/components/PhotoGallery.tsx:311 | a query only narrows: the result is a subsequence of the category's records |
| Filter.UpperCaseQueryScenario | src/components/PhotoGallery.tsx:307-310 | the query "TEAM" selects exactly what "team" selects |
| Filter.TeamVibesScenario | src/components/PhotoGallery.tsx:20-102 | selecting "Team Vibes" on the catalog with an empty query shows records 1, 2 and 7, in that order |
| Carousel.Next | src/components/PhotoGallery.tsx:315-320 | for a non-empty list the new index is in range and one past the old one, wrapping from the last to 0; `isOpen` is kept |
| Carousel.Prev | src/components/PhotoGallery.tsx:322-327 | for a non-empty list the new index is in range and one before the old one, wrapping from 0 to the last; `isOpen` is kept |
| Carousel.Tap | src/components/PhotoGallery.tsx:541 | a tap on a narrow screen opens the carousel at the tapped filtered position; otherwise nothing changes |
| Carousel.Close | src/components/PhotoGallery.tsx:655 | closing clears `isOpen` and keeps `currentIndex` |
| Carousel.KeyPress | src/components/PhotoGallery.tsx:331-336 | while the carousel is closed no key changes it; only Escape clears `isOpen`; an in-range index stays in range |
| Carousel.KeyPressOpen | src/components/PhotoGallery.tsx:331-336 | while it is open, ArrowRight is `next`, ArrowLeft is `prev`, Escape is close, and any other key does nothing; only the arrows need a non-empty list |
| Carousel.PrevNextInverse | src/components/PhotoGallery.tsx:315-327 | from an in-range index, `prev` undoes `next` and `next` undoes `prev` |
| Carousel.AdvanceWraps | src/components/PhotoGallery.tsx:315-320 | up to n forward steps from index i land on i + k, wrapped once past the end |
| Carousel.FullCycle | src/components/PhotoGallery.tsx:315-320 | n forward steps over a list of length n return to the starting state |
| LoadStatus.FindImage | src/components/PhotoGallery.tsx:350 | `images.find` yields a record iff some record has the id, and that record is in the list with that id |
| LoadStatus.FindImageAt | src/components/PhotoGallery.tsx:350 | the record found is the first one with the id |
| LoadStatus.NextRetryCount | src/components/PhotoGallery.tsx:351 | the count compared with the limit is the stored count (0 when unset or the record is missing) plus one |
| LoadStatus.TransientMessage | src/components/PhotoGallery.tsx:354 | the retrying message starts with "Loading image " and names the id right after it |
| LoadStatus.TerminalMessage | src/components/PhotoGallery.tsx:356 | the final message starts with "Unable to load image ", names the id right after it, and ends with the path to check |
| LoadStatus.MessagesDistinct | src/components/PhotoGallery.tsx:354-356 | the transient, terminal and download-failure messages are non-empty and pairwise different |
| LoadStatus.TransientNamesId | src/components/PhotoGallery.tsx:354 | the transient message determines the id it names |
| LoadStatus.ImageErrorMessage | src/components/PhotoGallery.tsx:348-358 | transient message when the stored count plus one is at most 3, otherwise the terminal message with the found record's `src` |
| LoadStatus.ErrorIsTransient | src/components/PhotoGallery.tsx:350-357 | when no record stores a count above 0, every image error gets the transient message |
| LoadStatus.ResetRetryCounts | src/components/PhotoGallery.tsx:363-367 | the reset keeps length, order and every field except `retryCount`, which becomes 0 in every record |
| LoadStatus.ResetIdempotent | src/components/PhotoGallery.tsx:363-367 | resetting twice is resetting once |
| LoadStatus.StoreRetryCountAt | src/components/PhotoGallery.tsx:351 | corrected write-back (not in the code): storing a count sets it on exactly the records with that id and leaves every other field and record unchanged |
| LoadStatus.FindAfterStore | src/components/PhotoGallery.tsx:350-351 | corrected write-back (not in the code): after a count is stored, the same record is found for the id, and it carries the new count |
| LoadStatus.CountErrorStep | src/components/PhotoGallery.tsx:351 | corrected write-back (not in the code): one counted error raises the found record's stored count by one |
| LoadStatus.CountedErrorsAccumulate | src/components/PhotoGallery.tsx:351 | corrected write-back (not in the code): after k counted errors the found record stores k and is otherwise unchanged |
| LoadStatus.CountedErrorsEscalate | src/components/PhotoGallery.tsx:353-357 | corrected write-back (not in the code): with the count stored, errors 1 to 3 give the transient message, and the 4th and later give the terminal message with the record's `src` |
| Download.Hyphenate | src/components/PhotoGallery.tsx:379 | `replace(/\s+/g, '-')` leaves no whitespace |
| Download.DownloadFilename | src/components/PhotoGallery.tsx:379 | the file name ends in ".jpg" and contains no whitespace |
| Download.HyphenateIsReplaceRuns | src/components/PhotoGallery.tsx:379 | replacing maximal runs equals the character-by-character reading: the first whitespace character of a run becomes '-', the rest vanish |
| Download.HyphenateNoSpace | src/components/PhotoGallery.tsx:379 | a text without whitespace is left as it is |
| Download.HyphenateFixpoint | src/components/PhotoGallery.tsx:379 | hyphenating is idempotent, and a text is its own hyphenation iff it has no whitespace |
| Download.RunCollapses | src/components/PhotoGallery.tsx:379 | two adjacent whitespace characters give the same hyphenated stem as one, so a run never yields two hyphens |
| Download.FilenameCollapses | src/components/PhotoGallery.tsx:379 | two adjacent whitespace characters in the alt text give the same download file name as one |
| Download.ShareUrl | src/components/PhotoGallery.tsx:397 | the record's `sourceUrl`, or else the page address: a non-empty `sourceUrl` is shared; a missing or empty one falls back to the page address; the link is empty only if the page address is |
| Download.CatalogSharesOwnLink | src/components/PhotoGallery.tsx:404 | every catalog record shares its own site or Instagram link, never the page address |
| Gallery.PhotoGallery.constructor | src/components/PhotoGallery.tsx:286-292 | mounts with "All", an empty query, nothing loaded, no error, the catalog, and the carousel closed at 0 |
| Gallery.PhotoGallery.HandleImageLoad | src/components/PhotoGallery.tsx:342-346 | the id joins the loaded set and nothing leaves it; the error is cleared; `images` and all other fields are unchanged |
| Gallery.PhotoGallery.ShowsErrorView | src/components/PhotoGallery.tsx:410 | `if (error)`: the error view replaces the gallery exactly when the message is present and non-empty, as JavaScript truthiness reads a string |
| Gallery.PhotoGallery.HandleImageError | src/components/PhotoGallery.tsx:348-358 | sets the error to the message for the id; records, loaded set and all other fields are unchanged; the message is transient when no count is stored; for a catalog id it names that record's `src`, never "undefined" |
| Gallery.PhotoGallery.HandleImageErrorCounted | src/components/PhotoGallery.tsx:348-358 | corrected handler: the same message, and the incremented count is stored in the record; the records stay the catalog's |
| Gallery.PhotoGallery.HandleRetry | src/components/PhotoGallery.tsx:360-369 | clears the error and the loaded set and resets every count to 0; records stay in place with their other fields; the filtered positions and an in-range carousel are preserved |
| Gallery.PhotoGallery.HandleDownloadFailure | src/components/PhotoGallery.tsx:384-387 | a failed download sets the download-failure message and shows the error page |
| Gallery.PhotoGallery.SelectCategory | src/components/PhotoGallery.tsx:509-512 | selects the category and closes the filter drawer |
| Gallery.PhotoGallery.KeepCarouselOnScreen | src/components/PhotoGallery.tsx:609-631 | corrected (not in the code), the guard the overlay's unchecked index read lacks: closes the carousel when its index is past the filtered list, otherwise leaves it; afterwards the overlay's index is in range and an open carousel has a picture to step over |
| Gallery.PhotoGallery.SelectCategoryGuarded | src/components/PhotoGallery.tsx:509-512 | corrected category button: selects and closes the drawer as written, and keeps the carousel on screen |
| Gallery.PhotoGallery.SetQueryGuarded | src/components/PhotoGallery.tsx:461 | corrected search box: sets the query as written, and keeps the carousel on screen |
| Gallery.PhotoGallery.ToggleFilter | src/components/PhotoGallery.tsx:486 | the mobile filter button flips the drawer |
| Gallery.PhotoGallery.SetQuery | src/components/PhotoGallery.tsx:461 | typing sets the query, and the shown records are refiltered with it |
| Gallery.PhotoGallery.ClearSearch | src/components/PhotoGallery.tsx:471 | the clear button empties the query, showing the category's records again; the list can only grow, so an in-range carousel stays in range |
| Gallery.PhotoGallery.TapImage | src/components/PhotoGallery.tsx:541 | a tap on a narrow screen opens the carousel at the tapped filtered position; otherwise nothing changes |
| Gallery.PhotoGallery.NextImage | src/components/PhotoGallery.tsx:315-320 | the carousel becomes `Next` of the old one over the current filtered length |
| Gallery.PhotoGallery.PrevImage | src/components/PhotoGallery.tsx:322-327 | the carousel becomes `Prev` of the old one over the current filtered length |
| Gallery.PhotoGallery.HandleKeyPress | src/components/PhotoGallery.tsx:331-336 | the carousel becomes `KeyPress` of the old one: no change while closed, and in-range positions stay in range |
| Gallery.PhotoGallery.CloseCarousel | src/components/PhotoGallery.tsx:655 | closes the carousel and keeps the index |
| Gallery.ValidFindsCatalogRecord | src/components/PhotoGallery.tsx:350-356 | in records that are the catalog's up to their counts, id k (1 to 9) is found at position k-1 with the catalog's `src`, so `image?.src` is never undefined for them |
| Gallery.FilterCommutesWithReset | src/components/PhotoGallery.tsx:305-312 | filtering ignores retry counts, so a retry never changes which positions are shown |
| Gallery.MountedCatalog | src/components/PhotoGallery.tsx:290 | the freshly mounted page shows the whole catalog, and image 1 is its first record |
| Gallery.FourErrorsAsWritten | src/components/PhotoGallery.tsx:348-358 | on a fresh page, four errors on image 1 still show the transient message |
| Gallery.FourErrorsCounted | src/components/PhotoGallery.tsx:348-358 | with the count stored, the fourth error on an uncounted image shows its terminal message |
| Gallery.StrandedCarouselAsWritten | src/components/PhotoGallery.tsx:509-512 | opening the carousel on the sixth picture and then selecting "Team Vibes" leaves it open past the three-record list |
| Gallery.StrandedCarouselGuarded | src/components/PhotoGallery.tsx:509-512 | the same steps with the guarded button close the carousel, leaving it on screen |

## Left out

- Rendering, Tailwind classes and animation are not modelled: `FloatingShape`, `AnimatedBackground`, `AnimatedTitle`, `CategoryButton`, and the scroll progress bar. They are cosmetic and use `Math.random` and spring physics.
- The I/O of `handleDownload` and `handleShare` is not modelled: `fetch`, `Blob`, object URLs, the anchor click, `navigator.share`, `navigator.clipboard` and `alert`. These are browser APIs. Only the file name, the share link and the failure message are modelled. The page's address is a parameter of `ShareUrl`.
- The choice between `navigator.share` and the clipboard is not modelled. It depends on the browser, and both paths use the same link.
- `console.log` and `console.error` calls are output only.
- Window resizing and the 768-pixel breakpoint are not modelled; `isMobile` is a parameter of `TapImage`. The `addEventListener`/`removeEventListener` wiring is not modelled either; `HandleKeyPress` is the listener's body.
- React's batching and closures are not modelled. Each handler is one atomic transition on the current state. A listener holding a stale `carousel.isOpen` from an older render is not modelled.
- The `react-photo-view` lightbox that `PhotoView` opens on a click is not modelled. Its source is not part of this model.
- The `isActive` part of the search state is not modelled. It is only ever set to false and is never read.
- Lower-casing covers ASCII letters only. The `\s` class covers the six ASCII whitespace characters only; JavaScript also counts no-break space, line separators and other Unicode spaces.
- Ids are natural numbers, not JavaScript floating-point numbers.
- The handlers do not enforce unique ids. `FindImage` takes the first record with the id, as `find` does.
- The catalog scenario for the query "success" is not proved. Evaluating the substring search on the literal catalog texts is beyond the verifier's resource limit here. `Filter.SearchNarrowsCategory` states the general narrowing.
- Gallery.PhotoGallery.SelectCategory: does not promise that the open carousel's index stays in range, and neither does `SetQuery`. The code reads `filteredImages[currentIndex]` without checking the index, and a category change or a new query can shorten the list while the carousel is open. `ClearSearch` only lengthens the list and does keep an in-range carousel in range. The overlay is drawn only while `isMobile && carousel.isOpen`, and a resize changes `isMobile` without closing the carousel, so widening the window makes the filter controls usable with the carousel still open (see "## Findings").
- Gallery.PhotoGallery.HandleKeyPress: requires a non-empty filtered list for an arrow key while the carousel is open. In the code, an arrow pressed while widened with a query that matches nothing computes `% 0` and stores a NaN index; the model does not represent NaN. A carousel kept on screen by `KeepCarouselOnScreen` always meets this requirement.
- `scripts/download-images.js` and `vite.config.ts` are not part of this model. One is a fetch-and-write script; the other is build configuration.

## Findings

| source | as written | input that shows it | evidently intended | confidence | as-written member | corrected member |
|---|---|---|---|---|---|---|
| src/components/PhotoGallery.tsx:348-358 | the error handler computes `retryCount + 1` and compares it with 3, but never stores it, so every error sees a count of 1 and the terminal message can never appear | four successive calls of the error handler for image 1 on the freshly mounted state: the fourth still sets "Loading image 1... Please wait while we retry." | the incremented count is written back to the record (as the render key `${image.id}-${image.retryCount}` also expects), so the fourth call sets "Unable to load image 1. Please check if the image exists at /assets/images/collegetips-team.jpg". On the page this also needs the grid to stay mounted: any message replaces the grid with the error view, so the image cannot fail again until "Try Again", and `handleRetry` first sets every count to 0 | medium; not executed | Gallery.FourErrorsAsWritten | Gallery.FourErrorsCounted |
| src/components/PhotoGallery.tsx:509-512, 609-631 | a category change (or a search) keeps the carousel open at its old index, and the overlay then reads `filteredImages[currentIndex]` past the end | on a narrow window tap the sixth picture under "All"; widen the window past 768 pixels, which hides the overlay but keeps `isOpen`; select "Team Vibes" (three records); narrow the window again: the overlay reads `filteredImages[5].src` of undefined and throws | a filter change that leaves the index past the new list closes the carousel (resetting the index would serve as well) | medium; not executed | Gallery.StrandedCarouselAsWritten | Gallery.PhotoGallery.SelectCategoryGuarded |

The class keeps both handlers side by side. `HandleImageError` is the code as
written; `HandleImageErrorCounted` is the corrected handler, and
`LoadStatus.CountedErrorsEscalate` proves the escalation for it.
`HandleImageErrorCounted` and `HandleRetry` both preserve `Valid`, so
retry-then-error cycles stay within the catalog. Likewise `SelectCategory` and
`SetQuery` are the code as written. `KeepCarouselOnScreen` is the corrected
guard, which the code does not have, and `SelectCategoryGuarded` and
`SetQueryGuarded` are the corrected filter changes built on it; they
preserve `CarouselInRange`. The write-back lemmas `StoreRetryCountAt`,
`FindAfterStore`, `CountErrorStep`, `CountedErrorsAccumulate` and
`CountedErrorsEscalate` are about the corrected error handler only.
