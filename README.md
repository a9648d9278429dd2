# VOD gallery: a Dafny model

This project models the logic of the VOD gallery page of the xQc frontend
(`src/vods/vods.js`). That file is UI glue with a thin logical core, and the
model is correspondingly small. The page is built from three parts:

- **Gallery** (`Vods`). Four state cells: the records to display, a loading flag, the
  current page and the page count. Three events change them: the initial load
  completes, a page-change click, and a page load completes. Page size is 50.
  Module `Vods` gives the cells as a class `Gallery`, with one method per event.
  It also gives the same transitions as a pure `Step` function over a `GalleryState`
  value and a `Run` function that applies a sequence of events. Every method
  ensures that its new state is `Step` of its old state. The lemmas about runs
  are stated over `Run`.
- **Card** (`Vod`). It has a thumbnail and a title. Both link to
  `/youtube/{id}` when the record has YouTube entries, else to `/manual/{id}`.
  When the thumbnail URL is missing or empty, the card uses a default image. This is module `VodCard`, and
  the record and its links are in module `Records`.
- **Watch menu** (`WatchMenu`). Its entries are Youtube, CDN and Manual, in that fixed order.
  The CDN entry is offered only for seven days after creation. The menu is open while it has an anchor element.
  This is module `WatchMenu`.

Network responses are explicit events that carry the decoded body
(`Response(data, total)`), or `None` for any failure. The clock reading
`now` and the creation time `createdAt` are integers in milliseconds.

Three consequences of the code as written are worth stating:

- A page-change click sets `loading` to true, and nothing except the
  initial load ever clears it. After any real page change, the page therefore
  shows the loading placeholder instead of the gallery (`LoadingAfterPageChange`).
- The page count is `floor(total / 50)`. Unless the total is at most 50 or a
  multiple of 50, the last, partial page is never offered
  (`AllRecordsOffered`).
- Within the gallery, the page selector is hidden only while the page count
  is unset. It is disabled, not hidden, when the count is at most 1. While
  loading, the whole gallery, selector included, is replaced by the loading
  placeholder.

## Model

| member | source | states |
|---|---|---|
| Records.HrefInjective | src/vods/vods.js:192-203 | `/youtube/{id}`, `/cdn/{id}` and `/manual/{id}` links are equal only for the same destination and the same id |
| Records.Href | src/vods/vods.js:192-201 | the link is the destination's route prefix (`/youtube/`, `/cdn/`, `/manual/`) followed by exactly the record id |
| WatchMenu.CdnOffered | src/vods/vods.js:196 | the CDN entry is offered until, and not at, the instant `createdAt + 604800000` ms (seven days after creation) |
| WatchMenu.Menu.IsOpen | src/vods/vods.js:190 | the menu is open iff it has an anchor element |
| VodCard.PrimaryDestination | src/vods/vods.js:118 | the primary destination is YouTube iff the record has YouTube entries, otherwise manual, and never the CDN |
| VodCard.Thumbnail | src/vods/vods.js:119 | the default image is used iff the URL is absent or the empty string; otherwise the record's own URL |
| VodCard.CardOf | src/vods/vods.js:118-150 | thumbnail link and title link are identical; it is `/youtube/{id}` iff the YouTube list is non-empty and `/manual/{id}` iff it is empty; the image is the record's thumbnail choice; title, date and duration captions are the record's own |
| WatchMenu.CdnWindowBoundary | src/vods/vods.js:196 | the window is 604800000 ms; a 6-day-old record offers CDN, a 7- or 8-day-old one does not |
| WatchMenu.Entries | src/vods/vods.js:191-203 | 1 to 3 entries, strictly ordered Youtube < CDN < Manual; Youtube present iff YouTube list non-empty, CDN iff `now - createdAt < 7 days`, Manual always and last |
| WatchMenu.Items | src/vods/vods.js:190-203 | one item per entry, captioned Youtube/CDN/Manual and linking to that destination for the record's id |
| WatchMenu.ItemsDistinct | src/vods/vods.js:191-203 | no two items share a link; the last item is Manual to `/manual/{id}`; a `/youtube/{id}` item exists iff the record has YouTube entries |
| WatchMenu.Menu.constructor | src/vods/vods.js:172 | the menu starts closed (no anchor) |
| WatchMenu.Menu.HandleClick | src/vods/vods.js:178-180 | clicking anchors the menu to the clicked element, so it is open |
| WatchMenu.Menu.HandleClose | src/vods/vods.js:174-176 | closing clears the anchor, so it is closed |
| Vods.Skip | src/vods/vods.js:55 | the offset is a multiple of the page size, and it is non-negative iff the page is at least 1 |
| Vods.PageCount | src/vods/vods.js:39 | the page count is the number of whole pages: `n*50 <= total < (n+1)*50` |
| Vods.SkipStartsPage | src/vods/vods.js:55 | the offset of page p is where page p starts: records skip..skip+49 are on page p, and record skip-1 is on page p-1 |
| Vods.PageCountExamples | src/vods/vods.js:39 | totals 237, 49 and 100 give 4, 0 and 2 pages |
| Vods.RequestedSkip | src/vods/vods.js:51-55 | no request iff the clicked page is the current one; otherwise a request at offset `(value-1)*50` |
| Vods.Step | src/vods/vods.js:32-73 | only a successful initial load clears loading or changes the page count; records change only on a replacing load, and then become its data; a page load never touches loading, page or page count |
| Vods.ItemsAreLatestReplacement | src/vods/vods.js:32-69 | after any event sequence the record list held in the `vods` cell is that of the latest successful initial load or non-empty page load, or the earlier one if there was none (stale-on-error; on screen only while not loading, see `LoadingAfterPageChange`) |
| Vods.LoadingClearedOnlyByInitialLoad | src/vods/vods.js:40-73 | a run that starts loading and ends not loading contains a successful initial load |
| Vods.TotalPagesFromInitialLoad | src/vods/vods.js:39-69 | after any run the page count is unchanged or equals the rounded-down count of some successful initial load's total |
| Vods.RunKeepsConsistent | src/vods/vods.js:17-73 | every run keeps these invariants: a page count is set only together with a page, and "not loading" implies both are set |
| Vods.Pagination | src/vods/vods.js:96 | the selector is hidden iff the page count is null; otherwise it shows that count and the current page, and is disabled iff the count is at most 1 |
| Vods.Render | src/vods/vods.js:76-96 | the loading placeholder is shown iff loading; otherwise one card per record, in order, and the selector |
| Vods.InitialLoadView | src/vods/vods.js:33-96 | after a successful initial load: the gallery shows one card per received record, in order, and page 1; the selector is enabled iff `total >= 100` |
| Vods.GalleryAlwaysHasPagination | src/vods/vods.js:76-96 | after any run from mount, whenever the gallery is shown, the selector is shown with a current page |
| Vods.LoadingAfterPageChange | src/vods/vods.js:52-76 | after a click on a different page, until another initial load succeeds, the page renders only the loading placeholder |
| Vods.AllRecordsOffered | src/vods/vods.js:39-55 | every record is on an offered page (page 1 or a page the selector offers) iff `total <= 50` or `total % 50 == 0` |
| Vods.Gallery.constructor | src/vods/vods.js:17-20 | the cells start as no records, loading, page null and page count null |
| Vods.Gallery.InitialLoadCompleted | src/vods/vods.js:32-44 | success sets page 1, the received records, `floor(total/50)` and not loading; failure changes nothing |
| Vods.Gallery.HandlePageChange | src/vods/vods.js:50-55 | clicking the current page changes nothing and issues no request; any other page sets loading and the page at once and requests offset `(value-1)*50`; the records and the page count are unchanged |
| Vods.Gallery.PageLoadCompleted | src/vods/vods.js:62-73 | a non-empty page replaces the records with exactly its data; an empty page or a failure leaves them unchanged; loading, page and page count are never changed |

## Left out

- The HTTP requests, the `.json()` decoding and the remote API (src/vods/vods.js:25-31, 55-61). These are I/O. Each response is an event argument, and any failure is `None`.
- The case of a body whose `data` field is missing is not modelled. In that case `setPage(1)` is already queued before `data.map` throws, and it is treated as a plain failure.
- The order in which asynchronous responses arrive. The code does no sequencing or cancellation; events are applied in the order given.
- JSX and styling: MUI layout, `SimpleBar`, the tooltip styling, `AdSense` slots, `ErrorBoundary`, `Footer`, `Loading` and the list keys. A card is reduced to its links, image, captions and title.
- `document.title` and `console.error`. These are side-effect-only output.
- `Date.now()` and the parsing of `createdAt`. Both are integer-millisecond parameters.
- `Vods.PageCount`: `Math.floor(total / 50)` over JavaScript numbers is modelled as division of natural numbers. That is the same for the non-negative integer totals the API returns, but not for a missing or fractional `total`.
- The record's `youtube` array is reduced to its length, which is the only thing the code reads from it.
- React's render scheduling and its batching of state updates. Each event updates the cells as one step.
