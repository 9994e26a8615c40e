# Catalog browser: search, pagination, lookup and download modal

This project models the logic of `main.js`, a single-page catalog browser.
The script loads a list of products and shows them as cards, six per page,
with a "Carregar Mais" (load more) button. A search box filters the list
case-insensitively by name or description, and a "Limpar" (clear) button
resets the search. Each card has a "Ver Mais" button. It looks the product up
by id and opens a modal with its details and a download button.

The script keeps its state in page-wide variables: `allProducts`,
`currentFilteredProducts`, `currentPage` and the DOM elements. The model
gathers them into one immutable `Page.State`. Each event handler becomes a
pure step, `Page.Step`, over that state.

Modules, one per component:

- `Optional`: `Option`, which stands for `undefined`, a missing field and `NaN`.
- `Seqs`: subsequences, with two definitions shown equivalent (recursive, and
  by increasing index embedding).
- `Text`: `toLowerCase` (ASCII folding), `includes` (substring search, proved
  equal to the positional definition) and `replace(/\n/g, '<br>')`.
- `Catalog`: the product record, `Array.prototype.find` by id, and the
  unique-id assumption.
- `DataId`: the card's `data-id` attribute. The id is written by a template
  literal and read back by `parseInt`. The model covers white space, sign, the
  `0x` prefix and the longest digit run. The round trip is proved.
- `Search`: the filter callback of `performSearch`, including JavaScript
  truthiness of `description`, and `Array.prototype.filter`.
- `Paginator`: `ITEMS_PER_PAGE`, `slice` clamping, batches, the visible window
  and the load-more condition.
- `Modal`: `openModal`, with its two `TypeError` failure paths. Also the
  download button's state machine, the close control and backdrop clicks.
- `Page`: the page state, the event handlers, and the reachable-state
  invariant. Also the end-to-end "Ver Mais" lookup, repeated load-more, and
  "last typed text wins" for the debounced search.
- `Scenarios`: concrete runs of typical sessions: a short catalog, two pages,
  a query without matches, a repeated download and a debounced search.

Where the intended behaviour and the code differ, the model follows the code:

- The filter tests `description` for truthiness, not for presence.
  `Search.MatchesWhenPresent` proves both readings give the same match.
- `openModal` calls `description.replace` without a guard. A product without a
  description therefore throws after the four text slots are written. The
  throw comes before the download button is reset and before the modal is
  shown, although opening is meant to always reset the button. The model
  keeps the partial update and reports the `NoDescription` fault.
- A stale or unknown id is not a no-op in the code. `find` returns
  `undefined` and `openModal` throws at once. This is `Modal.Open` with
  `None`: fault `NoProduct`, nothing changed.
- Product ids are expected to be unique but this is never checked. Lookup returns the
  first product with the id. The lemmas say "that very product" only under
  `Catalog.UniqueIds`.

## Model

| member | source | states |
|---|---|---|
| `Text.LowerChar` | main.js:129 | the query and the fields are lowered letter by letter: the result has no upper-case ASCII letter, and other characters are kept |
| `Text.ContainsIff` | main.js:132-133 | `includes` holds exactly when the query occurs at some position of the lowered field |
| `Text.ContainsEmpty` | main.js:129-134 | the empty query is found in every name, so it keeps every product |
| `Text.BreakLines` | main.js:161 | the description shown in the modal has no line feed left; each line feed became a four-character `<br>` |
| `Text.LineFeedBecomesBr` | main.js:161 | a single line feed is shown as the tag `<br>` |
| `Text.BreakLinesAppend` | main.js:161 | the global replace works piece by piece: it distributes over concatenation |
| `Text.BreakLinesKeepsPlainText` | main.js:161 | a description without line feeds is shown unchanged |
| `Catalog.Find` | main.js:65 | `find` returns the first product whose id equals the parsed id, and nothing when the id is `NaN` or matches no product |
| `Catalog.FindUnique` | main.js:65 | with unique ids, looking up a catalog product's id returns that product |
| `DataId.RenderInt` | main.js:81 | the `data-id` text starts with `-` exactly for negative ids, and the rest is a non-empty run of decimal digits whose value is the id's magnitude |
| `DataId.ParseInt` | main.js:64 | `parseInt` gives `NaN` when the trimmed text is empty or starts with neither a digit nor a sign, and the value of the leading decimal digit run when it starts with `1`-`9` |
| `DataId.Decimal` | main.js:81 | the id written into `data-id` is a digit string without leading zeros whose value is the id |
| `DataId.TrimStart` | main.js:64 | `parseInt` skips exactly the leading white space |
| `DataId.DigitRun` | main.js:64 | `parseInt` reads the longest run of digits of its radix and stops at the first other character |
| `DataId.ParseRenderedInt` | main.js:64 | parsing the `data-id` written for id `n` yields `n` |
| `DataId.ParseSkipsSpace` | main.js:64 | leading white space does not change what `parseInt` returns |
| `Search.Matches` | main.js:132-133 | a product matches iff the query occurs at some position of its lowered name, or it has a truthy description in whose lowered text the query occurs |
| `Search.Filter` | main.js:131-134 | a product is kept iff it is in the catalog and matches; it is kept as often as the catalog holds it, so no duplicates are introduced |
| `Search.FilterIsSubseq` | main.js:131-134 | the filtered list is a subsequence of the catalog: catalog order is kept |
| `Search.FilterPositions` | main.js:131-134 | the filtered products sit at strictly increasing catalog positions |
| `Search.FilterEmptyQuery` | main.js:129-134 | an empty query returns the whole catalog, in order |
| `Search.MatchesWhenPresent` | main.js:132-133 | testing the description for truthiness matches the same products as testing it for presence |
| `Seqs.Embedding` | main.js:131-134 | a subsequence has an order-keeping embedding into its source |
| `Seqs.EmbedsIsSubseq` | main.js:131-134 | an order-keeping embedding makes a subsequence, so the two definitions agree |
| `Seqs.SubseqMultiset` | main.js:131-134 | a subsequence holds no element more often than its source |
| `Paginator.Slice` | main.js:73 | `slice(start, end)` returns the elements from `start`, clamped to the list's end, and is empty past it |
| `Paginator.PageCount` | main.js:88-92 | the page count is the least number of pages (at least one) that holds the whole list; an empty list has exactly one page |
| `Paginator.RenderedIsWindow` | main.js:70-86 | appending batches 1 to `p` gives exactly the first `min(6p, length)` products |
| `Paginator.BatchesDisjoint` | main.js:71-73 | batches of different pages take disjoint positions of the list |
| `Paginator.HasMoreIffNextBatch` | main.js:88-92 | load-more shows exactly when the next batch is non-empty |
| `Paginator.ExhaustedStaysEmpty` | main.js:88-92 | once load-more is hidden, every later batch is empty and the window is the whole list |
| `Paginator.HasMoreBeforeLastPage` | main.js:88-92 | load-more shows exactly on the pages before the last, and the last page shows the whole list |
| `Modal.Open` | main.js:156-178 | with a described product, the modal shows it: title, size, version and compatibility are the product's, the description is its text with line feeds turned into `<br>`, and the button is reset to enabled "Download", not downloading, targeting its link; without a product nothing changes; without a description only the four text slots change |
| `Modal.ClickDownload` | main.js:170-175 | only a shown, enabled button with a handler reacts: it becomes disabled "Baixando...", downloading, and the page navigates to the link |
| `Modal.Close` | main.js:181-183 | closing hides the modal and keeps the button as it was |
| `Modal.WindowClick` | main.js:185-189 | a window click closes the modal iff its target is the backdrop |
| `Modal.OpenForgetsPriorState` | main.js:165-168 | opening a described product gives the same modal whatever the earlier state |
| `Modal.OpenThenDownload` | main.js:170-175 | after opening, the download click navigates to that product's `download_link` and shows the busy button |
| `Modal.DownloadIsTerminal` | main.js:170-175 | while downloading, another click does nothing and no click returns to the ready phase; after closing, the button stays disabled |
| `Page.Init` | main.js:9-12 | the page before data arrives (three skeleton cards, page 1, both buttons hidden) satisfies the invariant |
| `Page.RenderProducts` | main.js:95-106 | rendering resets to page 1 and shows the first `min(6, length)` cards with load-more iff length > 6; an empty list shows only the no-results note with load-more hidden; nothing else changes |
| `Page.RenderProductsInv` | main.js:95-106 | rendering any subsequence of the catalog yields a valid page |
| `Page.RenderBatch` | main.js:70-93 | rendering a batch keeps the cards already shown, appends exactly the cards of the current page's batch, shows load-more iff products remain past that page, and changes nothing else |
| `Page.PerformSearch` | main.js:128-136 | the clear button shows iff the text is non-empty; the filtered list is exactly the catalog filtered by the lowered text, in catalog order, shown from page 1; the location is kept |
| `Page.LoadMore` | main.js:108-111 | a hidden load-more does nothing; otherwise the page advances by one, the cards already shown stay as a prefix, and only the page, the list and load-more change |
| `Page.LoadMoreAppendsNextBatch` | main.js:108-111 | load-more appends exactly the next, non-empty batch, and the list is again the window of the new page |
| `Page.LoadMoreAdvances` | main.js:108-111 | from any valid page, after `n` clicks the page is `min(start + n, page count)`, the filtered list is unchanged and the page stays valid |
| `Page.LoadMoreRepeatedly` | main.js:108-111 | after `n` clicks the list is the window of page `min(start + n, page count)`, and load-more shows iff pages remain |
| `Page.ViewMore` | main.js:62-68 | a card click changes only the modal; a click on no card changes nothing |
| `Page.Download` | main.js:170-175 | a download click changes only the modal and the location; nothing happens unless the modal is ready; on a ready button with a handler the window navigates to its link and the button turns busy "Baixando..." |
| `Page.CardIsFiltered` | main.js:81 | card `k` is the card of the `k`-th filtered product, which is in the catalog |
| `Page.ViewMoreLooksUpCardId` | main.js:64-65 | a card click looks up exactly the id the card was rendered with |
| `Page.FindCatalogId` | main.js:65 | looking up the id of a catalog product always finds some product |
| `Page.ViewMoreOpensCard` | main.js:62-68 | "Ver Mais" on card `k` opens the first catalog product with that card's id, and the card's own product when ids are unique |
| `Page.Step` | main.js:62-189 | only data arrival changes the catalog, only typing and clearing change the search text, typing changes nothing else, only a download click moves the location, and modal events leave the list, page and load-more as they were; the close control hides the modal, a backdrop click hides it too, both keeping the button, and any other window click changes nothing |
| `Page.DownloadAfterOpen` | main.js:170-175 | right after a described product was opened, a download click navigates to its `download_link` and shows the busy button |
| `Page.ViewMoreThenDownload` | main.js:62-175 | on a valid page with unique ids, "Ver Mais" on a card of a described product followed by "Download" navigates to that product's `download_link` |
| `Page.StepPreservesInv` | main.js:62-189 | every handler keeps the invariant: filtered ⊑ catalog, list = window (or a placeholder), load-more iff products remain |
| `Page.RunPreservesInv` | main.js:62-189 | any sequence of events from a valid page leads to a valid page |
| `Page.EmptySearchShowsWholeCatalog` | main.js:129-135 | searching for the empty text lists the whole catalog, first six cards shown, load-more iff more than six, clear hidden |
| `Page.ClearShowsWholeCatalog` | main.js:113-116 | clearing empties the text, hides the clear button and lists the whole catalog from page 1 |
| `Page.LoadShowsWholeCatalog` | main.js:122-125 | data arrival lists the whole catalog from page 1, whatever text is in the search bar |
| `Page.TypingSetsLastText` | main.js:150-153 | a burst of input events leaves only the last text in the search bar |
| `Page.LastTypedTextWins` | main.js:138-144 | typing then one debounced search searches for the last text typed |
| `Scenarios.TwoProductsNoQuery` | main.js:128-136 | two products and an empty query: both cards, no load-more, no clear button |
| `Scenarios.EightProductsTwoPages` | main.js:70-111 | eight products: six cards and load-more; after one click all eight and no load-more |
| `Scenarios.NothingMatches` | main.js:100-103 | a query matching nothing: one no-results note, no card, no load-more |
| `Scenarios.ReopenResetsButton` | main.js:165-175 | after a download, reopening any described product re-enables the button with its default label |
| `Scenarios.DebouncedSearchUsesLastText` | main.js:138-152 | inputs "c", "ca", "cam" and one search: the search is for "cam" |

## Left out

- Text.LowerChar: `toLowerCase` is modelled as ASCII folding only; Unicode and locale case mapping are not modelled.
- DataId.ParseRenderedInt: ids are unbounded integers. JavaScript numbers are exact only below 2^53. The template literal switches to exponent notation from 10^21. Ids that are not integers are not modelled.
- The `fetch("content.json")` load is network I/O. Its arrival is the `DataLoaded` event carrying the data. A failed load has no handler, so the event never comes and the skeleton stays.
- The debounce timer is not modelled in time. Typing only changes the search bar text (`Typed`). `SearchFired` is `performSearch` running, from the timer or the search button. Only the order of these events is modelled.
- DOM construction is not modelled: HTML templates, the injected CSS, the `index * 0.1s` animation delay and the placeholder text. A card keeps only its image, name and `data-id`. The skeleton keeps only its three placeholder nodes.
- Navigation by `window.location.href` is recorded as the state's `location`. The page that loads next is not modelled.
- `scrollToProducts` is a browser side effect and is not modelled.
- Uncaught `TypeError`s from `openModal` are not logged. The page keeps whatever partial update happened (`Modal.Fault`).
- A hidden button (load-more, clear) and a hidden or disabled download button cannot be clicked. Those events change nothing. Controls sitting under the open modal are not modelled: a card can be clicked while the modal shows.
- Field types other than strings in `content.json` (for example a numeric `size`) are not modelled.
