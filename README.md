# VRI book catalogue: a Dafny model

This project models the logic of the VRI book catalogue, a React single-page app that
lists the publications of a book shop and gives each book a permanent detail page at
`/bookDetail/<SKU>`. It covers these parts of the app:

- **The book data service** (`src/services/bookApi.js`):
  - a session cache of the whole catalogue that lives for 30 minutes;
  - lookup and validation of a SKU;
  - search by title, author, language or everything;
  - the lists of languages, authors and SKUs.
- **The home page listing** (`src/component/BookCards.jsx`, `src/Home.jsx`):
  - the language drop-down;
  - the filter on images, title and language;
  - the optional title sort;
  - pages of 50 cards;
  - purchase links looked up by ISBN, also after ISBN normalisation.
- **The pagination bar** (`src/component/Pagination.jsx`): the Prev/Next handlers and the
  row of page numbers with ellipses.
- **Book links** (`src/utils/bookLinks.js`, `src/hooks/useBookNavigation.js`):
  - the detail route and the production URL;
  - the seven social share links;
  - URLs with query parameters, with and without tracking parameters;
  - `goToBook`, which validates a SKU before it navigates.
- **The detail page's loading effect** (`src/component/BookDetails.jsx`): each change of
  SKU starts a load, and the cleanup of the previous run marks that run as unmounted.

## Modules

The modules follow the source files. A few shared modules model the JavaScript
semantics the app relies on.

| module | what it models |
|---|---|
| `Wrappers` | `Option` |
| `JsStrings` | several JavaScript string rules, listed below |
| `Sequences` | filtering, subsequences, de-duplication that keeps the first occurrence |
| `DefaultSort` | the default `Array.prototype.sort()` on strings, as an insertion sort proved sorted and a permutation |
| `UriEncoding` | `encodeURIComponent` and query strings, listed below |
| `Books` | the book record, the outcome of the catalogue request, and `find` by SKU |
| `BookApi` | `bookApi.js`; the cache is the class `BookStore`, whose methods change its two session entries |
| `BookCards` | `BookCards.jsx`; the sort is an in-place insertion sort on an `array` |
| `Pagination` | `Pagination.jsx`; `renderPageNumbers` is a method with loops, proved against the function `PageRow` |
| `BookLinks` | `bookLinks.js` |
| `BookNavigation` | `useBookNavigation.js` |
| `BookDetails` | `BookDetails.jsx`; the effect runs and the two state hooks are the class `BookDetailsView` |
| `Home` | `Home.jsx` |

`JsStrings` covers:
- fields that may be `undefined`, `null` or a string;
- truthiness and `String(x)`;
- ASCII `toLowerCase`;
- `includes`;
- the `\s` class;
- UTF-16 code-unit order.

`UriEncoding` covers:
- `encodeURIComponent`, exactly: the unreserved set, then UTF-8 bytes as upper-case `%XX`;
- `split`/`join`;
- query strings built from key/value pairs.

Inputs the code reads from the outside world are parameters of the operations:
- `Date.now()` is `now` or `stampedAt`;
- the outcome of `fetch` plus `response.json()` is a `FetchResult`;
- `window.location.origin` is `origin`.

`navigate` is modelled by the `Navigation` value that `goToBook` returns.

## Model

| member | source | states |
|---|---|---|
| BookApi.BookStore.constructor | src/services/bookApi.js:18 | A new session starts with neither the `booksData` entry nor the `booksDataTimestamp` entry. |
| BookApi.BookStore.FetchAllBooks | src/services/bookApi.js:59-88 | Serves the cached catalogue without a request exactly while it is younger than 30 minutes. Otherwise it requests the catalogue. A request that succeeds resolves to the new catalogue and stores it, stamped with the time read before the request. A failed request rejects with the status or JSON error and leaves the cache unchanged. |
| BookApi.FreshForThirtyMinutes | src/services/bookApi.js:62-69 | For a store whose catalogue was stamped at `t0`, `fetchAllBooks` serves from the cache exactly while `now < t0 + 30·60·1000`: still at +29 min, no longer at +31 min. |
| BookApi.BookStore.FetchBookBySku | src/services/bookApi.js:11-53 | An empty SKU rejects with "SKU is required" and makes no request. A cached record with that SKU is returned whatever the cache's age. Otherwise the catalogue is requested. On success it replaces the cache, stamped after the response, and the result is the first match, or "not found". On failure the error propagates and the cache is unchanged. |
| BookApi.BookStore.ValidateSku | src/services/bookApi.js:178-186 | True exactly when the SKU is non-empty and is found in the cache or in the catalogue that was fetched. It never rejects. The cache ends as the lookup left it. |
| BookApi.BookStore.SearchBooks | src/services/bookApi.js:96-127 | The outcome of `fetchAllBooks`, with the catalogue passed through `Search`. The cache ends as `fetchAllBooks` leaves it. |
| BookApi.Search | src/services/bookApi.js:98-122 | An empty query returns the whole catalogue. Otherwise the result holds exactly the records that match the lower-cased query on the chosen field, each as many times as it occurs in the catalogue. An unknown type or 'all' tries title, author, language and SKU. |
| BookApi.SearchKeepsOrder | src/services/bookApi.js:105 | Search results are a subsequence of the catalogue, so catalogue order is kept. |
| BookApi.UnknownSearchTypeSearchesAllFields | src/services/bookApi.js:113-120 | Under the default branch, a record matches iff some one-field search matches it or its SKU does. |
| BookApi.BookStore.GetBooksByLanguage | src/services/bookApi.js:134-142 | The outcome of `fetchAllBooks`, filtered by strict equality on `Language`. |
| BookApi.BooksByLanguage | src/services/bookApi.js:137 | Exactly the records whose language is `===` to the argument, each as many times as it occurs in the catalogue. |
| BookApi.BooksByLanguageKeepsOrder | src/services/bookApi.js:137 | The records of one language keep their catalogue order. |
| BookApi.BookStore.GetBooksByAuthor | src/services/bookApi.js:193-201 | The outcome of `fetchAllBooks`, filtered by strict equality on `Author`. |
| BookApi.BooksByAuthor | src/services/bookApi.js:196 | Exactly the records whose author is `===` to the argument, each as many times as it occurs in the catalogue. |
| BookApi.BooksByAuthorKeepsOrder | src/services/bookApi.js:196 | The records of one author keep their catalogue order. |
| BookApi.BookStore.GetAvailableLanguages | src/services/bookApi.js:148-157 | The outcome of `fetchAllBooks`, mapped through `AvailableLanguages`. |
| BookApi.AvailableLanguages | src/services/bookApi.js:151-152 | Strictly increasing in code-unit order, which also makes it duplicate-free. A string is listed iff it is non-empty and is some record's language. |
| BookApi.BookStore.GetAvailableAuthors | src/services/bookApi.js:207-216 | The outcome of `fetchAllBooks`, mapped through `AvailableAuthors`. |
| BookApi.AvailableAuthors | src/services/bookApi.js:210-211 | Strictly increasing in code-unit order. A string is listed iff it is non-empty and is some record's author. |
| BookApi.BookStore.GetAvailableSkus | src/services/bookApi.js:163-171 | The outcome of `fetchAllBooks`, mapped through `AvailableSkus`. |
| BookApi.AvailableSkus | src/services/bookApi.js:166 | The truthy SKUs of the catalogue in catalogue order (`TruthyStrings` of the mapped SKUs), repeats kept. It is no longer than the catalogue, and a string is listed iff it is non-empty and is some record's SKU. |
| BookApi.AvailableSkusAppend | src/services/bookApi.js:166 | The SKU list of two catalogues one after the other is the two SKU lists concatenated, so order and repeated SKUs are kept. |
| BookApi.TruthyStrings | src/services/bookApi.js:151 | `filter(Boolean)` keeps exactly the non-empty strings, each one a value of the input. |
| BookApi.TruthyStringsAppend | src/services/bookApi.js:151 | Filtering commutes with concatenation, so the survivors keep their order. |
| BookApi.DistinctSorted | src/services/bookApi.js:151-152 | `[...new Set(v.filter(Boolean))].sort()` is strictly increasing and has the same members as the filtered values. |
| BookApi.DistinctSortedMembers | src/services/bookApi.js:151-152 | Its members are exactly the non-empty strings among the values. |
| BookApi.FetchError | src/services/bookApi.js:33-35 | A non-ok response rejects with its status. A network or parse failure rejects as invalid JSON. |
| Books.FindBySku | src/services/bookApi.js:22 | `find` yields nothing iff no record's `String(SKU)` equals the SKU. Otherwise it yields a record of the list whose SKU matches. |
| Books.FirstSkuIndex | src/services/bookApi.js:38 | The index is that of a match, and no earlier record matches. |
| Books.FindBySkuIsFirst | src/services/bookApi.js:38 | When some record matches, `find` returns the first match. |
| Books.MissingSkuMatchesUndefined | src/services/bookApi.js:38 | `String(undefined)` is "undefined", so a record without a SKU is found by that string. |
| DefaultSort.Sort | src/services/bookApi.js:152 | The default sort's result is sorted in UTF-16 code-unit order and is a permutation of its input. |
| DefaultSort.Insert | src/services/bookApi.js:152 | Inserting into a sorted list keeps it sorted and adds exactly the one element. |
| DefaultSort.SortDistinct | src/services/bookApi.js:151-152 | Sorting distinct strings gives a strictly increasing list with the same members. |
| DefaultSort.DistinctByMultiset | src/services/bookApi.js:151-152 | A sorted permutation of a duplicate-free list is strictly increasing. |
| DefaultSort.CodeUnitLeTransitive | src/services/bookApi.js:152 | Code-unit order is transitive. |
| JsStrings.CodeUnitLessTotal | src/services/bookApi.js:152 | Any two distinct strings are ordered by code units one way or the other. |
| JsStrings.CodeUnitLessTransitive | src/services/bookApi.js:152 | Strict code-unit order is transitive. |
| JsStrings.CodeUnitLessIrreflexive | src/services/bookApi.js:152 | No string sorts before itself. |
| JsStrings.CodeUnitLessAsymmetric | src/services/bookApi.js:152 | Two strings never sort before each other. |
| JsStrings.CodeUnitRank | src/services/bookApi.js:152 | Characters below U+D800 keep their value. Supplementary characters rank below U+E000..U+FFFF, as their high surrogate does. |
| JsStrings.IncludesIffOccurs | src/services/bookApi.js:108 | `includes` holds iff the needle occurs at some index of the string. |
| JsStrings.Lower | src/services/bookApi.js:103 | `toLowerCase` keeps the length and lowers each ASCII capital by 32. Every other character stays the same. |
| JsStrings.LowerIdempotent | src/services/bookApi.js:103 | Lower-casing twice is lower-casing once. |
| JsStrings.ToJsString | src/services/bookApi.js:22 | `String(x)` is the string itself, "undefined" or "null". |
| Sequences.Filter | src/services/bookApi.js:137 | The result is no longer than the input, every element of it is an input element that satisfies the predicate, and every input element that satisfies it is in the result. |
| Sequences.FilterCounts | src/services/bookApi.js:137 | `filter` keeps every copy: a passing value occurs in the result as often as in the input, any other value not at all. |
| Sequences.FilterAppend | src/services/bookApi.js:137 | Filtering a concatenation is the concatenation of the filtered parts. |
| Sequences.FilterIsSubsequence | src/services/bookApi.js:137 | `filter` keeps input order. |
| Sequences.Dedup | src/services/bookApi.js:151 | `new Set` keeps each value once and has the same members. |
| Sequences.DedupKeepsFirstOccurrenceOrder | src/Home.jsx:32 | `new Set` orders values by their first occurrence. |
| BookCards.NormalizeIsbn | src/component/BookCards.jsx:15-18 | The normal form contains no hyphen or white space and is no longer than the input. |
| BookCards.NormalizeIsbnAppend | src/component/BookCards.jsx:17 | Normalisation works character by character, so it distributes over concatenation. |
| BookCards.NormalizeIsbnKeepsClean | src/component/BookCards.jsx:17 | An ISBN without separators is unchanged. |
| BookCards.NormalizeIsbnIdempotent | src/component/BookCards.jsx:15-18 | Normalising twice is normalising once. |
| BookCards.NormalizeIsbnGroups | src/component/BookCards.jsx:17 | Groups joined by separators normalise to the groups joined directly. |
| BookCards.SeparatedIsbnNormalizes | src/component/BookCards.jsx:17 | "978-0-123", and the same with any `\s` separator, normalises to "9780123". |
| BookCards.ExactLinks | src/component/BookCards.jsx:25 | The exact lookup finds an entry iff some key equals the ISBN, and it returns that key's links. |
| BookCards.FirstNormalizedKey | src/component/BookCards.jsx:31-36 | The `for..in` scan stops at the first key whose normal form matches, and no earlier key matches. |
| BookCards.GetPurchaseLinks | src/component/BookCards.jsx:21-40 | The loop with its `break` returns what `PurchaseLinksFor` specifies: [] for a falsy ISBN, the exact entry, else the first entry whose key has the same normal form, else []. |
| BookCards.UniqueNormalFormFound | src/component/BookCards.jsx:31-36 | When exactly one key has the normal form, the scan finds that key. |
| BookCards.SameLinksForEquivalentIsbns | src/component/BookCards.jsx:21-40 | Two ISBNs with the same normal form get the same links when one key has that normal form. |
| BookCards.FilterListing | src/component/BookCards.jsx:43-47 | Fails (the render throws) iff a record with images has no string title. Otherwise it holds exactly the records that have images, whose lower-cased title includes the query and whose lower-cased language includes the selection. |
| BookCards.FilterListingKeepsOrder | src/component/BookCards.jsx:43 | The filtered listing keeps `apiData` order. |
| BookCards.FilterListingCounts | src/component/BookCards.jsx:43-47 | Every copy of a listed record is kept, and no copy of any other record, so the page count counts repeated records. |
| BookCards.FilterListingIsFilter | src/component/BookCards.jsx:43-47 | When no record throws, the listing is `Filter` on the listing condition, so it distributes over concatenation (`FilterAppend`) and keeps every copy of a listed record. |
| BookCards.EmptyFiltersNeedALanguage | src/component/BookCards.jsx:44-46 | With empty query and selection, a record is listed iff it has images, a title and a language string. |
| BookCards.SortOrderOf | src/component/BookCards.jsx:57-61 | Only 'title(a-z)' sorts ascending and only 'title(z-a)' sorts descending. |
| BookCards.SortListing | src/component/BookCards.jsx:57-61 | The in-place sort leaves the array ordered by the chosen comparator and a permutation of what it was. |
| BookCards.InsertDown | src/component/BookCards.jsx:58-60 | One insertion step extends the sorted prefix by one element and keeps the array's contents. |
| BookCards.Swap | src/component/BookCards.jsx:58-60 | A swap exchanges two cells and changes nothing else. |
| BookCards.BeforeTotal | src/component/BookCards.jsx:58-60 | Under a total preorder, any two titles are comparable in either sort direction. |
| BookCards.BeforeTransitive | src/component/BookCards.jsx:58-60 | Either sort direction is transitive. |
| BookCards.PageCount | src/component/BookCards.jsx:54 | `Math.ceil(n/50)`: the pages hold every card, the last page is not empty, and there are 0 pages iff there are 0 cards. |
| BookCards.JsSlice | src/component/BookCards.jsx:68 | `slice` with in-range bounds is the subsequence. With `end <= start` it is empty. It never grows. |
| BookCards.FirstPagesArePrefix | src/component/BookCards.jsx:52-53 | Pages 1..k together are the first 50·k cards, or all of them. |
| BookCards.PagesCoverListing | src/component/BookCards.jsx:52-54 | Reading all pages in turn shows every card once, in listing order. |
| BookCards.PageSizes | src/component/BookCards.jsx:52-54 | Each page in range holds 1 to 50 cards. A page past the end holds none. |
| BookCards.PageOutOfRangeShowsNothing | src/component/BookCards.jsx:51-54 | A current page past the page count has no button in the page row and no cards on its page. |
| BookCards.StalePageAfterNarrowing | src/component/BookCards.jsx:51-54 | With page 5 current and at most 50 cards left after filtering, there is at most one page, page 5 has no button, and no cards are shown. |
| BookCards.RenderListing | src/component/BookCards.jsx:43-68 | The listing is the filtered records, sorted as `sortBy` asks (left in place when unsorted) and a permutation of them. The page count is computed on the same listing, and the cards are page `currPage` of it. |
| Pagination.HandlePrev | src/component/Pagination.jsx:4-6 | Never below 1. Goes back one page from any page after the first, and gives page 1 from page 1 or any page below it. Stays put exactly when Prev is disabled. |
| Pagination.HandleNext | src/component/Pagination.jsx:8-10 | Never above the page count. Goes forward one page before the last, and gives the page count from the last page or any page past it. Stays put exactly when Next is disabled. |
| Pagination.NavigationStaysInRange | src/component/Pagination.jsx:4-10 | From a page in range, Prev and Next stay in range. With no pages, Next gives page 0. |
| Pagination.PageRange | src/component/Pagination.jsx:20-22 | The counting loop pushes `lo..hi` in order. |
| Pagination.PageRangeExtend | src/component/Pagination.jsx:41-43 | One more iteration appends the next page. |
| Pagination.RenderPageNumbers | src/component/Pagination.jsx:16-51 | The method with its loops builds exactly `PageRow`. |
| Pagination.PushPages | src/component/Pagination.jsx:41-43 | The loop appends `lo..hi` to the row. |
| Pagination.SmallRowShowsEveryPage | src/component/Pagination.jsx:19-22 | With at most 7 pages, the row is 1..n and has no ellipsis. |
| Pagination.LargeRowShape | src/component/Pagination.jsx:23-50 | With more than 7 pages, the row is: 1, an ellipsis iff `currPage > 3`, three consecutive pages, an ellipsis iff `currPage < n-2`, then n. |
| Pagination.CurrentPageInMiddleWindow | src/component/Pagination.jsx:31-39 | A page strictly between the first and the last lies in the three-page window. |
| Pagination.RowIncreases | src/component/Pagination.jsx:16-51 | Page numbers in the row strictly increase. |
| Pagination.RowWithin | src/component/Pagination.jsx:16-51 | Every page number in the row lies in 1..n. |
| Pagination.RowMarksGaps | src/component/Pagination.jsx:27-47 | An ellipsis stands exactly where consecutive shown pages skip a number. |
| Pagination.CurrentPageShown | src/component/Pagination.jsx:16-56 | For a current page in 1..n, the page appears in the row, so its button is the active one. |
| Pagination.CurrentPageShownOnlyInRange | src/component/Pagination.jsx:16-56 | A current page below 1 or above n has no button in the row. |
| UriEncoding.EncodeUriComponent | src/utils/bookLinks.js:37 | The encoding is no shorter than its input and uses only unreserved characters and '%'. |
| UriEncoding.EncodeChar | src/utils/bookLinks.js:37 | An unreserved character stays as it is. Any other character becomes a '%'-escape. |
| UriEncoding.Utf8 | src/utils/bookLinks.js:37 | A code point becomes 1 to 4 bytes. |
| UriEncoding.PercentBytes | src/utils/bookLinks.js:37 | Each byte becomes three characters, '%' followed by two hex digits. |
| UriEncoding.EncodedHasNoSeparators | src/utils/bookLinks.js:107-111 | An encoded value contains no '&', '=', '?' or '#'. |
| UriEncoding.EncodeUnreservedIsIdentity | src/utils/bookLinks.js:108 | A string of unreserved characters encodes to itself. |
| UriEncoding.EncodeConcat | src/utils/bookLinks.js:37 | Encoding distributes over concatenation. |
| UriEncoding.EncodeLineFeed | src/utils/bookLinks.js:46 | A line feed encodes to "%0A". |
| UriEncoding.EncodeTwoLines | src/utils/bookLinks.js:46 | Two lines encode to the encoded lines joined by "%0A". |
| UriEncoding.SplitJoin | src/utils/bookLinks.js:109 | Splitting a join at a separator that no part contains gives back the parts. |
| UriEncoding.SplitAtFirstSeparator | src/utils/bookLinks.js:111 | A string splits at its first separator. |
| UriEncoding.SplitWithoutSeparator | src/utils/bookLinks.js:111 | A string without the separator splits into itself. |
| UriEncoding.QueryStringSplits | src/utils/bookLinks.js:107-109 | A query string splits at '&' into one piece per parameter, and each piece splits at '=' into the encoded key and the encoded value. |
| UriEncoding.QueryStringSingle | src/utils/bookLinks.js:107-109 | One parameter gives `key=value`. |
| UriEncoding.QueryStringPair | src/utils/bookLinks.js:107-109 | Two parameters give `k1=v1&k2=v2`. |
| UriEncoding.QueryStringHasNoMarkers | src/utils/bookLinks.js:107-109 | A query string contains no '?' or '#'. |
| UriEncoding.WithQuery | src/utils/bookLinks.js:105-111 | No parameters leaves the base unchanged. Otherwise the base is a proper prefix of the result. |
| UriEncoding.WithQuerySplits | src/utils/bookLinks.js:111 | A base without '?' followed by a query splits at '?' into the base and the query string. |
| BookLinks.BookDetailRoute | src/utils/bookLinks.js:23-26 | Empty iff the SKU is empty. Otherwise `/bookDetail/` followed by the SKU. |
| BookLinks.BookDetailUrl | src/utils/bookLinks.js:13-16 | Empty iff the SKU is empty. Otherwise the production domain followed by the route. |
| BookLinks.SkuParam | src/App.jsx:9 | The `:sku` route parameter is the raw non-empty segment without '/' that follows `/bookDetail/`, without percent-decoding. |
| BookLinks.RouteRoundTrip | src/utils/bookLinks.js:23-26 | For a SKU without '/', '?', '#' and '%', the router reads back from the route the SKU it was built from. |
| BookLinks.QrCodeUrl | src/utils/bookLinks.js:93-95 | The QR code link is empty iff the SKU is empty. Otherwise it is the production domain followed by the detail route. |
| BookLinks.ShareMessage | src/utils/bookLinks.js:38-40 | The message is the title (or nothing) followed by ` by ` and the author when there is one, and nothing else; it is empty when there is neither. |
| BookLinks.ShareUrls | src/utils/bookLinks.js:33-52 | No links for a missing book or one without a SKU. Otherwise one link per platform, in the order the object lists them. |
| BookLinks.ShareLinks | src/utils/bookLinks.js:36-51 | Seven links, one for each platform, in order. |
| BookLinks.FacebookLinkIsQuery | src/utils/bookLinks.js:44 | The Facebook template is the sharer endpoint with query `u` set to the page address. |
| BookLinks.TwitterLinkIsQuery | src/utils/bookLinks.js:45 | The Twitter template is the intent endpoint with query `url` set to the page and `text` set to the message. |
| BookLinks.WhatsAppLinkIsQuery | src/utils/bookLinks.js:46 | The WhatsApp template is `wa.me` with `text` set to the message and the address on two lines. |
| BookLinks.LinkedInLinkIsQuery | src/utils/bookLinks.js:48 | The LinkedIn template is the share-offsite endpoint with query `url` set to the page. |
| BookLinks.PinterestLinkIsQuery | src/utils/bookLinks.js:49 | The Pinterest template is the pin endpoint with query `url` set to the page and `description` set to the message. |
| BookLinks.RedditLinkIsQuery | src/utils/bookLinks.js:50 | The Reddit template is the submit endpoint with query `url` set to the page and `title` set to the message. |
| BookLinks.OneParamTemplate | src/utils/bookLinks.js:44-50 | A template `base?k=` followed by an encoded value is `base` with the query `k=v`. |
| BookLinks.TwoParamTemplate | src/utils/bookLinks.js:44-50 | A template `base?k1=…&k2=…` with encoded values is `base` with that two-parameter query. |
| BookLinks.EmailLinkIsQuery | src/utils/bookLinks.js:47 | The e-mail link is `mailto:` followed by the query holding only the `subject` parameter (the message, encoded), then '&' and a body that carries the page address unencoded. |
| BookLinks.EmailBodyCarriesPlainAddress | src/utils/bookLinks.js:47 | For an address without '&' or '#', the link has no fragment and splits at '&' into exactly the subject query and the body holding the whole address. |
| BookLinks.EmailBodyCutByAmpersand | src/utils/bookLinks.js:47 | For an address `x&y`, the link splits into three pieces: the subject query, a body ending at `x`, and `y` on its own, so the address is cut at its '&'. |
| BookLinks.BookDetailUrlWithParams | src/utils/bookLinks.js:103-112 | With null or empty params it is the detail URL. Otherwise it is the detail URL with the encoded query. |
| BookLinks.UrlWithParamsSplits | src/utils/bookLinks.js:103-112 | For a SKU without '?', the URL splits into the detail URL and a query string. Each '&'-separated piece splits at '=' into the encoded key and the encoded value of its parameter, in order. |
| BookLinks.UrlWithoutParamsIsRoute | src/utils/bookLinks.js:103-105 | Without params, the URL is the production domain followed by the in-app route. |
| BookNavigation.ShareLink | src/hooks/useBookNavigation.js:79-98 | Empty for an empty SKU. Otherwise the origin, then the route, then the encoded query when there are params. |
| BookNavigation.ShareLinkOnProductionSite | src/hooks/useBookNavigation.js:85-94 | Served from the production domain, the hook's link equals `getBookDetailUrlWithParams`. |
| BookNavigation.TrackingSource | src/hooks/useBookNavigation.js:106 | An absent platform defaults to 'direct'. A string platform is used as it is. |
| BookNavigation.TrackingParams | src/hooks/useBookNavigation.js:107-111 | Exactly `utm_source`, `utm_medium=social` and `utm_campaign=book_share`, in that order. |
| BookNavigation.ShareLinkWithTracking | src/hooks/useBookNavigation.js:106-112 | Empty for an empty SKU. Otherwise the detail address with the three tracking parameters as its query. |
| BookNavigation.TrackingQuery | src/hooks/useBookNavigation.js:107-111 | The tracking query reads back as its three keys and values. Only the source is encoded. |
| BookNavigation.TrackedLinkParameters | src/hooks/useBookNavigation.js:86-93 | A tracked link splits at '?' into the detail address and the tracking query. |
| BookNavigation.NavigationPath | src/hooks/useBookNavigation.js:35-38 | The path always starts with `/bookDetail/`. |
| BookNavigation.RefParams | src/hooks/useBookNavigation.js:36 | A `ref` parameter iff the referrer is truthy. |
| BookNavigation.NavigationPathIsRouteWithQuery | src/hooks/useBookNavigation.js:35-38 | The path is the route with the referrer as a `ref` query. |
| BookNavigation.NavigationOpensSku | src/hooks/useBookNavigation.js:35-52 | For a SKU without '/', '?', '#' and '%', the router opens the very SKU `goToBook` was given, whatever the referrer. |
| BookNavigation.GoToBook | src/hooks/useBookNavigation.js:20-62 | Navigates, and returns true, exactly when the SKU is non-empty and validates. The path carries the referrer, `replace` is passed on, and the state holds the book only when asked for. The cache changes only by validation's fetch. |
| BookNavigation.Referrer | src/hooks/useBookNavigation.js:69 | The source defaults to 'direct'. |
| BookNavigation.GoToBookWithTracking | src/hooks/useBookNavigation.js:69-71 | Like `goToBook` with only `ref` set: no replace and no state. The cache is unchanged unless validation had to fetch a catalogue that arrived, which then replaces it with the validation time as its timestamp. |
| BookDetails.StartRun | src/component/BookDetails.jsx:11-14 | The effect adds a mounted run and sets loading. The consistency invariant holds afterwards. |
| BookDetails.CleanupRun | src/component/BookDetails.jsx:28 | The cleanup unmounts the runs and keeps the invariant. |
| BookDetails.SettledBook | src/component/BookDetails.jsx:16-22 | A mounted run whose catalogue arrived shows `FindBySku` of it, that is the first record with its SKU, or `null`. Otherwise the book is unchanged. |
| BookDetails.SettleRunAsWritten | src/component/BookDetails.jsx:18-25 | As written, settling clears `loading` whether or not the run is still mounted. |
| BookDetails.SupersededLoadClearsLoading | src/component/BookDetails.jsx:18-25 | A load abandoned after the SKU changed ends "Loading..." while the new SKU's load is still pending. This breaks the invariant. |
| BookDetails.SettleRun | src/component/BookDetails.jsx:18-25 | Corrected: only a mounted run clears `loading`. An unmounted run changes neither the book nor `loading`. |
| BookDetails.SettleKeepsValid | src/component/BookDetails.jsx:11-29 | With the correction, settling any load keeps `loading` true exactly until the current run settles. |
| BookDetails.CommittedLoad | src/component/BookDetails.jsx:11-29 | One SKU's run, started and settled with no other run in between, ends with `loading` false. The book is that SKU's lookup, or the previous book when the request failed. |
| BookDetails.BookDetailsView.constructor | src/component/BookDetails.jsx:8-9 | The page starts with no book, loading, and no runs. |
| BookDetails.BookDetailsView.Start | src/component/BookDetails.jsx:11-14 | The state hooks change exactly as `StartRun` says. |
| BookDetails.BookDetailsView.Cleanup | src/component/BookDetails.jsx:28 | The state changes exactly as `CleanupRun` says. |
| BookDetails.BookDetailsView.Settle | src/component/BookDetails.jsx:18-25 | The state changes as the corrected `SettleRun` says, and the invariant is kept. |
| Home.DistinctLanguages | src/Home.jsx:32-38 | No `null`. Each distinct language value appears once, exactly the non-null values of the records, in order of first occurrence. |
| Home.HandleSelected | src/Home.jsx:41-43 | The selection is the chosen value lower-cased character by character, so it has no capital letter and lower-casing it again leaves it unchanged. |
| Home.HandleSortBy | src/Home.jsx:46-48 | The listing sorts ascending iff the option spells 'title(a-z)' in any case, descending iff it spells 'title(z-a)', and leaves the order unchanged for anything else. |
| Home.AscendingOptionSortsAscending | src/Home.jsx:61 | The option 'Title(A-Z)' reaches the listing as ascending title order. |
| Home.DescendingOptionSortsDescending | src/Home.jsx:61 | The option 'Title(Z-A)' reaches the listing as descending title order. |
| Home.PlaceholderLeavesUnsorted | src/Home.jsx:61 | The 'Sort By' placeholder, with value '', leaves the listing unsorted. |
| Home.ChosenLanguageListsItsBooks | src/Home.jsx:41-43 | Choosing a record's own language from the drop-down lists that record, given the other filters pass. |
| Home.AllLanguagesListsEveryLanguage | src/Home.jsx:41-43 | 'All Languages' lists every record that has a language string. |

## Left out

Not modelled:
- Network, storage, clock and router:
  - `fetch` and `response.json()` are the input `FetchResult`;
  - the `sessionStorage` JSON round trip is left out: the cache holds the records themselves, and the "cache unreadable" branch of `fetchBookBySKU` (bookApi.js:26-28) cannot arise;
  - `parseInt` of the stored timestamp is left out: the timestamp is an integer.
- React:
  - rendering, the JSX markup, the `Modal`, `SearchBar` and `SelectOptions` components, `DOMPurify`, and CSS;
  - only the state and effect logic of the components is modelled.
- Console logging (`console.error/warn/log`) has no effect on results.
- `openShareUrl` and `copyBookLinkToClipboard` (bookLinks.js:59-86): they only call `window.open` and the clipboard.
- `vite.config.js` (the development proxy) and `scripts/test-permanent-links.js`: build tooling outside the app.
- Lone surrogates: `encodeURIComponent` throws a `URIError` on them, but a Dafny `char` is a Unicode scalar value, so this case cannot be represented.
- React Router's splitting and percent-decoding of `:sku` is not modelled: the round trip from SKU to route and back is stated only for a SKU without '/', '?', '#' and '%'.
- The ISBN is a string or absent. A numeric ISBN (on which `replace` would throw) is not modelled.
- Record fields are strings, `null` or absent. Non-string values (a numeric SKU, title or language) are not modelled: `String(b.SKU)` would coerce such a SKU, and a numeric SKU 0 would be falsy under `filter(Boolean)` and `!book.SKU`.
- Pagination.CurrentPageShown: the current page is shown only when it is in 1..n. `currPage` is 1 while the catalogue is still empty, and it is not reset when the filters shrink the listing. Such a page has no button and no cards (`BookCards.PageOutOfRangeShowsNothing`), and the model keeps this behaviour as written.

Modelled differently from the source:
- `toLowerCase` is modelled for ASCII letters only. Other characters are left unchanged, whereas JavaScript also lowers other alphabets.
- `localeCompare` is the parameter `le`, assumed to be a total preorder.
- `BookCards.SortListing`: ordered and a permutation, but stability is not claimed. 'title(z-a)' is descending order under the same comparator, not necessarily the exact reverse of the ascending listing.
- The purchase-link map is a list of key/links pairs in `for..in` enumeration order. Its keys are taken to be distinct, as object keys are; the exact lookup takes the first matching pair.
- The share URLs object is a list of (platform, link) pairs in the order its keys are written.
- `params` objects are lists of string pairs in `Object.entries` order. Non-string values are not modelled.
- `options.ref` is modelled as a string. Other truthy values would be coerced by `encodeURIComponent`.
- `BookDetails` treats an HTTP error the same as a failed request and keeps the book. The source calls `res.json()` on such a response, and what happens depends on its body.
- `window.location.origin` is the parameter `origin`.
- A 2xx JSON body that is not an array is folded into `ParseError`. In `fetchBookBySKU` and on the detail page this matches the source: `data.find` throws before anything is cached, and the request fails. In `fetchAllBooks` (bookApi.js:77-83) it does not: the source caches such a body with its timestamp and resolves to it, and the failure comes later, when the callers' `filter`/`map` throws. The model instead rejects with `InvalidJson` and leaves the cache unchanged.

## Findings

| source | as written | input that shows it | evidently intended | confidence | as-written member | corrected member |
|---|---|---|---|---|---|---|
| src/component/BookDetails.jsx:18-25 | The `finally` block runs `setLoading(false)` even after the `if (!mounted) return` guard, so a load whose run was cleaned up still clears `loading`. | Open `/bookDetail/A`, then switch to `/bookDetail/B` before A's request settles. When A's load settles first, "Loading..." disappears while B is still loading, and the page shows the previous book (or "Book not found") under B's address. | Only a run that is still mounted should clear `loading`. | medium, not executed | BookDetails.SettleRunAsWritten, BookDetails.SupersededLoadClearsLoading | BookDetails.SettleRun, BookDetails.SettleKeepsValid |
