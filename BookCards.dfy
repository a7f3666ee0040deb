/**
 * The catalogue listing of the home page: purchase links found by ISBN, the filter on
 * images, title and language, the optional title sort, and the 50-card pages.
 */
module BookCards {
  import opened Wrappers
  import opened JsStrings
  import opened Sequences
  import opened Books
  import Pagination

  // ---------------------------------------------------------------------------------
  // ISBN normalisation

  /** The characters `/[-\s]/g` removes. */
  predicate IsbnSeparator(c: char) {
    c == '-' || IsJsWhiteSpace(c)
  }

  /** `normalizeISBN(isbn)`: '' for a falsy ISBN, else the ISBN without hyphens and white space. */
  function NormalizeIsbn(isbn: string): (r: string)
    ensures |r| <= |isbn|
    ensures forall i :: 0 <= i < |r| ==> !IsbnSeparator(r[i])
  {
    if isbn == [] then ""
    else (if IsbnSeparator(isbn[0]) then "" else [isbn[0]]) + NormalizeIsbn(isbn[1..])
  }

  /** Normalisation works character by character: the other characters stay in order. */
  lemma {:induction false} NormalizeIsbnAppend(a: string, b: string)
    ensures NormalizeIsbn(a + b) == NormalizeIsbn(a) + NormalizeIsbn(b)
  {
    if a == [] {
      assert a + b == b;
    } else {
      assert (a + b)[1..] == a[1..] + b;
      NormalizeIsbnAppend(a[1..], b);
    }
  }

  /** A string with no separator is its own normal form. */
  lemma {:induction false} NormalizeIsbnKeepsClean(s: string)
    requires forall i :: 0 <= i < |s| ==> !IsbnSeparator(s[i])
    ensures NormalizeIsbn(s) == s
  {
    if s != [] {
      NormalizeIsbnKeepsClean(s[1..]);
    }
  }

  /** Normalising twice is normalising once. */
  lemma NormalizeIsbnIdempotent(s: string)
    ensures NormalizeIsbn(NormalizeIsbn(s)) == NormalizeIsbn(s)
  {
    NormalizeIsbnKeepsClean(NormalizeIsbn(s));
  }

  /** Separators between groups of clean characters disappear and the groups are joined. */
  lemma NormalizeIsbnGroups(g1: string, g2: string, g3: string, sep: char)
    requires forall i :: 0 <= i < |g1| ==> !IsbnSeparator(g1[i])
    requires forall i :: 0 <= i < |g2| ==> !IsbnSeparator(g2[i])
    requires forall i :: 0 <= i < |g3| ==> !IsbnSeparator(g3[i])
    requires IsbnSeparator(sep)
    ensures NormalizeIsbn(g1 + [sep] + g2 + [sep] + g3) == g1 + g2 + g3
  {
    NormalizeIsbnKeepsClean(g1);
    NormalizeIsbnKeepsClean(g2);
    NormalizeIsbnKeepsClean(g3);
    assert NormalizeIsbn([sep]) == "";
    var a := g1 + [sep];
    NormalizeIsbnAppend(g1, [sep]);
    assert NormalizeIsbn(a) == g1;
    var b := a + g2;
    NormalizeIsbnAppend(a, g2);
    assert NormalizeIsbn(b) == g1 + g2;
    var c := b + [sep];
    NormalizeIsbnAppend(b, [sep]);
    assert NormalizeIsbn(c) == g1 + g2;
    NormalizeIsbnAppend(c, g3);
  }

  /** "978-0-123", "978 0 123" and the like all normalise to "9780123". */
  lemma SeparatedIsbnNormalizes(sep: char)
    requires IsbnSeparator(sep)
    ensures NormalizeIsbn("978" + [sep] + "0" + [sep] + "123") == "9780123"
  {
    NormalizeIsbnGroups("978", "0", "123", sep);
  }

  // ---------------------------------------------------------------------------------
  // Purchase links

  datatype PurchaseLink = PurchaseLink(platform: string, url: string)

  /** The purchase-link map as `for (const key in ...)` enumerates it: its entries, keys in order. */
  type LinksIndex = seq<(string, seq<PurchaseLink>)>

  /** `purchaseLinksData[isbn]`. */
  function ExactLinks(index: LinksIndex, key: string): (r: Option<seq<PurchaseLink>>)
    ensures r.Some? ==> exists i :: 0 <= i < |index| && index[i] == (key, r.value)
    ensures r.None? <==> forall i :: 0 <= i < |index| ==> index[i].0 != key
  {
    if index == [] then None
    else if index[0].0 == key then Some(index[0].1)
    else ExactLinks(index[1..], key)
  }

  /** The position of the first key whose normal form is `normalized`, or `|index|`. */
  function FirstNormalizedKey(index: LinksIndex, normalized: string): (i: nat)
    ensures i <= |index|
    ensures i < |index| ==> NormalizeIsbn(index[i].0) == normalized
    ensures forall k :: 0 <= k < i ==> NormalizeIsbn(index[k].0) != normalized
  {
    if index == [] then 0
    else if NormalizeIsbn(index[0].0) == normalized then 0
    else 1 + FirstNormalizedKey(index[1..], normalized)
  }

  /**
   * What `getPurchaseLinks(isbn)` returns: [] for a falsy ISBN; the entry under the
   * exact key when there is one; else the entry of the first key with the same normal
   * form; else [].
   */
  function PurchaseLinksFor(index: LinksIndex, isbn: JsStr): seq<PurchaseLink> {
    if !Truthy(isbn) then []
    else if ExactLinks(index, isbn.s).Some? then ExactLinks(index, isbn.s).value
    else
      var i := FirstNormalizedKey(index, NormalizeIsbn(isbn.s));
      if i < |index| then index[i].1 else []
  }

  /** `getPurchaseLinks(isbn)`, with its exact lookup and its scan of the keys. */
  method GetPurchaseLinks(index: LinksIndex, isbn: JsStr) returns (links: seq<PurchaseLink>)
    ensures links == PurchaseLinksFor(index, isbn)
  {
    if !Truthy(isbn) {
      return [];
    }
    var exact := ExactLinks(index, isbn.s);
    if exact.Some? {
      return exact.value;
    }
    var normalized := NormalizeIsbn(isbn.s);
    var found: Option<seq<PurchaseLink>> := None;
    var k := 0;
    while k < |index|
      invariant 0 <= k <= |index|
      invariant forall j :: 0 <= j < k ==> NormalizeIsbn(index[j].0) != normalized
      invariant found.None?
    {
      if NormalizeIsbn(index[k].0) == normalized {
        found := Some(index[k].1);
        break;
      }
      k := k + 1;
    }
    assert found.Some? ==> k == FirstNormalizedKey(index, normalized) && found.value == index[k].1;
    links := found.GetOr([]);
  }

  /** When exactly one key has the normal form `n`, the scan finds that key. */
  lemma {:induction false} UniqueNormalFormFound(index: LinksIndex, n: string, k: nat)
    requires k < |index| && NormalizeIsbn(index[k].0) == n
    requires forall j :: 0 <= j < |index| && j != k ==> NormalizeIsbn(index[j].0) != n
    ensures FirstNormalizedKey(index, n) == k
  {
  }

  /** At most one key of the map has the normal form `n`. */
  predicate UniqueNormalForm(index: LinksIndex, n: string) {
    forall i, j :: 0 <= i < j < |index| && NormalizeIsbn(index[i].0) == n ==> NormalizeIsbn(index[j].0) != n
  }

  /**
   * Two spellings of one ISBN (say "978-0-123" and "9780123") get the same links when
   * the map holds at most one key of that normal form.
   */
  lemma SameLinksForEquivalentIsbns(index: LinksIndex, a: string, b: string)
    requires a != "" && b != "" && NormalizeIsbn(a) == NormalizeIsbn(b)
    requires UniqueNormalForm(index, NormalizeIsbn(a))
    ensures PurchaseLinksFor(index, Str(a)) == PurchaseLinksFor(index, Str(b))
  {
    var n := NormalizeIsbn(a);
    forall s | s == a || s == b
      ensures PurchaseLinksFor(index, Str(s)) == (if FirstNormalizedKey(index, n) < |index| then index[FirstNormalizedKey(index, n)].1 else [])
    {
      if ExactLinks(index, s).Some? {
        var k :| 0 <= k < |index| && index[k] == (s, ExactLinks(index, s).value);
        UniqueNormalFormFound(index, n, k);
      }
    }
  }

  // ---------------------------------------------------------------------------------
  // Filtering

  /** `Array.isArray(el.Images) && el.Images.length > 0`. */
  predicate HasImages(b: Book) {
    b.Images.Some? && |b.Images.value| > 0
  }

  /** `el.Title.toLowerCase()` is reached and throws: an image-bearing record without a string title. */
  predicate TitleThrows(b: Book) {
    HasImages(b) && !b.Title.Str?
  }

  /** The filter condition of the listing, for a record on which it does not throw. */
  predicate Listed(b: Book, query: string, selected: string) {
    && HasImages(b)
    && b.Title.Str? && Includes(Lower(b.Title.s), query)
    && b.Language.Str? && Includes(Lower(b.Language.s), selected)
  }

  /**
   * `apiData.filter(...)` of the listing: `None` when the filter throws, that is when an
   * image-bearing record has no string title; otherwise the listed records.
   */
  function FilterListing(apiData: seq<Book>, query: string, selected: string): (r: Option<seq<Book>>)
    ensures r.None? <==> exists i :: 0 <= i < |apiData| && TitleThrows(apiData[i])
    ensures r.Some? ==> forall i :: 0 <= i < |r.value| ==> r.value[i] in apiData && Listed(r.value[i], query, selected)
    ensures r.Some? ==> forall i :: 0 <= i < |apiData| && Listed(apiData[i], query, selected) ==> apiData[i] in r.value
  {
    if apiData == [] then Some([])
    else if TitleThrows(apiData[0]) then None
    else
      var rest := FilterListing(apiData[1..], query, selected);
      if rest.None? then None
      else Some((if Listed(apiData[0], query, selected) then [apiData[0]] else []) + rest.value)
  }

  /** The filter keeps the listed records in `apiData` order. */
  lemma {:induction false} FilterListingKeepsOrder(apiData: seq<Book>, query: string, selected: string)
    requires FilterListing(apiData, query, selected).Some?
    ensures SubsequenceOf(FilterListing(apiData, query, selected).value, apiData)
  {
    if apiData != [] {
      var r := FilterListing(apiData, query, selected).value;
      FilterListingKeepsOrder(apiData[1..], query, selected);
      var rest := FilterListing(apiData[1..], query, selected).value;
      if Listed(apiData[0], query, selected) {
        assert r[0] == apiData[0] && r[1..] == rest;
      } else {
        assert r == rest;
        SubsequenceOfDropHead(r, apiData);
      }
    }
  }

  /** Every copy of a listed record is kept, and no copy of any other record. */
  lemma {:induction false} FilterListingCounts(apiData: seq<Book>, query: string, selected: string)
    requires FilterListing(apiData, query, selected).Some?
    ensures forall b :: multiset(FilterListing(apiData, query, selected).value)[b]
                     == if Listed(b, query, selected) then multiset(apiData)[b] else 0
  {
    if apiData != [] {
      FilterListingCounts(apiData[1..], query, selected);
      assert apiData == [apiData[0]] + apiData[1..];
    }
  }

  /**
   * When no record throws, the listing is the plain `filter` on `Listed`, so it shares
   * `Filter`'s properties: it distributes over concatenation and keeps every copy.
   */
  lemma {:induction false} FilterListingIsFilter(apiData: seq<Book>, query: string, selected: string)
    requires forall i :: 0 <= i < |apiData| ==> !TitleThrows(apiData[i])
    ensures FilterListing(apiData, query, selected) == Some(Filter(apiData, b => Listed(b, query, selected)))
  {
    if apiData != [] {
      FilterListingIsFilter(apiData[1..], query, selected);
    }
  }

  /**
   * With no query and no language chosen, a record is listed exactly when it has images,
   * a title and a language: a record without a language is dropped even then.
   */
  lemma EmptyFiltersNeedALanguage(b: Book)
    ensures Listed(b, "", "") <==> HasImages(b) && b.Title.Str? && b.Language.Str?
  {
  }

  // ---------------------------------------------------------------------------------
  // Sorting

  /** The `sortBy` values the listing recognises. */
  datatype SortOrder = TitleAscending | TitleDescending | Unsorted

  /** `'title(a-z)'` and `'title(z-a)'` sort; any other key leaves the filtered order. */
  function SortOrderOf(sortBy: string): (o: SortOrder)
    ensures o == TitleAscending <==> sortBy == "title(a-z)"
    ensures o == TitleDescending <==> sortBy == "title(z-a)"
  {
    if sortBy == "title(a-z)" then TitleAscending
    else if sortBy == "title(z-a)" then TitleDescending
    else Unsorted
  }

  /**
   * `le(x, y)` stands for `x.localeCompare(y) <= 0`; collation is only required to be a
   * total preorder.
   */
  ghost predicate TotalPreorder(le: (string, string) -> bool) {
    && (forall x, y :: le(x, y) || le(y, x))
    && (forall x, y, z :: le(x, y) && le(y, z) ==> le(x, z))
  }

  /** The comparator of the chosen order finds no fault with `a` before `b`. */
  predicate Before(a: Book, b: Book, order: SortOrder, le: (string, string) -> bool)
    requires a.Title.Str? && b.Title.Str?
  {
    match order
    case TitleAscending => le(a.Title.s, b.Title.s)
    case TitleDescending => le(b.Title.s, a.Title.s)
    case Unsorted => true
  }

  lemma BeforeTotal(a: Book, b: Book, order: SortOrder, le: (string, string) -> bool)
    requires TotalPreorder(le) && a.Title.Str? && b.Title.Str?
    ensures Before(a, b, order, le) || Before(b, a, order, le)
  {
  }

  lemma BeforeTransitive(a: Book, b: Book, c: Book, order: SortOrder, le: (string, string) -> bool)
    requires TotalPreorder(le) && a.Title.Str? && b.Title.Str? && c.Title.Str?
    requires Before(a, b, order, le) && Before(b, c, order, le)
    ensures Before(a, c, order, le)
  {
  }

  predicate AllTitled(s: seq<Book>) {
    forall i :: 0 <= i < |s| ==> s[i].Title.Str?
  }

  predicate OrderedBy(s: seq<Book>, order: SortOrder, le: (string, string) -> bool)
    requires AllTitled(s)
  {
    forall i, j :: 0 <= i < j < |s| ==> Before(s[i], s[j], order, le)
  }

  /**
   * `filteredData.sort(...)` with the title comparator of `order`, in place. The sort is
   * a stable insertion sort: an element moves left only past elements it is strictly
   * before.
   */
  method SortListing(a: array<Book>, order: SortOrder, le: (string, string) -> bool)
    requires order != Unsorted
    requires TotalPreorder(le)
    requires AllTitled(a[..])
    modifies a
    ensures AllTitled(a[..])
    ensures OrderedBy(a[..], order, le)
    ensures multiset(a[..]) == multiset(old(a[..]))
  {
    var i := 1;
    while i < a.Length
      invariant 1 <= i || a.Length == 0
      invariant i <= a.Length || a.Length == 0
      invariant AllTitled(a[..])
      invariant forall p, q :: 0 <= p < q < i && q < a.Length ==> Before(a[p], a[q], order, le)
      invariant multiset(a[..]) == multiset(old(a[..]))
    {
      InsertDown(a, i, order, le);
      i := i + 1;
    }
  }

  method Swap(a: array<Book>, i: int, j: int)
    requires 0 <= i < a.Length && 0 <= j < a.Length
    modifies a
    ensures a[..] == old(a[..])[i := old(a[j])][j := old(a[i])]
    ensures multiset(a[..]) == multiset(old(a[..]))
  {
    a[i], a[j] := a[j], a[i];
  }

  /** One step of the sort: `a[i]` moves left past the elements it is strictly before. */
  method InsertDown(a: array<Book>, i: int, order: SortOrder, le: (string, string) -> bool)
    requires 0 < i < a.Length
    requires TotalPreorder(le)
    requires AllTitled(a[..])
    requires forall p, q :: 0 <= p < q < i ==> Before(a[p], a[q], order, le)
    modifies a
    ensures AllTitled(a[..])
    ensures forall p, q :: 0 <= p < q <= i ==> Before(a[p], a[q], order, le)
    ensures multiset(a[..]) == multiset(old(a[..]))
  {
    var j := i;
    while j > 0 && !Before(a[j - 1], a[j], order, le)
      invariant 0 <= j <= i
      invariant AllTitled(a[..])
      invariant forall p, q :: 0 <= p < q <= i && p != j && q != j ==> Before(a[p], a[q], order, le)
      invariant forall q :: j < q <= i ==> Before(a[j], a[q], order, le)
      invariant multiset(a[..]) == multiset(old(a[..]))
    {
      BeforeTotal(a[j - 1], a[j], order, le);
      Swap(a, j - 1, j);
      j := j - 1;
    }
    forall p | 0 <= p < j
      ensures Before(a[p], a[j], order, le)
    {
      if p < j - 1 {
        BeforeTransitive(a[p], a[j - 1], a[j], order, le);
      }
    }
  }

  // ---------------------------------------------------------------------------------
  // Pages

  const CardsPerPage: nat := 50

  /** `Math.ceil(count / cardsPerPage)`. */
  function PageCount(count: nat): (p: nat)
    ensures p * CardsPerPage >= count
    ensures p > 0 ==> (p - 1) * CardsPerPage < count
    ensures p == 0 <==> count == 0
  {
    (count + CardsPerPage - 1) / CardsPerPage
  }

  /** `s.slice(start, end)`: negative positions count from the end, and both are clamped to `[0, |s|]`. */
  function JsSlice<T>(s: seq<T>, start: int, end: int): (r: seq<T>)
    ensures 0 <= start <= end <= |s| ==> r == s[start..end]
    ensures end <= start && 0 <= end ==> r == []
    ensures |r| <= |s|
  {
    var from := if start < 0 then (if |s| + start < 0 then 0 else |s| + start) else (if start > |s| then |s| else start);
    var to := if end < 0 then (if |s| + end < 0 then 0 else |s| + end) else (if end > |s| then |s| else end);
    if from < to then s[from..to] else []
  }

  /** The cards shown on page `currPage`: `slice(indexOfFirstItem, indexOfLastItem)`. */
  function PageOf<T>(listing: seq<T>, currPage: int): seq<T> {
    JsSlice(listing, CardsPerPage * currPage - CardsPerPage, CardsPerPage * currPage)
  }

  /** Pages `1..k` one after another. */
  function FirstPages<T>(listing: seq<T>, k: nat): seq<T> {
    if k == 0 then [] else FirstPages(listing, k - 1) + PageOf(listing, k)
  }

  /** Pages `1..k` together are the first `50·k` cards (or all of them). */
  lemma {:induction false} FirstPagesArePrefix<T>(listing: seq<T>, k: nat)
    ensures FirstPages(listing, k) == listing[..if k * CardsPerPage <= |listing| then k * CardsPerPage else |listing|]
  {
    if k > 0 {
      FirstPagesArePrefix(listing, k - 1);
      var lo := (k - 1) * CardsPerPage;
      var hi := k * CardsPerPage;
      if hi <= |listing| {
        assert listing[..hi] == listing[..lo] + listing[lo..hi];
      } else if lo <= |listing| {
        assert listing[..|listing|] == listing[..lo] + listing[lo..];
      }
    }
  }

  /** Reading pages `1..PageCount` in turn shows every card exactly once, in listing order. */
  lemma PagesCoverListing<T>(listing: seq<T>)
    ensures FirstPages(listing, PageCount(|listing|)) == listing
  {
    FirstPagesArePrefix(listing, PageCount(|listing|));
  }

  /** A page in `1..PageCount` holds between 1 and 50 cards; a page past the end holds none. */
  lemma PageSizes<T>(listing: seq<T>, page: int)
    ensures 1 <= page <= PageCount(|listing|) ==> 1 <= |PageOf(listing, page)| <= CardsPerPage
    ensures page > PageCount(|listing|) ==> PageOf(listing, page) == []
  {
  }

  /**
   * `currPage` is kept when the filters shrink the listing, and starts at 1 while the
   * catalogue is still empty. A current page past the last one then has no button in the
   * page row and no cards on the page.
   */
  lemma PageOutOfRangeShowsNothing<T>(listing: seq<T>, currPage: int)
    requires currPage > PageCount(|listing|)
    ensures Pagination.Page(currPage) !in Pagination.PageRow(PageCount(|listing|), currPage)
    ensures PageOf(listing, currPage) == []
  {
    Pagination.CurrentPageShownOnlyInRange(PageCount(|listing|), currPage);
    PageSizes(listing, currPage);
  }

  /** A search on page 5 that leaves at most 50 cards: one page, no button for page 5, no cards. */
  lemma StalePageAfterNarrowing<T>(listing: seq<T>)
    requires |listing| <= CardsPerPage
    ensures PageCount(|listing|) <= 1
    ensures Pagination.Page(5) !in Pagination.PageRow(PageCount(|listing|), 5)
    ensures PageOf(listing, 5) == []
  {
    PageOutOfRangeShowsNothing(listing, 5);
  }

  // ---------------------------------------------------------------------------------
  // The listing as rendered

  /**
   * The body of `BookCards`: filter `apiData`, count the pages, sort a copy of the
   * filtered records as `sortBy` asks, and cut out page `currPage`. `ok` is false when
   * the filter throws.
   */
  method RenderListing(apiData: seq<Book>, query: string, selected: string, sortBy: string,
                       currPage: int, le: (string, string) -> bool)
    returns (ok: bool, listing: seq<Book>, noOfPages: nat, cards: seq<Book>)
    requires TotalPreorder(le)
    ensures ok <==> FilterListing(apiData, query, selected).Some?
    ensures ok ==> AllTitled(listing)
    ensures ok ==> multiset(listing) == multiset(FilterListing(apiData, query, selected).value)
    ensures ok && SortOrderOf(sortBy) == Unsorted ==> listing == FilterListing(apiData, query, selected).value
    ensures ok ==> OrderedBy(listing, SortOrderOf(sortBy), le)
    ensures ok ==> noOfPages == PageCount(|listing|)
    ensures ok ==> cards == PageOf(listing, currPage)
  {
    var filtered := FilterListing(apiData, query, selected);
    if filtered.None? {
      return false, [], 0, [];
    }
    ok := true;
    var filteredData := new Book[|filtered.value|](i requires 0 <= i < |filtered.value| => filtered.value[i]);
    assert filteredData[..] == filtered.value;
    noOfPages := PageCount(filteredData.Length);
    var order := SortOrderOf(sortBy);
    if order != Unsorted {
      SortListing(filteredData, order, le);
    }
    listing := filteredData[..];
    cards := PageOf(listing, currPage);
  }
}
