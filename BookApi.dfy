/**
 * The book data service: a session cache of the whole catalogue with a 30-minute
 * lifetime, lookup by SKU, and the search and listing helpers built on top of it.
 * `sessionStorage` is the pair of fields of `BookStore`; `Date.now()` and the outcome
 * of `fetch` are parameters of the operations that use them.
 */
module BookApi {
  import opened Wrappers
  import opened JsStrings
  import opened Sequences
  import opened DefaultSort
  import opened Books

  /** How long a cached catalogue is served, in milliseconds. */
  const CacheExpiry: int := 30 * 60 * 1000

  /** Why a call to the service rejected. */
  datatype ApiError =
    | SkuRequired            // 'SKU is required'
    | ApiStatus(status: int) // `API error: ${response.status}`
    | InvalidJson            // the request or `response.json()` failed
    | BookNotFound(sku: string)

  /** The settled state of the promise an async service function returns. */
  datatype Outcome<T> = Resolved(value: T) | Rejected(error: ApiError)

  /** The error a failed fetch rejects with. */
  function FetchError(response: FetchResult): (e: ApiError)
    requires !response.Fetched?
    ensures response.HttpError? ==> e == ApiStatus(response.status)
    ensures response.ParseError? ==> e == InvalidJson
  {
    match response
    case HttpError(status) => ApiStatus(status)
    case ParseError => InvalidJson
  }

  function MapOutcome<T, U>(o: Outcome<T>, f: T -> U): Outcome<U> {
    match o
    case Resolved(v) => Resolved(f(v))
    case Rejected(e) => Rejected(e)
  }

  class BookStore {
    /** The `booksData` session entry: the last catalogue fetched. */
    var booksData: Option<seq<Book>>
    /** The `booksDataTimestamp` session entry: when it was stored, in milliseconds. */
    var booksDataTimestamp: Option<int>

    /** A fresh browsing session: both entries are absent. */
    constructor ()
      ensures booksData == None && booksDataTimestamp == None
    {
      booksData := None;
      booksDataTimestamp := None;
    }

    /** `fetchAllBooks` at time `now` answers from the cache without a request. */
    predicate ServesFromCache(now: int)
      reads this
    {
      booksData.Some? && booksDataTimestamp.Some? && now - booksDataTimestamp.value < CacheExpiry
    }

    /** `fetchBookBySKU` finds the record in the cache, whatever the cache's age. */
    predicate CacheHasSku(sku: string)
      reads this
    {
      booksData.Some? && FindBySku(booksData.value, sku).Some?
    }

    /** What `fetchAllBooks` settles to at time `now` when the request would give `response`. */
    function AllBooksOutcome(now: int, response: FetchResult): Outcome<seq<Book>>
      reads this
    {
      if ServesFromCache(now) then Resolved(booksData.value)
      else if response.Fetched? then Resolved(response.books)
      else Rejected(FetchError(response))
    }

    /** The cache after `fetchAllBooks` at `now`: replaced wholesale by a successful request, otherwise untouched. */
    twostate predicate CacheAfterFetchAll(now: int, response: FetchResult)
      reads this
    {
      if old(ServesFromCache(now)) || !response.Fetched? then
        booksData == old(booksData) && booksDataTimestamp == old(booksDataTimestamp)
      else
        booksData == Some(response.books) && booksDataTimestamp == Some(now)
    }

    /**
     * `fetchAllBooks()`: serve the cache while it is younger than 30 minutes, otherwise
     * request the catalogue and, on success, store it with the time read before the request.
     */
    method FetchAllBooks(now: int, response: FetchResult) returns (r: Outcome<seq<Book>>, requested: bool)
      modifies this
      ensures requested <==> !old(ServesFromCache(now))
      ensures !requested ==> r == Resolved(old(booksData).value)
      ensures requested && response.Fetched? ==> r == Resolved(response.books)
      ensures requested && !response.Fetched? ==> r == Rejected(FetchError(response))
      ensures r == old(AllBooksOutcome(now, response))
      ensures CacheAfterFetchAll(now, response)
    {
      var cachedData := booksData;
      var cacheTimestamp := booksDataTimestamp;
      if cachedData.Some? && cacheTimestamp.Some? && now - cacheTimestamp.value < CacheExpiry {
        return Resolved(cachedData.value), false;
      }
      requested := true;
      if !response.Fetched? {
        return Rejected(FetchError(response)), requested;
      }
      var data := response.books;
      booksData := Some(data);
      booksDataTimestamp := Some(now);
      r := Resolved(data);
    }

    /**
     * `fetchBookBySKU(sku)`: reject an empty SKU; answer from the cache when it holds a
     * matching record (at any age); otherwise request the catalogue, store it with the
     * time `stampedAt` read after the response, and resolve to the first match or reject
     * with "not found". A failed request leaves the cache untouched.
     */
    method FetchBookBySku(sku: string, response: FetchResult, stampedAt: int)
      returns (r: Outcome<Book>, requested: bool)
      modifies this
      ensures sku == "" ==> r == Rejected(SkuRequired) && !requested
      ensures requested <==> sku != "" && !old(CacheHasSku(sku))
      ensures sku != "" && old(CacheHasSku(sku)) ==> r == Resolved(FindBySku(old(booksData).value, sku).value)
      ensures requested && !response.Fetched? ==> r == Rejected(FetchError(response))
      ensures requested && response.Fetched? ==>
        r == (if FindBySku(response.books, sku).Some?
              then Resolved(FindBySku(response.books, sku).value)
              else Rejected(BookNotFound(sku)))
      ensures requested && response.Fetched? ==>
        booksData == Some(response.books) && booksDataTimestamp == Some(stampedAt)
      ensures !(requested && response.Fetched?) ==>
        booksData == old(booksData) && booksDataTimestamp == old(booksDataTimestamp)
    {
      requested := false;
      if sku == "" {
        return Rejected(SkuRequired), requested;
      }
      var cachedData := booksData;
      if cachedData.Some? {
        var book := FindBySku(cachedData.value, sku);
        if book.Some? {
          return Resolved(book.value), requested;
        }
      }
      requested := true;
      if !response.Fetched? {
        return Rejected(FetchError(response)), requested;
      }
      var data := response.books;
      var book := FindBySku(data, sku);
      booksData := Some(data);
      booksDataTimestamp := Some(stampedAt);
      if book.None? {
        return Rejected(BookNotFound(sku)), requested;
      }
      r := Resolved(book.value);
    }

    /**
     * `validateSKU(sku)`: false for an empty SKU, otherwise whether `fetchBookBySKU`
     * resolves; a rejection becomes false and never escapes. The lookup's effect on the
     * cache stays.
     */
    method ValidateSku(sku: string, response: FetchResult, stampedAt: int) returns (valid: bool)
      modifies this
      ensures valid <==>
        sku != "" && (old(CacheHasSku(sku)) || (response.Fetched? && FindBySku(response.books, sku).Some?))
      ensures sku != "" && !old(CacheHasSku(sku)) && response.Fetched? ==>
        booksData == Some(response.books) && booksDataTimestamp == Some(stampedAt)
      ensures sku == "" || old(CacheHasSku(sku)) || !response.Fetched? ==>
        booksData == old(booksData) && booksDataTimestamp == old(booksDataTimestamp)
    {
      if sku == "" {
        return false;
      }
      var r, _ := FetchBookBySku(sku, response, stampedAt);
      valid := r.Resolved?;
    }

    /** `searchBooks(query, searchType)`: the catalogue from `fetchAllBooks`, searched. */
    method SearchBooks(query: string, searchType: string, now: int, response: FetchResult)
      returns (r: Outcome<seq<Book>>)
      modifies this
      ensures r == MapOutcome(old(AllBooksOutcome(now, response)), books => Search(books, query, searchType))
      ensures CacheAfterFetchAll(now, response)
    {
      var books, _ := FetchAllBooks(now, response);
      r := MapOutcome(books, books => Search(books, query, searchType));
    }

    /** `getBooksByLanguage(language)`. */
    method GetBooksByLanguage(language: JsStr, now: int, response: FetchResult)
      returns (r: Outcome<seq<Book>>)
      modifies this
      ensures r == MapOutcome(old(AllBooksOutcome(now, response)), books => BooksByLanguage(books, language))
      ensures CacheAfterFetchAll(now, response)
    {
      var books, _ := FetchAllBooks(now, response);
      r := MapOutcome(books, books => BooksByLanguage(books, language));
    }

    /** `getBooksByAuthor(author)`. */
    method GetBooksByAuthor(author: JsStr, now: int, response: FetchResult)
      returns (r: Outcome<seq<Book>>)
      modifies this
      ensures r == MapOutcome(old(AllBooksOutcome(now, response)), books => BooksByAuthor(books, author))
      ensures CacheAfterFetchAll(now, response)
    {
      var books, _ := FetchAllBooks(now, response);
      r := MapOutcome(books, books => BooksByAuthor(books, author));
    }

    /** `getAvailableLanguages()`. */
    method GetAvailableLanguages(now: int, response: FetchResult) returns (r: Outcome<seq<string>>)
      modifies this
      ensures r == MapOutcome(old(AllBooksOutcome(now, response)), AvailableLanguages)
      ensures CacheAfterFetchAll(now, response)
    {
      var books, _ := FetchAllBooks(now, response);
      r := MapOutcome(books, AvailableLanguages);
    }

    /** `getAvailableAuthors()`. */
    method GetAvailableAuthors(now: int, response: FetchResult) returns (r: Outcome<seq<string>>)
      modifies this
      ensures r == MapOutcome(old(AllBooksOutcome(now, response)), AvailableAuthors)
      ensures CacheAfterFetchAll(now, response)
    {
      var books, _ := FetchAllBooks(now, response);
      r := MapOutcome(books, AvailableAuthors);
    }

    /** `getAvailableSKUs()`. */
    method GetAvailableSkus(now: int, response: FetchResult) returns (r: Outcome<seq<string>>)
      modifies this
      ensures r == MapOutcome(old(AllBooksOutcome(now, response)), AvailableSkus)
      ensures CacheAfterFetchAll(now, response)
    {
      var books, _ := FetchAllBooks(now, response);
      r := MapOutcome(books, AvailableSkus);
    }
  }

  // ---------------------------------------------------------------------------------
  // Freshness

  /**
   * A catalogue stored at `t0` is served from the cache until just before `t0 + 30 min`:
   * still at `t0 + 29 min`, no longer at `t0 + 31 min`.
   */
  lemma FreshForThirtyMinutes(store: BookStore, t0: int, now: int)
    requires store.booksData.Some? && store.booksDataTimestamp == Some(t0)
    ensures store.ServesFromCache(now) <==> now < t0 + 30 * 60 * 1000
    ensures store.ServesFromCache(t0 + 29 * 60 * 1000)
    ensures !store.ServesFromCache(t0 + 31 * 60 * 1000)
  {
  }

  // ---------------------------------------------------------------------------------
  // Search

  /** `field?.toLowerCase().includes(lowerQuery)`: a missing field never matches. */
  predicate FieldIncludes(field: JsStr, lowerQuery: string) {
    field.Str? && Includes(Lower(field.s), lowerQuery)
  }

  /** The `switch (searchType)` of `searchBooks`; 'all' and any unknown type try every field. */
  predicate MatchesSearch(b: Book, lowerQuery: string, searchType: string) {
    if searchType == "title" then FieldIncludes(b.Title, lowerQuery)
    else if searchType == "author" then FieldIncludes(b.Author, lowerQuery)
    else if searchType == "language" then FieldIncludes(b.Language, lowerQuery)
    else
      || FieldIncludes(b.Title, lowerQuery)
      || FieldIncludes(b.Author, lowerQuery)
      || FieldIncludes(b.Language, lowerQuery)
      || FieldIncludes(b.SKU, lowerQuery)
  }

  /**
   * The filtering step of `searchBooks`: an empty query returns the whole catalogue;
   * otherwise exactly the records that match the lowercased query, in catalogue order.
   */
  function Search(books: seq<Book>, query: string, searchType: string): (r: seq<Book>)
    ensures query == "" ==> r == books
    ensures query != "" ==> forall i :: 0 <= i < |r| ==> r[i] in books && MatchesSearch(r[i], Lower(query), searchType)
    ensures query != "" ==> forall i :: 0 <= i < |books| && MatchesSearch(books[i], Lower(query), searchType) ==> books[i] in r
    ensures query != "" ==> forall b :: multiset(r)[b] == if MatchesSearch(b, Lower(query), searchType) then multiset(books)[b] else 0
  {
    if query == "" then books
    else
      var matches := b => MatchesSearch(b, Lower(query), searchType);
      FilterCounts(books, matches);
      Filter(books, matches)
  }

  lemma SearchKeepsOrder(books: seq<Book>, query: string, searchType: string)
    ensures SubsequenceOf(Search(books, query, searchType), books)
  {
    if query == "" {
      SubsequenceOfSelf(books);
    } else {
      FilterIsSubsequence(books, b => MatchesSearch(b, Lower(query), searchType));
    }
  }

  /** With an unknown search type, a record matches exactly when some one-field search would match it or its SKU matches. */
  lemma UnknownSearchTypeSearchesAllFields(b: Book, lowerQuery: string, searchType: string)
    requires searchType !in {"title", "author", "language"}
    ensures MatchesSearch(b, lowerQuery, searchType) <==>
      MatchesSearch(b, lowerQuery, "title") || MatchesSearch(b, lowerQuery, "author")
      || MatchesSearch(b, lowerQuery, "language") || FieldIncludes(b.SKU, lowerQuery)
  {
  }

  // ---------------------------------------------------------------------------------
  // Listing helpers

  /** `books.filter(book => book.Language === language)`. */
  function BooksByLanguage(books: seq<Book>, language: JsStr): (r: seq<Book>)
    ensures forall i :: 0 <= i < |r| ==> r[i] in books && r[i].Language == language
    ensures forall i :: 0 <= i < |books| && books[i].Language == language ==> books[i] in r
    ensures forall b :: multiset(r)[b] == if b.Language == language then multiset(books)[b] else 0
  {
    var same := (b: Book) => b.Language == language;
    FilterCounts(books, same);
    Filter(books, same)
  }

  /** `books.filter(book => book.Author === author)`. */
  function BooksByAuthor(books: seq<Book>, author: JsStr): (r: seq<Book>)
    ensures forall i :: 0 <= i < |r| ==> r[i] in books && r[i].Author == author
    ensures forall i :: 0 <= i < |books| && books[i].Author == author ==> books[i] in r
    ensures forall b :: multiset(r)[b] == if b.Author == author then multiset(books)[b] else 0
  {
    var same := (b: Book) => b.Author == author;
    FilterCounts(books, same);
    Filter(books, same)
  }

  /** `filter` keeps catalogue order: the records of one language appear as they do in the catalogue. */
  lemma BooksByLanguageKeepsOrder(books: seq<Book>, language: JsStr)
    ensures SubsequenceOf(BooksByLanguage(books, language), books)
  {
    FilterIsSubsequence(books, (b: Book) => b.Language == language);
  }

  /** `filter` keeps catalogue order: the records of one author appear as they do in the catalogue. */
  lemma BooksByAuthorKeepsOrder(books: seq<Book>, author: JsStr)
    ensures SubsequenceOf(BooksByAuthor(books, author), books)
  {
    FilterIsSubsequence(books, (b: Book) => b.Author == author);
  }

  /** `values.filter(Boolean)`, as strings: the non-empty strings, in order. */
  function TruthyStrings(values: seq<JsStr>): (r: seq<string>)
    ensures |r| <= |values|
    ensures forall i :: 0 <= i < |r| ==> r[i] != "" && Str(r[i]) in values
    ensures forall i :: 0 <= i < |values| && Truthy(values[i]) ==> values[i].s in r
  {
    if values == [] then []
    else (if Truthy(values[0]) then [values[0].s] else []) + TruthyStrings(values[1..])
  }

  /** Dropping the falsy values commutes with concatenation, so the survivors keep their order. */
  lemma {:induction false} TruthyStringsAppend(a: seq<JsStr>, b: seq<JsStr>)
    ensures TruthyStrings(a + b) == TruthyStrings(a) + TruthyStrings(b)
  {
    if a != [] {
      assert (a + b)[1..] == a[1..] + b;
      TruthyStringsAppend(a[1..], b);
    } else {
      assert a + b == b;
    }
  }

  /** `[...new Set(values.filter(Boolean))].sort()`. */
  function DistinctSorted(values: seq<JsStr>): (r: seq<string>)
    ensures StrictlySorted(r)
    ensures forall x :: x in r <==> x in TruthyStrings(values)
  {
    var t := TruthyStrings(values);
    var d := Dedup(t);
    SortDistinct(d);
    DedupMembers(t);
    Sort(d)
  }

  lemma DedupMembers(t: seq<string>)
    ensures forall x :: x in Dedup(t) <==> x in t
  {
    var d := Dedup(t);
    forall x ensures x in d <==> x in t {
      if x in d {
        var k :| 0 <= k < |d| && d[k] == x;
      }
      if x in t {
        var k :| 0 <= k < |t| && t[k] == x;
      }
    }
  }

  /** The strings `DistinctSorted` can return: the truthy values, and only those. */
  lemma DistinctSortedMembers(values: seq<JsStr>, x: string)
    ensures x in DistinctSorted(values) <==> x != "" && Str(x) in values
  {
    var t := TruthyStrings(values);
    if x in t {
      var k :| 0 <= k < |t| && t[k] == x;
    }
    if x != "" && Str(x) in values {
      var k :| 0 <= k < |values| && values[k] == Str(x);
      assert Truthy(values[k]);
    }
  }

  /** `getAvailableLanguages`: each non-empty language once, in ascending code-unit order. */
  function AvailableLanguages(books: seq<Book>): (r: seq<string>)
    ensures StrictlySorted(r)
    ensures forall s :: s in r <==> s != "" && exists i :: 0 <= i < |books| && books[i].Language == Str(s)
  {
    var r := DistinctSorted(Languages(books));
    forall s ensures s in r <==> s != "" && exists i :: 0 <= i < |books| && books[i].Language == Str(s) {
      DistinctSortedMembers(Languages(books), s);
    }
    r
  }

  /** `getAvailableAuthors`: each non-empty author once, in ascending code-unit order. */
  function AvailableAuthors(books: seq<Book>): (r: seq<string>)
    ensures StrictlySorted(r)
    ensures forall s :: s in r <==> s != "" && exists i :: 0 <= i < |books| && books[i].Author == Str(s)
  {
    var r := DistinctSorted(Authors(books));
    forall s ensures s in r <==> s != "" && exists i :: 0 <= i < |books| && books[i].Author == Str(s) {
      DistinctSortedMembers(Authors(books), s);
    }
    r
  }

  /** `getAvailableSKUs`: the non-empty SKUs in catalogue order, repeats kept. */
  function AvailableSkus(books: seq<Book>): (r: seq<string>)
    ensures r == TruthyStrings(Skus(books))
    ensures |r| <= |books|
    ensures forall s :: s in r <==> s != "" && exists i :: 0 <= i < |books| && books[i].SKU == Str(s)
  {
    var r := TruthyStrings(Skus(books));
    assert forall s :: s in r ==> exists i :: 0 <= i < |books| && books[i].SKU == Str(s) by {
      forall s | s in r ensures exists i :: 0 <= i < |books| && books[i].SKU == Str(s) {
        var i :| 0 <= i < |Skus(books)| && Skus(books)[i] == Str(s);
      }
    }
    r
  }

  /** The SKUs of two catalogues listed one after the other: order and repeated SKUs are kept. */
  lemma AvailableSkusAppend(a: seq<Book>, b: seq<Book>)
    ensures AvailableSkus(a + b) == AvailableSkus(a) + AvailableSkus(b)
  {
    assert Skus(a + b) == Skus(a) + Skus(b);
    TruthyStringsAppend(Skus(a), Skus(b));
  }
}
