/** Book records as the catalogue API delivers them, and lookup by SKU. */
module Books {
  import opened Wrappers
  import opened JsStrings

  /**
   * One record of the `/api/get-books-info` payload, restricted to the fields the
   * catalogue logic reads. `Images` is `None` when the field is not an array.
   */
  datatype Book = Book(
    SKU: JsStr,
    Title: JsStr,
    Author: JsStr,
    Language: JsStr,
    ISBN: JsStr,
    Images: Option<seq<string>>)

  /** What `fetch('/api/get-books-info')` followed by `response.json()` produced. */
  datatype FetchResult =
    | Fetched(books: seq<Book>)   // a 2xx response whose body is a JSON array
    | HttpError(status: int)      // a response with `ok` false
    | ParseError                  // the network request or the JSON parse failed

  /** `String(b.SKU) === String(sku)`: SKUs are compared as coerced strings. */
  predicate SkuMatches(b: Book, sku: string) {
    ToJsString(b.SKU) == sku
  }

  /** The index of the first record whose SKU matches, or `|books|` when none does. */
  function FirstSkuIndex(books: seq<Book>, sku: string): (i: nat)
    ensures i <= |books|
    ensures i < |books| ==> SkuMatches(books[i], sku)
    ensures forall k :: 0 <= k < i ==> !SkuMatches(books[k], sku)
  {
    if books == [] then 0
    else if SkuMatches(books[0], sku) then 0
    else 1 + FirstSkuIndex(books[1..], sku)
  }

  /** `books.find(b => String(b.SKU) === String(sku))`. */
  function FindBySku(books: seq<Book>, sku: string): (r: Option<Book>)
    ensures r.None? <==> forall k :: 0 <= k < |books| ==> !SkuMatches(books[k], sku)
    ensures r.Some? ==> r.value in books && SkuMatches(r.value, sku)
  {
    var i := FirstSkuIndex(books, sku);
    if i < |books| then Some(books[i]) else None
  }

  /** The record found is the first match: no earlier record has that SKU. */
  lemma FindBySkuIsFirst(books: seq<Book>, sku: string, k: nat)
    requires k < |books| && SkuMatches(books[k], sku)
    ensures FindBySku(books, sku).Some?
    ensures FindBySku(books, sku).value == books[FirstSkuIndex(books, sku)]
    ensures FirstSkuIndex(books, sku) <= k
  {
  }

  /** A record without a SKU field is found by the string "undefined". */
  lemma MissingSkuMatchesUndefined(b: Book)
    requires b.SKU == Undefined
    ensures FindBySku([b], "undefined") == Some(b)
  {
  }

  /** `books.map(b => b.Language)`. */
  function Languages(books: seq<Book>): (r: seq<JsStr>)
    ensures |r| == |books| && forall i :: 0 <= i < |books| ==> r[i] == books[i].Language
  {
    seq(|books|, i requires 0 <= i < |books| => books[i].Language)
  }

  /** `books.map(b => b.Author)`. */
  function Authors(books: seq<Book>): (r: seq<JsStr>)
    ensures |r| == |books| && forall i :: 0 <= i < |books| ==> r[i] == books[i].Author
  {
    seq(|books|, i requires 0 <= i < |books| => books[i].Author)
  }

  /** `books.map(b => b.SKU)`. */
  function Skus(books: seq<Book>): (r: seq<JsStr>)
    ensures |r| == |books| && forall i :: 0 <= i < |books| ==> r[i] == books[i].SKU
  {
    seq(|books|, i requires 0 <= i < |books| => books[i].SKU)
  }
}
