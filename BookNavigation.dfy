/**
 * The navigation hook: going to a book's detail page after checking that its SKU exists,
 * and building share links on the site the app is served from.
 * `window.location.origin` is the parameter `origin`; `navigate` is modelled by the
 * `Navigation` the operation returns.
 */
module BookNavigation {
  import opened Wrappers
  import opened JsStrings
  import opened Books
  import opened UriEncoding
  import opened BookLinks
  import opened BookApi

  /** `getShareLink(sku, params)` on the site `origin`: nothing for an empty SKU. */
  function ShareLink(origin: string, sku: string, params: seq<(string, string)>): (url: string)
    ensures sku == "" ==> url == ""
    ensures sku != "" ==> url == WithQuery(origin + BookDetailRoute(sku), params)
  {
    if sku == "" then ""
    else
      var url := origin + DetailPrefix + sku;
      assert url == origin + BookDetailRoute(sku);
      if |params| > 0 then url + "?" + QueryString(params) else url
  }

  /** On the production site, the hook's share link and `getBookDetailUrlWithParams` agree. */
  lemma {:induction false} ShareLinkOnProductionSite(sku: string, params: seq<(string, string)>)
    requires sku != ""
    ensures ShareLink(ProductionDomain, sku, params) == BookDetailUrlWithParams(sku, Some(params))
  {
    assert ProductionDomain + "/bookDetail/" + sku == ProductionDomain + BookDetailRoute(sku);
  }

  /** The `platform` argument after its default: an absent one is 'direct', any other is coerced. */
  function TrackingSource(platform: JsStr): (source: string)
    ensures platform.Undefined? ==> source == "direct"
    ensures platform.Str? ==> source == platform.s
  {
    if platform.Undefined? then "direct" else ToJsString(platform)
  }

  /** The keys and fixed values of the tracking parameters. */
  const TrackingWords := ["utm_source", "utm_medium", "social", "utm_campaign", "book_share"]

  /** The three tracking parameters, in the order the object literal lists them. */
  function TrackingParams(platform: JsStr): (params: seq<(string, string)>)
    ensures |params| == 3
    ensures params[0] == ("utm_source", TrackingSource(platform))
    ensures params[1] == ("utm_medium", "social") && params[2] == ("utm_campaign", "book_share")
  {
    [("utm_source", TrackingSource(platform)), ("utm_medium", "social"), ("utm_campaign", "book_share")]
  }

  /** `getShareLinkWithTracking(sku, platform)`. */
  function ShareLinkWithTracking(origin: string, sku: string, platform: JsStr): (url: string)
    ensures sku == "" ==> url == ""
    ensures sku != "" ==> url == origin + BookDetailRoute(sku) + "?" + QueryString(TrackingParams(platform))
  {
    ShareLink(origin, sku, TrackingParams(platform))
  }

  /** Each tracking parameter reads back as its key and its encoded value; only the source needs encoding. */
  lemma TrackingQuery(platform: JsStr)
    ensures var pieces := Split(QueryString(TrackingParams(platform)), '&');
      && |pieces| == 3
      && Split(pieces[0], '=') == ["utm_source", EncodeUriComponent(TrackingSource(platform))]
      && Split(pieces[1], '=') == ["utm_medium", "social"]
      && Split(pieces[2], '=') == ["utm_campaign", "book_share"]
  {
    TrackingPieces(platform);
    TrackingWordsAreUnreserved();
  }

  lemma TrackingPieces(platform: JsStr)
    ensures var pieces := Split(QueryString(TrackingParams(platform)), '&');
      && |pieces| == 3
      && Split(pieces[0], '=') == [EncodeUriComponent("utm_source"), EncodeUriComponent(TrackingSource(platform))]
      && Split(pieces[1], '=') == [EncodeUriComponent("utm_medium"), EncodeUriComponent("social")]
      && Split(pieces[2], '=') == [EncodeUriComponent("utm_campaign"), EncodeUriComponent("book_share")]
  {
    QueryStringSplits(TrackingParams(platform));
  }

  lemma TrackingWordsAreUnreserved()
    ensures forall w | w in TrackingWords :: EncodeUriComponent(w) == w
  {
    forall w | w in TrackingWords ensures EncodeUriComponent(w) == w {
      EncodeUnreservedIsIdentity(w);
    }
  }

  /**
   * A tracked share link on a site and for a SKU without '?' splits at '?' into the
   * detail address and the three tracking parameters.
   */
  lemma TrackedLinkParameters(origin: string, sku: string, platform: JsStr)
    requires sku != "" && '?' !in origin && '?' !in sku
    ensures Split(ShareLinkWithTracking(origin, sku, platform), '?')
         == [origin + BookDetailRoute(sku), QueryString(TrackingParams(platform))]
  {
    assert '?' !in origin + BookDetailRoute(sku);
    WithQuerySplits(origin + BookDetailRoute(sku), TrackingParams(platform));
  }

  // ---------------------------------------------------------------------------------
  // goToBook

  /** The `options` of `goToBook`; an absent `options` object is `NavigateOptions(false, false, Undefined)`. */
  datatype NavigateOptions = NavigateOptions(withState: bool, replace: bool, ref: JsStr)

  /** One call of `navigate(path, { replace, state })`; `state` is `None` for `undefined`. */
  datatype Navigation = Navigation(path: string, replace: bool, state: Option<Book>)

  /** The path `goToBook` navigates to: the route, and `?ref=` with the encoded referrer when there is one. */
  function NavigationPath(sku: string, ref: JsStr): (path: string)
    ensures DetailPrefix <= path
  {
    "/bookDetail/" + sku + (if Truthy(ref) then "?ref=" + EncodeUriComponent(ref.s) else "")
  }

  /** The referrer as query parameters: one `ref` parameter, or none for a falsy referrer. */
  function RefParams(ref: JsStr): (params: seq<(string, string)>)
    ensures Truthy(ref) ==> params == [("ref", ref.s)]
    ensures !Truthy(ref) <==> params == []
  {
    if Truthy(ref) then [("ref", ref.s)] else []
  }

  /** The navigation path is the detail route with the referrer as its query. */
  lemma {:induction false} NavigationPathIsRouteWithQuery(sku: string, ref: JsStr)
    requires sku != ""
    ensures NavigationPath(sku, ref) == WithQuery(BookDetailRoute(sku), RefParams(ref))
  {
    if Truthy(ref) {
      var e := EncodeUriComponent(ref.s);
      assert NavigationPath(sku, ref) == (BookDetailRoute(sku) + "?ref=") + e;
      ParameterNamesArePlain();
      OneParamTemplate(BookDetailRoute(sku) + "?ref=", BookDetailRoute(sku), "ref", ref.s);
    } else {
      assert "/bookDetail/" + sku + "" == BookDetailRoute(sku);
    }
  }

  /**
   * The router opens the detail page of the very SKU `goToBook` was given, whatever the
   * referrer, when the SKU holds no '/', '?', '#' or '%'.
   */
  lemma NavigationOpensSku(sku: string, ref: JsStr)
    requires sku != "" && '/' !in sku && '?' !in sku && '#' !in sku && '%' !in sku
    ensures SkuParam(Split(NavigationPath(sku, ref), '?')[0]) == Some(sku)
  {
    NavigationPathIsRouteWithQuery(sku, ref);
    assert '?' !in BookDetailRoute(sku);
    if Truthy(ref) {
      WithQuerySplits(BookDetailRoute(sku), RefParams(ref));
    } else {
      SplitWithoutSeparator(BookDetailRoute(sku), '?');
    }
    RouteRoundTrip(sku);
  }

  /**
   * `goToBook(sku, options)`: false for an empty SKU or one `validateSKU` rejects;
   * otherwise one navigation to the detail path, replacing the history entry only when
   * asked, and carrying `{ book }` as state when asked. `validation` is what the
   * catalogue request would give and `validatedAt` the clock after it.
   */
  method GoToBook(store: BookStore, sku: string, options: NavigateOptions, validation: FetchResult, validatedAt: int)
    returns (ok: bool, navigation: Option<Navigation>)
    modifies store
    ensures ok <==> sku != "" && (old(store.CacheHasSku(sku)) || (validation.Fetched? && FindBySku(validation.books, sku).Some?))
    ensures navigation.Some? <==> ok
    ensures ok ==> navigation.value.path == NavigationPath(sku, options.ref) && navigation.value.replace == options.replace
    ensures ok && !options.withState ==> navigation.value.state == None
    ensures ok && options.withState ==>
      store.booksData.Some? && navigation.value.state == FindBySku(store.booksData.value, sku) && navigation.value.state.Some?
    ensures sku == "" || old(store.CacheHasSku(sku)) || !validation.Fetched? ==>
      store.booksData == old(store.booksData) && store.booksDataTimestamp == old(store.booksDataTimestamp)
    ensures sku != "" && !old(store.CacheHasSku(sku)) && validation.Fetched? ==>
      store.booksData == Some(validation.books) && store.booksDataTimestamp == Some(validatedAt)
  {
    if sku == "" {
      return false, None;
    }
    var isValid := store.ValidateSku(sku, validation, validatedAt);
    if !isValid {
      return false, None;
    }
    var path := "/bookDetail/" + sku;
    if Truthy(options.ref) {
      path := path + "?ref=" + EncodeUriComponent(options.ref.s);
    }
    var state := None;
    if options.withState {
      // validateSKU has just left the record in the cache, so this lookup is answered
      // from the cache and the request outcome passed here is never consulted.
      var book, _ := store.FetchBookBySku(sku, validation, validatedAt);
      if book.Resolved? {
        state := Some(book.value);
      }
    }
    navigation := Some(Navigation(path, options.replace, state));
    ok := true;
  }

  /** The referrer `goToBookWithTracking` passes on: 'direct' for an absent source. */
  function Referrer(source: JsStr): (ref: JsStr)
    ensures source.Undefined? ==> ref == Str("direct")
    ensures !source.Undefined? ==> ref == source
  {
    if source.Undefined? then Str("direct") else source
  }

  /** `goToBookWithTracking(sku, source)`: `goToBook` with only a referrer, 'direct' by default. */
  method GoToBookWithTracking(store: BookStore, sku: string, source: JsStr, validation: FetchResult, validatedAt: int)
    returns (ok: bool, navigation: Option<Navigation>)
    modifies store
    ensures ok <==> sku != "" && (old(store.CacheHasSku(sku)) || (validation.Fetched? && FindBySku(validation.books, sku).Some?))
    ensures navigation.Some? <==> ok
    ensures ok ==> navigation.value == Navigation(NavigationPath(sku, Referrer(source)), false, None)
    ensures sku == "" || old(store.CacheHasSku(sku)) || !validation.Fetched? ==>
      store.booksData == old(store.booksData) && store.booksDataTimestamp == old(store.booksDataTimestamp)
    ensures sku != "" && !old(store.CacheHasSku(sku)) && validation.Fetched? ==>
      store.booksData == Some(validation.books) && store.booksDataTimestamp == Some(validatedAt)
  {
    var ref := if source.Undefined? then Str("direct") else source;
    ok, navigation := GoToBook(store, sku, NavigateOptions(false, false, ref), validation, validatedAt);
  }
}
