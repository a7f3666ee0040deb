/**
 * The link helpers of the catalogue: the public address of a book's detail page, the
 * in-app route to it, the share links for social platforms, the QR-code link and the
 * detail link with extra query parameters.
 */
module BookLinks {
  import opened Wrappers
  import opened JsStrings
  import opened Books
  import opened UriEncoding

  /** The public site every shared link points at. */
  const ProductionDomain := "https://www.vridhamma.org"

  /** The path prefix of the detail route `/bookDetail/:sku`. */
  const DetailPrefix := "/bookDetail/"

  /** The detail route with `sku` as its one path parameter. */
  function BookDetailRoute(sku: string): (route: string)
    ensures sku == "" <==> route == ""
    ensures sku != "" ==> DetailPrefix <= route && route[|DetailPrefix|..] == sku
  {
    if sku == "" then "" else DetailPrefix + sku
  }

  /** The absolute address of the detail page: the production site followed by the route. */
  function BookDetailUrl(sku: string): (url: string)
    ensures sku == "" <==> url == ""
    ensures sku != "" ==> url == ProductionDomain + BookDetailRoute(sku)
  {
    if sku == "" then "" else ProductionDomain + "/bookDetail/" + sku
  }

  /**
   * The `:sku` parameter the router reads from a path name: the single segment after
   * the detail prefix, taken as it is (the router's percent-decoding is not modelled).
   */
  function SkuParam(pathname: string): (sku: Option<string>)
    ensures sku.Some? ==> DetailPrefix + sku.value == pathname && sku.value != "" && '/' !in sku.value
  {
    if DetailPrefix <= pathname && |pathname| > |DetailPrefix| && '/' !in pathname[|DetailPrefix|..]
    then Some(pathname[|DetailPrefix|..])
    else None
  }

  /**
   * The route of a SKU leads the router back to that very SKU when the SKU holds none of
   * the characters the router splits off ('/', '?', '#') or decodes ('%').
   */
  lemma RouteRoundTrip(sku: string)
    requires sku != "" && '/' !in sku && '?' !in sku && '#' !in sku && '%' !in sku
    ensures SkuParam(BookDetailRoute(sku)) == Some(sku)
  {
  }

  /** The QR code encodes the detail page address itself. */
  function QrCodeUrl(sku: string): (url: string)
    ensures sku == "" <==> url == ""
    ensures sku != "" ==> url == ProductionDomain + BookDetailRoute(sku)
  {
    BookDetailUrl(sku)
  }

  /** The share text: the title (or nothing), then ` by ` and the author when there is one. */
  function ShareMessage(book: Book): (message: string)
    ensures !Truthy(book.Title) && !Truthy(book.Author) ==> message == ""
    ensures Truthy(book.Title) ==> book.Title.s <= message
    ensures Truthy(book.Author) ==> |book.Author.s| <= |message| && message[|message| - |book.Author.s|..] == book.Author.s
    ensures var title := if Truthy(book.Title) then book.Title.s else "";
      && (Truthy(book.Author) ==> message == title + " by " + book.Author.s)
      && (!Truthy(book.Author) ==> message == title)
  {
    (if Truthy(book.Title) then book.Title.s else "")
    + (if Truthy(book.Author) then " by " + book.Author.s else "")
  }

  /** The keys of the object `getShareUrls` returns. */
  datatype Platform = Facebook | Twitter | WhatsApp | Email | LinkedIn | Pinterest | Reddit

  /** The platforms `getShareUrls` offers, in the order its object lists them. */
  const SharePlatforms := [Facebook, Twitter, WhatsApp, Email, LinkedIn, Pinterest, Reddit]

  /**
   * `getShareUrls(book)`: nothing for a missing book or one without a SKU, otherwise one
   * link per platform built around the page address and the share message.
   */
  function ShareUrls(book: Option<Book>): (urls: seq<(Platform, string)>)
    ensures urls == [] <==> book.None? || !Truthy(book.value.SKU)
    ensures urls != [] ==> |urls| == |SharePlatforms| && forall i :: 0 <= i < |urls| ==> urls[i].0 == SharePlatforms[i]
  {
    if book.None? || !Truthy(book.value.SKU) then []
    else ShareLinks(BookDetailUrl(book.value.SKU.s), ShareMessage(book.value))
  }

  /** The seven share links for a page address and a share message. */
  function ShareLinks(pageUrl: string, message: string): (links: seq<(Platform, string)>)
    ensures |links| == |SharePlatforms| && forall i :: 0 <= i < |links| ==> links[i].0 == SharePlatforms[i]
  {
    var encodedUrl := EncodeUriComponent(pageUrl);
    var encodedMessage := EncodeUriComponent(message);
    [ (Facebook, FacebookShare(encodedUrl)),
      (Twitter, TwitterShare(encodedUrl, encodedMessage)),
      (WhatsApp, WhatsAppShare(encodedUrl, encodedMessage)),
      (Email, EmailShare(pageUrl, encodedMessage)),
      (LinkedIn, LinkedInShare(encodedUrl)),
      (Pinterest, PinterestShare(encodedUrl, encodedMessage)),
      (Reddit, RedditShare(encodedUrl, encodedMessage)) ]
  }

  // The link templates of the seven platforms, filled with the encoded address and message.

  function FacebookShare(encodedUrl: string): string {
    "https://www.facebook.com/sharer/sharer.php?u=" + encodedUrl
  }

  function TwitterShare(encodedUrl: string, encodedMessage: string): string {
    "https://twitter.com/intent/tweet?url=" + encodedUrl + "&text=" + encodedMessage
  }

  function WhatsAppShare(encodedUrl: string, encodedMessage: string): string {
    "https://wa.me/?text=" + encodedMessage + "%0A" + encodedUrl
  }

  function EmailShare(pageUrl: string, encodedMessage: string): string {
    "mailto:?subject=" + encodedMessage + "&body=Check out this book:%0A" + pageUrl
  }

  function LinkedInShare(encodedUrl: string): string {
    "https://www.linkedin.com/sharing/share-offsite/?url=" + encodedUrl
  }

  function PinterestShare(encodedUrl: string, encodedMessage: string): string {
    "https://pinterest.com/pin/create/button/?url=" + encodedUrl + "&description=" + encodedMessage
  }

  function RedditShare(encodedUrl: string, encodedMessage: string): string {
    "https://reddit.com/submit?url=" + encodedUrl + "&title=" + encodedMessage
  }

  /** A parameter name that `encodeURIComponent` leaves as it is, as every name of the share links is. */
  predicate PlainWord(w: string) {
    forall i :: 0 <= i < |w| ==> Unreserved(w[i])
  }

  lemma ParameterNamesArePlain()
    ensures PlainWord("u") && PlainWord("url") && PlainWord("text")
    ensures PlainWord("description") && PlainWord("title") && PlainWord("ref")
  {
  }

  lemma SubjectIsPlain()
    ensures PlainWord("subject")
  {
  }

  lemma Reassociate1(template: string, base: string, k: string, x: string)
    requires template == base + "?" + k + "="
    ensures template + x == base + "?" + (k + "=" + x)
  {
  }

  lemma Reassociate2(template: string, middle: string, base: string, k1: string, k2: string, x: string, y: string)
    requires template == base + "?" + k1 + "=" && middle == "&" + k2 + "="
    ensures template + x + middle + y == base + "?" + (k1 + "=" + x + "&" + k2 + "=" + y)
  {
  }

  /** A link template `base?k=` followed by an encoded value is `base` with the query `k=v`. */
  lemma OneParamTemplate(template: string, base: string, k: string, v: string)
    requires template == base + "?" + k + "=" && PlainWord(k)
    ensures template + EncodeUriComponent(v) == WithQuery(base, [(k, v)])
  {
    EncodeUnreservedIsIdentity(k);
    QueryStringSingle((k, v));
    Reassociate1(template, base, k, EncodeUriComponent(v));
  }

  /** A link template `base?k1=` … `&k2=` … with encoded values is `base` with the query `k1=v1&k2=v2`. */
  lemma TwoParamTemplate(template: string, middle: string, base: string, k1: string, k2: string, v1: string, v2: string)
    requires template == base + "?" + k1 + "=" && middle == "&" + k2 + "="
    requires PlainWord(k1) && PlainWord(k2)
    ensures template + EncodeUriComponent(v1) + middle + EncodeUriComponent(v2) == WithQuery(base, [(k1, v1), (k2, v2)])
  {
    Reassociate2(template, middle, base, k1, k2, EncodeUriComponent(v1), EncodeUriComponent(v2));
    PlainPairQuery(k1, k2, v1, v2);
  }

  lemma PlainPairQuery(k1: string, k2: string, v1: string, v2: string)
    requires PlainWord(k1) && PlainWord(k2)
    ensures k1 + "=" + EncodeUriComponent(v1) + "&" + k2 + "=" + EncodeUriComponent(v2) == QueryString([(k1, v1), (k2, v2)])
  {
    EncodeUnreservedIsIdentity(k1);
    EncodeUnreservedIsIdentity(k2);
    QueryStringPair((k1, v1), (k2, v2));
  }

  // Every share link except the e-mail one is a query string in the sense of
  // `getBookDetailUrlWithParams`: the platform's endpoint, '?', and the page address and
  // share message as encoded parameters, so the platform reads them back intact.

  lemma FacebookLinkIsQuery(page: string, message: string)
    ensures ShareLinks(page, message)[0].1 == WithQuery("https://www.facebook.com/sharer/sharer.php", [("u", page)])
  {
    assert ShareLinks(page, message)[0].1 == FacebookShare(EncodeUriComponent(page));
    ParameterNamesArePlain();
    OneParamTemplate("https://www.facebook.com/sharer/sharer.php?u=", "https://www.facebook.com/sharer/sharer.php", "u", page);
  }

  lemma TwitterLinkIsQuery(page: string, message: string)
    ensures ShareLinks(page, message)[1].1 == WithQuery("https://twitter.com/intent/tweet", [("url", page), ("text", message)])
  {
    assert ShareLinks(page, message)[1].1 == TwitterShare(EncodeUriComponent(page), EncodeUriComponent(message));
    ParameterNamesArePlain();
    TwoParamTemplate("https://twitter.com/intent/tweet?url=", "&text=", "https://twitter.com/intent/tweet", "url", "text", page, message);
  }

  /** The WhatsApp text is the message and the address on two lines, encoded as one value. */
  lemma WhatsAppLinkIsQuery(page: string, message: string)
    ensures ShareLinks(page, message)[2].1 == WithQuery("https://wa.me/", [("text", TwoLines(message, page))])
  {
    assert ShareLinks(page, message)[2].1 == WhatsAppShare(EncodeUriComponent(page), EncodeUriComponent(message));
    WhatsAppText(page, message);
    WhatsAppQuery(TwoLines(message, page));
  }

  lemma WhatsAppQuery(text: string)
    ensures "https://wa.me/?text=" + EncodeUriComponent(text) == WithQuery("https://wa.me/", [("text", text)])
  {
    ParameterNamesArePlain();
    OneParamTemplate("https://wa.me/?text=", "https://wa.me/", "text", text);
  }

  lemma LinkedInLinkIsQuery(page: string, message: string)
    ensures ShareLinks(page, message)[4].1 == WithQuery("https://www.linkedin.com/sharing/share-offsite/", [("url", page)])
  {
    assert ShareLinks(page, message)[4].1 == LinkedInShare(EncodeUriComponent(page));
    ParameterNamesArePlain();
    OneParamTemplate("https://www.linkedin.com/sharing/share-offsite/?url=", "https://www.linkedin.com/sharing/share-offsite/", "url", page);
  }

  lemma PinterestLinkIsQuery(page: string, message: string)
    ensures ShareLinks(page, message)[5].1 == WithQuery("https://pinterest.com/pin/create/button/", [("url", page), ("description", message)])
  {
    assert ShareLinks(page, message)[5].1 == PinterestShare(EncodeUriComponent(page), EncodeUriComponent(message));
    PinterestQueryFor("url", "description", page, message);
  }

  /** The Pinterest template with the parameter names passed in, so their encoding is not evaluated. */
  lemma PinterestQueryFor(k1: string, k2: string, page: string, message: string)
    requires k1 == "url" && k2 == "description"
    ensures PinterestShare(EncodeUriComponent(page), EncodeUriComponent(message))
         == WithQuery("https://pinterest.com/pin/create/button/", [(k1, page), (k2, message)])
  {
    ParameterNamesArePlain();
    TwoParamTemplate("https://pinterest.com/pin/create/button/?url=", "&description=", "https://pinterest.com/pin/create/button/", k1, k2, page, message);
  }

  lemma RedditLinkIsQuery(page: string, message: string)
    ensures ShareLinks(page, message)[6].1 == WithQuery("https://reddit.com/submit", [("url", page), ("title", message)])
  {
    assert ShareLinks(page, message)[6].1 == RedditShare(EncodeUriComponent(page), EncodeUriComponent(message));
    ParameterNamesArePlain();
    TwoParamTemplate("https://reddit.com/submit?url=", "&title=", "https://reddit.com/submit", "url", "title", page, message);
  }

  /** The WhatsApp link's hand-written `%0A` is the encoding of a line feed. */
  lemma WhatsAppText(page: string, message: string)
    ensures WhatsAppShare(EncodeUriComponent(page), EncodeUriComponent(message))
         == "https://wa.me/?text=" + EncodeUriComponent(TwoLines(message, page))
  {
    var m, u := EncodeUriComponent(message), EncodeUriComponent(page);
    calc {
      WhatsAppShare(u, m);
      "https://wa.me/?text=" + m + "%0A" + u;
      "https://wa.me/?text=" + (m + "%0A" + u);
      { EncodeTwoLines(message, page); }
      "https://wa.me/?text=" + EncodeUriComponent(TwoLines(message, page));
    }
  }

  /** The e-mail body as the link carries it: the text, an encoded line feed, then the address unencoded. */
  function EmailBody(page: string): string {
    "body=Check out this book:%0A" + page
  }

  /** The e-mail template, cut at the '&' that starts the body. */
  lemma EmailShareAtBody(page: string, encodedMessage: string)
    ensures EmailShare(page, encodedMessage) == "mailto:?subject=" + encodedMessage + ['&'] + EmailBody(page)
  {
  }

  /** `mailto:` followed by a one-parameter query, for a parameter name `encodeURIComponent` leaves alone. */
  lemma MailtoQuery(k: string, message: string)
    requires PlainWord(k)
    ensures "mailto:" + WithQuery("", [(k, message)]) == "mailto:?" + k + "=" + EncodeUriComponent(message)
  {
    OneParamTemplate("?" + k + "=", "", k, message);
  }

  /** `mailto:` followed by a query holding only the subject. */
  lemma SubjectQuery(message: string)
    ensures "mailto:" + WithQuery("", [("subject", message)]) == "mailto:?subject=" + EncodeUriComponent(message)
  {
    SubjectQueryFor("subject", message);
  }

  /**
   * `SubjectQuery` with the parameter name passed in, which keeps the verifier from
   * evaluating the encoding of the literal name.
   */
  lemma SubjectQueryFor(k: string, message: string)
    requires k == "subject"
    ensures "mailto:" + WithQuery("", [(k, message)]) == "mailto:?subject=" + EncodeUriComponent(message)
  {
    SubjectIsPlain();
    MailtoQuery(k, message);
    SubjectPrefix(k);
  }

  lemma SubjectPrefix(k: string)
    requires k == "subject"
    ensures "mailto:?" + k + "=" == "mailto:?subject="
  {
  }

  /** A link without '&' in either half splits at the one '&' between them. */
  lemma SplitTwo(head: string, tail: string)
    requires '&' !in head && '&' !in tail
    ensures Split(head + "&" + tail, '&') == [head, tail]
  {
    assert head + "&" + tail == head + ['&'] + tail;
    SplitAtFirstSeparator(head, tail, '&');
    SplitWithoutSeparator(tail, '&');
  }

  /**
   * The e-mail link is a `mailto:` address whose query starts with the `subject` parameter,
   * the message encoded, followed by a body that is not encoded.
   */
  lemma EmailLinkIsQuery(page: string, message: string)
    ensures ShareLinks(page, message)[3].1 == "mailto:" + WithQuery("", [("subject", message)]) + "&" + EmailBody(page)
  {
    assert ShareLinks(page, message)[3].1 == EmailShare(page, EncodeUriComponent(message));
    EmailShareAtBody(page, EncodeUriComponent(message));
    SubjectQuery(message);
  }

  /**
   * An address without '&' or '#' comes through whole: the link has no fragment and splits at
   * '&' into the subject query and the body holding the plain address.
   */
  lemma EmailBodyCarriesPlainAddress(page: string, message: string)
    requires '&' !in page && '#' !in page
    ensures '#' !in ShareLinks(page, message)[3].1
    ensures Split(ShareLinks(page, message)[3].1, '&') == ["mailto:" + WithQuery("", [("subject", message)]), EmailBody(page)]
  {
    EmailLinkIsQuery(page, message);
    SubjectQuery(message);
    SubjectHasNoMarkers(message);
    BodyHasNoMarkers(page);
    SplitTwo("mailto:?subject=" + EncodeUriComponent(message), EmailBody(page));
  }

  /** The subject half of the e-mail link holds no '&' and no '#'. */
  lemma SubjectHasNoMarkers(message: string)
    ensures '&' !in "mailto:?subject=" + EncodeUriComponent(message)
    ensures '#' !in "mailto:?subject=" + EncodeUriComponent(message)
  {
    EncodedHasNoSeparators(message);
    assert '&' !in "mailto:?subject=" && '#' !in "mailto:?subject=";
  }

  /** The body adds no '&' and no '#' of its own to the address. */
  lemma BodyHasNoMarkers(page: string)
    ensures '&' in EmailBody(page) <==> '&' in page
    ensures '#' in EmailBody(page) <==> '#' in page
  {
    assert '&' !in "body=Check out this book:%0A" && '#' !in "body=Check out this book:%0A";
  }

  /**
   * An address holding '&' is cut short: the link splits into the subject, a body ending
   * where the address's '&' stands, and the rest of the address as a further piece.
   */
  lemma EmailBodyCutByAmpersand(x: string, y: string, message: string)
    requires '&' !in x && '&' !in y
    ensures Split(ShareLinks(x + "&" + y, message)[3].1, '&')
         == ["mailto:" + WithQuery("", [("subject", message)]), EmailBody(x), y]
  {
    EmailLinkIsQuery(x + "&" + y, message);
    SubjectQuery(message);
    SubjectHasNoMarkers(message);
    BodyHasNoMarkers(x);
    BodyCut(x, y);
    SplitThree("mailto:?subject=" + EncodeUriComponent(message), EmailBody(x), y);
  }

  lemma BodyCut(x: string, y: string)
    ensures EmailBody(x + "&" + y) == EmailBody(x) + "&" + y
  {
  }

  /** Three pieces without '&', joined by '&', split back into those pieces. */
  lemma SplitThree(a: string, b: string, c: string)
    requires '&' !in a && '&' !in b && '&' !in c
    ensures Split(a + "&" + (b + "&" + c), '&') == [a, b, c]
  {
    assert a + "&" + (b + "&" + c) == a + ['&'] + (b + "&" + c);
    SplitAtFirstSeparator(a, b + "&" + c, '&');
    SplitTwo(b, c);
  }

  /**
   * `getBookDetailUrlWithParams(sku, params)`: the detail address, followed by the query
   * string when `params` is present and not empty (`None` is `null`).
   */
  function BookDetailUrlWithParams(sku: string, params: Option<seq<(string, string)>>): (url: string)
    ensures params.None? || params.value == [] ==> url == BookDetailUrl(sku)
    ensures params.Some? ==> url == WithQuery(BookDetailUrl(sku), params.value)
  {
    var baseUrl := BookDetailUrl(sku);
    if params.None? || |params.value| == 0 then baseUrl
    else baseUrl + "?" + QueryString(params.value)
  }

  /**
   * For a SKU without '?', the address with parameters splits at '?' into the plain
   * detail address and a query string holding each parameter, encoded, in order.
   */
  lemma UrlWithParamsSplits(sku: string, params: seq<(string, string)>)
    requires '?' !in sku && params != []
    ensures var parts := Split(BookDetailUrlWithParams(sku, Some(params)), '?');
      && parts == [BookDetailUrl(sku), QueryString(params)]
      && |Split(parts[1], '&')| == |params|
      && forall i :: 0 <= i < |params| ==>
        Split(Split(parts[1], '&')[i], '=') == [EncodeUriComponent(params[i].0), EncodeUriComponent(params[i].1)]
  {
    assert '?' !in ProductionDomain + "/bookDetail/";
    WithQuerySplits(BookDetailUrl(sku), params);
    QueryStringSplits(params);
  }

  /**
   * A link built without `window.location.origin` still opens the page the in-app route
   * opens: the address is the production site followed by the route.
   */
  lemma {:induction false} UrlWithoutParamsIsRoute(sku: string)
    requires sku != ""
    ensures BookDetailUrlWithParams(sku, Some([])) == ProductionDomain + BookDetailRoute(sku)
    ensures BookDetailUrlWithParams(sku, None) == ProductionDomain + BookDetailRoute(sku)
  {
  }
}
