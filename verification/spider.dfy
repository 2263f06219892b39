/** The `WebSpider` of crawler/spiders/webspider.py: the seed list and its
    comma-separated override, start-request construction with the JavaScript wait
    policy, the domain allow-list, the per-page extraction rules, and the
    discipline that every rendered page handed to a callback is closed again.

    The rendered document is abstracted to the selector results the spider reads
    (`Document`); the screenshot, the random file-name suffix and the file-system
    check are inputs (`Environment`). */
module Spider {

  import opened Base
  import opened Text
  import opened Items
  import opened Http

  const AllowedDomains: seq<string> := [
    "bund.de", "bundestag.de", "euractiv.de", "dw.com", "zdf.de",
    "spiegel.de", "faz.net", "welt.de", "handelsblatt.com", "zeit.de"
  ]

  const DefaultStartUrls: seq<string> := [
    "https://www.bund.de/", "https://www.bundestag.de/", "https://www.euractiv.de/",
    "https://www.dw.com/de/", "https://www.zdf.de/nachrichten/", "https://www.spiegel.de/",
    "https://www.faz.net/", "https://www.welt.de/", "https://www.handelsblatt.com/",
    "https://www.zeit.de/"
  ]

  const JsHeavySites: seq<string> := ["zdf.de", "spiegel.de", "zeit.de"]

  const ScreenshotDir := "screenshots"

  /** At most this many `href`s of a page are looked at. */
  const MaxLinks: nat := 10

  /** The description is cut to this many characters, without an ellipsis. */
  const MaxDescription: nat := 500

  // ---------------------------------------------------------------------------
  // Seed list
  // ---------------------------------------------------------------------------

  /** `[p.strip() for p in parts if p.strip()]`. */
  function StripNonEmpty(parts: seq<string>): (r: seq<string>)
    ensures |r| <= |parts|
    ensures forall i :: 0 <= i < |r| ==> r[i] != "" && Stripped(r[i])
    ensures |parts| == 1 ==> r == (if Strip(parts[0]) == "" then [] else [Strip(parts[0])])
    decreases |parts|
  {
    if |parts| == 0 then []
    else
      var t := Strip(parts[0]);
      (if t == "" then [] else [t]) + StripNonEmpty(parts[1..])
  }

  /** The `url_list` spider argument: split on ',', each entry stripped, blank
      entries dropped, order kept. */
  function ParseUrlList(s: string): (urls: seq<string>)
    ensures forall i :: 0 <= i < |urls| ==> urls[i] != "" && Stripped(urls[i])
    ensures ',' !in s ==> urls == (if Strip(s) == "" then [] else [Strip(s)])
  {
    if ',' !in s then SplitSepFree(s, ','); StripNonEmpty(SplitOn(s, ','))
    else StripNonEmpty(SplitOn(s, ','))
  }

  /** Dropping blanks works entry by entry: the result for a concatenation is the
      concatenation of the results, so order is kept. */
  lemma {:induction false} StripNonEmptyAppend(a: seq<string>, b: seq<string>)
    ensures StripNonEmpty(a + b) == StripNonEmpty(a) + StripNonEmpty(b)
    decreases |a|
  {
    if |a| == 0 {
      assert a + b == b;
    } else {
      assert (a + b)[0] == a[0] && (a + b)[1..] == a[1..] + b;
      StripNonEmptyAppend(a[1..], b);
      var head := if Strip(a[0]) == "" then [] else [Strip(a[0])];
      ConcatAssoc(head, StripNonEmpty(a[1..]), StripNonEmpty(b));
    }
  }

  lemma ConcatAssoc<T>(x: seq<T>, y: seq<T>, z: seq<T>)
    ensures x + (y + z) == (x + y) + z
  {
  }

  /** The override parses one comma-separated entry at a time: the first entry
      (stripped, or dropped when blank) followed by the URLs of the rest. */
  lemma ParseUrlListCons(w: string, rest: string)
    requires ',' !in w
    ensures ParseUrlList(w + [','] + rest) == ParseUrlList(w) + ParseUrlList(rest)
  {
    SplitWordThenSep(w, rest, ',');
    StripNonEmptyAppend([w], SplitOn(rest, ','));
  }

  /** `start_urls` after `__init__`: the override when `url_list` was passed,
      the ten built-in seeds otherwise. */
  function StartUrls(urlList: Option<string>): (urls: seq<string>)
    ensures urlList.None? ==> urls == DefaultStartUrls
    ensures urlList.Some? ==> urls == ParseUrlList(urlList.value)
  {
    match urlList
    case None => DefaultStartUrls
    case Some(s) => ParseUrlList(s)
  }

  lemma {:induction false} StripNonEmptyFixed(urls: seq<string>)
    requires forall i :: 0 <= i < |urls| ==> urls[i] != "" && Stripped(urls[i])
    ensures StripNonEmpty(urls) == urls
    decreases |urls|
  {
    if |urls| > 0 {
      StrippedFixed(urls[0]);
      assert forall i :: 0 <= i < |urls[1..]| ==> urls[1..][i] == urls[i + 1];
      StripNonEmptyFixed(urls[1..]);
      assert [urls[0]] + urls[1..] == urls;
    }
  }

  /** Writing a seed list as a comma-separated override and parsing it back gives
      the same list, in the same order, for any list of non-blank, stripped URLs
      without commas. */
  lemma UrlListRoundTrip(urls: seq<string>)
    requires forall i :: 0 <= i < |urls| ==> urls[i] != "" && Stripped(urls[i]) && ',' !in urls[i]
    ensures ParseUrlList(JoinOn(urls, ',')) == urls
  {
    if |urls| == 0 {
      assert SplitOn("", ',') == [""];
      assert Strip("") == "";
    } else {
      SplitJoin(urls, ',');
      StripNonEmptyFixed(urls);
    }
  }

  lemma StripKeepsCharFree(p: string, c: char)
    requires c !in p
    ensures c !in Strip(p)
  {
    StripFacts(p);
    var r := Strip(p);
    var lo := LeadingSpaces(p);
    forall j | 0 <= j < |r|
      ensures r[j] != c
    {
      assert r[j] == p[lo + j];
    }
  }

  lemma {:induction false} StripNonEmptyCommaFree(parts: seq<string>)
    requires forall k :: 0 <= k < |parts| ==> ',' !in parts[k]
    ensures forall i :: 0 <= i < |StripNonEmpty(parts)| ==> ',' !in StripNonEmpty(parts)[i]
    decreases |parts|
  {
    if |parts| > 0 {
      StripKeepsCharFree(parts[0], ',');
      StripNonEmptyCommaFree(parts[1..]);
    }
  }

  /** Parsing the override is idempotent: re-joining the parsed list with commas
      and parsing again yields the same list. */
  lemma UrlListIdempotent(s: string)
    ensures ParseUrlList(JoinOn(ParseUrlList(s), ',')) == ParseUrlList(s)
  {
    StripNonEmptyCommaFree(SplitOn(s, ','));
    UrlListRoundTrip(ParseUrlList(s));
  }

  // ---------------------------------------------------------------------------
  // Start requests
  // ---------------------------------------------------------------------------

  /** `any(js_site in domain for js_site in js_heavy_sites)`, case-sensitive. */
  function NeedsJs(domain: string): (r: bool)
    ensures r <==> exists k :: 0 <= k < |JsHeavySites| && IsSubstring(JsHeavySites[k], domain)
  {
    AnySubstringScan(JsHeavySites, domain)
  }

  /** The page methods the rendering handler runs before the response is built. */
  function WaitPolicy(needsJs: bool): (r: seq<PageMethod>)
    ensures |r| > 0
    ensures needsJs ==> r == [WaitForLoadState("networkidle"), WaitForTimeout(2000)]
    ensures !needsJs ==> r == [WaitForLoadState("domcontentloaded")]
  {
    if needsJs then [WaitForLoadState("networkidle"), WaitForTimeout(2000)]
    else [WaitForLoadState("domcontentloaded")]
  }

  /** The request `start_requests` yields for one seed whose netloc is `domain`. */
  function StartRequest(url: string, domain: string): (r: Request)
    ensures r.url == url && r.dontFilter && r.headers == map[]
    ensures MetaGet(r.meta, "playwright") == MBool(true)
    ensures MetaGet(r.meta, "playwright_include_page") == MBool(true)
    ensures MetaGet(r.meta, "domain") == MStr(domain)
    ensures MetaGet(r.meta, "needs_js") == MBool(NeedsJs(domain))
    ensures MetaGet(r.meta, "playwright_page_methods") == MMethods(WaitPolicy(NeedsJs(domain)))
    ensures MetaGet(r.meta, "playwright_context") == MStr("default")
    ensures r.meta.Keys ==
      {"playwright", "playwright_include_page", "playwright_context", "domain", "needs_js", "playwright_page_methods"}
  {
    var needsJs := NeedsJs(domain);
    Request(url, map[
      "playwright" := MBool(true),
      "playwright_include_page" := MBool(true),
      "playwright_context" := MStr("default"),
      "domain" := MStr(domain),
      "needs_js" := MBool(needsJs),
      "playwright_page_methods" := MMethods(WaitPolicy(needsJs))
    ], map[], true)
  }

  /** Whether Scrapy's `Request(url=...)` accepts a URL. Scrapy's own check, not
      part of this model: it raises `ValueError` for a URL without a scheme. */
  type RequestCheckFn = string -> bool

  /** What the `start_requests` generator produces: the requests it yielded and
      whether it stopped because `urlparse` or the `Request` constructor raised. */
  datatype StartRequestsResult = StartRequestsResult(requests: seq<Request>, raised: bool)

  /** `start_requests`: one request per seed, in order; the generator stops at the
      first seed whose `urlparse` raises or whose `Request` cannot be built. */
  function StartRequests(urls: seq<string>, netloc: NetlocFn, accepts: RequestCheckFn): (r: StartRequestsResult)
    ensures |r.requests| <= |urls|
    ensures forall i :: 0 <= i < |r.requests| ==>
      && netloc(urls[i]).Some? && accepts(urls[i])
      && r.requests[i] == StartRequest(urls[i], netloc(urls[i]).value)
    ensures !r.raised <==> |r.requests| == |urls|
    ensures r.raised ==> netloc(urls[|r.requests|]).None? || !accepts(urls[|r.requests|])
    decreases |urls|
  {
    if |urls| == 0 then StartRequestsResult([], false)
    else match netloc(urls[0])
      case None => StartRequestsResult([], true)
      case Some(d) =>
        if !accepts(urls[0]) then StartRequestsResult([], true)
        else
          var rest := StartRequests(urls[1..], netloc, accepts);
          StartRequestsResult([StartRequest(urls[0], d)] + rest.requests, rest.raised)
  }

  /** For instance, a scheme-less first seed that `urlparse` reads without error
      but the `Request` constructor rejects ends the generator before anything is
      yielded, whatever follows it. */
  lemma SchemelessSeedStops(netloc: NetlocFn, accepts: RequestCheckFn)
    requires netloc("www.bund.de").Some? && !accepts("www.bund.de")
    ensures var r := StartRequests(["www.bund.de", "https://www.zeit.de/"], netloc, accepts);
      r.requests == [] && r.raised
  {
  }

  // ---------------------------------------------------------------------------
  // Allow-list and links
  // ---------------------------------------------------------------------------

  /** `_is_allowed_domain`: some allow-list entry occurs in the lower-cased
      netloc; false when `urlparse` raises. */
  function IsAllowedDomain(url: string, netloc: NetlocFn): (r: bool)
    ensures r <==> netloc(url).Some? && AnySubstring(AllowedDomains, Lower(netloc(url).value))
  {
    match netloc(url)
    case None => false
    case Some(n) => AnySubstringScan(AllowedDomains, Lower(n))
  }

  /** The matching rules side by side: the JavaScript test is case-sensitive, the
      allow-list test is not, so an upper-case host is crawled without the
      JavaScript wait policy. */
  lemma UpperCaseHostAllowed(netloc: NetlocFn)
    requires netloc("https://www.ZDF.de/") == Some("www.ZDF.de")
    ensures IsAllowedDomain("https://www.ZDF.de/", netloc)
  {
    assert Lower("www.ZDF.de") == "www.zdf.de";
    assert IsSubstring("zdf.de", "www.zdf.de") by {
      assert "www.zdf.de"[4..] == "zdf.de";
      SubstringAt("zdf.de", "www.zdf.de");
    }
    assert AllowedDomains[4] == "zdf.de";
  }

  lemma UpperCaseHostNotJs()
    ensures !NeedsJs("www.ZDF.de")
  {
    NotSubstringOfHost("www.ZDF.de");
  }

  lemma LowerCaseHostJs()
    ensures NeedsJs("www.zdf.de")
  {
    assert "www.zdf.de"[4..] == "zdf.de";
    SubstringAt("zdf.de", "www.zdf.de");
    assert JsHeavySites[0] == "zdf.de";
  }

  /** A needle holding a character the haystack lacks does not occur in it. */
  lemma {:induction false} MissingCharNotSubstring(needle: string, hay: string, c: char)
    requires c in needle && c !in hay
    ensures !IsSubstring(needle, hay)
    decreases |hay|
  {
    var j :| 0 <= j < |needle| && needle[j] == c;
    if j < |hay| {
      assert hay[j] != c;
    }
    if |hay| > 0 {
      MissingCharNotSubstring(needle, hay[1..], c);
    }
  }

  /** None of the JavaScript-heavy entries occurs in the upper-case host name. */
  lemma NotSubstringOfHost(host: string)
    requires host == "www.ZDF.de"
    ensures forall k :: 0 <= k < |JsHeavySites| ==> !IsSubstring(JsHeavySites[k], host)
  {
    assert "zdf.de"[0] == 'z' && "spiegel.de"[1] == 'p' && "zeit.de"[0] == 'z';
    MissingCharNotSubstring("zdf.de", host, 'z');
    MissingCharNotSubstring("spiegel.de", host, 'p');
    MissingCharNotSubstring("zeit.de", host, 'z');
  }

  /** Reference definition of the link loop of `parse`: each `href` is resolved
      against the page URL and kept when its domain is allowed; `None` when some
      `urljoin` raises. */
  function AllowedLinks(base: string, hrefs: seq<string>, join: UrlJoinFn, netloc: NetlocFn): (r: Option<seq<string>>)
    ensures r.Some? ==> |r.value| <= |hrefs|
    ensures r.Some? ==> forall i :: 0 <= i < |r.value| ==> IsAllowedDomain(r.value[i], netloc)
    decreases |hrefs|
  {
    if |hrefs| == 0 then Some([])
    else match AllowedLinks(base, hrefs[..|hrefs| - 1], join, netloc)
      case None => None
      case Some(prev) =>
        match join(base, hrefs[|hrefs| - 1])
        case None => None
        case Some(abs) => Some(if IsAllowedDomain(abs, netloc) then prev + [abs] else prev)
  }

  function Min(a: int, b: int): int {
    if a < b then a else b
  }

  /** The `internal_links` loop: only the first ten `href`s are considered, before
      filtering, so at most ten links are kept, each on an allowed domain, in page
      order. */
  method CollectInternalLinks(base: string, hrefs: seq<string>, join: UrlJoinFn, netloc: NetlocFn)
    returns (links: Option<seq<string>>)
    ensures links == AllowedLinks(base, hrefs[..Min(MaxLinks, |hrefs|)], join, netloc)
    ensures links.Some? ==> |links.value| <= MaxLinks
    ensures links.Some? ==> forall i :: 0 <= i < |links.value| ==> IsAllowedDomain(links.value[i], netloc)
  {
    var hs := hrefs[..Min(MaxLinks, |hrefs|)];
    links := Some([]);
    var i := 0;
    while i < |hs|
      invariant 0 <= i <= |hs|
      invariant links == AllowedLinks(base, hs[..i], join, netloc)
    {
      assert hs[..i + 1][..i] == hs[..i];
      if links.Some? {
        var abs := join(base, hs[i]);
        if abs.None? {
          links := None;
        } else if IsAllowedDomain(abs.value, netloc) {
          links := Some(links.value + [abs.value]);
        }
      }
      i := i + 1;
    }
    assert hs[..i] == hs;
  }

  // ---------------------------------------------------------------------------
  // Extraction
  // ---------------------------------------------------------------------------

  /** The `content-type` header decoded as UTF-8 (a missing header reads as ""). */
  datatype Decoding = Decoded(text: string) | Undecodable

  /** The selector results `parse` reads from the rendered page. */
  datatype Document = Document(
    titleText: Option<string>,       // title::text
    h1Text: Option<string>,          // h1::text
    metaDescription: Option<string>, // meta[name="description"]
    ogDescription: Option<string>,   // meta[property="og:description"]
    keywords: Option<string>,        // meta[name="keywords"]
    htmlLang: Option<string>,        // html::attr(lang)
    contentLanguage: Option<string>, // meta[http-equiv="content-language"]
    hrefs: seq<string>,              // a[href]::attr(href), all of them
    contentType: Decoding)

  /** `a or b` on optional strings: `b` when `a` is `None` or empty. */
  function OrElse(a: Option<string>, b: Option<string>): (r: Option<string>)
    ensures a.Some? && a.value != "" ==> r == a
    ensures (a.None? || a.value == "") ==> r == b
  {
    if a.Some? && a.value != "" then a else b
  }

  function OptStr(o: Option<string>): Value {
    match o
    case None => Null
    case Some(s) => Str(s)
  }

  /** The title rule: `<title>`, else `<h1>`, else "Ohne Titel", then stripped.
      A whitespace-only `<title>` is non-empty, so it is chosen and strips to "". */
  function PageTitle(doc: Document): (t: string)
    ensures Stripped(t)
    ensures doc.titleText.Some? && doc.titleText.value != "" ==> t == Strip(doc.titleText.value)
    ensures (doc.titleText.None? || doc.titleText.value == "") && doc.h1Text.Some? && doc.h1Text.value != "" ==>
      t == Strip(doc.h1Text.value)
    ensures (doc.titleText.None? || doc.titleText.value == "") && (doc.h1Text.None? || doc.h1Text.value == "") ==>
      t == NoTitle
  {
    var chosen := OrElse(doc.titleText, OrElse(doc.h1Text, Some(NoTitle)));
    StrippedFixed(NoTitle);
    Strip(chosen.value)
  }

  /** `description[:500] if description else None`, after the og:description
      fallback: a non-empty prefix of at most 500 characters, or `None`. */
  function PageDescription(doc: Document): (v: Value)
    ensures v.Null? || v.Str?
    ensures v.Str? ==> 0 < |v.s| <= MaxDescription
    ensures v.Str? ==> var d := OrElse(doc.metaDescription, doc.ogDescription);
      d.Some? && |v.s| == Min(MaxDescription, |d.value|)
    ensures v.Str? ==> var d := OrElse(doc.metaDescription, doc.ogDescription); d.Some? && v.s <= d.value
    ensures v.Null? <==> (var d := OrElse(doc.metaDescription, doc.ogDescription); d.None? || d.value == "")
  {
    var d := OrElse(doc.metaDescription, doc.ogDescription);
    if d.Some? && d.value != "" then Str(d.value[..Min(MaxDescription, |d.value|)]) else Null
  }

  function StrList(xs: seq<string>): (v: Value)
    ensures v.List? && |v.elems| == |xs|
    ensures forall i :: 0 <= i < |xs| ==> v.elems[i] == Str(xs[i])
  {
    if |xs| == 0 then List([]) else List([Str(xs[0])] + StrList(xs[1..]).elems)
  }

  /** The spider's own requests always store the domain as a string. */
  predicate DomainIsText(resp: Response) {
    "domain" !in resp.meta || resp.meta["domain"].MStr?
  }

  /** `response.meta.get('domain', 'unknown')`. */
  function ResponseDomain(resp: Response): string
    requires DomainIsText(resp)
  {
    if "domain" in resp.meta then resp.meta["domain"].s else "unknown"
  }

  /** `random.randint(1000, 9999)`: both ends included. */
  type Disambiguator = n: int | 1000 <= n <= 9999 witness 1000

  /** The random suffix, the screenshot call and `os.path.exists`. */
  datatype Environment = Environment(disambiguator: Disambiguator, screenshotFails: bool, screenshotExists: bool)

  function ScreenshotFile(domain: string, disambiguator: Disambiguator): string {
    ScreenshotDir + "/" + domain + "_" + DecimalString(disambiguator) + ".png"
  }

  /** A rendered page: open until `page.close()`; closing again changes nothing. */
  datatype PageState = Open | Closed

  /** `if page: await page.close()`. */
  function ClosePage(page: Option<PageState>): (r: Option<PageState>)
    ensures r.None? <==> page.None?
    ensures r != Some(Open)
  {
    match page
    case None => None
    case Some(_) => Some(Closed)
  }

  /** The fields `parse` assigns: every `WebPageItem` field except `timestamp`. */
  const PageFields: set<Field> := WebPageFields - {Timestamp}

  /** The value `parse` assigns to field `k`. */
  function PageField(k: Field, resp: Response, doc: Document, env: Environment, links: seq<string>): Value
    requires DomainIsText(resp) && doc.contentType.Decoded?
  {
    match k
    case Title => Str(PageTitle(doc))
    case Url => Str(resp.url)
    case Domain => Str(ResponseDomain(resp))
    case Description => PageDescription(doc)
    case Keywords => OptStr(doc.keywords)
    case Language => OptStr(OrElse(doc.htmlLang, doc.contentLanguage))
    case InternalLinks => StrList(links)
    case ScreenshotPath =>
      if env.screenshotExists then Str(ScreenshotFile(ResponseDomain(resp), env.disambiguator)) else Null
    case StatusCode => Int(resp.status)
    case ContentType => Str(doc.contentType.text)
    case _ => Null
  }

  /** The `WebPageItem` `parse` fills in once every step has succeeded. */
  function PageItem(resp: Response, doc: Document, env: Environment, links: seq<string>): (it: Item)
    requires DomainIsText(resp) && doc.contentType.Decoded?
    ensures it.shape == WebPage && WellFormed(it)
    ensures it.fields.Keys == PageFields && Timestamp !in it.fields
  {
    Item(WebPage, map k | k in PageFields :: PageField(k, resp, doc, env, links))
  }

  /** The fields of the page item that the pipelines read later. */
  lemma PageItemFields(resp: Response, doc: Document, env: Environment, links: seq<string>)
    requires DomainIsText(resp) && doc.contentType.Decoded?
    ensures var it := PageItem(resp, doc, env, links);
      && Get(it, Url) == Str(resp.url) && Get(it, Title) == Str(PageTitle(doc))
      && Get(it, Domain) == Str(ResponseDomain(resp)) && Get(it, StatusCode) == Int(resp.status)
      && Get(it, Description) == PageDescription(doc)
      && Get(it, InternalLinks) == StrList(links)
    ensures var it := PageItem(resp, doc, env, links);
      && Get(it, Keywords) == OptStr(doc.keywords)
      && Get(it, Language) == OptStr(OrElse(doc.htmlLang, doc.contentLanguage))
      && Get(it, ContentType) == Str(doc.contentType.text)
  {
    PageItemLocation(resp, doc, env, links);
    PageItemContent(resp, doc, env, links);
    PageItemGet(resp, doc, env, links, InternalLinks);
  }

  lemma PageItemLocation(resp: Response, doc: Document, env: Environment, links: seq<string>)
    requires DomainIsText(resp) && doc.contentType.Decoded?
    ensures var it := PageItem(resp, doc, env, links);
      && Get(it, Url) == Str(resp.url) && Get(it, Domain) == Str(ResponseDomain(resp))
      && Get(it, StatusCode) == Int(resp.status) && Get(it, ContentType) == Str(doc.contentType.text)
  {
    PageItemGet(resp, doc, env, links, Url);
    PageItemGet(resp, doc, env, links, Domain);
    PageItemGet(resp, doc, env, links, StatusCode);
    PageItemGet(resp, doc, env, links, ContentType);
  }

  lemma PageItemContent(resp: Response, doc: Document, env: Environment, links: seq<string>)
    requires DomainIsText(resp) && doc.contentType.Decoded?
    ensures var it := PageItem(resp, doc, env, links);
      && Get(it, Title) == Str(PageTitle(doc)) && Get(it, Description) == PageDescription(doc)
      && Get(it, Keywords) == OptStr(doc.keywords)
      && Get(it, Language) == OptStr(OrElse(doc.htmlLang, doc.contentLanguage))
  {
    PageItemGet(resp, doc, env, links, Title);
    PageItemGet(resp, doc, env, links, Description);
    PageItemGet(resp, doc, env, links, Keywords);
    PageItemGet(resp, doc, env, links, Language);
  }

  lemma PageItemGet(resp: Response, doc: Document, env: Environment, links: seq<string>, k: Field)
    requires DomainIsText(resp) && doc.contentType.Decoded?
    requires k in PageFields
    ensures Get(PageItem(resp, doc, env, links), k) == PageField(k, resp, doc, env, links)
  {
  }

  /** The links `parse` collects from the first ten `href`s. */
  function PageLinks(resp: Response, doc: Document, join: UrlJoinFn, netloc: NetlocFn): Option<seq<string>> {
    AllowedLinks(resp.url, doc.hrefs[..Min(MaxLinks, |doc.hrefs|)], join, netloc)
  }

  /** The body of the `try` in `parse`: the item it yields, or `None` when some step
      raises (a screenshot of a page that fails or is already closed, an `urljoin`
      that raises, a content type that is not UTF-8). */
  function ParseBody(resp: Response, doc: Document, page: Option<PageState>, env: Environment,
                     join: UrlJoinFn, netloc: NetlocFn): (r: Option<Item>)
    requires DomainIsText(resp)
    ensures r.None? <==>
      || (page.Some? && (page.value == Closed || env.screenshotFails))
      || PageLinks(resp, doc, join, netloc).None?
      || doc.contentType.Undecodable?
    ensures r.Some? ==> && r.value.shape == WebPage && WellFormed(r.value)
                        && r.value.fields.Keys == PageFields && Timestamp !in r.value.fields
    ensures r.Some? ==> Get(r.value, Url) == Str(resp.url) && Get(r.value, Domain) == Str(ResponseDomain(resp))
    ensures r.Some? ==>
      Get(r.value, ScreenshotPath) ==
        (if env.screenshotExists then Str(ScreenshotFile(ResponseDomain(resp), env.disambiguator)) else Null)
  {
    if page.Some? && (page.value == Closed || env.screenshotFails) then None
    else
      var links := PageLinks(resp, doc, join, netloc);
      if links.None? || doc.contentType.Undecodable? then None
      else
        PageItemGet(resp, doc, env, links.value, Url);
        PageItemGet(resp, doc, env, links.value, Domain);
        PageItemGet(resp, doc, env, links.value, ScreenshotPath);
        Some(PageItem(resp, doc, env, links.value))
  }

  /** What a `parse` call leaves behind: the item yielded (if any) and the page. */
  datatype ParseOutcome = ParseOutcome(item: Option<Item>, page: Option<PageState>)

  /** `parse`: whether the body yields an item or raises, the `finally` closes the
      page; an item is yielded exactly when no step raised. */
  function Parse(resp: Response, doc: Document, page: Option<PageState>, env: Environment,
                 join: UrlJoinFn, netloc: NetlocFn): (r: ParseOutcome)
    requires DomainIsText(resp)
    ensures page.Some? ==> r.page == Some(Closed)
    ensures page.None? ==> r.page == None
    ensures r.item.None? <==>
      || (page.Some? && (page.value == Closed || env.screenshotFails))
      || PageLinks(resp, doc, join, netloc).None?
      || doc.contentType.Undecodable?
    ensures r.item.Some? ==> r.item.value.shape == WebPage && WellFormed(r.item.value)
  {
    ParseOutcome(ParseBody(resp, doc, page, env, join, netloc), ClosePage(page))
  }

  /** A yielded item is for the response URL, carries the stripped title, a
      description of at most 500 characters and at most ten `internal_links`, each
      on an allowed domain, and no `timestamp`. */
  lemma ParsedItem(resp: Response, doc: Document, page: Option<PageState>, env: Environment,
                   join: UrlJoinFn, netloc: NetlocFn)
    requires DomainIsText(resp)
    requires Parse(resp, doc, page, env, join, netloc).item.Some?
    ensures var it := Parse(resp, doc, page, env, join, netloc).item.value;
      && Get(it, Url) == Str(resp.url)
      && Get(it, Title) == Str(PageTitle(doc))
      && Get(it, Domain) == Str(ResponseDomain(resp))
      && Get(it, StatusCode) == Int(resp.status)
      && (Get(it, Description).Str? ==> |Get(it, Description).s| <= MaxDescription)
      && Timestamp !in it.fields
    ensures var links := Get(Parse(resp, doc, page, env, join, netloc).item.value, InternalLinks);
      && links.List? && |links.elems| <= MaxLinks
      && forall i :: 0 <= i < |links.elems| ==> links.elems[i].Str? && IsAllowedDomain(links.elems[i].s, netloc)
  {
    var ls := PageLinks(resp, doc, join, netloc);
    assert ls.Some? && Parse(resp, doc, page, env, join, netloc).item.value == PageItem(resp, doc, env, ls.value);
    PageItemFields(resp, doc, env, ls.value);
  }

  /** `handle_error`: the page of a failed request is closed (errors from closing
      are swallowed, so the callback itself never raises). */
  function HandleError(failed: Request, page: Option<PageState>): (r: Option<PageState>)
    ensures page.Some? ==> r == Some(Closed)
    ensures page.None? ==> r == None
  {
    ClosePage(page)
  }

  /** How a fetch reaches the spider: its callback with the rendered response, or
      its errback with the failed request. */
  datatype Fetch =
    | Parsed(resp: Response, doc: Document, page: Option<PageState>, env: Environment)
    | Failed(req: Request, page: Option<PageState>)

  function PageOf(f: Fetch): Option<PageState> {
    f.page
  }

  /** The page after the callback or errback has run. */
  function Resolve(f: Fetch, join: UrlJoinFn, netloc: NetlocFn): Option<PageState>
    requires f.Parsed? ==> DomainIsText(f.resp)
  {
    match f
    case Parsed(resp, doc, page, env) => Parse(resp, doc, page, env, join, netloc).page
    case Failed(req, page) => HandleError(req, page)
  }

  function CountOpen(pages: seq<Option<PageState>>): nat {
    if |pages| == 0 then 0
    else (if pages[0] == Some(Open) then 1 else 0) + CountOpen(pages[1..])
  }

  function CountPresent(pages: seq<Option<PageState>>): nat {
    if |pages| == 0 then 0
    else (if pages[0].Some? then 1 else 0) + CountPresent(pages[1..])
  }

  function ResolveAll(fs: seq<Fetch>, join: UrlJoinFn, netloc: NetlocFn): (r: seq<Option<PageState>>)
    requires forall i :: 0 <= i < |fs| ==> (fs[i].Parsed? ==> DomainIsText(fs[i].resp))
    ensures |r| == |fs|
    ensures forall i :: 0 <= i < |fs| ==> r[i] == Resolve(fs[i], join, netloc)
  {
    if |fs| == 0 then [] else [Resolve(fs[0], join, netloc)] + ResolveAll(fs[1..], join, netloc)
  }

  function Pages(fs: seq<Fetch>): (r: seq<Option<PageState>>)
    ensures |r| == |fs|
    ensures forall i :: 0 <= i < |fs| ==> r[i] == fs[i].page
  {
    if |fs| == 0 then [] else [fs[0].page] + Pages(fs[1..])
  }

  /** No page leaks: after every fetch of a run has gone through its callback or
      errback, no page is left open, and every page that was handed over (open
      ones included) has been closed. */
  lemma {:induction false} NoPageLeftOpen(fs: seq<Fetch>, join: UrlJoinFn, netloc: NetlocFn)
    requires forall i :: 0 <= i < |fs| ==> (fs[i].Parsed? ==> DomainIsText(fs[i].resp))
    ensures CountOpen(ResolveAll(fs, join, netloc)) == 0
    ensures CountPresent(ResolveAll(fs, join, netloc)) == CountPresent(Pages(fs))
    decreases |fs|
  {
    if |fs| > 0 {
      NoPageLeftOpen(fs[1..], join, netloc);
      var r := ResolveAll(fs, join, netloc);
      assert r[1..] == ResolveAll(fs[1..], join, netloc);
      assert Pages(fs)[1..] == Pages(fs[1..]);
      assert r[0] == Resolve(fs[0], join, netloc);
    }
  }
}
