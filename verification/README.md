# Web crawler core in Dafny

A model of the core of a Scrapy-based web crawler. The crawler renders news and
public-sector pages with Playwright, extracts one `WebPageItem` per page and
exports the items to CSV and JSON files. The model covers three parts:

- **The spider** (`crawler/spiders/webspider.py`):
  - the `url_list` argument and the seed list;
  - `start_requests` with its JavaScript test and Playwright wait policy;
  - the allow-list test `_is_allowed_domain`;
  - `parse`: the title and description rules, the ten-link cap, the item it
    yields, and the `finally` that closes the page;
  - `handle_error`.
- **The downloader middlewares** (`crawler/middlewares.py`):
  - header defaults and the `Referer` chain kept in `spider.last_url`;
  - User-Agent rotation;
  - proxy assignment;
  - the retry middleware's attempt counting.
- **The item pipelines** (`crawler/pipelines.py`):
  - `CrawlerPipeline`: the URL check, title and timestamp defaults, domain
    derivation, title and description clean-up, and the counters;
  - `DuplicateFilterPipeline`;
  - `CSVExportPipeline`: routing by item class, fixed columns, cell conversion,
    and swallowed write errors;
  - `JSONExportPipeline`: the array text it writes;
  - the chain that `crawler/settings.py` registers.

Everything is pure: every component's state is a datatype, and every Scrapy
callback is a function from the old state to the new state plus what the
callback returned or raised (`Result`).

Library calls the core relies on are function parameters:
- `urlparse(url).netloc` is a `NetlocFn`, and `None` means `urlparse` raised;
- `urljoin` is a `UrlJoinFn`;
- `json.dumps` is a `DumpsFn` or `ItemDumpFn`.

Randomness is an explicit parameter:
- `random.choice` is an index `pick`, taken modulo the pool size;
- `random.randint` and the screenshot outcome are fields of an `Environment`.

The modules are:
- `Base`: results, exceptions and Python values.
- `Text`: `str.strip`, `split`/`join`, `lower`, and decimal text.
- `Items`: the three item classes.
- `Http`: requests, responses and `meta`.
- `Middlewares`, `Spider`, `Normalization`, `Dedup`, `CsvExport` and `JsonExport`: one
  module per source component.
- `Pipeline`: the configured pipeline chain.

Where the written description of the system and the code disagree, the model
follows the code:
- **Retries.** With `RETRY_TIMES = 3`, a URL that keeps answering 503 is
  re-issued three times and fetched four times; only the fourth failure is given
  up. `Middlewares.DefaultRetriesThreeTimes` proves this.
- **Screenshots.** The screenshot is taken inside the `try` of `parse`. So a
  screenshot that fails, or a page that is already closed, means no item is
  yielded for that page. The page is still closed.
- **News and tender items.** `CrawlerPipeline` cannot process them. A
  `NewsArticleItem` has no `timestamp` field and a `TenderItem` has no `title`
  field, so assigning the default raises `KeyError`. In the configured chain,
  such items therefore never reach the `news` and `tenders` CSV files
  (`Pipeline.ChainProcess`).
- **Blank titles.** A title made only of whitespace is truthy, so it escapes the
  "Ohne Titel" default. It then strips to "", so the clean-up step skips it and
  it leaves the pipeline unchanged (`Normalization.Normalize`).
- **Letter case.** `needs_js` compares the host case-sensitively, while the
  allow-list lower-cases it. An upper-case host such as `www.ZDF.de` is crawled
  without the JavaScript wait policy (`Spider.UpperCaseHostNotJs`).

## Model

| member | source | states |
|---|---|---|
| Items.Set | crawler/items.py:84-91 | Assigning a field the item's class does not declare raises `KeyError` with the field's name. A declared field changes only that key, and a well-formed item stays well-formed. |
| Text.StripEmptyIffBlank | crawler/pipelines.py:80-81 | `strip()` gives the empty string exactly when every character is whitespace. |
| Text.CollapseIsCollapsed | crawler/pipelines.py:83 | `' '.join(s.split())` has no outer whitespace and exactly one space between words. |
| Text.CollapseIdempotent | crawler/pipelines.py:83 | Collapsing whitespace twice gives the same text as collapsing once. |
| Text.JoinSplit | crawler/spiders/webspider.py:87 | Joining the pieces of `s.split(',')` with ',' gives back `s`. |
| Text.SplitJoin | crawler/spiders/webspider.py:87 | Splitting comma-free pieces joined with ',' gives back the pieces. |
| Text.AnySubstringScan | crawler/spiders/webspider.py:258 | The left-to-right scan of the allow-list is true exactly when some entry occurs in the host. |
| Text.DecimalRoundTrip | crawler/pipelines.py:259 | The decimal text written for an integer cell parses back to the same integer. |
| Middlewares.SpiderOpened | crawler/middlewares.py:136-139 | After `spider_opened` there is no previous URL, so the next request gets no `Referer`. |
| Middlewares.DownloaderProcessRequest | crawler/middlewares.py:71-95 | `Accept` and `Accept-Language` are set to the fixed values only where absent. `Referer` is set to the previous URL only where absent and only when there was a non-empty previous URL. Headers already present are never changed, no other header is added, and the request's URL becomes the new previous URL. |
| Middlewares.RefererChain | crawler/middlewares.py:85-92 | Over a sequence of requests, each request after the first carries the previous request's URL as `Referer`, unless it brought its own or that URL is empty. After `spider_opened` the first request gets none, and the last URL is remembered. |
| Middlewares.DownloaderProcessResponse | crawler/middlewares.py:97-122 | Every response, whatever its status, is passed on unchanged; this middleware never retries. |
| Middlewares.NewUserAgentMiddleware | crawler/middlewares.py:150-193 | The given `user_agent` is kept, and the pool is exactly the built-in list of thirteen User-Agent strings, in source order. |
| Middlewares.UserAgentFromCrawler | crawler/middlewares.py:195-211 | An empty `USER_AGENT_LIST` raises `NotConfigured`. Otherwise the pool is exactly the configured list. |
| Middlewares.RotateUserAgent | crawler/middlewares.py:213-227 | The request gets a `User-Agent` drawn from the pool. Every other header, the URL and `meta` are kept. |
| Middlewares.RotationReachesEveryAgent | crawler/middlewares.py:222 | Every agent in the pool is chosen by some random draw. |
| Middlewares.ProxyFromCrawler | crawler/middlewares.py:244-256 | The proxy list is exactly `PROXY_LIST`, and it is empty when the setting is unset. |
| Middlewares.AssignProxy | crawler/middlewares.py:258-271 | With no proxies, or when `meta['proxy']` is already truthy, the request is unchanged. Otherwise `meta['proxy']` becomes a proxy from the list and nothing else changes. |
| Middlewares.ProxyNeverOverwritten | crawler/middlewares.py:266-268 | A second pass of the middleware never replaces an assigned proxy, whatever the second draw. |
| Middlewares.NewRetryMiddleware | crawler/middlewares.py:279-290 | The retry count is kept. A missing or empty code list falls back to [500, 502, 503, 504, 408, 429]. |
| Middlewares.RetryFromCrawler | crawler/middlewares.py:292-297 | A configured `RETRY_TIMES` is used as given. A configured non-empty `RETRY_HTTP_CODES` is used as given, and an empty one becomes the default codes through the constructor's `or`. A key absent from the `Settings` object (`None` here) falls back to 3 retries and [500, 502, 503, 504, 408, 429]. |
| Middlewares.PreviousRetries | crawler/middlewares.py:312 | `meta['retry_times']` reads as 0 when the key is absent. An integer is taken as it is, and `True`/`False` count as 1/0. `+ 1` raises `TypeError` exactly when the value is neither an integer nor a boolean. |
| Middlewares.RetryCopy | crawler/middlewares.py:317-319 | The copy has the same URL and headers, `dont_filter` set, `meta['retry_times']` set to the attempt number, and every other `meta` key kept. |
| Middlewares.RetryProcessResponse | crawler/middlewares.py:299-325 | A non-retryable status is delivered. For a retryable status, attempt `n = previous + 1` is re-issued when `n <= retry_times` and delivered otherwise. A non-numeric `meta['retry_times']` raises `TypeError`. A re-issued attempt number lies in 1..`retry_times`. |
| Middlewares.RetryStep | crawler/middlewares.py:311-320 | One retryable failure after `k < retry_times` retries re-issues the copy numbered `k + 1`. |
| Middlewares.RetriesThenGivesUp | crawler/middlewares.py:311-325 | A URL that keeps failing after `k` retries is re-issued exactly `retry_times - k` more times. The next failure is then delivered. |
| Middlewares.RetryAttemptsNumbered | crawler/middlewares.py:311-320 | The retry requests are all for the same URL and carry attempt numbers `k+1, k+2, ...` in order. |
| Middlewares.DefaultRetriesThreeTimes | crawler/middlewares.py:279-325 | With the defaults, three 503s leave the URL still being retried, and the fourth is given up. |
| Spider.StripNonEmpty | crawler/spiders/webspider.py:88 | The result has no more entries than the input, and every kept entry is non-empty and stripped. A single entry comes back stripped, or is dropped when it is blank. |
| Spider.StripNonEmptyAppend | crawler/spiders/webspider.py:88 | The entries are handled one by one: the result for `a + b` is the result for `a` followed by the result for `b`. Together with the single-entry case this fixes the contents and the order. |
| Spider.ParseUrlList | crawler/spiders/webspider.py:86-88 | Every URL taken from `url_list` is non-empty and stripped. A value without a comma gives its stripped text as the only URL, or no URL when it is blank. |
| Spider.ParseUrlListCons | crawler/spiders/webspider.py:86-88 | For `w + "," + rest` with a comma-free `w`, the URLs are those of `w` followed by those of `rest`, so the list follows the comma-separated entries in order. |
| Spider.StartUrls | crawler/spiders/webspider.py:86-88 | A given `url_list` replaces the seeds. Otherwise the ten built-in seeds are used. |
| Spider.StripNonEmptyFixed | crawler/spiders/webspider.py:88 | A list that is already stripped and blank-free comes back unchanged. |
| Spider.UrlListRoundTrip | crawler/spiders/webspider.py:86-88 | Joining stripped, non-empty, comma-free URLs with ',' and parsing the result gives back the same list. |
| Spider.UrlListIdempotent | crawler/spiders/webspider.py:86-88 | Parsing, re-joining and parsing again gives the first parse. |
| Spider.NeedsJs | crawler/spiders/webspider.py:109 | True exactly when one of "zdf.de", "spiegel.de" or "zeit.de" occurs in the netloc, with letter case respected. |
| Spider.WaitPolicy | crawler/spiders/webspider.py:121-130 | JavaScript-heavy sites wait for `networkidle` and then 2000 ms. All other sites wait for `domcontentloaded` only. |
| Spider.StartRequest | crawler/spiders/webspider.py:112-138 | The seed request has `dont_filter` set and a `meta` of exactly six keys: Playwright on, the page handed to the callback, the "default" browser context, the domain, the JavaScript flag and the matching wait policy. |
| Spider.StartRequests | crawler/spiders/webspider.py:97-138 | One request per seed, in order. The generator stops exactly at the first seed whose `urlparse` raises or that Scrapy's `Request` constructor rejects, such as a URL without a scheme; nothing is yielded for that seed or any later one. |
| Spider.SchemelessSeedStops | crawler/spiders/webspider.py:104-138 | For `url_list="www.bund.de,https://www.zeit.de/"`, with `urlparse` accepting the first seed and the `Request` constructor rejecting it, no request is yielded and the generator raises. |
| Spider.IsAllowedDomain | crawler/spiders/webspider.py:246-260 | True exactly when `urlparse` succeeds and some allow-list entry occurs in the lower-cased netloc. |
| Spider.UpperCaseHostAllowed | crawler/spiders/webspider.py:257-258 | `https://www.ZDF.de/` passes the allow-list test. |
| Spider.UpperCaseHostNotJs | crawler/spiders/webspider.py:109 | The host `www.ZDF.de` does not get the JavaScript wait policy. |
| Spider.LowerCaseHostJs | crawler/spiders/webspider.py:109 | The host `www.zdf.de` gets the JavaScript wait policy. |
| Spider.AllowedLinks | crawler/spiders/webspider.py:185-189 | Every kept link is on an allowed domain, and there are no more links than `href`s. |
| Spider.CollectInternalLinks | crawler/spiders/webspider.py:185-189 | The loop yields the links the reference definition gives for the first ten `href`s. So there are at most ten, each on an allowed domain, in page order. |
| Spider.PageTitle | crawler/spiders/webspider.py:162-169 | The `<title>` text if it is non-empty, else the `<h1>` text, else "Ohne Titel", then stripped. |
| Spider.PageDescription | crawler/spiders/webspider.py:172-196 | The meta description, falling back to og:description, cut to its first 500 characters: a prefix of length min(500, its length). It is `None` exactly when both are missing or empty. |
| Spider.ParseBody | crawler/spiders/webspider.py:149-215 | The `try` body yields nothing exactly when a step raises: the screenshot of a closed or failing page, an `urljoin`, or decoding the content type. A yielded `WebPageItem` is well-formed and has every field but `timestamp`. Its URL is the response URL, its domain is `meta['domain']` (or "unknown"), and its screenshot path is the file name when that file exists and `None` otherwise. |
| Spider.ClosePage | crawler/spiders/webspider.py:221-223 | A page that was handed over is never left open. No page is invented. |
| Spider.PageItem | crawler/spiders/webspider.py:192-202 | The page item is a well-formed `WebPageItem` that sets every field except `timestamp`. |
| Spider.PageItemFields | crawler/spiders/webspider.py:192-201 | The item holds the response URL and status, the chosen title, the domain from `meta`, the description and the collected links. It also holds the keywords, the language (`html lang`, else `content-language`) and the decoded content type, all written to the CSV later. |
| Spider.Parse | crawler/spiders/webspider.py:140-223 | The page is closed on every path. An item is yielded exactly when none of these steps raised: the screenshot, `urljoin`, or decoding the content type. |
| Spider.ParsedItem | crawler/spiders/webspider.py:185-202 | A yielded item has the response URL and status, the stripped title, a description of at most 500 characters, at most ten internal links all on allowed domains, and no timestamp. |
| Spider.HandleError | crawler/spiders/webspider.py:225-244 | The page of a failed request is closed, and the errback never raises. |
| Spider.NoPageLeftOpen | crawler/spiders/webspider.py:217-244 | After every fetch has passed through `parse` or `handle_error`, no page is open, and every page that was handed over has been closed. |
| Normalization.CleanTitle | crawler/pipelines.py:80-87 | The result is collapsed and at most 200 characters long. It is the collapsed title when that fits; otherwise it is the first 197 characters followed by "...". |
| Normalization.CleanTitleFixed | crawler/pipelines.py:83-86 | A collapsed title of at most 200 characters is left unchanged. |
| Normalization.CleanTitleIdempotent | crawler/pipelines.py:80-87 | Cleaning a title twice gives the same result as cleaning it once. |
| Normalization.CleanDescription | crawler/pipelines.py:90-95 | The result is stripped and at most 500 characters long. It is empty exactly when the description is blank, and it is cut to the first 497 characters plus "..." when too long. |
| Normalization.CleanDescriptionFixed | crawler/pipelines.py:92-94 | A stripped description of at most 500 characters is left unchanged. |
| Normalization.DefaultTitle | crawler/pipelines.py:58-60 | A falsy title becomes "Ohne Titel" and only that key changes. It raises `KeyError` exactly when the class does not declare `title`. |
| Normalization.DefaultTimestamp | crawler/pipelines.py:63-64 | A falsy timestamp becomes the current time. It raises `KeyError` exactly when the class does not declare `timestamp`. |
| Normalization.NormalizeUrl | crawler/pipelines.py:67-77 | Only the `url` and `domain` keys change. A non-string URL raises `AttributeError`. A URL that strips to "" leaves the item unchanged. Otherwise the URL becomes its stripped text. A truthy domain is kept, and a falsy one becomes the stripped URL's netloc, or "unknown" when `urlparse` raises. |
| Normalization.FillDomain | crawler/pipelines.py:71-77 | A truthy domain leaves the item unchanged. A falsy one becomes the netloc of the URL, or "unknown" when `urlparse` raises. Only `domain` changes. `KeyError('domain')` is raised exactly when the domain is falsy and the class does not declare it. |
| Normalization.NormalizeTitle | crawler/pipelines.py:80-87 | Only `title` changes, and the step succeeds exactly when the title is a string. A title that strips to "" leaves the item unchanged; any other becomes `CleanTitle` of its stripped text. |
| Normalization.NormalizeDescription | crawler/pipelines.py:90-95 | Only `description` changes. A falsy description leaves the item unchanged. A truthy non-string description raises `AttributeError`; a truthy string becomes `CleanDescription` of it. |
| Normalization.Steps | crawler/pipelines.py:58-95 | The five assignment blocks run in order. Only `KeyError` or `AttributeError` can escape them. A success keeps the item's class and its well-formedness. |
| Normalization.Rewrite | crawler/pipelines.py:67-95 | The URL, title and description blocks in order. Only `KeyError` or `AttributeError` can escape them. A success keeps the item's class and its well-formedness. |
| Normalization.RewriteSucceedsIff | crawler/pipelines.py:67-95 | For a class that declares every field, the three blocks succeed exactly when the URL is a string, the title is a string, and the description is falsy or a string. |
| Normalization.StepsCleaned | crawler/pipelines.py:58-95 | After a successful run, each of the five written fields holds the value `process_item` assigns. A falsy title becomes "Ohne Titel", a blank one is kept, and any other is stripped and cleaned. A falsy timestamp becomes the clock reading. The URL is stripped unless blank, and the domain is kept when truthy (or when the URL is blank); otherwise it comes from the netloc or is "unknown". A truthy description is cleaned. |
| Normalization.Normalize | crawler/pipelines.py:36-100 | An item without a truthy URL is dropped with "Missing URL". Any other failure is a `KeyError` or an `AttributeError`. A web page or plain item gets through exactly when it is accepted: its URL is a non-empty string, and its title and description are falsy or strings. A well-formed news article with a URL raises `KeyError('timestamp')`, and a well-formed tender with a URL raises `KeyError('title')`. A success keeps the class and every field except `url`, `domain`, `title`, `timestamp` and `description`, and keeps well-formedness. Those five fields take exactly the values described for `Normalization.StepsCleaned`. With a non-empty clock reading the result is normalised: a stripped URL with a domain, a collapsed title of at most 200 characters, a timestamp, and a stripped description of at most 500 characters. A non-empty title of only whitespace is kept verbatim. A well-formed item that is already normalised comes out unchanged. |
| Normalization.UrlStepNormalizes | crawler/pipelines.py:67-77 | After the URL step the URL is stripped, unless it is blank. A truthy domain is kept as it was; a falsy one is derived from the netloc ("unknown" when `urlparse` raises). |
| Normalization.TitleStepNormalizes | crawler/pipelines.py:80-87 | After the title step a truthy title is collapsed and at most 200 characters, or it is blank. |
| Normalization.DescriptionStepNormalizes | crawler/pipelines.py:90-95 | After the description step the description is falsy, or stripped and at most 500 characters. |
| Normalization.NormalizedIsFixed | crawler/pipelines.py:58-95 | A well-formed item already in normalised form passes through the five blocks unchanged, whatever the clock says. |
| Normalization.NormalizeIdempotent | crawler/pipelines.py:36-100 | A well-formed accepted item gets through, and normalising the result again, at any later time, changes nothing. |
| Normalization.ThreeSpaceTitleSurvives | crawler/pipelines.py:58-87 | An accepted item titled with three spaces comes out with three spaces as its title. |
| Normalization.Count | crawler/pipelines.py:53-97 | `items_processed` counts successes and `items_dropped` counts missing-URL drops; nothing else is counted. |
| Normalization.CountersMatchStream | crawler/pipelines.py:53-97 | Over a stream, `items_processed` equals the number of items passed on, and `items_dropped` equals the number of items without a truthy URL. |
| Normalization.CountersSumToCalls | crawler/pipelines.py:53-97 | When no call raises anything but "Missing URL", the two counters add up to the number of calls. |
| Dedup.DedupProcess | crawler/pipelines.py:122-145 | The call fails exactly when the URL is unhashable or already seen. An unhashable URL raises `TypeError` and changes nothing. A seen URL is dropped and counted. A new URL is remembered and the item passes unchanged. |
| Dedup.DedupRunFacts | crawler/pipelines.py:117-145 | Over a stream, the items passed have pairwise distinct URLs, none of them seen before and all of them seen after. The seen set only grows, and every call passes, is dropped, or raises `TypeError`, exactly once. |
| Dedup.SecondCopyDropped | crawler/pipelines.py:137-145 | Of two items with the same URL, only the first passes, and one duplicate is counted. |
| Dedup.UrllessItemsShareOneKey | crawler/pipelines.py:137-142 | A second item without a URL is dropped as a duplicate of `None`. |
| CsvExport.Header | crawler/pipelines.py:174-189 | Each file's header is the names of its columns, in order. |
| CsvExport.WebpagesHeader | crawler/pipelines.py:174-177 | The `webpages` columns. |
| CsvExport.NewsHeader | crawler/pipelines.py:180-183 | The `news` columns. |
| CsvExport.TendersHeader | crawler/pipelines.py:186-189 | The `tenders` columns. |
| CsvExport.Route | crawler/pipelines.py:228-236 | News articles go to `news` and tenders to `tenders`; web pages and every other item go to `webpages`. |
| CsvExport.Row | crawler/pipelines.py:206-259 | A row has exactly one cell per column of its file. |
| CsvExport.RowCells | crawler/pipelines.py:253-259 | A missing or `None` value is written as "", a string verbatim, an integer as decimal text that reads back as the same number, and a list or dict as its JSON text. |
| CsvExport.RowIgnoresOtherFields | crawler/pipelines.py:206 | Fields outside the file's columns do not affect the row. |
| CsvExport.NewsTimestampColumnEmpty | crawler/pipelines.py:180-183 | The `timestamp` column of `news` is always empty, because a news article has no such field. |
| CsvExport.CsvOpenSpider | crawler/pipelines.py:166-212 | Opening creates the three files, each open and holding only its header. |
| CsvExport.WriteRow | crawler/pipelines.py:241-262 | A write touches only its own file. It appends the row when the file is open and the write does not fail. |
| CsvExport.CsvProcess | crawler/pipelines.py:214-239 | `items_exported` always grows by one, whether or not the write succeeds. Only the file the item routes to can change. |
| CsvExport.CsvCloseSpider | crawler/pipelines.py:264-274 | Closing keeps every file's rows and closes every file. |
| CsvExport.NoRowsOutsideSession | crawler/pipelines.py:249-262 | Once the files are closed, processing changes no file. |
| CsvExport.CsvSession | crawler/pipelines.py:166-239 | After a session without write failures, each file holds its header followed by the rows of exactly the items routed to it, in order. `items_exported` counts every item. |
| CsvExport.FailedWritesStillCounted | crawler/pipelines.py:238-262 | When every write fails, no file changes, but `items_exported` still counts every item. |
| JsonExport.JsonOpenSpider | crawler/pipelines.py:287-291 | Opening writes "[\n" and keeps the counter. |
| JsonExport.JsonProcess | crawler/pipelines.py:293-303 | Before opening the call raises `AttributeError`, and after closing `ValueError`. On an open file the writes become exactly the old writes, then ",\n" when an item was already exported, then the item's dump. The counter grows by one. |
| JsonExport.JsonCloseSpider | crawler/pipelines.py:305-309 | Closing appends "\n]" and closes the file. It raises when the file was never opened or is already closed. |
| JsonExport.JsonProcessRun | crawler/pipelines.py:293-303 | After opening and processing the items, the writes are "[\n" followed by the dumps with ",\n" between them. |
| JsonExport.JsonSession | crawler/pipelines.py:282-309 | A whole session writes exactly "[\n" + ",\n".join(dumps) + "\n]", and the counter equals the number of items. |
| JsonExport.TwoItemsText | crawler/pipelines.py:291-307 | Two items give "[\n" + a + ",\n" + b + "\n]". |
| JsonExport.NoItemsText | crawler/pipelines.py:291-307 | No items give "[\n\n]". |
| JsonExport.ProcessBeforeOpenFails | crawler/pipelines.py:282-298 | Processing before `open_spider` raises `AttributeError`. |
| Pipeline.ChainProcess | crawler/settings.py:141-144 | The normalising stage runs first and updates its counters. The CSV stage sees the item only when the first stage returned it. A well-formed news article or tender never changes the CSV files. A web page or plain item that is not accepted never changes them either. An accepted item whose file is open reaches that file as the row of its normalised form, of the same class. So every row the chain writes comes from a normalised item. |

## Left out

- Logging, statistics messages, `os.makedirs` and the file handles themselves are
  left out. Files are modelled as the sequence of rows or writes they receive.
- CSV quoting and escaping by `csv.DictWriter` are left out; a row is a sequence
  of cell texts. The key order of `json.dump(..., indent=2)` is hidden behind the
  dump parameter.
- `urlparse`, `urljoin` and `json.dumps` are parameters. So are Playwright's
  rendering, the CSS selectors (as a `Document` of selector results),
  `random.choice`, `random.randint`, `os.path.exists` and the clock.
- Spider.StartRequests: whether Scrapy's `Request` constructor accepts a seed
  (it raises `ValueError` for a URL without a scheme) is a parameter. The
  constructor's percent-escaping of the URL is not modelled: `StartRequest` keeps
  the seed verbatim, which matches Scrapy only for URLs that are already escaped
  ASCII.
- Text.Lower: `str.lower()` is modelled for ASCII letters only. Non-ASCII hosts
  are not lower-cased.
- Items.Set: the `WebPageItem.__setitem__` override replaces a falsy `timestamp`
  with the current time. It is not modelled because no modelled step assigns a
  falsy timestamp: the pipeline only assigns the current time, which is non-empty.
- Http.Request: header names are exact-case map keys with one value each.
  Scrapy's `Headers` normalise names and hold lists of values, so the model
  assumes every request carries only canonically spelled, single-valued headers,
  as the ones the modelled middlewares set do.
- Field names are an enumeration. Keys of plain mappings that no item class
  declares are collapsed into `Extra`. An `Extra` key is assumed never to carry
  the name of a declared field, so one Python key has one model key.
- Spider.ResponseDomain: the model assumes `meta['domain']` is a string when it
  is present, as in every request the spider creates. Other shapes would make the
  screenshot path formatting behave differently.
- Middlewares.RetryFromCrawler: only the lookups in `from_crawler` are modelled.
  Scrapy's default settings define `RETRY_TIMES` (2) and `RETRY_HTTP_CODES`
  themselves, so in a stock project the fallbacks of 3 and
  [500, 502, 503, 504, 408, 429] are reached only when a key is removed from the
  `Settings` object. Which settings a project ends up with is not modelled.
  Codes are integers in the model. A comma-separated string setting such as
  `-s RETRY_HTTP_CODES=503` gives string codes in Python, which never equal an
  integer status, so such a configuration retries nothing.
- Normalization.CountersSumToCalls: the counter sum is stated only for runs where
  no call raises anything other than the "Missing URL" drop. A call that raises
  `KeyError` or `AttributeError` is counted by neither counter.
- `page.close()` is modelled as always succeeding and idempotent. An error while
  closing inside the `finally` of `parse` is not modelled.
- `CrawlerPipeline.close_spider`, `DuplicateFilterPipeline.close_spider` and
  `WebSpider.closed` only log, so they are not modelled.
- `CrawlerSpiderMiddleware` is left out because its hooks pass everything through
  unchanged, and so is `CrawlerDownloaderMiddleware.process_exception`, which does
  nothing. Scrapy's built-in retry, robots and throttle machinery is left out too.
- `RetryMiddleware`, `ProxyMiddleware`, `DuplicateFilterPipeline` and
  `JSONExportPipeline` are not registered in `crawler/settings.py`. They are
  modelled on their own, as if they were enabled.
- Concurrency is left out. Requests are handled one at a time in the order the
  engine delivers them, and the order of concurrent callbacks is not modelled.
