/** The downloader middlewares of crawler/middlewares.py: header defaulting and
    `Referer` chaining, User-Agent rotation, proxy assignment and the
    status-code retry decision. Random choices are an index `pick` supplied by the
    caller; `random.choice(pool)` returns `pool[pick % |pool|]`, so every element of
    the pool, and nothing else, can be chosen. */
module Middlewares {

  import opened Base
  import opened Http

  // ---------------------------------------------------------------------------
  // CrawlerDownloaderMiddleware
  // ---------------------------------------------------------------------------

  const AcceptValue := "text/html,application/xhtml+xml,application/xml;q=0.9,*/*;q=0.8"
  const AcceptLanguageValue := "de-DE,de;q=0.9,en;q=0.8"

  /** The spider attribute the middleware reads and writes. `None` stands for both an
      absent attribute and an attribute holding `None`. */
  datatype SpiderState = SpiderState(lastUrl: Option<string>)

  /** `hasattr(spider, 'last_url') and spider.last_url`. */
  predicate HasReferer(st: SpiderState) {
    st.lastUrl.Some? && st.lastUrl.value != ""
  }

  /** `spider_opened`: forgets the previous request. */
  function SpiderOpened(st: SpiderState): (r: SpiderState)
    ensures !HasReferer(r)
  {
    SpiderState(None)
  }

  /** `CrawlerDownloaderMiddleware.process_request`: adds `Accept`,
      `Accept-Language` and (when there was a previous request) `Referer` only
      where absent, then remembers this request's URL. */
  function DownloaderProcessRequest(st: SpiderState, req: Request): (r: (SpiderState, Request))
    ensures r.0.lastUrl == Some(req.url)
    ensures r.1.url == req.url && r.1.meta == req.meta && r.1.dontFilter == req.dontFilter
    ensures forall h :: h in req.headers ==> h in r.1.headers && r.1.headers[h] == req.headers[h]
    ensures "Accept" in r.1.headers && "Accept-Language" in r.1.headers
    ensures "Accept" !in req.headers ==> r.1.headers["Accept"] == AcceptValue
    ensures "Accept-Language" !in req.headers ==> r.1.headers["Accept-Language"] == AcceptLanguageValue
    ensures "Referer" !in req.headers ==>
      ("Referer" in r.1.headers <==> HasReferer(st))
      && (HasReferer(st) ==> r.1.headers["Referer"] == st.lastUrl.value)
    ensures r.1.headers.Keys <= req.headers.Keys + {"Accept", "Accept-Language", "Referer"}
  {
    var h1 := SetDefault(req.headers, "Accept", AcceptValue);
    var h2 := SetDefault(h1, "Accept-Language", AcceptLanguageValue);
    var h3 := if HasReferer(st) then SetDefault(h2, "Referer", st.lastUrl.value) else h2;
    (SpiderState(Some(req.url)), req.(headers := h3))
  }

  /** Runs `process_request` over requests in the order the downloader sees them. */
  function DownloaderProcessAll(st: SpiderState, reqs: seq<Request>): (r: (SpiderState, seq<Request>))
    ensures |r.1| == |reqs|
    decreases |reqs|
  {
    if |reqs| == 0 then (st, [])
    else
      var (st1, out) := DownloaderProcessRequest(st, reqs[0]);
      var (st2, rest) := DownloaderProcessAll(st1, reqs[1..]);
      (st2, [out] + rest)
  }

  /** Each request after the first is sent with the previous request's URL as
      `Referer` (unless it set its own, or the previous URL is empty); after
      `spider_opened` the first request gets no `Referer` added; afterwards the
      spider remembers the last URL. */
  lemma {:induction false} RefererChain(st: SpiderState, reqs: seq<Request>)
    ensures var (st', out) := DownloaderProcessAll(st, reqs);
      && (forall i :: 1 <= i < |reqs| && "Referer" !in reqs[i].headers && reqs[i - 1].url != "" ==>
            "Referer" in out[i].headers && out[i].headers["Referer"] == reqs[i - 1].url)
      && (forall i :: 1 <= i < |reqs| && "Referer" !in reqs[i].headers && reqs[i - 1].url == "" ==>
            "Referer" !in out[i].headers)
      && (|reqs| > 0 && "Referer" !in reqs[0].headers && !HasReferer(st) ==> "Referer" !in out[0].headers)
      && (|reqs| > 0 ==> st'.lastUrl == Some(reqs[|reqs| - 1].url))
      && (|reqs| == 0 ==> st' == st)
    decreases |reqs|
  {
    if |reqs| > 0 {
      var (st1, o) := DownloaderProcessRequest(st, reqs[0]);
      var tail := reqs[1..];
      RefererChain(st1, tail);
      var (st2, rest) := DownloaderProcessAll(st1, tail);
      var out := [o] + rest;
      assert DownloaderProcessAll(st, reqs) == (st2, out);
      forall i | 1 <= i < |reqs| && "Referer" !in reqs[i].headers
        ensures reqs[i - 1].url != "" ==> "Referer" in out[i].headers && out[i].headers["Referer"] == reqs[i - 1].url
        ensures reqs[i - 1].url == "" ==> "Referer" !in out[i].headers
      {
        assert out[i] == rest[i - 1] && reqs[i] == tail[i - 1];
        if i >= 2 {
          assert reqs[i - 1] == tail[i - 2];
        }
      }
      if |tail| > 0 {
        assert reqs[|reqs| - 1] == tail[|tail| - 1];
      }
    }
  }

  /** `CrawlerDownloaderMiddleware.process_response`: every response, whatever its
      status (200, 403, 404, 5xx or any other), is handed on unchanged; this
      middleware never retries. */
  function DownloaderProcessResponse(req: Request, resp: Response): (r: Response)
    ensures r.status == resp.status && r.url == resp.url && r == resp
  {
    resp
  }

  // ---------------------------------------------------------------------------
  // RotateUserAgentMiddleware
  // ---------------------------------------------------------------------------

  /** The list the constructor installs when the middleware is built directly. */
  const BuiltinUserAgents: seq<string> := [
    "Mozilla/5.0 (Windows NT 10.0; Win64; x64) AppleWebKit/537.36 (KHTML, like Gecko) Chrome/125.0.0.0 Safari/537.36",
    "Mozilla/5.0 (Windows NT 10.0; Win64; x64) AppleWebKit/537.36 (KHTML, like Gecko) Chrome/124.0.0.0 Safari/537.36",
    "Mozilla/5.0 (Macintosh; Intel Mac OS X 10_15_7) AppleWebKit/537.36 (KHTML, like Gecko) Chrome/125.0.0.0 Safari/537.36",
    "Mozilla/5.0 (Macintosh; Intel Mac OS X 10_15_7) AppleWebKit/537.36 (KHTML, like Gecko) Chrome/124.0.0.0 Safari/537.36",
    "Mozilla/5.0 (Windows NT 10.0; Win64; x64; rv:127.0) Gecko/20100101 Firefox/127.0",
    "Mozilla/5.0 (Windows NT 10.0; Win64; x64; rv:126.0) Gecko/20100101 Firefox/126.0",
    "Mozilla/5.0 (Macintosh; Intel Mac OS X 10.15; rv:127.0) Gecko/20100101 Firefox/127.0",
    "Mozilla/5.0 (Macintosh; Intel Mac OS X 10_15_7) AppleWebKit/605.1.15 (KHTML, like Gecko) Version/17.4 Safari/605.1.15",
    "Mozilla/5.0 (Macintosh; Intel Mac OS X 10_15_7) AppleWebKit/605.1.15 (KHTML, like Gecko) Version/17.3 Safari/605.1.15",
    "Mozilla/5.0 (Windows NT 10.0; Win64; x64) AppleWebKit/537.36 (KHTML, like Gecko) Chrome/125.0.0.0 Safari/537.36 Edg/125.0.0.0",
    "Mozilla/5.0 (X11; Linux x86_64) AppleWebKit/537.36 (KHTML, like Gecko) Chrome/125.0.0.0 Safari/537.36",
    "Mozilla/5.0 (iPhone; CPU iPhone OS 17_5 like Mac OS X) AppleWebKit/605.1.15 (KHTML, like Gecko) Version/17.0 Mobile/15E148 Safari/604.1",
    "Mozilla/5.0 (Linux; Android 14; SM-S926B) AppleWebKit/537.36 (KHTML, like Gecko) Chrome/125.0.0.0 Mobile Safari/537.36"
  ]

  datatype UserAgentMiddleware = UserAgentMiddleware(userAgent: Option<string>, pool: seq<string>)

  /** `RotateUserAgentMiddleware(user_agent)`. */
  function NewUserAgentMiddleware(userAgent: Option<string>): (m: UserAgentMiddleware)
    ensures m.userAgent == userAgent
    ensures m.pool == BuiltinUserAgents && |m.pool| == 13
  {
    UserAgentMiddleware(userAgent, BuiltinUserAgents)
  }

  /** `RotateUserAgentMiddleware.from_crawler`: the configured `USER_AGENT_LIST`
      replaces the built-in list; an empty list raises `NotConfigured`. */
  function UserAgentFromCrawler(configured: seq<string>, userAgent: Option<string>): (r: Result<UserAgentMiddleware>)
    ensures r.Raise? <==> |configured| == 0
    ensures r.Raise? ==> r.exception.NotConfigured?
    ensures r.Ok? ==> r.value.pool == configured && |r.value.pool| > 0
  {
    if |configured| == 0 then Raise(NotConfigured("USER_AGENT_LIST not set or empty"))
    else Ok(NewUserAgentMiddleware(userAgent).(pool := configured))
  }

  /** `RotateUserAgentMiddleware.process_request`: overwrites `User-Agent` with a
      member of the pool and changes nothing else. Both ways of building the
      middleware leave a non-empty pool. */
  function RotateUserAgent(m: UserAgentMiddleware, req: Request, pick: nat): (r: Request)
    requires |m.pool| > 0
    ensures "User-Agent" in r.headers && r.headers["User-Agent"] in m.pool
    ensures r.url == req.url && r.meta == req.meta && r.dontFilter == req.dontFilter
    ensures r.headers.Keys == req.headers.Keys + {"User-Agent"}
    ensures forall h :: h in req.headers && h != "User-Agent" ==> r.headers[h] == req.headers[h]
  {
    req.(headers := req.headers["User-Agent" := m.pool[pick % |m.pool|]])
  }

  /** The nondeterministic pick can produce every User-Agent of the pool. */
  lemma RotationReachesEveryAgent(m: UserAgentMiddleware, req: Request, ua: string)
    requires ua in m.pool
    ensures exists pick: nat :: RotateUserAgent(m, req, pick).headers["User-Agent"] == ua
  {
    var i :| 0 <= i < |m.pool| && m.pool[i] == ua;
    assert i % |m.pool| == i;
    assert RotateUserAgent(m, req, i).headers["User-Agent"] == ua;
  }

  // ---------------------------------------------------------------------------
  // ProxyMiddleware
  // ---------------------------------------------------------------------------

  datatype ProxyMiddleware = ProxyMiddleware(proxies: seq<string>)

  /** `ProxyMiddleware.from_crawler`: the configured `PROXY_LIST`, possibly empty
      (which is only logged, not an error). */
  function ProxyFromCrawler(configured: seq<string>): (m: ProxyMiddleware)
    ensures m.proxies == configured
  {
    if |configured| > 0 then ProxyMiddleware(configured) else ProxyMiddleware([])
  }

  /** `ProxyMiddleware.process_request`: with a non-empty pool and no truthy
      `meta['proxy']`, assigns a pool member; otherwise the request is unchanged. */
  function AssignProxy(m: ProxyMiddleware, req: Request, pick: nat): (r: Request)
    ensures |m.proxies| == 0 ==> r == req
    ensures MetaTruthy(MetaGet(req.meta, "proxy")) ==> r == req
    ensures |m.proxies| > 0 && !MetaTruthy(MetaGet(req.meta, "proxy")) ==>
      && "proxy" in r.meta && r.meta["proxy"].MStr? && r.meta["proxy"].s in m.proxies
      && r == req.(meta := req.meta["proxy" := r.meta["proxy"]])
  {
    if |m.proxies| > 0 && !MetaTruthy(MetaGet(req.meta, "proxy")) then
      req.(meta := req.meta["proxy" := MStr(m.proxies[pick % |m.proxies|])])
    else req
  }

  /** Once a proxy is assigned it is never replaced, provided the pool holds no
      empty string (an empty proxy is falsy and would be re-picked). */
  lemma ProxyNeverOverwritten(m: ProxyMiddleware, req: Request, pick1: nat, pick2: nat)
    requires forall k :: 0 <= k < |m.proxies| ==> m.proxies[k] != ""
    ensures AssignProxy(m, AssignProxy(m, req, pick1), pick2) == AssignProxy(m, req, pick1)
  {
    var r1 := AssignProxy(m, req, pick1);
    if |m.proxies| > 0 && !MetaTruthy(MetaGet(req.meta, "proxy")) {
      assert r1.meta["proxy"] == MStr(m.proxies[pick1 % |m.proxies|]);
      assert MetaTruthy(MetaGet(r1.meta, "proxy"));
    }
  }

  // ---------------------------------------------------------------------------
  // RetryMiddleware
  // ---------------------------------------------------------------------------

  const DefaultRetryTimes: int := 3
  const DefaultRetryHttpCodes: seq<int> := [500, 502, 503, 504, 408, 429]

  datatype RetryMiddleware = RetryMiddleware(retryTimes: int, retryHttpCodes: seq<int>)

  /** `RetryMiddleware(retry_times, retry_http_codes)`: a missing or empty code list
      falls back to the default list (`retry_http_codes or [...]`). */
  function NewRetryMiddleware(retryTimes: int, codes: Option<seq<int>>): (m: RetryMiddleware)
    ensures m.retryTimes == retryTimes
    ensures |m.retryHttpCodes| > 0
    ensures codes.Some? && |codes.value| > 0 ==> m.retryHttpCodes == codes.value
    ensures codes.None? || |codes.value| == 0 ==> m.retryHttpCodes == DefaultRetryHttpCodes
  {
    if codes.Some? && |codes.value| > 0 then RetryMiddleware(retryTimes, codes.value)
    else RetryMiddleware(retryTimes, DefaultRetryHttpCodes)
  }

  /** `RetryMiddleware.from_crawler`: settings `RETRY_TIMES` and `RETRY_HTTP_CODES`.
      `None` stands for a key absent from the `Settings` object, where the lookup
      falls back to 3 and the default codes; a configured empty list also ends up
      with the default codes, through the constructor's `or`. */
  function RetryFromCrawler(retryTimes: Option<int>, codes: Option<seq<int>>): (m: RetryMiddleware)
    ensures retryTimes.None? ==> m.retryTimes == 3
    ensures retryTimes.Some? ==> m.retryTimes == retryTimes.value
    ensures codes.None? ==> m.retryHttpCodes == [500, 502, 503, 504, 408, 429]
    ensures codes.Some? && |codes.value| > 0 ==> m.retryHttpCodes == codes.value
    ensures codes.Some? && |codes.value| == 0 ==> m.retryHttpCodes == DefaultRetryHttpCodes
  {
    NewRetryMiddleware(retryTimes.GetOr(DefaultRetryTimes), Some(codes.GetOr(DefaultRetryHttpCodes)))
  }

  /** `request.meta.get('retry_times', 0)` as a number: `True`/`False` count as
      1/0; anything else that is not an integer makes `+ 1` raise `TypeError`. */
  function PreviousRetries(req: Request): (r: Result<int>)
    ensures "retry_times" !in req.meta ==> r == Ok(0)
    ensures r.Raise? <==> "retry_times" in req.meta && !req.meta["retry_times"].MInt? && !req.meta["retry_times"].MBool?
    ensures r.Raise? ==> r.exception == TypeError
    ensures r.Ok? && "retry_times" in req.meta && req.meta["retry_times"].MInt? ==> r.value == req.meta["retry_times"].i
    ensures r.Ok? && "retry_times" in req.meta && req.meta["retry_times"].MBool? ==>
      0 <= r.value <= 1 && (r.value == 1 <==> req.meta["retry_times"].b)
  {
    if "retry_times" !in req.meta then Ok(0)
    else match req.meta["retry_times"]
      case MInt(n) => Ok(n)
      case MBool(b) => Ok(if b then 1 else 0)
      case _ => Raise(TypeError)
  }

  /** What `process_response` hands back to the engine. */
  datatype RetryDecision =
    | Reissue(request: Request)   // a retry request to schedule
    | Deliver(response: Response) // the response goes on to the spider

  /** `request.copy()` with `meta['retry_times'] = n` and `dont_filter = True`. */
  function RetryCopy(req: Request, n: int): (r: Request)
    ensures r.url == req.url && r.headers == req.headers && r.dontFilter
    ensures r.meta.Keys == req.meta.Keys + {"retry_times"} && r.meta["retry_times"] == MInt(n)
    ensures forall k :: k in req.meta && k != "retry_times" ==> r.meta[k] == req.meta[k]
  {
    req.(meta := req.meta["retry_times" := MInt(n)], dontFilter := true)
  }

  /** `RetryMiddleware.process_response`. */
  function RetryProcessResponse(m: RetryMiddleware, req: Request, resp: Response): (r: Result<RetryDecision>)
    ensures resp.status !in m.retryHttpCodes ==> r == Ok(Deliver(resp))
    ensures resp.status in m.retryHttpCodes && PreviousRetries(req).Raise? ==> r == Raise(TypeError)
    ensures resp.status in m.retryHttpCodes && PreviousRetries(req).Ok? ==>
      var n := PreviousRetries(req).value + 1;
      && (n <= m.retryTimes ==> r == Ok(Reissue(RetryCopy(req, n))))
      && (n > m.retryTimes ==> r == Ok(Deliver(resp)))
    ensures r.Ok? && r.value.Deliver? ==> r.value.response == resp
    ensures r.Ok? && r.value.Reissue? && PreviousRetries(req).Ok? && PreviousRetries(req).value >= 0 ==>
      1 <= PreviousRetries(r.value.request).value <= m.retryTimes
  {
    if resp.status in m.retryHttpCodes then
      var prev :- PreviousRetries(req);
      var n := prev + 1;
      if n <= m.retryTimes then Ok(Reissue(RetryCopy(req, n)))
      else Ok(Deliver(resp))
    else Ok(Deliver(resp))
  }

  /** The engine's view of a URL whose every fetch answers with the statuses in
      order: the retry requests issued and the response finally delivered (if the
      statuses run out first, nothing is delivered yet). */
  datatype RetryTrace = RetryTrace(reissued: seq<Request>, delivered: Option<Response>)

  function RunRetries(m: RetryMiddleware, req: Request, statuses: seq<int>): RetryTrace
    decreases |statuses|
  {
    if |statuses| == 0 then RetryTrace([], None)
    else
      var resp := Response(req.url, statuses[0], req.meta);
      match RetryProcessResponse(m, req, resp)
      case Ok(Reissue(next)) =>
        var t := RunRetries(m, next, statuses[1..]);
        RetryTrace([next] + t.reissued, t.delivered)
      case Ok(Deliver(r)) => RetryTrace([], Some(r))
      case Raise(_) => RetryTrace([], None)
  }

  /** One retryable failure of a request tried `k < retryTimes` extra times: the
      copy re-issued carries attempt number `k + 1`. */
  lemma RetryStep(m: RetryMiddleware, req: Request, status: int, k: int)
    requires status in m.retryHttpCodes && PreviousRetries(req) == Ok(k) && k < m.retryTimes
    ensures RetryProcessResponse(m, req, Response(req.url, status, req.meta)) == Ok(Reissue(RetryCopy(req, k + 1)))
    ensures PreviousRetries(RetryCopy(req, k + 1)) == Ok(k + 1)
  {
  }

  /** A URL that keeps failing with retryable statuses and has already been tried
      `k` extra times is re-issued exactly `retryTimes - k` more times, and the next
      failure is delivered (given up). */
  lemma {:induction false} RetriesThenGivesUp(m: RetryMiddleware, req: Request, statuses: seq<int>, k: int)
    requires 0 <= k <= m.retryTimes
    requires PreviousRetries(req) == Ok(k)
    requires forall i :: 0 <= i < |statuses| ==> statuses[i] in m.retryHttpCodes
    requires |statuses| > m.retryTimes - k
    ensures var t := RunRetries(m, req, statuses);
      && |t.reissued| == m.retryTimes - k
      && t.delivered.Some?
      && t.delivered.value.url == req.url
      && t.delivered.value.status == statuses[m.retryTimes - k]
    decreases m.retryTimes - k
  {
    var resp := Response(req.url, statuses[0], req.meta);
    if k < m.retryTimes {
      var next := RetryCopy(req, k + 1);
      RetryStep(m, req, statuses[0], k);
      assert forall i :: 0 <= i < |statuses[1..]| ==> statuses[1..][i] == statuses[i + 1];
      RetriesThenGivesUp(m, next, statuses[1..], k + 1);
    } else {
      assert RetryProcessResponse(m, req, resp) == Ok(Deliver(resp));
    }
  }

  /** The requests are all for `url` and carry attempt numbers `k+1, k+2, ...`. */
  predicate NumberedFrom(rs: seq<Request>, url: string, k: int) {
    forall i :: 0 <= i < |rs| ==> rs[i].url == url && PreviousRetries(rs[i]) == Ok(k + i + 1)
  }

  /** The retry requests of such a URL are for the same URL and carry the attempt
      numbers `k+1, k+2, ...` in order. */
  lemma {:induction false} RetryAttemptsNumbered(m: RetryMiddleware, req: Request, statuses: seq<int>, k: int)
    requires 0 <= k
    requires PreviousRetries(req) == Ok(k)
    requires forall i :: 0 <= i < |statuses| ==> statuses[i] in m.retryHttpCodes
    ensures NumberedFrom(RunRetries(m, req, statuses).reissued, req.url, k)
    decreases |statuses|
  {
    if |statuses| > 0 && k < m.retryTimes {
      var next := RetryCopy(req, k + 1);
      RetryStep(m, req, statuses[0], k);
      assert forall i :: 0 <= i < |statuses[1..]| ==> statuses[1..][i] == statuses[i + 1];
      RetryAttemptsNumbered(m, next, statuses[1..], k + 1);
      var rest := RunRetries(m, next, statuses[1..]).reissued;
      assert NumberedFrom(rest, req.url, k + 1);
      var all := [next] + rest;
      assert RunRetries(m, req, statuses).reissued == all;
      forall i | 0 <= i < |all|
        ensures all[i].url == req.url && PreviousRetries(all[i]) == Ok(k + i + 1)
      {
        if i > 0 {
          assert all[i] == rest[i - 1];
        }
      }
    } else if |statuses| > 0 {
      var resp := Response(req.url, statuses[0], req.meta);
      assert RetryProcessResponse(m, req, resp) == Ok(Deliver(resp));
    }
  }

  /** With the default settings, a URL answering 503 three times is still being
      retried (three retry requests are out), and only the fourth 503 is given up
      and delivered. */
  lemma DefaultRetriesThreeTimes(url: string)
    ensures var m := NewRetryMiddleware(DefaultRetryTimes, None);
      var req := Request(url, map[], map[], false);
      && |RunRetries(m, req, [503, 503, 503]).reissued| == 3
      && RunRetries(m, req, [503, 503, 503]).delivered == None
      && |RunRetries(m, req, [503, 503, 503, 503]).reissued| == 3
      && RunRetries(m, req, [503, 503, 503, 503]).delivered.Some?
  {
    var m := NewRetryMiddleware(DefaultRetryTimes, None);
    var req := Request(url, map[], map[], false);
    RetriesThenGivesUp(m, req, [503, 503, 503, 503], 0);
    var r1 := RetryCopy(req, 1);
    var r2 := RetryCopy(r1, 2);
    var r3 := RetryCopy(r2, 3);
    assert RunRetries(m, r3, []) == RetryTrace([], None);
    assert [503, 503, 503][1..] == [503, 503];
    assert [503, 503][1..] == [503];
    assert [503][1..] == [];
  }
}
