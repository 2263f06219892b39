/** Requests and responses as the downloader middlewares and the spider see them.
    Header names are kept in the canonical spelling the code uses ("User-Agent",
    "Referer", ...); each header carries one value. */
module Http {

  import opened Base

  /** A `PageMethod` the rendering handler runs before the response is built. */
  datatype PageMethod = WaitForLoadState(state: string) | WaitForTimeout(ms: int)

  /** Values stored in `request.meta`. */
  datatype MetaValue =
    | MNone
    | MBool(b: bool)
    | MInt(i: int)
    | MStr(s: string)
    | MMethods(methods: seq<PageMethod>)

  /** Python truthiness of a meta value. */
  predicate MetaTruthy(v: MetaValue) {
    match v
    case MNone => false
    case MBool(b) => b
    case MInt(i) => i != 0
    case MStr(s) => s != ""
    case MMethods(ms) => ms != []
  }

  /** `meta.get(key)`: a missing key reads as `None`. */
  function MetaGet(meta: map<string, MetaValue>, key: string): MetaValue {
    if key in meta then meta[key] else MNone
  }

  datatype Request = Request(
    url: string,
    meta: map<string, MetaValue>,
    headers: map<string, string>,
    dontFilter: bool)

  /** A downloaded response; `meta` is the meta of the request that produced it. */
  datatype Response = Response(url: string, status: int, meta: map<string, MetaValue>)

  /** `headers.setdefault(key, value)`. */
  function SetDefault(headers: map<string, string>, key: string, value: string): (r: map<string, string>)
    ensures key in r
    ensures key in headers ==> r == headers
    ensures key !in headers ==> r == headers[key := value]
  {
    if key in headers then headers else headers[key := value]
  }
}
