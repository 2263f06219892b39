/** The Python-level vocabulary every component shares: optional values, the
    exceptions the crawler raises, and the loosely typed values items carry. */
module Base {

  datatype Option<+T> = None | Some(value: T) {
    function GetOr(default: T): T {
      match this
      case Some(v) => v
      case None => default
    }
  }

  /** Why an item pipeline stage refuses an item (`DropItem`). */
  datatype DropReason =
    | MissingUrl                // "Missing URL"
    | DuplicateItem(url: Value) // "Duplicate item found: <url>"

  /** The exceptions the modelled code raises or lets escape. */
  datatype Exception =
    | DropItem(reason: DropReason)
    | NotConfigured(message: string)
    | KeyError(field: string)    // setting a field the item class does not declare
    | AttributeError             // e.g. `.strip()` on a value that is not a string
    | TypeError                  // e.g. `None + 1`, an unhashable set key
    | ValueError                 // e.g. writing to a closed file

  /** The outcome of a Python call: a value, or the exception it raised. */
  datatype Result<+T> = Ok(value: T) | Raise(exception: Exception) {
    predicate IsFailure() {
      Raise?
    }

    function PropagateFailure<U>(): Result<U>
      requires Raise?
    {
      Raise(exception)
    }

    function Extract(): T
      requires Ok?
    {
      value
    }
  }

  /** Python values stored in item fields. `Dict` keeps insertion order. */
  datatype Value =
    | Null
    | Str(s: string)
    | Int(i: int)
    | List(elems: seq<Value>)
    | Dict(entries: seq<(string, Value)>)

  /** Python truthiness: `None`, `""`, `0`, `[]` and `{}` are false. */
  predicate Truthy(v: Value) {
    match v
    case Null => false
    case Str(s) => s != ""
    case Int(i) => i != 0
    case List(e) => e != []
    case Dict(e) => e != []
  }

  /** Values Python can put into a `set` (lists and dicts are unhashable). */
  predicate Hashable(v: Value) {
    !v.List? && !v.Dict?
  }

  /** `urlparse(url).netloc`, the authority component of section 3.2 of RFC 3986;
      `None` when `urlparse` raises `ValueError`. */
  type NetlocFn = string -> Option<string>

  /** `urljoin(base, ref)`, reference resolution of section 5.2 of RFC 3986;
      `None` when it raises `ValueError`. */
  type UrlJoinFn = (string, string) -> Option<string>

  /** `json.dumps(value, ensure_ascii=False)` (RFC 8259 text). */
  type DumpsFn = Value -> string
}
