/** `CrawlerPipeline` of crawler/pipelines.py: the first item stage. It drops items
    without a URL, fills in a default title and a timestamp, strips the URL and
    derives the domain from it, and cleans the title and the description.

    Every assignment goes through `Items.Set`, so an item class that does not declare
    `title` (`TenderItem`) or `timestamp` (`NewsArticleItem`) makes the stage raise
    `KeyError`. The clock reading is the parameter `now`, `urlparse(...).netloc` the
    parameter `netloc`. */
module Normalization {

  import opened Base
  import opened Text
  import opened Items

  /** Longest title the stage lets through (including the "..." marker). */
  const TitleLimit: nat := 200

  /** Longest description the stage lets through (including the "..." marker). */
  const DescriptionLimit: nat := 500

  /** The fields the stage may write; every other field is left as it was. */
  const NormalizedKeys: set<Field> := {Url, Domain, Title, Timestamp, Description}

  lemma CollapseNonEmpty(t: string)
    requires t != "" && Stripped(t)
    ensures Collapse(t) != ""
  {
    WordsOfNonBlank(t);
  }

  /** `' '.join(title.split())`, then cut to 197 characters plus "..." when longer
      than 200. */
  function CleanTitle(t: string): (r: string)
    ensures Collapsed(r) && |r| <= TitleLimit
    ensures |Collapse(t)| <= TitleLimit ==> r == Collapse(t)
    ensures |Collapse(t)| > TitleLimit ==> r == Collapse(t)[..TitleLimit - 3] + "..."
  {
    var c := Collapse(t);
    CollapseIsCollapsed(t);
    if |c| > TitleLimit then
      CollapsedPrefixThenWord(c, TitleLimit - 3, "...");
      c[..TitleLimit - 3] + "..."
    else c
  }

  /** A clean title is left alone by cleaning it again. */
  lemma CleanTitleFixed(t: string)
    requires Collapsed(t) && |t| <= TitleLimit
    ensures CleanTitle(t) == t
  {
    CollapsedFixed(t);
  }

  lemma CleanTitleIdempotent(t: string)
    ensures CleanTitle(CleanTitle(t)) == CleanTitle(t)
  {
    CleanTitleFixed(CleanTitle(t));
  }

  /** `description.strip()`, then cut to 497 characters plus "..." when longer than
      500. */
  function CleanDescription(d: string): (r: string)
    ensures Stripped(r) && |r| <= DescriptionLimit
    ensures r == "" <==> Strip(d) == ""
    ensures |Strip(d)| <= DescriptionLimit ==> r == Strip(d)
    ensures |Strip(d)| > DescriptionLimit ==> r == Strip(d)[..DescriptionLimit - 3] + "..."
  {
    var s := Strip(d);
    if |s| > DescriptionLimit then s[..DescriptionLimit - 3] + "..." else s
  }

  lemma CleanDescriptionFixed(d: string)
    requires Stripped(d) && |d| <= DescriptionLimit
    ensures CleanDescription(d) == d
  {
    StrippedFixed(d);
  }

  /** `after` is `before` with at most the fields `keys` assigned: same class, no
      field removed, every other field unchanged. */
  ghost predicate Keeps(before: Item, after: Item, keys: set<Field>) {
    && after.shape == before.shape
    && before.fields.Keys <= after.fields.Keys
    && forall k {:trigger Unchanged(before, after, k)} :: k !in keys ==> Unchanged(before, after, k)
  }

  /** Field `k` is present in both items with the same value, or in neither. */
  predicate Unchanged(before: Item, after: Item, k: Field) {
    && (k in after.fields <==> k in before.fields)
    && (k in before.fields ==> after.fields[k] == before.fields[k])
  }

  lemma KeepsGet(before: Item, after: Item, keys: set<Field>, k: Field)
    requires Keeps(before, after, keys) && k !in keys
    ensures Get(after, k) == Get(before, k) && GetOr(after, k, Str("")) == GetOr(before, k, Str(""))
  {
    assert Unchanged(before, after, k);
  }

  lemma KeepsChain(a: Item, b: Item, c: Item, k1: set<Field>, k2: set<Field>)
    requires Keeps(a, b, k1) && Keeps(b, c, k2)
    ensures Keeps(a, c, k1 + k2)
  {
    forall k | k !in k1 + k2
      ensures Unchanged(a, c, k)
    {
      assert Unchanged(a, b, k) && Unchanged(b, c, k);
    }
  }

  /** An assignment that succeeded keeps every other field. */
  lemma SetKeeps(item: Item, key: Field, v: Value)
    requires Set(item, key, v).Ok?
    ensures Keeps(item, Set(item, key, v).value, {key})
  {
  }

  /** `if not adapter.get('title'): adapter['title'] = "Ohne Titel"`. */
  function DefaultTitle(item: Item): (r: Result<Item>)
    ensures r.Raise? <==> !Truthy(Get(item, Title)) && !Declares(item.shape, Title)
    ensures r.Raise? ==> r.exception == KeyError("title")
    ensures r.Ok? ==> Keeps(item, r.value, {Title}) && (WellFormed(item) ==> WellFormed(r.value))
    ensures r.Ok? ==> Get(r.value, Title) == if Truthy(Get(item, Title)) then Get(item, Title) else Str(NoTitle)
  {
    if Truthy(Get(item, Title)) then Ok(item) else Set(item, Title, Str(NoTitle))
  }

  /** `if not adapter.get('timestamp'): adapter['timestamp'] = now`. */
  function DefaultTimestamp(item: Item, now: string): (r: Result<Item>)
    ensures r.Raise? <==> !Truthy(Get(item, Timestamp)) && !Declares(item.shape, Timestamp)
    ensures r.Raise? ==> r.exception == KeyError("timestamp")
    ensures r.Ok? ==> Keeps(item, r.value, {Timestamp}) && (WellFormed(item) ==> WellFormed(r.value))
    ensures r.Ok? ==> Get(r.value, Timestamp) == if Truthy(Get(item, Timestamp)) then Get(item, Timestamp) else Str(now)
  {
    if Truthy(Get(item, Timestamp)) then Ok(item) else Set(item, Timestamp, Str(now))
  }

  /** The URL block: strip the URL; when something is left, store it and fill in an
      empty domain from its netloc ("unknown" when `urlparse` raises). A URL that is
      not a string raises `AttributeError`. */
  function NormalizeUrl(item: Item, netloc: NetlocFn): (r: Result<Item>)
    ensures r.Raise? ==> r.exception.KeyError? || r.exception == AttributeError
    ensures r.Ok? ==> Keeps(item, r.value, {Url, Domain}) && (WellFormed(item) ==> WellFormed(r.value))
    ensures Declares(item.shape, Url) && Declares(item.shape, Domain) ==>
      (r.Ok? <==> GetOr(item, Url, Str("")).Str?)
    ensures r.Ok? ==> var v := GetOr(item, Url, Str("")); v.Str? && (Strip(v.s) == "" ==> r.value == item)
    ensures r.Ok? ==> var u := Strip(GetOr(item, Url, Str("")).s);
      u != "" ==> && Get(r.value, Url) == Str(u)
                  && Get(r.value, Domain) ==
                     (if Truthy(Get(item, Domain)) then Get(item, Domain) else Str(netloc(u).GetOr("unknown")))
  {
    var v := GetOr(item, Url, Str(""));
    if !v.Str? then Raise(AttributeError)
    else
      var u := Strip(v.s);
      if u == "" then Ok(item)
      else
        var stored := Set(item, Url, Str(u));
        if stored.Raise? then stored
        else
          var withUrl := stored.value;
          SetKeeps(item, Url, Str(u));
          KeepsGet(item, withUrl, {Url}, Domain);
          var r := FillDomain(withUrl, u, netloc);
          if r.Ok? then
            KeepsChain(item, withUrl, r.value, {Url}, {Domain});
            KeepsGet(withUrl, r.value, {Domain}, Url);
            r
          else r
  }

  /** `if not adapter.get('domain'): adapter['domain'] = urlparse(url).netloc`, with
      "unknown" when `urlparse` raises. The bare `except` around it also catches a
      `KeyError` from the assignment; the fallback assignment then raises the same
      `KeyError`. */
  function FillDomain(item: Item, u: string, netloc: NetlocFn): (r: Result<Item>)
    ensures r.Raise? <==> !Truthy(Get(item, Domain)) && !Declares(item.shape, Domain)
    ensures r.Raise? ==> r.exception == KeyError("domain")
    ensures r.Ok? ==> Keeps(item, r.value, {Domain}) && (WellFormed(item) ==> WellFormed(r.value))
    ensures Truthy(Get(item, Domain)) ==> r == Ok(item)
    ensures r.Ok? && !Truthy(Get(item, Domain)) ==> Get(r.value, Domain) == Str(netloc(u).GetOr("unknown"))
  {
    if Truthy(Get(item, Domain)) then Ok(item)
    else Set(item, Domain, Str(netloc(u).GetOr("unknown")))
  }

  /** The title block: a title that strips to something non-empty is replaced by its
      cleaned form; a title that is not a string raises `AttributeError`. */
  function NormalizeTitle(item: Item): (r: Result<Item>)
    ensures r.Raise? ==> r.exception.KeyError? || r.exception == AttributeError
    ensures r.Ok? ==> Keeps(item, r.value, {Title}) && (WellFormed(item) ==> WellFormed(r.value))
    ensures Declares(item.shape, Title) ==> (r.Ok? <==> GetOr(item, Title, Str("")).Str?)
    ensures r.Ok? ==> var v := GetOr(item, Title, Str("")); v.Str? && (Strip(v.s) == "" ==> r.value == item)
    ensures r.Ok? ==> var t := Strip(GetOr(item, Title, Str("")).s);
      t != "" ==> Get(r.value, Title) == Str(CleanTitle(t))
  {
    var v := GetOr(item, Title, Str(""));
    if !v.Str? then Raise(AttributeError)
    else
      var t := Strip(v.s);
      if t == "" then Ok(item) else Set(item, Title, Str(CleanTitle(t)))
  }

  /** The description block: a truthy description is replaced by its cleaned form
      (which may be empty); one that is not a string raises `AttributeError`. */
  function NormalizeDescription(item: Item): (r: Result<Item>)
    ensures r.Raise? ==> r.exception.KeyError? || r.exception == AttributeError
    ensures r.Ok? ==> Keeps(item, r.value, {Description}) && (WellFormed(item) ==> WellFormed(r.value))
    ensures Declares(item.shape, Description) ==>
      (r.Ok? <==> !Truthy(Get(item, Description)) || Get(item, Description).Str?)
    ensures !Truthy(Get(item, Description)) ==> r == Ok(item)
    ensures r.Ok? && Truthy(Get(item, Description)) ==>
      Get(item, Description).Str? && Get(r.value, Description) == Str(CleanDescription(Get(item, Description).s))
  {
    var v := Get(item, Description);
    if !Truthy(v) then Ok(item)
    else if !v.Str? then Raise(AttributeError)
    else Set(item, Description, Str(CleanDescription(v.s)))
  }

  /** The five assignment blocks of `CrawlerPipeline.process_item`, in order; the
      first `KeyError` or `AttributeError` escapes. */
  function Steps(item: Item, now: string, netloc: NetlocFn): (r: Result<Item>)
    ensures r.Raise? ==> r.exception.KeyError? || r.exception == AttributeError
    ensures r.Ok? ==> r.value.shape == item.shape
    ensures r.Ok? && WellFormed(item) ==> WellFormed(r.value)
  {
    var titled :- DefaultTitle(item);
    var stamped :- DefaultTimestamp(titled, now);
    Rewrite(stamped, netloc)
  }

  /** The three blocks after the defaults: URL, title, description. */
  function Rewrite(item: Item, netloc: NetlocFn): (r: Result<Item>)
    ensures r.Raise? ==> r.exception.KeyError? || r.exception == AttributeError
    ensures r.Ok? ==> r.value.shape == item.shape
    ensures r.Ok? && WellFormed(item) ==> WellFormed(r.value)
  {
    var located :- NormalizeUrl(item, netloc);
    var named :- NormalizeTitle(located);
    NormalizeDescription(named)
  }

  /** `CrawlerPipeline.process_item`: an item without a URL is dropped, any other
      goes through the five blocks.
      - A web page or plain mapping gets through exactly when it is accepted.
      - A well-formed news article or tender with a URL never gets through: filling
        in the missing timestamp, or the missing title, raises `KeyError`.
      - Whatever gets through keeps its class and every field but the five the stage
        writes, and those five hold the values `Cleaned` reads off the input; it is
        normalised (given a non-empty clock reading, which
        `isoformat()` always is); a title of only whitespace is kept verbatim.
      - A well-formed item that is already normalised is left exactly as it is. */
  function Normalize(item: Item, now: string, netloc: NetlocFn): (r: Result<Item>)
    ensures !Truthy(Get(item, Url)) ==> r == Raise(DropItem(MissingUrl))
    ensures Truthy(Get(item, Url)) && r.Raise? ==> r.exception.KeyError? || r.exception == AttributeError
    ensures (item.shape == WebPage || item.shape == Plain) ==> (r.Ok? <==> Accepted(item))
    ensures WellFormed(item) && Truthy(Get(item, Url)) && item.shape == NewsArticle ==>
      r == Raise(KeyError("timestamp"))
    ensures WellFormed(item) && Truthy(Get(item, Url)) && item.shape == Tender ==>
      r == Raise(KeyError("title"))
    ensures r.Ok? ==> Keeps(item, r.value, NormalizedKeys)
    ensures r.Ok? ==> Cleaned(item, r.value, now, netloc)
    ensures r.Ok? && WellFormed(item) ==> WellFormed(r.value)
    ensures r.Ok? && now != "" ==> Normalized(r.value, netloc)
    ensures r.Ok? && BlankTitle(item) ==> Get(r.value, Title) == Get(item, Title)
    ensures WellFormed(item) && Normalized(item, netloc) ==> r == Ok(item)
  {
    if !Truthy(Get(item, Url)) then Raise(DropItem(MissingUrl))
    else
      StepsFacts(item, now, netloc);
      Steps(item, now, netloc)
  }

  /** The web pages and plain mappings the stage lets through: a URL that is a
      non-empty string, and a title and description that are strings whenever they
      are truthy. */
  predicate Accepted(item: Item) {
    && (item.shape == WebPage || item.shape == Plain)
    && Get(item, Url).Str? && Get(item, Url).s != ""
    && (!Truthy(Get(item, Title)) || Get(item, Title).Str?)
    && (!Truthy(Get(item, Description)) || Get(item, Description).Str?)
  }

  /** A non-empty title of only whitespace: truthy, so the default does not replace
      it, and blank after `strip()`, so the title block leaves it alone. */
  predicate BlankTitle(item: Item) {
    Get(item, Title).Str? && Get(item, Title).s != "" && Strip(Get(item, Title).s) == ""
  }

  /** The shape of a normalised item: a truthy string URL that is stripped unless
      it is blank, with the domain filled in; a truthy string title that is
      collapsed and at most 200 characters unless it is blank; a truthy timestamp;
      and a description that is falsy or a stripped string of at most 500
      characters. */
  predicate Normalized(it: Item, netloc: NetlocFn) {
    && Get(it, Url).Str? && Truthy(Get(it, Url))
    && UrlNormalized(it, netloc)
    && Get(it, Title).Str? && Truthy(Get(it, Title))
    && (Strip(Get(it, Title).s) == "" || (Collapsed(Get(it, Title).s) && |Get(it, Title).s| <= TitleLimit))
    && Truthy(Get(it, Timestamp))
    && DescriptionNormalized(it)
  }

  predicate UrlNormalized(it: Item, netloc: NetlocFn)
    requires Get(it, Url).Str?
  {
    var u := Get(it, Url).s;
    || Strip(u) == ""
    || (Stripped(u) && (Truthy(Get(it, Domain)) || Get(it, Domain) == Str(netloc(u).GetOr("unknown"))))
  }

  predicate DescriptionNormalized(it: Item) {
    var d := Get(it, Description);
    !Truthy(d) || (d.Str? && Stripped(d.s) && |d.s| <= DescriptionLimit)
  }

  /** The value each of the five written fields of `out` takes, read off the item
      `item` that came in: field by field, what `process_item` assigns. */
  predicate Cleaned(item: Item, out: Item, now: string, netloc: NetlocFn) {
    && TitleCleaned(item, out)
    && StampCleaned(item, out, now)
    && UrlCleaned(item, out, netloc)
    && DescriptionCleaned(item, out)
  }

  /** A falsy title becomes "Ohne Titel", a blank one is kept, any other is
      stripped and cleaned. */
  predicate TitleCleaned(item: Item, out: Item) {
    var t := Get(item, Title);
    if !Truthy(t) then Get(out, Title) == Str(NoTitle)
    else t.Str? && Get(out, Title) == (if Strip(t.s) == "" then t else Str(CleanTitle(Strip(t.s))))
  }

  /** A truthy timestamp is kept, any other is replaced by the clock reading. */
  predicate StampCleaned(item: Item, out: Item, now: string) {
    Get(out, Timestamp) == if Truthy(Get(item, Timestamp)) then Get(item, Timestamp) else Str(now)
  }

  /** The URL is stripped unless it is blank. The domain is kept when it is truthy
      or the URL is blank, and otherwise taken from the stripped URL's netloc, or
      "unknown" when `urlparse` raises. */
  predicate UrlCleaned(item: Item, out: Item, netloc: NetlocFn) {
    var v := Get(item, Url);
    && v.Str?
    && var u := Strip(v.s);
       && Get(out, Url) == (if u == "" then v else Str(u))
       && Get(out, Domain) ==
          (if u == "" || Truthy(Get(item, Domain)) then Get(item, Domain) else Str(netloc(u).GetOr("unknown")))
  }

  /** A truthy description is replaced by its cleaned form, any other is kept. */
  predicate DescriptionCleaned(item: Item, out: Item) {
    var d := Get(item, Description);
    if !Truthy(d) then Get(out, Description) == d
    else d.Str? && Get(out, Description) == Str(CleanDescription(d.s))
  }

  /** Everything `Normalize` promises about the five blocks, gathered for its proof. */
  lemma StepsFacts(item: Item, now: string, netloc: NetlocFn)
    requires Truthy(Get(item, Url))
    ensures var r := Steps(item, now, netloc);
      && ((item.shape == WebPage || item.shape == Plain) ==> (r.Ok? <==> Accepted(item)))
      && (WellFormed(item) && item.shape == NewsArticle ==> r == Raise(KeyError("timestamp")))
      && (WellFormed(item) && item.shape == Tender ==> r == Raise(KeyError("title")))
      && (r.Ok? ==> Keeps(item, r.value, NormalizedKeys))
      && (r.Ok? ==> Cleaned(item, r.value, now, netloc))
      && (r.Ok? && now != "" ==> Normalized(r.value, netloc))
      && (r.Ok? && BlankTitle(item) ==> Get(r.value, Title) == Get(item, Title))
      && (WellFormed(item) && Normalized(item, netloc) ==> r == Ok(item))
  {
    if WellFormed(item) && Normalized(item, netloc) {
      NormalizedIsFixed(item, now, netloc);
    }
    if item.shape == WebPage || item.shape == Plain {
      StepsSucceedIff(item, now, netloc);
    }
    if WellFormed(item) {
      StepsRaiseKeyError(item, now, netloc);
    }
    if Steps(item, now, netloc).Ok? {
      StepsKeep(item, now, netloc);
      StepsCleaned(item, now, netloc);
      if now != "" {
        StepsNormalize(item, now, netloc);
      }
      if BlankTitle(item) {
        StepsKeepBlankTitle(item, now, netloc);
      }
    }
  }

  /** The intermediate items of a successful run of the five blocks. */
  lemma Stages(item: Item, now: string, netloc: NetlocFn)
    returns (titled: Item, stamped: Item, located: Item, named: Item, out: Item)
    requires Steps(item, now, netloc).Ok?
    ensures DefaultTitle(item) == Ok(titled) && DefaultTimestamp(titled, now) == Ok(stamped)
    ensures NormalizeUrl(stamped, netloc) == Ok(located) && NormalizeTitle(located) == Ok(named)
    ensures NormalizeDescription(named) == Ok(out) && Steps(item, now, netloc) == Ok(out)
  {
    titled := DefaultTitle(item).value;
    stamped := DefaultTimestamp(titled, now).value;
    located := NormalizeUrl(stamped, netloc).value;
    named := NormalizeTitle(located).value;
    out := NormalizeDescription(named).value;
  }

  /** Only the five normalised fields can change, and none disappears. */
  lemma StepsKeep(item: Item, now: string, netloc: NetlocFn)
    requires Steps(item, now, netloc).Ok?
    ensures Keeps(item, Steps(item, now, netloc).value, NormalizedKeys)
  {
    var titled, stamped, located, named, out := Stages(item, now, netloc);
    KeepsChain(item, titled, stamped, {Title}, {Timestamp});
    KeepsChain(item, stamped, located, {Title, Timestamp}, {Url, Domain});
    KeepsChain(item, located, named, {Title, Timestamp, Url, Domain}, {Title});
    KeepsChain(item, named, out, {Title, Timestamp, Url, Domain, Title}, {Description});
    assert {Title, Timestamp, Url, Domain, Title} + {Description} == NormalizedKeys;
  }

  /** "Ohne Titel" is already clean. */
  lemma NoTitleClean()
    ensures Stripped(NoTitle) && Strip(NoTitle) == NoTitle && CleanTitle(NoTitle) == NoTitle
  {
    assert Collapsed(NoTitle) by {
      forall i | 0 <= i < |NoTitle|
        ensures SpaceAt(NoTitle, i)
      {
      }
    }
    CollapsedIsStripped(NoTitle);
    StrippedFixed(NoTitle);
    CleanTitleFixed(NoTitle);
  }

  /** Each written field of a successful run holds the value `Cleaned` names. */
  lemma StepsCleaned(item: Item, now: string, netloc: NetlocFn)
    requires Truthy(Get(item, Url)) && Steps(item, now, netloc).Ok?
    ensures Cleaned(item, Steps(item, now, netloc).value, now, netloc)
  {
    var titled, stamped, located, named, out := Stages(item, now, netloc);
    StepsTitleValue(item, titled, stamped, located, named, out);
    StepsStampValue(item, titled, stamped, located, named, out, now);
    StepsUrlValue(item, titled, stamped, located, named, out, netloc);
    StepsDescriptionValue(item, titled, stamped, located, named, out);
  }

  lemma StepsTitleValue(item: Item, titled: Item, stamped: Item, located: Item, named: Item, out: Item)
    requires DefaultTitle(item) == Ok(titled) && Keeps(titled, stamped, {Timestamp})
    requires Keeps(stamped, located, {Url, Domain}) && NormalizeTitle(located) == Ok(named)
    requires Keeps(named, out, {Description})
    ensures TitleCleaned(item, out)
  {
    KeepsGet(titled, stamped, {Timestamp}, Title);
    KeepsGet(stamped, located, {Url, Domain}, Title);
    KeepsGet(named, out, {Description}, Title);
    assert Title in located.fields;
    if !Truthy(Get(item, Title)) {
      NoTitleClean();
    }
  }

  lemma StepsStampValue(item: Item, titled: Item, stamped: Item, located: Item, named: Item, out: Item, now: string)
    requires Keeps(item, titled, {Title}) && DefaultTimestamp(titled, now) == Ok(stamped)
    requires Keeps(stamped, located, {Url, Domain}) && Keeps(located, named, {Title})
    requires Keeps(named, out, {Description})
    ensures StampCleaned(item, out, now)
  {
    KeepsGet(item, titled, {Title}, Timestamp);
    KeepsGet(stamped, located, {Url, Domain}, Timestamp);
    KeepsGet(located, named, {Title}, Timestamp);
    KeepsGet(named, out, {Description}, Timestamp);
  }

  lemma StepsUrlValue(item: Item, titled: Item, stamped: Item, located: Item, named: Item, out: Item,
                      netloc: NetlocFn)
    requires Truthy(Get(item, Url))
    requires Keeps(item, titled, {Title}) && Keeps(titled, stamped, {Timestamp})
    requires NormalizeUrl(stamped, netloc) == Ok(located)
    requires Keeps(located, named, {Title}) && Keeps(named, out, {Description})
    ensures UrlCleaned(item, out, netloc)
  {
    KeepsChain(item, titled, stamped, {Title}, {Timestamp});
    KeepsGet(item, stamped, {Title, Timestamp}, Url);
    KeepsGet(item, stamped, {Title, Timestamp}, Domain);
    KeepsChain(located, named, out, {Title}, {Description});
    KeepsGet(located, out, {Title, Description}, Url);
    KeepsGet(located, out, {Title, Description}, Domain);
    assert Url in stamped.fields;
  }

  lemma StepsDescriptionValue(item: Item, titled: Item, stamped: Item, located: Item, named: Item, out: Item)
    requires Keeps(item, titled, {Title}) && Keeps(titled, stamped, {Timestamp})
    requires Keeps(stamped, located, {Url, Domain}) && Keeps(located, named, {Title})
    requires NormalizeDescription(named) == Ok(out)
    ensures DescriptionCleaned(item, out)
  {
    KeepsGet(item, titled, {Title}, Description);
    KeepsGet(titled, stamped, {Timestamp}, Description);
    KeepsGet(stamped, located, {Url, Domain}, Description);
    KeepsGet(located, named, {Title}, Description);
  }

  /** A `NewsArticleItem` never gets through: it declares no `timestamp`, so filling
      one in raises `KeyError`. A well-formed `TenderItem` has no `title` and does
      not declare one, so filling in the default raises first. */
  lemma StepsRaiseKeyError(item: Item, now: string, netloc: NetlocFn)
    requires WellFormed(item)
    ensures item.shape == NewsArticle ==> Steps(item, now, netloc) == Raise(KeyError("timestamp"))
    ensures item.shape == Tender ==> Steps(item, now, netloc) == Raise(KeyError("title"))
  {
    if item.shape == NewsArticle {
      var titled := DefaultTitle(item).value;
      assert Timestamp !in item.fields;
      KeepsGet(item, titled, {Title}, Timestamp);
      assert DefaultTimestamp(titled, now) == Raise(KeyError("timestamp"));
    }
    if item.shape == Tender {
      assert Title !in item.fields;
      assert DefaultTitle(item) == Raise(KeyError("title"));
    }
  }

  /** For classes that declare every field the stage writes, the five blocks succeed
      exactly on the accepted items. */
  lemma StepsSucceedIff(item: Item, now: string, netloc: NetlocFn)
    requires item.shape == WebPage || item.shape == Plain
    requires Truthy(Get(item, Url))
    ensures Steps(item, now, netloc).Ok? <==> Accepted(item)
  {
    var stamped := StampedFacts(item, now);
    assert Steps(item, now, netloc) == Rewrite(stamped, netloc);
    RewriteSucceedsIff(stamped, netloc);
  }

  /** For classes that declare every field, the three rewriting blocks succeed
      exactly when the URL, and the title and description when truthy, are
      strings. */
  lemma RewriteSucceedsIff(stamped: Item, netloc: NetlocFn)
    requires stamped.shape == WebPage || stamped.shape == Plain
    ensures Rewrite(stamped, netloc).Ok? <==>
      && GetOr(stamped, Url, Str("")).Str?
      && GetOr(stamped, Title, Str("")).Str?
      && (!Truthy(Get(stamped, Description)) || Get(stamped, Description).Str?)
  {
    var byUrl := NormalizeUrl(stamped, netloc);
    if byUrl.Raise? {
      return;
    }
    var located := byUrl.value;
    KeepsGet(stamped, located, {Url, Domain}, Title);
    KeepsGet(stamped, located, {Url, Domain}, Description);
    var byTitle := NormalizeTitle(located);
    if byTitle.Raise? {
      return;
    }
    KeepsGet(located, byTitle.value, {Title}, Description);
  }

  /** The item after the two defaults, for a class that declares every field. */
  lemma StampedFacts(item: Item, now: string) returns (stamped: Item)
    requires item.shape == WebPage || item.shape == Plain
    ensures DefaultTitle(item).Ok? && DefaultTimestamp(DefaultTitle(item).value, now) == Ok(stamped)
    ensures stamped.shape == item.shape
    ensures Get(stamped, Url) == Get(item, Url) && GetOr(stamped, Url, Str("")) == GetOr(item, Url, Str(""))
    ensures Get(stamped, Description) == Get(item, Description)
    ensures GetOr(stamped, Title, Str("")).Str? <==> (!Truthy(Get(item, Title)) || Get(item, Title).Str?)
  {
    var titled := DefaultTitle(item).value;
    stamped := DefaultTimestamp(titled, now).value;
    KeepsGet(item, titled, {Title}, Url);
    KeepsGet(titled, stamped, {Timestamp}, Url);
    KeepsGet(titled, stamped, {Timestamp}, Title);
    KeepsGet(item, titled, {Title}, Description);
    KeepsGet(titled, stamped, {Timestamp}, Description);
  }

  lemma UrlStepNormalizes(item: Item, netloc: NetlocFn)
    requires NormalizeUrl(item, netloc).Ok? && Truthy(Get(item, Url))
    ensures var out := NormalizeUrl(item, netloc).value;
      Get(out, Url).Str? && Truthy(Get(out, Url)) && UrlNormalized(out, netloc)
    ensures Truthy(Get(item, Domain)) ==> Get(NormalizeUrl(item, netloc).value, Domain) == Get(item, Domain)
  {
    var out := NormalizeUrl(item, netloc).value;
    var s := Get(item, Url).s;
    var u := Strip(s);
    if u == "" {
      assert out == item;
    } else {
      StrippedFixed(u);
      var withUrl := Set(item, Url, Str(u)).value;
      assert Get(withUrl, Url) == Str(u);
      if Truthy(Get(withUrl, Domain)) {
        assert out == withUrl;
      } else {
        var d := Str(netloc(u).GetOr("unknown"));
        assert out == Set(withUrl, Domain, d).value;
        assert Get(out, Url) == Str(u);
        assert Get(out, Domain) == d;
      }
    }
  }

  lemma TitleStepNormalizes(item: Item)
    requires NormalizeTitle(item).Ok? && Truthy(Get(item, Title))
    ensures var out := NormalizeTitle(item).value;
      && Get(out, Title).Str? && Truthy(Get(out, Title))
      && (Strip(Get(out, Title).s) == "" || (Collapsed(Get(out, Title).s) && |Get(out, Title).s| <= TitleLimit))
  {
    var t := Strip(Get(item, Title).s);
    if t != "" {
      CollapseNonEmpty(t);
      if |Collapse(t)| > TitleLimit {
        assert CleanTitle(t)[0] == Collapse(t)[0];
      }
      assert CleanTitle(t) != "";
    }
  }

  lemma DescriptionStepNormalizes(item: Item)
    requires NormalizeDescription(item).Ok?
    ensures var out := NormalizeDescription(item).value;
      DescriptionNormalized(out)
  {
  }

  lemma UrlSurvives(stamped: Item, located: Item, out: Item, netloc: NetlocFn)
    requires Truthy(Get(stamped, Url))
    requires NormalizeUrl(stamped, netloc) == Ok(located)
    requires Keeps(located, out, {Title, Description})
    ensures Get(out, Url).Str? && Truthy(Get(out, Url)) && UrlNormalized(out, netloc)
  {
    assert Get(located, Url).Str? && Truthy(Get(located, Url)) && UrlNormalized(located, netloc) by {
      UrlStepNormalizes(stamped, netloc);
    }
    KeepsGet(located, out, {Title, Description}, Url);
    KeepsGet(located, out, {Title, Description}, Domain);
  }

  lemma TitleSurvives(titled: Item, located: Item, named: Item, out: Item)
    requires Truthy(Get(titled, Title))
    requires Keeps(titled, located, {Timestamp, Url, Domain})
    requires NormalizeTitle(located) == Ok(named)
    requires Keeps(named, out, {Description})
    ensures Get(out, Title).Str? && Truthy(Get(out, Title))
    ensures Strip(Get(out, Title).s) == "" || (Collapsed(Get(out, Title).s) && |Get(out, Title).s| <= TitleLimit)
  {
    KeepsGet(titled, located, {Timestamp, Url, Domain}, Title);
    TitleStepNormalizes(located);
    KeepsGet(named, out, {Description}, Title);
  }

  lemma StampSurvives(stamped: Item, located: Item, out: Item)
    requires Truthy(Get(stamped, Timestamp))
    requires Keeps(stamped, located, {Url, Domain})
    requires Keeps(located, out, {Title, Description})
    ensures Truthy(Get(out, Timestamp))
  {
    KeepsGet(stamped, located, {Url, Domain}, Timestamp);
    KeepsGet(located, out, {Title, Description}, Timestamp);
  }

  /** The URL a successful run leaves is in normalised form. */
  lemma StepsUrl(item: Item, now: string, netloc: NetlocFn)
    requires Truthy(Get(item, Url)) && Steps(item, now, netloc).Ok?
    ensures var out := Steps(item, now, netloc).value;
      Get(out, Url).Str? && Truthy(Get(out, Url)) && UrlNormalized(out, netloc)
  {
    var titled, stamped, located, named, out := Stages(item, now, netloc);
    KeepsChain(located, named, out, {Title}, {Description});
    assert Truthy(Get(stamped, Url)) by {
      KeepsChain(item, titled, stamped, {Title}, {Timestamp});
      KeepsGet(item, stamped, {Title, Timestamp}, Url);
    }
    UrlSurvives(stamped, located, out, netloc);
  }

  /** The title a successful run leaves is a truthy string, collapsed and at most 200
      characters long unless it is blank. */
  lemma StepsTitle(item: Item, now: string, netloc: NetlocFn)
    requires Steps(item, now, netloc).Ok?
    ensures var out := Steps(item, now, netloc).value;
      && Get(out, Title).Str? && Truthy(Get(out, Title))
      && (Strip(Get(out, Title).s) == "" || (Collapsed(Get(out, Title).s) && |Get(out, Title).s| <= TitleLimit))
  {
    var titled, stamped, located, named, out := Stages(item, now, netloc);
    KeepsChain(titled, stamped, located, {Timestamp}, {Url, Domain});
    TitleSurvives(titled, located, named, out);
  }

  /** A successful run leaves a truthy timestamp. */
  lemma StepsTimestamp(item: Item, now: string, netloc: NetlocFn)
    requires now != "" && Steps(item, now, netloc).Ok?
    ensures Truthy(Get(Steps(item, now, netloc).value, Timestamp))
  {
    var titled, stamped, located, named, out := Stages(item, now, netloc);
    KeepsChain(located, named, out, {Title}, {Description});
    StampSurvives(stamped, located, out);
  }

  lemma StepsNormalize(item: Item, now: string, netloc: NetlocFn)
    requires Truthy(Get(item, Url)) && now != "" && Steps(item, now, netloc).Ok?
    ensures Normalized(Steps(item, now, netloc).value, netloc)
  {
    var titled, stamped, located, named, out := Stages(item, now, netloc);
    StepsUrl(item, now, netloc);
    StepsTitle(item, now, netloc);
    StepsTimestamp(item, now, netloc);
    DescriptionStepNormalizes(named);
  }

  /** A title of only whitespace is truthy, so it is neither replaced by the default
      nor cleaned: it passes through unchanged. */
  lemma StepsKeepBlankTitle(item: Item, now: string, netloc: NetlocFn)
    requires BlankTitle(item) && Steps(item, now, netloc).Ok?
    ensures Get(Steps(item, now, netloc).value, Title) == Get(item, Title)
  {
    var titled, stamped, located, named, out := Stages(item, now, netloc);
    assert titled == item;
    KeepsGet(titled, stamped, {Timestamp}, Title);
    KeepsGet(stamped, located, {Url, Domain}, Title);
    assert named == located;
    KeepsGet(named, out, {Description}, Title);
  }

  /** A normalised, well-formed item passes the five blocks unchanged, whatever the
      clock says. */
  lemma NormalizedIsFixed(it: Item, now: string, netloc: NetlocFn)
    requires WellFormed(it) && Normalized(it, netloc)
    ensures Steps(it, now, netloc) == Ok(it)
  {
    assert DefaultTitle(it) == Ok(it);
    assert DefaultTimestamp(it, now) == Ok(it);
    var u := Get(it, Url).s;
    if Strip(u) != "" {
      StrippedFixed(u);
      assert it.fields[Url := Str(u)] == it.fields;
      if !Truthy(Get(it, Domain)) {
        assert it.fields[Domain := Str(netloc(u).GetOr("unknown"))] == it.fields;
      }
    }
    assert NormalizeUrl(it, netloc) == Ok(it);
    var t := Get(it, Title).s;
    if Strip(t) != "" {
      CollapsedIsStripped(t);
      StrippedFixed(t);
      CleanTitleFixed(t);
      assert it.fields[Title := Str(t)] == it.fields;
    }
    assert NormalizeTitle(it) == Ok(it);
    var d := Get(it, Description);
    if Truthy(d) {
      CleanDescriptionFixed(d.s);
      assert it.fields[Description := d] == it.fields;
    }
  }

  /** Running the stage twice is the same as running it once: what gets through is
      normalised, and a normalised item is left alone. */
  lemma NormalizeIdempotent(item: Item, now: string, later: string, netloc: NetlocFn)
    requires WellFormed(item) && now != "" && Accepted(item)
    ensures var r := Normalize(item, now, netloc);
      r.Ok? && Normalize(r.value, later, netloc) == r
  {
  }

  /** For instance, an accepted item titled with three spaces keeps that title. */
  lemma ThreeSpaceTitleSurvives(item: Item, now: string, netloc: NetlocFn)
    requires Get(item, Title) == Str("   ") && Accepted(item)
    ensures var r := Normalize(item, now, netloc);
      r.Ok? && Get(r.value, Title) == Str("   ")
  {
    assert BlankTitle(item) by {
      StripEmptyIffBlank("   ");
    }
    assert item.shape == WebPage || item.shape == Plain;
  }

  /** The stage's counters: `items_dropped` counts only the missing-URL drops,
      `items_processed` only the items let through; an item that makes the stage
      raise anything else counts in neither. */
  datatype NormStats = NormStats(processed: nat, dropped: nat)

  function Count(st: NormStats, r: Result<Item>): (next: NormStats)
    ensures next.processed == st.processed + (if r.Ok? then 1 else 0)
    ensures next.dropped == st.dropped + (if r == Raise(DropItem(MissingUrl)) then 1 else 0)
  {
    if r.Ok? then NormStats(st.processed + 1, st.dropped)
    else if r == Raise(DropItem(MissingUrl)) then NormStats(st.processed, st.dropped + 1)
    else st
  }

  /** The stage applied to a stream of items: the items it lets through, in order,
      and its counters. */
  datatype NormRun = NormRun(passed: seq<Item>, stats: NormStats)

  function NormalizeAll(items: seq<Item>, now: string, netloc: NetlocFn): NormRun
    decreases |items|
  {
    if |items| == 0 then NormRun([], NormStats(0, 0))
    else
      var r := Normalize(items[0], now, netloc);
      var rest := NormalizeAll(items[1..], now, netloc);
      NormRun((if r.Ok? then [r.value] else []) + rest.passed, Count(rest.stats, r))
  }

  function CountUrlless(items: seq<Item>): nat {
    if |items| == 0 then 0
    else (if Truthy(Get(items[0], Url)) then 0 else 1) + CountUrlless(items[1..])
  }

  /** Over a stream, `items_processed` is the number of items let through and
      `items_dropped` the number of items without a URL; the two together never
      exceed the number of items. */
  lemma {:induction false} CountersMatchStream(items: seq<Item>, now: string, netloc: NetlocFn)
    ensures NormalizeAll(items, now, netloc).stats.processed == |NormalizeAll(items, now, netloc).passed|
    ensures NormalizeAll(items, now, netloc).stats.dropped == CountUrlless(items)
    ensures NormalizeAll(items, now, netloc).stats.processed + CountUrlless(items) <= |items|
    decreases |items|
  {
    if |items| > 0 {
      CountersMatchStream(items[1..], now, netloc);
    }
  }

  /** When no item makes the stage raise anything but the missing-URL drop (for
      instance a stream of spider-built `WebPageItem`s), every call is counted
      exactly once: `items_processed + items_dropped` is the number of items. */
  lemma {:induction false} CountersSumToCalls(items: seq<Item>, now: string, netloc: NetlocFn)
    requires forall i :: 0 <= i < |items| ==>
      var r := Normalize(items[i], now, netloc); r.Ok? || r == Raise(DropItem(MissingUrl))
    ensures NormalizeAll(items, now, netloc).stats.processed
      + NormalizeAll(items, now, netloc).stats.dropped == |items|
    decreases |items|
  {
    if |items| > 0 {
      assert forall i :: 0 <= i < |items[1..]| ==> items[1..][i] == items[i + 1];
      CountersSumToCalls(items[1..], now, netloc);
    }
  }
}
