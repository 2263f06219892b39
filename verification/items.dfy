/** The three scrapy item classes of crawler/items.py as one tagged record.
    A scrapy `Item` only accepts the fields its class declares; a plain `dict`
    yielded by a spider accepts any key. */
module Items {

  import opened Base

  /** The placeholder title the spider and the normalising pipeline fall back to. */
  const NoTitle := "Ohne Titel"

  /** Which class an item is an instance of. `Plain` is any other mapping. */
  datatype Shape = WebPage | NewsArticle | Tender | Plain

  /** Item keys. Every field some item class declares has its own constructor;
      `Extra` holds any other key a plain mapping may carry. */
  datatype Field =
    | Title | Url | Domain | Description | Keywords | Language | StatusCode
    | ContentType | InternalLinks | ScreenshotPath | Timestamp
    | Author | PublishDate | Category | Tags | ArticleText | ImageUrls | WordCount
    | TenderTitle | TenderId | Organization | Deadline | Budget | Location
    | ContactInfo | Requirements
    | Extra(key: string)

  /** The Python key of a field. */
  function Name(f: Field): string {
    match f
    case Title => "title"
    case Url => "url"
    case Domain => "domain"
    case Description => "description"
    case Keywords => "keywords"
    case Language => "language"
    case StatusCode => "status_code"
    case ContentType => "content_type"
    case InternalLinks => "internal_links"
    case ScreenshotPath => "screenshot_path"
    case Timestamp => "timestamp"
    case Author => "author"
    case PublishDate => "publish_date"
    case Category => "category"
    case Tags => "tags"
    case ArticleText => "article_text"
    case ImageUrls => "image_urls"
    case WordCount => "word_count"
    case TenderTitle => "tender_title"
    case TenderId => "tender_id"
    case Organization => "organization"
    case Deadline => "deadline"
    case Budget => "budget"
    case Location => "location"
    case ContactInfo => "contact_info"
    case Requirements => "requirements"
    case Extra(k) => k
  }

  const WebPageFields: set<Field> := {
    Title, Url, Domain, Description, Keywords, Language, StatusCode,
    ContentType, InternalLinks, ScreenshotPath, Timestamp
  }

  /** NewsArticleItem declares no `timestamp`. */
  const NewsArticleFields: set<Field> := {
    Title, Url, Domain, Description, Author, PublishDate, Category,
    Tags, ArticleText, ImageUrls, WordCount
  }

  /** TenderItem declares no `title`, `domain` or `description`. */
  const TenderFields: set<Field> := {
    TenderTitle, TenderId, Organization, Deadline, Budget, Category,
    Location, ContactInfo, Requirements, Url, Timestamp
  }

  predicate Declares(shape: Shape, key: Field) {
    match shape
    case WebPage => key in WebPageFields
    case NewsArticle => key in NewsArticleFields
    case Tender => key in TenderFields
    case Plain => true
  }

  /** An item: its class and the fields that have been assigned. */
  datatype Item = Item(shape: Shape, fields: map<Field, Value>)

  /** Every assigned field is one the class declares. */
  predicate WellFormed(item: Item) {
    forall k :: k in item.fields ==> Declares(item.shape, k)
  }

  /** `ItemAdapter(item).get(key)`: an unassigned field reads as `None`. */
  function Get(item: Item, key: Field): Value {
    if key in item.fields then item.fields[key] else Null
  }

  /** `ItemAdapter(item).get(key, default)`. */
  function GetOr(item: Item, key: Field, default: Value): Value {
    if key in item.fields then item.fields[key] else default
  }

  /** `adapter[key] = v`: raises `KeyError` for a field the class does not declare. */
  function Set(item: Item, key: Field, v: Value): (r: Result<Item>)
    ensures r.Ok? <==> Declares(item.shape, key)
    ensures r.Raise? ==> r.exception == KeyError(Name(key))
    ensures r.Ok? ==> r.value.shape == item.shape && r.value.fields == item.fields[key := v]
    ensures WellFormed(item) && r.Ok? ==> WellFormed(r.value)
  {
    if Declares(item.shape, key) then Ok(Item(item.shape, item.fields[key := v]))
    else Raise(KeyError(Name(key)))
  }
}
