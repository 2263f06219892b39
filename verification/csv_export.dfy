/** `CSVExportPipeline`: one CSV file per item class, each with a fixed column
    list. A file is modelled as the rows written to it, each row a sequence of
    cells, plus whether it is still open; quoting and escaping are the CSV
    writer's business and are not modelled. */
module CsvExport {

  import opened Base
  import opened Text
  import opened Items

  /** The three writers `open_spider` sets up. */
  datatype Sink = Webpages | News | Tenders

  const AllSinks: set<Sink> := {Webpages, News, Tenders}

  /** The name of a writer; its file is `data/<name>.csv`. */
  function SinkName(s: Sink): string {
    match s
    case Webpages => "webpages"
    case News => "news"
    case Tenders => "tenders"
  }

  function SinkFile(s: Sink): string {
    "data/" + SinkName(s) + ".csv"
  }

  /** The `fieldnames` of each writer, in order. */
  function Columns(s: Sink): seq<Field> {
    match s
    case Webpages =>
      [Title, Url, Domain, Description, Keywords, Language, StatusCode, ContentType, Timestamp]
    case News =>
      [Title, Url, Domain, Author, PublishDate, Category, WordCount, Timestamp]
    case Tenders =>
      [TenderTitle, TenderId, Organization, Deadline, Budget, Category, Location, Url, Timestamp]
  }

  /** The header row `writeheader` writes. */
  function Header(s: Sink): (h: seq<string>)
    ensures |h| == |Columns(s)|
    ensures forall i :: 0 <= i < |h| ==> h[i] == Name(Columns(s)[i])
  {
    seq(|Columns(s)|, i requires 0 <= i < |Columns(s)| => Name(Columns(s)[i]))
  }

  /** The header rows spelled out as the Python column lists. */
  lemma WebpagesHeader()
    ensures Header(Webpages) == ["title", "url", "domain", "description", "keywords",
                                 "language", "status_code", "content_type", "timestamp"]
  {
  }

  lemma NewsHeader()
    ensures Header(News) == ["title", "url", "domain", "author", "publish_date",
                             "category", "word_count", "timestamp"]
  {
  }

  lemma TendersHeader()
    ensures Header(Tenders) == ["tender_title", "tender_id", "organization", "deadline",
                                "budget", "category", "location", "url", "timestamp"]
  {
  }

  /** The `isinstance` chain of `process_item`: news articles and tenders have their
      own files, every other item goes to `webpages`. */
  function Route(shape: Shape): (s: Sink)
    ensures s == News <==> shape == NewsArticle
    ensures s == Tenders <==> shape == Tender
    ensures s == Webpages <==> shape == WebPage || shape == Plain
  {
    match shape
    case NewsArticle => News
    case Tender => Tenders
    case WebPage => Webpages
    case Plain => Webpages
  }

  /** The text written for a field value: lists and dicts as JSON text, `None` as
      the empty string, strings as they are and integers in decimal. */
  function Cell(v: Value, dumps: DumpsFn): string {
    match v
    case Null => ""
    case Str(s) => s
    case Int(i) => DecimalString(i)
    case List(_) => dumps(v)
    case Dict(_) => dumps(v)
  }

  /** The row `writerow` writes: the item projected onto the writer's columns, a
      missing field giving an empty cell and fields outside the columns ignored. */
  function Row(s: Sink, item: Item, dumps: DumpsFn): (row: seq<string>)
    ensures |row| == |Header(s)|
  {
    seq(|Columns(s)|, i requires 0 <= i < |Columns(s)| => Cell(Get(item, Columns(s)[i]), dumps))
  }

  /** What a cell says about the field it came from: an unset or `None` field gives
      an empty cell, a string is copied verbatim, and an integer reads back as
      itself. */
  lemma RowCells(s: Sink, item: Item, dumps: DumpsFn, i: nat)
    requires i < |Columns(s)|
    ensures var v := Get(item, Columns(s)[i]);
      && (v.Null? ==> Row(s, item, dumps)[i] == "")
      && (v.Str? ==> Row(s, item, dumps)[i] == v.s)
      && (v.Int? ==> ParseDecimal(Row(s, item, dumps)[i]) == Some(v.i))
      && ((v.List? || v.Dict?) ==> Row(s, item, dumps)[i] == dumps(v))
  {
    var v := Get(item, Columns(s)[i]);
    if v.Int? {
      DecimalRoundTrip(v.i);
    }
  }

  /** The row depends only on the writer's columns: two items that agree on them
      give the same row, whatever else they carry. */
  lemma RowIgnoresOtherFields(s: Sink, a: Item, b: Item, dumps: DumpsFn)
    requires forall i :: 0 <= i < |Columns(s)| ==> Get(a, Columns(s)[i]) == Get(b, Columns(s)[i])
    ensures Row(s, a, dumps) == Row(s, b, dumps)
  {
  }

  /** `NewsArticleItem` declares no `timestamp`, so the last column of `news` is
      empty for every well-formed news article. */
  lemma NewsTimestampColumnEmpty(item: Item, dumps: DumpsFn)
    requires item.shape == NewsArticle && WellFormed(item)
    ensures Columns(News)[7] == Timestamp && Row(News, item, dumps)[7] == ""
  {
    assert Timestamp !in item.fields;
  }

  /** One output file. */
  datatype CsvFile = CsvFile(rows: seq<seq<string>>, isOpen: bool)

  /** The pipeline's state: the files by writer (none before `open_spider`) and
      `items_exported`. */
  datatype CsvExporter = CsvExporter(files: map<Sink, CsvFile>, exported: nat)

  const NewCsvExporter := CsvExporter(map[], 0)

  /** `open_spider`: each of the three files is created (or truncated) and holds
      just its header. */
  function CsvOpenSpider(e: CsvExporter): (r: CsvExporter)
    ensures r.files.Keys == AllSinks && r.exported == e.exported
    ensures forall s :: s in r.files ==> r.files[s] == CsvFile([Header(s)], true)
  {
    CsvExporter(map s | s in AllSinks :: CsvFile([Header(s)], true), e.exported)
  }

  /** `_write_to_csv`: a row is appended when the writer exists and its file is
      open. Writing to a closed file raises `ValueError` and `ioFails` stands for a
      failing write; both are caught and logged, so nothing is written and nothing
      escapes. */
  function WriteRow(files: map<Sink, CsvFile>, s: Sink, row: seq<string>, ioFails: bool)
    : (r: map<Sink, CsvFile>)
    ensures r.Keys == files.Keys
    ensures forall t :: t in files && t != s ==> r[t] == files[t]
    ensures s in files ==>
      if files[s].isOpen && !ioFails then r[s] == CsvFile(files[s].rows + [row], true)
      else r[s] == files[s]
  {
    if s in files && files[s].isOpen && !ioFails then
      files[s := CsvFile(files[s].rows + [row], true)]
    else files
  }

  /** `process_item`: the row goes to the item's writer and `items_exported` counts
      the call whether or not the row was written; the item itself is returned
      unchanged. */
  function CsvProcess(e: CsvExporter, item: Item, dumps: DumpsFn, ioFails: bool): (r: CsvExporter)
    ensures r.exported == e.exported + 1
    ensures r.files.Keys == e.files.Keys
    ensures forall t :: t in e.files && t != Route(item.shape) ==> r.files[t] == e.files[t]
  {
    var s := Route(item.shape);
    CsvExporter(WriteRow(e.files, s, Row(s, item, dumps), ioFails), e.exported + 1)
  }

  /** `close_spider`: every file is closed (closing twice is harmless). */
  function CsvCloseSpider(e: CsvExporter): (r: CsvExporter)
    ensures r.files.Keys == e.files.Keys && r.exported == e.exported
    ensures forall s :: s in r.files ==> r.files[s] == CsvFile(e.files[s].rows, false)
  {
    CsvExporter(map s | s in e.files :: CsvFile(e.files[s].rows, false), e.exported)
  }

  /** Before `open_spider` and after `close_spider` no row reaches any file. */
  lemma NoRowsOutsideSession(e: CsvExporter, item: Item, dumps: DumpsFn, ioFails: bool)
    requires forall s :: s in e.files ==> !e.files[s].isOpen
    ensures CsvProcess(e, item, dumps, ioFails).files == e.files
  {
  }

  /** The rows a session writes to one file: those of the items routed to it, in
      order. */
  function RowsFor(s: Sink, items: seq<Item>, dumps: DumpsFn): seq<seq<string>> {
    if |items| == 0 then []
    else
      RowsFor(s, items[..|items| - 1], dumps)
      + (if Route(items[|items| - 1].shape) == s then [Row(s, items[|items| - 1], dumps)] else [])
  }

  /** `process_item` over a stream of items. `failures[i]` says whether writing the
      i-th row fails. */
  function CsvProcessAll(e: CsvExporter, items: seq<Item>, dumps: DumpsFn, failures: seq<bool>)
    : CsvExporter
    requires |failures| == |items|
  {
    if |items| == 0 then e
    else
      CsvProcess(CsvProcessAll(e, items[..|items| - 1], dumps, failures[..|items| - 1]),
                 items[|items| - 1], dumps, failures[|items| - 1])
  }

  /** Every file is open and holds its header and the rows of `items`. */
  predicate HoldsRowsOf(e: CsvExporter, items: seq<Item>, dumps: DumpsFn) {
    && e.files.Keys == AllSinks
    && forall s :: s in AllSinks ==> e.files[s] == CsvFile([Header(s)] + RowsFor(s, items, dumps), true)
  }

  lemma RowsForSnoc(s: Sink, items: seq<Item>, item: Item, dumps: DumpsFn)
    ensures RowsFor(s, items + [item], dumps)
      == RowsFor(s, items, dumps) + (if Route(item.shape) == s then [Row(s, item, dumps)] else [])
  {
    var all := items + [item];
    assert all[..|all| - 1] == items && all[|all| - 1] == item;
  }

  lemma FileStep(e: CsvExporter, items: seq<Item>, item: Item, dumps: DumpsFn, s: Sink)
    requires s in e.files && e.files[s] == CsvFile([Header(s)] + RowsFor(s, items, dumps), true)
    ensures var after := CsvProcess(e, item, dumps, false);
      s in after.files && after.files[s] == CsvFile([Header(s)] + RowsFor(s, items + [item], dumps), true)
  {
    RowsForSnoc(s, items, item, dumps);
  }

  lemma SessionStep(e: CsvExporter, items: seq<Item>, item: Item, dumps: DumpsFn)
    requires HoldsRowsOf(e, items, dumps)
    ensures HoldsRowsOf(CsvProcess(e, item, dumps, false), items + [item], dumps)
  {
    forall s | s in AllSinks
      ensures CsvProcess(e, item, dumps, false).files[s]
        == CsvFile([Header(s)] + RowsFor(s, items + [item], dumps), true)
    {
      FileStep(e, items, item, dumps, s);
    }
  }

  /** A session without write failures: after `open_spider` and processing the
      items, each file holds its header followed by the rows of exactly the items
      routed to it, in order, and `items_exported` counts every item. */
  lemma {:induction false} CsvSession(items: seq<Item>, dumps: DumpsFn, failures: seq<bool>)
    requires |failures| == |items|
    requires forall i :: 0 <= i < |failures| ==> !failures[i]
    ensures var e := CsvProcessAll(CsvOpenSpider(NewCsvExporter), items, dumps, failures);
      e.exported == |items| && HoldsRowsOf(e, items, dumps)
    decreases |items|
  {
    if |items| > 0 {
      var n := |items| - 1;
      assert items[..n] + [items[n]] == items;
      var open := CsvOpenSpider(NewCsvExporter);
      assert forall i :: 0 <= i < |failures[..n]| ==> !failures[..n][i];
      CsvSession(items[..n], dumps, failures[..n]);
      var before := CsvProcessAll(open, items[..n], dumps, failures[..n]);
      assert !failures[n];
      assert CsvProcessAll(open, items, dumps, failures) == CsvProcess(before, items[n], dumps, false);
      SessionStep(before, items[..n], items[n], dumps);
    }
  }

  /** Items that do not reach the exporter's `isOpen` files still count: with every
      write failing, `items_exported` still equals the number of items and no file
      changes. */
  lemma {:induction false} FailedWritesStillCounted(e: CsvExporter, items: seq<Item>, dumps: DumpsFn,
                                                    failures: seq<bool>)
    requires |failures| == |items|
    requires forall i :: 0 <= i < |failures| ==> failures[i]
    ensures CsvProcessAll(e, items, dumps, failures) == CsvExporter(e.files, e.exported + |items|)
    decreases |items|
  {
    if |items| > 0 {
      var n := |items| - 1;
      assert forall i :: 0 <= i < |failures[..n]| ==> failures[..n][i];
      FailedWritesStillCounted(e, items[..n], dumps, failures[..n]);
    }
  }
}
