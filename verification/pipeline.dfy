/** The item pipeline as crawler/settings.py registers it: `CrawlerPipeline`
    (priority 300) and then `CSVExportPipeline` (priority 400). An item the first
    stage drops or raises on never reaches the second. */
module Pipeline {

  import opened Base
  import opened Items
  import N = Normalization
  import C = CsvExport

  datatype ChainState = ChainState(norm: N.NormStats, csv: C.CsvExporter)

  datatype ChainStep = ChainStep(state: ChainState, result: Result<Item>)

  /** One item through both stages.
      - In the configured chain the `news` and `tenders` files never get a row from
        a well-formed item: a news article or tender without a URL is dropped, and
        one with a URL makes the normalising stage raise `KeyError`.
      - A web page or plain item the normalising stage does not accept never
        changes a CSV file.
      - An accepted one whose file is open reaches it as the row of its normalised
        form, of the same class, appended to that class's file. */
  function ChainProcess(st: ChainState, item: Item, now: string, netloc: NetlocFn,
                        dumps: DumpsFn, ioFails: bool): (r: ChainStep)
    ensures r.state.norm == N.Count(st.norm, N.Normalize(item, now, netloc))
    ensures r.result == N.Normalize(item, now, netloc)
    ensures r.result.Raise? ==> r.state.csv == st.csv
    ensures r.result.Ok? ==> r.state.csv == C.CsvProcess(st.csv, r.result.value, dumps, ioFails)
    ensures WellFormed(item) && (item.shape == NewsArticle || item.shape == Tender) ==>
      r.state.csv == st.csv
    ensures (item.shape == WebPage || item.shape == Plain) && !N.Accepted(item) ==>
      r.state.csv == st.csv
    ensures (&& now != "" && N.Accepted(item) && !ioFails
             && C.Route(item.shape) in st.csv.files && st.csv.files[C.Route(item.shape)].isOpen) ==>
      && r.result.Ok? && r.result.value.shape == item.shape
      && N.Normalized(r.result.value, netloc)
      && var s := C.Route(item.shape);
      && r.state.csv.files[s].rows == st.csv.files[s].rows + [C.Row(s, r.result.value, dumps)]
  {
    var normalized := N.Normalize(item, now, netloc);
    var stats := N.Count(st.norm, normalized);
    if normalized.Raise? then ChainStep(ChainState(stats, st.csv), normalized)
    else ChainStep(ChainState(stats, C.CsvProcess(st.csv, normalized.value, dumps, ioFails)), normalized)
  }
}
