/** `JSONExportPipeline`: streams the items into one JSON array. The file is
    modelled as the sequence of strings written to it, in order; its text is their
    concatenation. A call that raises leaves the exporter as it was. */
module JsonExport {

  import opened Base
  import opened Items

  /** `json.dump(adapter.asdict(), indent=2, ensure_ascii=False)`: the JSON text
      of an item (RFC 8259). */
  type ItemDumpFn = Item -> string

  const ArrayOpen := "[\n"
  const Separator := ",\n"
  const ArrayClose := "\n]"

  /** `self.file`: not yet opened (`None`), open, or closed. */
  datatype JsonFile = NoFile | OpenFile(writes: seq<string>) | ClosedFile(writes: seq<string>)

  /** The pipeline's state: the file and `items_exported`. */
  datatype JsonExporter = JsonExporter(file: JsonFile, exported: nat)

  const NewJsonExporter := JsonExporter(NoFile, 0)

  /** The text of a sequence of writes. */
  function Concat(ws: seq<string>): string {
    if |ws| == 0 then "" else Concat(ws[..|ws| - 1]) + ws[|ws| - 1]
  }

  /** `sep.join(parts)` for a string separator. */
  function JoinWith(parts: seq<string>, sep: string): string {
    if |parts| == 0 then ""
    else if |parts| == 1 then parts[0]
    else JoinWith(parts[..|parts| - 1], sep) + sep + parts[|parts| - 1]
  }

  /** The writes of a run of items: each dump, with a separator before every dump
      but the first. */
  function Interleave(dumps: seq<string>): seq<string> {
    if |dumps| == 0 then []
    else if |dumps| == 1 then [dumps[0]]
    else Interleave(dumps[..|dumps| - 1]) + [Separator, dumps[|dumps| - 1]]
  }

  /** `open_spider`: the file is created (or truncated) and the array opened;
      `items_exported` is not reset. */
  function JsonOpenSpider(e: JsonExporter): (r: JsonExporter)
    ensures r.file.OpenFile? && Concat(r.file.writes) == ArrayOpen
    ensures r.exported == e.exported
  {
    assert Concat([ArrayOpen]) == Concat([]) + ArrayOpen;
    JsonExporter(OpenFile([ArrayOpen]), e.exported)
  }

  /** `process_item`: a separator when an item has already been exported, then the
      item's JSON. Before `open_spider` the file is `None`, so writing raises
      `AttributeError`; after `close_spider` writing raises `ValueError`. */
  function JsonProcess(e: JsonExporter, item: Item, dump: ItemDumpFn): (r: Result<JsonExporter>)
    ensures e.file.NoFile? ==> r == Raise(AttributeError)
    ensures e.file.ClosedFile? ==> r == Raise(ValueError)
    ensures e.file.OpenFile? ==>
      && r.Ok? && r.value.file.OpenFile?
      && r.value.exported == e.exported + 1
      && |e.file.writes| < |r.value.file.writes|
      && r.value.file.writes[..|e.file.writes|] == e.file.writes
      && r.value.file.writes[|r.value.file.writes| - 1] == dump(item)
      && (|r.value.file.writes| == |e.file.writes| + 2 <==> e.exported > 0)
    ensures e.file.OpenFile? && r.Ok? ==>
      r.value.file.writes == e.file.writes + (if e.exported > 0 then [Separator] else []) + [dump(item)]
  {
    match e.file
    case NoFile => Raise(AttributeError)
    case ClosedFile(_) => Raise(ValueError)
    case OpenFile(ws) =>
      var sep := if e.exported > 0 then [Separator] else [];
      assert (ws + sep + [dump(item)])[..|ws|] == ws;
      Ok(JsonExporter(OpenFile(ws + sep + [dump(item)]), e.exported + 1))
  }

  /** `close_spider`: the array is closed and so is the file. With no file yet it
      raises `AttributeError`; a second close writes to a closed file and raises
      `ValueError`. */
  function JsonCloseSpider(e: JsonExporter): (r: Result<JsonExporter>)
    ensures e.file.NoFile? ==> r == Raise(AttributeError)
    ensures e.file.ClosedFile? ==> r == Raise(ValueError)
    ensures e.file.OpenFile? ==>
      && r.Ok? && r.value.file.ClosedFile? && r.value.exported == e.exported
      && Concat(r.value.file.writes) == Concat(e.file.writes) + ArrayClose
  {
    match e.file
    case NoFile => Raise(AttributeError)
    case ClosedFile(_) => Raise(ValueError)
    case OpenFile(ws) =>
      assert (ws + [ArrayClose])[..|ws|] == ws;
      Ok(JsonExporter(ClosedFile(ws + [ArrayClose]), e.exported))
  }

  /** `process_item` over a stream of items, stopping at the first exception. */
  function JsonProcessAll(e: JsonExporter, items: seq<Item>, dump: ItemDumpFn): Result<JsonExporter> {
    if |items| == 0 then Ok(e)
    else
      var before :- JsonProcessAll(e, items[..|items| - 1], dump);
      JsonProcess(before, items[|items| - 1], dump)
  }

  function Dumps(items: seq<Item>, dump: ItemDumpFn): (ds: seq<string>)
    ensures |ds| == |items|
    ensures forall i :: 0 <= i < |items| ==> ds[i] == dump(items[i])
  {
    seq(|items|, i requires 0 <= i < |items| => dump(items[i]))
  }

  /** The writes of `n` items: dumps at the even positions and a separator at
      each odd one, so `n` items carry `n - 1` separators. */
  lemma {:induction false} InterleaveShape(dumps: seq<string>)
    requires |dumps| > 0
    ensures |Interleave(dumps)| == 2 * |dumps| - 1
    ensures forall i :: 0 <= i < |dumps| ==> Interleave(dumps)[2 * i] == dumps[i]
    ensures forall i :: 0 <= i < |dumps| - 1 ==> Interleave(dumps)[2 * i + 1] == Separator
    decreases |dumps|
  {
    if |dumps| > 1 {
      var init := dumps[..|dumps| - 1];
      InterleaveShape(init);
      var w := Interleave(dumps);
      assert w == Interleave(init) + [Separator, dumps[|dumps| - 1]];
      forall i | 0 <= i < |dumps|
        ensures w[2 * i] == dumps[i]
      {
        if i < |dumps| - 1 {
          assert w[2 * i] == Interleave(init)[2 * i] == init[i];
        }
      }
      forall i | 0 <= i < |dumps| - 1
        ensures w[2 * i + 1] == Separator
      {
        if i < |dumps| - 2 {
          assert w[2 * i + 1] == Interleave(init)[2 * i + 1];
        }
      }
    }
  }

  lemma {:induction false} ConcatAppend(ws: seq<string>, vs: seq<string>)
    ensures Concat(ws + vs) == Concat(ws) + Concat(vs)
    decreases |vs|
  {
    if |vs| > 0 {
      var n := |vs| - 1;
      var all := ws + vs;
      assert all[..|all| - 1] == ws + vs[..n];
      assert all[|all| - 1] == vs[n];
      ConcatAppend(ws, vs[..n]);
      assert Concat(all) == Concat(ws + vs[..n]) + vs[n];
      assert Concat(vs) == Concat(vs[..n]) + vs[n];
      assert Concat(ws) + Concat(vs[..n]) + vs[n] == Concat(ws) + (Concat(vs[..n]) + vs[n]);
    } else {
      assert ws + vs == ws;
    }
  }

  /** The text of the writes is the dumps joined by the separator. */
  lemma {:induction false} InterleaveText(dumps: seq<string>)
    ensures Concat(Interleave(dumps)) == JoinWith(dumps, Separator)
    decreases |dumps|
  {
    if |dumps| > 1 {
      var init := dumps[..|dumps| - 1];
      var last := dumps[|dumps| - 1];
      InterleaveText(init);
      ConcatAppend(Interleave(init), [Separator, last]);
      assert Concat([Separator, last]) == Concat([Separator]) + last;
      assert Concat([Separator]) == Concat([]) + Separator;
    } else if |dumps| == 1 {
      assert Concat([dumps[0]]) == Concat([]) + dumps[0];
    }
  }

  lemma {:induction false} InterleaveSnoc(dumps: seq<string>, d: string)
    ensures Interleave(dumps + [d]) == Interleave(dumps) + (if |dumps| > 0 then [Separator] else []) + [d]
  {
    var all := dumps + [d];
    if |dumps| == 0 {
      assert all == [d];
    } else {
      assert all[..|all| - 1] == dumps && all[|all| - 1] == d;
      assert Interleave(all) == Interleave(dumps) + [Separator, d];
    }
  }

  lemma DumpsSnoc(items: seq<Item>, item: Item, dump: ItemDumpFn)
    ensures Dumps(items + [item], dump) == Dumps(items, dump) + [dump(item)]
  {
  }

  /** Processing items after `open_spider`: every call succeeds, the writes are the
      array opening followed by the dumps with separators between them, and
      `items_exported` counts every item. */
  lemma {:induction false} JsonProcessRun(items: seq<Item>, dump: ItemDumpFn)
    ensures JsonProcessAll(JsonOpenSpider(NewJsonExporter), items, dump)
      == Ok(JsonExporter(OpenFile([ArrayOpen] + Interleave(Dumps(items, dump))), |items|))
    decreases |items|
  {
    if |items| > 0 {
      var n := |items| - 1;
      assert items[..n] + [items[n]] == items;
      var open := JsonOpenSpider(NewJsonExporter);
      JsonProcessRun(items[..n], dump);
      var before := JsonExporter(OpenFile([ArrayOpen] + Interleave(Dumps(items[..n], dump))), n);
      assert JsonProcessAll(open, items, dump) == JsonProcess(before, items[n], dump);
      DumpsSnoc(items[..n], items[n], dump);
      InterleaveSnoc(Dumps(items[..n], dump), dump(items[n]));
      var sep := if n > 0 then [Separator] else [];
      assert [ArrayOpen] + Interleave(Dumps(items[..n], dump)) + sep + [dump(items[n])]
        == [ArrayOpen] + Interleave(Dumps(items, dump));
    } else {
      assert Dumps(items, dump) == [];
      assert [ArrayOpen] + Interleave([]) == [ArrayOpen];
    }
  }

  /** A whole session: after `open_spider`, the items and `close_spider`, the file
      holds exactly the JSON array of the items, `"[\n" + ",\n".join(dumps) + "\n]"`,
      and `items_exported` equals the number of items. */
  lemma JsonSession(items: seq<Item>, dump: ItemDumpFn)
    ensures var r := JsonProcessAll(JsonOpenSpider(NewJsonExporter), items, dump);
      && r.Ok?
      && var closed := JsonCloseSpider(r.value);
      && closed.Ok? && closed.value.exported == |items| && closed.value.file.ClosedFile?
      && Concat(closed.value.file.writes) == ArrayOpen + JoinWith(Dumps(items, dump), Separator) + ArrayClose
  {
    JsonProcessRun(items, dump);
    var ds := Dumps(items, dump);
    ConcatAppend([ArrayOpen], Interleave(ds));
    assert Concat([ArrayOpen]) == Concat([]) + ArrayOpen;
    InterleaveText(ds);
  }

  /** Two items: the array with one separator between them. */
  lemma TwoItemsText(a: Item, b: Item, dump: ItemDumpFn)
    ensures var r := JsonProcessAll(JsonOpenSpider(NewJsonExporter), [a, b], dump);
      r.Ok? && JsonCloseSpider(r.value).Ok?
      && Concat(JsonCloseSpider(r.value).value.file.writes) == "[\n" + dump(a) + ",\n" + dump(b) + "\n]"
  {
    JsonSession([a, b], dump);
    var ds := Dumps([a, b], dump);
    assert ds[..1] == [dump(a)];
  }

  /** No items: an empty array. */
  lemma NoItemsText(dump: ItemDumpFn)
    ensures var r := JsonProcessAll(JsonOpenSpider(NewJsonExporter), [], dump);
      r.Ok? && JsonCloseSpider(r.value).Ok?
      && Concat(JsonCloseSpider(r.value).value.file.writes) == "[\n\n]"
  {
    JsonSession([], dump);
  }

  /** Processing before `open_spider` fails and exports nothing. */
  lemma ProcessBeforeOpenFails(items: seq<Item>, dump: ItemDumpFn)
    requires |items| > 0
    ensures JsonProcessAll(NewJsonExporter, items, dump) == Raise(AttributeError)
    decreases |items|
  {
    if |items| > 1 {
      ProcessBeforeOpenFails(items[..|items| - 1], dump);
    }
  }
}
