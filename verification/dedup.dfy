/** `DuplicateFilterPipeline`: drops every item whose `url` value has been seen
    before. The value is compared as a whole, with no normalisation, and a missing
    URL reads as `None`, which is itself a key like any other. */
module Dedup {

  import opened Base
  import opened Items

  /** The filter's state: `seen_urls` and `duplicates_dropped`. */
  datatype DedupFilter = DedupFilter(seen: set<Value>, duplicatesDropped: nat)

  const NewDedupFilter := DedupFilter({}, 0)

  /** The outcome of one `process_item` call: the filter afterwards and what the
      call returned or raised. */
  datatype DedupStep = DedupStep(filter: DedupFilter, result: Result<Item>)

  /** `process_item`. A list or dict URL cannot be looked up in a set, so the
      membership test raises `TypeError` before anything changes. */
  function DedupProcess(f: DedupFilter, item: Item): (r: DedupStep)
    ensures f.seen <= r.filter.seen
    ensures r.result.Raise? <==> !Hashable(Get(item, Url)) || Get(item, Url) in f.seen
    ensures !Hashable(Get(item, Url)) ==> r == DedupStep(f, Raise(TypeError))
    ensures Hashable(Get(item, Url)) && Get(item, Url) in f.seen ==>
      && r.result == Raise(DropItem(DuplicateItem(Get(item, Url))))
      && r.filter == DedupFilter(f.seen, f.duplicatesDropped + 1)
    ensures r.result.Ok? ==>
      && r.result.value == item
      && r.filter == DedupFilter(f.seen + {Get(item, Url)}, f.duplicatesDropped)
  {
    var url := Get(item, Url);
    if !Hashable(url) then DedupStep(f, Raise(TypeError))
    else if url in f.seen then
      DedupStep(DedupFilter(f.seen, f.duplicatesDropped + 1), Raise(DropItem(DuplicateItem(url))))
    else DedupStep(DedupFilter(f.seen + {url}, f.duplicatesDropped), Ok(item))
  }

  /** The filter applied to a stream: the items it lets through, in order, how many
      calls raised `TypeError`, and the filter at the end. */
  datatype DedupRun = DedupRun(passed: seq<Item>, typeErrors: nat, filter: DedupFilter)

  function DedupAll(f: DedupFilter, items: seq<Item>): DedupRun
    decreases |items|
  {
    if |items| == 0 then DedupRun([], 0, f)
    else
      var step := DedupProcess(f, items[0]);
      var rest := DedupAll(step.filter, items[1..]);
      DedupRun(
        (if step.result.Ok? then [items[0]] else []) + rest.passed,
        rest.typeErrors + (if step.result == Raise(TypeError) then 1 else 0),
        rest.filter)
  }

  /** No two items in the sequence have the same URL. */
  predicate DistinctUrls(items: seq<Item>) {
    forall i, j :: 0 <= i < j < |items| ==> Get(items[i], Url) != Get(items[j], Url)
  }

  /** The items let through have pairwise different URLs, none of which had been
      seen before the run, and all of which are seen after it; the seen set only
      grows; and every call is accounted for exactly once: it passed, was dropped
      as a duplicate, or raised `TypeError`. */
  lemma {:induction false} DedupRunFacts(f: DedupFilter, items: seq<Item>)
    ensures var run := DedupAll(f, items);
      && DistinctUrls(run.passed)
      && (forall i :: 0 <= i < |run.passed| ==> Get(run.passed[i], Url) !in f.seen)
      && (forall i :: 0 <= i < |run.passed| ==> Get(run.passed[i], Url) in run.filter.seen)
      && f.seen <= run.filter.seen
      && f.duplicatesDropped <= run.filter.duplicatesDropped
      && |items| == |run.passed| + (run.filter.duplicatesDropped - f.duplicatesDropped) + run.typeErrors
    decreases |items|
  {
    if |items| > 0 {
      var step := DedupProcess(f, items[0]);
      var rest := DedupAll(step.filter, items[1..]);
      DedupRunFacts(step.filter, items[1..]);
      var run := DedupAll(f, items);
      if step.result.Ok? {
        var u := Get(items[0], Url);
        assert u in step.filter.seen;
        assert run.passed == [items[0]] + rest.passed;
        forall i, j | 0 <= i < j < |run.passed|
          ensures Get(run.passed[i], Url) != Get(run.passed[j], Url)
        {
          if i == 0 {
            assert run.passed[j] == rest.passed[j - 1];
          } else {
            assert run.passed[i] == rest.passed[i - 1] && run.passed[j] == rest.passed[j - 1];
          }
        }
        forall i | 0 <= i < |run.passed|
          ensures Get(run.passed[i], Url) !in f.seen && Get(run.passed[i], Url) in run.filter.seen
        {
          if i > 0 {
            assert run.passed[i] == rest.passed[i - 1];
          }
        }
      } else {
        assert run.passed == rest.passed;
      }
    }
  }

  /** Of two items with equal URLs, the second is dropped and counted. */
  lemma {:induction false} SecondCopyDropped(item: Item, other: Item)
    requires Hashable(Get(item, Url)) && Get(other, Url) == Get(item, Url)
    ensures var run := DedupAll(NewDedupFilter, [item, other]);
      && run.passed == [item]
      && run.filter == DedupFilter({Get(item, Url)}, 1)
  {
    var s1 := DedupProcess(NewDedupFilter, item);
    var s2 := DedupProcess(s1.filter, other);
    assert [item, other][1..] == [other];
    assert [other][1..] == [];
    assert DedupAll(s2.filter, []) == DedupRun([], 0, s2.filter);
    assert DedupAll(s1.filter, [other]) == DedupRun([], 0, s2.filter);
  }

  /** Items without a URL are not exempt: the first passes with key `None` and every
      later one is dropped as a duplicate of it. */
  lemma UrllessItemsShareOneKey(f: DedupFilter, a: Item, b: Item)
    requires Url !in a.fields && Url !in b.fields
    ensures DedupProcess(DedupProcess(f, a).filter, b).result == Raise(DropItem(DuplicateItem(Null)))
  {
  }
}
