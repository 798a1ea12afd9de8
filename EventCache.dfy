/**
 * The in-memory event cache of api.py: `build_event_cache` pages through the
 * upstream `get_documents(page=..., per_page=100)` call from page 1 on and
 * stores every record under its `id`, until a page comes back empty; every
 * handler then reads events out of the finished dictionary by id.
 *
 * The upstream service is an input: `source[p - 1]` is its answer to page `p`,
 * and every page past the end of `source` is empty (a finite collection of
 * documents). A `Failed(status)` answer stands for the HTTP error the client
 * raises; nothing catches it, so it ends the build.
 */
module EventCache {
  import opened Wrappers
  import opened Documents

  /** The dictionary `id -> record` the handlers share. */
  type Cache = map<EventId, Event>

  /** The upstream answer to one page request. */
  datatype PageResponse = Page(records: seq<Event>) | Failed(status: int)

  /** Answer of the upstream service to page number `page` (pages count from 1). */
  function Fetch(source: seq<PageResponse>, page: nat): PageResponse
    requires 1 <= page
  {
    if page <= |source| then source[page - 1] else Page([])
  }

  /** An answer after which the loop asks for the next page. */
  predicate Continues(response: PageResponse) {
    response.Page? && response.records != []
  }

  /** The records a page answer contributes (a failed answer contributes none). */
  function RecordsOf(response: PageResponse): seq<Event> {
    if response.Page? then response.records else []
  }

  /** The number of non-empty pages before the first empty or failed one. */
  function LeadingPages(source: seq<PageResponse>): (k: nat)
    ensures k <= |source|
    ensures forall p :: 0 <= p < k ==> Continues(source[p])
    ensures k < |source| ==> !Continues(source[k])
  {
    if source == [] || !Continues(source[0]) then 0 else 1 + LeadingPages(source[1..])
  }

  /** The records of `pages`, in the order in which the loop receives them. */
  function Received(pages: seq<PageResponse>): seq<Event> {
    if pages == [] then [] else Received(pages[..|pages| - 1]) + RecordsOf(pages[|pages| - 1])
  }

  /** The dictionary after `events[r['id']] = r` for each record `r` of `records`, in order. */
  function Folded(records: seq<Event>): Cache {
    if records == [] then map[]
    else
      var last := records[|records| - 1];
      Folded(records[..|records| - 1])[last.id := last]
  }

  /** The records received before the first empty page, in order of arrival. */
  function ReceivedBeforeStop(source: seq<PageResponse>): seq<Event> {
    Received(source[..LeadingPages(source)])
  }

  /** What `build_event_cache` returns, or the status of the error it lets through. */
  function Built(source: seq<PageResponse>): Result<Cache, int> {
    var stop := Fetch(source, LeadingPages(source) + 1);
    if stop.Failed? then Failure(stop.status) else Success(Folded(ReceivedBeforeStop(source)))
  }

  /** Page `page` of the loop's range is answered with records exactly when it precedes the stop. */
  lemma ContinuesBeforeStop(source: seq<PageResponse>, page: nat)
    requires 1 <= page <= LeadingPages(source) + 1
    ensures Continues(Fetch(source, page)) <==> page <= LeadingPages(source)
  {
  }

  lemma ReceivedStep(source: seq<PageResponse>, p: nat)
    requires p < |source|
    ensures Received(source[..p + 1]) == Received(source[..p]) + RecordsOf(source[p])
  {
    assert source[..p + 1][..p] == source[..p];
  }

  lemma FoldedStep(records: seq<Event>, r: Event)
    ensures Folded(records + [r]) == Folded(records)[r.id := r]
  {
    assert (records + [r])[..|records|] == records;
  }

  /**
   * The page numbers `build_event_cache` asks for: 1, 2, ... in order, every
   * one but the last answered with records, the last one empty or failed.
   */
  function RequestedPages(source: seq<PageResponse>): (pages: seq<nat>)
    ensures |pages| == LeadingPages(source) + 1
    ensures forall i :: 0 <= i < |pages| ==> pages[i] == i + 1
    ensures forall i :: 0 <= i < |pages| - 1 ==> Continues(Fetch(source, pages[i]))
    ensures !Continues(Fetch(source, pages[|pages| - 1]))
  {
    seq(LeadingPages(source) + 1, i => i + 1)
  }

  /**
   * `build_event_cache`: the paging loop with the dictionary updated in place.
   * `requested` is the list of page numbers sent upstream, in order.
   */
  method BuildEventCache(source: seq<PageResponse>) returns (result: Result<Cache, int>, requested: seq<nat>)
    ensures result == Built(source)
    ensures requested == RequestedPages(source)
  {
    var events: Cache := map[];
    var page := 1;
    requested := [];
    while true
      invariant 1 <= page <= LeadingPages(source) + 1
      invariant events == Folded(Received(source[..page - 1]))
      invariant requested == seq(page - 1, i => i + 1)
      decreases LeadingPages(source) + 1 - page
    {
      var response := Fetch(source, page);
      ContinuesBeforeStop(source, page);
      requested := requested + [page];
      if response.Failed? {
        result := Failure(response.status);
        return;
      }
      var results := response.records;
      if results == [] {
        result := Success(events);
        return;
      }
      events := StorePage(events, Received(source[..page - 1]), results);
      ReceivedStep(source, page - 1);
      page := page + 1;
    }
  }

  /**
   * The inner `for result in results: events[result['id']] = result` of the
   * loop: `before` are the records stored so far.
   */
  method StorePage(events: Cache, ghost before: seq<Event>, results: seq<Event>) returns (r: Cache)
    requires events == Folded(before)
    ensures r == Folded(before + results)
  {
    r := events;
    var i := 0;
    assert before + results[..0] == before;
    while i < |results|
      invariant 0 <= i <= |results|
      invariant r == Folded(before + results[..i])
    {
      assert before + results[..i + 1] == (before + results[..i]) + [results[i]];
      FoldedStep(before + results[..i], results[i]);
      r := r[results[i].id := results[i]];
      i := i + 1;
    }
    assert results[..i] == results;
  }

  /** Record membership in `Received` is membership in one of the pages. */
  lemma {:induction false} ReceivedHas(pages: seq<PageResponse>, r: Event)
    ensures r in Received(pages) <==> exists p :: 0 <= p < |pages| && r in RecordsOf(pages[p])
  {
    if pages != [] {
      var init := pages[..|pages| - 1];
      ReceivedHas(init, r);
      assert forall p :: 0 <= p < |init| ==> init[p] == pages[p];
    }
  }

  /** The keys of a fold are exactly the ids of the folded records. */
  lemma {:induction false} FoldedKeys(records: seq<Event>, id: EventId)
    ensures id in Folded(records) <==> exists r :: r in records && r.id == id
  {
    if records != [] {
      var init := records[..|records| - 1];
      FoldedKeys(init, id);
      assert records == init + [records[|records| - 1]];
    }
  }

  /** Every record of the cache is filed under its own id. */
  predicate FiledById(cache: Cache) {
    forall k :: k in cache ==> cache[k].id == k
  }

  /** The fold files each record under the record's own id. */
  lemma {:induction false} FoldedFilesById(records: seq<Event>)
    ensures FiledById(Folded(records))
  {
    if records != [] {
      FoldedFilesById(records[..|records| - 1]);
    }
  }

  /** When an id occurs several times, the fold keeps the record of its last occurrence. */
  lemma {:induction false} LastOccurrenceWins(records: seq<Event>, id: EventId)
    requires id in Folded(records)
    ensures exists i :: 0 <= i < |records| && records[i].id == id && Folded(records)[id] == records[i]
                        && forall j :: i < j < |records| ==> records[j].id != id
  {
    var n := |records|;
    var last := records[n - 1];
    if last.id != id {
      var init := records[..n - 1];
      LastOccurrenceWins(init, id);
      var i :| 0 <= i < |init| && init[i].id == id && Folded(init)[id] == init[i]
               && forall j :: i < j < |init| ==> init[j].id != id;
      assert records[i].id == id && Folded(records)[id] == records[i];
    }
  }

  /** Some record of a page before the first empty page carries `id`. */
  ghost predicate OccursBeforeStop(source: seq<PageResponse>, id: EventId) {
    exists p, j :: 0 <= p < LeadingPages(source) && 0 <= j < |source[p].records|
                   && source[p].records[j].id == id
  }

  /**
   * After a successful build the key set is exactly the set of ids that occur
   * in the pages before the first empty page.
   */
  lemma CacheKeys(source: seq<PageResponse>, id: EventId)
    requires Built(source).Success?
    ensures id in Built(source).value <==> OccursBeforeStop(source, id)
  {
    var k := LeadingPages(source);
    var pages := source[..k];
    assert Received(pages) == ReceivedBeforeStop(source);
    FoldedKeys(Received(pages), id);
    if id in Built(source).value {
      var r :| r in Received(pages) && r.id == id;
      ReceivedHas(pages, r);
      var p :| 0 <= p < k && r in RecordsOf(pages[p]);
      var j :| 0 <= j < |source[p].records| && source[p].records[j] == r;
    } else if OccursBeforeStop(source, id) {
      var p, j :| 0 <= p < k && 0 <= j < |source[p].records| && source[p].records[j].id == id;
      var r := source[p].records[j];
      assert r in RecordsOf(pages[p]);
      ReceivedHas(pages, r);
      assert false;
    }
  }

  /**
   * After a successful build every cached record is the last record carrying
   * its id among the records received before the first empty page.
   */
  lemma CacheHoldsLastRecord(source: seq<PageResponse>, id: EventId)
    requires Built(source).Success? && id in Built(source).value
    ensures var received := ReceivedBeforeStop(source);
            exists i :: 0 <= i < |received| && received[i].id == id && Built(source).value[id] == received[i]
                        && forall j :: i < j < |received| ==> received[j].id != id
  {
    LastOccurrenceWins(ReceivedBeforeStop(source), id);
  }

  /** A cache built by `build_event_cache` files every record under its own id. */
  lemma CacheFiledById(source: seq<PageResponse>)
    requires Built(source).Success?
    ensures FiledById(Built(source).value)
  {
    FoldedFilesById(ReceivedBeforeStop(source));
  }

  /** `event_cache[event_id]` for each id in turn; the first missing id raises `KeyError`. */
  function Lookup(cache: Cache, ids: seq<EventId>): (r: Result<seq<Event>, EventId>)
    ensures r.Success? <==> forall i :: 0 <= i < |ids| ==> ids[i] in cache
    ensures r.Success? ==> |r.value| == |ids| && forall i :: 0 <= i < |ids| ==> r.value[i] == cache[ids[i]]
    ensures r.Failure? ==> exists i :: 0 <= i < |ids| && ids[i] == r.error && r.error !in cache
                                       && forall j :: 0 <= j < i ==> ids[j] in cache
  {
    if ids == [] then Success([])
    else if ids[0] !in cache then Failure(ids[0])
    else
      match Lookup(cache, ids[1..])
      case Success(rest) => Success([cache[ids[0]]] + rest)
      case Failure(missing) => Failure(missing)
  }
}
