/** One polling cycle: the body of the `while True` loop (probo.py:92-125)
    with the export decision of `normalize_and_save_to_csv` (probo.py:74-84).

    The network fetch `fetch_homefeed` is a parameter: a total function from
    page number to the page's `data` object, None when the request, the JSON
    decoding or the lookup of `data` or `records` raised. Only page 1 is
    asked for `total_count`; the pages after it are read for their records
    alone, so their `totalCount` is never consulted. */
module Sweep {
  import opened Wrappers
  import opened Json
  import opened Schema
  import opened Records
  import opened Pagination

  /** The `data` object of one feed response. */
  datatype PageResponse = PageResponse(totalCount: int, records: seq<Json>)

  type Fetcher = nat -> Option<PageResponse>

  /** How a cycle ends: an escaped exception, nothing to write, or one
      snapshot holding these events. */
  datatype CycleOutcome<E> = CycleError | NoData | Exported(events: seq<E>)

  /** The processing of page `page` raises: its fetch failed, or one of its
      records is not a JSON object and `validate_and_clean_records` raised. */
  predicate PageFails(fetch: Fetcher, page: nat) {
    fetch(page).None? || AsRecords(fetch(page).value.records).None?
  }

  /** What page `page` adds to the sweep: its survivors, or nothing when its
      processing raised. */
  function PageEvents<E>(validate: map<string, Json> -> Option<E>, fetch: Fetcher, page: nat): (r: seq<E>)
    ensures PageFails(fetch, page) ==> r == []
    ensures fetch(page).Some? ==> |r| <= |fetch(page).value.records|
  {
    match fetch(page)
    case None => []
    case Some(response) =>
      match CleanBatch(validate, response.records)
      case None => []
      case Some(events) => events
  }

  /** Page number to what that page adds, for one validator and one feed. */
  function PageEventsOf<E>(validate: map<string, Json> -> Option<E>, fetch: Fetcher): nat -> seq<E> {
    (page: nat) => PageEvents(validate, fetch, page)
  }

  /** The events of pages lo .. hi-1, concatenated in page order. */
  function Collected<E>(pageEvents: nat -> seq<E>, lo: nat, hi: int): (r: seq<E>)
    decreases hi - lo
  {
    if hi <= lo then [] else Collected(pageEvents, lo, hi - 1) + pageEvents(hi - 1)
  }

  /** The page numbers lo .. hi-1 in increasing order, as `range(lo, hi)`. */
  function PageRange(lo: nat, hi: int): (r: seq<nat>)
    ensures |r| == if hi <= lo then 0 else hi - lo
    ensures forall k :: 0 <= k < |r| ==> r[k] == lo + k
    decreases hi - lo
  {
    if hi <= lo then [] else PageRange(lo, hi - 1) + [hi - 1]
  }

  /** `normalize_and_save_to_csv`: a snapshot is written only when there is
      at least one event, and then it holds every event; otherwise the cycle
      reports that there is no data. */
  function Export<E>(events: seq<E>): (r: CycleOutcome<E>)
    ensures !r.CycleError?
    ensures r.Exported? <==> events != []
    ensures r.Exported? ==> r.events == events
  {
    if events != [] then Exported(events) else NoData
  }

  /** The outcome of one cycle: an error escapes from page 1 exactly when
      page 1 itself raised or holds no records; otherwise the export decides. */
  function Cycle<E>(validate: map<string, Json> -> Option<E>, fetch: Fetcher): (r: CycleOutcome<E>)
    ensures r.CycleError? <==> PageFails(fetch, 1) || fetch(1).value.records == []
    ensures r.Exported? ==> r.events != []
  {
    match fetch(1)
    case None => CycleError
    case Some(first) =>
      match TotalPages(first.totalCount, |first.records|)
      case None => CycleError
      case Some(totalPages) =>
        match CleanBatch(validate, first.records)
        case None => CycleError
        case Some(firstEvents) =>
          Export(firstEvents + Collected(PageEventsOf(validate, fetch), 2, totalPages + 1))
  }

  /** The pages a cycle asks the feed for, in the order it asks: page 1, and
      then every page up to the page count, each once. */
  function Requests(fetch: Fetcher): (r: seq<nat>)
    ensures r != [] && r[0] == 1
    ensures forall k :: 0 <= k < |r| ==> r[k] == k + 1
  {
    match fetch(1)
    case None => [1]
    case Some(first) =>
      match TotalPages(first.totalCount, |first.records|)
      case None => [1]
      case Some(totalPages) =>
        if AsRecords(first.records).None? then [1] else [1] + PageRange(2, totalPages + 1)
  }

  /** The `try` block of one iteration of the page loop: fetch the page and
      validate its records; when either raises, the `except` clause logs it
      and the page adds nothing. */
  method ProcessPage(fetch: Fetcher, page: nat) returns (added: seq<Event>)
    ensures added == PageEvents(ValidateRecord, fetch, page)
  {
    added := [];
    var response := fetch(page);
    if response.Some? {
      var validated := ValidateAndCleanRecords(response.value.records);
      if validated.Some? {
        added := validated.value;
      }
    }
  }

  /** The `for page in range(2, total_pages + 1)` loop: each page is fetched
      once, in order; a page whose processing raises adds nothing and the
      loop moves on. `requested` lists the pages fetched, in order. */
  method FetchRemainingPages(fetch: Fetcher, totalPages: int) returns (events: seq<Event>, requested: seq<nat>)
    ensures events == Collected(PageEventsOf(ValidateRecord, fetch), 2, totalPages + 1)
    ensures requested == PageRange(2, totalPages + 1)
  {
    ghost var pageEvents := PageEventsOf(ValidateRecord, fetch);
    events, requested := [], [];
    var page := 2;
    while page <= totalPages
      invariant 2 <= page <= if totalPages < 2 then 2 else totalPages + 1
      invariant events == Collected(pageEvents, 2, page)
      invariant requested == PageRange(2, page)
    {
      requested := requested + [page];
      var added := ProcessPage(fetch, page);
      assert added == pageEvents(page);
      assert Collected(pageEvents, 2, page + 1) == Collected(pageEvents, 2, page) + pageEvents(page);
      events := events + added;
      page := page + 1;
    }
    if totalPages < 2 {
      assert Collected(pageEvents, 2, totalPages + 1) == [];
    } else {
      assert page == totalPages + 1;
    }
  }

  /** One cycle as the source runs it: fetch page 1, derive the page count,
      keep page 1's survivors, visit the remaining pages, and export what was
      gathered. `requested` lists the pages fetched, in order. */
  method RunCycle(fetch: Fetcher) returns (outcome: CycleOutcome<Event>, requested: seq<nat>)
    ensures outcome == Cycle(ValidateRecord, fetch)
    ensures requested == Requests(fetch)
  {
    requested := [1];
    var firstPage := fetch(1);
    if firstPage.None? {
      return CycleError, requested;
    }
    var first := firstPage.value;
    var pages := TotalPages(first.totalCount, |first.records|);
    if pages.None? {
      return CycleError, requested;
    }
    var totalPages := pages.value;
    var firstEvents := ValidateAndCleanRecords(first.records);
    if firstEvents.None? {
      return CycleError, requested;
    }
    var rest, restRequested := FetchRemainingPages(fetch, totalPages);
    requested := requested + restRequested;
    outcome := Export(firstEvents.value + rest);
  }

  // ---- properties ------------------------------------------------------------

  /** The events of a run of pages split at any page in between. */
  lemma {:induction false} CollectedSplit<E>(pageEvents: nat -> seq<E>, lo: nat, mid: nat, hi: int)
    requires lo <= mid <= hi
    ensures Collected(pageEvents, lo, hi) == Collected(pageEvents, lo, mid) + Collected(pageEvents, mid, hi)
    decreases hi - mid
  {
    if hi > mid {
      CollectedSplit(pageEvents, lo, mid, hi - 1);
    }
  }

  /** An event is collected iff one of the pages lo .. hi-1 adds it. */
  lemma {:induction false} CollectedMembers<E>(pageEvents: nat -> seq<E>, lo: nat, hi: int)
    ensures forall e :: e in Collected(pageEvents, lo, hi) <==> exists p: nat :: lo <= p < hi && e in pageEvents(p)
    decreases hi - lo
  {
    if hi > lo {
      CollectedMembers(pageEvents, lo, hi - 1);
      assert Collected(pageEvents, lo, hi) == Collected(pageEvents, lo, hi - 1) + pageEvents(hi - 1);
    }
  }

  /** Nothing is collected iff none of the pages lo .. hi-1 adds anything. */
  lemma {:induction false} CollectedEmptyIffNoPageEvents<E>(pageEvents: nat -> seq<E>, lo: nat, hi: int)
    ensures Collected(pageEvents, lo, hi) == [] <==> forall p: nat :: lo <= p < hi ==> pageEvents(p) == []
    decreases hi - lo
  {
    if hi > lo {
      CollectedEmptyIffNoPageEvents(pageEvents, lo, hi - 1);
      assert Collected(pageEvents, lo, hi) == Collected(pageEvents, lo, hi - 1) + pageEvents(hi - 1);
    }
  }

  /** A page whose processing raises contributes nothing, and the pages after
      it are still collected. */
  lemma FailedPageSkipped<E>(validate: map<string, Json> -> Option<E>, fetch: Fetcher, lo: nat, page: nat, hi: int)
    requires lo <= page < hi
    requires PageFails(fetch, page)
    ensures var pageEvents := PageEventsOf(validate, fetch);
      Collected(pageEvents, lo, hi) == Collected(pageEvents, lo, page) + Collected(pageEvents, page + 1, hi)
  {
    var pageEvents := PageEventsOf(validate, fetch);
    assert Collected(pageEvents, page, page + 1) == [] by {
      assert pageEvents(page) == PageEvents(validate, fetch, page) == [];
    }
    CollectedSplit(pageEvents, lo, page, hi);
    CollectedSplit(pageEvents, page, page + 1, hi);
  }

  /** Only the pages lo .. hi-1 are consulted. */
  lemma {:induction false} CollectedReadsOnlyItsPages<E>(validate: map<string, Json> -> Option<E>, fetch: Fetcher, other: Fetcher, lo: nat, hi: int)
    requires forall p: nat :: lo <= p < hi ==> fetch(p) == other(p)
    ensures Collected(PageEventsOf(validate, fetch), lo, hi) == Collected(PageEventsOf(validate, other), lo, hi)
    decreases hi - lo
  {
    if hi > lo {
      CollectedReadsOnlyItsPages(validate, fetch, other, lo, hi - 1);
      assert PageEventsOf(validate, fetch)(hi - 1) == PageEventsOf(validate, other)(hi - 1);
    }
  }

  /** Pages are requested in strictly increasing order, page 1 first, each at
      most once, and a page after the first is requested iff it lies in
      2 .. totalPages. */
  lemma RequestsInOrderOnce(fetch: Fetcher)
    ensures Requests(fetch) != [] && Requests(fetch)[0] == 1
    ensures forall i, j :: 0 <= i < j < |Requests(fetch)| ==> Requests(fetch)[i] < Requests(fetch)[j]
    ensures !PageFails(fetch, 1) && |fetch(1).value.records| > 0 ==>
      var n := TotalPages(fetch(1).value.totalCount, |fetch(1).value.records|).value;
      forall p: nat :: p >= 2 ==> (p in Requests(fetch) <==> p <= n)
  {
    if !PageFails(fetch, 1) && |fetch(1).value.records| > 0 {
      var n := TotalPages(fetch(1).value.totalCount, |fetch(1).value.records|).value;
      var r := Requests(fetch);
      assert r == [1] + PageRange(2, n + 1);
      forall p: nat | 2 <= p <= n
        ensures p in r
      {
        assert r[p - 1] == p;
      }
    }
  }

  /** A first page that raises ends the cycle, whether its fetch failed or
      one of its records is not a JSON object: nothing else is fetched and
      nothing is exported. */
  lemma FirstPageFailureIsFatal<E>(validate: map<string, Json> -> Option<E>, fetch: Fetcher)
    requires PageFails(fetch, 1)
    ensures Cycle(validate, fetch) == CycleError
    ensures Requests(fetch) == [1]
  {
  }

  /** An empty record list on page 1 makes the page computation divide by
      zero: the cycle ends with no further page fetched and no export. */
  lemma EmptyFirstPageIsFatal<E>(validate: map<string, Json> -> Option<E>, fetch: Fetcher)
    requires fetch(1).Some? && fetch(1).value.records == []
    ensures Cycle(validate, fetch) == CycleError
    ensures Requests(fetch) == [1]
  {
  }

  /** When everything fits on one page, no other page is fetched and the
      export holds page 1's survivors. */
  lemma SinglePageCycle<E>(validate: map<string, Json> -> Option<E>, fetch: Fetcher, first: PageResponse)
    requires fetch(1) == Some(first) && first.records != []
    requires forall i :: 0 <= i < |first.records| ==> first.records[i].JObject?
    requires first.totalCount <= |first.records|
    ensures Requests(fetch) == [1]
    ensures Cycle(validate, fetch) == Export(CleanBatch(validate, first.records).value)
  {
    var n := TotalPages(first.totalCount, |first.records|).value;
    TotalPagesIsLeast(first.totalCount, |first.records|, 1);
    assert n <= 1;
  }

  /** A cycle exports iff page 1 arrived with records, all of them JSON
      objects, and some record of the visited pages validated; the snapshot
      then holds page 1's survivors followed by what pages 2 .. totalPages
      add, in page order. */
  lemma CycleExportsIffEvents<E>(validate: map<string, Json> -> Option<E>, fetch: Fetcher)
    ensures Cycle(validate, fetch).CycleError? <==>
      || fetch(1).None?
      || fetch(1).value.records == []
      || exists i :: 0 <= i < |fetch(1).value.records| && !fetch(1).value.records[i].JObject?
    ensures !Cycle(validate, fetch).CycleError? ==>
      var first := fetch(1).value;
      var n := TotalPages(first.totalCount, |first.records|).value;
      var events := CleanBatch(validate, first.records).value + Collected(PageEventsOf(validate, fetch), 2, n + 1);
      && (Cycle(validate, fetch).Exported? <==> events != [])
      && (Cycle(validate, fetch).Exported? ==> Cycle(validate, fetch).events == events)
  {
  }

  /** A page anywhere in 2 .. totalPages whose processing raises is still
      requested, adds nothing, and every later page is still collected. */
  lemma FailedPageCycle<E>(validate: map<string, Json> -> Option<E>, fetch: Fetcher, first: PageResponse, page: nat)
    requires fetch(1) == Some(first) && first.records != []
    requires forall i :: 0 <= i < |first.records| ==> first.records[i].JObject?
    requires 2 <= page <= TotalPages(first.totalCount, |first.records|).value
    requires PageFails(fetch, page)
    ensures page in Requests(fetch)
    ensures var n := TotalPages(first.totalCount, |first.records|).value;
      var pageEvents := PageEventsOf(validate, fetch);
      Cycle(validate, fetch) == Export(CleanBatch(validate, first.records).value
        + Collected(pageEvents, 2, page) + Collected(pageEvents, page + 1, n + 1))
  {
    var n := TotalPages(first.totalCount, |first.records|).value;
    assert Requests(fetch)[page - 1] == page;
    var pageEvents := PageEventsOf(validate, fetch);
    var kept := CleanBatch(validate, first.records).value;
    var before, after := Collected(pageEvents, 2, page), Collected(pageEvents, page + 1, n + 1);
    assert Cycle(validate, fetch) == Export(kept + Collected(pageEvents, 2, n + 1));
    FailedPageSkipped(validate, fetch, 2, page, n + 1);
    assert kept + (before + after) == kept + before + after;
  }

  /** 95 records at 10 per page: pages 1 to 10 are each requested once, in
      order, and no other page. */
  lemma NinetyFiveRecordsRequests(fetch: Fetcher, records: seq<Json>)
    requires fetch(1) == Some(PageResponse(95, records)) && |records| == 10
    requires forall i :: 0 <= i < |records| ==> records[i].JObject?
    ensures Requests(fetch) == [1, 2, 3, 4, 5, 6, 7, 8, 9, 10]
  {
    NinetyFiveRecordsTenPages();
  }
}
