# Probo homefeed poller: one polling cycle, verified

This Dafny project models the core of `probo.py`, a scraper that polls the Probo
public home feed page by page. One polling cycle does the following:

- It fetches page 1 and derives the number of pages from it with `get_total_pages`, a ceiling division of
  `total_count` by the number of records on page 1.
- It validates every record of page 1 against the `ProboEvent` schema. Validation
  strips the currency prefix `"₹ "` from both price strings. It drops and logs records that fail.
  A record that is not a JSON object cannot be logged: the failure message calls
  `record.get`, and the resulting `AttributeError` abandons the whole page.
- It visits pages 2 .. total_pages in order. A page whose fetch or processing raises
  is skipped.
- It writes one snapshot of all surviving events, or reports that there is no data.

Modules, following the program's structure:

| file | module | models |
|---|---|---|
| `wrappers.dfy` | `Wrappers` | `Option`, for the model's fallible steps |
| `json.dfy` | `Json` | the decoded JSON values the feed returns |
| `pagination.dfy` | `Pagination` | `get_total_pages` |
| `price.dfy` | `Price` | `ProboEvent.clean_price`, that is `str.replace("₹ ", "")` |
| `schema.dfy` | `Schema` | `ProbabilityData`, `ProboEvent` and `model_validate` on one record |
| `records.dfy` | `Records` | `validate_and_clean_records` |
| `sweep.dfy` | `Sweep` | the body of the `while True` loop and `normalize_and_save_to_csv`'s export decision |

How the source's effects are represented:

- The network fetch `fetch_homefeed` is a parameter of type `nat -> Option<PageResponse>`.
  `None` stands for any exception raised while the page is fetched or its
  `data` or `records` is looked up, or, for page 1 only, its `total_count`.
  Only page 1 is asked for `total_count` (probo.py:88, 98). Pages 2 .. total_pages are read
  for their records alone (probo.py:108-109), so their `totalCount` is never consulted.
- Python's `ZeroDivisionError` in `get_total_pages` is `TotalPages(...) == None`.
- Pydantic's `ValidationError` is `ValidateRecord(...) == None`. It is caught inside the
  record loop, so that record is dropped.
- A record that is not a JSON object makes `Records.AsRecords` and
  `Records.CleanBatch` return `None`. It fails validation too, and then the log line at
  probo.py:71 raises `AttributeError`, which leaves `validate_and_clean_records`.
  On pages 2 .. total_pages the page handler at probo.py:113-115 catches it
  (`Sweep.PageFails`), and the page adds nothing.
- An exception raised while page 1 is processed reaches the cycle-level handler at
  probo.py:122-123. This covers a failed fetch, an empty record list and a record that is
  not a JSON object. The cycle then ends with the outcome `CycleError`.
- The methods `Records.ValidateAndCleanRecords`, `Sweep.FetchRemainingPages` and
  `Sweep.RunCycle` keep the source's loops and accumulate into a local
  sequence, as the source does with its local lists. Each is proved equal to a
  specification function: `Records.CleanBatch`, `Sweep.PageEvents`, `Sweep.Collected` or `Sweep.Cycle`.
- The laws of the filter and of the page sweep are proved for any per-record
  validator. The cycle itself runs with `Schema.ValidateRecord`.
- The page loop and the cycle also return the list of pages they requested. This
  makes the order of fetches something the contracts can state.

What the code does, where it says more or less than its own comments:

- The docstring of `clean_price` (probo.py:32) speaks of removing a prefix. The code
  (probo.py:33) removes every non-overlapping occurrence of `"₹ "` anywhere in a
  price. Removal is single-pass, so a cleaned price can still contain `"₹ "`:
  `"₹₹  "` becomes `"₹ "` (`Price.CleanPriceMayLeavePrefix`).
- A price is any string. The code does not check what is left after cleaning.
- An empty first page raises a division by zero. The cycle handler catches it,
  so the cycle ends without fetching other pages and without exporting.

## Model

| member | source | states |
|---|---|---|
| `Pagination.FloorDiv` | probo.py:90 | Python's `//` for a positive divisor is the floor: `q*b <= a < q*b + b` |
| `Pagination.TotalPages` | probo.py:86-90 | fails exactly when page 1 has no records; otherwise `p*rpp >= total` and `(p-1)*rpp < total` |
| `Pagination.TotalPagesIsLeast` | probo.py:90 | the page count is the least `p` with `p*rpp >= total_count` |
| `Pagination.TotalPagesRange` | probo.py:86-90 | for a non-negative count: `0 <= pages <= total_count`, and at least one page when the count is positive |
| `Pagination.NinetyFiveRecordsTenPages` | probo.py:90 | 95 records at 10 per page give 10 pages |
| `Price.FindFrom` | probo.py:33 | returns the leftmost occurrence of `"₹ "` at or after a position, or reports that there is none |
| `Price.CleanPrice` | probo.py:30-33 | the cleaned price is never longer than the input, and it equals the input iff the input holds no `"₹ "` |
| `Price.CleanPriceIsScan` | probo.py:30-33 | the find-and-skip definition of `replace` equals a left-to-right character scan that drops each non-overlapping `"₹ "` |
| `Price.CleanPriceLength` | probo.py:33 | output length = input length − 2 × number of occurrences removed |
| `Price.CleanPriceUnchanged` | probo.py:30-33 | a price without `"₹ "` is unchanged, so cleaning a clean price is a no-op |
| `Price.CleanPriceStripsPrefix` | probo.py:30-33 | `"₹ " + s` with `s` clean becomes `s` (one removal) |
| `Price.CleanPriceMayLeavePrefix` | probo.py:33 | `"₹₹  "` cleans to `"₹ "`, and cleaning that again gives `""`: cleaning is not idempotent |
| `Schema.ValidateRecord` | probo.py:13-28 | a dictionary record validates iff every mandatory field is present with its declared kind and every defaulted field is absent or of its kind |
| `Schema.ValidatedEventFields` | probo.py:13-33 | the event carries the record's values, with both prices cleaned and defaults for absent optional fields |
| `Schema.DefaultsFilledIn` | probo.py:25-28 | with no optional field given: `type = "probabilistic"`, `is_event_active = true`, both available prices absent |
| `Schema.MissingMandatoryRejected` | probo.py:14-24 | a record missing a mandatory key is rejected |
| `Schema.ExtraKeysIgnored` | probo.py:13-28 | keys the schema does not name do not change the validation result |
| `Schema.ValidatedPricesStripped` | probo.py:18-19 | prices given as `"₹ " + amount` are stored as the amount |
| `Records.Kept` | probo.py:67-71 | one record adds at most one event, and exactly one iff it validates |
| `Records.Survivors` | probo.py:63-72 | the filtered list is never longer than the input |
| `Records.AsRecords` | probo.py:66-71 | the records can be read as dictionaries iff every one is a JSON object, and then they are its field maps, in order |
| `Records.CleanBatch` | probo.py:63-72 | the function raises iff some record is not a JSON object; otherwise it returns no more events than records |
| `Records.ValidateAndCleanRecords` | probo.py:63-72 | the loop returns the survivors of the input in input order, or raises (`None`) when a record is not a JSON object |
| `Records.ValidIndicesInOrder` | probo.py:66-69 | the validating positions are listed in strictly increasing order, each in range, and no other position is listed |
| `Records.SurvivorsAreValidRecordsInOrder` | probo.py:63-72 | the survivors are the events of the validating positions, which are strictly increasing and include every validating position and no other; so their count equals the number of valid records |
| `Records.SurvivorsAppend` | probo.py:66-71 | the survivors of `a + b` are the survivors of `a` followed by those of `b` |
| `Records.InvalidRecordDropped` | probo.py:67-71 | among dictionary records, an invalid one is dropped and the records after it are still examined |
| `Records.ValidRecordKept` | probo.py:67-69 | a valid record's event is kept in its place |
| `Records.NonObjectRecordLosesBatch` | probo.py:68-71 | one record that is not a JSON object, anywhere in the batch, makes the whole call raise |
| `Records.RejectedObjectDropped` | probo.py:67-71 | a JSON object that fails validation leaves the result as if it were absent, error included |
| `Sweep.PageEvents` | probo.py:107-115 | a page that raises adds nothing; any page adds no more events than it has records |
| `Sweep.PageRange` | probo.py:106 | `range(lo, hi)`: `max(0, hi-lo)` pages, the k-th being `lo + k` |
| `Sweep.Export` | probo.py:74-84 | a snapshot is produced iff there are events, and it holds all of them; otherwise "no data" |
| `Sweep.Cycle` | probo.py:92-123 | the cycle errs iff page 1 raises (failed fetch or a non-object record) or has no records; an export is never empty |
| `Sweep.Requests` | probo.py:95-108 | page 1 is requested first, and the k-th request is page k: pages are consecutive from 1 |
| `Sweep.ProcessPage` | probo.py:107-115 | one iteration of the page loop adds exactly what the page contributes, nothing when it raises |
| `Sweep.FetchRemainingPages` | probo.py:106-115 | the page loop requests pages `2..total_pages` in order and accumulates their survivors in page order, a page that raises adding nothing |
| `Sweep.RunCycle` | probo.py:92-125 | one cycle's outcome and requested pages equal the specification `Cycle` / `Requests` |
| `Sweep.CollectedMembers` | probo.py:106-115 | an event is gathered by the page loop iff one of its pages adds it |
| `Sweep.CollectedEmptyIffNoPageEvents` | probo.py:106-115 | the page loop gathers nothing iff none of its pages adds anything |
| `Sweep.CollectedSplit` | probo.py:106-115 | the events of a page run are those of its two halves, concatenated in page order |
| `Sweep.FailedPageSkipped` | probo.py:107-115 | a page that raises contributes nothing and later pages are still collected |
| `Sweep.CollectedReadsOnlyItsPages` | probo.py:106-108 | the sweep's events depend only on the pages in its range |
| `Sweep.RequestsInOrderOnce` | probo.py:95-108 | page 1 comes first; requests strictly increase, so no page is fetched twice; a page ≥ 2 is requested iff it is ≤ total_pages |
| `Sweep.FirstPageFailureIsFatal` | probo.py:93-123 | a page 1 that raises (failed fetch or a non-object record) ends the cycle in error with nothing else fetched |
| `Sweep.EmptyFirstPageIsFatal` | probo.py:89-96 | an empty page 1 (division by zero) ends the cycle in error with no page 2..N fetched and no export |
| `Sweep.SinglePageCycle` | probo.py:101-106 | when total_count fits on page 1, only page 1 is fetched and the export holds its survivors |
| `Sweep.CycleExportsIffEvents` | probo.py:76-84 | the cycle errs iff page 1 fails, is empty or holds a non-object record; otherwise it exports iff the gathered events are non-empty, and the export is page 1's survivors followed by pages 2..N's |
| `Sweep.FailedPageCycle` | probo.py:106-118 | with page k raising, it is still requested and the export is page 1 + pages 2..k-1 + pages k+1..N |
| `Sweep.NinetyFiveRecordsRequests` | probo.py:95-108 | 95 records at 10 per page: pages 1..10 are requested, once each, in order |

## Left out

- `fetch_homefeed` (probo.py:35-61), with its URL, headers, HTTP request and JSON decoding, is network I/O. It is the `Fetcher` parameter.
- Pydantic's lax coercions are left out, because they are library behaviour. Examples are a numeric string accepted as `int`, a bool accepted as `int`, and an integral float accepted as `int`. The model checks kinds strictly, except that an integer is accepted for the `Optional[float]` fields, as Pydantic accepts it.
- `available_yes_price` / `available_no_price` are Python floats. They are modelled as `real`, without rounding.
- A `records` value that is not a list is folded into the fetch failing. This loses nothing. A number or `null` makes `len` or the loop raise. An empty string or dict gives zero records: a division by zero on page 1, nothing added on later pages. A non-empty string or dict is iterated as strings, which are not JSON objects, so the log line at probo.py:71 raises.
- A non-integer `total_count` (for example `95.0`) is not modelled. It makes `range` raise.
- The log output itself is left out. The one log line with an effect on control flow is modelled: probo.py:71 raises for a record that is not a JSON object. The other log lines only print values the code has already computed without error.
- `model_dump`, `pd.json_normalize`, `to_csv` and the file name built from the timestamp are left out, because they are serialisation and file I/O. An export is the value `Exported(events)`.
- `datetime.now`, `time.sleep(1)`, `time.sleep(300)` and the endless outer loop are left out, because they are clock and timing. One cycle is modelled. A cycle ending in `CycleError` stands for the handler at probo.py:122-123, after which the source sleeps and starts the next cycle.
