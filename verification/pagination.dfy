/** The page-count arithmetic of `get_total_pages` (probo.py:86-90). */
module Pagination {
  import opened Wrappers

  /** Python's `a // b` for a positive divisor: the floor of a / b. */
  function FloorDiv(a: int, b: int): (q: int)
    requires b > 0
    ensures q * b <= a < q * b + b
  {
    a / b
  }

  /** `-(-totalCount // recordsPerPage)`: None stands for the ZeroDivisionError
      Python raises when the first page holds no records. */
  function TotalPages(totalCount: int, recordsPerPage: nat): (r: Option<int>)
    ensures r.None? <==> recordsPerPage == 0
    ensures r.Some? ==> r.value * recordsPerPage >= totalCount
    ensures r.Some? ==> (r.value - 1) * recordsPerPage < totalCount
  {
    if recordsPerPage == 0 then None
    else Some(-FloorDiv(-totalCount, recordsPerPage))
  }

  /** The page count is the LEAST p whose p pages hold totalCount records. */
  lemma TotalPagesIsLeast(totalCount: int, recordsPerPage: nat, p: int)
    requires recordsPerPage > 0
    requires p * recordsPerPage >= totalCount
    ensures TotalPages(totalCount, recordsPerPage).Some?
    ensures TotalPages(totalCount, recordsPerPage).value <= p
  {
    var n := TotalPages(totalCount, recordsPerPage).value;
    if p < n {
      MulMonotone(p, n - 1, recordsPerPage);
      assert false;
    }
  }

  lemma MulMonotone(x: int, y: int, k: nat)
    requires x <= y
    ensures x * k <= y * k
  {
    assert y * k - x * k == (y - x) * k;
  }

  /** A non-negative count needs a non-negative number of pages, and a
      positive count at least one page; it never needs more pages than records. */
  lemma TotalPagesRange(totalCount: int, recordsPerPage: nat)
    requires recordsPerPage > 0
    requires totalCount >= 0
    ensures 0 <= TotalPages(totalCount, recordsPerPage).value <= totalCount
    ensures totalCount > 0 ==> TotalPages(totalCount, recordsPerPage).value >= 1
  {
    var n := TotalPages(totalCount, recordsPerPage).value;
    if n < 0 {
      MulMonotone(n, -1, recordsPerPage);
      assert false;
    }
    MulMonotone(1, recordsPerPage, totalCount);
    assert totalCount * recordsPerPage >= totalCount;
    TotalPagesIsLeast(totalCount, recordsPerPage, totalCount);
    if totalCount > 0 && n < 1 {
      MulMonotone(n, 0, recordsPerPage);
      assert false;
    }
  }

  /** 95 records with 10 records per page span 10 pages. */
  lemma NinetyFiveRecordsTenPages()
    ensures TotalPages(95, 10) == Some(10)
  {
  }
}
