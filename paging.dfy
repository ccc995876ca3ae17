/**
 * Page arithmetic of viewer/Paging.kt (`PageableTableModel`), which the paged
 * `DataModel` of viewer/DataModel.kt repeats over its reader's row count.
 * The source computes `ceil(rows.toDouble() / pageSize)`; for a positive page
 * size that is the integer ceiling division below.
 */
module Paging {

  /** The number of pages needed to show `rows` rows, `pageSize` to a page. */
  function PageCountOf(rows: nat, pageSize: int): (n: nat)
    requires pageSize > 0
    ensures rows <= n * pageSize
    ensures n == 0 || (n - 1) * pageSize < rows
  {
    var n := (rows + pageSize - 1) / pageSize;
    assert n * pageSize + (rows + pageSize - 1) % pageSize == rows + pageSize - 1;
    assert (n - 1) * pageSize == n * pageSize - pageSize;
    n
  }

  /** The ceiling is the only count with both properties: enough pages, and no page left empty. */
  lemma PageCountUnique(rows: nat, pageSize: int, n: nat)
    requires pageSize > 0
    requires rows <= n * pageSize && (n == 0 || (n - 1) * pageSize < rows)
    ensures n == PageCountOf(rows, pageSize)
  {
    var m := PageCountOf(rows, pageSize);
    if n < m {
      MulMonotone(n, m - 1, pageSize);
    } else if m < n {
      MulMonotone(m, n - 1, pageSize);
    }
  }

  lemma MulMonotone(a: nat, b: nat, p: int)
    requires a <= b && p > 0
    ensures a * p <= b * p
  {
  }

  /** No rows need no pages; any row needs at least one. */
  lemma PageCountZero(rows: nat, pageSize: int)
    requires pageSize > 0
    ensures PageCountOf(rows, pageSize) == 0 <==> rows == 0
  {
  }

  /**
   * `pageNumber`'s setter: 0 when there are no pages, otherwise the value
   * coerced into [1, pageCount].
   */
  function ClampPage(value: int, pageCount: nat): (p: nat)
    ensures pageCount == 0 ==> p == 0
    ensures pageCount > 0 ==> 1 <= p <= pageCount
    ensures pageCount > 0 && 1 <= value <= pageCount ==> p == value
    ensures pageCount > 0 && value < 1 ==> p == 1
    ensures pageCount > 0 && value > pageCount ==> p == pageCount
  {
    if pageCount == 0 then 0
    else if value < 1 then 1
    else if value > pageCount then pageCount
    else value
  }

  /** Clamping is idempotent: a page number already set is kept by setting it again. */
  lemma ClampPageIdempotent(value: int, pageCount: nat)
    ensures ClampPage(ClampPage(value, pageCount), pageCount) == ClampPage(value, pageCount)
  {
  }

  /**
   * `pageRowCount`: a full page, except on the last page, which holds what is
   * left over after the pages before it.
   */
  function PageRows(rows: int, pageSize: int, pageCount: int, pageNumber: int): int {
    if pageNumber == pageCount then rows - (pageCount - 1) * pageSize else pageSize
  }

  /** `dataRowIndex`: the data row shown at a row of the current page. */
  function DataRow(pageNumber: int, pageSize: int, pageRow: int): int {
    (pageNumber - 1) * pageSize + pageRow
  }

  /** The last page holds between one row and a full page. */
  lemma LastPageRows(rows: nat, pageSize: int)
    requires pageSize > 0
    requires PageCountOf(rows, pageSize) >= 1
    ensures var n := PageCountOf(rows, pageSize);
      1 <= PageRows(rows, pageSize, n, n) <= pageSize
  {
    var n := PageCountOf(rows, pageSize);
    assert (n - 1) * pageSize == n * pageSize - pageSize;
  }

  /**
   * Every row of every page is a data row: the rows of page `p` are the data
   * rows from `(p - 1) * pageSize` up to, not including, the next page's first.
   */
  lemma DataRowInRange(rows: nat, pageSize: int, pageNumber: int, pageRow: int)
    requires pageSize > 0
    requires 1 <= pageNumber <= PageCountOf(rows, pageSize)
    requires 0 <= pageRow < PageRows(rows, pageSize, PageCountOf(rows, pageSize), pageNumber)
    ensures 0 <= DataRow(pageNumber, pageSize, pageRow) < rows
  {
    var n := PageCountOf(rows, pageSize);
    MulMonotone(0, pageNumber - 1, pageSize);
    if pageNumber < n {
      MulMonotone(pageNumber, n - 1, pageSize);
      assert (pageNumber - 1) * pageSize + pageSize == pageNumber * pageSize;
    }
  }

  /**
   * Every data row is shown exactly once: on page `d / pageSize + 1`, at page
   * row `d % pageSize`, which that page has.
   */
  lemma DataRowCovered(rows: nat, pageSize: int, d: nat)
    requires pageSize > 0 && d < rows
    ensures var p, r := d / pageSize + 1, d % pageSize;
      && 1 <= p <= PageCountOf(rows, pageSize)
      && 0 <= r < PageRows(rows, pageSize, PageCountOf(rows, pageSize), p)
      && DataRow(p, pageSize, r) == d
  {
    var n := PageCountOf(rows, pageSize);
    var q, r := d / pageSize, d % pageSize;
    assert d == q * pageSize + r;
    if n < q + 1 {
      MulMonotone(n, q, pageSize);
      assert false;
    }
    if q + 1 == n {
      assert (n - 1) * pageSize == q * pageSize;
    }
  }

  /** A page row is the data row of only one (page, row) pair. */
  lemma DataRowInjective(pageSize: int, p1: int, r1: int, p2: int, r2: int)
    requires pageSize > 0
    requires 0 <= r1 < pageSize && 0 <= r2 < pageSize
    requires DataRow(p1, pageSize, r1) == DataRow(p2, pageSize, r2)
    ensures p1 == p2 && r1 == r2
  {
    if p1 < p2 {
      MulLess(p1 - 1, p2 - 1, pageSize);
    } else if p2 < p1 {
      MulLess(p2 - 1, p1 - 1, pageSize);
    }
  }

  lemma MulLess(a: int, b: int, p: int)
    requires a < b && p > 0
    ensures a * p + p <= b * p
  {
    assert b * p - a * p == (b - a) * p;
    assert (b - a) * p >= p by {
      assert (b - a) * p == (b - a - 1) * p + p;
      assert (b - a - 1) * p >= 0;
    }
  }

  /**
   * With no rows there are no pages and the page number is 0, so the page
   * number equals the page count and the last-page formula reports a full
   * page of rows for an empty table.
   */
  lemma EmptyTableRows(pageSize: int, value: int)
    requires pageSize > 0
    ensures PageCountOf(0, pageSize) == 0
    ensures PageRows(0, pageSize, 0, ClampPage(value, 0)) == pageSize
  {
  }

  /** 32768 rows at 10 a page: 3277 pages, 10 rows on the first and 8 on the last. */
  lemma TenRowPages()
    ensures PageCountOf(32768, 10) == 3277
    ensures PageRows(32768, 10, 3277, 1) == 10
    ensures PageRows(32768, 10, 3277, 3277) == 8
  {
  }

  /**
   * `PageableTableModel`: the page size, the current page, the data row count
   * and the page count derived from them. Every setter of `pageSize` and
   * `dataRowCount` recomputes `pageCount`; `pageNumber` is only clamped when
   * it is itself set.
   */
  class PageableTableModel {
    var pageCount: nat
    var pageSize: int
    var pageNumber: int
    var dataRowCount: nat

    /** `pageCount` is up to date, for a positive page size and a non-negative row count. */
    predicate Counted()
      reads this
    {
      pageSize > 0 && pageCount == PageCountOf(dataRowCount, pageSize)
    }

    constructor()
      ensures pageCount == 0 && pageSize == 50 && pageNumber == 0 && dataRowCount == 0
      ensures Counted()
    {
      pageCount := 0;
      pageSize := 50;
      pageNumber := 0;
      dataRowCount := 0;
    }

    /** `updatePageCount`. */
    method UpdatePageCount()
      requires pageSize > 0
      modifies this
      ensures pageSize == old(pageSize) && pageNumber == old(pageNumber) && dataRowCount == old(dataRowCount)
      ensures pageCount == PageCountOf(dataRowCount, pageSize)
      ensures Counted()
    {
      var numerator := dataRowCount;
      pageCount := (numerator + pageSize - 1) / pageSize;
    }

    /** The `pageSize` setter. */
    method SetPageSize(value: int)
      requires value > 0
      modifies this
      ensures pageSize == value && pageCount == PageCountOf(dataRowCount, value)
      ensures pageNumber == old(pageNumber) && dataRowCount == old(dataRowCount)
      ensures Counted()
    {
      pageSize := value;
      UpdatePageCount();
    }

    /** The `pageNumber` setter. */
    method SetPageNumber(value: int)
      modifies this
      ensures pageNumber == ClampPage(value, pageCount)
      ensures pageCount == old(pageCount) && pageSize == old(pageSize) && dataRowCount == old(dataRowCount)
    {
      pageNumber := if pageCount == 0 then 0 else if value < 1 then 1 else if value > pageCount then pageCount else value;
    }

    /** The `dataRowCount` setter: negative counts are stored as 0. */
    method SetDataRowCount(value: int)
      requires pageSize > 0
      modifies this
      ensures pageSize == old(pageSize) && pageNumber == old(pageNumber)
      ensures dataRowCount == (if value < 0 then 0 else value)
      ensures pageCount == PageCountOf(dataRowCount, pageSize)
      ensures Counted()
    {
      dataRowCount := if value < 0 then 0 else value;
      UpdatePageCount();
    }

    /** `pageRowCount`, which is also `getRowCount`. */
    function PageRowCount(): (n: int)
      reads this
      ensures Counted() && 1 <= pageNumber < pageCount ==> n == pageSize
      ensures Counted() && 1 <= pageNumber == pageCount ==> 1 <= n <= pageSize
    {
      var n := PageRows(dataRowCount, pageSize, pageCount, pageNumber);
      if Counted() && 1 <= pageNumber == pageCount then LastPageRows(dataRowCount, pageSize); n else n
    }

    /** `dataRowIndex`: within the data whenever the page number and the page row are valid. */
    function DataRowIndex(pageRow: int): (d: int)
      reads this
      ensures Counted() && 1 <= pageNumber <= pageCount && 0 <= pageRow < PageRowCount() ==>
        0 <= d < dataRowCount
    {
      var d := DataRow(pageNumber, pageSize, pageRow);
      if Counted() && 1 <= pageNumber <= pageCount && 0 <= pageRow < PageRowCount() then
        DataRowInRange(dataRowCount, pageSize, pageNumber, pageRow); d
      else d
    }
  }

  /**
   * Shrinking the data does not re-clamp the page number: a model showing the
   * last of 10 pages still shows page 10 after its row count drops to 5 rows.
   */
  method StalePageNumber() returns (m: PageableTableModel)
    ensures m.Counted() && m.pageCount == 1 && m.pageNumber == 10
  {
    m := new PageableTableModel();
    m.SetPageSize(10);
    m.SetDataRowCount(100);
    assert m.pageCount == 10;
    m.SetPageNumber(10);
    m.SetDataRowCount(5);
    assert m.pageCount == 1;
  }
}
