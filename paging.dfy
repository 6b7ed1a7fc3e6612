/**
 * Paging: the `PagedResult<T>` envelope, its page count, and the offset/size
 * arithmetic the list queries use to cut one page out of an ordered result.
 */
module Paging {
  import opened Wrappers

  /** `PagedResult<T>` */
  datatype PagedResult<T> = PagedResult(data: seq<T>, pageNumber: int, pageSize: int, totalRecords: int)

  /**
   * `ListQueryBase`, the parameters every list query inherits (defaults: page 1,
   * size 10, no sort column, direction "asc"); a missing value is `None`.
   */
  datatype ListQuery = ListQuery(pageNumber: int, pageSize: int, sortBy: Option<string>, sortDirection: Option<string>)

  const DefaultPageNumber: int := 1
  const DefaultPageSize: int := 10
  const MaxPageSize: int := 100

  /** The parameters of a list request that sets none of them. */
  const DefaultListQuery: ListQuery := ListQuery(DefaultPageNumber, DefaultPageSize, None, Some("asc"))

  /**
   * `TotalPages`: the ceiling of `totalRecords / pageSize`, or 0 when the page size
   * is not positive.
   */
  function TotalPages(totalRecords: int, pageSize: int): (n: int)
    ensures pageSize <= 0 ==> n == 0
    ensures pageSize > 0 ==> (n - 1) * pageSize < totalRecords <= n * pageSize
  {
    if pageSize > 0 then
      var n := (totalRecords + pageSize - 1) / pageSize;
      assert n * pageSize + (totalRecords + pageSize - 1) % pageSize == totalRecords + pageSize - 1;
      assert (n - 1) * pageSize == n * pageSize - pageSize;
      n
    else 0
  }

  lemma MulMonotone(a: int, b: int, k: int)
    requires a <= b && k > 0
    ensures a * k <= b * k
  {
  }

  /** For a fixed page size, more records never mean fewer pages; no records means no pages. */
  lemma {:induction false} TotalPagesMonotone(r1: int, r2: int, pageSize: int)
    requires r1 <= r2
    ensures TotalPages(r1, pageSize) <= TotalPages(r2, pageSize)
    ensures pageSize > 0 ==> TotalPages(0, pageSize) == 0
  {
    if pageSize > 0 {
      var n1, n2 := TotalPages(r1, pageSize), TotalPages(r2, pageSize);
      if n1 > n2 {
        MulMonotone(n2, n1 - 1, pageSize);
        assert false;
      }
    }
  }

  /** `Math.Clamp(value, min, max)` (which throws when `min > max`). */
  function Clamp(value: int, min: int, max: int): (r: int)
    requires min <= max
    ensures min <= r <= max
    ensures min <= value <= max ==> r == value
    ensures value < min ==> r == min
    ensures value > max ==> r == max
  {
    if value < min then min else if value > max then max else value
  }

  /** The number of rows a list query fetches: the requested size clamped to [1, 100]. */
  function FetchSize(pageSize: int): (r: int)
    ensures 1 <= r <= MaxPageSize
  {
    Clamp(pageSize, 1, MaxPageSize)
  }

  /** The OFFSET of the read repositories: computed from the raw, unclamped page number and size. */
  function OffsetAsWritten(pageNumber: int, pageSize: int): (r: int)
    ensures pageNumber >= 1 && pageSize >= 0 ==> r >= 0
    ensures pageNumber == 1 ==> r == 0
  {
    (pageNumber - 1) * pageSize
  }

  /** Row `row` of the ordered result is among the rows fetched for the given page. */
  predicate OnPageAsWritten(row: int, pageNumber: int, pageSize: int) {
    OffsetAsWritten(pageNumber, pageSize) <= row < OffsetAsWritten(pageNumber, pageSize) + FetchSize(pageSize)
  }

  /**
   * With a page size above the cap, the repositories skip rows: for PageSize 200 each
   * page fetches 100 rows but pages start 200 rows apart, so row 150 is on no page.
   * PageNumber 0 gives a negative OFFSET, which SQL Server rejects.
   */
  lemma OffsetAsWrittenSkipsRows()
    ensures forall pageNumber :: !OnPageAsWritten(150, pageNumber, 200)
    ensures OffsetAsWritten(0, 10) < 0
  {
    forall pageNumber ensures !OnPageAsWritten(150, pageNumber, 200) {
      if pageNumber <= 1 {
        assert OffsetAsWritten(pageNumber, 200) + 100 <= 100;
      } else {
        assert OffsetAsWritten(pageNumber, 200) >= 200;
      }
    }
  }

  /** Page number normalised to at least 1. */
  function NormalPageNumber(pageNumber: int): (r: int)
    ensures r >= 1
    ensures pageNumber >= 1 ==> r == pageNumber
  {
    if pageNumber < 1 then 1 else pageNumber
  }

  /** The offset computed from the normalised page number and the clamped page size. */
  function PageOffset(pageNumber: int, pageSize: int): (r: int)
    ensures r >= 0
    ensures r == (NormalPageNumber(pageNumber) - 1) * FetchSize(pageSize)
  {
    var n := NormalPageNumber(pageNumber);
    var s := FetchSize(pageSize);
    MulMonotone(0, n - 1, s);
    (n - 1) * s
  }

  predicate OnPage(row: int, pageNumber: int, pageSize: int) {
    PageOffset(pageNumber, pageSize) <= row < PageOffset(pageNumber, pageSize) + FetchSize(pageSize)
  }

  /**
   * With the normalised offset, consecutive pages abut and every row of the
   * result lies on exactly one page whose number is at least 1.
   */
  lemma PagesTile(row: nat, pageSize: int)
    ensures forall p :: p >= 1 ==> PageOffset(p + 1, pageSize) == PageOffset(p, pageSize) + FetchSize(pageSize)
    ensures OnPage(row, row / FetchSize(pageSize) + 1, pageSize)
    ensures forall p, q :: p >= 1 && q >= 1 && OnPage(row, p, pageSize) && OnPage(row, q, pageSize) ==> p == q
  {
    var s := FetchSize(pageSize);
    forall p | p >= 1 ensures PageOffset(p + 1, pageSize) == PageOffset(p, pageSize) + s {
      assert p * s == (p - 1) * s + s;
    }
    var p0 := row / s + 1;
    assert (p0 - 1) * s + row % s == row;
    forall p, q | p >= 1 && q >= 1 && OnPage(row, p, pageSize) && OnPage(row, q, pageSize) ensures p == q {
      if p < q {
        MulMonotone(p, q - 1, s);
      } else if q < p {
        MulMonotone(q, p - 1, s);
      }
    }
  }
}
