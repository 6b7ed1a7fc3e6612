/**
 * `GetRefereesQueryHandler`: the referee list as an EF Core LINQ query over the
 * `Referees` rows (filter, count, sort, page), which the provider runs as SQL;
 * the paging is normalised before use.
 */
module RefereeQuery {
  import opened Wrappers
  import opened Text
  import opened Results
  import opened Entities
  import opened Sorting
  import opened Paging
  import opened ReadRepositories

  datatype RefereeListItemDto = RefereeListItemDto(id: Guid, firstName: string, lastName: string,
                                                   licenseNumber: Option<string>, createdAtUtc: DateTime)

  function ToItem(r: Referee): RefereeListItemDto {
    RefereeListItemDto(r.id, r.firstName, r.lastName, r.licenseNumber, r.createdAtUtc)
  }

  /** `(FirstName + " " + LastName).ToLower().Contains(term)`. */
  predicate NameMatches(term: string, r: Referee) {
    Contains(Lower(FullName(r.firstName, r.lastName)), term)
  }

  /** The `Where` step: the referees whose name matches, in table order. */
  function Matching(rows: seq<Referee>, term: string): (r: seq<Referee>)
    ensures |r| <= |rows|
    ensures forall x :: x in r <==> x in rows && NameMatches(term, x)
    ensures forall x :: multiset(r)[x] == if NameMatches(term, x) then multiset(rows)[x] else 0
  {
    if rows == [] then []
    else
      var rest := Matching(rows[1..], term);
      assert rows == [rows[0]] + rows[1..];
      assert forall x :: x in rows <==> x == rows[0] || x in rows[1..];
      if NameMatches(term, rows[0]) then [rows[0]] + rest else rest
  }

  /** The rows left after the optional name filter (applied only to a non-blank name). */
  function Filtered(rows: seq<Referee>, name: Option<string>): (r: seq<Referee>)
    ensures IsNullOrWhiteSpace(name) ==> r == rows
    ensures !IsNullOrWhiteSpace(name) ==> forall x :: x in r <==> x in rows && NameMatches(Lower(Trim(name.value)), x)
    ensures !IsNullOrWhiteSpace(name) ==>
              forall x :: multiset(r)[x] == if NameMatches(Lower(Trim(name.value)), x) then multiset(rows)[x] else 0
  {
    if IsNullOrWhiteSpace(name) then rows else Matching(rows, Lower(Trim(name.value)))
  }

  /** The sort key: `lastname` or `createdatutc` (compared after lowercasing), else first name. */
  datatype SortKey = ByFirstName | ByLastName | ByCreatedAt

  function KeyOf(sortBy: Option<string>): (k: SortKey)
    ensures k == ByLastName <==> sortBy.Some? && Lower(sortBy.value) == "lastname"
    ensures k == ByCreatedAt <==> sortBy.Some? && Lower(sortBy.value) == "createdatutc"
  {
    if sortBy.Some? && Lower(sortBy.value) == "lastname" then ByLastName
    else if sortBy.Some? && Lower(sortBy.value) == "createdatutc" then ByCreatedAt
    else ByFirstName
  }

  /** Ascending order on the chosen key. */
  predicate KeyLe(k: SortKey, a: Referee, b: Referee) {
    match k
    case ByFirstName => LexLe(a.firstName, b.firstName)
    case ByLastName => LexLe(a.lastName, b.lastName)
    case ByCreatedAt => a.createdAtUtc <= b.createdAtUtc
  }

  /** `OrderBy` or `OrderByDescending` on the chosen key. */
  function Order(k: SortKey, descending: bool): (Referee, Referee) -> bool {
    (a: Referee, b: Referee) => if descending then KeyLe(k, b, a) else KeyLe(k, a, b)
  }

  lemma OrderTotal(k: SortKey, descending: bool)
    ensures Total(Order(k, descending))
  {
    forall a: Referee, b: Referee ensures Order(k, descending)(a, b) || Order(k, descending)(b, a) {
      match k
      case ByFirstName => LexLeTotal(a.firstName, b.firstName);
      case ByLastName => LexLeTotal(a.lastName, b.lastName);
      case ByCreatedAt =>
    }
  }

  /** The filtered rows in the requested order. */
  function Sorted(rows: seq<Referee>, q: RefereesQuery): seq<Referee> {
    SortBy(Filtered(rows, q.name), Order(KeyOf(q.list.sortBy), EqualsIgnoreCase(q.list.sortDirection, "desc")))
  }

  function Items(rows: seq<Referee>): (r: seq<RefereeListItemDto>)
    ensures |r| == |rows|
    ensures forall i :: 0 <= i < |rows| ==> r[i] == ToItem(rows[i])
  {
    if rows == [] then [] else [ToItem(rows[0])] + Items(rows[1..])
  }

  /**
   * The `Skip`/`Take` step: the sorted rows from the normalised offset on, a full
   * page of them unless fewer remain.
   */
  function PageRows(rows: seq<Referee>, q: RefereesQuery): (r: seq<Referee>)
    ensures |r| <= FetchSize(q.list.pageSize)
    ensures forall i :: 0 <= i < |r| ==>
              PageOffset(q.list.pageNumber, q.list.pageSize) + i < |Sorted(rows, q)|
              && r[i] == Sorted(rows, q)[PageOffset(q.list.pageNumber, q.list.pageSize) + i]
    ensures |r| == FetchSize(q.list.pageSize) || PageOffset(q.list.pageNumber, q.list.pageSize) + |r| >= |Sorted(rows, q)|
  {
    FetchPage(Sorted(rows, q), PageOffset(q.list.pageNumber, q.list.pageSize), FetchSize(q.list.pageSize)).value
  }

  /**
   * `GetRefereesQueryHandler.Handle`: a success holding the count of the filtered
   * rows and the page at the normalised offset of the sorted rows, reporting the
   * normalised paging.
   */
  function GetReferees(rows: seq<Referee>, q: RefereesQuery): (r: Result<PagedResult<RefereeListItemDto>>)
    ensures r.isSuccess && r.data.Some?
    ensures r.data.value.totalRecords == |Filtered(rows, q.name)|
    ensures r.data.value.pageNumber == NormalPageNumber(q.list.pageNumber) && r.data.value.pageNumber >= 1
    ensures r.data.value.pageSize == FetchSize(q.list.pageSize) && 1 <= r.data.value.pageSize <= MaxPageSize
    ensures |r.data.value.data| == |PageRows(rows, q)| <= r.data.value.pageSize
    ensures forall i :: 0 <= i < |r.data.value.data| ==> r.data.value.data[i] == ToItem(PageRows(rows, q)[i])
    ensures |r.data.value.data| == r.data.value.pageSize
            || PageOffset(q.list.pageNumber, q.list.pageSize) + |r.data.value.data| >= r.data.value.totalRecords
  {
    Success(PagedResult(Items(PageRows(rows, q)), NormalPageNumber(q.list.pageNumber), FetchSize(q.list.pageSize),
                        |Filtered(rows, q.name)|))
  }

  /** Every listed referee passes the name filter. */
  lemma PageRowsFiltered(rows: seq<Referee>, q: RefereesQuery)
    ensures forall x :: x in PageRows(rows, q) ==> x in Filtered(rows, q.name)
  {
    var sorted := Sorted(rows, q);
    var page := PageRows(rows, q);
    var off := PageOffset(q.list.pageNumber, q.list.pageSize);
    assert forall i :: 0 <= i < |page| ==> off + i < |sorted| && page[i] == sorted[off + i];
    RunOfMembers(sorted, page, off);
    assert multiset(sorted) == multiset(Filtered(rows, q.name));
    forall x | x in page ensures x in Filtered(rows, q.name) {
      assert x in multiset(sorted);
    }
  }

  /** Rows taken from a sequence belong to it. */
  lemma RunOfMembers<T>(sorted: seq<T>, page: seq<T>, off: nat)
    requires forall i :: 0 <= i < |page| ==> off + i < |sorted| && page[i] == sorted[off + i]
    ensures forall x :: x in page ==> x in sorted
  {
    forall x | x in page ensures x in sorted {
      var i :| 0 <= i < |page| && page[i] == x;
      assert off + i < |sorted| && page[i] == sorted[off + i];
    }
  }

  /** Rows that sit consecutively in an ordered sequence are themselves ordered. */
  lemma RunOfSorted<T>(sorted: seq<T>, page: seq<T>, off: nat, le: (T, T) -> bool)
    requires SortedBy(sorted, le)
    requires forall i :: 0 <= i < |page| ==> off + i < |sorted| && page[i] == sorted[off + i]
    ensures SortedBy(page, le)
  {
    forall i | 0 < i < |page| ensures le(page[i - 1], page[i]) {
      var j := i - 1;
      assert 0 <= j < |page| && 0 <= i < |page|;
      assert off + j < |sorted| && page[j] == sorted[off + j];
      assert off + i < |sorted| && page[i] == sorted[off + i];
      var k := off + i;
      assert 0 < k < |sorted| && k - 1 == off + j;
      assert le(sorted[k - 1], sorted[k]);
    }
  }

  /** The sorted rows are in the requested order. */
  lemma SortedOrdered(rows: seq<Referee>, q: RefereesQuery)
    ensures SortedBy(Sorted(rows, q), Order(KeyOf(q.list.sortBy), EqualsIgnoreCase(q.list.sortDirection, "desc")))
  {
    var le := Order(KeyOf(q.list.sortBy), EqualsIgnoreCase(q.list.sortDirection, "desc"));
    OrderTotal(KeyOf(q.list.sortBy), EqualsIgnoreCase(q.list.sortDirection, "desc"));
    SortBySorted(Filtered(rows, q.name), le);
  }

  /** The page is in the requested order: consecutive rows never go against the sort key. */
  lemma PageRowsOrdered(rows: seq<Referee>, q: RefereesQuery)
    ensures SortedBy(PageRows(rows, q), Order(KeyOf(q.list.sortBy), EqualsIgnoreCase(q.list.sortDirection, "desc")))
  {
    var le := Order(KeyOf(q.list.sortBy), EqualsIgnoreCase(q.list.sortDirection, "desc"));
    var sorted := Sorted(rows, q);
    var page := PageRows(rows, q);
    var off := PageOffset(q.list.pageNumber, q.list.pageSize);
    SortedOrdered(rows, q);
    assert forall i :: 0 <= i < |page| ==> off + i < |sorted| && page[i] == sorted[off + i];
    RunOfSorted(sorted, page, off, le);
  }

  /**
   * Consecutive pages of the same request list consecutive runs of the sorted rows, with
   * no gap: a corollary of `Paging.PagesTile`, stated in terms of the page size that
   * `GetReferees` reports.
   */
  lemma NextPageContinues(rows: seq<Referee>, q: RefereesQuery)
    requires q.list.pageNumber >= 1
    ensures var next := q.(list := q.list.(pageNumber := q.list.pageNumber + 1));
            PageOffset(next.list.pageNumber, next.list.pageSize)
              == PageOffset(q.list.pageNumber, q.list.pageSize) + GetReferees(rows, q).data.value.pageSize
  {
    PagesTile(0, q.list.pageSize);
  }
}
