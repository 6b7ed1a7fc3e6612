/**
 * The paged list queries of the read repositories (teams, players, referees,
 * matches). Each one normalises the request into the pieces of one SQL
 * statement: an ORDER BY column interpolated into the text, a direction, an
 * OFFSET and a FETCH size, and the WHERE filters with their bound parameters.
 * The SQL engine itself is represented by the row predicates each WHERE clause
 * stands for and by `FetchPage`, the OFFSET/FETCH cut of the ordered rows.
 */
module ReadRepositories {
  import opened Wrappers
  import opened Text
  import opened Entities
  import opened Paging

  datatype TeamsQuery = TeamsQuery(list: ListQuery, name: Option<string>)
  datatype PlayersQuery = PlayersQuery(list: ListQuery, teamId: Option<Guid>, name: Option<string>)
  datatype RefereesQuery = RefereesQuery(list: ListQuery, name: Option<string>)
  datatype MatchesQuery = MatchesQuery(list: ListQuery, teamId: Option<Guid>, dateFrom: Option<DateTime>,
                                       dateTo: Option<DateTime>, status: Option<int>)

  /** The statement a list query runs, and the paging it reports back. */
  datatype QueryPlan = QueryPlan(sortColumn: string, sortDirection: string, offset: int, fetch: int,
                                 nameFilter: Option<string>, reportedPageNumber: int, reportedPageSize: int)

  const TeamColumns: seq<string> := ["Name", "CreatedAtUtc", "Id"]
  const PlayerColumns: seq<string> := ["FirstName", "LastName", "JerseyNumber", "TeamName", "CreatedAtUtc", "Id"]
  const RefereeColumns: seq<string> := ["FirstName", "LastName", "CreatedAtUtc", "Id"]
  const MatchColumns: seq<string> := ["ScheduledAtUtc", "HomeTeamName", "AwayTeamName", "Status", "HomeScore", "AwayScore", "Id"]

  /** `allowed` holds a column equal to `s` ignoring case. */
  predicate Whitelisted(s: string, allowed: seq<string>) {
    exists w :: w in allowed && Lower(s) == Lower(w)
  }

  /**
   * The sort column of the team, player and match repositories: the fallback when
   * no column is given, the requested column (as spelled) when a
   * case-insensitive whitelist holds it, and the fallback otherwise.
   */
  function SortColumn(sortBy: Option<string>, fallback: string, allowed: seq<string>): (r: string)
    requires fallback in allowed
    ensures Whitelisted(r, allowed)
    ensures !IsNullOrWhiteSpace(sortBy) && Whitelisted(sortBy.value, allowed) ==> r == sortBy.value
    ensures IsNullOrWhiteSpace(sortBy) || !Whitelisted(sortBy.value, allowed) ==> r == fallback
  {
    if IsNullOrWhiteSpace(sortBy) then fallback
    else if exists w :: w in allowed && Lower(sortBy.value) == Lower(w) then sortBy.value
    else fallback
  }

  /**
   * The column interpolated into `ORDER BY [..]` is made of letters only, whatever
   * the request said: no bracket, quote or blank can reach the SQL text.
   */
  lemma SortColumnIsSafe(sortBy: Option<string>, fallback: string, allowed: seq<string>)
    requires fallback in allowed && forall w :: w in allowed ==> AllAsciiLetters(w)
    ensures AllAsciiLetters(SortColumn(sortBy, fallback, allowed))
  {
    var r := SortColumn(sortBy, fallback, allowed);
    var w :| w in allowed && Lower(r) == Lower(w);
    CaseVariantOfLetters(r, w);
  }

  /** `"DESC"` exactly when the direction is "desc" ignoring case, `"ASC"` otherwise (including null). */
  function SqlDirection(sortDirection: Option<string>): (r: string)
    ensures r == "DESC" || r == "ASC"
    ensures r == "DESC" <==> EqualsIgnoreCase(sortDirection, "desc")
  {
    if EqualsIgnoreCase(sortDirection, "desc") then "DESC" else "ASC"
  }

  /** The LIKE parameter `%term%` for a trimmed, non-empty term; no filter otherwise. */
  function LikeFilter(term: Option<string>): (r: Option<string>)
    ensures r.None? <==> IsNullOrEmpty(term)
    ensures r.Some? ==> |r.value| == |term.value| + 2 && r.value[1..|r.value| - 1] == term.value
  {
    if IsNullOrEmpty(term) then None else Some("%" + term.value + "%")
  }

  /** `value LIKE pattern` for a `%term%` pattern, read as ordinal containment of the term. */
  predicate Like(value: string, pattern: string) {
    |pattern| >= 2 && Contains(value, pattern[1..|pattern| - 1])
  }

  /** The paging part shared by all four repositories: OFFSET from the raw values, FETCH clamped. */
  function PlanOf(list: ListQuery, sortColumn: string, nameFilter: Option<string>): (r: QueryPlan)
    ensures r.offset == (list.pageNumber - 1) * list.pageSize
    ensures 1 <= r.fetch <= MaxPageSize && r.reportedPageSize == r.fetch
    ensures MaxPageSize < list.pageSize ==> r.fetch < list.pageSize
    ensures r.reportedPageNumber == list.pageNumber
  {
    QueryPlan(sortColumn, SqlDirection(list.sortDirection), OffsetAsWritten(list.pageNumber, list.pageSize),
              FetchSize(list.pageSize), nameFilter, list.pageNumber, FetchSize(list.pageSize))
  }

  /** `TeamReadRepository.GetPagedAsync`: sort by Name unless another whitelisted column is asked for. */
  function TeamsPlan(q: TeamsQuery): (r: QueryPlan)
    ensures Whitelisted(r.sortColumn, TeamColumns) && AllAsciiLetters(r.sortColumn)
    ensures r.sortDirection == "DESC" <==> EqualsIgnoreCase(q.list.sortDirection, "desc")
    ensures r.nameFilter.None? <==> IsNullOrEmpty(TrimOpt(q.name))
  {
    SortColumnIsSafe(q.list.sortBy, "Name", TeamColumns);
    PlanOf(q.list, SortColumn(q.list.sortBy, "Name", TeamColumns), LikeFilter(TrimOpt(q.name)))
  }

  /** The WHERE clause of the team list: `Name LIKE @NameFilter` when a filter is bound. */
  predicate TeamSelected(plan: QueryPlan, team: Team) {
    plan.nameFilter.None? || Like(team.name, plan.nameFilter.value)
  }

  /** A blank name filter keeps every team; otherwise exactly the teams whose name contains the trimmed term. */
  lemma TeamFilterMeaning(q: TeamsQuery, team: Team)
    ensures TeamSelected(TeamsPlan(q), team) <==> IsNullOrWhiteSpace(q.name) || Contains(team.name, Trim(q.name.value))
  {
    if q.name.Some? && !IsNullOrWhiteSpace(q.name) {
      var f := TeamsPlan(q).nameFilter.value;
      assert f[1..|f| - 1] == Trim(q.name.value);
    }
  }

  /** `PlayerReadRepository.GetPagedAsync`: sort by LastName unless another whitelisted column is asked for. */
  function PlayersPlan(q: PlayersQuery): (r: QueryPlan)
    ensures Whitelisted(r.sortColumn, PlayerColumns) && AllAsciiLetters(r.sortColumn)
    ensures r.sortDirection == "DESC" <==> EqualsIgnoreCase(q.list.sortDirection, "desc")
    ensures r.nameFilter.None? <==> IsNullOrEmpty(TrimOpt(q.name))
  {
    SortColumnIsSafe(q.list.sortBy, "LastName", PlayerColumns);
    PlanOf(q.list, SortColumn(q.list.sortBy, "LastName", PlayerColumns), LikeFilter(TrimOpt(q.name)))
  }

  /**
   * The WHERE clause of the player list: the player's team exists (inner join), the
   * team filter when given, and the name filter against "First Last" or "Last, First".
   */
  predicate PlayerSelected(q: PlayersQuery, plan: QueryPlan, teams: map<Guid, Team>, p: Player) {
    && p.teamId in teams
    && (q.teamId.Some? ==> p.teamId == q.teamId.value)
    && (plan.nameFilter.Some? ==>
          Like(p.firstName + " " + p.lastName, plan.nameFilter.value) || Like(p.lastName + ", " + p.firstName, plan.nameFilter.value))
  }

  /**
   * A player is listed exactly when its team exists, the team filter (if any) is its
   * team, and a non-blank name filter occurs in either spelling of its name.
   */
  lemma PlayerFilterMeaning(q: PlayersQuery, teams: map<Guid, Team>, p: Player)
    ensures PlayerSelected(q, PlayersPlan(q), teams, p) <==>
              && p.teamId in teams
              && (q.teamId.Some? ==> p.teamId == q.teamId.value)
              && (IsNullOrWhiteSpace(q.name)
                  || Contains(p.firstName + " " + p.lastName, Trim(q.name.value))
                  || Contains(p.lastName + ", " + p.firstName, Trim(q.name.value)))
  {
    if !IsNullOrWhiteSpace(q.name) {
      var f := PlayersPlan(q).nameFilter.value;
      assert f[1..|f| - 1] == Trim(q.name.value);
    }
  }

  /**
   * `RefereeReadRepository.GetPagedAsync`'s sort mapping: the trimmed, lowercased
   * key picks LastName, CreatedAtUtc or Id, and anything else (or nothing) FirstName.
   */
  function RefereeSortColumn(sortBy: Option<string>): (r: string)
    ensures r in RefereeColumns
    ensures r == "LastName" <==> sortBy.Some? && Lower(Trim(sortBy.value)) == "lastname"
    ensures r == "CreatedAtUtc" <==> sortBy.Some? && Lower(Trim(sortBy.value)) == "createdatutc"
    ensures r == "Id" <==> sortBy.Some? && Lower(Trim(sortBy.value)) == "id"
  {
    if sortBy.None? then "FirstName"
    else
      var key := Lower(Trim(sortBy.value));
      if key == "lastname" then "LastName"
      else if key == "createdatutc" then "CreatedAtUtc"
      else if key == "id" then "Id"
      else "FirstName"
  }

  /** `RefereeReadRepository.GetPagedAsync`: the name filter is trimmed and lowercased. */
  function RefereesPlan(q: RefereesQuery): (r: QueryPlan)
    ensures r.sortColumn in RefereeColumns && AllAsciiLetters(r.sortColumn)
    ensures r.sortDirection == "DESC" <==> EqualsIgnoreCase(q.list.sortDirection, "desc")
    ensures r.nameFilter.None? <==> IsNullOrEmpty(TrimOpt(q.name))
  {
    var name := TrimOpt(q.name);
    PlanOf(q.list, RefereeSortColumn(q.list.sortBy), LikeFilter(if name.Some? then Some(Lower(name.value)) else None))
  }

  /** The WHERE clause of the referee list: the lowercased name in either order contains the term. */
  predicate RefereeSelected(plan: QueryPlan, r: Referee) {
    plan.nameFilter.None?
    || Like(Lower(r.firstName + " " + r.lastName), plan.nameFilter.value)
    || Like(Lower(r.lastName + " " + r.firstName), plan.nameFilter.value)
  }

  /** Matching ignores the case of the term: two terms equal up to case select the same referees. */
  lemma RefereeFilterIgnoresCase(q1: RefereesQuery, q2: RefereesQuery, r: Referee)
    requires q1.name.Some? && q2.name.Some? && Lower(q1.name.value) == Lower(q2.name.value)
    ensures RefereeSelected(RefereesPlan(q1), r) <==> RefereeSelected(RefereesPlan(q2), r)
  {
    LowerTrimCommute(q1.name.value);
    LowerTrimCommute(q2.name.value);
  }

  /** Lowercasing keeps white space where it is, so it commutes with trimming. */
  lemma {:induction false} LowerTrimCommute(s: string)
    ensures Lower(Trim(s)) == Trim(Lower(s))
  {
    LowerTrimStart(s);
    LowerTrimEnd(TrimStart(s));
    LowerTrimEnd(s);
    TrimEndOfTrimStart(s);
    TrimEndOfTrimStart(Lower(s));
  }

  lemma {:induction false} LowerTrimStart(s: string)
    ensures Lower(TrimStart(s)) == TrimStart(Lower(s))
  {
    if s != [] {
      LowerTrimStart(s[1..]);
      assert Lower(s)[1..] == Lower(s[1..]);
    }
  }

  lemma {:induction false} LowerTrimEnd(s: string)
    ensures Lower(TrimEnd(s)) == TrimEnd(Lower(s))
  {
    if s != [] {
      LowerTrimEnd(s[..|s| - 1]);
      assert Lower(s)[..|s| - 1] == Lower(s[..|s| - 1]);
    }
  }

  /** `MatchReadRepository.GetPagedAsync`: sort by ScheduledAtUtc unless another whitelisted column is asked for. */
  function MatchesPlan(q: MatchesQuery): (r: QueryPlan)
    ensures Whitelisted(r.sortColumn, MatchColumns) && AllAsciiLetters(r.sortColumn)
    ensures r.sortDirection == "DESC" <==> EqualsIgnoreCase(q.list.sortDirection, "desc")
    ensures r.nameFilter.None?
  {
    SortColumnIsSafe(q.list.sortBy, "ScheduledAtUtc", MatchColumns);
    PlanOf(q.list, SortColumn(q.list.sortBy, "ScheduledAtUtc", MatchColumns), None)
  }

  /**
   * The WHERE clause of the match list: both teams exist (inner joins), the team
   * filter matches either side, the date bounds are inclusive, the status is exact.
   */
  predicate MatchSelected(q: MatchesQuery, teams: map<Guid, Team>, m: Match) {
    && m.homeTeamId in teams && m.awayTeamId in teams
    && (q.teamId.Some? ==> m.homeTeamId == q.teamId.value || m.awayTeamId == q.teamId.value)
    && (q.dateFrom.Some? ==> q.dateFrom.value <= m.scheduledAtUtc)
    && (q.dateTo.Some? ==> m.scheduledAtUtc <= q.dateTo.value)
    && (q.status.Some? ==> m.status == q.status.value)
  }

  /**
   * `OFFSET @Offset ROWS FETCH NEXT @PageSize ROWS ONLY` over the ordered rows:
   * an error (`None`) for a negative offset or a non-positive size, otherwise the
   * rows from the offset on, `fetch` of them or all that remain when fewer do.
   */
  function FetchPage<T>(rows: seq<T>, offset: int, fetch: int): (r: Option<seq<T>>)
    ensures r.None? <==> offset < 0 || fetch < 1
    ensures r.Some? ==> |r.value| <= fetch
    ensures r.Some? ==> forall i :: 0 <= i < |r.value| ==> offset + i < |rows| && r.value[i] == rows[offset + i]
    ensures r.Some? ==> |r.value| == fetch || offset + |r.value| >= |rows|
  {
    if offset < 0 || fetch < 1 then None
    else if offset >= |rows| then Some([])
    else if offset + fetch <= |rows| then Some(rows[offset..offset + fetch])
    else Some(rows[offset..])
  }

  /**
   * The page a list query returns: the reported paging, the filtered count, and
   * the ordered rows from the offset on, a full page of them unless fewer remain.
   */
  function RunPlan<T>(plan: QueryPlan, ordered: seq<T>): (r: Option<PagedResult<T>>)
    ensures r.None? <==> plan.offset < 0 || plan.fetch < 1
    ensures r.Some? ==> r.value.totalRecords == |ordered| && r.value.pageNumber == plan.reportedPageNumber
                        && r.value.pageSize == plan.reportedPageSize && |r.value.data| <= plan.fetch
    ensures r.Some? ==> forall i :: 0 <= i < |r.value.data| ==>
                          plan.offset + i < |ordered| && r.value.data[i] == ordered[plan.offset + i]
    ensures r.Some? ==> |r.value.data| == plan.fetch || plan.offset + |r.value.data| >= |ordered|
  {
    var page := FetchPage(ordered, plan.offset, plan.fetch);
    if page.None? then None
    else Some(PagedResult(page.value, plan.reportedPageNumber, plan.reportedPageSize, |ordered|))
  }

  /**
   * A request within the documented bounds (page at least 1, size 1..100) gets the
   * page a client expects: the rows from (page - 1) * size on, as the normalised
   * paging would cut them.
   */
  lemma InBoundsRequestsPageNormally<T>(q: TeamsQuery, ordered: seq<T>)
    requires q.list.pageNumber >= 1 && 1 <= q.list.pageSize <= MaxPageSize
    ensures TeamsPlan(q).offset == PageOffset(q.list.pageNumber, q.list.pageSize)
    ensures RunPlan(TeamsPlan(q), ordered).Some?
  {
  }
}
