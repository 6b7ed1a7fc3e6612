# Mundialito Corporativo — a verified Dafny model of its core

Mundialito Corporativo is a small ASP.NET Core API for running a company football
tournament. It manages teams, players, referees, matches, cards and user accounts, and it
serves a league table and a top-scorer list. This project models the parts of it that decide
behaviour, and proves what they promise:

- **Idempotent POST replay.** `IdempotencyMiddleware` answers a retried POST that carries
  the same `Idempotency-Key` from a table of saved responses. The table is the
  `IdempotencyStore`, keyed by (key, method, path). The handler does not run again. Only 2xx
  responses are saved, bodies are cut to 8000 UTF-16 code units, and a unique index guards the
  triple. Files: `idempotency_store.dfy`, `idempotency_middleware.dfy`.
- **The Result pattern** (`results.dfy`) and its translation into HTTP status codes
  (`result_extensions.dfy`).
- **Paging.** The `PagedResult` page count and the OFFSET/FETCH arithmetic of the list
  queries (`paging.dfy`).
- **The command handlers** for teams, players, referees, matches and accounts. They run over
  an `AppDbContext` class whose tables are maps, plus sequences for cards and goals. Its
  invariant is the schema's primary keys, foreign keys and unique user name (`persistence.dfy`,
  `teams.dfy`, `players.dfy`, `referees.dfy`, `matches.dfy`, `auth.dfy`).
- **The read side:**
  - parameter normalisation of the four paged SQL repositories (`read_repositories.dfy`);
  - the match detail query (`match_read.dfy`);
  - the referee list query of `GetRefereesQueryHandler`, an EF Core LINQ query that runs as SQL (`referee_query.dfy`);
  - the standings and top-scorer SQL, as functions over the table rows (`standings.dfy`).
- **Supporting modules:**
  - `wrappers.dfy`: nullable values;
  - `text.dfy`: `Trim`, white space, ASCII case folding, ordinal containment and order, and
    string lengths in UTF-16 code units as .NET's `string.Length` and SQL `nvarchar` count them;
  - `entities.dfy`: the persisted entities;
  - `sorting.dfy`: a stable sort by a total order, with its permutation and order lemmas.

The model follows the handler and repository code wherever the declared types disagree with it:

- `UpdateMatchCommand` declares no `RefereeId`, but its handler reads one. `Match` declares
  no `RefereeId`, but the schema and the queries use one. The model gives a match an optional
  referee and gives the update an optional referee argument.
- The commands declare `IRequest<Dto>`, while their handlers return `Result<Dto>`. The model
  uses the handlers' `Result`.
- `IdempotencyStore` does not match the `IIdempotencyStore` interface. It builds a two-field
  response and takes no content type. The model stores the content type that the interface
  and the middleware pass, and it also models the store as written, for the finding below.

## Model

| member | source | states |
|---|---|---|
| Wrappers.FirstOrDefault | src/MundialitoCorporativo.Api/Middleware/IdempotencyMiddleware.cs:18 | the header value is absent exactly when the header has no values, and otherwise is the first one |
| Text.Trim | src/MundialitoCorporativo.Api/Middleware/IdempotencyMiddleware.cs:25 | the trimmed key is the key with white space cut off both ends: a slice `s[i..j]` with only white space before `i` and after `j`; it is empty exactly when the key is all white space, and otherwise neither starts nor ends with white space |
| Text.TrimPadded | src/MundialitoCorporativo.Api/Middleware/IdempotencyMiddleware.cs:25 | white space added on either side of a string is removed again by Trim |
| Text.TrimIdempotent | src/MundialitoCorporativo.Api/Middleware/IdempotencyMiddleware.cs:25 | trimming twice is the same as trimming once |
| Text.Utf16Length | src/MundialitoCorporativo.Application/Auth/Commands/RegisterCommandHandler.cs:28-30 | `string.Length`: one unit per character of the Basic Multilingual Plane, two above it, so between the number of characters and twice it; zero exactly for the empty string |
| Text.Utf16Prefix | src/MundialitoCorporativo.Infrastructure/Persistence/IdempotencyStore.cs:30 | `s[..n]` in code units: a prefix of at most n units; the whole string when it fits; otherwise exactly n units, or n - 1 when the next character is a surrogate pair |
| IdempotencyStore.Truncate | src/MundialitoCorporativo.Infrastructure/Persistence/IdempotencyStore.cs:30 | null stays null; a body of at most 8000 UTF-16 code units is kept unchanged; a longer one becomes a shorter prefix of exactly 8000 units (7999 when the cut would split a surrogate pair) |
| IdempotencyStore.TruncateIdempotent | src/MundialitoCorporativo.Infrastructure/Persistence/IdempotencyStore.cs:30 | a stored body is stored unchanged again |
| IdempotencyStore.Find | src/MundialitoCorporativo.Infrastructure/Persistence/IdempotencyStore.cs:15-17 | no row is found exactly when no row has all three of key, method and path equal; a found row has that triple |
| IdempotencyStore.NewRecord | src/MundialitoCorporativo.Infrastructure/Persistence/IdempotencyStore.cs:23-32 | the new row carries the request's triple, and it answers with the given status, the truncated body and the content type the interface passes |
| IdempotencyStore.NewRecordAsWritten | src/MundialitoCorporativo.Infrastructure/Persistence/IdempotencyStore.cs:21-32 | the row built as written carries the triple and no content type |
| IdempotencyStore.SaveOutcomeOf | src/MundialitoCorporativo.Infrastructure/Persistence/IdempotencyStore.cs:33 | the save succeeds exactly when every string fits its `nvarchar` column (widths in UTF-16 code units) and no row has the triple; a duplicate-key failure means the triple is already present |
| IdempotencyStore.FindAppend | src/MundialitoCorporativo.Infrastructure/Persistence/IdempotencyStore.cs:17 | appending a row changes the lookup only for that row's triple, and only when that triple was absent |
| IdempotencyStore.SavePreservesTable | src/MundialitoCorporativo.Infrastructure/Persistence/AppDbContext.cs:76-80 | a successful save keeps the triple unique and every column within its width |
| IdempotencyStore.StoredBodiesBounded | src/MundialitoCorporativo.Infrastructure/Persistence/IdempotencyStore.cs:30 | any body found in a table whose rows fit their columns has at most 8000 UTF-16 code units |
| IdempotencyStore.IdempotencyStore.Get | src/MundialitoCorporativo.Infrastructure/Persistence/IdempotencyStore.cs:13-19 | reads only; answers none exactly when no row has the exact triple, and otherwise the status, body and content type of a row with it |
| IdempotencyStore.IdempotencyStore.Store | src/MundialitoCorporativo.Infrastructure/Persistence/IdempotencyStore.cs:21-34 | a fired cancellation token fails the save (`OperationCanceledException` from `SaveChangesAsync`); otherwise the outcome is `SaveOutcomeOf` the new row; it appends exactly that row when the save succeeds and leaves the table unchanged on every failure (cancelled, column too long, duplicate triple); uniqueness and column widths are kept |
| IdempotencyStore.StoreThenGet | src/MundialitoCorporativo.Infrastructure/Persistence/IdempotencyStore.cs:13-34 | after a successful save, the triple answers the saved status, the truncated body and the content type; every other triple answers as before |
| IdempotencyStore.SecondStoreFails | src/MundialitoCorporativo.Infrastructure/Persistence/IdempotencyStore.cs:33 | a second save of the same triple fails with the unique-index violation instead of overwriting |
| IdempotencyMiddleware.FullPath | src/MundialitoCorporativo.Api/Middleware/IdempotencyMiddleware.cs:26 | the path, or "/" when absent, followed by the query string |
| IdempotencyMiddleware.Replay | src/MundialitoCorporativo.Api/Middleware/IdempotencyMiddleware.cs:34-37 | a replay has the stored status, the stored content type or "application/json", the stored body ("" when null), and no other header |
| IdempotencyMiddleware.IdempotencyMiddleware.CallNext | src/MundialitoCorporativo.Api/Middleware/IdempotencyMiddleware.cs:46 | runs the downstream handler once and counts the run |
| IdempotencyMiddleware.IdempotencyMiddleware.InvokeAsync | src/MundialitoCorporativo.Api/Middleware/IdempotencyMiddleware.cs:16-61 | the outcome, the store's new table and the number of handler runs are those of the reference function `Invoke`, and the store's invariant is kept |
| IdempotencyMiddleware.BypassForwards | src/MundialitoCorporativo.Api/Middleware/IdempotencyMiddleware.cs:18-24 | without a usable key, or for a method other than exactly "POST", the handler runs once, its outcome is passed on, and the table is untouched |
| IdempotencyMiddleware.KeyWhitespaceInsensitive | src/MundialitoCorporativo.Api/Middleware/IdempotencyMiddleware.cs:25-27 | keys that differ only by surrounding white space give the same (key, method, path) triple |
| IdempotencyMiddleware.HitReplays | src/MundialitoCorporativo.Api/Middleware/IdempotencyMiddleware.cs:30-38 | on a hit the handler does not run, the table is unchanged, and the response is the stored status, content type (or JSON) and body, with no other header |
| IdempotencyMiddleware.MissForwards | src/MundialitoCorporativo.Api/Middleware/IdempotencyMiddleware.cs:42-60 | on a miss the handler runs exactly once and the client gets its response verbatim; a row is added exactly when the status is 2xx and the save succeeds, and it is the truncated response under the request's triple; an aborted request (`RequestAborted` passed to the save) adds no row |
| IdempotencyMiddleware.HandlerThrowSavesNothing | src/MundialitoCorporativo.Api/Middleware/IdempotencyMiddleware.cs:46-59 | when the handler throws, nothing is saved |
| IdempotencyMiddleware.AbortedSaveRunsHandlerAgain | src/MundialitoCorporativo.Api/Middleware/IdempotencyMiddleware.cs:30-59 | a 2xx miss whose client has aborted before the save (the token at line 59) ends in a store failure with the table unchanged, and a retry with the same key is a miss again that runs the handler a second time |
| IdempotencyMiddleware.RetryAfterSuccessReplays | src/MundialitoCorporativo.Api/Middleware/IdempotencyMiddleware.cs:30-60 | a retry after a saved 2xx replays the same status, the body cut to 8000 UTF-16 code units and the content type, without a second handler run |
| IdempotencyMiddleware.NoNegativeCaching | src/MundialitoCorporativo.Api/Middleware/IdempotencyMiddleware.cs:55-60 | after a non-2xx answer the table is unchanged, so the same request runs the handler again |
| IdempotencyMiddleware.ActionResultFailuresNotCached | src/MundialitoCorporativo.Api/Middleware/IdempotencyMiddleware.cs:57 | a failure rendered by ToActionResult is never saved |
| IdempotencyMiddleware.InvokePreservesTable | src/MundialitoCorporativo.Api/Middleware/IdempotencyMiddleware.cs:55-60 | every call keeps the triple unique and the columns within width, saves only 2xx responses, and only ever grows the table |
| IdempotencyMiddleware.MissNeverDuplicates | src/MundialitoCorporativo.Api/Middleware/IdempotencyMiddleware.cs:30-59 | in a sequential run, the save after a miss never meets the unique index |
| IdempotencyMiddleware.SavedRowAsWritten | src/MundialitoCorporativo.Infrastructure/Persistence/IdempotencyStore.cs:21-32 | the row the store as written saves after a miss: the request's triple and no content type |
| IdempotencyMiddleware.ReplayLosesContentTypeAsWritten | src/MundialitoCorporativo.Infrastructure/Persistence/IdempotencyStore.cs:18-32 | for every request and handler: when a first POST's 2xx response has a content type other than JSON and the store as written saves it, the retry runs no handler and is replayed with the same status as application/json, not the original content type |
| Results.Success | src/MundialitoCorporativo.Domain/Common/Result.cs:23 | success, carrying the data, an empty message and no error code |
| Results.Failure | src/MundialitoCorporativo.Domain/Common/Result.cs:24 | failure, carrying no data, the message and the code (null when none is given); C#'s `default(T)` data (`false` for `Result<bool>`) is never read from a failure |
| Results.FactoriesCover | src/MundialitoCorporativo.Domain/Common/Result.cs:15-30 | every result the factories can build is exactly one of them; an error code implies failure |
| Results.FactoriesDisjoint | src/MundialitoCorporativo.Domain/Common/Result.cs:23-24 | a success never equals a failure, whatever the payloads |
| ResultExtensions.ToActionResult | src/MundialitoCorporativo.Api/ResultExtensions.cs:18-24 | 404 exactly for NOT_FOUND; 409 exactly for CONFLICT or DUPLICATE; 401 exactly for UNAUTHORIZED; 400 otherwise; the body echoes message and code |
| ResultExtensions.ToActionResultIsClientError | src/MundialitoCorporativo.Api/ResultExtensions.cs:23 | a rendered failure is always 4xx, never 2xx; VALIDATION and a missing code give 400 |
| Paging.TotalPages | src/MundialitoCorporativo.Application/Common/PagedResult.cs:9 | 0 for a non-positive page size; otherwise the least n with n pages holding all records: (n-1)*size < total <= n*size |
| Paging.TotalPagesMonotone | src/MundialitoCorporativo.Application/Common/PagedResult.cs:9 | more records never mean fewer pages; no records means no pages |
| Paging.Clamp | src/MundialitoCorporativo.Infrastructure/Persistence/TeamReadRepository.cs:36 | Math.Clamp: within bounds the value itself, below the lower bound that bound, above the upper bound that bound |
| Paging.FetchSize | src/MundialitoCorporativo.Infrastructure/Persistence/TeamReadRepository.cs:36 | the fetched page size is always within 1..100 |
| Paging.OffsetAsWritten | src/MundialitoCorporativo.Infrastructure/Persistence/TeamReadRepository.cs:35 | the repositories' offset from the raw page number and size: 0 on page 1, non-negative for page >= 1 |
| Paging.OffsetAsWrittenSkipsRows | src/MundialitoCorporativo.Infrastructure/Persistence/TeamReadRepository.cs:35-36 | with PageSize 200 no page number fetches row 150; PageNumber 0 gives a negative offset |
| Paging.NormalPageNumber | src/MundialitoCorporativo.Application/Referees/Queries/GetRefereesQueryHandler.cs:32 | Math.Max(1, n): at least 1, and n itself when n >= 1 |
| Paging.PageOffset | src/MundialitoCorporativo.Application/Referees/Queries/GetRefereesQueryHandler.cs:31-34 | the offset is (Max(1, page) - 1) times the page size clamped to 1..100, and is never negative |
| Paging.PagesTile | src/MundialitoCorporativo.Application/Referees/Queries/GetRefereesQueryHandler.cs:31-35 | with normalised paging, consecutive pages abut, and every row lies on exactly one page |
| Persistence.CardsNotOf | src/MundialitoCorporativo.Infrastructure/Persistence/AppDbContext.cs:48 | the cascade keeps exactly the cards of the other matches |
| Persistence.GoalsNotOf | src/MundialitoCorporativo.Infrastructure/Persistence/AppDbContext.cs:54 | the cascade keeps exactly the goals of the other matches |
| Persistence.ClearReferee | src/MundialitoCorporativo.Infrastructure/Persistence/AppDbContext.cs:43 | SET NULL: the same matches, with the referee cleared exactly where it was the deleted one and nothing else changed |
| Persistence.AddTeamConsistent | src/MundialitoCorporativo.Application/Teams/Commands/CreateTeamCommandHandler.cs:31-40 | inserting a team under a fresh id keeps keys, foreign keys and the unique user name |
| Persistence.AddPlayerConsistent | src/MundialitoCorporativo.Application/Players/Commands/CreatePlayerCommandHandler.cs:23-37 | inserting a player of an existing team keeps every constraint |
| Persistence.ReplacePlayerConsistent | src/MundialitoCorporativo.Application/Players/Commands/UpdatePlayerCommandHandler.cs:20-28 | overwriting a player whose team exists keeps every constraint |
| Persistence.PutMatchConsistent | src/MundialitoCorporativo.Application/Matches/Commands/UpdateMatchCommandHandler.cs:28-41 | inserting or overwriting a match whose teams and referee exist keeps every constraint |
| Persistence.AddCardConsistent | src/MundialitoCorporativo.Application/Matches/Commands/AddMatchCardCommandHandler.cs:18-41 | appending a card of an existing match and player under a fresh id keeps every constraint |
| Persistence.CardsNotOfKeepsDistinctIds | src/MundialitoCorporativo.Infrastructure/Persistence/AppDbContext.cs:47-48 | the cascade keeps card ids distinct |
| Persistence.GoalsNotOfKeepsDistinctIds | src/MundialitoCorporativo.Infrastructure/Persistence/AppDbContext.cs:53-54 | the cascade keeps goal ids distinct |
| Persistence.DeleteMatchConsistent | src/MundialitoCorporativo.Infrastructure/Persistence/AppDbContext.cs:45-55 | removing a match with its cards and goals keeps every constraint |
| Persistence.AddRefereeConsistent | src/MundialitoCorporativo.Application/Referees/Commands/CreateRefereeCommandHandler.cs:23-32 | inserting a referee under a fresh id keeps every constraint |
| Persistence.DeleteRefereeConsistent | src/MundialitoCorporativo.Infrastructure/Persistence/AppDbContext.cs:43 | removing a referee while clearing it from its matches keeps every constraint, and no match still names it |
| Persistence.AddTeamNameDistinct | src/MundialitoCorporativo.Application/Teams/Commands/CreateTeamCommandHandler.cs:26-40 | adding a team whose name no team has keeps team names distinct |
| Persistence.AppDbContext.NewGuid | src/MundialitoCorporativo.Application/Teams/Commands/CreateTeamCommandHandler.cs:33 | hands out an id that no row of any table has, and changes nothing else |
| Teams.CreateTeam | src/MundialitoCorporativo.Application/Teams/Commands/CreateTeamCommandHandler.cs:21-42 | a blank name gives VALIDATION; then a trimmed name already in use gives CONFLICT; both change nothing; otherwise exactly one team is added, with trimmed name and logo, and returned; distinct team names stay distinct |
| Teams.UpdateTeam | src/MundialitoCorporativo.Application/Teams/Commands/UpdateTeamCommandHandler.cs:14-24 | a missing team gives NOT_FOUND and changes nothing; otherwise name and logo are overwritten trimmed (no blank or duplicate check), id and creation time are kept, and the DTO mirrors the row |
| Teams.DeleteTeam | src/MundialitoCorporativo.Application/Teams/Commands/DeleteTeamCommandHandler.cs:14-22 | a missing team gives NOT_FOUND; a team still referenced by a player or a match makes the save fail (Restrict) with nothing changed; otherwise exactly that team is removed |
| Players.CreatePlayer | src/MundialitoCorporativo.Application/Players/Commands/CreatePlayerCommandHandler.cs:16-39 | blank first name, then blank last name, give VALIDATION; then a missing team gives NOT_FOUND; all change nothing; otherwise exactly one player is added with trimmed fields and returned |
| Players.UpdatePlayer | src/MundialitoCorporativo.Application/Players/Commands/UpdatePlayerCommandHandler.cs:15-30 | a missing player, then a missing team, give NOT_FOUND and change nothing; otherwise team, trimmed names, jersey number and position are overwritten (blank names accepted), and id and creation time are kept |
| Players.DeletePlayer | src/MundialitoCorporativo.Application/Players/Commands/DeletePlayerCommandHandler.cs:14-22 | a missing player gives NOT_FOUND; a player with cards or goals makes the save fail (Restrict) with nothing changed; otherwise exactly that player is removed |
| Referees.CreateReferee | src/MundialitoCorporativo.Application/Referees/Commands/CreateRefereeCommandHandler.cs:16-34 | blank first name, then blank last name, give VALIDATION and change nothing; otherwise exactly one referee is added with trimmed names and licence, and returned |
| Referees.UpdateReferee | src/MundialitoCorporativo.Application/Referees/Commands/UpdateRefereeCommandHandler.cs:15-31 | a missing referee gives NOT_FOUND before the names are looked at; then blank names give VALIDATION; otherwise names and licence are overwritten trimmed (and non-empty), and id and creation time are kept |
| Referees.DeleteReferee | src/MundialitoCorporativo.Application/Referees/Commands/DeleteRefereeCommandHandler.cs:14-22 | a missing referee gives NOT_FOUND; otherwise the referee is removed, its matches lose their referee (SET NULL), and nothing else changes |
| Matches.WithResult | src/MundialitoCorporativo.Application/Matches/Commands/SetMatchResultCommandHandler.cs:30-33 | the result sets the two scores and Completed, and changes nothing but scores, status and update time |
| Matches.ResultRecordedOnce | src/MundialitoCorporativo.Application/Matches/Commands/SetMatchResultCommandHandler.cs:26-32 | a completed match no longer accepts a result, so a second attempt is refused |
| Matches.CreateMatch | src/MundialitoCorporativo.Application/Matches/Commands/CreateMatchCommandHandler.cs:21-43 | equal teams give VALIDATION before any lookup; then a missing home team, then a missing away team, give NOT_FOUND; all change nothing; otherwise exactly one scheduled match (no referee, no scores, trimmed venue) is added and returned as the read side shows it; a created match always has distinct teams |
| Matches.UpdateMatch | src/MundialitoCorporativo.Application/Matches/Commands/UpdateMatchCommandHandler.cs:21-44 | checks, in order: a missing match, equal teams, a missing home or away team, a given but unknown referee; each failure changes nothing; otherwise it overwrites teams, referee, schedule, trimmed venue and status (any integer), and keeps id and creation time |
| Matches.SetMatchResult | src/MundialitoCorporativo.Application/Matches/Commands/SetMatchResultCommandHandler.cs:21-37 | a missing match gives NOT_FOUND; a match neither scheduled nor in progress gives VALIDATION; then a negative score gives VALIDATION; all change nothing; otherwise the scores are recorded and the returned match is completed with them |
| Matches.AddMatchCard | src/MundialitoCorporativo.Application/Matches/Commands/AddMatchCardCommandHandler.cs:16-45 | refuses, in order and without any change: a missing match, a missing player, a player of neither side, a card type other than 0 or 1, a minute outside 0..999; otherwise exactly one card is appended, and the DTO carries "First Last", the type and the minute |
| Matches.DeleteMatch | src/MundialitoCorporativo.Application/Matches/Commands/DeleteMatchCommandHandler.cs:14-22 | a missing match gives NOT_FOUND; otherwise that match is removed with its cards and goals (cascade), and nothing else changes |
| Auth.AddUserConsistent | src/MundialitoCorporativo.Infrastructure/Persistence/AppDbContext.cs:71 | adding a user whose name nobody has keeps the unique user-name index and every other constraint |
| Auth.Register | src/MundialitoCorporativo.Application/Auth/Commands/RegisterCommandHandler.cs:22-68 | refuses, in order and without any change: a trimmed name shorter than 3 (VALIDATION), a password shorter than 6 (VALIDATION), a taken name (CONFLICT), a taken non-empty email (CONFLICT), a name or email too wide for its column (VALIDATION, outdated schema); otherwise exactly one user is added, with the trimmed name, a null email when it was empty, and the given hash and salt |
| Auth.FindUser | src/MundialitoCorporativo.Application/Auth/Commands/LoginCommandHandler.cs:28 | none exactly when no user has the name; otherwise that user |
| Auth.Login | src/MundialitoCorporativo.Application/Auth/Commands/LoginCommandHandler.cs:23-34 | an empty name or password gives UNAUTHORIZED; otherwise success exactly when a user with the trimmed name verifies the password; an unknown user and a wrong password give the same failure; success holds the token for that name |
| Auth.RegisterThenLogin | src/MundialitoCorporativo.Application/Auth/Commands/LoginCommandHandler.cs:25-33 | a registered user logs in with the same name (padding allowed) and password |
| MatchRead.CardOrderTotal | src/MundialitoCorporativo.Infrastructure/Persistence/MatchReadRepository.cs:38 | ordering by minute and then creation time compares every pair of cards |
| MatchRead.CardsOf | src/MundialitoCorporativo.Infrastructure/Persistence/MatchReadRepository.cs:35-37 | exactly the match's cards whose player exists, each as often as the table holds it (multiset equality), the others dropped |
| MatchRead.RefereeName | src/MundialitoCorporativo.Infrastructure/Persistence/MatchReadRepository.cs:23-29 | a referee name exactly when the match names an existing referee |
| MatchRead.GetMatchById | src/MundialitoCorporativo.Infrastructure/Persistence/MatchReadRepository.cs:19-46 | null unless the match and both its teams exist; otherwise every column of the match row (ids, referee id, schedule, venue, status, scores, creation time), the LEFT JOIN referee name (null without a referee row), the two team names and one DTO per card |
| MatchRead.GetMatchByIdCards | src/MundialitoCorporativo.Infrastructure/Persistence/MatchReadRepository.cs:33-39 | the cards are a permutation of the match's cards whose player exists (each card row exactly as often as in the table, by `CardsOf`), each a DTO with the player's full name, ordered by minute and then by creation time |
| MatchRead.ConsistentMatchFound | src/MundialitoCorporativo.Application/Matches/Commands/CreateMatchCommandHandler.cs:41-42 | in a consistent database an existing match is always found, so the handlers' `dto!` is never null |
| ReadRepositories.SortColumn | src/MundialitoCorporativo.Infrastructure/Persistence/TeamReadRepository.cs:31-34 | the fallback for a blank or non-whitelisted column; otherwise the requested column; always whitelisted ignoring case |
| ReadRepositories.SortColumnIsSafe | src/MundialitoCorporativo.Infrastructure/Persistence/TeamReadRepository.cs:49 | the column interpolated into ORDER BY is made of letters only |
| ReadRepositories.SqlDirection | src/MundialitoCorporativo.Infrastructure/Persistence/TeamReadRepository.cs:32 | "DESC" exactly when the direction equals "desc" ignoring case, otherwise "ASC" |
| ReadRepositories.LikeFilter | src/MundialitoCorporativo.Infrastructure/Persistence/TeamReadRepository.cs:40 | no filter for a null or empty term; otherwise the term between two % signs |
| ReadRepositories.PlanOf | src/MundialitoCorporativo.Infrastructure/Persistence/TeamReadRepository.cs:35-52 | the offset comes from the raw page number and size; the fetch is clamped to 1..100 and reported; the raw page number is reported |
| ReadRepositories.TeamsPlan | src/MundialitoCorporativo.Infrastructure/Persistence/TeamReadRepository.cs:30-52 | the sort column is whitelisted and letters only; the direction as above; a name filter exactly for a non-empty trimmed name |
| ReadRepositories.TeamFilterMeaning | src/MundialitoCorporativo.Infrastructure/Persistence/TeamReadRepository.cs:39-40 | a blank filter keeps every team; otherwise exactly the teams whose name contains the trimmed term |
| ReadRepositories.PlayersPlan | src/MundialitoCorporativo.Infrastructure/Persistence/PlayerReadRepository.cs:30-52 | sorting by one of the six player columns, LastName by default; direction and name filter as for teams |
| ReadRepositories.PlayerFilterMeaning | src/MundialitoCorporativo.Infrastructure/Persistence/PlayerReadRepository.cs:38-41 | for every query: a player is listed exactly when its team exists, the team filter (if given) is its team, and the name is blank or "First Last" or "Last, First" contains the trimmed term |
| ReadRepositories.RefereeSortColumn | src/MundialitoCorporativo.Infrastructure/Persistence/RefereeReadRepository.cs:31-38 | the trimmed, lowercased key picks LastName, CreatedAtUtc or Id exactly for those names, and FirstName otherwise |
| ReadRepositories.RefereesPlan | src/MundialitoCorporativo.Infrastructure/Persistence/RefereeReadRepository.cs:30-60 | the sort column is one of the four referee columns; direction as above; a name filter exactly for a non-empty trimmed name |
| ReadRepositories.RefereeFilterIgnoresCase | src/MundialitoCorporativo.Infrastructure/Persistence/RefereeReadRepository.cs:44-48 | two terms equal up to case select the same referees, blank terms included |
| ReadRepositories.LowerTrimCommute | src/MundialitoCorporativo.Infrastructure/Persistence/RefereeReadRepository.cs:48 | lowercasing and trimming commute |
| ReadRepositories.MatchesPlan | src/MundialitoCorporativo.Infrastructure/Persistence/MatchReadRepository.cs:68-97 | sorting by one of the seven match columns, ScheduledAtUtc by default; direction as above; no name filter |
| ReadRepositories.FetchPage | src/MundialitoCorporativo.Infrastructure/Persistence/TeamReadRepository.cs:50 | an error for a negative offset or a size below 1; otherwise the rows from the offset on, a full page of them unless the rows run out first |
| ReadRepositories.RunPlan | src/MundialitoCorporativo.Infrastructure/Persistence/TeamReadRepository.cs:42-52 | the page reports the filtered count and the planned page number and size; its rows are the ordered rows from the offset on, a full page unless the rows run out first |
| ReadRepositories.InBoundsRequestsPageNormally | src/MundialitoCorporativo.Infrastructure/Persistence/TeamReadRepository.cs:35-36 | for page >= 1 and size 1..100 the raw offset equals the normalised one, and the query succeeds |
| RefereeQuery.Matching | src/MundialitoCorporativo.Application/Referees/Queries/GetRefereesQueryHandler.cs:21 | exactly the referees whose lowercased "First Last" contains the term, each as often as the table holds it (multiset equality) |
| RefereeQuery.Filtered | src/MundialitoCorporativo.Application/Referees/Queries/GetRefereesQueryHandler.cs:18-22 | all rows for a blank name; otherwise exactly those matching the trimmed, lowercased term, with their multiplicities (so its length is the number of matching rows) |
| RefereeQuery.KeyOf | src/MundialitoCorporativo.Application/Referees/Queries/GetRefereesQueryHandler.cs:25-30 | last name exactly for "lastname", creation time exactly for "createdatutc" (ignoring case), first name otherwise |
| RefereeQuery.OrderTotal | src/MundialitoCorporativo.Application/Referees/Queries/GetRefereesQueryHandler.cs:24-30 | the chosen order, either direction, compares every pair of referees |
| RefereeQuery.Items | src/MundialitoCorporativo.Application/Referees/Queries/GetRefereesQueryHandler.cs:36 | one list item per row, in order |
| RefereeQuery.PageRows | src/MundialitoCorporativo.Application/Referees/Queries/GetRefereesQueryHandler.cs:33-35 | the i-th row is the sorted row at the normalised offset plus i, and the page is full unless the sorted rows run out first |
| RefereeQuery.GetReferees | src/MundialitoCorporativo.Application/Referees/Queries/GetRefereesQueryHandler.cs:15-39 | always a success; the total is the filtered count before paging, i.e. the number of matching rows by `Filtered`'s multiset clause; the page number (>= 1) and size (1..100) reported are the normalised ones; the data is the page's rows as list items, a full page unless the filtered rows run out first |
| RefereeQuery.PageRowsFiltered | src/MundialitoCorporativo.Application/Referees/Queries/GetRefereesQueryHandler.cs:18-35 | every listed referee passes the name filter |
| RefereeQuery.PageRowsOrdered | src/MundialitoCorporativo.Application/Referees/Queries/GetRefereesQueryHandler.cs:24-35 | the page is in the requested order |
| RefereeQuery.NextPageContinues | src/MundialitoCorporativo.Application/Referees/Queries/GetRefereesQueryHandler.cs:31-35 | the next page starts exactly where this one ends (a corollary of `Paging.PagesTile` in terms of the reported page size) |
| Standings.Sides | src/MundialitoCorporativo.Infrastructure/Persistence/StandingsReadRepository.cs:31-43 | every row comes from a completed match with both scores, for its home or away team |
| Standings.OutcomesPartition | src/MundialitoCorporativo.Infrastructure/Persistence/StandingsReadRepository.cs:33-35 | each counted match is exactly one of win, draw or loss for a team |
| Standings.AggregateMeaning | src/MundialitoCorporativo.Infrastructure/Persistence/StandingsReadRepository.cs:44-56 | played = won + drawn + lost = counted matches; points = 3*won + drawn; goal difference = for - against; a team without counted matches has zeros |
| Standings.StandingOrderTotal | src/MundialitoCorporativo.Infrastructure/Persistence/StandingsReadRepository.cs:53 | the order by points, goal difference and goals for compares every pair of rows |
| Standings.Aggregated | src/MundialitoCorporativo.Infrastructure/Persistence/StandingsReadRepository.cs:44-51 | one line per team, in table order |
| Standings.Ranked | src/MundialitoCorporativo.Infrastructure/Persistence/StandingsReadRepository.cs:53 | the row at position i gets rank start + i, and is otherwise unchanged |
| Standings.GetStandings | src/MundialitoCorporativo.Infrastructure/Persistence/StandingsReadRepository.cs:27-61 | one row per team, ranked 1..n |
| Standings.GetStandingsOrdered | src/MundialitoCorporativo.Infrastructure/Persistence/StandingsReadRepository.cs:53-58 | the rows are a permutation of the team lines, ranked 1..n in order of points, goal difference and goals for |
| Standings.SumOverTeamsIsTotal | src/MundialitoCorporativo.Infrastructure/Persistence/StandingsReadRepository.cs:49-51 | summing a column over distinct teams gives the column's total over all rows |
| Standings.SidesBalance | src/MundialitoCorporativo.Infrastructure/Persistence/StandingsReadRepository.cs:31-43 | over all rows, wins equal losses and goals for equal goals against |
| Standings.TableBalances | src/MundialitoCorporativo.Infrastructure/Persistence/StandingsReadRepository.cs:31-56 | across the table, total won = total lost and total goals for = total goals against |
| Standings.TakeOf | src/MundialitoCorporativo.Infrastructure/Persistence/StandingsReadRepository.cs:66 | the limit, 10 by default, clamped to 1..100 |
| Standings.GoalsOf | src/MundialitoCorporativo.Infrastructure/Persistence/StandingsReadRepository.cs:71-74 | a count between 0 and the number of goals |
| Standings.OwnGoalsIgnored | src/MundialitoCorporativo.Infrastructure/Persistence/StandingsReadRepository.cs:74 | an own goal never counts for anybody |
| Standings.Joined | src/MundialitoCorporativo.Infrastructure/Persistence/StandingsReadRepository.cs:72 | the players whose team exists, in table order |
| Standings.JoinedCounts | src/MundialitoCorporativo.Infrastructure/Persistence/StandingsReadRepository.cs:72-73 | the INNER JOIN keeps each player row as often as the table holds it when its team exists, and drops it otherwise (multiset equality) |
| Standings.ScorerLines | src/MundialitoCorporativo.Infrastructure/Persistence/StandingsReadRepository.cs:68-75 | one line per entry of `Joined`, in table order (with `JoinedCounts`: exactly one line per player row whose team exists), zero goals included, with that player's name, team name and goal count |
| Standings.ScorerLinesMembers | src/MundialitoCorporativo.Infrastructure/Persistence/StandingsReadRepository.cs:68-75 | every player whose team exists has its line, and every line counts the goals of such a player |
| Standings.GetTopScorers | src/MundialitoCorporativo.Infrastructure/Persistence/StandingsReadRepository.cs:63-78 | at most the limit of lines, and exactly the limit when there are enough players |
| Standings.TopScorersPrefix | src/MundialitoCorporativo.Infrastructure/Persistence/StandingsReadRepository.cs:68-76 | the list is a prefix of all lines ordered by goals (a corollary of the definition, used by `GetTopScorersMeaning`) |
| Standings.OrderedLinesByGoals | src/MundialitoCorporativo.Infrastructure/Persistence/StandingsReadRepository.cs:76 | in the ordered lines, any earlier line has at least as many goals as any later one |
| Standings.TopOfOrderedMeaning | src/MundialitoCorporativo.Infrastructure/Persistence/StandingsReadRepository.cs:66-76 | a prefix of the lines ordered by goals is itself ordered, drawn from the lines, and has at least as many goals as any line left out |
| Standings.GetTopScorersMeaning | src/MundialitoCorporativo.Infrastructure/Persistence/StandingsReadRepository.cs:66-76 | the list is in non-increasing goal order; each line counts that player's goals without own goals; no player left out has more goals than a listed one |

## Left out

- HTTP and stream plumbing are abstracted:
  - `HttpContext`;
  - buffering through `MemoryStream` and copying back to the original stream;
  - the lost original stream when the handler throws.
  A request is modelled as (method, path, query, key header values, body). A response is
  modelled as (status, content type, body, other headers).
- Concurrency is not modelled. The only guard between two simultaneous first requests with the
  same key is the unique index; a store failure is modelled as `StoreFaulted` after the
  response was sent. Sequential runs never reach it (`MissNeverDuplicates`).
- Request cancellation is modelled only at the save: `Request.aborted` says the token
  `RequestAborted` has fired by the time `StoreAsync` runs, which then saves nothing, so the
  retry runs the handler again (`AbortedSaveRunsHandlerAgain`). Cancellation observed earlier
  is not modelled: a token that fires before `GetAsync` makes the lookup throw before the
  handler runs (nothing runs, nothing is saved), and a handler that observes it is one that
  responds or throws like any other.
- Clocks, identifiers and crypto are parameters:
  - `DateTime.UtcNow` is a `now` argument;
  - `Guid.NewGuid()` is a counter in `AppDbContext` that no existing row uses;
  - password hashing is represented by its hash and salt;
  - password verification and JWT generation are functions given to `Login`.
- Case folding is ASCII only. `ToLower`/`ToLowerInvariant` and `OrdinalIgnoreCase` map
  A–Z to a–z, and `char.IsWhiteSpace` is a fixed set of white-space characters.
- SQL collation is not modelled. Comparisons are ordinal:
  - team-name and user-name equality;
  - the idempotency lookup by (key, method, path) and its unique index;
  - LIKE matching, read as containment of the term, with `%`/`_` inside a term taken literally;
  - the referee list query's `Contains`, `ToLower` and ordering, which the database evaluates;
  - string sort order.
  Ties in ORDER BY keep table order.
- Truncate: when the cut at 8000 UTF-16 code units falls between the two halves of a
  surrogate pair, .NET keeps the lone high surrogate; strings here hold whole characters
  only, so the model ends the body one unit earlier. Lone surrogates in any input string
  cannot be represented either.
- Column widths are enforced only where the code reacts to them: the idempotency row
  (save failure) and `Register`'s truncation branch. Elsewhere an over-long value is accepted.
- Auth.Register: the generic "No se pudo crear la cuenta" failure for other `DbUpdateException`
  causes is not modelled, because sequentially no other save failure can occur after the
  handler's own checks.
- Standings.GetStandings: the model assumes the query's rows materialise as `StandingRowDto`,
  with the card columns, which the query does not select, left at 0. As written this is doubtful:
  the record's only constructor takes 13 parameters while the query returns 11 columns, and
  `ROW_NUMBER()` is `bigint` while `Rank` is `int`. A mapper that needs a matching constructor
  would throw instead, and `GetStandingsQueryHandler` would then answer a `VALIDATION` failure
  with the exception's message. That path is not modelled.
- The SQL sorting in the read repositories is not modelled; the plans state only which
  column and direction are requested.
- The paged repositories' COUNT queries are represented by `RunPlan` over already filtered and
  ordered rows. The filter meaning is given by `TeamSelected`, `PlayerSelected`,
  `RefereeSelected` and `MatchSelected`.
- Not part of this model, because they only dispatch:
  - controllers (201/200/204 on success, `ToActionResult` otherwise);
  - `ExceptionHandlingMiddleware`;
  - the delegating query handlers;
  - `MeQueryHandler`;
  - startup, seeding, migrations and dependency injection;
  - the frontend.
- `PagedResult.TotalPages` divides in `double`; it is modelled as the exact integer ceiling,
  which agrees for every 32-bit count. 32-bit overflow of the offset product is not modelled.

## Findings

| source | as written | input that shows it | evidently intended | confidence | as-written member | corrected member |
|---|---|---|---|---|---|---|
| src/MundialitoCorporativo.Infrastructure/Persistence/TeamReadRepository.cs:35-36 | OFFSET is `(PageNumber - 1) * PageSize` from the raw values while FETCH is clamped to 1..100 (same in the player, referee and match repositories) | PageSize 200: pages start 200 rows apart but fetch 100, so row 150 is on no page; PageNumber 0 gives OFFSET -10, which SQL Server rejects | offset from the normalised page number and clamped size, as `GetRefereesQueryHandler` does | not executed | Paging.OffsetAsWrittenSkipsRows | Paging.PagesTile |
| src/MundialitoCorporativo.Infrastructure/Persistence/IdempotencyStore.cs:18-32 | `StoreAsync` takes no content type and `GetAsync` builds a response without one, against the interface | a POST answered 201 with `text/plain`, then retried with the same key: replayed as `application/json` | persist and return the response's content type, as the interface and the middleware expect | not executed | IdempotencyMiddleware.ReplayLosesContentTypeAsWritten | IdempotencyStore.StoreThenGet |
