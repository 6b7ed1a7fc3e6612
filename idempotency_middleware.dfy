/**
 * `IdempotencyMiddleware`: a POST carrying an `Idempotency-Key` header is
 * answered from the store when the same (key, method, path) has already
 * succeeded; otherwise the downstream handler runs, its response is buffered
 * and forwarded, and a 2xx response is saved for later retries.
 */
module IdempotencyMiddleware {
  import opened Wrappers
  import opened Text
  import opened Entities
  import opened IdempotencyStore
  import opened ResultExtensions

  const IdempotencyKeyHeader: string := "Idempotency-Key"
  const DefaultContentType: string := "application/json"

  /**
   * The parts of the request the middleware looks at: the method, the path (null
   * when absent), the query string ("" when absent, else starting with '?'), the
   * values of the `Idempotency-Key` header, the body the handler reads, and whether
   * `RequestAborted` has fired by the time the response is saved (the client gave
   * up while the handler ran).
   */
  datatype Request = Request(httpMethod: string, path: Option<string>, queryString: string,
                             idempotencyKeys: seq<string>, body: string, aborted: bool)

  /** A response as the client sees it. `headers` are those other than Content-Type (e.g. Location). */
  datatype Response = Response(status: int, contentType: Option<string>, body: string, headers: map<string, string>)

  /** What the downstream pipeline does: responds, or throws. */
  datatype HandlerOutcome = Responded(response: Response) | Threw

  /**
   * How `InvokeAsync` ends: with a response, with the handler's exception, or with the
   * store's exception after the buffered response has already been copied to the client.
   */
  datatype Outcome = Completed(response: Response) | HandlerFaulted | StoreFaulted(sent: Response)

  /** One call's effect: its outcome, the table afterwards and how many times the handler ran. */
  datatype Step = Step(outcome: Outcome, rows: seq<IdempotencyRecord>, handlerRuns: nat)

  /** `Headers["Idempotency-Key"].FirstOrDefault()` */
  function KeyHeader(req: Request): Option<string> {
    FirstOrDefault(req.idempotencyKeys)
  }

  /** A request the middleware passes through untouched: no usable key, or not exactly "POST". */
  predicate Bypasses(req: Request) {
    IsNullOrWhiteSpace(KeyHeader(req)) || req.httpMethod != "POST"
  }

  /** `(Path.Value ?? "/") + (QueryString.HasValue ? QueryString.Value : "")` */
  function FullPath(req: Request): (p: string)
    ensures req.path.None? ==> p == "/" + req.queryString
    ensures req.path.Some? ==> p == req.path.value + req.queryString
  {
    req.path.GetOr("/") + (if req.queryString != "" then req.queryString else "")
  }

  /** The triple the store is asked about: trimmed key, method, full path. */
  function LookupTriple(req: Request): RequestTriple
    requires !Bypasses(req)
  {
    RequestTriple(Trim(KeyHeader(req).value), req.httpMethod, FullPath(req))
  }

  /** The response replayed on a hit: stored status, content type or JSON, body when non-empty, no other header. */
  function Replay(r: IdempotencyResponse): (resp: Response)
    ensures resp.status == r.statusCode
    ensures resp.contentType == Some(r.contentType.GetOr(DefaultContentType))
    ensures resp.body == if r.body.Some? then r.body.value else ""
    ensures resp.headers == map[]
  {
    Response(r.statusCode, Some(r.contentType.GetOr(DefaultContentType)),
             if IsNullOrEmpty(r.body) then "" else r.body.value, map[])
  }

  /** The row saved after a successful miss. */
  function SavedRow(req: Request, resp: Response, id: Guid, now: DateTime): IdempotencyRecord
    requires !Bypasses(req)
  {
    NewRecord(id, LookupTriple(req), resp.status, Some(resp.body), resp.contentType, now)
  }

  /**
   * The miss path once the handler has answered: forward, then save a 2xx. The save
   * receives `RequestAborted`, so an aborted request saves nothing.
   */
  function AfterHandler(req: Request, resp: Response, rows: seq<IdempotencyRecord>, id: Guid, now: DateTime): (s: Step)
    requires !Bypasses(req)
  {
    if IsSuccessStatus(resp.status) then
      var row := SavedRow(req, resp, id, now);
      if req.aborted then Step(StoreFaulted(resp), rows, 1) else
      if SaveOutcomeOf(rows, row) == Saved then Step(Completed(resp), rows + [row], 1)
      else Step(StoreFaulted(resp), rows, 1)
    else Step(Completed(resp), rows, 1)
  }

  /**
   * `InvokeAsync` as a function of the table before the call, the request and the
   * handler; `id` and `now` are the identifier and time a saved row receives.
   */
  function Invoke(next: Request -> HandlerOutcome, rows: seq<IdempotencyRecord>, req: Request,
                  id: Guid, now: DateTime): (s: Step)
  {
    if Bypasses(req) then
      match next(req)
      case Responded(resp) => Step(Completed(resp), rows, 1)
      case Threw => Step(HandlerFaulted, rows, 1)
    else
      match Find(rows, LookupTriple(req))
      case Some(rec) => Step(Completed(Replay(ResponseOf(rec))), rows, 0)
      case None =>
        match next(req)
        case Threw => Step(HandlerFaulted, rows, 1)
        case Responded(resp) => AfterHandler(req, resp, rows, id, now)
  }

  /** The middleware instance: the next delegate of the pipeline and a count of its invocations. */
  class IdempotencyMiddleware {
    const next: Request -> HandlerOutcome
    ghost var handlerRuns: nat

    constructor(next: Request -> HandlerOutcome)
      ensures this.next == next && handlerRuns == 0
    {
      this.next := next;
      handlerRuns := 0;
    }

    /** `await _next(context)` */
    method CallNext(req: Request) returns (o: HandlerOutcome)
      modifies this
      ensures o == next(req) && handlerRuns == old(handlerRuns) + 1
    {
      o := next(req);
      handlerRuns := handlerRuns + 1;
    }

    /** `InvokeAsync`: its outcome, the store's new table and the handler runs are those of `Invoke`. */
    method InvokeAsync(req: Request, store: IdempotencyStore, id: Guid, now: DateTime) returns (outcome: Outcome)
      requires store.Valid()
      modifies this, store
      ensures store.Valid()
      ensures var s := Invoke(next, old(store.records), req, id, now);
              outcome == s.outcome && store.records == s.rows && handlerRuns == old(handlerRuns) + s.handlerRuns
    {
      var key := FirstOrDefault(req.idempotencyKeys);
      if IsNullOrWhiteSpace(key) || req.httpMethod != "POST" {
        var o := CallNext(req);
        outcome := if o.Responded? then Completed(o.response) else HandlerFaulted;
        return;
      }
      var trimmed := Trim(key.value);
      var path := FullPath(req);
      var existing := store.Get(trimmed, req.httpMethod, path);
      if existing.Some? {
        outcome := Completed(Replay(existing.value));
        return;
      }
      var o := CallNext(req);
      if o.Threw? {
        outcome := HandlerFaulted;
        return;
      }
      var resp := o.response;
      if 200 <= resp.status < 300 {
        var saved := store.Store(id, trimmed, req.httpMethod, path, resp.status, Some(resp.body), resp.contentType, now,
                                 req.aborted);
        outcome := if saved == Saved then Completed(resp) else StoreFaulted(resp);
      } else {
        outcome := Completed(resp);
      }
    }
  }

  /** A bypassed request goes to the handler once, its outcome is passed on, and the table is untouched. */
  lemma BypassForwards(next: Request -> HandlerOutcome, rows: seq<IdempotencyRecord>, req: Request, id: Guid, now: DateTime)
    requires Bypasses(req)
    ensures var s := Invoke(next, rows, req, id, now);
            s.rows == rows && s.handlerRuns == 1
            && (next(req).Responded? ==> s.outcome == Completed(next(req).response))
            && (next(req).Threw? ==> s.outcome == HandlerFaulted)
  {
  }

  /** Keys that differ only by white space around them address the same saved response. */
  lemma KeyWhitespaceInsensitive(req: Request, w1: string, w2: string)
    requires !Bypasses(req) && AllWhiteSpace(w1) && AllWhiteSpace(w2)
    ensures var padded := req.(idempotencyKeys := [w1 + KeyHeader(req).value + w2] + req.idempotencyKeys[1..]);
            !Bypasses(padded) && LookupTriple(padded) == LookupTriple(req)
  {
    var k := KeyHeader(req).value;
    TrimPadded(w1, k, w2);
    var padded := req.(idempotencyKeys := [w1 + k + w2] + req.idempotencyKeys[1..]);
    assert KeyHeader(padded) == Some(w1 + k + w2);
  }

  /** A hit replays the saved response without running the handler and leaves the table as it was. */
  lemma HitReplays(next: Request -> HandlerOutcome, rows: seq<IdempotencyRecord>, req: Request, id: Guid, now: DateTime)
    requires !Bypasses(req) && Find(rows, LookupTriple(req)).Some?
    ensures var rec := Find(rows, LookupTriple(req)).value;
            var s := Invoke(next, rows, req, id, now);
            && s.handlerRuns == 0 && s.rows == rows
            && s.outcome.Completed?
            && s.outcome.response.status == rec.responseStatusCode
            && s.outcome.response.contentType == Some(rec.responseContentType.GetOr(DefaultContentType))
            && s.outcome.response.body == rec.responseBody.GetOr("")
            && s.outcome.response.headers == map[]
  {
  }

  /**
   * A miss runs the handler exactly once and the client gets its response verbatim,
   * whatever the status; a row is added exactly when the status is 2xx and the save
   * succeeds, and it is the truncated response under the request's triple.
   */
  lemma MissForwards(next: Request -> HandlerOutcome, rows: seq<IdempotencyRecord>, req: Request, id: Guid, now: DateTime)
    requires !Bypasses(req) && Find(rows, LookupTriple(req)).None? && next(req).Responded?
    ensures var resp := next(req).response;
            var s := Invoke(next, rows, req, id, now);
            && s.handlerRuns == 1
            && (s.outcome == Completed(resp) || s.outcome == StoreFaulted(resp))
            && (s.rows != rows <==> IsSuccessStatus(resp.status) && s.outcome.Completed?)
            && (s.rows != rows ==> s.rows == rows + [SavedRow(req, resp, id, now)])
            && (!IsSuccessStatus(resp.status) ==> s.outcome == Completed(resp))
            && (req.aborted ==> s.rows == rows)
  {
  }

  /**
   * A client that gives up after the handler has answered, and then retries with the
   * same key, gets the handler run a second time: the cancelled save stored nothing,
   * so the retry is a miss again.
   */
  lemma {:induction false} AbortedSaveRunsHandlerAgain(next: Request -> HandlerOutcome, rows: seq<IdempotencyRecord>,
                                                       req: Request, id1: Guid, id2: Guid, now1: DateTime, now2: DateTime)
    requires !Bypasses(req) && Find(rows, LookupTriple(req)).None? && req.aborted
    requires next(req).Responded? && IsSuccessStatus(next(req).response.status)
    ensures var retry := req.(aborted := false);
            var first := Invoke(next, rows, req, id1, now1);
            var second := Invoke(next, first.rows, retry, id2, now2);
            && first.outcome == StoreFaulted(next(req).response) && first.rows == rows && first.handlerRuns == 1
            && !Bypasses(retry) && LookupTriple(retry) == LookupTriple(req)
            && second.handlerRuns == 1 && first.handlerRuns + second.handlerRuns == 2
  {
    var retry := req.(aborted := false);
    assert KeyHeader(retry) == KeyHeader(req);
  }

  /** An exception from the handler saves nothing. */
  lemma HandlerThrowSavesNothing(next: Request -> HandlerOutcome, rows: seq<IdempotencyRecord>, req: Request, id: Guid, now: DateTime)
    requires next(req).Threw?
    ensures var s := Invoke(next, rows, req, id, now);
            s.rows == rows && (s.outcome == HandlerFaulted || s.handlerRuns == 0)
  {
  }

  /**
   * Retrying a POST whose first attempt succeeded replays the same status, the
   * body cut to 8000 UTF-16 code units and the content type, without a second handler run.
   */
  lemma {:induction false} RetryAfterSuccessReplays(next: Request -> HandlerOutcome, rows: seq<IdempotencyRecord>,
                                                    req: Request, id1: Guid, id2: Guid, now1: DateTime, now2: DateTime)
    requires !Bypasses(req) && Find(rows, LookupTriple(req)).None?
    requires next(req).Responded? && IsSuccessStatus(next(req).response.status)
    requires Invoke(next, rows, req, id1, now1).outcome.Completed?
    ensures var resp := next(req).response;
            var first := Invoke(next, rows, req, id1, now1);
            var second := Invoke(next, first.rows, req, id2, now2);
            && second.handlerRuns == 0 && second.rows == first.rows
            && second.outcome.Completed?
            && second.outcome.response.status == resp.status
            && second.outcome.response.body == Truncate(Some(resp.body)).value
            && second.outcome.response.contentType == Some(resp.contentType.GetOr(DefaultContentType))
  {
    var resp := next(req).response;
    var row := SavedRow(req, resp, id1, now1);
    FindAppend(rows, row, LookupTriple(req));
  }

  /**
   * No negative caching: after a non-2xx answer the table is unchanged, so the same
   * request runs the handler again.
   */
  lemma {:induction false} NoNegativeCaching(next: Request -> HandlerOutcome, rows: seq<IdempotencyRecord>,
                                             req: Request, id1: Guid, id2: Guid, now1: DateTime, now2: DateTime)
    requires !Bypasses(req) && Find(rows, LookupTriple(req)).None?
    requires next(req).Responded? && !IsSuccessStatus(next(req).response.status)
    ensures var first := Invoke(next, rows, req, id1, now1);
            var second := Invoke(next, first.rows, req, id2, now2);
            first.rows == rows && second.handlerRuns == 1 && second.outcome == first.outcome
  {
  }

  /** A failure the API renders through `ToActionResult` is never saved. */
  lemma ActionResultFailuresNotCached<T>(next: Request -> HandlerOutcome, rows: seq<IdempotencyRecord>, req: Request,
                                         id: Guid, now: DateTime, failure: Results.Result<T>)
    requires next(req).Responded? && next(req).response.status == ToActionResult(failure).status
    ensures Invoke(next, rows, req, id, now).rows == rows
  {
  }

  /** Only 2xx responses are ever in the table. */
  predicate OnlySuccesses(rows: seq<IdempotencyRecord>) {
    forall i :: 0 <= i < |rows| ==> IsSuccessStatus(rows[i].responseStatusCode)
  }

  /**
   * Every call keeps the unique index, the column widths, and the fact that only
   * successful responses are saved; the table only grows.
   */
  lemma InvokePreservesTable(next: Request -> HandlerOutcome, rows: seq<IdempotencyRecord>, req: Request, id: Guid, now: DateTime)
    requires Unique(rows) && AllFit(rows) && OnlySuccesses(rows)
    ensures var s := Invoke(next, rows, req, id, now);
            Unique(s.rows) && AllFit(s.rows) && OnlySuccesses(s.rows) && rows <= s.rows
  {
    var s := Invoke(next, rows, req, id, now);
    if s.rows != rows {
      var row := SavedRow(req, next(req).response, id, now);
      SavePreservesTable(rows, row);
    }
  }

  /**
   * In a sequential run, the save that follows a miss never meets the unique index:
   * a failure to save can only be a column that is too long.
   */
  lemma MissNeverDuplicates(next: Request -> HandlerOutcome, rows: seq<IdempotencyRecord>, req: Request, id: Guid, now: DateTime)
    requires !Bypasses(req) && Find(rows, LookupTriple(req)).None? && next(req).Responded?
    ensures SaveOutcomeOf(rows, SavedRow(req, next(req).response, id, now)) != DuplicateKey
  {
  }

  /** The row `IdempotencyStore.StoreAsync` builds as written after a successful miss: no content type. */
  function SavedRowAsWritten(req: Request, resp: Response, id: Guid, now: DateTime): (row: IdempotencyRecord)
    requires !Bypasses(req)
    ensures TripleOf(row) == LookupTriple(req) && row.responseContentType.None?
  {
    NewRecordAsWritten(id, LookupTriple(req), resp.status, Some(resp.body), now)
  }

  /**
   * With the store as written, the content type is lost: a first POST whose 2xx
   * response has any content type other than JSON is saved without it, and the
   * retry is replayed (without a handler run) as `application/json`.
   */
  lemma {:induction false} ReplayLosesContentTypeAsWritten(next: Request -> HandlerOutcome, rows: seq<IdempotencyRecord>,
                                                           req: Request, id1: Guid, id2: Guid, now1: DateTime, now2: DateTime)
    requires !Bypasses(req) && Find(rows, LookupTriple(req)).None?
    requires next(req).Responded? && IsSuccessStatus(next(req).response.status)
    requires next(req).response.contentType.Some? && next(req).response.contentType.value != DefaultContentType
    ensures var resp := next(req).response;
            var second := Invoke(next, rows + [SavedRowAsWritten(req, resp, id1, now1)], req, id2, now2);
            && second.handlerRuns == 0
            && second.outcome.Completed?
            && second.outcome.response.status == resp.status
            && second.outcome.response.contentType == Some(DefaultContentType)
            && second.outcome.response.contentType != resp.contentType
  {
    var resp := next(req).response;
    FindAppend(rows, SavedRowAsWritten(req, resp, id1, now1), LookupTriple(req));
  }
}
