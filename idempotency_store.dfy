/**
 * The table of saved responses behind the idempotency middleware: an exact
 * lookup by (key, method, path) and an insert that truncates the body and is
 * guarded by a unique index on that triple.
 */
module IdempotencyStore {
  import opened Wrappers
  import opened Text
  import opened Entities

  /** Column widths of the `IdempotencyRecords` table. */
  const MaxKeyLength: nat := 128
  const MaxMethodLength: nat := 10
  const MaxPathLength: nat := 500
  const MaxBodyLength: nat := 8000
  const MaxContentTypeLength: nat := 200

  /** The identity of a request: idempotency key, HTTP method, path with query string. */
  datatype RequestTriple = RequestTriple(key: string, httpMethod: string, path: string)

  /** `IdempotencyResponse`, in the shape of the store's interface. */
  datatype IdempotencyResponse = IdempotencyResponse(statusCode: int, body: Option<string>, contentType: Option<string>)

  /**
   * Why `SaveChangesAsync` failed, or that it did not. `Canceled` is the
   * `OperationCanceledException` it throws when its cancellation token has fired.
   */
  datatype SaveOutcome = Saved | ColumnTooLong | DuplicateKey | Canceled

  function TripleOf(r: IdempotencyRecord): RequestTriple {
    RequestTriple(r.idempotencyKey, r.requestMethod, r.requestPath)
  }

  /**
   * `body?.Length > 8000 ? body[..8000] : body`, with lengths in UTF-16 code units:
   * a body that fits is kept, a longer one becomes its longest prefix that fits,
   * which is 8000 units long unless the cut splits a surrogate pair.
   */
  function Truncate(body: Option<string>): (r: Option<string>)
    ensures r.None? <==> body.None?
    ensures r.Some? ==> Utf16Length(r.value) <= MaxBodyLength && r.value <= body.value
    ensures r.Some? && Utf16Length(body.value) <= MaxBodyLength ==> r.value == body.value
    ensures r.Some? && Utf16Length(body.value) > MaxBodyLength ==>
              |r.value| < |body.value|
              && (Utf16Length(r.value) == MaxBodyLength
                  || (Utf16Length(r.value) == MaxBodyLength - 1 && Utf16Units(body.value[|r.value|]) == 2))
  {
    match body
    case None => None
    case Some(b) => if Utf16Length(b) > MaxBodyLength then Some(Utf16Prefix(b, MaxBodyLength)) else Some(b)
  }

  /** Truncation is idempotent: a stored body is stored unchanged again. */
  lemma TruncateIdempotent(body: Option<string>)
    ensures Truncate(Truncate(body)) == Truncate(body)
  {
  }

  /** `FirstOrDefault(r => r.IdempotencyKey == key && r.RequestMethod == method && r.RequestPath == path)` */
  function Find(rows: seq<IdempotencyRecord>, t: RequestTriple): (r: Option<IdempotencyRecord>)
    ensures r.None? <==> forall i :: 0 <= i < |rows| ==> TripleOf(rows[i]) != t
    ensures r.Some? ==> exists i :: 0 <= i < |rows| && rows[i] == r.value && TripleOf(rows[i]) == t
  {
    if rows == [] then None
    else if TripleOf(rows[0]) == t then Some(rows[0])
    else
      var r := Find(rows[1..], t);
      assert forall i :: 1 <= i < |rows| ==> rows[i] == rows[1..][i - 1];
      r
  }

  /** The unique index on (key, method, path). */
  predicate Unique(rows: seq<IdempotencyRecord>) {
    forall i, j :: 0 <= i < j < |rows| ==> TripleOf(rows[i]) != TripleOf(rows[j])
  }

  /** Every string of the record fits its column; `nvarchar` widths count UTF-16 code units. */
  predicate FitsColumns(r: IdempotencyRecord) {
    && Utf16Length(r.idempotencyKey) <= MaxKeyLength
    && Utf16Length(r.requestMethod) <= MaxMethodLength
    && Utf16Length(r.requestPath) <= MaxPathLength
    && (r.responseBody.Some? ==> Utf16Length(r.responseBody.value) <= MaxBodyLength)
    && (r.responseContentType.Some? ==> Utf16Length(r.responseContentType.value) <= MaxContentTypeLength)
  }

  predicate AllFit(rows: seq<IdempotencyRecord>) {
    forall i :: 0 <= i < |rows| ==> FitsColumns(rows[i])
  }

  /** The response a stored record gives back. */
  function ResponseOf(r: IdempotencyRecord): IdempotencyResponse {
    IdempotencyResponse(r.responseStatusCode, r.responseBody, r.responseContentType)
  }

  /** The row `StoreAsync` adds, persisting the content type the interface passes. */
  function NewRecord(id: Guid, t: RequestTriple, statusCode: int, body: Option<string>,
                     contentType: Option<string>, now: DateTime): (r: IdempotencyRecord)
    ensures TripleOf(r) == t
    ensures ResponseOf(r) == IdempotencyResponse(statusCode, Truncate(body), contentType)
  {
    IdempotencyRecord(id, t.key, t.httpMethod, t.path, statusCode, Truncate(body), contentType, now)
  }

  /**
   * The row `IdempotencyStore.StoreAsync` builds as written: it has no content-type
   * parameter, so the `ResponseContentType` column stays null.
   */
  function NewRecordAsWritten(id: Guid, t: RequestTriple, statusCode: int, body: Option<string>,
                              now: DateTime): (r: IdempotencyRecord)
    ensures TripleOf(r) == t && r.responseContentType.None?
  {
    IdempotencyRecord(id, t.key, t.httpMethod, t.path, statusCode, Truncate(body), None, now)
  }

  /** What `SaveChangesAsync` does with a new row: an over-long string or a repeated triple fails. */
  function SaveOutcomeOf(rows: seq<IdempotencyRecord>, r: IdempotencyRecord): (o: SaveOutcome)
    ensures o == Saved <==> FitsColumns(r) && Find(rows, TripleOf(r)).None?
    ensures o == DuplicateKey ==> Find(rows, TripleOf(r)).Some?
  {
    if !FitsColumns(r) then ColumnTooLong
    else if Find(rows, TripleOf(r)).Some? then DuplicateKey
    else Saved
  }

  /** Appending a row changes the lookup only for that row's triple, and only if it was absent. */
  lemma {:induction false} FindAppend(rows: seq<IdempotencyRecord>, r: IdempotencyRecord, t: RequestTriple)
    ensures Find(rows + [r], t) ==
            if Find(rows, t).Some? then Find(rows, t)
            else if TripleOf(r) == t then Some(r) else None
  {
    if rows == [] {
      assert rows + [r] == [r];
    } else {
      assert (rows + [r])[1..] == rows[1..] + [r];
      FindAppend(rows[1..], r, t);
    }
  }

  /** A table that met the index and the column widths still does after a successful save. */
  lemma SavePreservesTable(rows: seq<IdempotencyRecord>, r: IdempotencyRecord)
    requires Unique(rows) && AllFit(rows) && SaveOutcomeOf(rows, r) == Saved
    ensures Unique(rows + [r]) && AllFit(rows + [r])
  {
  }

  /** The body bound holds in every table the store can build: every stored body fits 8000 UTF-16 code units. */
  lemma StoredBodiesBounded(rows: seq<IdempotencyRecord>, t: RequestTriple)
    requires AllFit(rows)
    ensures Find(rows, t).Some? && Find(rows, t).value.responseBody.Some? ==>
              Utf16Length(Find(rows, t).value.responseBody.value) <= MaxBodyLength
  {
  }

  /** `IdempotencyStore` over the `IdempotencyRecords` table. */
  class IdempotencyStore {
    var records: seq<IdempotencyRecord>

    ghost predicate Valid()
      reads this
    {
      Unique(records) && AllFit(records)
    }

    constructor()
      ensures Valid() && records == []
    {
      records := [];
    }

    /** `GetAsync`: the saved response for exactly this triple, if any. Reads the table only. */
    function Get(key: string, httpMethod: string, path: string): (r: Option<IdempotencyResponse>)
      reads this
      ensures r.None? <==> forall i :: 0 <= i < |records| ==> TripleOf(records[i]) != RequestTriple(key, httpMethod, path)
      ensures r.Some? ==> exists i :: 0 <= i < |records| && TripleOf(records[i]) == RequestTriple(key, httpMethod, path)
                                      && ResponseOf(records[i]) == r.value
    {
      match Find(records, RequestTriple(key, httpMethod, path))
      case None => None
      case Some(rec) => Some(ResponseOf(rec))
    }

    /**
     * `StoreAsync`: adds one row with the truncated body, or fails without touching
     * the table when its cancellation token has fired (`cancelled`), a string is too
     * long for its column or the triple is taken.
     */
    method Store(id: Guid, key: string, httpMethod: string, path: string, statusCode: int,
                 body: Option<string>, contentType: Option<string>, now: DateTime, cancelled: bool)
      returns (outcome: SaveOutcome)
      requires Valid()
      modifies this
      ensures Valid()
      ensures cancelled ==> outcome == Canceled
      ensures !cancelled ==>
                outcome == SaveOutcomeOf(old(records),
                                         NewRecord(id, RequestTriple(key, httpMethod, path), statusCode, body, contentType, now))
      ensures outcome == Saved ==>
                records == old(records) + [NewRecord(id, RequestTriple(key, httpMethod, path), statusCode, body, contentType, now)]
      ensures outcome != Saved ==> records == old(records)
    {
      var row := NewRecord(id, RequestTriple(key, httpMethod, path), statusCode, body, contentType, now);
      if cancelled {
        return Canceled;
      }
      outcome := SaveOutcomeOf(records, row);
      if outcome == Saved {
        SavePreservesTable(records, row);
        records := records + [row];
      }
    }
  }

  /**
   * After a successful save of (k, m, p), `Get(k, m, p)` answers the saved status,
   * truncated body and content type; any other triple answers as before.
   */
  lemma StoreThenGet(rows: seq<IdempotencyRecord>, id: Guid, t: RequestTriple, statusCode: int,
                     body: Option<string>, contentType: Option<string>, now: DateTime, u: RequestTriple)
    requires SaveOutcomeOf(rows, NewRecord(id, t, statusCode, body, contentType, now)) == Saved
    ensures var rows' := rows + [NewRecord(id, t, statusCode, body, contentType, now)];
            && Find(rows', t).Some?
            && ResponseOf(Find(rows', t).value) == IdempotencyResponse(statusCode, Truncate(body), contentType)
            && (u != t ==> Find(rows', u) == Find(rows, u))
  {
    FindAppend(rows, NewRecord(id, t, statusCode, body, contentType, now), t);
    FindAppend(rows, NewRecord(id, t, statusCode, body, contentType, now), u);
  }

  /** A second save of the same triple fails with the unique-index violation and changes nothing. */
  lemma SecondStoreFails(rows: seq<IdempotencyRecord>, r1: IdempotencyRecord, r2: IdempotencyRecord)
    requires SaveOutcomeOf(rows, r1) == Saved && TripleOf(r2) == TripleOf(r1) && FitsColumns(r2)
    ensures SaveOutcomeOf(rows + [r1], r2) == DuplicateKey
  {
    FindAppend(rows, r1, TripleOf(r2));
  }
}
