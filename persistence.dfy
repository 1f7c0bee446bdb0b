/**
 * The idempotent-request protocol of src/idempotency/persistence.rs: `try_processing` claims a
 * (user, key) pair inside a fresh transaction, `save_response` records the response produced
 * by the claimant in that transaction, and `get_saved_response` replays a recorded response.
 *
 * Calls are modelled one at a time, against a single pool; database and connection failures
 * and the buffering of the body are not modelled. The iteration order of a response's header
 * map is a parameter (see ResponseCapture).
 */
module Persistence {
  import opened Wrappers
  import opened ResponseCapture
  import opened IdempotencyStore

  /** What the caller of `try_processing` must do next. */
  datatype NextAction =
    | StartProcessing(transaction: Transaction)
    | ReturnSavedResponse(response: HttpResponse)

  /** The decision `try_processing` takes, as a function of the committed table: process, with
      the write-set the claiming transaction holds, or replay a saved response. */
  datatype Decision = Process(claim: Store) | Replay(response: HttpResponse)

  function Decide(committed: Store, k: RowKey): (d: Result<Decision, Error>)
    ensures d.Ok? && d.value.Process? ==> k !in committed && d.value.claim == map[k := UnsetRow]
    ensures d.Ok? && d.value.Replay? ==> ReadSavedResponse(committed, k) == Ok(Some(d.value.response))
    ensures d.Err? ==> k in committed && (ReadSavedResponse(committed, k).Err? ==> ReadSavedResponse(committed, k).error == d.error)
  {
    if k !in committed then Ok(Process(map[k := UnsetRow]))
    else
      match ReadSavedResponse(committed, k)
      case Err(e) => Err(e)
      case Ok(None) => Err(NoSavedResponse)
      case Ok(Some(response)) => Ok(Replay(response))
  }

  // ---------------------------------------------------------------------------------------------
  // The operations

  /** `get_saved_response`: a read of the committed table outside any transaction. */
  method GetSavedResponse(pool: Pool, idempotencyKey: IdempotencyKey, userId: Uuid)
    returns (r: Result<Option<HttpResponse>, Error>)
    ensures r == ReadSavedResponse(pool.committed, KeyOf(userId, idempotencyKey))
  {
    var k := KeyOf(userId, idempotencyKey);
    if k !in pool.committed {
      return Ok(None);
    }
    var row := pool.committed[k];
    if row.statusCode.None? || row.headers.None? || row.body.None? {
      return Err(UnexpectedNull);
    }
    var status := DecodeStatus(row.statusCode.value);
    if status.Err? {
      return Err(status.error);
    }
    var headers := AppendHeaders(row.headers.value);
    return Ok(Some(HttpResponse(status.value, headers, row.body.value)));
  }

  /** The body of `save_response` up to its UPDATE: capture status, headers and body and write
      them to the row of (user, key) inside `transaction`. */
  method StageResponse(
    transaction: Transaction, idempotencyKey: IdempotencyKey, userId: Uuid,
    response: HttpResponse, order: seq<HeaderName>)
    requires transaction.open
    requires IsIterationOrder(order, response.headers)
    modifies transaction
    ensures transaction.open
    ensures transaction.pending ==
      StageUpdate(transaction.pool.committed, old(transaction.pending),
                  KeyOf(userId, idempotencyKey), FinalizedRow(response, order))
  {
    var statusCode := EncodeStatus(response.status);
    var headers := CaptureHeaders(response.headers, order);
    var row := Row(Some(statusCode), Some(headers), Some(response.body));
    var _ := transaction.UpdateResponse(KeyOf(userId, idempotencyKey), row);
  }

  /** `save_response` as written: it takes the transaction by value and returns without
      committing it, so the transaction is dropped, and rolled back, on return. */
  method SaveResponse(
    transaction: Transaction, idempotencyKey: IdempotencyKey, userId: Uuid,
    response: HttpResponse, order: seq<HeaderName>)
    returns (r: Result<HttpResponse, Error>)
    requires transaction.open
    requires IsIterationOrder(order, response.headers)
    modifies transaction
    ensures r == Ok(response)
    ensures !transaction.open && transaction.pending == map[]
    ensures transaction.pool.committed == old(transaction.pool.committed)
  {
    StageResponse(transaction, idempotencyKey, userId, response, order);
    r := Ok(HttpResponse(response.status, response.headers, response.body));
    transaction.Rollback();
  }

  /** `save_response` with the commit it evidently intends: the captured response becomes
      part of the committed table together with the claim. */
  method SaveResponseAndCommit(
    transaction: Transaction, idempotencyKey: IdempotencyKey, userId: Uuid,
    response: HttpResponse, order: seq<HeaderName>)
    returns (r: Result<HttpResponse, Error>)
    requires transaction.open
    requires IsIterationOrder(order, response.headers)
    modifies transaction, transaction.pool
    ensures r == Ok(response)
    ensures !transaction.open
    ensures transaction.pool.committed ==
      old(transaction.pool.committed) +
      StageUpdate(old(transaction.pool.committed), old(transaction.pending),
                  KeyOf(userId, idempotencyKey), FinalizedRow(response, order))
  {
    StageResponse(transaction, idempotencyKey, userId, response, order);
    transaction.Commit();
    r := Ok(HttpResponse(response.status, response.headers, response.body));
  }

  /** `try_processing`: claim the pair in a new transaction; if the claim inserted a row, hand
      the transaction to the caller, otherwise drop it and replay the saved response. */
  method TryProcessing(pool: Pool, idempotencyKey: IdempotencyKey, userId: Uuid)
    returns (r: Result<NextAction, Error>)
    ensures pool.committed == old(pool.committed)
    ensures match Decide(pool.committed, KeyOf(userId, idempotencyKey))
      case Ok(Process(claim)) =>
        && r.Ok? && r.value.StartProcessing?
        && fresh(r.value.transaction)
        && r.value.transaction.pool == pool
        && r.value.transaction.open
        && r.value.transaction.pending == claim
      case Ok(Replay(response)) => r == Ok(ReturnSavedResponse(response))
      case Err(e) => r == Err(e)
  {
    var transaction := pool.Begin();
    var insertedRows := transaction.InsertClaim(KeyOf(userId, idempotencyKey));
    if insertedRows > 0 {
      return Ok(StartProcessing(transaction));
    }
    var saved := GetSavedResponse(pool, idempotencyKey, userId);
    match saved
    case Err(e) => r := Err(e);
    case Ok(None) => r := Err(NoSavedResponse);
    case Ok(Some(response)) => r := Ok(ReturnSavedResponse(response));
    // the unused transaction goes out of scope here
    transaction.Rollback();
  }

  // ---------------------------------------------------------------------------------------------
  // Properties of the decision

  /** A claim starts processing exactly when no row exists for the pair, and then its
      transaction holds exactly one new row, with the response columns unset. */
  lemma ProcessExactlyWhenAbsent(committed: Store, k: RowKey)
    ensures Decide(committed, k).Ok? && Decide(committed, k).value.Process? <==> k !in committed
    ensures k !in committed ==> Decide(committed, k).value.claim == map[k := UnsetRow]
  {
  }

  /** Once a row for the pair is committed, the pair is never processed again: the claim
      replays the saved response, or fails. */
  lemma CommittedPairNeverProcessed(committed: Store, k: RowKey)
    requires k in committed
    ensures !(Decide(committed, k).Ok? && Decide(committed, k).value.Process?)
    ensures Decide(committed, k).Ok? ==> ReadSavedResponse(committed, k) == Ok(Some(Decide(committed, k).value.response))
  {
  }

  /** Calls made one at a time never meet the "we expected a saved response" error: it needs a
      row that is present for the INSERT and absent for the read that follows. */
  lemma NoSavedResponseNeedsConcurrency(committed: Store, k: RowKey)
    ensures Decide(committed, k) != Err(NoSavedResponse)
  {
    ReadNoneIffAbsent(committed, k);
  }

  /** A claim committed without a saved response makes every later claim for the pair fail. */
  lemma UnfinalizedCommitFails(committed: Store, k: RowKey)
    requires Decide(committed, k).Ok? && Decide(committed, k).value.Process?
    ensures Decide(committed + Decide(committed, k).value.claim, k) == Err(UnexpectedNull)
  {
    ReadNoneIffAbsent(committed + Decide(committed, k).value.claim, k);
  }

  /** Replay fidelity: once the claimant's transaction, holding the claim and the saved
      response, is committed, the next claim replays that response exactly. */
  lemma ClaimAfterCommittedSaveReplays(
    committed: Store, k: RowKey, response: HttpResponse, order: seq<HeaderName>)
    requires Decide(committed, k).Ok? && Decide(committed, k).value.Process?
    requires IsIterationOrder(order, response.headers)
    ensures var staged := StageUpdate(committed, Decide(committed, k).value.claim, k, FinalizedRow(response, order));
            Decide(committed + staged, k) == Ok(Replay(response))
  {
    var claim := Decide(committed, k).value.claim;
    assert claim == map[k := UnsetRow];
    var row := FinalizedRow(response, order);
    CommitStagedClaim(committed, k, row);
    var after := committed[k := row];
    ReadFinalizedRow(committed, k, response, order);
    assert ReadSavedResponse(after, k) == Ok(Some(response));
  }

  /** Committing a claim whose row was then updated writes exactly that row. */
  lemma CommitStagedClaim(committed: Store, k: RowKey, row: Row)
    ensures committed + StageUpdate(committed, map[k := UnsetRow], k, row) == committed[k := row]
  {
    assert StageUpdate(committed, map[k := UnsetRow], k, row) == map[k := UnsetRow][k := row];
    assert map[k := UnsetRow][k := row] == map[k := row];
  }

  // ---------------------------------------------------------------------------------------------
  // Retries, call by call

  /** As written, a retry after a completed first request starts processing again: the saved
      response was rolled back with the dropped transaction, claim included. */
  method RetryAfterSaveAsWritten(
    committed: Store, idempotencyKey: IdempotencyKey, userId: Uuid,
    response: HttpResponse, order: seq<HeaderName>)
    returns (first: Result<NextAction, Error>, second: Result<NextAction, Error>)
    requires KeyOf(userId, idempotencyKey) !in committed
    requires IsIterationOrder(order, response.headers)
    ensures first.Ok? && first.value.StartProcessing?
    ensures second.Ok? && second.value.StartProcessing?
  {
    var pool := new Pool(committed);
    first := TryProcessing(pool, idempotencyKey, userId);
    var _ := SaveResponse(first.value.transaction, idempotencyKey, userId, response, order);
    second := TryProcessing(pool, idempotencyKey, userId);
  }

  /** With the commit, a retry after a completed first request replays its response. */
  method RetryAfterSaveAndCommit(
    committed: Store, idempotencyKey: IdempotencyKey, userId: Uuid,
    response: HttpResponse, order: seq<HeaderName>)
    returns (first: Result<NextAction, Error>, second: Result<NextAction, Error>)
    requires KeyOf(userId, idempotencyKey) !in committed
    requires IsIterationOrder(order, response.headers)
    ensures first.Ok? && first.value.StartProcessing?
    ensures second == Ok(ReturnSavedResponse(response))
  {
    var pool := new Pool(committed);
    first := TryProcessing(pool, idempotencyKey, userId);
    var saved := SaveResponseAndCommit(first.value.transaction, idempotencyKey, userId, response, order);
    ClaimAfterCommittedSaveReplays(committed, KeyOf(userId, idempotencyKey), response, order);
    second := TryProcessing(pool, idempotencyKey, userId);
  }

  /** A claimant that rolls back leaves the pair free: the retry processes it again. */
  method RetryAfterRollback(committed: Store, idempotencyKey: IdempotencyKey, userId: Uuid)
    returns (first: Result<NextAction, Error>, second: Result<NextAction, Error>)
    requires KeyOf(userId, idempotencyKey) !in committed
    ensures first.Ok? && first.value.StartProcessing?
    ensures second.Ok? && second.value.StartProcessing?
    ensures second.value.transaction.pending == map[KeyOf(userId, idempotencyKey) := UnsetRow]
  {
    var pool := new Pool(committed);
    first := TryProcessing(pool, idempotencyKey, userId);
    first.value.transaction.Rollback();
    second := TryProcessing(pool, idempotencyKey, userId);
  }
}
