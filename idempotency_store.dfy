/**
 * The `idempotency` table of src/idempotency/persistence.rs and the transactions it is
 * written through.
 *
 * The table is a map from its primary key (user_id, idempotency_key) to the three response
 * columns, each NULL until a response is saved; `created_at` is not modelled. A `Pool` holds
 * the committed table. A `Transaction` layers its own pending writes over it: statements run
 * inside the transaction see the committed table with that layer laid over it and change only
 * the layer, `Commit` merges it into the committed table, and `Rollback`, which is also what dropping an uncommitted sqlx transaction does,
 * discards it.
 */
module IdempotencyStore {
  import opened Wrappers
  import opened ResponseCapture

  /** A 128-bit UUID. */
  newtype Uuid = x: int | 0 <= x < 0x1_0000_0000_0000_0000_0000_0000_0000_0000

  /** An already validated idempotency key; its validation rule is not part of this model. */
  datatype IdempotencyKey = IdempotencyKey(value: string) {
    function AsRef(): string {
      value
    }
  }

  /** The table's primary key. */
  datatype RowKey = RowKey(userId: Uuid, idempotencyKey: string)

  function KeyOf(userId: Uuid, key: IdempotencyKey): RowKey {
    RowKey(userId, key.AsRef())
  }

  /** The response columns of one row; `None` is SQL NULL. */
  datatype Row = Row(
    statusCode: Option<I16>,
    headers: Option<seq<HeaderPairRecord>>,
    body: Option<Bytes>)

  /** The row the claiming INSERT creates: response columns unset. */
  const UnsetRow := Row(None, None, None)

  type Store = map<RowKey, Row>

  /** The errors the protocol reports (sqlx and connection failures are not modelled). The
      values `NegativeStatus` and `InvalidStatusCode` carry are the model's own: the source's
      `TryFromIntError` and `InvalidStatusCode` carry no value. */
  datatype Error =
    | UnexpectedNull              // a forced non-null response column read back NULL
    | NegativeStatus(stored: I16) // `u16::try_from` refused the stored status
    | InvalidStatusCode(code: U16) // `StatusCode::from_u16` refused it
    | NoSavedResponse             // "We expected a saved response, we didn't find it"

  // ---------------------------------------------------------------------------------------------
  // The status column

  /** `as i16` on a `u16`: same bits, so codes from 0x8000 up wrap to negative values. */
  function AsI16(u: U16): (r: I16)
    ensures (r as int + 0x1_0000) % 0x1_0000 == u as int
  {
    if u < 0x8000 then u as int as I16 else (u as int - 0x1_0000) as I16
  }

  /** What `save_response` stores for a status: `status.as_u16() as i16`. */
  function EncodeStatus(status: StatusCode): (v: I16)
    ensures DecodeStatus(v) == Ok(status)
  {
    AsI16(status)
  }

  /** What `get_saved_response` makes of the stored value:
      `StatusCode::from_u16(value.try_into()?)?`. */
  function DecodeStatus(v: I16): (r: Result<StatusCode, Error>)
    ensures r.Ok? ==> r.value as int == v as int
    ensures r.Err? && v < 0 ==> r.error == NegativeStatus(v)
    ensures r.Err? && v >= 0 ==> r.error.InvalidStatusCode? && r.error.code as int == v as int
  {
    if v < 0 then Err(NegativeStatus(v))
    else
      var u := v as int as U16;
      if 100 <= u < 1000 then Ok(u) else Err(InvalidStatusCode(u))
  }

  /** A stored value reads back as a status exactly when it lies in 100..=999, as that status;
      negative values fail the conversion to u16. */
  lemma DecodeStatusAccepts(v: I16)
    ensures DecodeStatus(v).Ok? <==> 100 <= v < 1000
    ensures DecodeStatus(v).Ok? ==> DecodeStatus(v).value as int == v as int
    ensures v < 0 ==> DecodeStatus(v) == Err(NegativeStatus(v))
  {
  }

  /** Storing any u16 through the wrapping cast and reading it back yields a status exactly for
      the valid codes, and then the same code; in particular every status round-trips. */
  lemma StoredStatusRoundTrip(u: U16)
    ensures DecodeStatus(AsI16(u)).Ok? <==> 100 <= u < 1000
    ensures 100 <= u < 1000 ==> DecodeStatus(AsI16(u)) == Ok(u)
  {
  }

  // ---------------------------------------------------------------------------------------------
  // Rows

  /** The row `save_response` writes for `response`, with its headers captured in `order`. */
  function FinalizedRow(response: HttpResponse, order: seq<HeaderName>): (row: Row)
    requires IsIterationOrder(order, response.headers)
    ensures row.statusCode.Some? && row.headers.Some? && row.body.Some?
    ensures DecodeStatus(row.statusCode.value) == Ok(response.status)
    ensures Rebuild(row.headers.value) == response.headers
    ensures row.body.value == response.body
  {
    HeaderRoundTrip(response.headers, order);
    Row(Some(EncodeStatus(response.status)), Some(Entries(response.headers, order)), Some(response.body))
  }

  /** The pending layer after `UPDATE ... WHERE` key `k`: the visible row, if any, gets `row`;
      no row matching is not an error. */
  function StageUpdate(committed: Store, pending: Store, k: RowKey, row: Row): (r: Store)
    ensures k in committed + pending ==> k in r && r[k] == row
    ensures k !in committed + pending ==> r == pending
    ensures forall other :: other in r && other != k ==> other in pending && r[other] == pending[other]
    ensures forall other :: other in pending && other != k ==> other in r
  {
    if k in committed + pending then pending[k := row] else pending
  }

  /** The UPDATE changes the row of `k` and no other, through the pending layer only, and
      when no row of `k` is visible it changes nothing (zero affected rows is not checked). */
  lemma UpdateTouchesOnlyItsRow(committed: Store, pending: Store, k: RowKey, row: Row)
    ensures forall other :: other != k ==>
              (other in StageUpdate(committed, pending, k, row) <==> other in pending) &&
              (other in pending ==> StageUpdate(committed, pending, k, row)[other] == pending[other])
    ensures k in committed + pending ==> (committed + StageUpdate(committed, pending, k, row))[k] == row
    ensures k !in committed + pending ==>
              committed + StageUpdate(committed, pending, k, row) == committed + pending
  {
  }

  /** `get_saved_response` run against `store`. */
  function ReadSavedResponse(store: Store, k: RowKey): (r: Result<Option<HttpResponse>, Error>)
    ensures r == Ok(None) <==> k !in store
    ensures r.Ok? && r.value.Some? ==>
              && k in store
              && store[k].statusCode == Some(EncodeStatus(r.value.value.status))
              && store[k].headers.Some? && r.value.value.headers == Rebuild(store[k].headers.value)
              && store[k].body == Some(r.value.value.body)
  {
    if k !in store then Ok(None)
    else
      var row := store[k];
      if row.statusCode.None? || row.headers.None? || row.body.None? then Err(UnexpectedNull)
      else
        match DecodeStatus(row.statusCode.value)
        case Err(e) => Err(e)
        case Ok(status) => Ok(Some(HttpResponse(status, Rebuild(row.headers.value), row.body.value)))
  }

  /** The read yields no response exactly when there is no row; a row whose response columns
      are unset is an error, never a response. */
  lemma ReadNoneIffAbsent(store: Store, k: RowKey)
    ensures ReadSavedResponse(store, k) == Ok(None) <==> k !in store
    ensures k in store && (store[k].statusCode.None? || store[k].headers.None? || store[k].body.None?) ==>
              ReadSavedResponse(store, k) == Err(UnexpectedNull)
  {
  }

  /** Replay fidelity at the row level: reading back the row written for `response` rebuilds
      `response` exactly, status, headers and body. */
  lemma ReadFinalizedRow(store: Store, k: RowKey, response: HttpResponse, order: seq<HeaderName>)
    requires IsIterationOrder(order, response.headers)
    ensures ReadSavedResponse(store[k := FinalizedRow(response, order)], k) == Ok(Some(response))
  {
    StoredStatusRoundTrip(response.status);
    HeaderRoundTrip(response.headers, order);
  }

  // ---------------------------------------------------------------------------------------------
  // The pool and its transactions

  class Pool {
    /** The committed contents of the table. */
    var committed: Store

    constructor (initial: Store)
      ensures committed == initial
    {
      committed := initial;
    }

    /** `pool.begin()`. */
    method Begin() returns (transaction: Transaction)
      ensures fresh(transaction)
      ensures transaction.pool == this && transaction.open && transaction.pending == map[]
    {
      transaction := new Transaction(this);
    }
  }

  class Transaction {
    const pool: Pool
    /** Rows written by this transaction and not yet committed. */
    var pending: Store
    /** Neither committed nor rolled back yet. */
    var open: bool

    constructor (pool: Pool)
      ensures this.pool == pool && open && pending == map[]
    {
      this.pool := pool;
      pending := map[];
      open := true;
    }

    /** The table as statements inside this transaction see it. */
    function View(): Store
      reads this, pool
    {
      pool.committed + pending
    }

    /** `INSERT INTO idempotency ... ON CONFLICT DO NOTHING`, returning the rows affected. */
    method InsertClaim(k: RowKey) returns (inserted: nat)
      requires open
      modifies this
      ensures open
      ensures inserted == if k in old(View()) then 0 else 1
      ensures pending == if k in old(View()) then old(pending) else old(pending)[k := UnsetRow]
    {
      if k in View() {
        inserted := 0;
      } else {
        pending := pending[k := UnsetRow];
        inserted := 1;
      }
    }

    /** `UPDATE idempotency SET <response columns> WHERE` key `k`, returning the rows affected. */
    method UpdateResponse(k: RowKey, row: Row) returns (updated: nat)
      requires open
      modifies this
      ensures open
      ensures updated == if k in old(View()) then 1 else 0
      ensures pending == StageUpdate(pool.committed, old(pending), k, row)
    {
      updated := if k in View() then 1 else 0;
      pending := StageUpdate(pool.committed, pending, k, row);
    }

    /** `transaction.commit()`. */
    method Commit()
      requires open
      modifies this, pool
      ensures !open && pending == map[]
      ensures pool.committed == old(pool.committed) + old(pending)
    {
      pool.committed := pool.committed + pending;
      pending := map[];
      open := false;
    }

    /** `transaction.rollback()`, and what dropping an open transaction does. */
    method Rollback()
      modifies this
      ensures !open && pending == map[]
    {
      pending := map[];
      open := false;
    }
  }
}
