# zero2prod: idempotent requests and subscriber names, in Dafny

This project models two parts of the zero2prod newsletter service and proves properties of them.

- **The idempotent-request protocol** of `src/idempotency/persistence.rs`. The `idempotency`
  table maps a (user id, idempotency key) pair to three response columns: status code, header
  records and body. Each column is NULL until a response is saved.
  - `try_processing` claims a pair with `INSERT ... ON CONFLICT DO NOTHING` inside a new
    transaction. If the insert added a row, it hands that transaction to the caller
    (`StartProcessing`). Otherwise it reads the saved response and returns it
    (`ReturnSavedResponse`), or fails.
  - `save_response` flattens a response into a status, a list of `(name, bytes)` header
    records and the body bytes. It writes them to the claimed row inside the transaction and
    returns the response.
  - `get_saved_response` rebuilds a response from a row.
- **The subscriber-name validator** `SubscriberName::parse` and its `AsRef<str>` accessor. It
  appears twice: in `src/domain/subscriber_name.rs`, where it returns a `Result`, and in
  `src/domain.rs`, an older copy that panics.

Files and modules:

- `wrappers.dfy` (`Wrappers`): `Option` and `Result`.
- `subscriber_name.dfy` (`SubscriberNames`): trimming, the three rejection rules, `Parse` and
  the unit tests' verdicts.
- `domain.dfy` (`Domain`): the panicking copy. A panic is an outcome that carries its message,
  so the two copies can be compared.
- `response_capture.dfy` (`ResponseCapture`): HTTP responses, header maps, header records, the
  capture loop and the rebuild loop.
- `idempotency_store.dfy` (`IdempotencyStore`): rows, the status column codec, and the `Pool`
  and `Transaction` classes.
- `persistence.dfy` (`Persistence`): the three operations, the claim decision and the
  properties of the protocol.

How the database is modelled:

- A `Pool` holds the committed table.
- A `Transaction` holds its own pending write-set layered over that table. Statements inside
  the transaction see the committed table with the write-set laid over it, and change only
  the write-set.
- `Commit` merges the write-set into the committed table.
- `Rollback` discards it. Dropping an uncommitted sqlx transaction also rolls it back, so the
  model calls `Rollback` wherever the source lets an open transaction go out of scope.

How headers are modelled:

- actix-web's `HeaderMap` keeps a list of values per header name, in append order.
- It iterates name by name, in hash-table order, and yields all values of a name together.
- The model is a map from each name to its non-empty value list.
- The hash iteration order is a parameter `order` that lists every name exactly once. The
  header round trip is proved for every such order.

How graphemes are modelled:

- Grapheme segmentation (from the `unicode_segmentation` crate) is not reimplemented.
- `Parse` receives the segmentation of its input as a parameter.
- The parameter must satisfy what every segmentation satisfies: its parts are non-empty and
  concatenate to the input.
- A `SubscriberName` keeps the segmentation it was checked against as a ghost field. The
  names in circulation form a subset type whose members satisfy the validity predicate, and
  both `parse` copies return that type.
- `char::is_whitespace`, and therefore `str::trim`, is written out exactly, as the Unicode
  White_Space character list.

The model follows the code as written:

- A row that exists but has no saved response is an error when read. The read forces the
  response columns to be non-null.
- `save_response` does not commit (see Findings).
- The idempotency-key validation rule is not part of this model. The key is an opaque string.

## Model

| member | source | states |
|---|---|---|
| SubscriberNames.Parse | src/domain/subscriber_name.rs:22-44 | succeeds only on a name that satisfies the validity predicate, wrapping the input unchanged in a name of the valid-names type; fails only on one that does not, with the message "<input> is not a valid subscriber name." |
| SubscriberNames.SubscriberName.AsRef | src/domain/subscriber_name.rs:47-52 | read-only access cannot break the invariant: on every name in circulation the string handed back is not blank, has at most 256 graphemes under the segmentation it was checked against, and contains no forbidden character |
| SubscriberNames.TrimStart | src/domain/subscriber_name.rs:25 | removes exactly the longest prefix of whitespace characters and keeps the rest of the input |
| SubscriberNames.TrimEnd | src/domain/subscriber_name.rs:25 | removes exactly the longest suffix of whitespace characters and keeps the rest of the input |
| SubscriberNames.TrimEmptyIffAllWhitespace | src/domain/subscriber_name.rs:25 | `s.trim().is_empty()` holds exactly when every character of `s` is whitespace (so also for the empty string) |
| SubscriberNames.GraphemeCountAtMostLength | src/domain/subscriber_name.rs:32 | a segmentation has at most as many graphemes as the text has characters, and at least one when the text is non-empty |
| SubscriberNames.ShortNamesAreNeverTooLong | src/domain/subscriber_name.rs:32 | a name of at most 256 characters never breaks the 256-grapheme limit |
| SubscriberNames.ParseRejectsBlank | src/domain/subscriber_name.rs:25-40 | empty or whitespace-only input is rejected with the message "<input> is not a valid subscriber name." |
| SubscriberNames.ParseLengthBoundary | src/domain/subscriber_name.rs:32-43 | more than 256 graphemes is rejected; a name of exactly 256 graphemes that breaks no other rule is accepted unchanged |
| SubscriberNames.ParseRejectsForbidden | src/domain/subscriber_name.rs:36-40 | any one of `/ ( ) " < > \ { }` anywhere in the input makes it rejected |
| SubscriberNames.ParseAcceptsIffValid | src/domain/subscriber_name.rs:22-52 | accepted if and only if the input is not blank, has at most 256 graphemes and has no forbidden character; on success `as_ref` returns the input unchanged and it satisfies the validity predicate; on failure the message is the input followed by " is not a valid subscriber name." |
| SubscriberNames.LengthTestVerdicts | src/domain/subscriber_name.rs:60-70 | 256 copies of "ë" are accepted and 257 copies of "a" are rejected |
| SubscriberNames.BlankTestVerdicts | src/domain/subscriber_name.rs:72-82 | " " and "" are rejected |
| SubscriberNames.ForbiddenTestVerdicts | src/domain/subscriber_name.rs:84-90 | each forbidden character on its own is rejected |
| SubscriberNames.OrdinaryNameTestVerdict | src/domain/subscriber_name.rs:92-96 | "Ursula Le Guin" is accepted |
| Domain.Parse | src/domain.rs:13-35 | returns only for a name that satisfies the validity predicate, wrapping the input unchanged in a name of the valid-names type; panics only on one that does not, with the message "<input> is not a valid subscriber name." |
| Domain.SubscriberName.AsRef | src/domain.rs:38-44 | read-only access cannot break the invariant: on every name in circulation the string handed back is not blank, has at most 256 graphemes under the segmentation it was checked against, and contains no forbidden character |
| Domain.PanicsExactlyOnInvalidInput | src/domain.rs:13-31 | the panicking `parse` panics if and only if the input is blank, has more than 256 graphemes or contains a forbidden character, with the message "<input> is not a valid subscriber name." |
| Domain.ReturnedNameIsInputAndValid | src/domain.rs:32-44 | when no rule is broken it returns the newtype around the input unchanged; `as_ref` gives exactly the input back, and every returned name satisfies the validity predicate |
| Domain.AgreesWithResultParse | src/domain.rs:13-35 | the panicking copy returns exactly where the `Result` copy succeeds, with the same string, and panics with the message the other returns as its error |
| ResponseCapture.CaptureHeaders | src/idempotency/persistence.rs:79-87 | the push loop yields one record per entry the header map's iterator produces, name by name in iteration order, every value of a name in order |
| ResponseCapture.AppendHeaders | src/idempotency/persistence.rs:39-42 | appending the stored records one by one to a fresh builder yields the header map `Rebuild` describes |
| ResponseCapture.EntriesKeepEveryValue | src/idempotency/persistence.rs:79-87 | for every header name, the captured records carry exactly that name's values, in order, repeats kept; names not in the map get no record |
| ResponseCapture.RebuildCollectsValues | src/idempotency/persistence.rs:39-42 | after replaying records, every name holds exactly the values of the records with that name, in record order |
| ResponseCapture.HeaderRoundTrip | src/idempotency/persistence.rs:39-87 | rebuilding from the captured records gives back the original header map (names, values, value order, repeated names), whatever the iteration order |
| ResponseCapture.RepeatedNameExample | src/idempotency/persistence.rs:79-87 | two `set-cookie` values are captured as two records in order and both come back |
| IdempotencyStore.AsI16 | src/idempotency/persistence.rs:78 | the `as i16` cast keeps the 16 bits of the u16: the result read as two's complement is the input |
| IdempotencyStore.EncodeStatus | src/idempotency/persistence.rs:78 | the value stored for a status code decodes back to that same status code |
| IdempotencyStore.DecodeStatus | src/idempotency/persistence.rs:38 | a decoded status is the stored number; a negative value fails the u16 conversion; any other value outside 100..=999 fails `from_u16` (the model's errors carry the offending value, the source's carry none) |
| IdempotencyStore.FinalizedRow | src/idempotency/persistence.rs:75-105 | the row written for a response has no NULL column; its status decodes to the response's status, its header records rebuild the response's header map, and its body is the response's body |
| IdempotencyStore.StageUpdate | src/idempotency/persistence.rs:91-108 | the visible row of the key gets the new columns; with no visible row the write-set is unchanged; every other pending row stays, with its entry, and no other row is added |
| IdempotencyStore.ReadSavedResponse | src/idempotency/persistence.rs:20-46 | returns no response exactly when the pair has no row; a response it returns comes from a row holding that response's encoded status, header records that rebuild its headers, and its body |
| IdempotencyStore.DecodeStatusAccepts | src/idempotency/persistence.rs:38 | a stored status reads back as a status code exactly when it lies in 100..=999, as that code; a negative stored value fails the conversion to u16 |
| IdempotencyStore.StoredStatusRoundTrip | src/idempotency/persistence.rs:78 | a u16 stored through the wrapping `as i16` cast reads back as a status exactly when it is in 100..=999, and then as the same code; so every status code round-trips |
| IdempotencyStore.UpdateTouchesOnlyItsRow | src/idempotency/persistence.rs:91-108 | the UPDATE changes the row of (user, key) and no other, only in the transaction's write-set, and changes nothing without failing when no such row is visible |
| IdempotencyStore.ReadNoneIffAbsent | src/idempotency/persistence.rs:20-46 | the read returns no response exactly when no row exists for the pair; a row whose response columns are unset is an error, never a response |
| IdempotencyStore.ReadFinalizedRow | src/idempotency/persistence.rs:37-43 | reading the row written for a response rebuilds that response exactly: status, header map and body bytes |
| IdempotencyStore.Pool.Begin | src/idempotency/persistence.rs:132 | a new transaction on the pool, open, with an empty write-set |
| IdempotencyStore.Transaction.InsertClaim | src/idempotency/persistence.rs:133-148 | inserts a row with unset response columns into the write-set and reports 1 if no row is visible for the key; otherwise inserts nothing and reports 0 |
| IdempotencyStore.Transaction.UpdateResponse | src/idempotency/persistence.rs:91-108 | sets the response columns of the visible row of the key in the write-set and reports 1; reports 0 and changes nothing when there is no such row |
| IdempotencyStore.Transaction.Rollback | src/idempotency/persistence.rs:112 | closes the transaction and discards its write-set, as dropping it does |
| Persistence.Decide | src/idempotency/persistence.rs:132-157 | processes only a pair with no committed row, claiming it with a single row with unset response columns; replays only the response the read returns; fails only for a pair with a row, with the read's own error when the read fails |
| Persistence.GetSavedResponse | src/idempotency/persistence.rs:15-47 | returns what reading the committed table gives for the pair: nothing, the rebuilt response, or the column or status error |
| Persistence.StageResponse | src/idempotency/persistence.rs:75-108 | writes the captured status, header records and body to the pair's row in the transaction's write-set, and nowhere else |
| Persistence.SaveResponse | src/idempotency/persistence.rs:69-113 | returns the response it was given; the transaction ends closed and its writes, claim included, are discarded; the committed table is unchanged |
| Persistence.SaveResponseAndCommit | src/idempotency/persistence.rs:69-113 | returns the response it was given; the committed table gains the transaction's write-set with the pair's row holding the captured response |
| Persistence.TryProcessing | src/idempotency/persistence.rs:127-158 | never changes the committed table; an absent pair yields StartProcessing with a fresh open transaction holding exactly the claim row; a present pair yields the saved response or the read's error, or "we expected a saved response" when the read finds nothing |
| Persistence.ProcessExactlyWhenAbsent | src/idempotency/persistence.rs:132-151 | a claim starts processing if and only if no row exists for the pair, and its transaction then holds exactly one row, with unset response columns |
| Persistence.CommittedPairNeverProcessed | src/idempotency/persistence.rs:150-157 | once a row for the pair is committed, a claim never starts processing; if it succeeds it returns the saved response |
| Persistence.NoSavedResponseNeedsConcurrency | src/idempotency/persistence.rs:153-155 | calls made one at a time never meet the "we expected a saved response" error |
| Persistence.UnfinalizedCommitFails | src/idempotency/persistence.rs:20-35 | committing a claim without a saved response makes every later claim for the pair fail on the NULL columns |
| Persistence.ClaimAfterCommittedSaveReplays | src/idempotency/persistence.rs:127-158 | after the claimant's transaction, holding the claim and the saved response, is committed, the next claim replays exactly that response |
| Persistence.RetryAfterSaveAsWritten | src/idempotency/persistence.rs:107-112 | as written, claim, save and retry: the retry starts processing again instead of replaying |
| Persistence.RetryAfterSaveAndCommit | src/idempotency/persistence.rs:107-112 | with the commit, claim, save and retry: the retry returns exactly the saved response |
| Persistence.RetryAfterRollback | src/idempotency/persistence.rs:132-151 | a claimant that rolls back leaves the pair free: the retry starts processing with a fresh claim row |

## Findings

| source | as written | input that shows it | evidently intended | confidence | as-written member | corrected member |
|---|---|---|---|---|---|---|
| src/idempotency/persistence.rs:107-112 | `save_response` runs the UPDATE in the transaction it is handed and returns without committing it. The transaction is dropped and rolled back, and the claim row goes with it. | A fresh (user, key) pair. `try_processing` returns StartProcessing, then `save_response` returns Ok. A retry with the same pair gets StartProcessing again, not the saved response, so the side effects would run twice. | Commit the transaction after the UPDATE, so the claim and the saved response become visible together. | high; not executed | Persistence.RetryAfterSaveAsWritten | Persistence.SaveResponseAndCommit |

The replay property of the corrected version is proved in `Persistence.ClaimAfterCommittedSaveReplays`
and `Persistence.RetryAfterSaveAndCommit`.

## Left out

- Concurrency. Real Postgres blocks an INSERT on a conflicting uncommitted insert, and requests
  can race each other. The model does not block anything. A second `try_processing` for the
  same pair, made while the first claimant's transaction is still open, sees only the
  committed table, so it also returns StartProcessing; Postgres would make it wait for the
  first transaction instead. The properties proved here are about calls made one at a time,
  each claimant's transaction ending before the next call. So the "we expected a saved
  response" error is modelled, but `Persistence.NoSavedResponseNeedsConcurrency` shows that it
  cannot occur in the model.
- Database and connection failures: the `?` on `pool.begin()`, `execute` and `fetch_optional`.
  They come from the network and the database engine.
- Body buffering. The body is an already-buffered byte sequence. The `to_bytes` error path
  (streamed bodies) is not modelled.
- The `created_at = now()` column (a clock), `dbg!`, and the sqlx type mapping (`PgHasArrayType`).
- Invalid header names or values on replay. If `append_header` received an invalid stored name
  or value, the builder would produce an error response. Stored records are always written from
  valid headers, so header names are plain strings here.
- The `HeaderMap` hash iteration order, which the program does not control. It is a parameter.
- The validation rule of `IdempotencyKey`. Its source is not part of this model, so the key is
  an opaque string compared by equality.
- Grapheme segmentation. It is a parameter constrained by what every segmentation satisfies.
  So the 256-grapheme rule is exact, but "ë" counts as one grapheme only under the
  segmentation the caller supplies.
- Rust's move semantics for the transaction. `StartProcessing` hands over a transaction that
  can be used once. The model uses an `open` flag and requires it to be set. Dropping is
  modelled as an explicit `Rollback` call.
- The boxing of the body type (`map_into_boxed_body`). A response is equal to itself whatever
  its body type.
- The route handler `publish_newsletter` (`src/routes/admin/newsletter/post.rs`). It only parses
  the key and never calls this protocol. The other routes, server start-up, configuration and
  the integration tests are not part of this model.
