# Cloud Bigtable data client core, modelled in Dafny

This project models the sequential logic of the Python Cloud Bigtable data client.
It covers:

- **ReadRows chunk merging.** The server sends a row stream as `CellChunk`s, split across responses. Two mergers rebuild rows from them:
  - the three-state machine `AWAITING_NEW_ROW` / `AWAITING_NEW_CELL` / `AWAITING_CELL_VALUE`;
  - the loop-based `merge_rows` with its key/limit gate `chunk_stream`.
- **Retries of a read.** On retry the row set is revised past the last seen key, in four variants. Rows are deduplicated, and `rows_limit` is accounted across attempts.
- **MutateRows bookkeeping.** Each entry is active or terminal and keeps its own error list. Errors are reported as exception groups with formatted messages.
- **Small pieces:**
  - timeout arithmetic and validation;
  - the routing header;
  - instance registration;
  - the `ReadRowsIterator` error latch;
  - the `ReadRowsQuery`, `IncrementRule` and `AppendValueRule` builders;
  - `CellResponse` integer decoding, ordering and equality.
- **Channel pools:**
  - round-robin selection, slot replacement and the stub cache of the fixed pool;
  - the resize rule of the dynamic pool;
  - the in-flight RPC counters of a tracked channel.
- **Metrics:**
  - the four-state lifecycle of an operation metric;
  - how the exporter groups series by project and writes them in batches of at most 200.

Row keys and byte strings are `seq<Byte>` (0..255). `Keys.Less` is Python's `bytes` order: lexicographic, with a proper prefix first.

Each operation is a pure function over immutable datatypes. Exceptions become `Result`/`Option` values, or a `failure` field next to the output produced before the raise. The retry wrappers of `google.api_core` become a given sequence of attempt outcomes. The clock is an integer input.

Where a piece of code does not do what its own documentation, tests or callers evidently intend, it is modelled twice, selected by an `asWritten` flag or written as two members:

- the behaviour as written, with a concrete counterexample;
- the intended behaviour, with the intended property proved.

The rest of the model uses the intended version (see "## Findings").

Where the code and its tests disagree, the code is followed:

- `add_rows` stores `str` keys unencoded.
- `set_limit` accepts a negative limit.
- Cells keep their given order; there is no reverse-chronological sort.
- `CellResponse.__lt__` (google/cloud/bigtable/row_response.py:131-135) orders equal-family, equal-qualifier cells by ascending timestamp. This goes against the reverse chronological order that `get_cells` documents (row_response.py:49-53) and that `test_ordering` in tests/unit/test_row_response.py:363-383 asserts. `RowResponse.CellLess` follows the code; the documented order is `RowResponse.CellLessNative`, and the mismatch is a row under "## Findings".
- `_remove_instance_registration` (google/cloud/bigtable/_sync_autogen.py:544-556) is documented (line 547) to return False while other tables still use the instance, and True only when the instance is removed. The code (lines 551-554) returns True whenever the owner was registered, even when other owners keep the instance registered. `Registration.RemoveOwner` follows the code, and `Registration.RemoveSharedOwnerAnswersTrue` exhibits the difference.

## Model

| member | source | states |
|---|---|---|
| StateMachineMerger.StartRow | google/cloud/bigtable/_row_merger.py:586-595 | a row can start only from an empty builder; it records the key with no cells yet |
| StateMachineMerger.StartCell | google/cloud/bigtable/_row_merger.py:597-614 | a cell needs a non-empty family, a qualifier and a started row; it opens with an empty value buffer and keeps the row's completed cells |
| StateMachineMerger.AddCellValue | google/cloud/bigtable/_row_merger.py:616-620 | appending a value piece needs an open cell and concatenates onto its buffer |
| StateMachineMerger.FinishCell | google/cloud/bigtable/_row_merger.py:622-629 | closing a cell appends it, with the buffered value, to the completed cells |
| StateMachineMerger.FinishRow | google/cloud/bigtable/_row_merger.py:631-637 | finishing returns the row of the current key with all completed cells and empties the builder |
| StateMachineMerger.ResetRow | google/cloud/bigtable/_row_merger.py:353-363 | a reset discards the partial row and keeps the last seen key |
| StateMachineMerger.CompleteRow | google/cloud/bigtable/_row_merger.py:417-425 | a completed row sets the last seen key to its key and returns to AWAITING_NEW_ROW |
| StateMachineMerger.NewRow | google/cloud/bigtable/_row_merger.py:469-484 | a new-row chunk with an empty key is rejected; otherwise the row starts at that key |
| StateMachineMerger.NewCell | google/cloud/bigtable/_row_merger.py:486-526 | these are rejected: a family without a qualifier; a qualifier with no family known; a different row key. The next state depends on `value_size` |
| StateMachineMerger.CellValue | google/cloud/bigtable/_row_merger.py:528-557 | a continuation chunk carrying a key or cell data is rejected; the cell closes when `value_size` is 0 |
| StateMachineMerger.HandleReset | google/cloud/bigtable/_row_merger.py:427-448 | a reset is accepted iff it comes mid-row and carries no key, family, qualifier, timestamp, labels or value; it then discards the row |
| StateMachineMerger.HandleChunk | google/cloud/bigtable/_row_merger.py:388-415 | a key at or below the last seen key is rejected, and so is a reset in AWAITING_NEW_ROW. A row is returned exactly on commit, which resets the state and records the key |
| StateMachineMerger.HandleLastScanned | google/cloud/bigtable/_row_merger.py:374-386 | a scan marker is accepted iff the merger is between rows and the key is above the last seen key; it then becomes the last seen key |
| StateMachineProofs.HandleChunkOrdered | google/cloud/bigtable/_row_merger.py:374-399 | every emitted row key lies strictly above the previous last seen key, and it becomes the new one |
| StateMachineProofs.ProcessResponsesOrdered | google/cloud/bigtable/_row_merger.py:303-318 | across any responses, emitted rows and markers form a strictly increasing chain from the starting key |
| StateMachineProofs.MergeResponseStreamOrdered | google/cloud/bigtable/_row_merger.py:290-322 | rows and scan markers from any stream have strictly increasing keys |
| StateMachineRoundTrip.RowComplete | google/cloud/bigtable/_row_merger.py:406-425 | the chunks of one row, split cells included, rebuild exactly that row; each value is the concatenation of its pieces |
| StateMachineRoundTrip.ResponseBoundariesIrrelevant | google/cloud/bigtable/_row_merger.py:303-318 | how chunks are split into responses does not change the merge |
| StateMachineRoundTrip.MergeRoundTrip | google/cloud/bigtable/_row_merger.py:290-322 | any stream that encodes valid increasing rows merges back to exactly those rows, with no error |
| LoopMerger.ResetChunk | google/cloud/bigtable/data/_sync/_read_rows.py:260-272 | a reset chunk is accepted iff it carries no data, and then drops the partial row |
| LoopMerger.RowChunk | google/cloud/bigtable/data/_sync/_read_rows.py:202-226 | these are rejected: a key change inside a row; a new family without a qualifier; a missing family |
| LoopMerger.SplitChunk | google/cloud/bigtable/data/_sync/_read_rows.py:227-252 | inside a split cell, a change of family, qualifier, timestamp, non-empty labels or key is rejected; value pieces are appended to the buffer |
| LoopMerger.MergeStep | google/cloud/bigtable/data/_sync/_read_rows.py:178-274 | a first chunk without a key is rejected. A row is emitted only on commit, with the row's key; a reset returns to between-rows |
| LoopMergerRoundTrip.MergeRowsRoundTrip | google/cloud/bigtable/data/_sync/_read_rows.py:178-274 | the chunk encoding of any valid increasing rows merges back to exactly those rows, ending between rows |
| ReadRowsAttempt.BeforeChunk | google/cloud/bigtable/data/_sync/_read_rows.py:155-165 | a row's first chunk is rejected iff its key is at or below a truthy last yielded key |
| ReadRowsAttempt.AfterChunk | google/cloud/bigtable/data/_sync/_read_rows.py:167-175 | a commit records the row key as last yielded and decrements the remaining count, raising iff it goes negative; a reset forgets the current key |
| ReadRowsAttempt.OnScanned | google/cloud/bigtable/data/_sync/_read_rows.py:148-154 | a last-scanned key is rejected iff it is at or below the last yielded key; otherwise it becomes last yielded |
| ReadRowsAttemptOrder.AttemptStreamOrdered | google/cloud/bigtable/data/_sync/_read_rows.py:137-175 | rows yielded by an attempt are strictly increasing and above the last yielded key |
| ReadRowsAttemptLimit.RunAttemptLimit | google/cloud/bigtable/data/_sync/_read_rows.py:108-175 | with a remaining count n, an attempt yields at most n rows unless it fails on the limit check, and then n + 1 |
| ReadRowsAttemptRoundTrip.ResponseBoundariesIrrelevant | google/cloud/bigtable/data/_sync/_read_rows.py:137-175 | with the key reset per row, splitting chunks into responses does not change an attempt |
| ReadRowsAttemptRoundTrip.AttemptStreamRoundTrip | google/cloud/bigtable/data/_sync/_read_rows.py:137-274 | any encoding of valid rows is accepted and yields exactly those rows. The last yielded key and the remaining count advance by them |
| ChunkStreamKeyReset.SplitRowRejectedAsWritten | google/cloud/bigtable/data/_sync/_read_rows.py:155-165 | as written, a row whose chunks span two responses is rejected as out of order |
| ChunkStreamKeyReset.DescendingAcceptedAsWritten | google/cloud/bigtable/data/_sync/_read_rows.py:155-165 | as written, a descending row split over responses is accepted |
| ChunkStreamKeyReset.SplitRowAcceptedCorrected | google/cloud/bigtable/data/_sync/_read_rows.py:155-165 | with the key reset per row, the split row is accepted |
| ChunkStreamKeyReset.DescendingRejectedCorrected | google/cloud/bigtable/data/_sync/_read_rows.py:155-165 | with the key reset per row, the descending stream is rejected |
| RowSetRevision.KeysAfter | google/cloud/bigtable/data/_sync/_read_rows.py:290-292 | the kept keys are exactly the input keys strictly above the last key, as a subsequence in input order |
| RowSetRevision.KeysNotIn | google/cloud/bigtable/client.py:467-469 | the kept keys are exactly the input keys not already emitted, in input order |
| RowSetRevision.ReviseRange | google/cloud/bigtable/data/_sync/_read_rows.py:293-301 | a range is dropped iff its end key is at or below the last key; a kept range keeps its end |
| RowSetRevision.MaxKey | google/cloud/bigtable/client.py:460-479 | `max(emitted_rows)` is an emitted key at or above every other |
| RowSetRevisionProofs.ReviseRangeExact | google/cloud/bigtable/data/_sync/_read_rows.py:293-301 | above the last key, a revised range selects the same keys as the original; at or below it, none |
| RowSetRevisionProofs.ReviseOperationExact | google/cloud/bigtable/data/_sync/_read_rows.py:277-304 | the revised row set selects exactly the original's keys above the last key. "Complete" is raised only when no such key was selected |
| RowSetRevision.DictEndKey | google/cloud/bigtable/_sync_autogen.py:226-228 | the dict reading of the end key agrees with the protobuf reading except on an empty open end, which it keeps as the empty key |
| RowSetRevision.ReviseDictRange | google/cloud/bigtable/_sync_autogen.py:226-237 | as written, a range is dropped iff its dict end key is at or below the last key, so an empty open end is always dropped; on any other end it agrees with the protobuf revision |
| RowSetRevision.ReviseDictRanges | google/cloud/bigtable/_sync_autogen.py:224-237 | as written, no kept range has an empty open end, and on ranges without one it agrees with the protobuf revision |
| RowSetRevision.ReviseAutogenAsWritten | google/cloud/bigtable/_sync_autogen.py:207-240 | as written, equals the intended revision on every row set without an empty open end; a revised result never holds one |
| RowSetRevisionProofs.ReviseAutogenLosesRows | google/cloud/bigtable/_sync_autogen.py:224-240 | the key `c` and the range from `a` to an empty open end, revised after `b`: as written only `c` is asked for and the selected row `d` is lost; as intended it stays selected |
| RowSetRevisionProofs.ReviseAutogenExact | google/cloud/bigtable/_sync_autogen.py:207-240 | as intended (an empty end read as unbounded), equals the loop-merger revision when something survives, and the original row set otherwise; keys above the last key keep their selection |
| RowSetRevisionProofs.ReviseMergerKeepsLater | google/cloud/bigtable/_row_merger.py:256-287 | no key above the last key that the original selected is lost |
| RowSetRevisionProofs.ReviseMergerExactOnLoneRange | google/cloud/bigtable/_row_merger.py:268-287 | a lone range, or no row set, is opened at the last key: exactly the later keys stay selected |
| RowSetRevisionProofs.ReviseEmittedKeepsLater | google/cloud/bigtable/client.py:456-479 | ranges are revised as in the merger variant at `max(emitted)`, and no later selected key is lost |
| ReadRowsRetry.Prepare | google/cloud/bigtable/_row_merger.py:177-189 | a first attempt sends the request unchanged. A retry revises the row set, and under a non-zero limit either stops (all emitted) or asks for the rest |
| ReadRowsRetry.TableRequest | google/cloud/bigtable/client.py:429-433 | with revision on, a retry's row keys exclude every emitted key; the limit is untouched |
| ReadRowsRetryProofs.DedupItemOrdered | google/cloud/bigtable/_row_merger.py:215-232 | statistics pass untouched; a row passes iff its key is above the last seen key; a marker never passes; a row or marker at or below that key changes nothing; the attempt stops exactly at the limit |
| ReadRowsRetryProofs.DedupPassesFreshStream | google/cloud/bigtable/_row_merger.py:215-232 | an increasing stream above the last seen key passes unchanged, apart from its markers |
| ReadRowsRetryProofs.RetryMergerOrdered | google/cloud/bigtable/_row_merger.py:177-232 | across retries, emitted rows are strictly increasing, contain no markers and never exceed a non-zero limit |
| ReadRowsRetryProofs.ReadWithRetriesOrdered | google/cloud/bigtable/_row_merger.py:156-232 | a retried read from the start, on either surface, emits strictly increasing rows, no markers and at most `rows_limit` rows |
| ReadRowsRetry.SyncAttemptAsWritten | google/cloud/bigtable/_sync_autogen.py:145-204 | the generated attempt sends its prepared request exactly when it does not stop at the limit, and then raises the stub's `NotImplementedError` |
| ReadRowsRetryProofs.SyncReadAsWrittenRaises | google/cloud/bigtable/_sync_autogen.py:145-204 | the generated read sends the first request the intended read sends, and raises `NotImplementedError` before any row |
| ReadRowsRetryProofs.SkipEmittedFresh | google/cloud/bigtable/client.py:444-449 | yielded rows are distinct, were not emitted before, and every processed key joins the emitted set |
| ReadRowsRetryProofs.RetryTableFresh | google/cloud/bigtable/client.py:420-455 | across retries, no row key is yielded twice |
| ReadRowsOperation.StartOperation | google/cloud/bigtable/data/_sync/_read_rows.py:92-93 | the remaining count is `rows_limit`, or none when the limit is 0 |
| ReadRowsOperation.PrepareAttempt | google/cloud/bigtable/data/_sync/_read_rows.py:116-127 | an attempt sends nothing when the revised row set is complete or the remaining count is 0. Otherwise it sends the revised rows and the remaining count as the limit |
| ReadRowsOperationProofs.RunOperationOrdered | google/cloud/bigtable/data/_sync/_read_rows.py:95-135 | across all attempts, yielded rows stay strictly above the last yielded key and increase |
| ReadRowsOperationProofs.ResponsesRaiseInvalidChunk | google/cloud/bigtable/data/_sync/_read_rows.py:137-274 | an attempt over server data fails only with `InvalidChunk` |
| ReadRowsOperationProofs.ReadRowsLimit | google/cloud/bigtable/data/_sync/_read_rows.py:93-175 | a read yields at most `rows_limit` rows; one more only when the limit check itself raised |
| ReadRowsOperationProofs.ReadRowsOrdered | google/cloud/bigtable/data/_sync/_read_rows.py:95-175 | a whole read, over all retries, yields strictly increasing row keys |
| Exceptions.NatToString | google/cloud/bigtable/exceptions.py:91-94 | the decimal numeral is non-empty, all digits, and one digit exactly for n < 10 |
| Exceptions.ParseNatToString | google/cloud/bigtable/exceptions.py:91-94 | reading the numeral back gives the number |
| Exceptions.CountMessageDeterminesCounts | google/cloud/bigtable/exceptions.py:91-94 | two count messages are equal only when both counts are |
| Exceptions.CountMessage | google/cloud/bigtable/exceptions.py:91-94 | the message starts with the count, "sub-exception" takes an "s" iff the count is not 1, and it ends with the total and the singular noun exactly for a total of 1 |
| Exceptions.RetryMessage | google/cloud/bigtable/exceptions.py:128-135 | none gives "No exceptions". Otherwise the message starts with the count and ends with the last name; "1 failed attempt:" exactly for one |
| Exceptions.NewGroup | google/cloud/bigtable/exceptions.py:62-82 | an empty list raises `ValueError`; otherwise the exceptions are kept in order and `str()` is the message |
| Exceptions.FailedMutationMessage | google/cloud/bigtable/exceptions.py:109-122 | the message says "non-idempotent" iff the entry is not idempotent |
| Exceptions.FailedQueryMessage | google/cloud/bigtable/exceptions.py:177-187 | the message names the failed index |
| Exceptions.MutationsGroup | google/cloud/bigtable/exceptions.py:85-101 | a group exists iff some entry failed; it holds them in order, with the N-of-T message |
| Exceptions.NewShardedGroup | google/cloud/bigtable/exceptions.py:144-169 | a group exists iff some query failed; it keeps the failures, the successful rows and the query-count message |
| MutateRows.InitialBook | google/cloud/bigtable/_mutate_rows.py:63-66 | every entry starts active with an empty error list |
| MutateRows.RequestIndices | google/cloud/bigtable/_mutate_rows.py:174-180 | the sub-request holds exactly the active entries in index order, each response index mapping back to its entry |
| MutateRows.RequestIndicesAsWritten | google/cloud/bigtable/_mutate_rows.py:177 | as written, building the sub-request raises for every non-empty entry list |
| MutateRows.ApplyResult | google/cloud/bigtable/_mutate_rows.py:190-219 | results for terminal entries are ignored. A success clears errors and reports once. A failure appends its error and ends the entry iff not retryable or not idempotent |
| MutateRows.RunAttempt | google/cloud/bigtable/_mutate_rows.py:139-223 | an attempt raises `_MutateRowsIncomplete` iff it ran cleanly and some entry is still active |
| MutateRows.OnError | google/cloud/bigtable/_mutate_rows.py:74-83 | a retryable error other than `_MutateRowsIncomplete` is appended to every active entry and retires the non-idempotent ones; anything else changes nothing |
| MutateRows.Failures | google/cloud/bigtable/_mutate_rows.py:117-129 | one failure entry per index with errors, in index order; its cause is the single error or a group of all of them |
| MutateRows.Finish | google/cloud/bigtable/_mutate_rows.py:114-136 | `MutationsExceptionGroup` is raised iff some entry has errors; it carries exactly the failures and the total entry count |
| MutateRowsProofs.RetryLoopInv | google/cloud/bigtable/_mutate_rows.py:41-136 | the retry loop keeps the bookkeeping invariant: an active entry was never reported and a terminal one was reported once |
| MutateRowsProofs.MutateRowsReportsEachEntryOnce | google/cloud/bigtable/_mutate_rows.py:41-136 | each entry gets `on_terminal_state` exactly once, cleanly iff it ended without errors; the group is raised iff some entry did not succeed |
| MutateRowsProofs.AllSuccessRaisesNothing | google/cloud/bigtable/_mutate_rows.py:199-223 | a first attempt where every entry succeeds raises nothing and reports every entry cleanly |
| MutateRowsProofs.UnpackFailsEveryEntry | google/cloud/bigtable/_mutate_rows.py:177 | as written, every entry fails with the unpacking error |
| MutateRowsProofs.UnpackCounterexample | google/cloud/bigtable/_mutate_rows.py:177 | one entry that succeeds: as written the group is raised, as intended nothing is |
| MutateRowsProofs.RetiredEntryNeverReported | google/cloud/bigtable/_mutate_rows.py:131-133 | a non-idempotent entry retired by the error hook gets a failure but never `on_terminal_state` when reporting is by the active flag |
| Helpers.MakeMetadata | google/cloud/bigtable/_helpers.py:31-42 | exactly one header, `x-goog-request-params`, whose value parses back to the table name and optional app profile |
| Helpers.ParamsRoundTrip | google/cloud/bigtable/_helpers.py:31-42 | the params string parses back to its table name and app profile id |
| Helpers.AutogenParamsAgree | google/cloud/bigtable/_sync_autogen.py:164-168 | the auto-generated params string equals the helper's iff the app profile is not the empty string |
| Helpers.AttemptTimeout | google/cloud/bigtable/_helpers.py:61-66 | 0 iff the attempt timeout (default: the operation timeout) is not positive or the deadline has passed; otherwise the largest timeout within both the attempt timeout and the time left, so equal to one of them |
| Helpers.AttemptTimeouts | google/cloud/bigtable/_helpers.py:45-66 | the generator yields one timeout per clock reading |
| Helpers.AttemptTimeoutsNonIncreasing | google/cloud/bigtable/_helpers.py:64-66 | under a non-decreasing clock the yielded timeouts never increase |
| Helpers.ResolveTimeouts | google/cloud/bigtable/_helpers.py:136-147 | rejected iff the operation timeout is not positive, or a given attempt timeout is not in (0, operation]. Otherwise the attempt timeout defaults to the operation timeout |
| Helpers.ResolveTimeoutsIdempotent | google/cloud/bigtable/_helpers.py:135-147 | resolving resolved timeouts again gives the same timeouts |
| Helpers.NewTable | google/cloud/bigtable/_sync_autogen.py:281-309 | a `ValueError` iff the operation timeout is not positive or a given per-request timeout is not in (0, operation], with the message of the first failed check; accepted defaults end in the stub's `NotImplementedError` |
| Helpers.TableDefaultsResolve | google/cloud/bigtable/_sync_autogen.py:320-331 | for defaults the constructor's checks accept, missing (or zero) timeouts fall back to them without error; a missing per-request timeout becomes the operation timeout |
| Helpers.FirstSleep | google/cloud/bigtable/client.py:219-220 | the first refresh sleep is never negative and ends at `init_time + refresh_interval`; it is 0 iff that moment has passed |
| Registration.StartRefresh | google/cloud/bigtable/client.py:144-153 | refresh tasks are created only when none exist, one per pool channel |
| Registration.RegisterInstance | google/cloud/bigtable/client.py:239-257 | the instance joins the active set. Registering it again changes nothing. A new one warms every pool channel once, in pool order, when refresh tasks run; otherwise nothing is warmed and one task per channel is started. Nothing else in the client changes |
| Registration.RemoveInstance | google/cloud/bigtable/client.py:259-276 | returns true iff the instance was registered, and removes exactly it |
| Registration.RegisterIdempotentAndUndone | google/cloud/bigtable/client.py:239-276 | registration is idempotent, and removing a newly registered instance restores the set |
| Registration.RemoveOwner | google/cloud/bigtable/_sync_autogen.py:544-556 | an unknown instance or owner gives false and changes nothing. Otherwise exactly that owner is dropped; the instance leaves the active set iff it was the last owner; the answer is true unless the last owner of an instance that is no longer active was removed (the KeyError path) |
| Registration.RemoveSharedOwnerAnswersTrue | google/cloud/bigtable/_sync_autogen.py:547-554 | removing one of several owners answers true and leaves the instance registered, unlike the documented false |
| Registration.RemoveOwnerSynced | google/cloud/bigtable/_sync_autogen.py:544-556 | removal succeeds iff the owner was registered; the instance leaves the active set exactly when its last owner does |
| ReadRowsIterator.FinishWithError | google/cloud/bigtable/_sync_autogen.py:638-646 | only the first error is stored, and the merger is closed only when the iterator was active |
| ReadRowsIterator.Close | google/cloud/bigtable/_sync_autogen.py:647-649 | closing an active iterator stores a `StopIteration`; closing a finished one changes nothing |
| ReadRowsIterator.DeadlineCause | google/cloud/bigtable/_sync_autogen.py:626-633 | a retry error gets a `RetryExceptionGroup` cause iff transient errors were collected |
| ReadRowsIterator.Next | google/cloud/bigtable/_sync_autogen.py:609-637 | stats are recorded and skipped. A finished iterator re-raises its error. An error is left unlatched iff, as written, it is the `TypeError` of a retry error with transient errors that was the call's first pull; after a statistics message the outer frame latches it. As intended, an error is returned iff the iterator becomes inactive |
| ReadRowsIterator.StatsThenRetryLatched | google/cloud/bigtable/_sync_autogen.py:616-636 | as written, a statistics message then a retry error with a transient error raises `TypeError`, latched, with the merger closed once and the statistics kept |
| ReadRowsIterator.ErrorIsLatched | google/cloud/bigtable/_sync_autogen.py:600-637 | as intended (not as written, see "## Findings"), once an error is returned, every later `__next__` raises the same error whatever the stream holds |
| ReadRowsIterator.RetryErrorCounterexample | google/cloud/bigtable/_sync_autogen.py:626-633 | as written, an exhausted retry that is the call's first pull raises `TypeError` and leaves the iterator active; as intended it raises `DeadlineExceeded` with a group cause |
| ReadRowsQuery.NewQuery | google/cloud/bigtable/read_rows_query.py:30-39 | a fresh query has no ranges, the given limit and filter, and the given keys when truthy |
| ReadRowsQuery.AddRows | google/cloud/bigtable/read_rows_query.py:49-53 | the keys (a single key wrapped) are appended in order and nothing else changes |
| ReadRowsQuery.SetLimit | google/cloud/bigtable/read_rows_query.py:41-43 | only the limit changes |
| ReadRowsQuery.SetFilter | google/cloud/bigtable/read_rows_query.py:45-47 | only the filter changes |
| ReadRowsQuery.AddRange | google/cloud/bigtable/read_rows_query.py:55-63 | raises iff both endpoints are missing; otherwise appends exactly one range |
| ReadRowsQuery.RangeToDict | google/cloud/bigtable/read_rows_query.py:81-90 | inclusive endpoints become `_closed` and exclusive ones `_open`; missing endpoints are omitted |
| ReadRowsQuery.RangeDictRoundTrip | google/cloud/bigtable/read_rows_query.py:81-90 | a range dict reads back to its range |
| ReadRowsQuery.ToDict | google/cloud/bigtable/read_rows_query.py:76-93 | keys, limit and ranges carry over in order. As written, a missing filter raises; as intended, every query converts and the dict has a filter iff the query does |
| ReadRowsQuery.ToDictKeepsOrder | google/cloud/bigtable/read_rows_query.py:41-93 | the dict lists keys and ranges in the order they were added; the setters touch only their own field |
| ReadRowsQuery.ToDictCounterexample | google/cloud/bigtable/read_rows_query.py:92 | a query without a filter: as written `to_dict` raises, as intended it succeeds |
| ReadModifyWriteRules.Qualifier | google/cloud/bigtable/data/read_modify_write_rules.py:24-29 | a bytes qualifier is kept; a str qualifier is stored as bytes that decode back to it as UTF-8 |
| ReadModifyWriteRules.NewIncrement | google/cloud/bigtable/data/read_modify_write_rules.py:36-45 | a non-int amount is a `TypeError` and an out-of-range one a `ValueError`; otherwise the rule holds the amount |
| ReadModifyWriteRules.IncrementFitsCounterCell | google/cloud/bigtable/data/read_modify_write_rules.py:20-43 | as intended, an amount is accepted iff it fits a 64-bit signed counter, and it round-trips through one |
| ReadModifyWriteRules.IncrementMinimumCounterexample | google/cloud/bigtable/data/read_modify_write_rules.py:40-43 | -2^63 fits in 64 bits but is rejected as written |
| ReadModifyWriteRules.NewAppend | google/cloud/bigtable/data/read_modify_write_rules.py:55-65 | bytes are kept and str is UTF-8 encoded; any other value is a `TypeError` |
| ReadModifyWriteRules.ToDict | google/cloud/bigtable/data/read_modify_write_rules.py:32-72 | the dict has exactly family, qualifier and the amount or value key |
| ReadModifyWriteRules.DictRoundTrip | google/cloud/bigtable/data/read_modify_write_rules.py:47-72 | a rule's dict reads back to the rule |
| Utf8.DecodeEncode | google/cloud/bigtable/row_response.py:131-135 | decoding the UTF-8 encoding of a string gives the string back |
| Utf8.EncodeDecode | google/cloud/bigtable/row_response.py:131-135 | a valid UTF-8 byte string is the encoding of what it decodes to |
| Utf8.EncodeLess | google/cloud/bigtable/row_response.py:131-135 | UTF-8 byte order agrees with code-point order of the strings |
| RowResponse.Signed | google/cloud/bigtable/row_response.py:114-120 | big-endian two's complement: in range, and negative iff the top bit is set |
| RowResponse.ToBytes | google/cloud/bigtable/row_response.py:114-120 | `to_bytes(n, len, signed=True)` succeeds iff n fits, giving exactly len bytes |
| RowResponse.IntRoundTrip | google/cloud/bigtable/row_response.py:114-120 | encoding an int that fits and decoding it gives the int back |
| RowResponse.BytesRoundTrip | google/cloud/bigtable/row_response.py:114-120 | decoding bytes and re-encoding them at the same length gives the bytes back |
| RowResponse.NewCell | google/cloud/bigtable/row_response.py:91-108 | a cell stores its fields, with `labels=None` becoming []; an undecodable qualifier is rejected |
| RowResponse.CellLessIsByteOrder | google/cloud/bigtable/row_response.py:131-135 | as written, cells order by family, then qualifier, then ascending timestamp |
| RowResponse.CellLessNativeStrictOrder | google/cloud/bigtable/row_response.py:49-53 | the documented native order (newest timestamp first) is `__lt__` on negated timestamps, and it is irreflexive and transitive |
| RowResponse.CellOrderTimestampCounterexample | google/cloud/bigtable/row_response.py:131-135 | of two cells differing only in timestamp, `__lt__` puts the older first and the native order the newer |
| RowResponse.CellLessStrictOrder | google/cloud/bigtable/row_response.py:131-135 | `__lt__` is irreflexive and transitive |
| RowResponse.CellEqIntendedEquivalence | google/cloud/bigtable/row_response.py:137-146 | equality with labels compared as multisets (equal labels, counted with multiplicity) is an equivalence and implies `__eq__` both ways |
| RowResponse.CellEqNotSymmetric | google/cloud/bigtable/row_response.py:137-146 | `__eq__` is reflexive, but labels [a,a] and [a,b] are equal one way only |
| RowResponse.GetCells | google/cloud/bigtable/row_response.py:47-62 | as written, the argument error is raised iff the family is missing; as intended, iff a qualifier comes without a family |
| RowResponse.GetCellsCounterexample | google/cloud/bigtable/row_response.py:60-61 | `get_cells(None, None)`: as written the guard raises; as intended it does not |
| PooledTransport.NewTransport | google/cloud/bigtable_v2/services/bigtable/transports/pooled_grpc_asyncio.py:176-236 | a pool size that is not positive is a `ValueError` whose message names the size; otherwise that many distinct channels and no stubs, in a valid transport |
| PooledTransport.NextChannel | google/cloud/bigtable_v2/services/bigtable/transports/pooled_grpc_asyncio.py:241-246 | returns the channel at the position, which advances cyclically and stays in range |
| PooledTransport.NextChannelsCycle | google/cloud/bigtable_v2/services/bigtable/transports/pooled_grpc_asyncio.py:241-246 | the j-th successive call returns the slot j places after the start, going round the pool |
| PooledTransport.RoundRobinVisitsEverySlot | google/cloud/bigtable_v2/services/bigtable/transports/pooled_grpc_asyncio.py:241-246 | pool-size successive calls return the pool rotated to the current position, so each slot once |
| PooledTransport.ReplaceChannel | google/cloud/bigtable_v2/services/bigtable/transports/pooled_grpc_asyncio.py:248-289 | an index outside the pool is a `ValueError` whose message names the index and the pool size. Otherwise only that slot changes, and exactly the stubs of the closed channel are dropped |
| PooledTransport.ReplaceChannelValid | google/cloud/bigtable_v2/services/bigtable/transports/pooled_grpc_asyncio.py:282-289 | after a replacement every cached stub belongs to a channel in the pool and no pooled channel is ever handed out as new; a created channel, or a passed one not already pooled, keeps the pool's channels distinct |
| PooledTransport.StubFor | google/cloud/bigtable_v2/services/bigtable/transports/pooled_grpc_asyncio.py:312-323 | a call uses the next channel's stub for its method, creating and caching it only on first use |
| PooledTransport.StubReusedAfterCycle | google/cloud/bigtable_v2/services/bigtable/transports/pooled_grpc_asyncio.py:312-323 | one round of the pool later, the same method goes through the same stub |
| TrackedChannel.BeginRpc | google/cloud/bigtable/_channel_pooling/tracked_channel.py:35-38 | entering adds one in-flight RPC and raises the maximum to it if needed |
| TrackedChannel.EndRpc | google/cloud/bigtable/_channel_pooling/tracked_channel.py:39-42 | leaving removes one in-flight RPC; as written the exit raises `AttributeError` |
| TrackedChannel.GetAndReset | google/cloud/bigtable/_channel_pooling/tracked_channel.py:44-46 | returns the maximum and restarts it from the current count |
| TrackedChannel.RunCounts | google/cloud/bigtable/_channel_pooling/tracked_channel.py:30-46 | after any events the count is the balance and the maximum is the high-water mark; well-nested runs keep 0 <= active <= max |
| TrackedChannel.ReadingIsPeakSinceReset | google/cloud/bigtable/_channel_pooling/tracked_channel.py:35-46 | a reading is the highest number of RPCs in flight since the previous reading |
| TrackedChannel.WrappedUnary | google/cloud/bigtable/_channel_pooling/tracked_channel.py:35-50 | the counters return to their level. As written the call always fails with the exit's error; as intended it returns the call's own outcome |
| TrackedChannel.ReleaseCounterexample | google/cloud/bigtable/_channel_pooling/tracked_channel.py:42 | a call that succeeds fails for its caller as written |
| DynamicPool.ReadPeaks | google/cloud/bigtable/_channel_pooling/dynamic_pooled_channel.py:115-117 | every channel is read and reset in place, and the peak is the sum of their recorded maxima |
| DynamicPool.WrittenBand | google/cloud/bigtable/_channel_pooling/dynamic_pooled_channel.py:119-124 | the lower end is the floor of the peak over `max_rpcs_per_channel`, unless `min_channels` is larger. The upper end is the floor of peak over `max(min_rpcs_per_channel, 1)`, unless `max_channels` is smaller |
| DynamicPool.SizeBand | google/cloud/bigtable/_channel_pooling/dynamic_pooled_channel.py:119-124 | a zero `max_rpcs_per_channel` raises. As written the band is `WrittenBand`, the two floor quotients of the peak, each clamped on its own side. As intended the lower end is capped at max_channels and the upper end raised to at least the lower one. The intended band equals the written one whenever that is non-empty and inside [min_channels, max_channels], and it always lies inside that range |
| DynamicPool.NewSize | google/cloud/bigtable/_channel_pooling/dynamic_pooled_channel.py:125-135 | the size is unchanged inside the band; outside it becomes the midpoint when that is within `max_resize_delta`, else moves exactly `max_resize_delta` toward it |
| DynamicPool.Reshape | google/cloud/bigtable/_channel_pooling/dynamic_pooled_channel.py:136-147 | new pool ++ removed == old pool ++ added, with fresh channels added and only one side non-empty. The position is reset when it leaves the pool |
| DynamicPool.AttemptResize | google/cloud/bigtable/_channel_pooling/dynamic_pooled_channel.py:107-148 | the resize keeps the read channels in order, adding fresh ones or cutting a suffix, so that the pool ends with the size the load band and the step limit choose; a zero `max_rpcs_per_channel` raises after leaving every channel reset |
| DynamicPool.ResizeInsideBandKeepsPool | google/cloud/bigtable/_channel_pooling/dynamic_pooled_channel.py:125-127 | a pool whose size is inside the band is left as it is |
| DynamicPool.ResizeStaysInRange | google/cloud/bigtable/_channel_pooling/dynamic_pooled_channel.py:107-147 | as intended, a pool within [min_channels, max_channels] stays there and changes by at most the step |
| DynamicPool.ResizeBelowMinimumCounterexample | google/cloud/bigtable/_channel_pooling/dynamic_pooled_channel.py:119-135 | as written, default options shrink an idle one-channel pool to no channels |
| MetricsOperation.StateOf | google/cloud/bigtable/data/_metrics/data_model.py:172-182 | COMPLETED iff completed; otherwise ACTIVE_ATTEMPT iff an attempt is active; otherwise BETWEEN_ATTEMPTS iff some attempt completed |
| MetricsOperation.Start | google/cloud/bigtable/data/_metrics/data_model.py:184-193 | accepted only in CREATED, where it records the start time and changes nothing else; otherwise one logged error naming the state, and nothing changes |
| MetricsOperation.Backoff | google/cloud/bigtable/data/_metrics/data_model.py:209-219 | the backoff is 0 without a generator or before the first completed attempt |
| MetricsOperation.StartAttempt | google/cloud/bigtable/data/_metrics/data_model.py:195-219 | accepted only in CREATED or BETWEEN_ATTEMPTS: a new attempt starting now, with the backoff before it and no latencies yet, and nothing else changes; otherwise logged and unchanged |
| MetricsOperation.AddResponseMetadata | google/cloud/bigtable/data/_metrics/data_model.py:221-258 | cluster and zone are set only while unknown, and only to non-empty decoded values |
| MetricsOperation.AttemptFirstResponse | google/cloud/bigtable/data/_metrics/data_model.py:278-294 | only during an attempt, and only once per attempt, the latency since the attempt started is recorded and nothing else changes; otherwise a warning and no change |
| MetricsOperation.EndAttemptWithStatus | google/cloud/bigtable/data/_metrics/data_model.py:296-329 | accepted only in ACTIVE_ATTEMPT: the attempt, with its duration and status, is appended to the completed ones and reported once, giving BETWEEN_ATTEMPTS |
| MetricsOperation.EndWithStatus | google/cloud/bigtable/data/_metrics/data_model.py:331-365 | a logged no-op when completed. Otherwise any active attempt ends with the same status and is reported first, then the operation completes and is reported with all its attempts and defaults for an unknown cluster and zone |
| MetricsOperation.ExcToStatus | google/cloud/bigtable/data/_metrics/data_model.py:400-423 | a group is replaced by its last exception; then its code, else its cause's code, else UNKNOWN; a nested group yields UNKNOWN or the inner group's cause code |
| MetricsOperation.WrappedPredicate | google/cloud/bigtable/data/_metrics/data_model.py:377-398 | the verdict is the inner predicate's. A retryable error ends the active attempt with the error's status; any other error completes the operation with it; outside the allowed states a warning and no change |
| MetricsOperation.Transitions | google/cloud/bigtable/data/_metrics/data_model.py:184-433 | an allowed action moves to the documented next state; a refused one logs one error and changes nothing |
| MetricsOperation.RunReportsEachOnce | google/cloud/bigtable/data/_metrics/data_model.py:296-375 | over any actions, each completed attempt is reported once and the operation at most once; a completed operation never changes |
| MetricsOperation.LocationIsSticky | google/cloud/bigtable/data/_metrics/data_model.py:236-247 | once cluster and zone are known, metadata never changes them |
| MetricsOperation.CompletionLocation | google/cloud/bigtable/data/_metrics/data_model.py:331-365 | the finished operation carries "unspecified" and "global" when cluster and zone are unknown |
| MetricsOperation.EndWithStatusAttempts | google/cloud/bigtable/data/_metrics/data_model.py:343-352 | completing adds at most one completed attempt, exactly when one was active |
| MetricsOperation.FirstResponseOnce | google/cloud/bigtable/data/_metrics/data_model.py:285-290 | a second first-response in the same attempt is refused |
| MetricsOperation.WrappedPredicateStates | google/cloud/bigtable/data/_metrics/data_model.py:389-395 | after the wrapped predicate an active operation is BETWEEN_ATTEMPTS on a retryable error and COMPLETED otherwise |
| MetricsOperation.ExcToStatusOfGroups | google/cloud/bigtable/data/_metrics/data_model.py:412-422 | a group of a plain exception has that exception's status, whatever the group's cause; only one level of grouping is unwrapped, so a nested group's code is hidden |
| MetricsExporter.MetricLabels | google/cloud/bigtable/data/_metrics/handlers/gcp_exporter.py:94-98 | the labels are exactly the attributes whose keys do not start with `resource_` |
| MetricsExporter.Convert | google/cloud/bigtable/data/_metrics/handlers/gcp_exporter.py:63-101 | points with no attributes or a non-string project are skipped, a missing resource attribute is a `KeyError` (exactly when the point has attributes and a string or missing project, and lacks a resource attribute), and the key is one of the resource attributes. A non-string resource or metric label is a `TypeError`. Every point with all resource attributes and string labels becomes a series for the project with exactly the string labels |
| MetricsExporter.GroupSpec | google/cloud/bigtable/data/_metrics/handlers/gcp_exporter.py:102-106 | projects appear in order of first arrival, and each project's series keep their arrival order |
| MetricsExporter.ChunksSpec | google/cloud/bigtable/data/_metrics/handlers/gcp_exporter.py:114-128 | ceil(n/200) writes, each of 1 to 200 series, concatenating to the input |
| MetricsExporter.BatchWrite | google/cloud/bigtable/data/_metrics/handlers/gcp_exporter.py:114-128 | succeeds iff every chunk was sent and accepted; a failure stops at the rejected write |
| MetricsExporter.WriteAll | google/cloud/bigtable/data/_metrics/handlers/gcp_exporter.py:107-112 | success iff every project's writes were accepted; the writes sent are a prefix of all of them |
| MetricsExporter.Export | google/cloud/bigtable/data/_metrics/handlers/gcp_exporter.py:56-112 | an error escapes iff a point lacks a resource attribute or holds a non-string label. SUCCESS iff every batch write succeeded, and then every series was written |

## Left out

- asyncio, background tasks, buffering queues, idle timers, `gather`/`wait_for`, and every `close()` or context manager: there are no threads or event loops in the model.
- gRPC channels, credentials and stub invocation: channels and stubs are numbered identities, and a server response is a given value.
- The `google.api_core` retry wrappers, backoff and jitter, which live in a library outside this repository: a retry is a given sequence of attempt outcomes, and running out of it stands for the deadline.
- Floating point and wall-clock time: clocks, timeouts and latencies are integers in one unit, and the server-timing regex and `:0.1f` formatting are not modelled.
- Protobuf: messages are datatypes. `HasField` is an `Option`, and the response-params blob is given already parsed, or as undecodable.
- The exporter's `_to_point` value conversion and the OpenTelemetry reader and meter provider: only grouping, labels, batching and the verdict are modelled.
- The exception-group class of Python 3.11, which is not part of this model: a group is modelled as its message and a non-empty sequence of exceptions.
- The refresh interval of the dynamic pool options and the warm-up RPCs: only their count is modelled.
- The `_StateMachine` that `_sync_autogen.py` imports from `google.cloud.bigtable._read_rows` is not part of this model. It is assumed to behave as the state machine of `_row_merger.py`, so the same merger model serves both surfaces.
- ReadRowsRetry.ReadWithRetries: for the synchronous surface it describes the attempt the asynchronous original performs. The generated `_read_rows_retryable_attempt` calls the `_prepare_stream` stub, which raises `NotImplementedError` before any row (google/cloud/bigtable/_sync_autogen.py:174, 201-204). That behaviour is modelled separately by ReadRowsRetry.SyncAttemptAsWritten.
- ReadRowsRetryProofs.ReadWithRetriesOrdered: for the synchronous surface this holds only of the intended attempt; the generated one yields no row at all.
- Helpers.TableDefaultsResolve: it states what `read_rows_stream` resolves for accepted defaults, but the generated `Table.__init__` always raises (google/cloud/bigtable/_sync_autogen.py:306-309), so no synchronous table ever reaches that method.
- Strings are sequences of code points without lone surrogates: Python `str` values holding a lone surrogate, which UTF-8 encoding rejects, are not represented.
- The reading of the limits from `self.options` in one place and `self.pool_options` in another (google/cloud/bigtable/_channel_pooling/dynamic_pooled_channel.py:123-133) is modelled as one set of options, on the assumption that both name the same object.
- ReadRowsIterator.Next: the idle-timeout task and `_start_idle_timer` are not modelled.
- MetricsOperation.AddResponseMetadata: when the blob does not decode, the warning text with the blob's repr is not modelled; only that a warning is logged.
- Registration.RemoveOwner: the synchronous `_register_instance` is an empty stub (google/cloud/bigtable/_sync_autogen.py:541-542), so that client never adds an owner; the owner map is taken as given and only the removal logic is modelled.
- RowResponse.GetCells: only the argument guard is modelled; the lookup itself is not implemented in the source.

## Findings

| source | as written | input that shows it | evidently intended | confidence | as-written member | corrected member |
|---|---|---|---|---|---|---|
| google/cloud/bigtable/data/_sync/_read_rows.py:155-165 | the current row key is reset per response, so a row continuing in the next response starts with an empty key | row `a` committed, then row `b` split over two responses: rejected as out of order; and descending rows split the same way are accepted | the key is reset per row, after each commit or reset | not executed | ChunkStreamKeyReset.SplitRowRejectedAsWritten | ChunkStreamKeyReset.SplitRowAcceptedCorrected |
| google/cloud/bigtable/_mutate_rows.py:177 | `enumerate(dict.items())` unpacked into three names raises for every entry | one idempotent entry whose attempt succeeds | iterate over the active entries with their sub-request index | not executed | MutateRowsProofs.UnpackCounterexample | MutateRowsProofs.MutateRowsReportsEachEntryOnce |
| google/cloud/bigtable/_mutate_rows.py:131-133 | final reporting skips entries already retired by the error hook, so they never reach `on_terminal_state` | one non-idempotent entry and one retryable `ServiceUnavailable` | every entry reported exactly once | not executed | MutateRowsProofs.RetiredEntryNeverReported | MutateRowsProofs.MutateRowsReportsEachEntryOnce |
| google/cloud/bigtable/_channel_pooling/dynamic_pooled_channel.py:119-135 | the two band clamps are independent, so the midpoint can fall below `min_channels` | default options, one idle channel: the pool shrinks to 0 | the size stays within [min_channels, max_channels] | not executed | DynamicPool.ResizeBelowMinimumCounterexample | DynamicPool.ResizeStaysInRange |
| google/cloud/bigtable/read_rows_query.py:92 | `self.filter.to_dict()` is called when the filter is None | any query without a filter | omit the filter when absent | not executed | ReadRowsQuery.ToDictCounterexample | ReadRowsQuery.ToDict |
| google/cloud/bigtable/_channel_pooling/tracked_channel.py:42 | `self.release()` does not exist, so every RPC exit raises | a unary call that succeeds | the exit only decrements the counter | not executed | TrackedChannel.ReleaseCounterexample | TrackedChannel.RunCounts |
| google/cloud/bigtable/row_response.py:137-146 | labels are checked for membership one way only, so `__eq__` is not symmetric | labels [a,a] against [a,b] | equal labels counted with multiplicity | not executed | RowResponse.CellEqNotSymmetric | RowResponse.CellEqIntendedEquivalence |
| google/cloud/bigtable/data/read_modify_write_rules.py:40-43 | `abs(amount) > 2^63-1` rejects -2^63 | `increment_amount = -2**63` | accept every 64-bit signed amount | not executed | ReadModifyWriteRules.IncrementMinimumCounterexample | ReadModifyWriteRules.IncrementFitsCounterCell |
| google/cloud/bigtable/_sync_autogen.py:626-633 | `RetryExceptionGroup` is built with two arguments but takes one, so a `TypeError` escapes; when the retry error is the call's first pull, the iterator stays active and the merger is not closed (after a statistics message the outer frame latches the `TypeError` instead) | a retry error with one transient `ServiceUnavailable` as the call's first pull | `DeadlineExceeded` caused by the group, latched | not executed | ReadRowsIterator.RetryErrorCounterexample | ReadRowsIterator.ErrorIsLatched |
| google/cloud/bigtable/_sync_autogen.py:226-229 | the dict end key is read with `or`, so an empty `end_key_open` stays `b""`, sorts below every key, and its range is dropped although it reaches the end of the table (the static method is reached on a retry after a seen row, which the `_prepare_stream` stub currently prevents) | row keys `[c]` and the range from `a` with `end_key_open` `b""` (what `add_range(b"a", b"")` gives), revised after `b`: the retry asks only for `c`, and row `d` is never read | read an empty end as no bound, as the protobuf revision does with `or None` | not executed | RowSetRevisionProofs.ReviseAutogenLosesRows | RowSetRevisionProofs.ReviseAutogenExact |
| google/cloud/bigtable/row_response.py:131-135 | `__lt__` compares timestamps ascending, while the native order documented at row_response.py:49-53 and asserted by `test_ordering` puts the newest first | two cells with the same family and qualifier at `TS` and `TS+2`: `test_ordering` expects the `TS+2` cell to sort first; `__lt__` sorts it last | timestamps in reverse chronological order | not executed | RowResponse.CellOrderTimestampCounterexample | RowResponse.CellLessNativeStrictOrder |
| google/cloud/bigtable/row_response.py:60-61 | the guard tests the module-level name `qualifier`, always truthy, so a missing family always raises | `get_cells(None, None)` | raise only when a qualifier comes without a family | not executed | RowResponse.GetCellsCounterexample | RowResponse.GetCells |
