/** Retrying a ReadRows stream built on the state-machine merger: across
    attempts, rows already passed on are skipped, scan markers only move
    the resume point, the total row limit is enforced, and the request is
    revised before every retry. The asynchronous `_RowMerger` and the
    synchronous `ReadRowsIterator` surface share this logic and differ
    only in how they revise the row set. Also the older `Table.read_rows`
    path, which skips rows by the set of keys already emitted. */
module ReadRowsRetry {
  import opened Wrappers
  import opened Keys
  import opened ReadRowsTypes
  import opened StateMachineMerger
  import opened RowSetRevision
  import opened ReadRowsAttempt
  import opened StatusCodes
  import Helpers

  /** The parts of a ReadRows request that retries rewrite. */
  datatype ReadRequest = ReadRequest(rows: Option<RowSet>, rowsLimit: int)

  /** What one RPC delivered: the responses, then either a clean end or
      an RPC error with its status code. */
  datatype ServerAttempt = ServerAttempt(responses: seq<Response>, streamError: Option<nat>)

  /** One attempt as its merger presents it: the items produced, then an
      error or a clean end. */
  datatype MergedAttempt = MergedAttempt(items: seq<Item>, failure: Option<ReadError>)

  /** How a retried read ends: normally, with an error that is not
      retried, or when the retry budget runs out (here: no attempts are
      left) with the retried errors collected so far. */
  datatype Outcome = Finished | Failed(error: ReadError) | BudgetSpent(errors: seq<ReadError>)

  // ---------------------------------------------------------------------
  // Skipping what was already passed on

  /** `last_seen_row_key` and `emit_count`, shared by all attempts. */
  datatype Dedup = Dedup(lastSeen: Option<Key>, emitCount: nat)

  /** The items passed on, and whether the row limit was reached (the
      attempt then returns, ending the whole read). */
  datatype DedupRun = DedupRun(dedup: Dedup, out: seq<Item>, stopped: bool)

  /** Statistics pass through; a row or scan marker counts only when its
      key is past the last one seen, and then becomes the last one seen;
      only rows are passed on, and each counts against the limit. A
      `rowLimit` of 0 means no limit. */
  function DedupItem(d: Dedup, it: Item, rowLimit: nat): (r: DedupRun)
    ensures |r.out| <= 1
  {
    if it.StatsItem? then DedupRun(d, [it], false)
    else if d.lastSeen.None? || Less(d.lastSeen.value, ItemKey(it)) then
      var seen := d.(lastSeen := Some(ItemKey(it)));
      if it.ScanMarker? then DedupRun(seen, [], false)
      else
        var count := d.emitCount + 1;
        DedupRun(seen.(emitCount := count), [it], rowLimit != 0 && count >= rowLimit)
    else DedupRun(d, [], false)
  }

  function DedupItems(d: Dedup, items: seq<Item>, rowLimit: nat): (r: DedupRun)
    ensures |r.out| <= |items|
    decreases |items|
  {
    if |items| == 0 then DedupRun(d, [], false)
    else
      var first := DedupItem(d, items[0], rowLimit);
      if first.stopped then first
      else
        var rest := DedupItems(first.dedup, items[1..], rowLimit);
        DedupRun(rest.dedup, first.out + rest.out, rest.stopped)
  }

  // ---------------------------------------------------------------------
  // One attempt

  datatype Surface = AsyncMerger | SyncIterator

  /** The row set for a retry: `_RowMerger` keeps lone ranges and keys
      after the last seen key; the synchronous surface trims every range. */
  function Revise(s: Surface, rows: Option<RowSet>, last: Key): RowSet {
    if s.AsyncMerger? then ReviseMerger(rows, last) else ReviseAutogen(rows, last)
  }

  /** The request of the next attempt, or `None` when the attempt returns
      at once because the limit is used up. The first attempt sends the
      request unchanged; a retry sends the revised row set and, under a
      limit, the number of rows still wanted. */
  function Prepare(s: Surface, req: ReadRequest, d: Dedup, rowLimit: nat): (r: Option<ReadRequest>)
    ensures d.lastSeen.None? ==> r == Some(req)
    ensures d.lastSeen.Some? && rowLimit != 0 ==>
      (r.None? <==> d.emitCount >= rowLimit)
      && (r.Some? ==> r.value.rowsLimit == rowLimit - d.emitCount > 0)
    ensures d.lastSeen.Some? && r.Some? ==> r.value.rows == Some(Revise(s, req.rows, d.lastSeen.value))
    ensures d.lastSeen.Some? && rowLimit == 0 ==> r.Some? && r.value.rowsLimit == req.rowsLimit
  {
    if d.lastSeen.None? then Some(req)
    else
      var rows := Some(Revise(s, req.rows, d.lastSeen.value));
      if rowLimit != 0 then
        var n := rowLimit - d.emitCount;
        if n <= 0 then None else Some(ReadRequest(rows, n))
      else Some(req.(rows := rows))
  }

  /** `merge_row_response_stream` over what the server sent: the items it
      yields, and the error it raises. An RPC error arrives after the
      delivered responses, so the partial-state check is not reached. */
  function MergerStream(server: ServerAttempt): MergedAttempt {
    var run := ProcessResponses(Initial, server.responses);
    if run.failure.Some? then MergedAttempt(run.items, Some(InvalidChunk(run.failure.value)))
    else if server.streamError.Some? then MergedAttempt(run.items, Some(RpcError(server.streamError.value)))
    else if !IsTerminal(run.machine) then MergedAttempt(run.items, Some(InvalidChunk("read_rows completed with partial state remaining")))
    else MergedAttempt(run.items, None)
  }

  /** The retry predicate of both surfaces. */
  predicate RetryableForMerger(e: ReadError) {
    e.RpcError? && e.code in {DeadlineExceeded, ServiceUnavailable, Aborted}
  }

  /** The state kept between attempts. */
  datatype RetryState = RetryState(request: ReadRequest, dedup: Dedup, errors: seq<ReadError>)

  /** Everything the read passed on, the requests it sent, and how it
      ended. */
  datatype RetryRun = RetryRun(out: seq<Item>, sent: seq<ReadRequest>, dedup: Dedup, outcome: Outcome)

  /** The retried read: attempts run until one ends cleanly, reaches the
      limit, fails with an error that is not retried, or no attempt is
      left. Retried errors are collected, as `on_error_fn` does. */
  function RetryMerger(s: Surface, st: RetryState, rowLimit: nat, attempts: seq<ServerAttempt>): (r: RetryRun)
    ensures |r.sent| <= |attempts|
    decreases |attempts|
  {
    var prepared := Prepare(s, st.request, st.dedup, rowLimit);
    if prepared.None? then RetryRun([], [], st.dedup, Finished)
    else if |attempts| == 0 then RetryRun([], [], st.dedup, BudgetSpent(st.errors))
    else
      var req := prepared.value;
      var merged := MergerStream(attempts[0]);
      var failure := merged.failure;
      var d := DedupItems(st.dedup, merged.items, rowLimit);
      if d.stopped || failure.None? then RetryRun(d.out, [req], d.dedup, Finished)
      else if !RetryableForMerger(failure.value) then RetryRun(d.out, [req], d.dedup, Failed(failure.value))
      else
        var rest := RetryMerger(s, RetryState(req, d.dedup, st.errors + [failure.value]), rowLimit, attempts[1..]);
        RetryRun(d.out + rest.out, [req] + rest.sent, rest.dedup, rest.outcome)
  }

  /** A read from the start: nothing seen, nothing emitted, and the
      request's own `rows_limit` as the total limit. */
  function ReadWithRetries(s: Surface, req: ReadRequest, attempts: seq<ServerAttempt>): RetryRun
    requires req.rowsLimit >= 0
  {
    RetryMerger(s, RetryState(req, Dedup(None, 0), []), req.rowsLimit, attempts)
  }

  // ---------------------------------------------------------------------
  // The generated synchronous attempt

  /** What one generated attempt did: the request it sent, if it got that
      far, and the message of the error it raised. */
  datatype StubbedAttempt = StubbedAttempt(sent: Option<ReadRequest>, raised: Option<string>)

  /** `_read_rows_retryable_attempt` as generated for the synchronous
      surface: the request is prepared as `Prepare` does and the RPC is
      started, and then the `_prepare_stream` stub raises
      `NotImplementedError` before any item is read. An attempt that
      returns before the call, its limit used up, raises nothing. The
      retried read above models the attempt the asynchronous original
      describes. */
  function SyncAttemptAsWritten(req: ReadRequest, d: Dedup, rowLimit: nat): (r: StubbedAttempt)
    ensures r.sent.Some? <==> r.raised.Some?
    ensures r.sent.None? <==> d.lastSeen.Some? && rowLimit != 0 && d.emitCount >= rowLimit
    ensures d.lastSeen.None? ==> r.sent == Some(req)
    ensures r.sent.Some? ==> r.raised == Some(Helpers.StubMessage)
  {
    var prepared := Prepare(SyncIterator, req, d, rowLimit);
    if prepared.None? then StubbedAttempt(None, None)
    else StubbedAttempt(prepared, Some(Helpers.StubMessage))
  }

  // ---------------------------------------------------------------------
  // `Table.read_rows`: skipping by the set of emitted keys

  /** Rows whose key was not emitted before are passed on; every key that
      is processed, scan markers included, joins the emitted set. The
      merger feeding this path is not part of this model; it is taken to
      yield rows and scan markers. */
  function SkipEmitted(emitted: seq<Key>, items: seq<Item>): (r: (seq<Key>, seq<Item>))
    requires forall i :: 0 <= i < |items| ==> !items[i].StatsItem?
    ensures |r.1| <= |items|
    decreases |items|
  {
    if |items| == 0 then (emitted, [])
    else
      var k := ItemKey(items[0]);
      if k in emitted then SkipEmitted(emitted, items[1..])
      else
        var rest := SkipEmitted(emitted + [k], items[1..]);
        (rest.0, (if items[0].ScanMarker? then [] else [items[0]]) + rest.1)
  }

  predicate RowsAndMarkers(attempts: seq<MergedAttempt>) {
    forall j, i :: 0 <= j < |attempts| && 0 <= i < |attempts[j].items| ==> !attempts[j].items[i].StatsItem?
  }

  /** This path also retries on `InvalidChunk`. */
  predicate RetryableForTable(e: ReadError) {
    e.InvalidChunk? || (e.RpcError? && e.code in {DeadlineExceeded, ServiceUnavailable})
  }

  datatype TableRun = TableRun(out: seq<Item>, sent: seq<ReadRequest>, emitted: seq<Key>, outcome: Outcome)

  /** The request of an attempt: revised by the emitted keys once
      something was emitted, when revision on retry is enabled. */
  function TableRequest(req: ReadRequest, emitted: seq<Key>, reviseOnRetry: bool): (r: ReadRequest)
    ensures r.rowsLimit == req.rowsLimit
    ensures !reviseOnRetry || |emitted| == 0 ==> r == req
    ensures reviseOnRetry && |emitted| > 0 ==> r.rows.Some? && forall k :: k in r.rows.value.rowKeys ==> k !in emitted
  {
    if reviseOnRetry && |emitted| > 0 then req.(rows := Some(ReviseEmitted(req.rows, emitted))) else req
  }

  /** `_read_rows_retryable` under its retry wrapper: with revision on
      retry enabled and something emitted, the row set is revised by the
      emitted keys before the call. */
  function RetryTable(req: ReadRequest, emitted: seq<Key>, reviseOnRetry: bool,
                      attempts: seq<MergedAttempt>, errors: seq<ReadError>): (r: TableRun)
    requires RowsAndMarkers(attempts)
    ensures |r.sent| <= |attempts|
    decreases |attempts|
  {
    if |attempts| == 0 then TableRun([], [], emitted, BudgetSpent(errors))
    else
      var sent := TableRequest(req, emitted, reviseOnRetry);
      var (emitted1, out) := SkipEmitted(emitted, attempts[0].items);
      var failure := attempts[0].failure;
      if failure.None? then TableRun(out, [sent], emitted1, Finished)
      else if !RetryableForTable(failure.value) then TableRun(out, [sent], emitted1, Failed(failure.value))
      else
        assert RowsAndMarkers(attempts[1..]) by {
          forall j, i | 0 <= j < |attempts[1..]| && 0 <= i < |attempts[1..][j].items|
            ensures !attempts[1..][j].items[i].StatsItem?
          {
            assert attempts[1..][j] == attempts[j + 1];
          }
        }
        var rest := RetryTable(sent, emitted1, reviseOnRetry, attempts[1..], errors + [failure.value]);
        TableRun(out + rest.out, [sent] + rest.sent, rest.emitted, rest.outcome)
  }
}
