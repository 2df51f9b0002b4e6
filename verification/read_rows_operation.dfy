/** `_ReadRowsOperation`: a read as a series of attempts sharing the last
    yielded key and the remaining row count. Each attempt first trims the
    request to what is still wanted, and returns at once, without a call,
    when the row set is used up or no rows remain to be read. */
module ReadRowsOperation {
  import opened Wrappers
  import opened Keys
  import opened ReadRowsTypes
  import opened RowSetRevision
  import opened ReadRowsAttempt
  import opened ReadRowsRetry

  /** The operation's request and the two fields its attempts share. */
  datatype Operation = Operation(request: ReadRequest, lastYielded: Option<Key>, remaining: Option<int>)

  /** A new operation: no row yielded yet, and a `rows_limit` of 0 read as
      "no limit". */
  function StartOperation(req: ReadRequest): (op: Operation)
    ensures op.request == req && op.lastYielded.None?
    ensures op.remaining.None? <==> req.rowsLimit == 0
    ensures op.remaining.Some? ==> op.remaining.value == req.rowsLimit
  {
    Operation(req, None, if req.rowsLimit == 0 then None else Some(req.rowsLimit))
  }

  /** What an attempt does before any call: skip the call, or send a
      request (which the operation also keeps as its request). */
  datatype Prepared = Skip | Send(request: ReadRequest)

  function PrepareAttempt(op: Operation): (r: Prepared)
    ensures op.lastYielded.Some? && ReviseOperation(op.request.rows, op.lastYielded.value).None? ==> r.Skip?
    ensures op.remaining == Some(0) ==> r.Skip?
    ensures r.Send? ==> op.remaining.Some? ==> r.request.rowsLimit == op.remaining.value != 0
    ensures r.Send? ==> op.remaining.None? ==> r.request.rowsLimit == op.request.rowsLimit
    ensures r.Send? ==> op.lastYielded.None? ==> r.request.rows == op.request.rows
    ensures r.Send? ==> op.lastYielded.Some? ==> r.request.rows == ReviseOperation(op.request.rows, op.lastYielded.value)
    ensures r.Skip? ==> (op.lastYielded.Some? && ReviseOperation(op.request.rows, op.lastYielded.value).None?) || op.remaining == Some(0)
  {
    var revised := if op.lastYielded.Some? then ReviseOperation(op.request.rows, op.lastYielded.value) else op.request.rows;
    if op.lastYielded.Some? && revised.None? then Skip
    else
      var req := op.request.(rows := revised);
      if op.remaining.Some? then
        if op.remaining.value == 0 then Skip else Send(req.(rowsLimit := op.remaining.value))
      else Send(req)
  }

  /** The caller's list of retryable exceptions, as status codes;
      `InvalidChunk` is not among them. */
  predicate RetryableForOperation(e: ReadError, retryable: set<nat>) {
    e.RpcError? && e.code in retryable
  }

  datatype OperationRun = OperationRun(rows: seq<Row>, sent: seq<ReadRequest>, op: Operation, outcome: Outcome)

  /** The attempts of one operation under its retry wrapper. The fields
      `chunk_stream` updates survive a failed attempt. */
  function RunOperation(op: Operation, attempts: seq<ServerAttempt>, retryable: set<nat>, errors: seq<ReadError>): (r: OperationRun)
    ensures |r.sent| <= |attempts|
    decreases |attempts|
  {
    var p := PrepareAttempt(op);
    if p.Skip? then OperationRun([], [], op, Finished)
    else if |attempts| == 0 then OperationRun([], [], op, BudgetSpent(errors))
    else
      var a := AttemptStream(op.lastYielded, op.remaining, attempts[0].responses, attempts[0].streamError);
      var op1 := Operation(p.request, a.attempt.gate.lastYielded, a.attempt.gate.remaining);
      if a.failure.None? then OperationRun(a.rows, [p.request], op1, Finished)
      else if !RetryableForOperation(a.failure.value, retryable) then OperationRun(a.rows, [p.request], op1, Failed(a.failure.value))
      else
        var rest := RunOperation(op1, attempts[1..], retryable, errors + [a.failure.value]);
        OperationRun(a.rows + rest.rows, [p.request] + rest.sent, rest.op, rest.outcome)
  }

  /** `start_operation` on a request. */
  function ReadRows(req: ReadRequest, attempts: seq<ServerAttempt>, retryable: set<nat>): OperationRun {
    RunOperation(StartOperation(req), attempts, retryable, [])
  }
}

/** Across the attempts of an operation, rows come out in strictly
    increasing key order and never exceed the row limit except by the one
    row whose commit overruns it, after which the operation fails. */
module ReadRowsOperationProofs {
  import opened Wrappers
  import opened Keys
  import opened ReadRowsTypes
  import opened ReadRowsAttempt
  import opened ReadRowsAttemptOrder
  import opened ReadRowsAttemptLimit
  import opened ReadRowsRetry
  import opened ReadRowsOperation

  lemma AttemptWithin(ly: Option<Key>, rem: Option<int>, rs: seq<Response>, se: Option<nat>)
    requires ly.Some? ==> Truthy(ly.value)
    ensures var a := AttemptStream(ly, rem, rs, se);
      && Within(ly, RowKeys(a.rows), a.attempt.gate.lastYielded)
      && (a.attempt.gate.lastYielded.Some? ==> Truthy(a.attempt.gate.lastYielded.value))
  {
    var a := AttemptStream(ly, rem, rs, se);
    AttemptStreamOrdered(ly, rem, rs, se);
    var ks := RowKeys(a.rows);
    var hi := a.attempt.gate.lastYielded;
    if |ks| > 0 {
      forall i | 0 <= i < |ks| && hi.Some? ensures LessEq(ks[i], hi.value) {
        if i < |ks| - 1 {
          LessLessEqTransitive(ks[i], ks[|ks| - 1], hi.value);
        }
      }
      if ly.Some? {
        LessEqTransitive(ly.value, ks[0], ks[|ks| - 1]);
        LessEqTransitive(ly.value, ks[|ks| - 1], hi.value);
      }
    }
  }

  /** Across all attempts, rows come out in strictly increasing key order,
      all after the key the operation started from. */
  lemma {:induction false} RunOperationOrdered(op: Operation, attempts: seq<ServerAttempt>, retryable: set<nat>, errors: seq<ReadError>)
    requires op.lastYielded.Some? ==> Truthy(op.lastYielded.value)
    ensures var r := RunOperation(op, attempts, retryable, errors);
      && Within(op.lastYielded, RowKeys(r.rows), r.op.lastYielded)
      && (r.op.lastYielded.Some? ==> Truthy(r.op.lastYielded.value))
    decreases |attempts|
  {
    var p := PrepareAttempt(op);
    if p.Send? && |attempts| > 0 {
      var a := AttemptStream(op.lastYielded, op.remaining, attempts[0].responses, attempts[0].streamError);
      AttemptWithin(op.lastYielded, op.remaining, attempts[0].responses, attempts[0].streamError);
      var op1 := Operation(p.request, a.attempt.gate.lastYielded, a.attempt.gate.remaining);
      if a.failure.Some? && RetryableForOperation(a.failure.value, retryable) {
        RunOperationOrdered(op1, attempts[1..], retryable, errors + [a.failure.value]);
        var rest := RunOperation(op1, attempts[1..], retryable, errors + [a.failure.value]);
        RowKeysAppend(a.rows, rest.rows);
        WithinAppend(op.lastYielded, RowKeys(a.rows), op1.lastYielded, RowKeys(rest.rows), rest.op.lastYielded);
      }
    } else {
      assert Within(op.lastYielded, [], op.lastYielded);
    }
  }

  lemma {:induction false} ChunksRaiseInvalidChunk(a: Attempt, cs: seq<Chunk>)
    ensures var r := AttemptChunks(a, cs); r.failure.Some? ==> r.failure.value.InvalidChunk?
    decreases |cs|
  {
    if |cs| > 0 {
      var first := ChunkStep(a, cs[0]);
      if first.failure.None? {
        ChunksRaiseInvalidChunk(first.attempt, cs[1..]);
      }
    }
  }

  /** Before the stream ends, only `InvalidChunk` is raised. */
  lemma {:induction false} ResponsesRaiseInvalidChunk(a: Attempt, rs: seq<Response>)
    ensures var r := AttemptResponses(a, rs, false); r.failure.Some? ==> r.failure.value.InvalidChunk?
    decreases |rs|
  {
    if |rs| > 0 {
      var sc := OnScanned(a.gate, rs[0].lastScannedRowKey);
      if sc.Ok? {
        ChunksRaiseInvalidChunk(a.(gate := sc.value), rs[0].chunks);
      }
      var first := AttemptResponse(a, rs[0], false);
      if first.failure.None? {
        ResponsesRaiseInvalidChunk(first.attempt, rs[1..]);
      }
    }
  }

  /** An attempt that ends without error or with an RPC error has used up
      one unit of the remaining count per row yielded. */
  lemma AttemptRemaining(ly: Option<Key>, n: int, rs: seq<Response>, se: Option<nat>)
    requires n >= 0
    ensures var a := AttemptStream(ly, Some(n), rs, se);
      && a.attempt.gate.remaining.Some?
      && |a.rows| <= n + 1
      && (a.failure.None? || a.failure.value.RpcError? ==>
            0 <= a.attempt.gate.remaining.value && |a.rows| <= n - a.attempt.gate.remaining.value)
  {
    AttemptResponsesLimit(Start(ly, Some(n)), rs, false, n);
    ResponsesRaiseInvalidChunk(Start(ly, Some(n)), rs);
  }

  /** Starting with `n` rows remaining, the operation yields at most `n`
      rows, or `n + 1` when it fails with `InvalidChunk` (the row whose
      commit overran the count is yielded before the error). */
  lemma {:induction false} RunOperationLimit(op: Operation, attempts: seq<ServerAttempt>, retryable: set<nat>, errors: seq<ReadError>, n: int)
    requires op.remaining == Some(n) && n >= 0
    ensures var r := RunOperation(op, attempts, retryable, errors);
      && r.op.remaining.Some?
      && |r.rows| <= n + 1
      && (!(r.outcome.Failed? && r.outcome.error.InvalidChunk?) ==>
            0 <= r.op.remaining.value && |r.rows| <= n - r.op.remaining.value)
    decreases |attempts|
  {
    var p := PrepareAttempt(op);
    if p.Send? && |attempts| > 0 {
      var a := AttemptStream(op.lastYielded, op.remaining, attempts[0].responses, attempts[0].streamError);
      AttemptRemaining(op.lastYielded, n, attempts[0].responses, attempts[0].streamError);
      var op1 := Operation(p.request, a.attempt.gate.lastYielded, a.attempt.gate.remaining);
      if a.failure.Some? && RetryableForOperation(a.failure.value, retryable) {
        RunOperationLimit(op1, attempts[1..], retryable, errors + [a.failure.value], op1.remaining.value);
      }
    }
  }

  /** A read with `rows_limit = n > 0` yields at most `n` rows unless it
      fails with `InvalidChunk`, and never more than `n + 1`. */
  lemma ReadRowsLimit(req: ReadRequest, attempts: seq<ServerAttempt>, retryable: set<nat>)
    requires req.rowsLimit > 0
    ensures var r := ReadRows(req, attempts, retryable);
      && |r.rows| <= req.rowsLimit + 1
      && (!(r.outcome.Failed? && r.outcome.error.InvalidChunk?) ==> |r.rows| <= req.rowsLimit)
  {
    RunOperationLimit(StartOperation(req), attempts, retryable, [], req.rowsLimit);
  }

  /** A read yields rows in strictly increasing key order. */
  lemma ReadRowsOrdered(req: ReadRequest, attempts: seq<ServerAttempt>, retryable: set<nat>)
    ensures StrictlyIncreasing(RowKeys(ReadRows(req, attempts, retryable).rows))
  {
    RunOperationOrdered(StartOperation(req), attempts, retryable, []);
  }
}
