/** One attempt of `_ReadRowsOperation` in
    google/cloud/bigtable/data/_sync/_read_rows.py: the raw responses pass
    through `chunk_stream`, which checks key order and counts committed
    rows against the remaining limit, and the chunks it yields are merged
    by `merge_rows`. Both are generators, so their steps interleave chunk
    by chunk: `chunk_stream`'s check before it yields a chunk, the merge
    step (which may yield a row), then `chunk_stream`'s bookkeeping when
    the next chunk is pulled. */
module ReadRowsAttempt {
  import opened Wrappers
  import opened Keys
  import opened ReadRowsTypes
  import opened LoopMerger

  /** What ends an attempt: an `InvalidChunk` raised by the client, or an
      error status raised by the RPC stream itself. */
  datatype ReadError = InvalidChunk(message: string) | RpcError(code: nat)

  /** The operation fields `chunk_stream` reads and writes, and its local
      `current_key`. */
  datatype Gate = Gate(lastYielded: Option<Key>, remaining: Option<int>, currentKey: Option<Key>)

  /** Before yielding a chunk: the first chunk of a row (no current key)
      must sort after the last yielded key, when that key is non-empty.
      (The source's `current_key is None` test after the assignment can
      never hold, since a protobuf `bytes` field is never None.) */
  function BeforeChunk(g: Gate, c: Chunk): (r: Result<Gate, string>)
    ensures g.currentKey.Some? ==> r == Ok(g)
    ensures g.currentKey.None? ==>
      (r.Ok? <==> !(g.lastYielded.Some? && Truthy(g.lastYielded.value) && LessEq(c.rowKey, g.lastYielded.value)))
    ensures g.currentKey.None? && r.Ok? ==> r.value == g.(currentKey := Some(c.rowKey))
  {
    if g.currentKey.Some? then Ok(g)
    else if g.lastYielded.Some? && Truthy(g.lastYielded.value) && LessEq(c.rowKey, g.lastYielded.value) then
      Err("row keys should be strictly increasing")
    else Ok(g.(currentKey := Some(c.rowKey)))
  }

  /** After the chunk was consumed: a reset forgets the current key; a
      commit records it as last yielded and uses up one row of the limit,
      failing once the limit is overrun (the state is updated before the
      raise). */
  datatype GateOutcome = GateOutcome(gate: Gate, failure: Option<string>)

  function AfterChunk(g: Gate, c: Chunk): (r: GateOutcome)
    ensures c.resetRow ==> r == GateOutcome(g.(currentKey := None), None)
    ensures !c.resetRow && !c.commitRow ==> r == GateOutcome(g, None)
    ensures !c.resetRow && c.commitRow ==>
      && r.gate.lastYielded == g.currentKey && r.gate.currentKey.None?
      && (g.remaining.None? ==> r.gate.remaining.None? && r.failure.None?)
      && (g.remaining.Some? ==> r.gate.remaining == Some(g.remaining.value - 1)
                                && (r.failure.Some? <==> g.remaining.value < 1))
  {
    if c.resetRow then GateOutcome(g.(currentKey := None), None)
    else if c.commitRow then
      var remaining := if g.remaining.Some? then Some(g.remaining.value - 1) else None;
      var g1 := Gate(g.currentKey, remaining, None);
      if remaining.Some? && remaining.value < 0 then GateOutcome(g1, Some("emit count exceeds row limit"))
      else GateOutcome(g1, None)
    else GateOutcome(g, None)
  }

  /** A response's `last_scanned_row_key`, when non-empty, must sort after
      the last yielded key and becomes the last yielded key. */
  function OnScanned(g: Gate, key: Key): (r: Result<Gate, string>)
    ensures !Truthy(key) ==> r == Ok(g)
    ensures Truthy(key) ==> (r.Ok? <==> !(g.lastYielded.Some? && LessEq(key, g.lastYielded.value)))
    ensures Truthy(key) && r.Ok? ==> r.value == g.(lastYielded := Some(key))
  {
    if !Truthy(key) then Ok(g)
    else if g.lastYielded.Some? && LessEq(key, g.lastYielded.value) then Err("last scanned out of order")
    else Ok(g.(lastYielded := Some(key)))
  }

  datatype Attempt = Attempt(merge: MergeState, gate: Gate)

  /** The attempt after part of its input: the rows yielded so far and the
      error it ended with, if any. */
  datatype AttemptRun = AttemptRun(attempt: Attempt, rows: seq<Row>, failure: Option<ReadError>)

  /** One chunk through both generators. */
  function ChunkStep(a: Attempt, c: Chunk): (r: AttemptRun)
    ensures |r.rows| <= 1
  {
    match BeforeChunk(a.gate, c)
    case Err(e) => AttemptRun(a, [], Some(InvalidChunk(e)))
    case Ok(g1) =>
      match MergeStep(a.merge, c)
      case Err(e) => AttemptRun(Attempt(a.merge, g1), [], Some(InvalidChunk(e)))
      case Ok((m1, row)) =>
        var after := AfterChunk(g1, c);
        var failure := if after.failure.Some? then Some(InvalidChunk(after.failure.value)) else None;
        AttemptRun(Attempt(m1, after.gate), RowList(row), failure)
  }

  function AttemptChunks(a: Attempt, cs: seq<Chunk>): (r: AttemptRun)
    decreases |cs|, 1
  {
    if |cs| == 0 then AttemptRun(a, [], None) else ResumeAttempt(ChunkStep(a, cs[0]), cs[1..])
  }

  /** Carry on after one step unless it failed. */
  function ResumeAttempt(first: AttemptRun, rest: seq<Chunk>): (r: AttemptRun)
    decreases |rest|, 2
  {
    if first.failure.Some? then first
    else
      var r := AttemptChunks(first.attempt, rest);
      AttemptRun(r.attempt, first.rows + r.rows, r.failure)
  }

  /** One response: its heartbeat, then its chunks. As written, the
      source forgets the current row key at every response
      (`perResponseKeyReset`); the corrected version keeps it until the
      row is committed or reset. */
  function AttemptResponse(a: Attempt, resp: Response, perResponseKeyReset: bool): (r: AttemptRun) {
    match OnScanned(a.gate, resp.lastScannedRowKey)
    case Err(e) => AttemptRun(a, [], Some(InvalidChunk(e)))
    case Ok(g) =>
      var g1 := if perResponseKeyReset then g.(currentKey := None) else g;
      AttemptChunks(a.(gate := g1), resp.chunks)
  }

  function AttemptResponses(a: Attempt, rs: seq<Response>, perResponseKeyReset: bool): (r: AttemptRun)
    decreases |rs|
  {
    if |rs| == 0 then AttemptRun(a, [], None)
    else
      var first := AttemptResponse(a, rs[0], perResponseKeyReset);
      if first.failure.Some? then first
      else
        var r := AttemptResponses(first.attempt, rs[1..], perResponseKeyReset);
        AttemptRun(r.attempt, first.rows + r.rows, r.failure)
  }

  /** The attempt's starting point: between rows, with the operation's
      last yielded key and remaining count. */
  function Start(lastYielded: Option<Key>, remaining: Option<int>): Attempt {
    Attempt(BetweenRows, Gate(lastYielded, remaining, None))
  }

  /** A whole attempt over the responses the server sent, ending either
      cleanly (`streamError == None`) or with an RPC error. A clean end
      inside a row is "premature end of stream". */
  function RunAttempt(lastYielded: Option<Key>, remaining: Option<int>, rs: seq<Response>,
                      streamError: Option<nat>, perResponseKeyReset: bool): (r: AttemptRun)
  {
    var run := AttemptResponses(Start(lastYielded, remaining), rs, perResponseKeyReset);
    if run.failure.Some? then run
    else if streamError.Some? then run.(failure := Some(RpcError(streamError.value)))
    else if !run.attempt.merge.BetweenRows? then run.(failure := Some(InvalidChunk("premature end of stream")))
    else run
  }

  /** `_read_rows_attempt`'s stream exactly as written. */
  function AttemptStreamAsWritten(lastYielded: Option<Key>, remaining: Option<int>, rs: seq<Response>, streamError: Option<nat>): AttemptRun {
    RunAttempt(lastYielded, remaining, rs, streamError, true)
  }

  /** The same with `current_key` kept across responses, so that a row
      whose chunks span responses is checked against its own key. */
  function AttemptStream(lastYielded: Option<Key>, remaining: Option<int>, rs: seq<Response>, streamError: Option<nat>): AttemptRun {
    RunAttempt(lastYielded, remaining, rs, streamError, false)
  }
}
