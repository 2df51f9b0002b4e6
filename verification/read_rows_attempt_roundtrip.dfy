/** The corrected attempt yields exactly the rows the server laid out in
    chunks, however the chunks are grouped into responses, as long as the
    rows come after the last yielded key and fit in the remaining count. */
module ReadRowsAttemptRoundTrip {
  import opened Wrappers
  import opened Keys
  import opened ReadRowsTypes
  import opened ChunkEncoding
  import opened LoopMerger
  import opened LoopMergerRoundTrip
  import opened ReadRowsAttempt

  /** `chunk_stream`'s checks and bookkeeping alone, over chunks. */
  function GateChunks(g: Gate, cs: seq<Chunk>): GateOutcome
    decreases |cs|
  {
    if |cs| == 0 then GateOutcome(g, None)
    else match BeforeChunk(g, cs[0])
      case Err(e) => GateOutcome(g, Some(e))
      case Ok(g1) =>
        var after := AfterChunk(g1, cs[0]);
        if after.failure.Some? then after else GateChunks(after.gate, cs[1..])
  }

  /** When `chunk_stream` raises nothing, the attempt is `merge_rows`. */
  lemma {:induction false} GateCleanIsMerge(m: MergeState, g: Gate, cs: seq<Chunk>)
    requires GateChunks(g, cs).failure.None?
    ensures var r := AttemptChunks(Attempt(m, g), cs);
      var mr := MergeChunks(m, cs);
      && r.rows == mr.rows
      && r.attempt.merge == mr.state
      && r.failure == (if mr.failure.Some? then Some(InvalidChunk(mr.failure.value)) else None)
      && (mr.failure.None? ==> r.attempt.gate == GateChunks(g, cs).gate)
    decreases |cs|
  {
    if |cs| > 0 {
      var g1 := BeforeChunk(g, cs[0]).value;
      var step := MergeStep(m, cs[0]);
      if step.Ok? {
        var after := AfterChunk(g1, cs[0]);
        GateCleanIsMerge(step.value.0, after.gate, cs[1..]);
      }
    }
  }

  lemma {:induction false} GateChunksAppend(g: Gate, a: seq<Chunk>, b: seq<Chunk>)
    ensures var ra := GateChunks(g, a);
      GateChunks(g, a + b) == if ra.failure.Some? then ra else GateChunks(ra.gate, b)
    decreases |a|
  {
    if |a| == 0 {
      assert a + b == b;
    } else {
      assert (a + b)[0] == a[0] && (a + b)[1..] == a[1..] + b;
      var before := BeforeChunk(g, a[0]);
      if before.Ok? {
        GateChunksAppend(AfterChunk(before.value, a[0]).gate, a[1..], b);
      }
    }
  }

  /** The chunks of a row after its first: no resets, and a commit on the
      last one only. */
  predicate RowTail(cs: seq<Chunk>) {
    && |cs| > 0
    && (forall i :: 0 <= i < |cs| ==> !cs[i].resetRow)
    && (forall i :: 0 <= i < |cs| - 1 ==> !cs[i].commitRow)
    && cs[|cs| - 1].commitRow
  }

  function Decrement(remaining: Option<int>): Option<int> {
    if remaining.Some? then Some(remaining.value - 1) else None
  }

  lemma {:induction false} GateTail(g: Gate, rk: Key, cs: seq<Chunk>)
    requires g.currentKey == Some(rk) && RowTail(cs)
    requires g.remaining.Some? ==> g.remaining.value >= 1
    ensures GateChunks(g, cs) == GateOutcome(Gate(Some(rk), Decrement(g.remaining), None), None)
    decreases |cs|
  {
    if |cs| > 1 {
      assert AfterChunk(g, cs[0]) == GateOutcome(g, None);
      assert RowTail(cs[1..]) by {
        forall i | 0 <= i < |cs[1..]| ensures !cs[1..][i].resetRow { assert cs[1..][i] == cs[i + 1]; }
        forall i | 0 <= i < |cs[1..]| - 1 ensures !cs[1..][i].commitRow { assert cs[1..][i] == cs[i + 1]; }
      }
      GateTail(g, rk, cs[1..]);
    }
  }

  lemma GateRow(g: Gate, r: WireRow)
    requires WireRowValid(r) && g.currentKey.None?
    requires g.lastYielded.Some? ==> Less(g.lastYielded.value, r.key)
    requires g.remaining.Some? ==> g.remaining.value >= 1
    ensures GateChunks(g, EncodeRow(r)) == GateOutcome(Gate(Some(r.key), Decrement(g.remaining), None), None)
  {
    var cs := EncodeRow(r);
    if g.lastYielded.Some? {
      LessAsymmetric(g.lastYielded.value, r.key);
    }
    var g1 := g.(currentKey := Some(r.key));
    assert BeforeChunk(g, cs[0]) == Ok(g1);
    if |cs| > 1 {
      assert AfterChunk(g1, cs[0]) == GateOutcome(g1, None);
      assert RowTail(cs[1..]) by {
        forall i | 0 <= i < |cs[1..]| ensures !cs[1..][i].resetRow { assert cs[1..][i] == cs[i + 1]; }
        forall i | 0 <= i < |cs[1..]| - 1 ensures !cs[1..][i].commitRow { assert cs[1..][i] == cs[i + 1]; }
      }
      GateTail(g1, r.key, cs[1..]);
    }
  }

  function LastKey(lo: Option<Key>, rows: seq<WireRow>): Option<Key> {
    if |rows| == 0 then lo else Some(rows[|rows| - 1].key)
  }

  function Minus(remaining: Option<int>, k: nat): Option<int> {
    if remaining.Some? then Some(remaining.value - k) else None
  }

  lemma {:induction false} GateRows(g: Gate, rows: seq<WireRow>)
    requires WireRowsValid(rows) && g.currentKey.None?
    requires g.lastYielded.Some? && |rows| > 0 ==> Less(g.lastYielded.value, rows[0].key)
    requires g.remaining.Some? ==> g.remaining.value >= |rows|
    ensures GateChunks(g, EncodeRows(rows))
         == GateOutcome(Gate(LastKey(g.lastYielded, rows), Minus(g.remaining, |rows|), None), None)
    decreases |rows|
  {
    if |rows| > 0 {
      GateRow(g, rows[0]);
      GateChunksAppend(g, EncodeRow(rows[0]), EncodeRows(rows[1..]));
      WireRowsValidTail(rows);
      GateRows(Gate(Some(rows[0].key), Decrement(g.remaining), None), rows[1..]);
    }
  }

  // ---------------------------------------------------------------------
  // Response boundaries

  predicate AttemptAppendLaw(a: Attempt, xs: seq<Chunk>, ys: seq<Chunk>) {
    var rx := AttemptChunks(a, xs);
    AttemptChunks(a, xs + ys)
      == if rx.failure.Some? then rx
         else var ry := AttemptChunks(rx.attempt, ys); AttemptRun(ry.attempt, rx.rows + ry.rows, ry.failure)
  }

  lemma ResumeAppend(first: AttemptRun, xs: seq<Chunk>, ys: seq<Chunk>)
    requires first.failure.None? ==> AttemptAppendLaw(first.attempt, xs, ys)
    ensures var rx := ResumeAttempt(first, xs);
      ResumeAttempt(first, xs + ys)
        == if rx.failure.Some? then rx
           else var ry := AttemptChunks(rx.attempt, ys); AttemptRun(ry.attempt, rx.rows + ry.rows, ry.failure)
  {
    if first.failure.None? {
      var r1 := AttemptChunks(first.attempt, xs);
      if r1.failure.None? {
        var ry := AttemptChunks(r1.attempt, ys);
        assert first.rows + (r1.rows + ry.rows) == (first.rows + r1.rows) + ry.rows;
      }
    }
  }

  lemma {:induction false} AttemptChunksAppend(a: Attempt, xs: seq<Chunk>, ys: seq<Chunk>)
    ensures AttemptAppendLaw(a, xs, ys)
    decreases |xs|
  {
    if |xs| == 0 {
      assert xs + ys == ys;
    } else {
      assert (xs + ys)[0] == xs[0] && (xs + ys)[1..] == xs[1..] + ys;
      var first := ChunkStep(a, xs[0]);
      if first.failure.None? {
        AttemptChunksAppend(first.attempt, xs[1..], ys);
      }
      ResumeAppend(first, xs[1..], ys);
    }
  }

  lemma {:induction false} ResponseBoundariesIrrelevant(a: Attempt, rs: seq<Response>)
    requires ChunksOnly(rs)
    ensures AttemptResponses(a, rs, false) == AttemptChunks(a, AllChunks(rs))
    decreases |rs|
  {
    if |rs| > 0 {
      assert AttemptResponse(a, rs[0], false) == AttemptChunks(a, rs[0].chunks);
      AttemptChunksAppend(a, rs[0].chunks, AllChunks(rs[1..]));
      assert ChunksOnly(rs[1..]) by {
        forall i | 0 <= i < |rs[1..]| ensures !Truthy(rs[1..][i].lastScannedRowKey) && rs[1..][i].stats.None? {
          assert rs[1..][i] == rs[i + 1];
        }
      }
      var first := AttemptResponse(a, rs[0], false);
      if first.failure.None? {
        ResponseBoundariesIrrelevant(first.attempt, rs[1..]);
      }
    }
  }

  /** However valid rows after the last yielded key are laid out in chunks
      and responses, the corrected attempt yields exactly those rows, ends
      cleanly, and leaves the last row's key as last yielded and the
      remaining count reduced by the number of rows. */
  lemma AttemptStreamRoundTrip(rows: seq<WireRow>, rs: seq<Response>, lastYielded: Option<Key>, remaining: Option<int>)
    requires WireRowsValid(rows)
    requires ChunksOnly(rs) && AllChunks(rs) == EncodeRows(rows)
    requires lastYielded.Some? && |rows| > 0 ==> Less(lastYielded.value, rows[0].key)
    requires remaining.Some? ==> remaining.value >= |rows|
    ensures AttemptStream(lastYielded, remaining, rs, None)
         == AttemptRun(Attempt(BetweenRows, Gate(LastKey(lastYielded, rows), Minus(remaining, |rows|), None)),
                       DecodeRows(rows), None)
  {
    var g := Gate(lastYielded, remaining, None);
    ResponseBoundariesIrrelevant(Start(lastYielded, remaining), rs);
    GateRows(g, rows);
    GateCleanIsMerge(BetweenRows, g, EncodeRows(rows));
    RowsComplete(rows);
  }
}
