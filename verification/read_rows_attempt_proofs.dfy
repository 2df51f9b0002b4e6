/** Key order and the row limit across one `_read_rows_attempt`. */
module ReadRowsAttemptOrder {
  import opened Wrappers
  import opened Keys
  import opened ReadRowsTypes
  import opened LoopMerger
  import opened ReadRowsAttempt

  /** `lastRow` is the key of the last row yielded (or the bound the
      attempt started from). Between chunks: the last yielded key is
      non-empty and not below `lastRow`; between rows there is no current
      key; inside a row, the row's key sorts after `lastRow`, and either
      it is the current key or (after a commit flag on a chunk that did
      not end the row) the current key is gone and the last yielded key
      already reaches the row's key. */
  predicate OrderInv(a: Attempt, lastRow: Option<Key>) {
    && Covers(a.gate, lastRow)
    && (a.merge.BetweenRows? ==> a.gate.currentKey.None?)
    && (!a.merge.BetweenRows? ==>
          && Truthy(a.merge.key)
          && (lastRow.Some? ==> Less(lastRow.value, a.merge.key))
          && (|| a.gate.currentKey == Some(a.merge.key)
              || (a.gate.currentKey.None? && a.gate.lastYielded.Some? && LessEq(a.merge.key, a.gate.lastYielded.value))))
  }

  lemma NextLastRowAppend(lastRow: Option<Key>, a: seq<Row>, b: seq<Row>)
    ensures NextLastRow(lastRow, a + b) == NextLastRow(NextLastRow(lastRow, a), b)
  {
  }

  /** The last yielded key is non-empty and not below `lastRow`. This
      part survives a failed step, so the next attempt starts from it. */
  predicate Covers(g: Gate, lastRow: Option<Key>) {
    && (g.lastYielded.Some? ==> Truthy(g.lastYielded.value))
    && (lastRow.Some? ==> g.lastYielded.Some? && LessEq(lastRow.value, g.lastYielded.value))
  }

  function NextLastRow(lastRow: Option<Key>, rows: seq<Row>): Option<Key> {
    if |rows| == 0 then lastRow else Some(rows[|rows| - 1].key)
  }

  /** A chunk that passes `chunk_stream`'s check after a stray commit
      flag carries a key beyond the row's, which `merge_rows` rejects. */
  lemma StrayCommitBlocks(a: Attempt, c: Chunk, lastRow: Option<Key>)
    requires OrderInv(a, lastRow) && !a.merge.BetweenRows? && a.gate.currentKey.None?
    requires BeforeChunk(a.gate, c).Ok?
    ensures MergeStep(a.merge, c).Err?
  {
    var ly := a.gate.lastYielded.value;
    NotLessEqIsGreater(c.rowKey, ly);
    LessEqLessTransitive(a.merge.key, ly, c.rowKey);
    LessAsymmetric(a.merge.key, c.rowKey);
  }

  /** The first chunk of a row passes `chunk_stream`'s check only if its
      key sorts after the last row. */
  lemma FirstChunkAbove(a: Attempt, c: Chunk, lastRow: Option<Key>)
    requires OrderInv(a, lastRow) && a.merge.BetweenRows?
    requires BeforeChunk(a.gate, c).Ok? && Truthy(c.rowKey)
    ensures lastRow.Some? ==> Less(lastRow.value, c.rowKey)
    ensures a.gate.lastYielded.Some? ==> Less(a.gate.lastYielded.value, c.rowKey)
  {
    if a.gate.lastYielded.Some? {
      NotLessEqIsGreater(c.rowKey, a.gate.lastYielded.value);
      if lastRow.Some? {
        LessEqLessTransitive(lastRow.value, a.gate.lastYielded.value, c.rowKey);
      }
    }
  }

  /** What a run from a state satisfying `OrderInv(_, lastRow)` keeps:
      its rows continue the chain from `lastRow`, the gate covers the last
      of them, and a run that did not fail ends in `OrderInv` again. */
  predicate RunOrdered(lastRow: Option<Key>, r: AttemptRun) {
    && Chain(lastRow, RowKeys(r.rows), NextLastRow(lastRow, r.rows))
    && Covers(r.attempt.gate, NextLastRow(lastRow, r.rows))
    && (r.failure.None? ==> OrderInv(r.attempt, NextLastRow(lastRow, r.rows)))
  }

  /** A run that did not fail, followed by an ordered run from where it
      stopped, is ordered. */
  lemma ThenOrdered(lastRow: Option<Key>, first: AttemptRun, rest: AttemptRun)
    requires first.failure.None? && RunOrdered(lastRow, first)
    requires RunOrdered(NextLastRow(lastRow, first.rows), rest)
    ensures RunOrdered(lastRow, AttemptRun(rest.attempt, first.rows + rest.rows, rest.failure))
  {
    var lr1 := NextLastRow(lastRow, first.rows);
    NextLastRowAppend(lastRow, first.rows, rest.rows);
    RowKeysAppend(first.rows, rest.rows);
    ChainAppend(lastRow, RowKeys(first.rows), lr1, RowKeys(rest.rows), NextLastRow(lr1, rest.rows));
  }

  lemma ChunkStepOrdered(a: Attempt, c: Chunk, lastRow: Option<Key>)
    requires OrderInv(a, lastRow)
    ensures RunOrdered(lastRow, ChunkStep(a, c))
  {
    var before := BeforeChunk(a.gate, c);
    if before.Ok? {
      if !a.merge.BetweenRows? && a.gate.currentKey.None? {
        StrayCommitBlocks(a, c, lastRow);
      }
      if a.merge.BetweenRows? && Truthy(c.rowKey) {
        FirstChunkAbove(a, c, lastRow);
      }
      var step := MergeStep(a.merge, c);
      if step.Ok? {
        var row := step.value.1;
        if row.Some? {
          assert RowList(row) == [row.value];
          assert RowKeys([row.value]) == [row.value.key];
        }
      }
    }
  }

  lemma {:induction false} AttemptChunksOrdered(a: Attempt, cs: seq<Chunk>, lastRow: Option<Key>)
    requires OrderInv(a, lastRow)
    ensures RunOrdered(lastRow, AttemptChunks(a, cs))
    decreases |cs|, 1
  {
    if |cs| > 0 {
      ChunkStepOrdered(a, cs[0], lastRow);
      ResumeOrdered(ChunkStep(a, cs[0]), cs[1..], lastRow);
    }
  }

  lemma {:induction false} ResumeOrdered(first: AttemptRun, rest: seq<Chunk>, lastRow: Option<Key>)
    requires RunOrdered(lastRow, first)
    ensures RunOrdered(lastRow, ResumeAttempt(first, rest))
    decreases |rest|, 2
  {
    if first.failure.None? {
      var lr1 := NextLastRow(lastRow, first.rows);
      AttemptChunksOrdered(first.attempt, rest, lr1);
      ThenOrdered(lastRow, first, AttemptChunks(first.attempt, rest));
    }
  }

  /** A heartbeat only raises the last yielded key. */
  lemma ScannedOrdered(a: Attempt, key: Key, lastRow: Option<Key>)
    requires OrderInv(a, lastRow) && OnScanned(a.gate, key).Ok?
    ensures OrderInv(a.(gate := OnScanned(a.gate, key).value), lastRow)
  {
    if Truthy(key) && a.gate.lastYielded.Some? {
      var ly := a.gate.lastYielded.value;
      NotLessEqIsGreater(key, ly);
      if lastRow.Some? {
        LessEqLessTransitive(lastRow.value, ly, key);
      }
      if !a.merge.BetweenRows? && a.gate.currentKey.None? {
        LessEqLessTransitive(a.merge.key, ly, key);
      }
    }
  }

  lemma AttemptResponseOrdered(a: Attempt, resp: Response, lastRow: Option<Key>)
    requires OrderInv(a, lastRow)
    ensures RunOrdered(lastRow, AttemptResponse(a, resp, false))
  {
    var sc := OnScanned(a.gate, resp.lastScannedRowKey);
    if sc.Ok? {
      ScannedOrdered(a, resp.lastScannedRowKey, lastRow);
      AttemptChunksOrdered(a.(gate := sc.value), resp.chunks, lastRow);
    }
  }

  lemma {:induction false} AttemptResponsesOrdered(a: Attempt, rs: seq<Response>, lastRow: Option<Key>)
    requires OrderInv(a, lastRow)
    ensures RunOrdered(lastRow, AttemptResponses(a, rs, false))
    decreases |rs|
  {
    if |rs| > 0 {
      var first := AttemptResponse(a, rs[0], false);
      AttemptResponseOrdered(a, rs[0], lastRow);
      if first.failure.None? {
        var lr1 := NextLastRow(lastRow, first.rows);
        AttemptResponsesOrdered(first.attempt, rs[1..], lr1);
        ThenOrdered(lastRow, first, AttemptResponses(first.attempt, rs[1..], false));
      }
    }
  }

  /** With the current key kept across responses, an attempt yields rows
      in strictly increasing key order, all after the key the previous
      attempts stopped at, whatever the server sends. */
  lemma AttemptStreamOrdered(lastYielded: Option<Key>, remaining: Option<int>, rs: seq<Response>, streamError: Option<nat>)
    requires lastYielded.Some? ==> Truthy(lastYielded.value)
    ensures var r := AttemptStream(lastYielded, remaining, rs, streamError);
      Covers(r.attempt.gate, NextLastRow(lastYielded, r.rows))
    ensures var rows := AttemptStream(lastYielded, remaining, rs, streamError).rows;
      && StrictlyIncreasing(RowKeys(rows))
      && (lastYielded.Some? ==> forall i :: 0 <= i < |rows| ==> Less(lastYielded.value, rows[i].key))
  {
    AttemptResponsesOrdered(Start(lastYielded, remaining), rs, lastYielded);
    var rows := AttemptStream(lastYielded, remaining, rs, streamError).rows;
    assert forall i :: 0 <= i < |rows| ==> RowKeys(rows)[i] == rows[i].key;
  }
}

/** `chunk_stream` as written resets `current_key` at every response, so
    the first chunk of a response that continues a row is checked as if
    it started one, with its empty key. */
module ChunkStreamKeyReset {
  import opened Wrappers
  import opened Keys
  import opened ReadRowsTypes
  import opened LoopMerger
  import opened ReadRowsAttempt

  function FirstChunk(key: Key, value: Bytes, commit: bool): Chunk {
    Chunk(key, Some("f"), Some([113]), 0, [], value, 0, false, commit)
  }

  /** A further cell of the same row, relying on the carried family and
      qualifier. */
  function NextCellChunk(value: Bytes, commit: bool): Chunk {
    Chunk([], None, None, 0, [], value, 0, false, commit)
  }

  function Single(c: Chunk): Response {
    Response([], [c], None)
  }

  /** Row "a" in one response, then row "b" whose second cell arrives in
      the next response: a valid stream in increasing key order. */
  function SplitRowStream(): seq<Response> {
    [Single(FirstChunk([97], [1], true)), Single(FirstChunk([98], [2], false)), Single(NextCellChunk([3], true))]
  }

  /** Row "b" spread over two responses, then row "a". */
  function DescendingStream(): seq<Response> {
    [Single(FirstChunk([98], [1], false)), Single(NextCellChunk([2], true)), Single(FirstChunk([97], [3], true))]
  }

  /** The merger inside row `key` after its first cell, holding `value`. */
  function OpenRow(key: Key, value: Bytes): MergeState {
    InRow(key, [Cell(value, key, "f", [113], 0, [])], Some("f"), Some([113]))
  }

  lemma SplitRowRejectedAsWritten()
    ensures AttemptStreamAsWritten(None, None, SplitRowStream(), None).failure
         == Some(InvalidChunk("row keys should be strictly increasing"))
    ensures RowKeys(AttemptStreamAsWritten(None, None, SplitRowStream(), None).rows) == [[97]]
  {
    var s1, s2, s3 := ThreeResponses(FirstChunk([97], [1], true), FirstChunk([98], [2], false), NextCellChunk([3], true), true);
    SplitRowSteps();
    assert RowKeys(s1.rows + (s2.rows + s3.rows)) == [[97]];
  }

  lemma DescendingAcceptedAsWritten()
    ensures AttemptStreamAsWritten(None, None, DescendingStream(), None).failure.None?
    ensures RowKeys(AttemptStreamAsWritten(None, None, DescendingStream(), None).rows) == [[98], [97]]
  {
    var s1, s2, s3 := ThreeResponses(FirstChunk([98], [1], false), NextCellChunk([2], true), FirstChunk([97], [3], true), true);
    DescendingOpen();
    DescendingCommit();
    DescendingNext();
    var run := AttemptResponses(Start(None, None), DescendingStream(), true);
    assert run.failure.None? && run.attempt.merge.BetweenRows? && run.rows == s1.rows + (s2.rows + (s3.rows + []));
    assert s1.rows == [] && s3.rows + [] == s3.rows;
    RowKeysAppend(s2.rows, s3.rows);
  }

  lemma SplitRowAcceptedCorrected()
    ensures AttemptStream(None, None, SplitRowStream(), None).failure.None?
    ensures RowKeys(AttemptStream(None, None, SplitRowStream(), None).rows) == [[97], [98]]
  {
    var s1, s2, s3 := ThreeResponses(FirstChunk([97], [1], true), FirstChunk([98], [2], false), NextCellChunk([3], true), false);
    SplitRowSteps();
    var run := AttemptResponses(Start(None, None), SplitRowStream(), false);
    assert run.failure.None? && run.attempt.merge.BetweenRows? && run.rows == s1.rows + (s2.rows + (s3.rows + []));
    assert s2.rows == [] && s3.rows + [] == s3.rows;
    RowKeysAppend(s1.rows, s3.rows);
  }

  lemma DescendingRejectedCorrected()
    ensures AttemptStream(None, None, DescendingStream(), None).failure
         == Some(InvalidChunk("row keys should be strictly increasing"))
  {
    var s1, s2, s3 := ThreeResponses(FirstChunk([98], [1], false), NextCellChunk([2], true), FirstChunk([97], [3], true), false);
    DescendingOpen();
    DescendingCommit();
    DescendingNext();
  }

  /** A step followed by the rest of an attempt: the step's failure ends
      it, and otherwise the rows of both are yielded in order. */
  function Then(step: AttemptRun, rest: AttemptRun): AttemptRun {
    if step.failure.Some? then step else AttemptRun(rest.attempt, step.rows + rest.rows, rest.failure)
  }

  /** An attempt over three single-chunk responses, one step at a time. */
  lemma ThreeResponses(c1: Chunk, c2: Chunk, c3: Chunk, flag: bool) returns (s1: AttemptRun, s2: AttemptRun, s3: AttemptRun)
    ensures s1 == ChunkStep(Start(None, None), c1)
    ensures s2 == ChunkStep(if flag then s1.attempt.(gate := s1.attempt.gate.(currentKey := None)) else s1.attempt, c2)
    ensures s3 == ChunkStep(if flag then s2.attempt.(gate := s2.attempt.gate.(currentKey := None)) else s2.attempt, c3)
    ensures AttemptResponses(Start(None, None), [Single(c1), Single(c2), Single(c3)], flag)
         == Then(s1, Then(s2, Then(s3, AttemptRun(s3.attempt, [], None))))
  {
    var rs := [Single(c1), Single(c2), Single(c3)];
    s1 := SingleStep(Start(None, None), c1, flag);
    s2 := SingleStep(s1.attempt, c2, flag);
    s3 := SingleStep(s2.attempt, c3, flag);
    assert Start(None, None).(gate := Start(None, None).gate.(currentKey := None)) == Start(None, None);
    assert rs[1..][1..] == [Single(c3)] && rs[1..][1..][1..] == [];
    ResponsesCons(s2.attempt, rs[2..], flag);
    ResponsesCons(s1.attempt, rs[1..], flag);
    ResponsesCons(Start(None, None), rs, flag);
  }

  /** The chunk steps of the split-row stream. Row "a" commits and row "b"
      opens; then, with the key kept, the second cell commits "b", while
      with the key forgotten the empty key is checked against "a". */
  lemma SplitRowSteps()
    ensures var s1 := ChunkStep(Start(None, None), FirstChunk([97], [1], true));
      && s1.failure.None? && s1.attempt == Attempt(BetweenRows, Gate(Some([97]), None, None)) && RowKeys(s1.rows) == [[97]]
    ensures var s2 := ChunkStep(Attempt(BetweenRows, Gate(Some([97]), None, None)), FirstChunk([98], [2], false));
      && s2.failure.None? && s2.rows == [] && s2.attempt == Attempt(OpenRow([98], [2]), Gate(Some([97]), None, Some([98])))
    ensures var s3 := ChunkStep(Attempt(OpenRow([98], [2]), Gate(Some([97]), None, Some([98]))), NextCellChunk([3], true));
      && s3.failure.None? && s3.attempt.merge == BetweenRows && RowKeys(s3.rows) == [[98]]
    ensures var s3 := ChunkStep(Attempt(OpenRow([98], [2]), Gate(Some([97]), None, None)), NextCellChunk([3], true));
      && s3.failure == Some(InvalidChunk("row keys should be strictly increasing")) && s3.rows == []
  {
    assert !LessEq([98], [97]) by { assert Less([97], [98]); }
    assert LessEq([], [97]);
  }

  /** The descending stream: row "b" opens. */
  lemma DescendingOpen()
    ensures var s1 := ChunkStep(Start(None, None), FirstChunk([98], [1], false));
      && s1.failure.None? && s1.rows == [] && s1.attempt == Attempt(OpenRow([98], [1]), Gate(None, None, Some([98])))
  {
  }

  /** Its second cell commits "b", recording as last yielded the current
      key: "b" when kept, the empty key when forgotten. */
  lemma DescendingCommit()
    ensures var s2 := ChunkStep(Attempt(OpenRow([98], [1]), Gate(None, None, Some([98]))), NextCellChunk([2], true));
      && s2.failure.None? && s2.attempt == Attempt(BetweenRows, Gate(Some([98]), None, None)) && RowKeys(s2.rows) == [[98]]
    ensures var s2 := ChunkStep(Attempt(OpenRow([98], [1]), Gate(None, None, None)), NextCellChunk([2], true));
      && s2.failure.None? && s2.attempt == Attempt(BetweenRows, Gate(Some([]), None, None)) && RowKeys(s2.rows) == [[98]]
  {
  }

  /** Row "a" is then rejected after "b" and accepted after the empty
      key. */
  lemma DescendingNext()
    ensures var s3 := ChunkStep(Attempt(BetweenRows, Gate(Some([98]), None, None)), FirstChunk([97], [3], true));
      && s3.failure == Some(InvalidChunk("row keys should be strictly increasing"))
    ensures var s3 := ChunkStep(Attempt(BetweenRows, Gate(Some([]), None, None)), FirstChunk([97], [3], true));
      && s3.failure.None? && RowKeys(s3.rows) == [[97]] && s3.attempt.merge == BetweenRows
  {
    assert LessEq([97], [98]) by { assert Less([97], [98]); }
  }

  /** One response carrying a single chunk and no scanned key is that
      chunk's step. */
  lemma SingleStep(a: Attempt, c: Chunk, flag: bool) returns (r: AttemptRun)
    ensures r == ChunkStep(if flag then a.(gate := a.gate.(currentKey := None)) else a, c)
    ensures AttemptResponse(a, Single(c), flag) == r
  {
    var a1 := if flag then a.(gate := a.gate.(currentKey := None)) else a;
    r := ChunkStep(a1, c);
    assert OnScanned(a.gate, []) == Ok(a.gate);
    assert [c][0] == c && [c][1..] == [];
    assert AttemptChunks(a1, [c]) == ResumeAttempt(r, []);
    assert r.rows + [] == r.rows;
  }

  /** The responses one at a time. */
  lemma ResponsesCons(a: Attempt, rs: seq<Response>, flag: bool)
    requires |rs| > 0
    ensures var first := AttemptResponse(a, rs[0], flag);
      AttemptResponses(a, rs, flag)
        == if first.failure.Some? then first
           else var r := AttemptResponses(first.attempt, rs[1..], flag); AttemptRun(r.attempt, first.rows + r.rows, r.failure)
  {
  }
}

/** `_remaining_count` bounds the rows an attempt yields. */
module ReadRowsAttemptLimit {
  import opened Wrappers
  import opened Keys
  import opened ReadRowsTypes
  import opened LoopMerger
  import opened ReadRowsAttempt

  /** Starting from `n` remaining rows: at most one row beyond the limit
      is yielded (the one whose commit overruns it, which is yielded
      before `chunk_stream` raises), and without an error the rows
      yielded fit within what the count went down by. */
  predicate WithinLimit(n: int, r: AttemptRun) {
    && r.attempt.gate.remaining.Some?
    && |r.rows| <= n + 1
    && (r.failure.None? ==> 0 <= r.attempt.gate.remaining.value && |r.rows| <= n - r.attempt.gate.remaining.value)
  }

  lemma ChunkStepLimit(a: Attempt, c: Chunk, n: int)
    requires a.gate.remaining == Some(n) && n >= 0
    ensures WithinLimit(n, ChunkStep(a, c))
  {
  }

  lemma {:induction false} AttemptChunksLimit(a: Attempt, cs: seq<Chunk>, n: int)
    requires a.gate.remaining == Some(n) && n >= 0
    ensures WithinLimit(n, AttemptChunks(a, cs))
    decreases |cs|
  {
    if |cs| > 0 {
      var first := ChunkStep(a, cs[0]);
      ChunkStepLimit(a, cs[0], n);
      if first.failure.None? {
        AttemptChunksLimit(first.attempt, cs[1..], first.attempt.gate.remaining.value);
      }
    }
  }

  lemma {:induction false} AttemptResponsesLimit(a: Attempt, rs: seq<Response>, flag: bool, n: int)
    requires a.gate.remaining == Some(n) && n >= 0
    ensures WithinLimit(n, AttemptResponses(a, rs, flag))
    decreases |rs|
  {
    if |rs| > 0 {
      var first := AttemptResponse(a, rs[0], flag);
      var sc := OnScanned(a.gate, rs[0].lastScannedRowKey);
      if sc.Ok? {
        var g1 := if flag then sc.value.(currentKey := None) else sc.value;
        AttemptChunksLimit(a.(gate := g1), rs[0].chunks, n);
      }
      if first.failure.None? {
        AttemptResponsesLimit(first.attempt, rs[1..], flag, first.attempt.gate.remaining.value);
      }
    }
  }

  /** Both as written and corrected, an attempt started with `n` rows
      remaining yields at most `n` rows when it ends without error, and at
      most `n + 1` in any case. */
  lemma RunAttemptLimit(lastYielded: Option<Key>, n: int, rs: seq<Response>, streamError: Option<nat>, flag: bool)
    requires n >= 0
    ensures var r := RunAttempt(lastYielded, Some(n), rs, streamError, flag);
      |r.rows| <= n + 1 && (r.failure.None? ==> |r.rows| <= n)
  {
    AttemptResponsesLimit(Start(lastYielded, Some(n)), rs, flag, n);
  }
}
