/** `merge_rows` inverts the server's chunk layout. */
module LoopMergerRoundTrip {
  import opened Wrappers
  import opened Keys
  import opened ReadRowsTypes
  import opened ChunkEncoding
  import opened Sequences
  import opened LoopMerger

  /** Merging `a + b` is merging `a`, then (unless it failed) `b`. */
  predicate AppendLaw(s: MergeState, a: seq<Chunk>, b: seq<Chunk>) {
    var ra := MergeChunks(s, a);
    MergeChunks(s, a + b)
      == if ra.failure.Some? then ra
         else var rb := MergeChunks(ra.state, b); Merged(rb.state, ra.rows + rb.rows, rb.failure)
  }

  lemma AppendAfterStep(s: MergeState, step: Result<(MergeState, Option<Row>), string>, a: seq<Chunk>, b: seq<Chunk>)
    requires step.Ok? ==> AppendLaw(step.value.0, a, b)
    ensures var ra := Resume(s, step, a);
      Resume(s, step, a + b)
        == if ra.failure.Some? then ra
           else var rb := MergeChunks(ra.state, b); Merged(rb.state, ra.rows + rb.rows, rb.failure)
  {
    if step.Ok? {
      var rows1 := RowList(step.value.1);
      var ra1 := MergeChunks(step.value.0, a);
      if ra1.failure.None? {
        var rb := MergeChunks(ra1.state, b);
        assert rows1 + (ra1.rows + rb.rows) == (rows1 + ra1.rows) + rb.rows;
      }
    }
  }

  /** Merging a single chunk is one step. */
  lemma MergeOne(s: MergeState, c: Chunk)
    ensures var step := MergeStep(s, c);
      MergeChunks(s, [c])
        == if step.Err? then Merged(s, [], Some(step.error))
           else Merged(step.value.0, RowList(step.value.1), None)
  {
    assert [c][1..] == [];
    var step := MergeStep(s, c);
    if step.Ok? {
      assert MergeChunks(step.value.0, []) == Merged(step.value.0, [], None);
      assert RowList(step.value.1) + [] == RowList(step.value.1);
    }
  }

  lemma {:induction false} MergeChunksAppend(s: MergeState, a: seq<Chunk>, b: seq<Chunk>)
    ensures AppendLaw(s, a, b)
    decreases |a|
  {
    if |a| == 0 {
      assert a + b == b;
    } else {
      assert (a + b)[0] == a[0] && (a + b)[1..] == a[1..] + b;
      var step := MergeStep(s, a[0]);
      if step.Ok? {
        MergeChunksAppend(step.value.0, a[1..], b);
      }
      AppendAfterStep(s, step, a[1..], b);
    }
  }

  /** The continuation chunks of a split value append the rest of the
      value and end the cell. */
  lemma {:induction false} ContinuationsComplete(s: MergeState, pieces: seq<Bytes>, total: int)
    requires s.InSplit? && total > 0 && |pieces| > 0
    ensures MergeChunks(s, Continuations(pieces, total))
         == Merged(InRow(s.key, s.cells + [Cell(s.buffer + Flatten(pieces), s.key, s.cellFamily, s.cellQualifier, s.timestampMicros, s.labels)],
                         Some(s.cellFamily), Some(s.cellQualifier)),
                   [], None)
    decreases |pieces|
  {
    var cs := Continuations(pieces, total);
    if |pieces| == 1 {
      assert s.buffer + Flatten(pieces) == s.buffer + pieces[0];
      assert cs == [cs[0]];
      MergeOne(s, cs[0]);
    } else {
      var s1 := s.(buffer := s.buffer + pieces[0]);
      assert cs[0] == Continuation(pieces[0], total) && cs[1..] == Continuations(pieces[1..], total);
      ContinuationStep(s, pieces[0], total);
      assert MergeChunks(s, cs) == Resume(s, Ok((s1, None)), cs[1..]);
      ContinuationsComplete(s1, pieces[1..], total);
      var r := MergeChunks(s1, cs[1..]);
      assert RowList(None) + r.rows == r.rows;
      assert (s.buffer + pieces[0]) + Flatten(pieces[1..]) == s.buffer + Flatten(pieces);
    }
  }

  /** A continuation that is not the last appends its piece to the value. */
  lemma ContinuationStep(s: MergeState, piece: Bytes, total: int)
    requires s.InSplit? && total > 0
    ensures MergeStep(s, Continuation(piece, total)) == Ok((s.(buffer := s.buffer + piece), None))
  {
  }

  /** Ready for a cell of row `rk` whose first chunk carries `k`: between
      rows (then `k` is the row key and nothing is done yet) or mid-row. */
  predicate ReadyForCell(s: MergeState, rk: Key, k: Key, done: seq<Cell>) {
    && Truthy(rk)
    && (k == rk || k == [])
    && ((s.InRow? && s.key == rk && s.cells == done) || (s == BetweenRows && k == rk && done == []))
  }

  lemma CellComplete(s: MergeState, rk: Key, k: Key, done: seq<Cell>, c: WireCell)
    requires ReadyForCell(s, rk, k, done) && WireCellValid(c)
    ensures MergeChunks(s, EncodeCell(k, c))
         == Merged(InRow(rk, done + [DecodeCell(rk, c)], Some(c.family), Some(c.qualifier)), [], None)
  {
    var cs := EncodeCell(k, c);
    var c0 := cs[0];
    var fam: Option<string> := if s.BetweenRows? then None else s.family;
    var qual: Option<Bytes> := if s.BetweenRows? then None else s.qualifier;
    assert MergeStep(s, c0) == RowChunk(rk, done, fam, qual, c0);
    if |c.pieces| > 1 {
      var s1 := InSplit(rk, done, c.family, c.qualifier, c.timestampMicros, c.labels, c.pieces[0]);
      assert MergeStep(s, c0) == Ok((s1, None));
      assert cs[1..] == Continuations(c.pieces[1..], |Flatten(c.pieces)|);
      ContinuationsComplete(s1, c.pieces[1..], |Flatten(c.pieces)|);
    } else {
      assert cs == [c0];
    }
  }

  /** The position after a non-empty run of cells of row `rk`. */
  function AfterCells(rk: Key, done: seq<Cell>, cells: seq<WireCell>): (r: MergeState)
    requires |cells| > 0
    ensures r == InRow(rk, done + DecodeCells(rk, cells), Some(cells[|cells| - 1].family), Some(cells[|cells| - 1].qualifier))
    decreases |cells|
  {
    if |cells| == 1 then
      assert DecodeCells(rk, cells) == [DecodeCell(rk, cells[0])];
      InRow(rk, done + [DecodeCell(rk, cells[0])], Some(cells[0].family), Some(cells[0].qualifier))
    else
      var x := DecodeCell(rk, cells[0]);
      var tail := DecodeCells(rk, cells[1..]);
      assert DecodeCells(rk, cells) == [x] + tail;
      assert (done + [x]) + tail == done + ([x] + tail);
      AfterCells(rk, done + [x], cells[1..])
  }

  lemma {:induction false} CellsComplete(s: MergeState, rk: Key, k: Key, done: seq<Cell>, cells: seq<WireCell>)
    requires ReadyForCell(s, rk, k, done) && |cells| > 0
    requires forall i :: 0 <= i < |cells| ==> WireCellValid(cells[i])
    ensures MergeChunks(s, EncodeCells(k, cells)) == Merged(AfterCells(rk, done, cells), [], None)
    decreases |cells|
  {
    CellComplete(s, rk, k, done, cells[0]);
    MergeChunksAppend(s, EncodeCell(k, cells[0]), EncodeCells([], cells[1..]));
    if |cells| == 1 {
      assert EncodeCells(k, cells) == EncodeCell(k, cells[0]) + [];
    } else {
      var done1 := done + [DecodeCell(rk, cells[0])];
      CellsComplete(InRow(rk, done1, Some(cells[0].family), Some(cells[0].qualifier)), rk, [], done1, cells[1..]);
    }
  }

  lemma CommitStep(s: MergeState, c: Chunk, rk: Key, cells: seq<Cell>, f: Option<string>, q: Option<Bytes>)
    requires MergeStep(s, c) == Ok((InRow(rk, cells, f, q), None))
    ensures MergeStep(s, c.(commitRow := true)) == Ok((BetweenRows, Some(Row(rk, cells))))
  {
    match s
    case BetweenRows => RowChunkCommit(c.rowKey, [], None, None, c, rk, cells, f, q);
    case InRow(key, done, family, qualifier) => RowChunkCommit(key, done, family, qualifier, c, rk, cells, f, q);
    case InSplit(_, _, _, _, _, _, _) => SplitChunkCommit(s, c, rk, cells, f, q);
  }

  /** A chunk that ends a cell without committing would, with the commit
      flag, commit the row with that cell. */
  lemma RowChunkCommit(key: Key, done: seq<Cell>, family: Option<string>, qualifier: Option<Bytes>, c: Chunk,
                       rk: Key, cells: seq<Cell>, f: Option<string>, q: Option<Bytes>)
    requires RowChunk(key, done, family, qualifier, c) == Ok((InRow(rk, cells, f, q), None))
    ensures RowChunk(key, done, family, qualifier, c.(commitRow := true)) == Ok((BetweenRows, Some(Row(rk, cells))))
  {
  }

  lemma SplitChunkCommit(s: MergeState, c: Chunk, rk: Key, cells: seq<Cell>, f: Option<string>, q: Option<Bytes>)
    requires s.InSplit? && SplitChunk(s, c) == Ok((InRow(rk, cells, f, q), None))
    ensures SplitChunk(s, c.(commitRow := true)) == Ok((BetweenRows, Some(Row(rk, cells))))
  {
  }

  /** Merging one more chunk after `init`. */
  lemma MergeSnoc(s: MergeState, init: seq<Chunk>, last: Chunk)
    ensures var ri := MergeChunks(s, init);
      var step := MergeStep(ri.state, last);
      MergeChunks(s, init + [last])
        == if ri.failure.Some? then ri
           else if step.Err? then Merged(ri.state, ri.rows, Some(step.error))
           else Merged(step.value.0, ri.rows + RowList(step.value.1), None)
  {
    MergeChunksAppend(s, init, [last]);
    var ri := MergeChunks(s, init);
    if ri.failure.None? {
      MergeOne(ri.state, last);
      assert ri.rows + [] == ri.rows;
    }
  }

  /** Setting `commit_row` on the last chunk of a row whose chunks end at
      a cell boundary yields the row. */
  lemma CommitEmitsRow(s: MergeState, cs: seq<Chunk>, rk: Key, cells: seq<Cell>, f: Option<string>, q: Option<Bytes>)
    requires |cs| > 0
    requires MergeChunks(s, cs) == Merged(InRow(rk, cells, f, q), [], None)
    ensures MergeChunks(s, CommitLast(cs)) == Merged(BetweenRows, [Row(rk, cells)], None)
  {
    var init := cs[..|cs| - 1];
    var last := cs[|cs| - 1];
    assert cs == init + [last];
    assert CommitLast(cs) == init + [last.(commitRow := true)];
    MergeSnoc(s, init, last);
    MergeSnoc(s, init, last.(commitRow := true));
    var ri := MergeChunks(s, init);
    assert ri.failure.None?;
    var step := MergeStep(ri.state, last);
    assert step.Ok? && step.value == (InRow(rk, cells, f, q), None);
    assert ri.rows == [] by {
      assert ri.rows + RowList(None) == [];
    }
    CommitStep(ri.state, last, rk, cells, f, q);
  }

  lemma RowComplete(r: WireRow)
    requires WireRowValid(r)
    ensures MergeChunks(BetweenRows, EncodeRow(r)) == Merged(BetweenRows, [DecodeRow(r)], None)
  {
    CellsComplete(BetweenRows, r.key, r.key, [], r.cells);
    var last := r.cells[|r.cells| - 1];
    CommitEmitsRow(BetweenRows, EncodeCells(r.key, r.cells), r.key, [] + DecodeCells(r.key, r.cells),
                   Some(last.family), Some(last.qualifier));
    assert [] + DecodeCells(r.key, r.cells) == DecodeCells(r.key, r.cells);
  }

  lemma {:induction false} RowsComplete(rows: seq<WireRow>)
    requires forall i :: 0 <= i < |rows| ==> WireRowValid(rows[i])
    ensures MergeChunks(BetweenRows, EncodeRows(rows)) == Merged(BetweenRows, DecodeRows(rows), None)
    decreases |rows|
  {
    if |rows| > 0 {
      RowComplete(rows[0]);
      MergeChunksAppend(BetweenRows, EncodeRow(rows[0]), EncodeRows(rows[1..]));
      RowsComplete(rows[1..]);
      assert DecodeRows(rows) == [DecodeRow(rows[0])] + DecodeRows(rows[1..]);
    }
  }

  /** However a row sequence is laid out in chunks, `merge_rows` yields
      exactly those rows and ends cleanly. Unlike the state machine it
      does not check key order, so any valid rows qualify. */
  lemma MergeRowsRoundTrip(rows: seq<WireRow>)
    requires forall i :: 0 <= i < |rows| ==> WireRowValid(rows[i])
    ensures MergeRows(EncodeRows(rows)) == Merged(BetweenRows, DecodeRows(rows), None)
  {
    RowsComplete(rows);
  }
}
