/** Properties of the state-machine merger: rows and scan markers come out
    in strictly increasing key order whatever the server sends, response
    boundaries do not matter, and any well-formed chunk layout of a row
    sequence is merged back into exactly those rows. */
module StateMachineProofs {
  import opened Wrappers
  import opened Keys
  import opened ReadRowsTypes
  import opened ChunkEncoding
  import opened Sequences
  import opened StateMachineMerger

  // ---------------------------------------------------------------------
  // Ordering

  /** What the machine maintains between chunks: a row is in progress
      exactly when the state is not AWAITING_NEW_ROW, and its key sorts
      after the last key handed out. */
  predicate Inv(m: Machine) {
    && (m.lastSeen.Some? ==> Truthy(m.lastSeen.value))
    && (m.state == AwaitingNewRow ==> m.builder == EmptyBuilder)
    && (m.state != AwaitingNewRow ==>
          && m.builder.currentKey.Some?
          && Truthy(m.builder.currentKey.value)
          && (m.lastSeen.Some? ==> Less(m.lastSeen.value, m.builder.currentKey.value)))
  }

  lemma InitialInv()
    ensures Inv(Initial)
  {
  }

  lemma HandleChunkOrdered(m: Machine, c: Chunk)
    requires Inv(m)
    ensures var r := HandleChunk(m, c);
      r.Ok? ==> Inv(r.value.0) && Chain(m.lastSeen, ItemKeys(RowItems(r.value.1)), r.value.0.lastSeen)
  {
    var r := HandleChunk(m, c);
    if r.Ok? && !KeyOutOfOrder(m, c) {
      var m1 := (if c.resetRow then HandleReset(m, c) else StateStep(m, c)).value;
      if !c.resetRow && m.state == AwaitingNewRow {
        NotLessEqIsGreater(c.rowKey, m.lastSeen.GetOr([]));
      }
      assert Inv(m1);
      if c.commitRow {
        assert ItemKeys(RowItems(r.value.1)) == [r.value.1.value.key];
      }
    }
  }

  /** A run from a machine whose last seen key was `lo` hands out items
      that continue the chain from `lo`, and ends in a consistent machine. */
  predicate Chained(lo: Option<Key>, r: Run) {
    Inv(r.machine) && Chain(lo, ItemKeys(r.items), r.machine.lastSeen)
  }

  lemma ThenChained(lo: Option<Key>, a: Run, b: Run)
    requires Chained(lo, a) && Chained(a.machine.lastSeen, b)
    ensures Chained(lo, Then(a, b))
  {
    ItemKeysAppend(a.items, b.items);
    ChainAppend(lo, ItemKeys(a.items), a.machine.lastSeen, ItemKeys(b.items), b.machine.lastSeen);
  }

  /** A stats item carries no key. */
  lemma StatsChained(lo: Option<Key>, r: Run, stats: nat)
    requires Chained(lo, r)
    ensures Chained(lo, r.(items := r.items + [StatsItem(stats)]))
  {
    ItemKeysAppend(r.items, [StatsItem(stats)]);
  }

  lemma {:induction false} ProcessChunksOrdered(m: Machine, cs: seq<Chunk>)
    requires Inv(m)
    ensures Chained(m.lastSeen, ProcessChunks(m, cs))
    decreases |cs|
  {
    if |cs| > 0 {
      HandleChunkOrdered(m, cs[0]);
      match HandleChunk(m, cs[0])
      case Err(_) =>
      case Ok((m1, row)) =>
        ProcessChunksOrdered(m1, cs[1..]);
        ThenChained(m.lastSeen, Run(m1, RowItems(row), None), ProcessChunks(m1, cs[1..]));
    }
  }

  lemma ProcessScannedOrdered(m: Machine, key: Key)
    requires Inv(m)
    ensures Chained(m.lastSeen, ProcessScanned(m, key))
  {
    if Truthy(key) && HandleLastScanned(m, key).Ok? {
      NotLessEqIsGreater(key, m.lastSeen.GetOr([]));
      assert ItemKeys([ScanMarker(key)]) == [key];
    }
  }

  lemma ProcessResponseOrdered(m: Machine, resp: Response)
    requires Inv(m)
    ensures Chained(m.lastSeen, ProcessResponse(m, resp))
  {
    var scanned := ProcessScanned(m, resp.lastScannedRowKey);
    ProcessScannedOrdered(m, resp.lastScannedRowKey);
    if scanned.failure.None? {
      var chunks := ProcessChunks(scanned.machine, resp.chunks);
      ProcessChunksOrdered(scanned.machine, resp.chunks);
      ThenChained(m.lastSeen, scanned, chunks);
      var both := Then(scanned, chunks);
      if both.failure.None? && resp.stats.Some? {
        StatsChained(m.lastSeen, both, resp.stats.value);
      }
    }
  }

  lemma {:induction false} ProcessResponsesOrdered(m: Machine, rs: seq<Response>)
    requires Inv(m)
    ensures Chained(m.lastSeen, ProcessResponses(m, rs))
    decreases |rs|
  {
    if |rs| > 0 {
      ProcessResponseOrdered(m, rs[0]);
      var first := ProcessResponse(m, rs[0]);
      if first.failure.None? {
        ProcessResponsesOrdered(first.machine, rs[1..]);
        ThenChained(m.lastSeen, first, ProcessResponses(first.machine, rs[1..]));
      }
    }
  }

  /** Whatever the server sends, the rows and scan markers the merger
      yields have strictly increasing keys. */
  lemma MergeResponseStreamOrdered(rs: seq<Response>)
    ensures StrictlyIncreasing(ItemKeys(MergeResponseStream(rs).items))
  {
    ProcessResponsesOrdered(Initial, rs);
  }
}

/** The state-machine merger inverts the server's chunk layout. */
module StateMachineRoundTrip {
  import opened Wrappers
  import opened Keys
  import opened ReadRowsTypes
  import opened ChunkEncoding
  import opened Sequences
  import opened StateMachineMerger

  /** What `ProcessChunks` does after the first chunk's outcome `h`. */
  function ResumeAfter(m: Machine, h: Result<(Machine, Option<Row>), string>, rest: seq<Chunk>): Run {
    if h.Err? then Run(m, [], Some(h.error))
    else
      var r := ProcessChunks(h.value.0, rest);
      Run(r.machine, RowItems(h.value.1) + r.items, r.failure)
  }

  lemma ProcessChunksCons(m: Machine, cs: seq<Chunk>)
    requires |cs| > 0
    ensures ProcessChunks(m, cs) == ResumeAfter(m, HandleChunk(m, cs[0]), cs[1..])
  {
  }

  /** Feeding `a + b` is feeding `a`, then (unless it failed) `b`. */
  lemma {:induction false} ProcessChunksAppend(m: Machine, a: seq<Chunk>, b: seq<Chunk>)
    ensures var ra := ProcessChunks(m, a);
      ProcessChunks(m, a + b) == if ra.failure.Some? then ra else Then(ra, ProcessChunks(ra.machine, b))
    decreases |a|, 0
  {
    if |a| == 0 {
      assert a + b == b;
    } else {
      assert (a + b)[0] == a[0] && (a + b)[1..] == a[1..] + b;
      ProcessChunksCons(m, a);
      ProcessChunksCons(m, a + b);
      ResumeAppend(m, HandleChunk(m, a[0]), a[1..], b);
    }
  }

  lemma {:induction false} ResumeAppend(m: Machine, h: Result<(Machine, Option<Row>), string>, a: seq<Chunk>, b: seq<Chunk>)
    ensures var ra := ResumeAfter(m, h, a);
      ResumeAfter(m, h, a + b) == if ra.failure.Some? then ra else Then(ra, ProcessChunks(ra.machine, b))
    decreases |a|, 1
  {
    if h.Ok? {
      ProcessChunksAppend(h.value.0, a, b);
      var r := ProcessChunks(h.value.0, a);
      ThenPrefixed(RowItems(h.value.1), r, ProcessChunks(r.machine, b), ProcessChunks(h.value.0, a + b));
    }
  }

  /** Putting the same items in front of a run and of its continuation. */
  lemma ThenPrefixed(items: seq<Item>, r: Run, rb: Run, rab: Run)
    requires rab == if r.failure.Some? then r else Then(r, rb)
    ensures var ra := Run(r.machine, items + r.items, r.failure);
      Run(rab.machine, items + rab.items, rab.failure) == if ra.failure.Some? then ra else Then(ra, rb)
  {
    if r.failure.None? {
      assert items + (r.items + rb.items) == (items + r.items) + rb.items;
    }
  }

  /** A response without heartbeat or stats is just its chunks. */
  lemma PlainResponse(m: Machine, resp: Response)
    requires !Truthy(resp.lastScannedRowKey) && resp.stats.None?
    ensures ProcessResponse(m, resp) == ProcessChunks(m, resp.chunks)
  {
  }

  /** How chunks are grouped into responses makes no difference. */
  lemma {:induction false} ResponseBoundariesIrrelevant(m: Machine, rs: seq<Response>)
    requires ChunksOnly(rs)
    ensures ProcessResponses(m, rs) == ProcessChunks(m, AllChunks(rs))
    decreases |rs|
  {
    if |rs| > 0 {
      PlainResponse(m, rs[0]);
      ProcessChunksAppend(m, rs[0].chunks, AllChunks(rs[1..]));
      var first := ProcessResponse(m, rs[0]);
      if first.failure.None? {
        assert ChunksOnly(rs[1..]) by {
          forall i | 0 <= i < |rs[1..]| ensures !Truthy(rs[1..][i].lastScannedRowKey) && rs[1..][i].stats.None? {
            assert rs[1..][i] == rs[i + 1];
          }
        }
        ResponseBoundariesIrrelevant(first.machine, rs[1..]);
      }
    }
  }

  /** The machine once the open cell is closed with `value`. */
  function CellDone(m: Machine, value: Bytes): Machine
    requires m.builder.workingCell.Some?
  {
    m.(state := AwaitingNewCell,
       builder := m.builder.(completedCells := m.builder.completedCells + [m.builder.workingCell.value.(value := value)],
                             workingCell := None, workingValue := None))
  }

  /** A continuation chunk that is not the last appends its piece and
      yields nothing. */
  lemma ContinuationStep(m: Machine, acc: Bytes, pieces: seq<Bytes>, total: int)
    requires m.state == AwaitingCellValue && m.builder.workingValue == Some(acc) && m.builder.workingCell.Some?
    requires total > 0 && |pieces| > 1
    ensures ProcessChunks(m, Continuations(pieces, total))
         == ProcessChunks(m.(builder := m.builder.(workingValue := Some(acc + pieces[0]))), Continuations(pieces[1..], total))
  {
    var cs := Continuations(pieces, total);
    var m1 := m.(builder := m.builder.(workingValue := Some(acc + pieces[0])));
    assert HandleChunk(m, cs[0]) == Ok((m1, None));
    assert cs[1..] == Continuations(pieces[1..], total);
    var rest := ProcessChunks(m1, cs[1..]);
    assert RowItems(None) + rest.items == rest.items;
  }

  /** The continuation chunks of a split value append the rest of the
      value and finish the cell. */
  lemma {:induction false} ContinuationsComplete(m: Machine, acc: Bytes, pieces: seq<Bytes>, total: int)
    requires m.state == AwaitingCellValue && m.builder.workingValue == Some(acc) && m.builder.workingCell.Some?
    requires total > 0 && |pieces| > 0
    ensures ProcessChunks(m, Continuations(pieces, total)) == Run(CellDone(m, acc + Flatten(pieces)), [], None)
    decreases |pieces|
  {
    if |pieces| == 1 {
      assert acc + Flatten(pieces) == acc + pieces[0];
    } else {
      var m1 := m.(builder := m.builder.(workingValue := Some(acc + pieces[0])));
      ContinuationStep(m, acc, pieces, total);
      ContinuationsComplete(m1, acc + pieces[0], pieces[1..], total);
      assert (acc + pieces[0]) + Flatten(pieces[1..]) == acc + Flatten(pieces);
      assert CellDone(m1, acc + Flatten(pieces)) == CellDone(m, acc + Flatten(pieces));
    }
  }

  /** The machine part of a row in progress after some of its cells. */
  predicate MidRow(m: Machine, rk: Key, done: seq<Cell>) {
    m.state == AwaitingNewCell && m.builder == Builder(Some(rk), None, None, done)
  }

  /** Ready for the first cell of row `rk`, whose first chunk carries
      `k`: either between rows (then `k` is the row key) or mid-row. */
  predicate ReadyForCell(m: Machine, rk: Key, k: Key, done: seq<Cell>) {
    && Truthy(rk)
    && (m.lastSeen.Some? ==> Truthy(m.lastSeen.value) && Less(m.lastSeen.value, rk))
    && (k == rk || k == [])
    && (MidRow(m, rk, done) || (m.state == AwaitingNewRow && m.builder == EmptyBuilder && k == rk && done == []))
  }

  /** After a cell: mid-row, the cell appended, the carried family and
      qualifier those of the cell. */
  function AfterCell(m: Machine, rk: Key, done: seq<Cell>, c: WireCell): Machine {
    m.(state := AwaitingNewCell, family := Some(c.family), qualifier := Some(c.qualifier),
       builder := Builder(Some(rk), None, None, done + [DecodeCell(rk, c)]))
  }

  lemma CellComplete(m: Machine, rk: Key, k: Key, done: seq<Cell>, c: WireCell)
    requires ReadyForCell(m, rk, k, done) && WireCellValid(c)
    ensures ProcessChunks(m, EncodeCell(k, c)) == Run(AfterCell(m, rk, done, c), [], None)
  {
    var cs := EncodeCell(k, c);
    ProcessChunksCons(m, cs);
    FirstChunkStep(m, rk, k, done, c);
    var mc := m.(builder := Builder(Some(rk), None, None, done));
    FirstChunkCell(mc, rk, k, c);
    if |c.pieces| > 1 {
      var total := |Flatten(c.pieces)|;
      assert cs[1..] == Continuations(c.pieces[1..], total);
      ContinuationsComplete(OpenCell(mc, rk, c), c.pieces[0], c.pieces[1..], total);
      assert AfterCell(m, rk, done, c).builder.completedCells
          == OpenCell(mc, rk, c).builder.completedCells + [OpenCell(mc, rk, c).builder.workingCell.value.(value := c.pieces[0] + Flatten(c.pieces[1..]))];
    } else {
      assert cs[1..] == [];
    }
  }

  /** The first chunk of a cell is handled as a new cell of row `rk`. */
  lemma FirstChunkStep(m: Machine, rk: Key, k: Key, done: seq<Cell>, c: WireCell)
    requires ReadyForCell(m, rk, k, done) && WireCellValid(c)
    ensures var mc := m.(builder := Builder(Some(rk), None, None, done));
      var c0 := EncodeCell(k, c)[0];
      NewCell(mc, c0).Ok? ==> HandleChunk(m, c0) == Ok((NewCell(mc, c0).value, None))
  {
    var c0 := EncodeCell(k, c)[0];
    if Truthy(k) {
      LessAsymmetric(m.lastSeen.GetOr([]), rk);
    }
    assert !KeyOutOfOrder(m, c0);
  }

  /** A machine whose new cell has its first piece and awaits the rest. */
  function OpenCell(mc: Machine, rk: Key, c: WireCell): Machine
    requires |c.pieces| > 0
  {
    mc.(state := AwaitingCellValue, family := Some(c.family), qualifier := Some(c.qualifier),
        builder := mc.builder.(workingCell := Some(Cell([], rk, c.family, c.qualifier, c.timestampMicros, c.labels)),
                               workingValue := Some(c.pieces[0])))
  }

  /** What the new-cell handler makes of a cell's first chunk. */
  lemma FirstChunkCell(mc: Machine, rk: Key, k: Key, c: WireCell)
    requires WireCellValid(c) && mc.builder.currentKey == Some(rk)
    requires mc.builder.workingCell.None? && mc.builder.workingValue.None?
    requires k == rk || k == []
    ensures NewCell(mc, EncodeCell(k, c)[0])
         == Ok(if |c.pieces| > 1 then OpenCell(mc, rk, c)
               else mc.(state := AwaitingNewCell, family := Some(c.family), qualifier := Some(c.qualifier),
                        builder := mc.builder.(completedCells := mc.builder.completedCells + [DecodeCell(rk, c)])))
  {
    assert [] + c.pieces[0] == c.pieces[0];
    if |c.pieces| == 1 {
      assert Flatten(c.pieces) == c.pieces[0];
    }
  }

  /** The machine after a non-empty run of cells of row `rk`. */
  function AfterCells(m: Machine, rk: Key, done: seq<Cell>, cells: seq<WireCell>): (r: Machine)
    requires |cells| > 0
    ensures r.state == AwaitingNewCell && r.lastSeen == m.lastSeen
    ensures r.builder == Builder(Some(rk), None, None, done + DecodeCells(rk, cells))
    decreases |cells|
  {
    var m1 := AfterCell(m, rk, done, cells[0]);
    if |cells| == 1 then m1
    else
      DecodedAfter(rk, done, cells);
      AfterCells(m1, rk, done + [DecodeCell(rk, cells[0])], cells[1..])
  }

  lemma DecodedAfter(rk: Key, done: seq<Cell>, cells: seq<WireCell>)
    requires |cells| > 0
    ensures (done + [DecodeCell(rk, cells[0])]) + DecodeCells(rk, cells[1..]) == done + DecodeCells(rk, cells)
  {
    var x := DecodeCell(rk, cells[0]);
    var tail := DecodeCells(rk, cells[1..]);
    assert DecodeCells(rk, cells) == [x] + tail;
    assert (done + [x]) + tail == done + ([x] + tail);
  }

  lemma {:induction false} CellsComplete(m: Machine, rk: Key, k: Key, done: seq<Cell>, cells: seq<WireCell>)
    requires ReadyForCell(m, rk, k, done) && |cells| > 0
    requires forall i :: 0 <= i < |cells| ==> WireCellValid(cells[i])
    ensures ProcessChunks(m, EncodeCells(k, cells)) == Run(AfterCells(m, rk, done, cells), [], None)
    decreases |cells|
  {
    CellComplete(m, rk, k, done, cells[0]);
    ProcessChunksAppend(m, EncodeCell(k, cells[0]), EncodeCells([], cells[1..]));
    if |cells| == 1 {
      assert EncodeCells(k, cells) == EncodeCell(k, cells[0]) + [];
    } else {
      var m1 := AfterCell(m, rk, done, cells[0]);
      var done1 := done + [DecodeCell(rk, cells[0])];
      assert ReadyForCell(m1, rk, [], done1);
      CellsComplete(m1, rk, [], done1, cells[1..]);
    }
  }

  lemma CommitStep(m: Machine, c: Chunk, m2: Machine)
    requires HandleChunk(m, c) == Ok((m2, None))
    requires m2.state == AwaitingNewCell && m2.builder.currentKey.Some?
    ensures HandleChunk(m, c.(commitRow := true))
         == Ok((CompleteRow(m2, m2.builder.currentKey.value), Some(Row(m2.builder.currentKey.value, m2.builder.completedCells))))
  {
    var c1 := c.(commitRow := true);
    assert !c.commitRow;
    assert KeyOutOfOrder(m, c1) == KeyOutOfOrder(m, c);
    StepIgnoresCommit(m, c);
    assert (if c.resetRow then HandleReset(m, c) else StateStep(m, c)) == Ok(m2);
  }

  /** The state handlers never look at `commit_row`. */
  lemma StepIgnoresCommit(m: Machine, c: Chunk)
    ensures HandleReset(m, c.(commitRow := true)) == HandleReset(m, c)
    ensures StateStep(m, c.(commitRow := true)) == StateStep(m, c)
  {
    NewCellIgnoresCommit(m, c);
    if m.state == AwaitingNewRow && Truthy(c.rowKey) && StartRow(m.builder, c.rowKey).Ok? {
      NewCellIgnoresCommit(m.(builder := StartRow(m.builder, c.rowKey).value), c);
    }
    CellValueIgnoresCommit(m, c);
  }

  lemma NewCellIgnoresCommit(m: Machine, c: Chunk)
    ensures NewCell(m, c.(commitRow := true)) == NewCell(m, c)
  {
  }

  lemma CellValueIgnoresCommit(m: Machine, c: Chunk)
    ensures CellValue(m, c.(commitRow := true)) == CellValue(m, c)
  {
  }

  /** Setting `commit_row` on the last chunk of a row whose chunks leave
      the machine mid-row emits the row. */
  lemma CommitEmitsRow(m: Machine, cs: seq<Chunk>, m2: Machine)
    requires |cs| > 0
    requires ProcessChunks(m, cs) == Run(m2, [], None)
    requires m2.state == AwaitingNewCell && m2.builder.currentKey.Some?
    ensures ProcessChunks(m, CommitLast(cs))
         == Run(CompleteRow(m2, m2.builder.currentKey.value),
                [RowItem(Row(m2.builder.currentKey.value, m2.builder.completedCells))], None)
  {
    var init := cs[..|cs| - 1];
    var last := cs[|cs| - 1];
    LastSplit(cs);
    ProcessChunksAppend(m, init, [last]);
    ProcessChunksAppend(m, init, [last.(commitRow := true)]);
    var ri := ProcessChunks(m, init);
    SingleChunk(ri.machine, last);
    SingleChunk(ri.machine, last.(commitRow := true));
    assert ri.failure.None? && ri.items == [];
    assert HandleChunk(ri.machine, last) == Ok((m2, None));
    CommitStep(ri.machine, last, m2);
  }

  /** A non-empty chunk list is its front followed by its last chunk, and
      so is the list with `commit_row` set on the last chunk. */
  lemma LastSplit(cs: seq<Chunk>)
    requires |cs| > 0
    ensures cs == cs[..|cs| - 1] + [cs[|cs| - 1]]
    ensures CommitLast(cs) == cs[..|cs| - 1] + [cs[|cs| - 1].(commitRow := true)]
  {
  }

  /** Feeding one chunk. */
  lemma SingleChunk(m: Machine, c: Chunk)
    ensures var h := HandleChunk(m, c);
      ProcessChunks(m, [c]) == if h.Err? then Run(m, [], Some(h.error)) else Run(h.value.0, RowItems(h.value.1), None)
  {
    ProcessChunksCons(m, [c]);
    assert [c][0] == c && [c][1..] == [];
    var h := HandleChunk(m, c);
    if h.Ok? {
      assert RowItems(h.value.1) + [] == RowItems(h.value.1);
    }
  }

  lemma RowComplete(ls: Option<Key>, r: WireRow)
    requires WireRowValid(r)
    requires ls.Some? ==> Truthy(ls.value) && Less(ls.value, r.key)
    ensures ProcessChunks(Idle(ls), EncodeRow(r)) == Run(Idle(Some(r.key)), [RowItem(DecodeRow(r))], None)
  {
    assert ReadyForCell(Idle(ls), r.key, r.key, []);
    CellsComplete(Idle(ls), r.key, r.key, [], r.cells);
    var m2 := AfterCells(Idle(ls), r.key, [], r.cells);
    CommitEmitsRow(Idle(ls), EncodeCells(r.key, r.cells), m2);
    assert [] + DecodeCells(r.key, r.cells) == DecodeCells(r.key, r.cells);
  }

  lemma {:induction false} RowsComplete(ls: Option<Key>, rows: seq<WireRow>)
    requires WireRowsValid(rows)
    requires ls.Some? && |rows| > 0 ==> Truthy(ls.value) && Less(ls.value, rows[0].key)
    ensures ProcessChunks(Idle(ls), EncodeRows(rows))
         == Run(Idle(if |rows| == 0 then ls else Some(rows[|rows| - 1].key)), AsItems(DecodeRows(rows)), None)
    decreases |rows|
  {
    if |rows| > 0 {
      WireRowsValidTail(rows);
      RowComplete(ls, rows[0]);
      ProcessChunksAppend(Idle(ls), EncodeRow(rows[0]), EncodeRows(rows[1..]));
      RowsComplete(Some(rows[0].key), rows[1..]);
      DecodedItemsCons(rows);
    }
  }

  lemma DecodedItemsCons(rows: seq<WireRow>)
    requires WireRowsValid(rows) && |rows| > 0
    ensures AsItems(DecodeRows(rows)) == [RowItem(DecodeRow(rows[0]))] + AsItems(DecodeRows(rows[1..]))
  {
    assert DecodeRows(rows)[1..] == DecodeRows(rows[1..]);
    assert AsItems(DecodeRows(rows))[1..] == AsItems(DecodeRows(rows)[1..]);
  }

  /** However a valid row sequence is laid out in chunks and however the
      chunks are grouped into responses, the merger yields exactly those
      rows and ends cleanly. */
  lemma MergeRoundTrip(rows: seq<WireRow>, rs: seq<Response>)
    requires WireRowsValid(rows)
    requires ChunksOnly(rs) && AllChunks(rs) == EncodeRows(rows)
    ensures MergeResponseStream(rs).items == AsItems(DecodeRows(rows))
    ensures MergeResponseStream(rs).failure.None?
  {
    ResponseBoundariesIrrelevant(Initial, rs);
    RowsComplete(None, rows);
  }
}
