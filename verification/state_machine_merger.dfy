/** The chunk-level state machine that assembles `CellChunk`s into rows
    (`_StateMachine`, the three state classes and `_RowBuilder` of
    google/cloud/bigtable/_row_merger.py, also used by
    google/cloud/bigtable/_sync_autogen.py). Every raised `InvalidChunk`
    is an `Err` carrying the source's message. */
module StateMachineMerger {
  import opened Wrappers
  import opened Keys
  import opened ReadRowsTypes

  datatype State = AwaitingNewRow | AwaitingNewCell | AwaitingCellValue

  /** `_RowBuilder`: the row under construction. */
  datatype Builder = Builder(
    currentKey: Option<Key>,
    workingCell: Option<Cell>,
    workingValue: Option<Bytes>,
    completedCells: seq<Cell>)

  const EmptyBuilder := Builder(None, None, None, [])

  /** `_StateMachine`: the current state, the family and qualifier carried
      over from earlier chunks of the row, the key of the last completed
      row or scan marker, and the builder. */
  datatype Machine = Machine(
    state: State,
    family: Option<string>,
    qualifier: Option<Bytes>,
    lastSeen: Option<Key>,
    builder: Builder)

  /** A machine between rows, having last handed out `lastSeen`. */
  function Idle(lastSeen: Option<Key>): Machine {
    Machine(AwaitingNewRow, None, None, lastSeen, EmptyBuilder)
  }

  const Initial := Idle(None)

  // ---------------------------------------------------------------------
  // _RowBuilder

  function StartRow(b: Builder, key: Key): (r: Result<Builder, string>)
    ensures r.Ok? <==> b == EmptyBuilder
    ensures r.Ok? ==> r.value.currentKey == Some(key) && r.value.completedCells == []
  {
    if b.currentKey.Some? || b.workingCell.Some? || b.workingValue.Some? || |b.completedCells| > 0 then
      Err("start_row called without finishing previous row")
    else
      Ok(b.(currentKey := Some(key)))
  }

  function StartCell(b: Builder, family: Option<string>, qualifier: Option<Bytes>, ts: int, labels: seq<string>)
    : (r: Result<Builder, string>)
    ensures r.Ok? <==> family.Some? && family.value != "" && qualifier.Some? && b.currentKey.Some?
    ensures r.Ok? ==>
      && r.value.workingValue == Some([])
      && r.value.workingCell == Some(Cell([], b.currentKey.value, family.value, qualifier.value, ts, labels))
      && r.value.currentKey == b.currentKey && r.value.completedCells == b.completedCells
  {
    if family.None? || family.value == "" then Err("Missing family for a new cell")
    else if qualifier.None? then Err("Missing qualifier for a new cell")
    else if b.currentKey.None? then Err("start_cell called without a row")
    else Ok(b.(workingValue := Some([]),
               workingCell := Some(Cell([], b.currentKey.value, family.value, qualifier.value, ts, labels))))
  }

  function AddCellValue(b: Builder, value: Bytes): (r: Result<Builder, string>)
    ensures r.Ok? <==> b.workingValue.Some?
    ensures r.Ok? ==> r.value == b.(workingValue := Some(b.workingValue.value + value))
  {
    if b.workingValue.None? then Err("Cell value received before start_cell")
    else Ok(b.(workingValue := Some(b.workingValue.value + value)))
  }

  function FinishCell(b: Builder): (r: Result<Builder, string>)
    ensures r.Ok? <==> b.workingCell.Some? && b.workingValue.Some?
    ensures r.Ok? ==>
      && r.value.completedCells == b.completedCells + [b.workingCell.value.(value := b.workingValue.value)]
      && r.value.workingCell.None? && r.value.workingValue.None?
      && r.value.currentKey == b.currentKey
  {
    if b.workingCell.None? || b.workingValue.None? then Err("Cell value received before start_cell")
    else Ok(b.(completedCells := b.completedCells + [b.workingCell.value.(value := b.workingValue.value)],
               workingCell := None, workingValue := None))
  }

  function FinishRow(b: Builder): (r: Result<(Row, Builder), string>)
    ensures r.Ok? <==> b.currentKey.Some?
    ensures r.Ok? ==> r.value.0 == Row(b.currentKey.value, b.completedCells) && r.value.1 == EmptyBuilder
  {
    if b.currentKey.None? then Err("No row in progress")
    else Ok((Row(b.currentKey.value, b.completedCells), EmptyBuilder))
  }

  // ---------------------------------------------------------------------
  // _StateMachine

  /** `_reset_row`: drop the row in progress and await a new one. */
  function ResetRow(m: Machine): (r: Machine)
    ensures r.state == AwaitingNewRow && r.builder == EmptyBuilder && r.lastSeen == m.lastSeen
  {
    m.(state := AwaitingNewRow, family := None, qualifier := None, builder := EmptyBuilder)
  }

  /** `_handle_complete_row`: remember the key and await a new row. */
  function CompleteRow(m: Machine, key: Key): (r: Machine)
    ensures r.state == AwaitingNewRow && r.lastSeen == Some(key) && r.builder == EmptyBuilder
  {
    ResetRow(m).(lastSeen := Some(key))
  }

  /** The state is terminal (the stream may end) only in AWAITING_NEW_ROW. */
  predicate IsTerminal(m: Machine) {
    m.state == AwaitingNewRow
  }

  /** `chunk.family_name.value`, `qualifier.value`, `timestamp_micros`,
      `labels` or `value` is truthy. */
  predicate HasCellData(c: Chunk) {
    FamilyValue(c) != "" || |QualifierValue(c)| > 0 || c.timestampMicros != 0 || |c.labels| > 0
  }

  /** `AWAITING_NEW_CELL.handle_chunk`. */
  function NewCell(m: Machine, c: Chunk): (r: Result<Machine, string>)
    ensures FamilyValue(c) != "" && |QualifierValue(c)| == 0 ==> r.Err?
    ensures |QualifierValue(c)| > 0 && FamilyValue(c) == "" && m.family.None? ==> r.Err?
    ensures Truthy(c.rowKey) && m.builder.currentKey != Some(c.rowKey) ==> r.Err?
    ensures r.Ok? ==> r.value.state == (if c.valueSize > 0 then AwaitingCellValue else AwaitingNewCell)
    ensures r.Ok? ==> r.value.lastSeen == m.lastSeen && r.value.builder.currentKey == m.builder.currentKey
  {
    var family := if FamilyValue(c) != "" then Some(FamilyValue(c)) else m.family;
    if FamilyValue(c) != "" && |QualifierValue(c)| == 0 then
      Err("New column family must specify qualifier")
    else
      var qualifier := if |QualifierValue(c)| > 0 then Some(QualifierValue(c)) else m.qualifier;
      if |QualifierValue(c)| > 0 && family.None? then
        Err("Family not found")
      else if Truthy(c.rowKey) && m.builder.currentKey != Some(c.rowKey) then
        Err("Row key changed mid row")
      else
        var b1 :- StartCell(m.builder, family, qualifier, c.timestampMicros, c.labels);
        var b2 :- AddCellValue(b1, c.value);
        var m1 := m.(family := family, qualifier := qualifier);
        if c.valueSize > 0 then
          Ok(m1.(state := AwaitingCellValue, builder := b2))
        else
          var b3 :- FinishCell(b2);
          Ok(m1.(state := AwaitingNewCell, builder := b3))
  }

  /** `AWAITING_CELL_VALUE.handle_chunk`: a continuation of a split cell. */
  function CellValue(m: Machine, c: Chunk): (r: Result<Machine, string>)
    ensures Truthy(c.rowKey) || HasCellData(c) ==> r.Err?
    ensures r.Ok? ==> r.value.state == (if c.valueSize == 0 then AwaitingNewCell else AwaitingCellValue)
    ensures r.Ok? ==> r.value.lastSeen == m.lastSeen && r.value.builder.currentKey == m.builder.currentKey
  {
    if Truthy(c.rowKey) then Err("Found row key mid cell")
    else if FamilyValue(c) != "" then Err("In progress cell had a family name")
    else if |QualifierValue(c)| > 0 then Err("In progress cell had a qualifier")
    else if c.timestampMicros != 0 then Err("In progress cell had a timestamp")
    else if |c.labels| > 0 then Err("In progress cell had labels")
    else
      var b1 :- AddCellValue(m.builder, c.value);
      if c.valueSize != 0 then
        Ok(m.(state := AwaitingCellValue, builder := b1))
      else
        var b2 :- FinishCell(b1);
        Ok(m.(state := AwaitingNewCell, builder := b2))
  }

  /** `AWAITING_NEW_ROW.handle_chunk`: the first chunk of a row starts both
      the row and its first cell. */
  function NewRow(m: Machine, c: Chunk): (r: Result<Machine, string>)
    ensures !Truthy(c.rowKey) ==> r.Err?
    ensures r.Ok? ==> r.value.builder.currentKey == Some(c.rowKey) && r.value.lastSeen == m.lastSeen
  {
    if !Truthy(c.rowKey) then Err("New row is missing a row key")
    else
      var b :- StartRow(m.builder, c.rowKey);
      NewCell(m.(builder := b), c)
  }

  /** `_handle_reset_chunk`. */
  function HandleReset(m: Machine, c: Chunk): (r: Result<Machine, string>)
    ensures r.Ok? <==> m.state != AwaitingNewRow && !Truthy(c.rowKey) && !HasCellData(c) && !Truthy(c.value)
    ensures r.Ok? ==> r.value == ResetRow(m)
  {
    if m.state == AwaitingNewRow then Err("Reset chunk received when not processing row")
    else if Truthy(c.rowKey) then Err("Reset chunk has a row key")
    else if FamilyValue(c) != "" then Err("Reset chunk has family_name")
    else if |QualifierValue(c)| > 0 then Err("Reset chunk has qualifier")
    else if c.timestampMicros != 0 then Err("Reset chunk has a timestamp")
    else if |c.labels| > 0 then Err("Reset chunk has labels")
    else if Truthy(c.value) then Err("Reset chunk has a value")
    else Ok(ResetRow(m))
  }

  function StateStep(m: Machine, c: Chunk): Result<Machine, string> {
    match m.state
    case AwaitingNewRow => NewRow(m, c)
    case AwaitingNewCell => NewCell(m, c)
    case AwaitingCellValue => CellValue(m, c)
  }

  /** The strict-ordering guard that opens `handle_chunk`: a keyed chunk
      must sort after the last completed row or scan marker. */
  predicate KeyOutOfOrder(m: Machine, c: Chunk) {
    m.lastSeen.Some? && Truthy(m.lastSeen.value) && Truthy(c.rowKey) && LessEq(c.rowKey, m.lastSeen.value)
  }

  /** `handle_chunk`: the new machine and the row the chunk completes, if
      any. */
  function HandleChunk(m: Machine, c: Chunk): (r: Result<(Machine, Option<Row>), string>)
    ensures KeyOutOfOrder(m, c) ==> r.Err?
    ensures c.resetRow && m.state == AwaitingNewRow ==> r.Err?
    ensures r.Ok? && !c.commitRow ==> r.value.1.None? && r.value.0.lastSeen == m.lastSeen
    ensures r.Ok? && c.commitRow ==>
      && r.value.1.Some?
      && r.value.0.state == AwaitingNewRow
      && r.value.0.builder == EmptyBuilder
      && r.value.0.lastSeen == Some(r.value.1.value.key)
  {
    if KeyOutOfOrder(m, c) then
      Err("row keys should be strictly increasing")
    else
      var m1 :- if c.resetRow then HandleReset(m, c) else StateStep(m, c);
      if c.commitRow then
        if m1.state != AwaitingNewCell then
          Err("commit row attempted without finishing cell")
        else
          var (row, _) :- FinishRow(m1.builder);
          Ok((CompleteRow(m1, row.key), Some(row)))
      else
        Ok((m1, None))
  }

  /** `handle_last_scanned_row`: a scan heartbeat becomes a marker row. */
  function HandleLastScanned(m: Machine, key: Key): (r: Result<Machine, string>)
    ensures r.Ok? <==> m.state == AwaitingNewRow
                       && !(m.lastSeen.Some? && Truthy(m.lastSeen.value) && LessEq(key, m.lastSeen.value))
    ensures r.Ok? ==> r.value.lastSeen == Some(key) && r.value.state == AwaitingNewRow
  {
    if m.lastSeen.Some? && Truthy(m.lastSeen.value) && LessEq(key, m.lastSeen.value) then
      Err("Last scanned row key is out of order")
    else if m.state != AwaitingNewRow then
      Err("Last scanned row key received in invalid state")
    else
      Ok(CompleteRow(m, key))
  }

  // ---------------------------------------------------------------------
  // merge_row_response_stream

  /** The outcome of feeding part of a stream to the machine: the machine
      afterwards, the items yielded so far and the error raised, if any
      (items yielded before a raise are kept: the generator already handed
      them out). */
  datatype Run = Run(machine: Machine, items: seq<Item>, failure: Option<string>)

  function RowItems(row: Option<Row>): seq<Item> {
    if row.Some? then [RowItem(row.value)] else []
  }

  /** Continue a run with more input, unless it already failed. */
  function Then(a: Run, b: Run): Run {
    Run(b.machine, a.items + b.items, b.failure)
  }

  function ProcessChunks(m: Machine, cs: seq<Chunk>): (r: Run)
    decreases |cs|
  {
    if |cs| == 0 then Run(m, [], None)
    else
      match HandleChunk(m, cs[0])
      case Err(e) => Run(m, [], Some(e))
      case Ok((m1, row)) =>
        var rest := ProcessChunks(m1, cs[1..]);
        Run(rest.machine, RowItems(row) + rest.items, rest.failure)
  }

  /** The heartbeat part of a response: handled only when the key is
      non-empty, and yielded as a marker. */
  function ProcessScanned(m: Machine, key: Key): (r: Run) {
    if !Truthy(key) then Run(m, [], None)
    else match HandleLastScanned(m, key)
      case Err(e) => Run(m, [], Some(e))
      case Ok(m1) => Run(m1, [ScanMarker(key)], None)
  }

  function ProcessResponse(m: Machine, resp: Response): (r: Run) {
    var scanned := ProcessScanned(m, resp.lastScannedRowKey);
    if scanned.failure.Some? then scanned
    else
      var chunks := ProcessChunks(scanned.machine, resp.chunks);
      var both := Then(scanned, chunks);
      if both.failure.Some? || resp.stats.None? then both
      else both.(items := both.items + [StatsItem(resp.stats.value)])
  }

  function ProcessResponses(m: Machine, rs: seq<Response>): (r: Run)
    decreases |rs|
  {
    if |rs| == 0 then Run(m, [], None)
    else
      var first := ProcessResponse(m, rs[0]);
      if first.failure.Some? then first
      else Then(first, ProcessResponses(first.machine, rs[1..]))
  }

  /** `merge_row_response_stream` on a fresh `_StateMachine`: every item
      the stream yields, and the `InvalidChunk` it ends with, if any. */
  function MergeResponseStream(rs: seq<Response>): (r: Run) {
    var run := ProcessResponses(Initial, rs);
    if run.failure.None? && !IsTerminal(run.machine) then
      run.(failure := Some("read_rows completed with partial state remaining"))
    else run
  }
}
