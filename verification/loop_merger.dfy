/** The generator-based row merger `merge_rows` of
    google/cloud/bigtable/data/_sync/_read_rows.py, recast as a step
    function over single chunks so that it can be interleaved with
    `chunk_stream`. Its nested loops become three positions: between rows,
    inside a row, and inside a split cell value. */
module LoopMerger {
  import opened Wrappers
  import opened Keys
  import opened ReadRowsTypes

  datatype MergeState =
    | BetweenRows
      /** In the inner `while True` of a row: the cells so far and the
          family and qualifier carried from earlier chunks. */
    | InRow(key: Key, cells: seq<Cell>, family: Option<string>, qualifier: Option<Bytes>)
      /** In the split-value loop: the cell's fixed fields and the value
          pieces joined so far. */
    | InSplit(key: Key, cells: seq<Cell>, cellFamily: string, cellQualifier: Bytes,
              timestampMicros: int, labels: seq<string>, buffer: Bytes)

  /** A reset chunk may carry no data at all; then the row is dropped. */
  function ResetChunk(c: Chunk): (r: Result<(MergeState, Option<Row>), string>)
    ensures r.Ok? <==> !Truthy(c.rowKey) && c.familyName.None? && c.qualifier.None?
                       && c.timestampMicros == 0 && |c.labels| == 0 && !Truthy(c.value)
    ensures r.Ok? ==> r.value == (BetweenRows, None)
  {
    if Truthy(c.rowKey) || c.familyName.Some? || c.qualifier.Some?
       || c.timestampMicros != 0 || |c.labels| > 0 || Truthy(c.value) then
      Err("reset row with data")
    else
      Ok((BetweenRows, None))
  }

  /** A finished cell: commit the row or go on with the next cell. */
  function EndCell(key: Key, cells: seq<Cell>, family: string, qualifier: Bytes, cell: Cell, commit: bool)
    : (r: (MergeState, Option<Row>))
    ensures commit ==> r == (BetweenRows, Some(Row(key, cells + [cell])))
    ensures !commit ==> r == (InRow(key, cells + [cell], Some(family), Some(qualifier)), None)
  {
    if commit then (BetweenRows, Some(Row(key, cells + [cell])))
    else (InRow(key, cells + [cell], Some(family), Some(qualifier)), None)
  }

  /** A chunk inside a row, at a cell boundary. */
  function RowChunk(key: Key, cells: seq<Cell>, family: Option<string>, qualifier: Option<Bytes>, c: Chunk)
    : (r: Result<(MergeState, Option<Row>), string>)
    ensures !c.resetRow && Truthy(c.rowKey) && c.rowKey != key ==> r.Err?
    ensures !c.resetRow && FamilyValue(c) != "" && c.qualifier.None? ==> r.Err?
    ensures !c.resetRow && FamilyValue(c) == "" && family.None? ==> r.Err?
    ensures r.Ok? && r.value.1.Some? ==>
      r.value.1.value.key == key && r.value.0 == BetweenRows && c.commitRow && !c.resetRow
    ensures r.Ok? && r.value.0 != BetweenRows ==> r.value.0.key == key
  {
    if c.resetRow then ResetChunk(c)
    else if Truthy(c.rowKey) && c.rowKey != key then Err("unexpected new row key")
    else
      var f := FamilyValue(c);
      if f != "" && c.qualifier.None? then Err("new family without qualifier")
      else if f == "" && family.None? then Err("missing family")
      else if f == "" && c.qualifier.None? && qualifier.None? then Err("missing qualifier")
      else
        var fam := if f != "" then f else family.value;
        var qual := if c.qualifier.Some? then c.qualifier.value else qualifier.value;
        if c.valueSize > 0 then
          Ok((InSplit(key, cells, fam, qual, c.timestampMicros, c.labels, c.value), None))
        else
          Ok(EndCell(key, cells, fam, qual, Cell(c.value, key, fam, qual, c.timestampMicros, c.labels), c.commitRow))
  }

  /** A chunk continuing a split cell value. */
  function SplitChunk(s: MergeState, c: Chunk): (r: Result<(MergeState, Option<Row>), string>)
    requires s.InSplit?
    ensures c.familyName.Some? && c.familyName.value != s.cellFamily ==> r.Err?
    ensures c.qualifier.Some? && c.qualifier.value != s.cellQualifier ==> r.Err?
    ensures c.timestampMicros != 0 && c.timestampMicros != s.timestampMicros ==> r.Err?
    ensures |c.labels| > 0 && c.labels != s.labels ==> r.Err?
    ensures Truthy(c.rowKey) && c.rowKey != s.key ==> r.Err?
    ensures r.Ok? && !c.resetRow && c.valueSize > 0 ==> r.value == (s.(buffer := s.buffer + c.value), None)
    ensures r.Ok? && r.value.1.Some? ==>
      r.value.1.value.key == s.key && r.value.0 == BetweenRows && c.commitRow && !c.resetRow
    ensures r.Ok? && r.value.0 != BetweenRows ==> r.value.0.key == s.key
  {
    if c.familyName.Some? && c.familyName.value != s.cellFamily then Err("family changed mid cell")
    else if c.qualifier.Some? && c.qualifier.value != s.cellQualifier then Err("qualifier changed mid cell")
    else if c.timestampMicros != 0 && c.timestampMicros != s.timestampMicros then Err("timestamp changed mid cell")
    else if |c.labels| > 0 && c.labels != s.labels then Err("labels changed mid cell")
    else if Truthy(c.rowKey) && c.rowKey != s.key then Err("row key changed mid cell")
    else if c.resetRow then ResetChunk(c)
    else
      var buffer := s.buffer + c.value;
      if c.valueSize > 0 then Ok((s.(buffer := buffer), None))
      else
        var cell := Cell(buffer, s.key, s.cellFamily, s.cellQualifier, s.timestampMicros, s.labels);
        Ok(EndCell(s.key, s.cells, s.cellFamily, s.cellQualifier, cell, c.commitRow))
  }

  /** One chunk pulled by `merge_rows`: the new position and the row it
      yields, if any. */
  function MergeStep(s: MergeState, c: Chunk): (r: Result<(MergeState, Option<Row>), string>)
    ensures s.BetweenRows? && !Truthy(c.rowKey) ==> r.Err?
    ensures r.Ok? && r.value.1.Some? ==> r.value.0 == BetweenRows && c.commitRow && !c.resetRow
    ensures r.Ok? && r.value.1.Some? ==> r.value.1.value.key == (if s.BetweenRows? then c.rowKey else s.key)
    ensures r.Ok? && r.value.0 != BetweenRows ==> r.value.0.key == (if s.BetweenRows? then c.rowKey else s.key)
    ensures r.Ok? && c.resetRow ==> r.value == (BetweenRows, None)
    ensures r.Ok? && r.value.0 == BetweenRows && r.value.1.None? ==> c.resetRow
    ensures !s.BetweenRows? && Truthy(c.rowKey) && c.rowKey != s.key ==> r.Err?
  {
    match s
    case BetweenRows =>
      if !Truthy(c.rowKey) then Err("first row chunk is missing key")
      else RowChunk(c.rowKey, [], None, None, c)
    case InRow(key, cells, family, qualifier) => RowChunk(key, cells, family, qualifier, c)
    case InSplit(_, _, _, _, _, _, _) => SplitChunk(s, c)
  }

  /** What `merge_rows` has produced from a prefix of its input. */
  datatype Merged = Merged(state: MergeState, rows: seq<Row>, failure: Option<string>)

  function RowList(row: Option<Row>): seq<Row> {
    if row.Some? then [row.value] else []
  }

  function MergeChunks(s: MergeState, cs: seq<Chunk>): (r: Merged)
    decreases |cs|, 1
  {
    if |cs| == 0 then Merged(s, [], None) else Resume(s, MergeStep(s, cs[0]), cs[1..])
  }

  /** Carry on after one step: stop at an error, otherwise merge the rest
      and put the step's row in front. */
  function Resume(s: MergeState, step: Result<(MergeState, Option<Row>), string>, rest: seq<Chunk>): (r: Merged)
    decreases |rest|, 2
  {
    match step
    case Err(e) => Merged(s, [], Some(e))
    case Ok((s1, row)) =>
      var r := MergeChunks(s1, rest);
      Merged(r.state, RowList(row) + r.rows, r.failure)
  }

  /** `merge_rows` over a chunk iterator that ends cleanly: running out of
      chunks inside a row is an error. */
  function MergeRows(cs: seq<Chunk>): (r: Merged) {
    var run := MergeChunks(BetweenRows, cs);
    if run.failure.None? && !run.state.BetweenRows? then
      run.(failure := Some("premature end of stream"))
    else run
  }
}
