/** How a server lays rows out as `CellChunk`s (section "ReadRowsResponse"
    of the Bigtable v2 API): the first chunk of a row carries its key, the
    first chunk of a cell carries family, qualifier, timestamp and labels,
    a value may be split over several chunks whose `value_size` is the
    full length on every chunk but the last, and the last chunk of the row
    has `commit_row` set. Both mergers are proved to invert this layout. */
module ChunkEncoding {
  import opened Wrappers
  import opened Keys
  import opened ReadRowsTypes
  import opened Sequences

  /** A cell together with the pieces its value is sent in. */
  datatype WireCell = WireCell(family: string, qualifier: Bytes, timestampMicros: int, labels: seq<string>, pieces: seq<Bytes>)

  datatype WireRow = WireRow(key: Key, cells: seq<WireCell>)

  /** A cell the API can express: a family and a qualifier that are not
      empty (an empty one reads as "same as before"), at least one piece,
      and a positive total size when the value is split. */
  predicate WireCellValid(c: WireCell) {
    c.family != "" && |c.qualifier| > 0 && |c.pieces| > 0
    && (|c.pieces| > 1 ==> |Flatten(c.pieces)| > 0)
  }

  /** A row the API can express: a non-empty key and at least one cell. */
  predicate WireRowValid(r: WireRow) {
    Truthy(r.key) && |r.cells| > 0 && forall i :: 0 <= i < |r.cells| ==> WireCellValid(r.cells[i])
  }

  predicate WireRowsValid(rows: seq<WireRow>) {
    (forall i :: 0 <= i < |rows| ==> WireRowValid(rows[i]))
    && forall i, j :: 0 <= i < j < |rows| ==> Less(rows[i].key, rows[j].key)
  }

  lemma WireRowsValidTail(rows: seq<WireRow>)
    requires WireRowsValid(rows) && |rows| > 0
    ensures WireRowsValid(rows[1..])
    ensures |rows| > 1 ==> Less(rows[0].key, rows[1].key)
  {
    forall i | 0 <= i < |rows[1..]| ensures WireRowValid(rows[1..][i]) { assert rows[1..][i] == rows[i + 1]; }
    forall i, j | 0 <= i < j < |rows[1..]| ensures Less(rows[1..][i].key, rows[1..][j].key) {
      assert rows[1..][i] == rows[i + 1] && rows[1..][j] == rows[j + 1];
    }
  }

  function DecodeCell(key: Key, c: WireCell): (r: Cell)
    ensures r.rowKey == key && r.value == Flatten(c.pieces)
  {
    Cell(Flatten(c.pieces), key, c.family, c.qualifier, c.timestampMicros, c.labels)
  }

  function DecodeCells(key: Key, cs: seq<WireCell>): (r: seq<Cell>)
    ensures |r| == |cs|
    ensures forall i :: 0 <= i < |cs| ==> r[i] == DecodeCell(key, cs[i])
    decreases |cs|
  {
    if |cs| == 0 then [] else [DecodeCell(key, cs[0])] + DecodeCells(key, cs[1..])
  }

  /** The row a client should assemble from a wire row. */
  function DecodeRow(r: WireRow): (row: Row)
    ensures row.key == r.key && |row.cells| == |r.cells|
  {
    Row(r.key, DecodeCells(r.key, r.cells))
  }

  function DecodeRows(rs: seq<WireRow>): (rows: seq<Row>)
    ensures |rows| == |rs|
    ensures forall i :: 0 <= i < |rs| ==> rows[i] == DecodeRow(rs[i])
  {
    if |rs| == 0 then [] else [DecodeRow(rs[0])] + DecodeRows(rs[1..])
  }

  /** A chunk continuing a split value. */
  function Continuation(piece: Bytes, valueSize: int): Chunk {
    Chunk([], None, None, 0, [], piece, valueSize, false, false)
  }

  /** The continuation chunks for the remaining pieces of a split value of
      `total` bytes. */
  function Continuations(pieces: seq<Bytes>, total: int): (cs: seq<Chunk>)
    ensures |cs| == |pieces|
    ensures forall i :: 0 <= i < |cs| ==> cs[i].rowKey == [] && !cs[i].resetRow && !cs[i].commitRow
    decreases |pieces|
  {
    if |pieces| == 0 then []
    else if |pieces| == 1 then [Continuation(pieces[0], 0)]
    else [Continuation(pieces[0], total)] + Continuations(pieces[1..], total)
  }

  /** The chunks of one cell; `key` is the row key on the row's first cell
      and empty on the others. */
  function EncodeCell(key: Key, c: WireCell): (cs: seq<Chunk>)
    requires WireCellValid(c)
    ensures |cs| == |c.pieces| && cs[0].rowKey == key
    ensures forall i :: 0 <= i < |cs| ==> !cs[i].resetRow && !cs[i].commitRow
  {
    var total := |Flatten(c.pieces)|;
    var size := if |c.pieces| > 1 then total else 0;
    [Chunk(key, Some(c.family), Some(c.qualifier), c.timestampMicros, c.labels, c.pieces[0], size, false, false)]
      + Continuations(c.pieces[1..], total)
  }

  function EncodeCells(key: Key, cs: seq<WireCell>): (chunks: seq<Chunk>)
    requires forall i :: 0 <= i < |cs| ==> WireCellValid(cs[i])
    ensures |cs| > 0 ==> |chunks| > 0 && chunks[0].rowKey == key
    ensures forall i :: 0 <= i < |chunks| ==> !chunks[i].resetRow && !chunks[i].commitRow
    decreases |cs|
  {
    if |cs| == 0 then [] else EncodeCell(key, cs[0]) + EncodeCells([], cs[1..])
  }

  /** Set `commit_row` on the last chunk. */
  function CommitLast(cs: seq<Chunk>): (r: seq<Chunk>)
    ensures |r| == |cs|
    ensures forall i :: 0 <= i < |cs| - 1 ==> r[i] == cs[i]
    ensures |cs| > 0 ==> r[|cs| - 1] == cs[|cs| - 1].(commitRow := true)
  {
    if |cs| == 0 then [] else cs[..|cs| - 1] + [cs[|cs| - 1].(commitRow := true)]
  }

  function EncodeRow(r: WireRow): (cs: seq<Chunk>)
    requires WireRowValid(r)
    ensures |cs| > 0 && cs[0].rowKey == r.key && cs[|cs| - 1].commitRow
    ensures forall i :: 0 <= i < |cs| ==> !cs[i].resetRow
    ensures forall i :: 0 <= i < |cs| - 1 ==> !cs[i].commitRow
  {
    CommitLast(EncodeCells(r.key, r.cells))
  }

  function EncodeRows(rs: seq<WireRow>): seq<Chunk>
    requires forall i :: 0 <= i < |rs| ==> WireRowValid(rs[i])
  {
    if |rs| == 0 then [] else EncodeRow(rs[0]) + EncodeRows(rs[1..])
  }

  /** Every chunk of all responses, in order. */
  function AllChunks(rs: seq<Response>): seq<Chunk> {
    if |rs| == 0 then [] else rs[0].chunks + AllChunks(rs[1..])
  }

  /** A response stream that carries nothing but chunks. */
  predicate ChunksOnly(rs: seq<Response>) {
    forall i :: 0 <= i < |rs| ==> !Truthy(rs[i].lastScannedRowKey) && rs[i].stats.None?
  }
}
