/** The data carried by a ReadRows stream: cell chunks as the server sends
    them, the cells and rows they assemble into, and the row set of a
    request. */
module ReadRowsTypes {
  import opened Wrappers
  import opened Keys

  /** One `ReadRowsResponse.CellChunk`. `familyName` and `qualifier` are
      wrapper messages on the wire, so they are optional: `None` is an
      unset field (`HasField` is false), `Some("")` a field set to the
      empty value. `valueSize > 0` marks a cell whose value continues in
      the next chunk. */
  datatype Chunk = Chunk(
    rowKey: Key,
    familyName: Option<string>,
    qualifier: Option<Bytes>,
    timestampMicros: int,
    labels: seq<string>,
    value: Bytes,
    valueSize: int,
    resetRow: bool,
    commitRow: bool)

  /** `chunk.family_name.value`: the empty string when the field is unset. */
  function FamilyValue(c: Chunk): string {
    c.familyName.GetOr("")
  }

  /** `chunk.qualifier.value`: empty bytes when the field is unset. */
  function QualifierValue(c: Chunk): Bytes {
    c.qualifier.GetOr([])
  }

  datatype Cell = Cell(
    value: Bytes,
    rowKey: Key,
    family: string,
    qualifier: Bytes,
    timestampMicros: int,
    labels: seq<string>)

  datatype Row = Row(key: Key, cells: seq<Cell>)

  /** One `ReadRowsResponse`: an optional scan heartbeat (empty key when
      absent), a batch of chunks and optional request statistics. */
  datatype Response = Response(lastScannedRowKey: Key, chunks: seq<Chunk>, stats: Option<nat>)

  /** What a merger yields: a completed row, a `_LastScannedRow` marker
      (a row with a key and no cells) or a `RequestStats` message. */
  datatype Item = RowItem(row: Row) | ScanMarker(key: Key) | StatsItem(stats: nat)

  /** The key of a row-like item (rows and scan markers are both `Row`s in
      the source). */
  function ItemKey(it: Item): Key
    requires !it.StatsItem?
  {
    if it.RowItem? then it.row.key else it.key
  }

  /** The keys of the row-like items, in order. */
  function ItemKeys(items: seq<Item>): (ks: seq<Key>)
    ensures |ks| <= |items|
  {
    if |items| == 0 then []
    else if items[0].StatsItem? then ItemKeys(items[1..])
    else [ItemKey(items[0])] + ItemKeys(items[1..])
  }

  lemma ItemKeysAppend(a: seq<Item>, b: seq<Item>)
    ensures ItemKeys(a + b) == ItemKeys(a) + ItemKeys(b)
  {
    if |a| > 0 {
      assert (a + b)[1..] == a[1..] + b;
    } else {
      assert a + b == b;
    }
  }

  /** The rows among the items, in order (markers and stats dropped). */
  function RowsOf(items: seq<Item>): (rows: seq<Row>)
    ensures |rows| <= |items|
  {
    if |items| == 0 then []
    else if items[0].RowItem? then [items[0].row] + RowsOf(items[1..])
    else RowsOf(items[1..])
  }

  lemma RowsOfAppend(a: seq<Item>, b: seq<Item>)
    ensures RowsOf(a + b) == RowsOf(a) + RowsOf(b)
  {
    if |a| > 0 {
      assert (a + b)[1..] == a[1..] + b;
    } else {
      assert a + b == b;
    }
  }

  function RowKeys(rows: seq<Row>): (ks: seq<Key>)
    ensures |ks| == |rows|
    ensures forall i :: 0 <= i < |rows| ==> ks[i] == rows[i].key
  {
    if |rows| == 0 then [] else [rows[0].key] + RowKeys(rows[1..])
  }

  lemma RowKeysAppend(a: seq<Row>, b: seq<Row>)
    ensures RowKeys(a + b) == RowKeys(a) + RowKeys(b)
  {
  }

  /** One endpoint of a `RowRange`: the proto oneof `start_key_closed` /
      `start_key_open` (likewise for the end), or neither. */
  datatype Bound = Unbounded | Closed(key: Key) | Open(key: Key)

  /** The endpoint's key, with an empty key read as no bound, which is
      what an empty key means to the server. The protobuf revision reads
      `range.end_key_closed or range.end_key_open or None` this way; the
      dict revision's `or` keeps an empty open end (see
      `RowSetRevision.DictEndKey`). */
  function BoundKey(b: Bound): Option<Key> {
    if b.Unbounded? || |b.key| == 0 then None else Some(b.key)
  }

  datatype RowRange = RowRange(start: Bound, end: Bound)

  datatype RowSet = RowSet(rowKeys: seq<Key>, rowRanges: seq<RowRange>)

  /** The rows, as the items a merger yields for them. */
  function AsItems(rows: seq<Row>): (items: seq<Item>)
    ensures |items| == |rows|
    ensures forall i :: 0 <= i < |rows| ==> items[i] == RowItem(rows[i])
  {
    if |rows| == 0 then [] else [RowItem(rows[0])] + AsItems(rows[1..])
  }
}
