/** The user-facing query builder (google/cloud/bigtable/read_rows_query.py):
    keys and ranges collected in the order they are added, a limit and a
    filter, and the dictionary a `ReadRowsRequest` is built from. Keys are
    kept as given, `str` or `bytes`. */
module ReadRowsQuery {
  import opened Wrappers
  import Utf8

  type Key = Utf8.StrOrBytes

  /** One end of a range: a missing key leaves that side unbounded. */
  datatype RangePoint = RangePoint(key: Option<Key>, isInclusive: bool)

  datatype KeyRange = KeyRange(start: RangePoint, end: RangePoint)

  /** A query; `F` is the filter type. */
  datatype Query<F> = Query(rowKeys: seq<Key>, rowRanges: seq<KeyRange>, limit: Option<int>, filter: Option<F>)

  /** The `row_keys` argument: one key, or a list of them. */
  datatype KeysArg = One(key: Key) | Many(keys: seq<Key>)

  /** The keys an argument stands for: a single key is wrapped in a list. */
  function KeysOf(arg: KeysArg): (ks: seq<Key>)
    ensures arg.One? ==> ks == [arg.key]
    ensures arg.Many? ==> ks == arg.keys
  {
    if arg.One? then [arg.key] else arg.keys
  }

  /** Python truthiness of the argument: an empty key or an empty list is
      false. */
  predicate Truthy(arg: KeysArg) {
    match arg
    case One(k) => if k.Str? then |k.text| > 0 else |k.bytes| > 0
    case Many(ks) => |ks| > 0
  }

  /** `add_rows`: the keys are appended in order; nothing else changes. */
  function AddRows<F>(q: Query<F>, arg: KeysArg): (r: Query<F>)
    ensures |r.rowKeys| == |q.rowKeys| + |KeysOf(arg)|
    ensures r.rowKeys[..|q.rowKeys|] == q.rowKeys && r.rowKeys[|q.rowKeys|..] == KeysOf(arg)
    ensures r.(rowKeys := q.rowKeys) == q
  {
    q.(rowKeys := q.rowKeys + KeysOf(arg))
  }

  /** `ReadRowsQuery.__init__`: no ranges, the given limit and filter, and
      the keys of a truthy `row_keys` (a falsy one, such as a lone empty
      key, adds nothing). */
  function NewQuery<F>(rowKeys: Option<KeysArg>, limit: Option<int>, filter: Option<F>): (q: Query<F>)
    ensures q.rowRanges == [] && q.limit == limit && q.filter == filter
    ensures q.rowKeys == if rowKeys.Some? && Truthy(rowKeys.value) then KeysOf(rowKeys.value) else []
  {
    var q := Query([], [], limit, filter);
    if rowKeys.Some? && Truthy(rowKeys.value) then AddRows(q, rowKeys.value) else q
  }

  /** `set_limit`. */
  function SetLimit<F>(q: Query<F>, limit: Option<int>): (r: Query<F>)
    ensures r.limit == limit && r.(limit := q.limit) == q
  {
    q.(limit := limit)
  }

  /** `set_filter`. */
  function SetFilter<F>(q: Query<F>, filter: Option<F>): (r: Query<F>)
    ensures r.filter == filter && r.(filter := q.filter) == q
  {
    q.(filter := filter)
  }

  /** `add_range`: with both keys missing, `ValueError`; otherwise exactly
      one range is appended, with the given inclusiveness. */
  function AddRange<F>(q: Query<F>, startKey: Option<Key>, endKey: Option<Key>, startIsInclusive: bool, endIsInclusive: bool): (r: Result<Query<F>, string>)
    ensures r.Err? <==> startKey.None? && endKey.None?
    ensures r.Ok? ==> r.value == q.(rowRanges := q.rowRanges + [KeyRange(RangePoint(startKey, startIsInclusive), RangePoint(endKey, endIsInclusive))])
  {
    if startKey.None? && endKey.None? then Err("start_key and end_key cannot both be None")
    else Ok(q.(rowRanges := q.rowRanges + [KeyRange(RangePoint(startKey, startIsInclusive), RangePoint(endKey, endIsInclusive))]))
  }

  /** A range in the request dictionary: keyed by `start_key_closed`,
      `start_key_open`, `end_key_closed`, `end_key_open`. */
  type RangeDict = map<string, Key>

  function RangeToDict(kr: KeyRange): (d: RangeDict)
    ensures "start_key_closed" in d <==> kr.start.key.Some? && kr.start.isInclusive
    ensures "start_key_open" in d <==> kr.start.key.Some? && !kr.start.isInclusive
    ensures "end_key_closed" in d <==> kr.end.key.Some? && kr.end.isInclusive
    ensures "end_key_open" in d <==> kr.end.key.Some? && !kr.end.isInclusive
    ensures |d.Keys| == (if kr.start.key.Some? then 1 else 0) + (if kr.end.key.Some? then 1 else 0)
  {
    var s: RangeDict := if kr.start.key.None? then map[]
      else map[(if kr.start.isInclusive then "start_key_closed" else "start_key_open") := kr.start.key.value];
    var d := if kr.end.key.None? then s
      else s[(if kr.end.isInclusive then "end_key_closed" else "end_key_open") := kr.end.key.value];
    assert s.Keys !! {"end_key_closed", "end_key_open"};
    d
  }

  /** A range as the request reads it: the inclusiveness of a missing key
      means nothing, so it is read as the default. */
  function RangeFromDict(d: RangeDict): KeyRange {
    var start := if "start_key_closed" in d then RangePoint(Some(d["start_key_closed"]), true)
      else if "start_key_open" in d then RangePoint(Some(d["start_key_open"]), false)
      else RangePoint(None, true);
    var end := if "end_key_closed" in d then RangePoint(Some(d["end_key_closed"]), true)
      else if "end_key_open" in d then RangePoint(Some(d["end_key_open"]), false)
      else RangePoint(None, false);
    KeyRange(start, end)
  }

  /** The range with the inclusiveness of missing keys set to the
      constructor's defaults. */
  function Normal(kr: KeyRange): KeyRange {
    KeyRange(
      if kr.start.key.None? then RangePoint(None, true) else kr.start,
      if kr.end.key.None? then RangePoint(None, false) else kr.end)
  }

  /** The dictionary keeps each range up to the inclusiveness of a missing
      key. */
  lemma RangeDictRoundTrip(kr: KeyRange)
    ensures RangeFromDict(RangeToDict(kr)) == Normal(kr)
  {
  }

  /** `to_dict`'s result. */
  datatype QueryDict<D> = QueryDict(rowKeys: seq<Key>, rowRanges: seq<RangeDict>, filter: Option<D>, limit: Option<int>)

  function RangesToDict(ranges: seq<KeyRange>): (ds: seq<RangeDict>)
    ensures |ds| == |ranges|
    ensures forall k :: 0 <= k < |ds| ==> ds[k] == RangeToDict(ranges[k])
  {
    if |ranges| == 0 then [] else [RangeToDict(ranges[0])] + RangesToDict(ranges[1..])
  }

  /** `to_dict`, with `filterToDict` the filter's own `to_dict`. As written
      (`asWritten`) a query without a filter raises `AttributeError` on
      `None.to_dict()`; as intended it sends no filter. */
  function ToDict<F, D>(q: Query<F>, filterToDict: F -> D, asWritten: bool): (r: Result<QueryDict<D>, string>)
    ensures r.Err? <==> asWritten && q.filter.None?
    ensures r.Ok? ==> r.value.rowKeys == q.rowKeys && r.value.limit == q.limit
    ensures r.Ok? ==> (|r.value.rowRanges| == |q.rowRanges|
      && forall k :: 0 <= k < |q.rowRanges| ==> RangeFromDict(r.value.rowRanges[k]) == Normal(q.rowRanges[k]))
    ensures r.Ok? ==> (r.value.filter.Some? <==> q.filter.Some?)
    ensures r.Ok? && q.filter.Some? ==> r.value.filter == Some(filterToDict(q.filter.value))
  {
    if asWritten && q.filter.None? then Err("AttributeError: 'NoneType' object has no attribute 'to_dict'")
    else
      var ranges := RangesToDict(q.rowRanges);
      assert forall k :: 0 <= k < |q.rowRanges| ==> RangeFromDict(ranges[k]) == Normal(q.rowRanges[k]) by {
        forall k | 0 <= k < |q.rowRanges| ensures RangeFromDict(ranges[k]) == Normal(q.rowRanges[k]) {
          RangeDictRoundTrip(q.rowRanges[k]);
        }
      }
      Ok(QueryDict(q.rowKeys, ranges, if q.filter.Some? then Some(filterToDict(q.filter.value)) else None, q.limit))
  }

  /** The request lists keys and ranges in the order they were added: a
      later `add_rows` or `add_range` only extends the dictionary's lists,
      and setting the limit or filter leaves them alone. */
  lemma ToDictKeepsOrder<F, D>(q: Query<F>, arg: KeysArg, start: Option<Key>, end: Option<Key>, si: bool, ei: bool,
                               limit: Option<int>, filter: F, filterToDict: F -> D)
    requires q.filter.Some?
    ensures var before := ToDict(q, filterToDict, true).value;
      ToDict(AddRows(q, arg), filterToDict, true).value.rowKeys == before.rowKeys + KeysOf(arg)
      && (AddRange(q, start, end, si, ei).Ok? ==>
          ToDict(AddRange(q, start, end, si, ei).value, filterToDict, true).value.rowRanges
          == before.rowRanges + [RangeToDict(KeyRange(RangePoint(start, si), RangePoint(end, ei)))])
      && ToDict(SetLimit(q, limit), filterToDict, true).value.rowRanges == before.rowRanges
      && ToDict(SetFilter(q, Some(filter)), filterToDict, true).value.rowKeys == before.rowKeys
  {
    var before := ToDict(q, filterToDict, true).value;
    if AddRange(q, start, end, si, ei).Ok? {
      var kr := KeyRange(RangePoint(start, si), RangePoint(end, ei));
      var after := ToDict(AddRange(q, start, end, si, ei).value, filterToDict, true).value;
      assert after.rowRanges == before.rowRanges + [RangeToDict(kr)];
    }
  }

  /** A query built without a filter cannot be turned into a request as
      written, though it can as intended. */
  lemma ToDictCounterexample()
    ensures var q := NewQuery<int>(Some(One(Utf8.Raw([1]))), None, None);
      ToDict(q, (f: int) => f, true).Err? && ToDict(q, (f: int) => f, false).Ok?
  {
  }
}
