/** Trimming a request's row set after a partial read, so that a retry
    asks only for rows after the last one seen. The client carries four
    versions of this step; each is modelled as its own function, and each
    is related to the set of row keys a row set selects. */
module RowSetRevision {
  import opened Wrappers
  import opened Keys
  import opened ReadRowsTypes
  import opened Sequences

  // ---------------------------------------------------------------------
  // What a row set selects

  /** `k` lies at or after the start of a range: an absent or empty start
      key places no bound. */
  predicate AfterStart(k: Key, b: Bound) {
    var s := BoundKey(b);
    s.None? || (if b.Closed? then LessEq(s.value, k) else Less(s.value, k))
  }

  /** `k` lies at or before the end of a range: an absent or empty end key
      places no bound. */
  predicate BeforeEnd(k: Key, b: Bound) {
    var e := BoundKey(b);
    e.None? || (if b.Closed? then LessEq(k, e.value) else Less(k, e.value))
  }

  predicate InRange(k: Key, r: RowRange) {
    AfterStart(k, r.start) && BeforeEnd(k, r.end)
  }

  predicate InAnyRange(k: Key, rs: seq<RowRange>)
    decreases |rs|
  {
    |rs| > 0 && (InRange(k, rs[0]) || InAnyRange(k, rs[1..]))
  }

  /** No row set, or one with neither keys nor ranges, reads the whole
      table. */
  predicate WholeTable(rowSet: Option<RowSet>) {
    rowSet.None? || (|rowSet.value.rowKeys| == 0 && |rowSet.value.rowRanges| == 0)
  }

  predicate Selects(rowSet: Option<RowSet>, k: Key) {
    WholeTable(rowSet) || k in rowSet.value.rowKeys || InAnyRange(k, rowSet.value.rowRanges)
  }

  // ---------------------------------------------------------------------
  // Shared steps

  /** The whole-table scan resumed after `last`. */
  function ScanAfter(last: Key): RowSet {
    RowSet([], [RowRange(Open(last), Unbounded)])
  }

  /** The keys strictly after `last`, in their original order. */
  function KeysAfter(keys: seq<Key>, last: Key): (r: seq<Key>)
    ensures Subsequence(r, keys)
    ensures forall k :: k in r <==> k in keys && Less(last, k)
    decreases |keys|
  {
    if |keys| == 0 then []
    else if Less(last, keys[0]) then [keys[0]] + KeysAfter(keys[1..], last)
    else KeysAfter(keys[1..], last)
  }

  /** The keys not yet emitted, in their original order. */
  function KeysNotIn(keys: seq<Key>, emitted: seq<Key>): (r: seq<Key>)
    ensures Subsequence(r, keys)
    ensures forall k :: k in r <==> k in keys && k !in emitted
    decreases |keys|
  {
    if |keys| == 0 then []
    else if keys[0] !in emitted then [keys[0]] + KeysNotIn(keys[1..], emitted)
    else KeysNotIn(keys[1..], emitted)
  }

  /** One range after `last`: dropped when it ends at or before `last`;
      otherwise its start moves to just after `last` unless it already
      starts later. */
  function ReviseRange(r: RowRange, last: Key): (o: Option<RowRange>)
    ensures o.None? <==> BoundKey(r.end).Some? && LessEq(BoundKey(r.end).value, last)
    ensures o.Some? ==> o.value.end == r.end
  {
    var end := BoundKey(r.end);
    if end.None? || Less(last, end.value) then
      assert end.Some? ==> !LessEq(end.value, last) by {
        if end.Some? { NotLessEqIsGreater(end.value, last); }
      }
      var start := BoundKey(r.start);
      Some(if start.None? || LessEq(start.value, last) then r.(start := Open(last)) else r)
    else
      NotLessEqIsGreater(end.value, last);
      None
  }

  function ReviseRanges(rs: seq<RowRange>, last: Key): (r: seq<RowRange>)
    ensures |r| <= |rs|
    decreases |rs|
  {
    if |rs| == 0 then []
    else
      var o := ReviseRange(rs[0], last);
      (if o.Some? then [o.value] else []) + ReviseRanges(rs[1..], last)
  }

  /** The end key as the synchronous surface reads a range dict,
      `range.get("end_key_closed", None) or range.get("end_key_open", None)`:
      an empty closed end falls through to the absent open end and reads
      as no bound, but an empty open end is kept as the empty key. */
  function DictEndKey(b: Bound): (e: Option<Key>)
    ensures b != Open([]) ==> e == BoundKey(b)
    ensures b == Open([]) ==> e == Some([])
  {
    if b.Open? then Some(b.key) else BoundKey(b)
  }

  /** Every range has an end other than an empty open one: the two
      readings of the end key agree on such ranges. */
  predicate NoEmptyOpenEnd(rs: seq<RowRange>) {
    forall i :: 0 <= i < |rs| ==> rs[i].end != Open([])
  }

  /** One range of the synchronous surface's revision as written. The
      start is read the same way, but an empty start key sorts at or
      before every `last`, so it is rewritten just as an absent one. An
      empty open end sorts before every key, so such a range is always
      dropped, although it reaches the end of the table. */
  function ReviseDictRange(r: RowRange, last: Key): (o: Option<RowRange>)
    ensures o.None? <==> DictEndKey(r.end).Some? && LessEq(DictEndKey(r.end).value, last)
    ensures r.end == Open([]) ==> o.None?
    ensures r.end != Open([]) ==> o == ReviseRange(r, last)
  {
    var end := DictEndKey(r.end);
    if end.None? || Less(last, end.value) then
      assert end.Some? ==> !LessEq(end.value, last) by {
        if end.Some? { NotLessEqIsGreater(end.value, last); }
      }
      var start := BoundKey(r.start);
      Some(if start.None? || LessEq(start.value, last) then r.(start := Open(last)) else r)
    else
      NotLessEqIsGreater(end.value, last);
      None
  }

  function ReviseDictRanges(rs: seq<RowRange>, last: Key): (r: seq<RowRange>)
    ensures |r| <= |rs|
    ensures NoEmptyOpenEnd(rs) ==> r == ReviseRanges(rs, last)
    ensures NoEmptyOpenEnd(r)
    decreases |rs|
  {
    if |rs| == 0 then []
    else
      assert NoEmptyOpenEnd(rs) ==> NoEmptyOpenEnd(rs[1..]) by {
        if NoEmptyOpenEnd(rs) {
          forall i | 0 <= i < |rs[1..]| ensures rs[1..][i].end != Open([]) { assert rs[1..][i] == rs[i + 1]; }
        }
      }
      var o := ReviseDictRange(rs[0], last);
      var head := if o.Some? then [o.value] else [];
      var tail := ReviseDictRanges(rs[1..], last);
      assert NoEmptyOpenEnd(head + tail) by {
        forall i | 0 <= i < |head + tail| ensures (head + tail)[i].end != Open([]) {
          if i >= |head| { assert (head + tail)[i] == tail[i - |head|]; }
        }
      }
      head + tail
  }

  /** The greatest of a non-empty set of keys (Python's `max`). */
  function MaxKey(ks: seq<Key>): (m: Key)
    requires |ks| > 0
    ensures m in ks && forall k :: k in ks ==> LessEq(k, m)
    decreases |ks|
  {
    if |ks| == 1 then ks[0]
    else
      var rest := MaxKey(ks[1..]);
      LessTrichotomy(ks[0], rest);
      if Less(rest, ks[0]) then
        forall k | k in ks[1..] ensures LessEq(k, ks[0]) {
          if k != rest { LessTransitive(k, rest, ks[0]); }
        }
        ks[0]
      else rest
  }

  // ---------------------------------------------------------------------
  // The four versions

  /** `_RowMerger._revise_request_rowset`: keys after `last` are kept;
      ranges are rewritten only when the request held no keys and a
      single range, whose start then becomes "just after `last`". */
  function ReviseMerger(rowSet: Option<RowSet>, last: Key): RowSet {
    if rowSet.None? then ScanAfter(last)
    else
      var keys := rowSet.value.rowKeys;
      var ranges := rowSet.value.rowRanges;
      RowSet(KeysAfter(keys, last),
             if |keys| == 0 && |ranges| == 1 then [ranges[0].(start := Open(last))] else ranges)
  }

  /** `_ReadRowsOperation._revise_request_rowset`. `None` stands for the
      `_RowSetComplete` it raises when nothing is left to read. */
  function ReviseOperation(rowSet: Option<RowSet>, last: Key): Option<RowSet> {
    if WholeTable(rowSet) then Some(ScanAfter(last))
    else
      var keys := KeysAfter(rowSet.value.rowKeys, last);
      var ranges := ReviseRanges(rowSet.value.rowRanges, last);
      if |keys| == 0 && |ranges| == 0 then None else Some(RowSet(keys, ranges))
  }

  /** `_ReadRowsOperation_SyncAutoGenerated._revise_request_rowset` as
      written: the operation's trimming on a row set dict, where the end
      key is read by `DictEndKey`, and the original row set comes back
      when nothing is left. */
  function ReviseAutogenAsWritten(rowSet: Option<RowSet>, last: Key): (r: RowSet)
    ensures rowSet.None? || NoEmptyOpenEnd(rowSet.value.rowRanges) ==> r == ReviseAutogen(rowSet, last)
    ensures rowSet.Some? && r != rowSet.value ==> NoEmptyOpenEnd(r.rowRanges)
  {
    if WholeTable(rowSet) then ScanAfter(last)
    else
      var keys := KeysAfter(rowSet.value.rowKeys, last);
      var ranges := ReviseDictRanges(rowSet.value.rowRanges, last);
      if |keys| == 0 && |ranges| == 0 then rowSet.value else RowSet(keys, ranges)
  }

  /** The synchronous surface's revision as intended: an empty end key
      read as no bound, as the protobuf version's `or None` does. This is
      the revision the rest of the model uses. */
  function ReviseAutogen(rowSet: Option<RowSet>, last: Key): RowSet {
    if WholeTable(rowSet) then ScanAfter(last)
    else
      var keys := KeysAfter(rowSet.value.rowKeys, last);
      var ranges := ReviseRanges(rowSet.value.rowRanges, last);
      if |keys| == 0 && |ranges| == 0 then rowSet.value else RowSet(keys, ranges)
  }

  /** `Table._revise_rowset`: keys already emitted are dropped; a lone
      range restarts after the greatest emitted key. The caller only
      revises once something has been emitted. */
  function ReviseEmitted(rowSet: Option<RowSet>, emitted: seq<Key>): RowSet
    requires |emitted| > 0
  {
    if rowSet.None? then ScanAfter(MaxKey(emitted))
    else
      var keys := rowSet.value.rowKeys;
      var ranges := rowSet.value.rowRanges;
      RowSet(KeysNotIn(keys, emitted),
             if |keys| == 0 && |ranges| == 1 then [ranges[0].(start := Open(MaxKey(emitted)))] else ranges)
  }
}
