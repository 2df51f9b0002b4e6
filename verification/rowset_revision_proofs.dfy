/** What each revision of a row set selects, compared with the original:
    the trimming versions select exactly the original keys after the last
    one seen; the lone-range versions lose none of them. Only non-empty
    keys are considered, as a row key is never empty. */
module RowSetRevisionProofs {
  import opened Wrappers
  import opened Keys
  import opened ReadRowsTypes
  import opened RowSetRevision

  lemma OpenAfterLast(last: Key, k: Key)
    requires Truthy(k)
    ensures AfterStart(k, Open(last)) <==> Less(last, k)
  {
    if !Truthy(last) {
      EmptyIsLeast(k);
    }
  }

  /** Resuming a whole-table scan selects exactly the rows after `last`. */
  lemma ScanAfterSelects(last: Key, k: Key)
    requires Truthy(k)
    ensures Selects(Some(ScanAfter(last)), k) <==> Less(last, k)
  {
    var rs := ScanAfter(last).rowRanges;
    assert !InAnyRange(k, rs[1..]);
    OpenAfterLast(last, k);
  }

  lemma InAnyRangeAppend(k: Key, a: seq<RowRange>, b: seq<RowRange>)
    ensures InAnyRange(k, a + b) <==> InAnyRange(k, a) || InAnyRange(k, b)
    decreases |a|
  {
    if |a| == 0 {
      assert a + b == b;
    } else {
      assert (a + b)[0] == a[0] && (a + b)[1..] == a[1..] + b;
      InAnyRangeAppend(k, a[1..], b);
    }
  }

  /** A revised range keeps every key after `last` it held and holds no
      key at or before `last`. */
  lemma ReviseRangeExact(r: RowRange, last: Key, k: Key)
    requires Truthy(k)
    ensures var o := ReviseRange(r, last);
      && (Less(last, k) ==> (InRange(k, r) <==> o.Some? && InRange(k, o.value)))
      && (LessEq(k, last) && o.Some? ==> !InRange(k, o.value))
  {
    var o := ReviseRange(r, last);
    var start := BoundKey(r.start);
    var end := BoundKey(r.end);
    OpenAfterLast(last, k);
    if Less(last, k) {
      if end.Some? && LessEq(end.value, last) {
        LessEqLessTransitive(end.value, last, k);
        LessAsymmetric(end.value, k);
      }
      if start.Some? && LessEq(start.value, last) {
        LessEqLessTransitive(start.value, last, k);
      }
    }
    if LessEq(k, last) && o.Some? {
      if o.value.start != Open(last) {
        assert start.Some? && !LessEq(start.value, last);
        NotLessEqIsGreater(start.value, last);
        LessEqLessTransitive(k, last, start.value);
        LessAsymmetric(k, start.value);
      } else if Truthy(last) {
        if Less(last, k) { LessAsymmetric(last, k); }
      }
    }
  }

  lemma {:induction false} ReviseRangesExact(rs: seq<RowRange>, last: Key, k: Key)
    requires Truthy(k)
    ensures Less(last, k) ==> (InAnyRange(k, ReviseRanges(rs, last)) <==> InAnyRange(k, rs))
    ensures LessEq(k, last) ==> !InAnyRange(k, ReviseRanges(rs, last))
    decreases |rs|
  {
    if |rs| > 0 {
      var o := ReviseRange(rs[0], last);
      var head := if o.Some? then [o.value] else [];
      ReviseRangeExact(rs[0], last, k);
      ReviseRangesExact(rs[1..], last, k);
      InAnyRangeAppend(k, head, ReviseRanges(rs[1..], last));
      if o.Some? {
        assert !InAnyRange(k, head[1..]);
      }
    }
  }

  lemma KeyAtOrBefore(k: Key, last: Key, keys: seq<Key>)
    requires LessEq(k, last)
    ensures k !in KeysAfter(keys, last)
  {
    if Less(last, k) {
      LessAsymmetric(last, k);
    }
  }

  /** The revision made between attempts of a read operation selects
      exactly the original rows after `last`; when it reports the row set
      complete, the original selected nothing after `last`. */
  lemma ReviseOperationExact(rowSet: Option<RowSet>, last: Key, k: Key)
    requires Truthy(k)
    ensures var r := ReviseOperation(rowSet, last);
      && (r.Some? && Less(last, k) ==> (Selects(rowSet, k) <==> Selects(r, k)))
      && (r.Some? && LessEq(k, last) ==> !Selects(r, k))
      && (r.None? && Less(last, k) ==> !Selects(rowSet, k))
  {
    ScanAfterSelects(last, k);
    if rowSet.Some? {
      ReviseRangesExact(rowSet.value.rowRanges, last, k);
      if LessEq(k, last) {
        KeyAtOrBefore(k, last, rowSet.value.rowKeys);
      }
    }
    if !Truthy(last) && LessEq(k, last) {
      EmptyIsLeast(k);
    }
  }

  /** The synchronous surface's revision, as intended, agrees with the
      operation's whenever something is left, keeps every row after
      `last`, and otherwise hands back the original row set. */
  lemma ReviseAutogenExact(rowSet: Option<RowSet>, last: Key, k: Key)
    requires Truthy(k)
    ensures var op := ReviseOperation(rowSet, last);
      var r := ReviseAutogen(rowSet, last);
      && (op.Some? ==> r == op.value)
      && (op.None? ==> rowSet.Some? && r == rowSet.value)
      && (Less(last, k) ==> (Selects(rowSet, k) <==> Selects(Some(r), k)))
      && (op.Some? && LessEq(k, last) ==> !Selects(Some(r), k))
  {
    ReviseOperationExact(rowSet, last, k);
  }

  /** As written, a range open to the end of the table is dropped when
      another key survives: with the key `c` and the range from `a` to an
      empty open end, a retry after `b` asks only for `c`, and the row `d`
      the original selected is never read. As intended it is kept. */
  lemma ReviseAutogenLosesRows()
    ensures var rowSet := Some(RowSet([[99]], [RowRange(Closed([97]), Open([]))]));
      var last: Key := [98];
      var k: Key := [100];
      && Selects(rowSet, k) && Less(last, k)
      && ReviseAutogenAsWritten(rowSet, last) == RowSet([[99]], [])
      && !Selects(Some(ReviseAutogenAsWritten(rowSet, last)), k)
      && Selects(Some(ReviseAutogen(rowSet, last)), k)
  {
    var rowSet := Some(RowSet([[99]], [RowRange(Closed([97]), Open([]))]));
    var last: Key := [98];
    var k: Key := [100];
    assert InRange(k, rowSet.value.rowRanges[0]);
    assert KeysAfter([[99]], last) == [[99]];
    var r := ReviseAutogen(rowSet, last);
    assert ReviseRange(rowSet.value.rowRanges[0], last) == Some(RowRange(Open(last), Open([])));
    assert r.rowRanges[0] == RowRange(Open(last), Open([]));
    assert InRange(k, r.rowRanges[0]);
  }

  /** The state machine's revision never loses a row after `last`. */
  lemma ReviseMergerKeepsLater(rowSet: Option<RowSet>, last: Key, k: Key)
    requires Truthy(k) && Less(last, k) && Selects(rowSet, k)
    ensures Selects(Some(ReviseMerger(rowSet, last)), k)
  {
    ScanAfterSelects(last, k);
    OpenAfterLast(last, k);
    if rowSet.Some? {
      var ranges := rowSet.value.rowRanges;
      if |rowSet.value.rowKeys| == 0 && |ranges| == 1 && !WholeTable(rowSet) {
        assert InRange(k, ranges[0]) by {
          assert !InAnyRange(k, ranges[1..]);
        }
      }
    }
  }

  /** When the request has no row set, or holds one range that started
      at or before `last`, the state machine's revision selects exactly
      its rows after `last`. */
  lemma ReviseMergerExactOnLoneRange(rowSet: Option<RowSet>, last: Key, k: Key)
    requires Truthy(k)
    requires rowSet.Some? ==>
      && |rowSet.value.rowKeys| == 0 && |rowSet.value.rowRanges| == 1
      && var s := BoundKey(rowSet.value.rowRanges[0].start); s.None? || LessEq(s.value, last)
    ensures var r := Some(ReviseMerger(rowSet, last));
      && (Less(last, k) ==> (Selects(rowSet, k) <==> Selects(r, k)))
      && (LessEq(k, last) ==> !Selects(r, k))
  {
    if rowSet.None? {
      OpenAfterLast(last, k);
      assert !InAnyRange(k, ScanAfter(last).rowRanges[1..]);
      if LessEq(k, last) && Less(last, k) {
        LessAsymmetric(last, k);
      }
      return;
    }
    var range := rowSet.value.rowRanges[0];
    var s := BoundKey(range.start);
    OpenAfterLast(last, k);
    assert !InAnyRange(k, rowSet.value.rowRanges[1..]);
    assert !InAnyRange(k, ReviseMerger(rowSet, last).rowRanges[1..]);
    if Less(last, k) && s.Some? {
      LessEqLessTransitive(s.value, last, k);
    }
    if LessEq(k, last) && Less(last, k) {
      LessAsymmetric(last, k);
    }
  }

  /** The revision by emitted keys never loses a row after the greatest
      emitted key, and it rewrites ranges exactly as the state machine's
      revision does with that key as the last one seen. */
  lemma ReviseEmittedKeepsLater(rowSet: Option<RowSet>, emitted: seq<Key>, k: Key)
    requires |emitted| > 0 && Truthy(k)
    ensures ReviseEmitted(rowSet, emitted).rowRanges == ReviseMerger(rowSet, MaxKey(emitted)).rowRanges
    ensures Less(MaxKey(emitted), k) && Selects(rowSet, k) ==> Selects(Some(ReviseEmitted(rowSet, emitted)), k)
  {
    var m := MaxKey(emitted);
    if Less(m, k) && Selects(rowSet, k) {
      ReviseMergerKeepsLater(rowSet, m, k);
      if k in emitted {
        LessAsymmetric(m, k);
      }
    }
  }
}
