/** Properties of the retried state-machine read and of the emitted-key
    path: rows passed on are in strictly increasing key order across all
    attempts (or, on the emitted-key path, never repeated), scan markers
    are never passed on, and the row limit holds. */
module ReadRowsRetryProofs {
  import opened Wrappers
  import opened Keys
  import opened ReadRowsTypes
  import opened ReadRowsAttempt
  import opened ReadRowsRetry
  import Helpers

  predicate NoMarkers(items: seq<Item>) {
    forall i :: 0 <= i < |items| ==> !items[i].ScanMarker?
  }

  /** Going from `d0` to `d1` passed on `out`: its rows are in strictly
      increasing key order after `d0`'s last seen key and up to `d1`'s,
      it holds no scan marker, and each row was counted once. */
  predicate PassedOn(d0: Dedup, out: seq<Item>, d1: Dedup) {
    && Within(d0.lastSeen, RowKeys(RowsOf(out)), d1.lastSeen)
    && NoMarkers(out)
    && d1.emitCount == d0.emitCount + |RowsOf(out)|
  }

  lemma PassedOnAppend(d0: Dedup, o1: seq<Item>, d1: Dedup, o2: seq<Item>, d2: Dedup)
    requires PassedOn(d0, o1, d1) && PassedOn(d1, o2, d2)
    ensures PassedOn(d0, o1 + o2, d2)
  {
    RowsOfAppend(o1, o2);
    RowKeysAppend(RowsOf(o1), RowsOf(o2));
    WithinAppend(d0.lastSeen, RowKeys(RowsOf(o1)), d1.lastSeen, RowKeys(RowsOf(o2)), d2.lastSeen);
    assert forall i :: 0 <= i < |o1 + o2| ==> (o1 + o2)[i] == if i < |o1| then o1[i] else o2[i - |o1|];
  }

  /** One item: statistics pass through untouched; a row is passed on
      exactly when its key is past the last key seen; a row or marker at
      or below it changes nothing; and the attempt stops exactly when the
      row passed on reaches the limit. */
  lemma DedupItemOrdered(d: Dedup, it: Item, rowLimit: nat)
    ensures var r := DedupItem(d, it, rowLimit);
      && PassedOn(d, r.out, r.dedup)
      && (r.stopped <==> rowLimit != 0 && |RowsOf(r.out)| == 1 && r.dedup.emitCount >= rowLimit)
      && (it.StatsItem? ==> r.out == [it] && r.dedup == d)
      && (it.RowItem? ==> (r.out == [it] <==> d.lastSeen.None? || Less(d.lastSeen.value, it.row.key)))
      && (!it.StatsItem? && !(d.lastSeen.None? || Less(d.lastSeen.value, ItemKey(it))) ==> r.out == [] && r.dedup == d)
  {
    var r := DedupItem(d, it, rowLimit);
    if !it.StatsItem? && (d.lastSeen.None? || Less(d.lastSeen.value, ItemKey(it))) {
      assert RowsOf(r.out) == (if it.RowItem? then [it.row] else []);
    }
    if d.lastSeen.Some? && r.dedup.lastSeen != d.lastSeen {
      assert Less(d.lastSeen.value, r.dedup.lastSeen.value);
    }
  }

  /** Within one attempt, rows passed on are in strictly increasing key
      order after the last key seen before it, no scan marker is passed
      on, the emit count grows by the rows passed on, and the attempt
      stops exactly when a limit is reached. */
  lemma {:induction false} DedupItemsOrdered(d: Dedup, items: seq<Item>, rowLimit: nat)
    ensures var r := DedupItems(d, items, rowLimit);
      && PassedOn(d, r.out, r.dedup)
      && (rowLimit == 0 ==> !r.stopped)
      && (rowLimit != 0 && d.emitCount < rowLimit ==>
            r.dedup.emitCount <= rowLimit && (r.stopped <==> r.dedup.emitCount == rowLimit))
    decreases |items|
  {
    if |items| > 0 {
      var first := DedupItem(d, items[0], rowLimit);
      DedupItemOrdered(d, items[0], rowLimit);
      if !first.stopped {
        DedupItemsOrdered(first.dedup, items[1..], rowLimit);
        var rest := DedupItems(first.dedup, items[1..], rowLimit);
        PassedOnAppend(d, first.out, first.dedup, rest.out, rest.dedup);
      }
    }
  }

  /** The items without their scan markers. */
  function WithoutMarkers(items: seq<Item>): (r: seq<Item>)
    ensures NoMarkers(r)
    decreases |items|
  {
    if |items| == 0 then []
    else (if items[0].ScanMarker? then [] else [items[0]]) + WithoutMarkers(items[1..])
  }

  lemma ItemKeysTail(items: seq<Item>)
    requires |items| > 0
    ensures ItemKeys(items) == (if items[0].StatsItem? then [] else [ItemKey(items[0])]) + ItemKeys(items[1..])
  {
  }

  /** Keys in strictly increasing order, all after `lo`. */
  predicate FreshAfter(lo: Option<Key>, ks: seq<Key>) {
    && StrictlyIncreasing(ks)
    && (lo.Some? ==> forall i :: 0 <= i < |ks| ==> Less(lo.value, ks[i]))
  }

  /** The first keyed item of a fresh stream lies after `lo`, and the
      rest is fresh after it; a statistic leaves `lo` as it was. */
  lemma FreshAfterTail(lo: Option<Key>, items: seq<Item>)
    requires |items| > 0 && FreshAfter(lo, ItemKeys(items))
    ensures !items[0].StatsItem? && lo.Some? ==> Less(lo.value, ItemKey(items[0]))
    ensures FreshAfter(if items[0].StatsItem? then lo else Some(ItemKey(items[0])), ItemKeys(items[1..]))
  {
    ItemKeysTail(items);
    FreshAfterSplit(lo, if items[0].StatsItem? then [] else [ItemKey(items[0])], ItemKeys(items[1..]));
  }

  lemma FreshAfterSplit(lo: Option<Key>, head: seq<Key>, tail: seq<Key>)
    requires |head| <= 1 && FreshAfter(lo, head + tail)
    ensures |head| == 1 && lo.Some? ==> Less(lo.value, head[0])
    ensures FreshAfter(if |head| == 0 then lo else Some(head[0]), tail)
  {
    var ks := head + tail;
    var o := |head|;
    forall i, j | 0 <= i < j < |tail| ensures Less(tail[i], tail[j]) {
      assert tail[i] == ks[i + o] && tail[j] == ks[j + o];
    }
    if |head| == 1 {
      assert ks[0] == head[0];
      forall i | 0 <= i < |tail| ensures Less(head[0], tail[i]) {
        assert tail[i] == ks[i + 1];
      }
    } else {
      assert ks == tail;
    }
  }

  /** On the stream a merger produces (keys strictly increasing) after
      the last key seen, and without a limit, deduplication passes on
      every row and statistic and drops only the scan markers. */
  lemma {:induction false} DedupPassesFreshStream(d: Dedup, items: seq<Item>)
    requires FreshAfter(d.lastSeen, ItemKeys(items))
    ensures DedupItems(d, items, 0).out == WithoutMarkers(items)
    decreases |items|
  {
    if |items| > 0 {
      FreshAfterTail(d.lastSeen, items);
      var first := DedupItem(d, items[0], 0);
      assert first.dedup.lastSeen == if items[0].StatsItem? then d.lastSeen else Some(ItemKey(items[0]));
      assert first.out == if items[0].ScanMarker? then [] else [items[0]];
      assert !first.stopped;
      DedupPassesFreshStream(first.dedup, items[1..]);
    }
  }

  // ---------------------------------------------------------------------
  // Across attempts

  /** Across all attempts of a retried read, rows passed on are in
      strictly increasing key order after the starting resume point, no
      scan marker is passed on, the emit count grows by the rows passed
      on, and under a limit it never passes the limit. */
  lemma {:induction false} RetryMergerOrdered(s: Surface, st: RetryState, rowLimit: nat, attempts: seq<ServerAttempt>)
    requires rowLimit != 0 ==> st.dedup.emitCount < rowLimit
    ensures var r := RetryMerger(s, st, rowLimit, attempts);
      && PassedOn(st.dedup, r.out, r.dedup)
      && (rowLimit != 0 ==> r.dedup.emitCount <= rowLimit)
    decreases |attempts|
  {
    var prepared := Prepare(s, st.request, st.dedup, rowLimit);
    if prepared.Some? && |attempts| > 0 {
      var merged := MergerStream(attempts[0]);
      var d := DedupItems(st.dedup, merged.items, rowLimit);
      DedupItemsOrdered(st.dedup, merged.items, rowLimit);
      if !d.stopped && merged.failure.Some? && RetryableForMerger(merged.failure.value) {
        var next := RetryState(prepared.value, d.dedup, st.errors + [merged.failure.value]);
        RetryMergerOrdered(s, next, rowLimit, attempts[1..]);
        var rest := RetryMerger(s, next, rowLimit, attempts[1..]);
        PassedOnAppend(st.dedup, d.out, d.dedup, rest.out, rest.dedup);
      }
    }
  }

  /** A read from the start passes on rows in strictly increasing key
      order, never a scan marker, and under a limit `n > 0` at most `n`
      rows. */
  lemma ReadWithRetriesOrdered(s: Surface, req: ReadRequest, attempts: seq<ServerAttempt>)
    requires req.rowsLimit >= 0
    ensures var r := ReadWithRetries(s, req, attempts);
      && StrictlyIncreasing(RowKeys(RowsOf(r.out)))
      && NoMarkers(r.out)
      && (req.rowsLimit > 0 ==> |RowsOf(r.out)| <= req.rowsLimit)
  {
    RetryMergerOrdered(s, RetryState(req, Dedup(None, 0), []), req.rowsLimit, attempts);
  }

  /** The generated synchronous read ends in its first attempt: it sends
      the request the intended read sends first, passes nothing on, and
      raises the stub's `NotImplementedError`, which the retry predicate
      does not retry. */
  lemma SyncReadAsWrittenRaises(req: ReadRequest, attempts: seq<ServerAttempt>)
    requires req.rowsLimit >= 0
    requires |attempts| > 0
    ensures var a := SyncAttemptAsWritten(req, Dedup(None, 0), req.rowsLimit);
      var intended := ReadWithRetries(SyncIterator, req, attempts);
      && a.sent == Some(req)
      && a.raised == Some(Helpers.StubMessage)
      && |intended.sent| > 0 && intended.sent[0] == a.sent.value
  {
  }

  // ---------------------------------------------------------------------
  // The emitted-key path

  predicate Distinct(ks: seq<Key>) {
    forall i, j :: 0 <= i < j < |ks| ==> ks[i] != ks[j]
  }

  /** Rows passed on are never repeated and were not emitted before; the
      emitted set only grows, and by exactly the keys processed. */
  lemma SkipEmittedFresh(emitted: seq<Key>, items: seq<Item>)
    requires forall i :: 0 <= i < |items| ==> !items[i].StatsItem?
    ensures var r := SkipEmitted(emitted, items);
      var ks := RowKeys(RowsOf(r.1));
      && Distinct(ks)
      && (forall i :: 0 <= i < |ks| ==> ks[i] !in emitted && ks[i] in r.0)
      && NoMarkers(r.1)
      && (forall k :: k in r.0 <==> k in emitted || k in ItemKeys(items))
  {
    SkipEmittedRecords(emitted, items);
    SkipEmittedDistinct(emitted, items);
  }

  /** The emitted set after the items: the keys before and those processed. */
  lemma {:induction false} SkipEmittedRecords(emitted: seq<Key>, items: seq<Item>)
    requires forall i :: 0 <= i < |items| ==> !items[i].StatsItem?
    ensures forall k :: k in SkipEmitted(emitted, items).0 <==> k in emitted || k in ItemKeys(items)
    decreases |items|
  {
    if |items| > 0 {
      var k := ItemKey(items[0]);
      ItemKeysTail(items);
      if k in emitted {
        SkipEmittedRecords(emitted, items[1..]);
      } else {
        SkipEmittedRecords(emitted + [k], items[1..]);
      }
    }
  }

  /** The emitted set never loses a key. */
  lemma {:induction false} SkipEmittedGrows(emitted: seq<Key>, items: seq<Item>)
    requires forall i :: 0 <= i < |items| ==> !items[i].StatsItem?
    ensures forall k :: k in emitted ==> k in SkipEmitted(emitted, items).0
    decreases |items|
  {
    if |items| > 0 {
      var k := ItemKey(items[0]);
      if k in emitted {
        SkipEmittedGrows(emitted, items[1..]);
      } else {
        SkipEmittedGrows(emitted + [k], items[1..]);
      }
    }
  }

  /** Keys that are distinct, none in `emitted` and all in `last`. */
  predicate FreshKeys(ks: seq<Key>, emitted: seq<Key>, last: seq<Key>) {
    && Distinct(ks)
    && (forall i :: 0 <= i < |ks| ==> ks[i] !in emitted && ks[i] in last)
  }

  lemma NoMarkersAppend(a: seq<Item>, b: seq<Item>)
    requires NoMarkers(a) && NoMarkers(b)
    ensures NoMarkers(a + b)
  {
    forall i | 0 <= i < |a + b| ensures !(a + b)[i].ScanMarker? {
      if i >= |a| {
        assert (a + b)[i] == b[i - |a|];
      }
    }
  }

  /** The rows passed on: distinct, not emitted before, recorded after. */
  lemma {:induction false} SkipEmittedDistinct(emitted: seq<Key>, items: seq<Item>)
    requires forall i :: 0 <= i < |items| ==> !items[i].StatsItem?
    ensures var r := SkipEmitted(emitted, items);
      FreshKeys(RowKeys(RowsOf(r.1)), emitted, r.0) && NoMarkers(r.1)
    decreases |items|
  {
    if |items| > 0 {
      var k := ItemKey(items[0]);
      if k in emitted {
        SkipEmittedDistinct(emitted, items[1..]);
      } else {
        SkipEmittedDistinct(emitted + [k], items[1..]);
        SkipEmittedGrows(emitted + [k], items[1..]);
        var rest := SkipEmitted(emitted + [k], items[1..]);
        var head: seq<Item> := if items[0].ScanMarker? then [] else [items[0]];
        RowsOfAppend(head, rest.1);
        RowKeysAppend(RowsOf(head), RowsOf(rest.1));
        var hk: seq<Key> := if items[0].ScanMarker? then [] else [k];
        assert RowKeys(RowsOf(head)) == hk;
        PrependFresh(hk, RowKeys(RowsOf(rest.1)), emitted, k, rest.0);
        NoMarkersAppend(head, rest.1);
      }
    }
  }

  /** Putting a new key `k` (or nothing) in front of keys fresh after
      `emitted + [k]`. */
  lemma PrependFresh(hk: seq<Key>, kr: seq<Key>, emitted: seq<Key>, k: Key, last: seq<Key>)
    requires hk == [] || hk == [k]
    requires k !in emitted && k in last
    requires FreshKeys(kr, emitted + [k], last)
    ensures FreshKeys(hk + kr, emitted, last)
  {
    var ks := hk + kr;
    forall i | 0 <= i < |ks| ensures ks[i] !in emitted && ks[i] in last && (i >= |hk| ==> ks[i] == kr[i - |hk|]) {
      if i >= |hk| {
        assert ks[i] == kr[i - |hk|];
        assert kr[i - |hk|] !in emitted + [k];
      }
    }
    forall i, j | 0 <= i < j < |ks| ensures ks[i] != ks[j] {
      if i < |hk| {
        assert ks[j] == kr[j - |hk|] && kr[j - |hk|] !in emitted + [k];
      } else {
        assert ks[i] == kr[i - |hk|];
      }
    }
  }

  /** Keys passed on in two stretches: those of the first are recorded
      in `mid`, those of the second were not yet in `mid`. */
  lemma FreshAppend(k1: seq<Key>, k2: seq<Key>, emitted: seq<Key>, mid: seq<Key>, last: seq<Key>)
    requires Distinct(k1) && Distinct(k2)
    requires forall i :: 0 <= i < |k1| ==> k1[i] !in emitted && k1[i] in mid
    requires forall i :: 0 <= i < |k2| ==> k2[i] !in mid && k2[i] in last
    requires forall k :: k in emitted ==> k in mid
    requires forall k :: k in mid ==> k in last
    ensures var ks := k1 + k2;
      && Distinct(ks)
      && (forall i :: 0 <= i < |ks| ==> ks[i] !in emitted && ks[i] in last)
  {
    var ks := k1 + k2;
    forall i, j | 0 <= i < j < |ks| ensures ks[i] != ks[j] {
      if i < |k1| && j >= |k1| {
        assert ks[i] == k1[i] && ks[j] == k2[j - |k1|];
      }
    }
    forall i | 0 <= i < |ks| ensures ks[i] !in emitted && ks[i] in last {
      if i < |k1| {
        assert ks[i] == k1[i];
      } else {
        assert ks[i] == k2[i - |k1|];
      }
    }
  }

  /** Across all attempts of `Table.read_rows`, no row key is passed on
      twice or was emitted before, no scan marker is passed on, and the
      emitted set ends up holding exactly the earlier keys and the keys
      of every item processed. */
  lemma {:induction false} RetryTableFresh(req: ReadRequest, emitted: seq<Key>, reviseOnRetry: bool,
                                           attempts: seq<MergedAttempt>, errors: seq<ReadError>)
    requires RowsAndMarkers(attempts)
    ensures var r := RetryTable(req, emitted, reviseOnRetry, attempts, errors);
      var ks := RowKeys(RowsOf(r.out));
      && Distinct(ks)
      && (forall i :: 0 <= i < |ks| ==> ks[i] !in emitted && ks[i] in r.emitted)
      && NoMarkers(r.out)
      && (forall k :: k in emitted ==> k in r.emitted)
    decreases |attempts|
  {
    if |attempts| > 0 {
      var sent := TableRequest(req, emitted, reviseOnRetry);
      var first := SkipEmitted(emitted, attempts[0].items);
      SkipEmittedFresh(emitted, attempts[0].items);
      var failure := attempts[0].failure;
      if failure.Some? && RetryableForTable(failure.value) {
        assert RowsAndMarkers(attempts[1..]) by {
          forall j, i | 0 <= j < |attempts[1..]| && 0 <= i < |attempts[1..][j].items|
            ensures !attempts[1..][j].items[i].StatsItem?
          {
            assert attempts[1..][j] == attempts[j + 1];
          }
        }
        RetryTableFresh(sent, first.0, reviseOnRetry, attempts[1..], errors + [failure.value]);
        var rest := RetryTable(sent, first.0, reviseOnRetry, attempts[1..], errors + [failure.value]);
        RowsOfAppend(first.1, rest.out);
        RowKeysAppend(RowsOf(first.1), RowsOf(rest.out));
        FreshAppend(RowKeys(RowsOf(first.1)), RowKeys(RowsOf(rest.out)), emitted, first.0, rest.emitted);
      }
    }
  }
}
