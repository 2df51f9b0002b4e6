/** Row keys, qualifiers and values are Python `bytes`. They are modelled as
    sequences of integers in 0..255, ordered the way Python orders `bytes`:
    lexicographically, byte by byte, with a proper prefix sorting first. */
module Keys {
  import opened Wrappers

  type Byte = b: int | 0 <= b < 256

  type Bytes = seq<Byte>

  type Key = Bytes

  /** Python `a < b` on bytes. */
  predicate Less(a: Bytes, b: Bytes)
    decreases |a|
  {
    if |a| == 0 then |b| > 0
    else if |b| == 0 then false
    else a[0] < b[0] || (a[0] == b[0] && Less(a[1..], b[1..]))
  }

  /** Python `a <= b` on bytes. */
  predicate LessEq(a: Bytes, b: Bytes) {
    a == b || Less(a, b)
  }

  /** Python truthiness of a bytes value: non-empty. */
  predicate Truthy(a: Bytes) {
    |a| > 0
  }

  lemma {:induction false} LessIrreflexive(a: Bytes)
    ensures !Less(a, a)
    decreases |a|
  {
    if |a| > 0 {
      LessIrreflexive(a[1..]);
    }
  }

  lemma {:induction false} LessTransitive(a: Bytes, b: Bytes, c: Bytes)
    requires Less(a, b) && Less(b, c)
    ensures Less(a, c)
    decreases |a|
  {
    if |a| > 0 {
      assert |b| > 0 && |c| > 0;
      if a[0] == b[0] && b[0] == c[0] {
        LessTransitive(a[1..], b[1..], c[1..]);
      }
    }
  }

  /** Exactly one of `a < b`, `a == b`, `b < a` holds. */
  lemma {:induction false} LessTrichotomy(a: Bytes, b: Bytes)
    ensures Less(a, b) || a == b || Less(b, a)
    ensures !(Less(a, b) && Less(b, a))
    decreases |a|
  {
    if |a| > 0 && |b| > 0 {
      LessTrichotomy(a[1..], b[1..]);
      if a[0] == b[0] && a[1..] == b[1..] {
        assert a == [a[0]] + a[1..] && b == [b[0]] + b[1..];
      }
    }
  }

  lemma LessAsymmetric(a: Bytes, b: Bytes)
    requires Less(a, b)
    ensures !Less(b, a) && a != b
  {
    LessTrichotomy(a, b);
    LessIrreflexive(a);
  }

  /** `!(a <= b)` is `b < a`: the comparisons the source negates agree. */
  lemma NotLessEqIsGreater(a: Bytes, b: Bytes)
    ensures !LessEq(a, b) <==> Less(b, a)
  {
    LessTrichotomy(a, b);
  }

  lemma LessEqTransitive(a: Bytes, b: Bytes, c: Bytes)
    requires LessEq(a, b) && LessEq(b, c)
    ensures LessEq(a, c)
  {
    if a != b && b != c {
      LessTransitive(a, b, c);
    }
  }

  lemma LessLessEqTransitive(a: Bytes, b: Bytes, c: Bytes)
    requires Less(a, b) && LessEq(b, c)
    ensures Less(a, c)
  {
    if b != c {
      LessTransitive(a, b, c);
    }
  }

  lemma LessEqLessTransitive(a: Bytes, b: Bytes, c: Bytes)
    requires LessEq(a, b) && Less(b, c)
    ensures Less(a, c)
  {
    if a != b {
      LessTransitive(a, b, c);
    }
  }

  /** A proper prefix sorts before the longer key. */
  lemma {:induction false} PrefixIsLess(a: Bytes, b: Bytes)
    requires |a| < |b| && a == b[..|a|]
    ensures Less(a, b)
    decreases |a|
  {
    if |a| > 0 {
      assert a[1..] == b[1..][..|a| - 1];
      PrefixIsLess(a[1..], b[1..]);
    }
  }

  /** Every non-empty key sorts after the empty key. */
  lemma EmptyIsLeast(a: Bytes)
    requires Truthy(a)
    ensures Less([], a) && !LessEq(a, [])
  {
  }

  /** Strictly increasing keys, the order in which the server streams rows. */
  predicate StrictlyIncreasing(ks: seq<Key>) {
    forall i, j :: 0 <= i < j < |ks| ==> Less(ks[i], ks[j])
  }

  lemma {:induction false} StrictlyIncreasingFromAdjacent(ks: seq<Key>)
    requires forall i :: 0 < i < |ks| ==> Less(ks[i - 1], ks[i])
    ensures StrictlyIncreasing(ks)
    decreases |ks|
  {
    if |ks| > 1 {
      var init := ks[..|ks| - 1];
      assert forall i :: 0 < i < |init| ==> Less(init[i - 1], init[i]) by {
        forall i | 0 < i < |init| ensures Less(init[i - 1], init[i]) {
          assert init[i - 1] == ks[i - 1] && init[i] == ks[i];
        }
      }
      StrictlyIncreasingFromAdjacent(init);
      forall i, j | 0 <= i < j < |ks| ensures Less(ks[i], ks[j]) {
        if j < |ks| - 1 {
          assert ks[i] == init[i] && ks[j] == init[j];
        } else if i < j - 1 {
          assert ks[i] == init[i] && ks[j - 1] == init[j - 1];
          LessTransitive(ks[i], ks[j - 1], ks[j]);
        }
      }
    }
  }

  /** `ks` is strictly increasing, every key sorts after `lo`, and `hi` is
      the last key (or `lo` when there is none): the shape of the keys a
      merger yields between two values of its "last seen key". */
  predicate Chain(lo: Option<Key>, ks: seq<Key>, hi: Option<Key>) {
    && StrictlyIncreasing(ks)
    && (lo.Some? ==> forall i :: 0 <= i < |ks| ==> Less(lo.value, ks[i]))
    && hi == (if |ks| == 0 then lo else Some(ks[|ks| - 1]))
  }

  lemma ChainAppend(a: Option<Key>, ks1: seq<Key>, b: Option<Key>, ks2: seq<Key>, c: Option<Key>)
    requires Chain(a, ks1, b) && Chain(b, ks2, c)
    ensures Chain(a, ks1 + ks2, c)
  {
    var ks := ks1 + ks2;
    if |ks1| > 0 {
      var last := ks1[|ks1| - 1];
      forall i, j | 0 <= i < j < |ks| ensures Less(ks[i], ks[j]) {
        if i < |ks1| <= j {
          assert ks[j] == ks2[j - |ks1|];
          if i < |ks1| - 1 {
            LessTransitive(ks[i], last, ks[j]);
          }
        } else if |ks1| <= i {
          assert ks[i] == ks2[i - |ks1|] && ks[j] == ks2[j - |ks1|];
        }
      }
      if a.Some? {
        forall i | 0 <= i < |ks| ensures Less(a.value, ks[i]) {
          if |ks1| <= i {
            assert ks[i] == ks2[i - |ks1|];
            LessTransitive(a.value, last, ks[i]);
          }
        }
      }
    } else {
      assert ks == ks2;
    }
  }

  /** Keys passed on between resume points `lo` and `hi`: strictly
      increasing, after `lo`, not after `hi`, and `hi` not below `lo`.
      Unlike `Chain`, `hi` may lie beyond the last key (a scan marker
      or heartbeat can move it). */
  predicate Within(lo: Option<Key>, ks: seq<Key>, hi: Option<Key>) {
    && StrictlyIncreasing(ks)
    && (forall i :: 0 <= i < |ks| ==> lo.Some? ==> Less(lo.value, ks[i]))
    && (|ks| > 0 ==> hi.Some?)
    && (forall i :: 0 <= i < |ks| && hi.Some? ==> LessEq(ks[i], hi.value))
    && (lo.Some? ==> hi.Some? && LessEq(lo.value, hi.value))
  }

  lemma WithinAppend(lo: Option<Key>, ks1: seq<Key>, mid: Option<Key>, ks2: seq<Key>, hi: Option<Key>)
    requires Within(lo, ks1, mid) && Within(mid, ks2, hi)
    ensures Within(lo, ks1 + ks2, hi)
  {
    var ks := ks1 + ks2;
    forall i, j | 0 <= i < j < |ks| ensures Less(ks[i], ks[j]) {
      if j >= |ks1| && i < |ks1| {
        LessEqLessTransitive(ks1[i], mid.value, ks2[j - |ks1|]);
      }
    }
    forall i | 0 <= i < |ks| && lo.Some? ensures Less(lo.value, ks[i]) {
      if i >= |ks1| {
        LessEqLessTransitive(lo.value, mid.value, ks2[i - |ks1|]);
      }
    }
    forall i | 0 <= i < |ks| && hi.Some? ensures LessEq(ks[i], hi.value) {
      if i < |ks1| {
        assert ks[i] == ks1[i] && mid.Some?;
        LessEqTransitive(ks1[i], mid.value, hi.value);
      } else {
        assert ks[i] == ks2[i - |ks1|];
      }
    }
    if lo.Some? {
      LessEqTransitive(lo.value, mid.value, hi.value);
    }
  }
}
