/** The row and cell value classes returned to callers
    (google/cloud/bigtable/row_response.py): a cell's value read as a
    big-endian two's-complement integer, the cell order of `__lt__` (older
    timestamps first) beside the documented native order (newest first),
    cell equality, and the argument guard of `RowResponse.get_cells`. */
module RowResponse {
  import opened Wrappers
  import opened Keys
  import Utf8

  function Pow256(k: nat): (p: nat)
    ensures p >= 1
  {
    if k == 0 then 1 else 256 * Pow256(k - 1)
  }

  /** The bytes read as an unsigned big-endian number. */
  function Unsigned(bs: Bytes): (u: nat)
    ensures u < Pow256(|bs|)
  {
    if |bs| == 0 then 0 else Unsigned(bs[..|bs| - 1]) * 256 + bs[|bs| - 1]
  }

  /** The first byte carries the sign: it is at least 0x80 exactly when
      the unsigned value reaches the upper half of its range. */
  lemma {:induction false} SignByte(bs: Bytes)
    requires |bs| > 0
    ensures bs[0] >= 128 <==> 2 * Unsigned(bs) >= Pow256(|bs|)
    decreases |bs|
  {
    var init := bs[..|bs| - 1];
    var u0 := Unsigned(init);
    var last := bs[|bs| - 1];
    var p := Pow256(|bs| - 1);
    assert Unsigned(bs) == u0 * 256 + last;
    assert Pow256(|bs|) == 256 * p;
    if |bs| == 1 {
      assert u0 == 0 && p == 1;
    } else {
      assert init[0] == bs[0];
      SignByte(init);
      var q := Pow256(|bs| - 2);
      assert p == 256 * q;
      if 2 * u0 < p {
        assert u0 <= 128 * q - 1;
      }
    }
  }

  /** `CellResponse.__int__`: `int.from_bytes(value, "big", signed=True)`.
      Empty bytes read as 0. */
  function Signed(bs: Bytes): (n: int)
    ensures Fits(n, |bs|)
    ensures n < 0 <==> |bs| > 0 && bs[0] >= 128
  {
    if |bs| > 0 && bs[0] >= 128 then
      assert 2 * Unsigned(bs) >= Pow256(|bs|) by {
        SignByte(bs);
      }
      Unsigned(bs) - Pow256(|bs|)
    else
      assert 2 * Unsigned(bs) < Pow256(|bs|) by {
        if |bs| > 0 {
          SignByte(bs);
        }
      }
      Unsigned(bs)
  }

  /** The `len` low-order bytes of `u`, most significant first. */
  function UnsignedBytes(u: nat, len: nat): (bs: Bytes)
    ensures |bs| == len
    ensures u < Pow256(len) ==> Unsigned(bs) == u
  {
    if len == 0 then []
    else
      var bs := UnsignedBytes(u / 256, len - 1) + [u % 256];
      assert bs[..len - 1] == UnsignedBytes(u / 256, len - 1);
      bs
  }

  /** Whether `n` has a signed `len`-byte encoding: Python's
      `to_bytes(len, "big", signed=True)` raises `OverflowError` otherwise
      (zero bytes hold only 0). */
  predicate Fits(n: int, len: nat) {
    -(Pow256(len) as int) <= 2 * n < Pow256(len)
  }

  /** `n.to_bytes(len, "big", signed=True)`. */
  function ToBytes(n: int, len: nat): (r: Result<Bytes, string>)
    ensures r.Ok? <==> Fits(n, len)
    ensures r.Ok? ==> |r.value| == len
  {
    if !Fits(n, len) then Err("int too big to convert")
    else if n < 0 then Ok(UnsignedBytes(n + Pow256(len), len))
    else Ok(UnsignedBytes(n, len))
  }

  /** Decoding an encoded integer gives the integer back. */
  lemma IntRoundTrip(n: int, len: nat)
    requires Fits(n, len)
    ensures Signed(ToBytes(n, len).value) == n
  {
    var bs := ToBytes(n, len).value;
    if len > 0 {
      SignByte(bs);
    }
  }

  /** Encoding a decoded value at the same width gives the bytes back, so
      every byte string is the encoding of exactly one integer. */
  lemma BytesRoundTrip(bs: Bytes)
    ensures ToBytes(Signed(bs), |bs|) == Ok(bs)
  {
    UnsignedBytesOf(bs);
  }

  lemma {:induction false} UnsignedBytesOf(bs: Bytes)
    ensures UnsignedBytes(Unsigned(bs), |bs|) == bs
    decreases |bs|
  {
    if |bs| > 0 {
      var init := bs[..|bs| - 1];
      var u := Unsigned(bs);
      assert u / 256 == Unsigned(init) && u % 256 == bs[|bs| - 1];
      UnsignedBytesOf(init);
      assert bs == init + [bs[|bs| - 1]];
    }
  }

  /** A `CellResponse`. `qualifierText` is the qualifier decoded as UTF-8,
      kept for ordering. */
  datatype Cell = Cell(
    value: Bytes,
    rowKey: Bytes,
    family: string,
    qualifier: Bytes,
    qualifierText: string,
    timestamp: int,
    labels: seq<string>)

  /** The qualifier text is the qualifier's own decoding. */
  predicate WellFormed(c: Cell) {
    Utf8.Decode(c.qualifier) == Some(c.qualifierText)
  }

  /** `CellResponse.__init__`: a qualifier that is not valid UTF-8 raises
      `UnicodeDecodeError`; missing labels become an empty list. */
  function NewCell(value: Bytes, row: Bytes, family: string, qualifier: Bytes, timestamp: int, labels: Option<seq<string>>): (r: Result<Cell, string>)
    ensures r.Ok? <==> Utf8.Decode(qualifier).Some?
    ensures r.Ok? ==> WellFormed(r.value) && r.value.labels == labels.GetOr([])
    ensures r.Ok? ==> (r.value.value == value && r.value.rowKey == row && r.value.family == family
      && r.value.qualifier == qualifier && r.value.timestamp == timestamp)
  {
    match Utf8.Decode(qualifier)
    case None => Err("UnicodeDecodeError")
    case Some(text) => Ok(Cell(value, row, family, qualifier, text, timestamp, labels.GetOr([])))
  }

  /** `CellResponse.__lt__`: tuple comparison of family, decoded
      qualifier and timestamp, the first differing component deciding. */
  predicate CellLess(a: Cell, b: Cell) {
    if a.family != b.family then Utf8.StrLess(a.family, b.family)
    else if a.qualifierText != b.qualifierText then Utf8.StrLess(a.qualifierText, b.qualifierText)
    else a.timestamp < b.timestamp
  }

  /** For well-formed cells, the order on decoded qualifiers is the byte
      order of the qualifiers themselves, and families compare by their
      UTF-8 bytes. */
  lemma CellLessIsByteOrder(a: Cell, b: Cell)
    requires WellFormed(a) && WellFormed(b)
    ensures CellLess(a, b) <==>
      if a.family != b.family then Less(Utf8.Encode(a.family), Utf8.Encode(b.family))
      else if a.qualifier != b.qualifier then Less(a.qualifier, b.qualifier)
      else a.timestamp < b.timestamp
  {
    Utf8.EncodeLess(a.family, b.family);
    Utf8.EncodeDecode(a.qualifier);
    Utf8.EncodeDecode(b.qualifier);
    Utf8.EncodeLess(a.qualifierText, b.qualifierText);
  }

  /** `__lt__` is a strict order, as `total_ordering` needs. */
  lemma CellLessStrictOrder(a: Cell, b: Cell, c: Cell)
    ensures !CellLess(a, a)
    ensures CellLess(a, b) && CellLess(b, c) ==> CellLess(a, c)
  {
    Utf8.EncodeLess(a.family, a.family);
    Utf8.EncodeLess(a.qualifierText, a.qualifierText);
    LessIrreflexive(Utf8.Encode(a.family));
    LessIrreflexive(Utf8.Encode(a.qualifierText));
    if CellLess(a, b) && CellLess(b, c) {
      StrLessTransitive(a.family, b.family, c.family);
      StrLessTransitive(a.qualifierText, b.qualifierText, c.qualifierText);
      Utf8.EncodeLess(a.family, c.family);
      Utf8.EncodeLess(c.family, a.family);
      Utf8.EncodeLess(a.family, b.family);
      Utf8.EncodeLess(b.family, a.family);
      Utf8.EncodeLess(a.qualifierText, b.qualifierText);
      Utf8.EncodeLess(b.qualifierText, a.qualifierText);
      if Utf8.Encode(a.family) == Utf8.Encode(b.family) {
        Utf8.DecodeEncode(a.family);
        Utf8.DecodeEncode(b.family);
      }
      if Utf8.Encode(a.qualifierText) == Utf8.Encode(b.qualifierText) {
        Utf8.DecodeEncode(a.qualifierText);
        Utf8.DecodeEncode(b.qualifierText);
      }
      if a.family == c.family && a.family != b.family {
        LessAsymmetric(Utf8.Encode(a.family), Utf8.Encode(b.family));
      }
      if a.family == c.family && a.family == b.family && a.qualifierText == c.qualifierText && a.qualifierText != b.qualifierText {
        LessAsymmetric(Utf8.Encode(a.qualifierText), Utf8.Encode(b.qualifierText));
      }
    }
  }

  /** The Bigtable native order that `get_cells` documents: family and
      qualifier ascending, timestamps in reverse chronological order. */
  predicate CellLessNative(a: Cell, b: Cell) {
    if a.family != b.family then Utf8.StrLess(a.family, b.family)
    else if a.qualifierText != b.qualifierText then Utf8.StrLess(a.qualifierText, b.qualifierText)
    else a.timestamp > b.timestamp
  }

  /** The cell with its timestamp negated. */
  function Negated(c: Cell): (r: Cell)
    ensures r.family == c.family && r.qualifierText == c.qualifierText && r.timestamp == -c.timestamp
  {
    c.(timestamp := -c.timestamp)
  }

  /** The native order is `__lt__` with the timestamps negated, so it is a
      strict order as well. */
  lemma CellLessNativeStrictOrder(a: Cell, b: Cell, c: Cell)
    ensures CellLessNative(a, b) <==> CellLess(Negated(a), Negated(b))
    ensures !CellLessNative(a, a)
    ensures CellLessNative(a, b) && CellLessNative(b, c) ==> CellLessNative(a, c)
  {
    CellLessStrictOrder(Negated(a), Negated(b), Negated(c));
    assert CellLessNative(b, c) <==> CellLess(Negated(b), Negated(c));
    assert CellLessNative(a, c) <==> CellLess(Negated(a), Negated(c));
  }

  /** Two cells that differ only in timestamp: the native order, and the
      ordering test, put the newer one first; `__lt__` puts it last. */
  lemma CellOrderTimestampCounterexample(older: Cell, delta: nat)
    requires delta > 0
    ensures var newer := older.(timestamp := older.timestamp + delta);
      && CellLessNative(newer, older) && !CellLessNative(older, newer)
      && CellLess(older, newer) && !CellLess(newer, older)
  {
  }

  lemma StrLessTransitive(s: string, t: string, u: string)
    ensures Utf8.StrLess(s, t) && Utf8.StrLess(t, u) ==> Utf8.StrLess(s, u)
  {
    Utf8.EncodeLess(s, t);
    Utf8.EncodeLess(t, u);
    Utf8.EncodeLess(s, u);
    if Utf8.StrLess(s, t) && Utf8.StrLess(t, u) {
      LessTransitive(Utf8.Encode(s), Utf8.Encode(t), Utf8.Encode(u));
    }
  }

  /** `CellResponse.__eq__` as written: equal row key, family, qualifier,
      value and timestamp, label lists of equal length, and every label of
      the left cell found among the right cell's labels. */
  predicate CellEq(a: Cell, b: Cell) {
    a.rowKey == b.rowKey && a.family == b.family && a.qualifier == b.qualifier
    && a.value == b.value && a.timestamp == b.timestamp
    && |a.labels| == |b.labels| && forall l :: l in a.labels ==> l in b.labels
  }

  /** The comparison the method evidently means: the same fields, and the
      same labels counted with multiplicity. */
  predicate CellEqIntended(a: Cell, b: Cell) {
    a.rowKey == b.rowKey && a.family == b.family && a.qualifier == b.qualifier
    && a.value == b.value && a.timestamp == b.timestamp
    && multiset(a.labels) == multiset(b.labels)
  }

  /** The intended comparison is an equivalence, and it implies the
      written one in both directions. */
  lemma CellEqIntendedEquivalence(a: Cell, b: Cell, c: Cell)
    ensures CellEqIntended(a, a)
    ensures CellEqIntended(a, b) ==> CellEqIntended(b, a) && CellEq(a, b) && CellEq(b, a)
    ensures CellEqIntended(a, b) && CellEqIntended(b, c) ==> CellEqIntended(a, c)
  {
    if CellEqIntended(a, b) {
      assert |a.labels| == |multiset(a.labels)| == |multiset(b.labels)| == |b.labels|;
      forall l | l in a.labels ensures l in b.labels {
        assert l in multiset(a.labels);
      }
      forall l | l in b.labels ensures l in a.labels {
        assert l in multiset(b.labels);
      }
    }
  }

  /** The written comparison is reflexive, but not symmetric: labels
      `["a", "a"]` against `["a", "b"]` compare equal one way only. */
  lemma CellEqNotSymmetric()
    ensures forall c: Cell :: CellEq(c, c)
    ensures var x := Cell([], [], "f", [], "", 0, ["a", "a"]);
      var y := x.(labels := ["a", "b"]);
      CellEq(x, y) && !CellEq(y, x) && !CellEqIntended(x, y)
  {
    var x := Cell([], [], "f", [], "", 0, ["a", "a"]);
    var y := x.(labels := ["a", "b"]);
    assert "b" in y.labels && "b" !in x.labels;
    assert multiset(x.labels)["a"] == 2;
  }

  /** What `RowResponse.get_cells` does with its arguments: reject them, or
      go on to the selection, which the class leaves unimplemented. */
  datatype GetCellsOutcome = InvalidArguments(message: string) | NotImplemented

  /** `RowResponse.get_cells`. As written (`asWritten`), the guard tests the
      module-level alias `qualifier` (the class `bytes`) instead of the
      misspelled parameter, so any call without a family is rejected; as
      intended only a qualifier without a family is. */
  function GetCells(family: Option<string>, qualifier: Option<Utf8.StrOrBytes>, asWritten: bool): (r: GetCellsOutcome)
    ensures r.InvalidArguments? ==> r.message == "Qualifier passed without family"
    ensures asWritten ==> (r.InvalidArguments? <==> family.None?)
    ensures !asWritten ==> (r.InvalidArguments? <==> family.None? && qualifier.Some?)
  {
    var qualifierGiven := if asWritten then true else qualifier.Some?;
    if family.None? && qualifierGiven then InvalidArguments("Qualifier passed without family") else NotImplemented
  }

  /** Asking for every cell of the row (no family, no qualifier) is
      rejected as written and accepted as intended. */
  lemma GetCellsCounterexample()
    ensures GetCells(None, None, true).InvalidArguments?
    ensures GetCells(None, None, false) == NotImplemented
  {
  }
}
