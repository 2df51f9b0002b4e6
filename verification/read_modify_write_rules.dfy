/** The rules of a ReadModifyWriteRow request
    (google/cloud/bigtable/data/read_modify_write_rules.py): an increment
    by a 64-bit signed amount, or an append of bytes, to one cell. */
module ReadModifyWriteRules {
  import opened Wrappers
  import opened Keys
  import Utf8
  import RowResponse

  /** `MAX_INCREMENT_VALUE`, 2^63 - 1. */
  const MaxIncrementValue: int := 0x7FFF_FFFF_FFFF_FFFF

  /** What the constructors raise. */
  datatype RuleError = TypeError(message: string) | ValueError(message: string)

  /** An argument whose type the constructor checks: an `int` (or, for
      the appended value, `str` or `bytes`) or anything else. */
  datatype Amount = IntAmount(n: int) | OtherAmount
  datatype Value = Text(v: Utf8.StrOrBytes) | OtherValue

  datatype Rule =
    | Increment(family: string, qualifier: Bytes, amount: int)
    | Append(family: string, qualifier: Bytes, value: Bytes)

  /** `ReadModifyWriteRule.__init__`'s qualifier: text is stored UTF-8
      encoded, bytes unchanged, so a text qualifier decodes back to itself. */
  function Qualifier(q: Utf8.StrOrBytes): (b: Bytes)
    ensures q.Raw? ==> b == q.bytes
    ensures q.Str? ==> Utf8.Decode(b) == Some(q.text)
  {
    Utf8.BytesOf(q)
  }

  /** The amounts `IncrementRule` accepts. As written (`asWritten`) the
      bound is on the absolute value, which leaves out -2^63; as intended
      it is the 64-bit signed range. */
  predicate AmountInRange(n: int, asWritten: bool) {
    if asWritten then -MaxIncrementValue <= n <= MaxIncrementValue
    else -MaxIncrementValue - 1 <= n <= MaxIncrementValue
  }

  /** `IncrementRule.__init__`: the type check first, then the bound. */
  function NewIncrement(family: string, qualifier: Utf8.StrOrBytes, amount: Amount, asWritten: bool): (r: Result<Rule, RuleError>)
    ensures amount.OtherAmount? ==> r == Err(TypeError("increment_amount must be an integer"))
    ensures amount.IntAmount? && !AmountInRange(amount.n, asWritten) ==> r.Err? && r.error.ValueError?
    ensures r.Ok? <==> amount.IntAmount? && AmountInRange(amount.n, asWritten)
    ensures r.Ok? ==> r.value == Increment(family, Qualifier(qualifier), amount.n)
  {
    if amount.OtherAmount? then Err(TypeError("increment_amount must be an integer"))
    else if !AmountInRange(amount.n, asWritten) then
      Err(ValueError("increment_amount must be between -2**63 and 2**63 (64-bit signed int)"))
    else Ok(Increment(family, Qualifier(qualifier), amount.n))
  }

  /** The intended bound is exactly "has an 8-byte two's-complement
      encoding": an accepted amount is one a cell holding the counter
      can carry and read back with `int(cell)`. */
  lemma IncrementFitsCounterCell(n: int)
    ensures AmountInRange(n, false) <==> RowResponse.Fits(n, 8)
    ensures AmountInRange(n, false) ==> RowResponse.Signed(RowResponse.ToBytes(n, 8).value) == n
  {
    assert RowResponse.Pow256(8) == 0x1_0000_0000_0000_0000;
    if AmountInRange(n, false) {
      RowResponse.IntRoundTrip(n, 8);
    }
  }

  /** -2^63 fits a 64-bit signed integer, yet the written check rejects
      it; the intended one accepts it. */
  lemma IncrementMinimumCounterexample()
    ensures var n := -MaxIncrementValue - 1;
      RowResponse.Fits(n, 8)
      && NewIncrement("f", Utf8.Raw([]), IntAmount(n), true).Err?
      && NewIncrement("f", Utf8.Raw([]), IntAmount(n), false).Ok?
  {
    IncrementFitsCounterCell(-MaxIncrementValue - 1);
  }

  /** `AppendValueRule.__init__`: text is encoded first, and anything that
      is then not bytes is a `TypeError`. */
  function NewAppend(family: string, qualifier: Utf8.StrOrBytes, value: Value): (r: Result<Rule, RuleError>)
    ensures r.Ok? <==> value.Text?
    ensures r.Err? ==> r.error == TypeError("append_value must be bytes or str")
    ensures r.Ok? ==> (r.value.Append? && r.value.family == family
      && r.value.qualifier == Qualifier(qualifier))
    ensures r.Ok? && value.v.Raw? ==> r.value.value == value.v.bytes
    ensures r.Ok? && value.v.Str? ==> Utf8.Decode(r.value.value) == Some(value.v.text)
  {
    if value.OtherValue? then Err(TypeError("append_value must be bytes or str"))
    else Ok(Append(family, Qualifier(qualifier), Utf8.BytesOf(value.v)))
  }

  /** One value of a rule's dictionary. */
  datatype DictValue = TextField(s: string) | BytesField(b: Bytes) | IntField(n: int)

  const RuleKeys: set<string> := {"family_name", "column_qualifier"}

  /** `_to_dict`: exactly `family_name`, `column_qualifier` and the field
      of the rule's kind. */
  function ToDict(r: Rule): (d: map<string, DictValue>)
    ensures r.Increment? ==> d.Keys == RuleKeys + {"increment_amount"}
    ensures r.Append? ==> d.Keys == RuleKeys + {"append_value"}
  {
    var common := map["family_name" := TextField(r.family), "column_qualifier" := BytesField(r.qualifier)];
    if r.Increment? then common["increment_amount" := IntField(r.amount)]
    else common["append_value" := BytesField(r.value)]
  }

  /** Reading a rule dictionary back, the way the request message does. */
  function FromDict(d: map<string, DictValue>): Option<Rule> {
    if "family_name" !in d || "column_qualifier" !in d || !d["family_name"].TextField? || !d["column_qualifier"].BytesField? then None
    else
      var family, qualifier := d["family_name"].s, d["column_qualifier"].b;
      if "increment_amount" in d && "append_value" !in d && d["increment_amount"].IntField? then
        Some(Increment(family, qualifier, d["increment_amount"].n))
      else if "append_value" in d && "increment_amount" !in d && d["append_value"].BytesField? then
        Some(Append(family, qualifier, d["append_value"].b))
      else None
  }

  /** The dictionary loses nothing: the rule is read back from it. */
  lemma DictRoundTrip(r: Rule)
    ensures FromDict(ToDict(r)) == Some(r)
  {
  }
}
