/** The exception groups a bulk operation raises and the messages they
    carry (google/cloud/bigtable/exceptions.py). Counts are printed in
    decimal, so the module starts with a decimal printer and its parser. */
module Exceptions {
  import opened Wrappers

  predicate IsDigit(c: char) {
    '0' <= c <= '9'
  }

  predicate AllDigits(s: string) {
    forall i :: 0 <= i < |s| ==> IsDigit(s[i])
  }

  function Digit(d: nat): (c: char)
    requires d < 10
    ensures IsDigit(c) && c as int - '0' as int == d
  {
    ('0' as int + d) as char
  }

  /** Python's `str(n)` / f-string rendering of a non-negative int. */
  function NatToString(n: nat): (s: string)
    ensures |s| > 0 && AllDigits(s)
    ensures n < 10 <==> |s| == 1
    decreases n
  {
    if n < 10 then [Digit(n)] else NatToString(n / 10) + [Digit(n % 10)]
  }

  /** Python's `str(i)` of any int: a minus sign before a negative
      number's magnitude. */
  function IntToString(i: int): (s: string)
    ensures |s| > 0
    ensures s[0] == '-' <==> i < 0
    ensures i >= 0 ==> AllDigits(s) && ParseNat(s) == i
  {
    if i < 0 then "-" + NatToString(-i) else (ParseNatToString(i); NatToString(i))
  }

  /** Reads a string of decimal digits back as a number. */
  function ParseNat(s: string): nat
    requires AllDigits(s)
  {
    if |s| == 0 then 0 else ParseNat(s[..|s| - 1]) * 10 + (s[|s| - 1] as int - '0' as int)
  }

  lemma {:induction false} ParseNatToString(n: nat)
    ensures ParseNat(NatToString(n)) == n
    decreases n
  {
    var s := NatToString(n);
    if n < 10 {
      assert s[..0] == [];
    } else {
      ParseNatToString(n / 10);
      assert s[..|s| - 1] == NatToString(n / 10);
    }
  }

  lemma NatToStringInjective(a: nat, b: nat)
    requires NatToString(a) == NatToString(b)
    ensures a == b
  {
    ParseNatToString(a);
    ParseNatToString(b);
  }

  /** A run of digits followed by a non-digit splits one way only. */
  lemma DigitsThenText(a: string, x: string, b: string, y: string)
    requires AllDigits(a) && AllDigits(b)
    requires |x| > 0 && |y| > 0 && !IsDigit(x[0]) && !IsDigit(y[0])
    requires a + x == b + y
    ensures a == b && x == y
  {
    assert a == (a + x)[..|a|] == (b + y)[..|b|] == b;
    assert x == (a + x)[|a|..] == (b + y)[|b|..] == y;
  }

  function Plural(n: nat, one: string, many: string): string {
    if n == 1 then one else many
  }

  /** "N sub-exception[s] (from T <one|many> attempted)", shared by the
      mutation and the sharded-read groups. */
  function CountMessage(count: nat, total: nat, one: string, many: string): (m: string)
    ensures NatToString(count) <= m
    ensures |m| > |NatToString(count)| + 14 && (m[|NatToString(count)| + 14] == 's' <==> count != 1)
    ensures var tail := " (from " + NatToString(total) + " " + (if total == 1 then one else many) + " attempted)";
      |tail| < |m| && m[|m| - |tail|..] == tail
  {
    var head := NatToString(count) + " sub-exception";
    var tail := " (from " + NatToString(total) + " " + Plural(total, one, many) + " attempted)";
    var m := head + Plural(count, "", "s") + tail;
    assert m[|head|] == (Plural(count, "", "s") + tail)[0];
    m
  }

  /** `MutationsExceptionGroup._format_message`. */
  function MutationsMessage(count: nat, total: nat): string {
    CountMessage(count, total, "entry", "entries")
  }

  /** `ShardedReadRowsExceptionGroup._format_message`. */
  function ShardedMessage(count: nat, total: nat): string {
    CountMessage(count, total, "query", "queries")
  }

  /** The text between the count and the total. */
  function CountInfix(count: nat): string {
    " sub-exception" + Plural(count, "", "s") + " (from "
  }

  function CountSuffix(total: nat, one: string, many: string): string {
    " " + Plural(total, one, many) + " attempted)"
  }

  lemma CountMessageParts(count: nat, total: nat, one: string, many: string)
    ensures CountMessage(count, total, one, many)
      == NatToString(count) + (CountInfix(count) + (NatToString(total) + CountSuffix(total, one, many)))
  {
  }

  /** A count message names its two numbers unambiguously: equal messages
      mean equal counts and equal totals. */
  lemma CountMessageDeterminesCounts(c1: nat, t1: nat, c2: nat, t2: nat, one: string, many: string)
    requires CountMessage(c1, t1, one, many) == CountMessage(c2, t2, one, many)
    ensures c1 == c2 && t1 == t2
  {
    CountMessageParts(c1, t1, one, many);
    CountMessageParts(c2, t2, one, many);
    var x1 := CountInfix(c1) + (NatToString(t1) + CountSuffix(t1, one, many));
    var x2 := CountInfix(c2) + (NatToString(t2) + CountSuffix(t2, one, many));
    assert x1[0] == ' ' && x2[0] == ' ';
    DigitsThenText(NatToString(c1), x1, NatToString(c2), x2);
    NatToStringInjective(c1, c2);
    assert NatToString(t1) + CountSuffix(t1, one, many) == x1[|CountInfix(c1)|..];
    assert NatToString(t2) + CountSuffix(t2, one, many) == x2[|CountInfix(c2)|..];
    DigitsThenText(NatToString(t1), CountSuffix(t1, one, many), NatToString(t2), CountSuffix(t2, one, many));
    NatToStringInjective(t1, t2);
  }

  /** `RetryExceptionGroup._format_message` over the class names of the
      failed attempts' exceptions: for at least one attempt the message
      opens with the number of attempts and closes with the name of the
      latest. */
  function RetryMessage(names: seq<string>): (m: string)
    ensures |names| == 0 ==> m == "No exceptions"
    ensures |names| > 0 ==> NatToString(|names|) <= m
    ensures |names| > 0 ==> |names[|names| - 1]| <= |m| && m[|m| - |names[|names| - 1]|..] == names[|names| - 1]
    ensures |names| == 1 <==> |m| > 17 && m[..17] == "1 failed attempt:"
  {
    if |names| == 0 then "No exceptions"
    else if |names| == 1 then "1 failed attempt: " + names[0]
    else
      var head := NatToString(|names|) + " failed attempts. Latest: ";
      var m := head + names[|names| - 1];
      assert m[|m| - |names[|names| - 1]|..] == names[|names| - 1];
      assert m[0] != '1' || m[1] != ' ' by {
        if |names| < 10 {
          assert m[0] == Digit(|names|);
        } else {
          assert m[1] == NatToString(|names|)[1];
        }
      }
      m
  }

  /** An exception group as the pre-3.11 backport builds it: a message and
      the sub-exceptions, kept in order. */
  datatype Group<E> = Group(message: string, exceptions: seq<E>) {
    /** `__str__` shows the message alone. */
    function Str(): string {
      message
    }
  }

  /** `BigtableExceptionGroup.__init__` on the backport path: an empty
      list raises `ValueError`. */
  function NewGroup<E>(message: string, excs: seq<E>): (r: Result<Group<E>, string>)
    ensures r.Ok? <==> |excs| > 0
    ensures r.Ok? ==> r.value.exceptions == excs && r.value.Str() == message
    ensures r.Err? ==> r.error == "exceptions must be a non-empty sequence"
  {
    if |excs| == 0 then Err("exceptions must be a non-empty sequence") else Ok(Group(message, excs))
  }

  /** `FailedMutationEntryError`: the failed entry's index, whether it was
      idempotent, and its cause (`cause` is the cause's `repr`). */
  datatype FailedMutationEntry<C> = FailedMutationEntry(index: nat, idempotent: bool, cause: C)

  function FailedMutationMessage(index: nat, idempotent: bool, causeRepr: string): (m: string)
    ensures |m| > 21 && (m[..21] == "Failed non-idempotent" <==> !idempotent)
  {
    var kind := if idempotent then "idempotent" else "non-idempotent";
    var m := "Failed " + kind + " mutation entry at index " + NatToString(index) + " with cause: " + causeRepr;
    assert m[7] == kind[0];
    m
  }

  /** `FailedQueryShardError`: the failed query's index, the query and its
      cause. */
  datatype FailedQueryShard<Q, C> = FailedQueryShard(index: nat, query: Q, cause: C)

  function FailedQueryMessage(index: nat, causeRepr: string): (m: string)
    ensures "Failed query at index " + NatToString(index) <= m
  {
    "Failed query at index " + NatToString(index) + " with cause: " + causeRepr
  }

  /** `MutationsExceptionGroup(excs, total_entries)`. */
  function MutationsGroup<C>(excs: seq<FailedMutationEntry<C>>, total: nat): (r: Result<Group<FailedMutationEntry<C>>, string>)
    ensures r.Ok? <==> |excs| > 0
    ensures r.Ok? ==> r.value.exceptions == excs && r.value.message == MutationsMessage(|excs|, total)
  {
    NewGroup(MutationsMessage(|excs|, total), excs)
  }

  /** `ShardedReadRowsExceptionGroup(excs, succeeded, total_queries)`: the
      group also keeps the rows that were read successfully. */
  datatype ShardedGroup<Q, C, R> = ShardedGroup(group: Group<FailedQueryShard<Q, C>>, successfulRows: seq<R>)

  function NewShardedGroup<Q, C, R>(excs: seq<FailedQueryShard<Q, C>>, succeeded: seq<R>, total: nat): (r: Result<ShardedGroup<Q, C, R>, string>)
    ensures r.Ok? <==> |excs| > 0
    ensures r.Ok? ==> r.value.group.exceptions == excs && r.value.successfulRows == succeeded
    ensures r.Ok? ==> r.value.group.message == ShardedMessage(|excs|, total)
  {
    var g :- NewGroup(ShardedMessage(|excs|, total), excs);
    Ok(ShardedGroup(g, succeeded))
  }
}
