/** Per-entry bookkeeping of a bulk MutateRows operation
    (google/cloud/bigtable/_mutate_rows.py). Every entry is either active
    (still to be sent) or terminal, and carries the list of errors seen
    for it; the server answers an attempt with one status per entry of
    the sub-request, and the operation ends by raising one
    `MutationsExceptionGroup` that lists every entry with errors.

    `on_terminal_state` is modelled by the log of calls it would receive;
    the retry wrapper by a given sequence of server attempts, where
    running out of attempts stands for the operation deadline passing. */
module MutateRows {
  import opened Wrappers
  import StatusCodes
  import Exceptions

  /** A mutation entry; only whether it is idempotent matters here. */
  datatype Entry = Entry(idempotent: bool)

  /** The exceptions the bookkeeping records:
      - `Grpc(code)`: an error status, per entry or for the whole RPC,
        and the `DeadlineExceeded` the deadline converter raises;
      - `Incomplete`: `_MutateRowsIncomplete`;
      - `UnknownIndex(i)`: the `KeyError` of a response index the
        sub-request did not have;
      - `Unpack`: the `ValueError` of unpacking `enumerate(dict.items())`
        into three names. */
  datatype Exc = Grpc(code: nat) | Incomplete | UnknownIndex(index: nat) | Unpack

  /** The operation's retry predicate. */
  predicate Retryable(e: Exc) {
    e.Incomplete? || (e.Grpc? && e.code in {StatusCodes.DeadlineExceeded, StatusCodes.ServiceUnavailable})
  }

  /** The cause attached to a failed entry: its one error, or a
      `RetryExceptionGroup` of all of them. */
  datatype Cause = Single(error: Exc) | RetryGroup(errors: seq<Exc>) {
    function Errors(): seq<Exc> {
      if Single? then [error] else errors
    }
  }

  function CauseOf(errs: seq<Exc>): (c: Cause)
    requires |errs| > 0
    ensures c.Errors() == errs
    ensures c.Single? <==> |errs| == 1
  {
    if |errs| == 1 then Single(errs[0]) else RetryGroup(errs)
  }

  /** One `on_terminal_state(entry, exc)` call: the entry's index and the
      exception passed, `None` for success. */
  datatype Terminal = Terminal(index: nat, cause: Option<Cause>)

  /** How many calls the log holds for entry `i`. */
  function Reports(log: seq<Terminal>, i: nat): nat {
    if |log| == 0 then 0
    else Reports(log[..|log| - 1], i) + (if log[|log| - 1].index == i then 1 else 0)
  }

  /** Some call for entry `i` reported success. */
  predicate ReportedClean(log: seq<Terminal>, i: nat) {
    |log| > 0 && ((log[|log| - 1].index == i && log[|log| - 1].cause.None?) || ReportedClean(log[..|log| - 1], i))
  }

  lemma ReportsAppend(log: seq<Terminal>, t: Terminal, i: nat)
    ensures Reports(log + [t], i) == Reports(log, i) + (if t.index == i then 1 else 0)
    ensures ReportedClean(log + [t], i) <==> ReportedClean(log, i) || (t.index == i && t.cause.None?)
  {
    assert (log + [t])[..|log|] == log;
  }

  lemma {:induction false} CleanIsReported(log: seq<Terminal>, i: nat)
    requires ReportedClean(log, i)
    ensures Reports(log, i) > 0
  {
    if !(log[|log| - 1].index == i && log[|log| - 1].cause.None?) {
      CleanIsReported(log[..|log| - 1], i);
    }
  }

  /** `mutations_dict` (an entry is active while it maps to the entry and
      terminal once it maps to `None`), `error_dict`, and the calls made
      to `on_terminal_state` so far. */
  datatype Book = Book(active: seq<bool>, errors: seq<seq<Exc>>, log: seq<Terminal>)

  predicate Sized(b: Book, n: nat) {
    |b.active| == n && |b.errors| == n
  }

  predicate AnyActive(b: Book) {
    exists i :: 0 <= i < |b.active| && b.active[i]
  }

  /** The bookkeeping at the start: every entry active, no errors. */
  function InitialBook(n: nat): (b: Book)
    ensures Sized(b, n) && b.log == []
    ensures forall i :: 0 <= i < n ==> b.active[i] && b.errors[i] == []
  {
    Book(seq(n, _ => true), seq(n, _ => []), [])
  }

  /** The positions where `flags` holds, in increasing order. */
  function Where(flags: seq<bool>): (ix: seq<nat>)
    ensures forall k :: 0 <= k < |ix| ==> ix[k] < |flags| && flags[ix[k]]
    ensures forall k, l :: 0 <= k < l < |ix| ==> ix[k] < ix[l]
    ensures forall i :: 0 <= i < |flags| && flags[i] ==> i in ix
  {
    if |flags| == 0 then []
    else
      var ix := Where(flags[..|flags| - 1]);
      assert forall i :: 0 <= i < |flags| - 1 ==> flags[..|flags| - 1][i] == flags[i];
      if flags[|flags| - 1] then ix + [|flags| - 1] else ix
  }

  /** Every sub-request index maps to an entry. */
  predicate IndexMap(ix: seq<nat>, n: nat) {
    forall k :: 0 <= k < |ix| ==> ix[k] < n
  }

  /** The `index_map` of an attempt as intended: sub-request entry `k` is
      the `k`-th active entry. */
  function RequestIndices(b: Book): (ix: seq<nat>)
    ensures IndexMap(ix, |b.active|)
    ensures forall k :: 0 <= k < |ix| ==> b.active[ix[k]]
    ensures forall k, l :: 0 <= k < l < |ix| ==> ix[k] < ix[l]
    ensures forall i :: 0 <= i < |b.active| && b.active[i] ==> i in ix
  {
    Where(b.active)
  }

  /** The `index_map` loop as written: it unpacks each element of
      `enumerate(mutation_dict.items())`, a pair, into three names, which
      raises `ValueError` as soon as the dict has an element. The dict
      keeps every index for the whole operation. */
  function RequestIndicesAsWritten(b: Book): (r: Result<seq<nat>, Exc>)
    ensures r.Err? <==> |b.active| > 0
  {
    if |b.active| == 0 then Ok([]) else Err(Unpack)
  }

  /** One entry of a response: the sub-request index and its status. */
  datatype EntryResult = EntryResult(index: nat, code: nat)

  /** What the server does in one attempt: the per-entry statuses it
      streams back, then either a clean end or an RPC error. */
  datatype MutateAttempt = MutateAttempt(results: seq<EntryResult>, streamError: Option<nat>)

  /** Applies one per-entry status. An index outside the sub-request
      raises; a status for a terminal entry is ignored; success clears the
      entry's errors and makes it terminal; a failure is recorded and
      makes the entry terminal exactly when it is not retryable or the
      entry is not idempotent. `on_terminal_state` fires for the entry
      exactly when it becomes terminal. */
  function ApplyResult(entries: seq<Entry>, b: Book, ix: seq<nat>, r: EntryResult): (out: Result<Book, Exc>)
    requires Sized(b, |entries|) && IndexMap(ix, |entries|)
    ensures out.Err? <==> r.index >= |ix|
    ensures out.Err? ==> out.error == UnknownIndex(r.index)
    ensures out.Ok? ==> Sized(out.value, |entries|)
    ensures out.Ok? ==> forall j :: 0 <= j < |entries| && j != ix[r.index] ==>
      out.value.active[j] == b.active[j] && out.value.errors[j] == b.errors[j]
    ensures out.Ok? && !b.active[ix[r.index]] ==> out.value == b
    ensures out.Ok? && b.active[ix[r.index]] && r.code == StatusCodes.Ok ==>
      var i := ix[r.index];
      !out.value.active[i] && out.value.errors[i] == [] && out.value.log == b.log + [Terminal(i, None)]
    ensures out.Ok? && b.active[ix[r.index]] && r.code != StatusCodes.Ok ==>
      var i := ix[r.index];
      out.value.errors[i] == b.errors[i] + [Grpc(r.code)]
      && (out.value.active[i] <==> Retryable(Grpc(r.code)) && entries[i].idempotent)
      && out.value.log == (if out.value.active[i] then b.log else b.log + [Terminal(i, Some(Single(Grpc(r.code))))])
  {
    if r.index >= |ix| then Err(UnknownIndex(r.index))
    else
      var i := ix[r.index];
      if !b.active[i] then Ok(b)
      else if r.code == StatusCodes.Ok then
        Ok(Book(b.active[i := false], b.errors[i := []], b.log + [Terminal(i, None)]))
      else
        var e := Grpc(r.code);
        var terminal := !Retryable(e) || !entries[i].idempotent;
        Ok(Book(if terminal then b.active[i := false] else b.active,
                b.errors[i := b.errors[i] + [e]],
                if terminal then b.log + [Terminal(i, Some(Single(e)))] else b.log))
  }

  /** Where an attempt or a run of statuses left the bookkeeping, and what
      it raised. */
  datatype Step = Step(book: Book, raised: Option<Exc>)

  predicate AllKnown(rs: seq<EntryResult>, width: nat) {
    forall k :: 0 <= k < |rs| ==> rs[k].index < width
  }

  /** Applies statuses in order until one names an unknown index. */
  function ApplyResults(entries: seq<Entry>, b: Book, ix: seq<nat>, rs: seq<EntryResult>): (s: Step)
    requires Sized(b, |entries|) && IndexMap(ix, |entries|)
    ensures Sized(s.book, |entries|)
    ensures s.raised.None? <==> AllKnown(rs, |ix|)
    ensures s.raised.Some? ==> s.raised.value.UnknownIndex?
    decreases |rs|
  {
    if |rs| == 0 then Step(b, None)
    else
      var out := ApplyResult(entries, b, ix, rs[0]);
      if out.Err? then Step(b, Some(out.error))
      else
        var s := ApplyResults(entries, out.value, ix, rs[1..]);
        assert AllKnown(rs, |ix|) <==> AllKnown(rs[1..], |ix|) by {
          forall k | 0 <= k < |rs[1..]| ensures rs[1..][k] == rs[k + 1] { }
        }
        s
  }

  /** `_mutate_rows_retryable_attempt`: build the sub-request, apply the
      streamed statuses, let an RPC error through, and raise
      `Incomplete` when an entry is still active at the end. */
  function RunAttempt(entries: seq<Entry>, b: Book, a: MutateAttempt, unpackAsWritten: bool): (s: Step)
    requires Sized(b, |entries|)
    ensures Sized(s.book, |entries|)
    ensures s.raised.None? ==> !AnyActive(s.book)
    ensures s.raised == Some(Incomplete) <==>
      (!unpackAsWritten || |entries| == 0) && AllKnown(a.results, |RequestIndices(b)|)
      && a.streamError.None? && AnyActive(s.book)
  {
    var ix := if unpackAsWritten then RequestIndicesAsWritten(b) else Ok(RequestIndices(b));
    if ix.Err? then Step(b, Some(ix.error))
    else
      assert ix.value == RequestIndices(b);
      var s := ApplyResults(entries, b, ix.value, a.results);
      if s.raised.Some? then s
      else if a.streamError.Some? then Step(s.book, Some(Grpc(a.streamError.value)))
      else if AnyActive(s.book) then Step(s.book, Some(Incomplete))
      else Step(s.book, None)
  }

  /** Appends `e` to the errors of every active entry. */
  function AppendToActive(b: Book, e: Exc): (out: Book)
    requires |b.active| == |b.errors|
    ensures out.active == b.active && out.log == b.log && |out.errors| == |b.errors|
    ensures forall i :: 0 <= i < |b.errors| ==> out.errors[i] == (if b.active[i] then b.errors[i] + [e] else b.errors[i])
  {
    b.(errors := seq(|b.errors|, i requires 0 <= i < |b.errors| => if b.active[i] then b.errors[i] + [e] else b.errors[i]))
  }

  /** `on_error_fn`: a retryable RPC error other than `Incomplete` is
      recorded for every active entry, and the non-idempotent entries are
      then retired without an `on_terminal_state` call. */
  function OnError(entries: seq<Entry>, b: Book, e: Exc): (out: Book)
    requires Sized(b, |entries|)
    ensures Sized(out, |entries|) && out.log == b.log
    ensures !Retryable(e) || e.Incomplete? ==> out == b
    ensures Retryable(e) && !e.Incomplete? ==> forall i :: 0 <= i < |entries| ==>
      out.errors[i] == (if b.active[i] then b.errors[i] + [e] else b.errors[i])
      && (out.active[i] <==> b.active[i] && entries[i].idempotent)
  {
    if Retryable(e) && !e.Incomplete? then
      var b1 := AppendToActive(b, e);
      b1.(active := seq(|entries|, i requires 0 <= i < |entries| => b1.active[i] && entries[i].idempotent))
    else b
  }

  /** The retry loop around the attempts. A non-retryable exception ends
      it and is recorded for every active entry; so is the
      `DeadlineExceeded` raised once no attempt is left. */
  function RetryLoop(entries: seq<Entry>, b: Book, attempts: seq<MutateAttempt>, unpackAsWritten: bool): (out: Book)
    requires Sized(b, |entries|)
    ensures Sized(out, |entries|)
    ensures forall i :: 0 <= i < |entries| && out.active[i] ==> out.errors[i] != []
    decreases |attempts|
  {
    if |attempts| == 0 then AppendToActive(b, Grpc(StatusCodes.DeadlineExceeded))
    else
      var s := RunAttempt(entries, b, attempts[0], unpackAsWritten);
      if s.raised.None? then s.book
      else if !Retryable(s.raised.value) then AppendToActive(s.book, s.raised.value)
      else RetryLoop(entries, OnError(entries, s.book, s.raised.value), attempts[1..], unpackAsWritten)
  }

  /** The `on_terminal_state` calls of the final block, made for the
      entries `k..` in index order: an entry with errors is reported when
      `due` says it has not been yet. */
  function ReportFrom(b: Book, k: nat, byActive: bool): (log: seq<Terminal>)
    requires |b.active| == |b.errors|
    ensures b.log <= log
    decreases |b.errors| - k
  {
    if k >= |b.errors| then b.log
    else
      var due := b.errors[k] != [] && (if byActive then b.active[k] else Reports(b.log, k) == 0);
      ReportFrom(if due then b.(log := b.log + [Terminal(k, Some(CauseOf(b.errors[k])))]) else b, k + 1, byActive)
  }

  /** The `FailedMutationEntryError`s: one per entry with errors, in index
      order, each with the cause its error list makes. */
  function Failures(entries: seq<Entry>, errors: seq<seq<Exc>>): (fs: seq<Exceptions.FailedMutationEntry<Cause>>)
    requires |errors| == |entries|
    ensures forall k :: 0 <= k < |fs| ==>
      fs[k].index < |entries| && errors[fs[k].index] != []
      && fs[k].cause == CauseOf(errors[fs[k].index]) && fs[k].idempotent == entries[fs[k].index].idempotent
    ensures forall k, l :: 0 <= k < l < |fs| ==> fs[k].index < fs[l].index
    ensures forall i :: 0 <= i < |entries| && errors[i] != [] ==> exists k :: 0 <= k < |fs| && fs[k].index == i
  {
    var ix := Where(seq(|errors|, i requires 0 <= i < |errors| => errors[i] != []));
    var fs := seq(|ix|, k requires 0 <= k < |ix| =>
      Exceptions.FailedMutationEntry(ix[k], entries[ix[k]].idempotent, CauseOf(errors[ix[k]])));
    assert forall i :: 0 <= i < |entries| && errors[i] != [] ==> fs[IndexOf(ix, i)].index == i;
    fs
  }

  function IndexOf(ix: seq<nat>, i: nat): (k: nat)
    requires i in ix
    ensures k < |ix| && ix[k] == i
  {
    if ix[0] == i then 0 else 1 + IndexOf(ix[1..], i)
  }

  /** The end of the operation: the errors per entry, the
      `on_terminal_state` calls, and the group raised if any entry
      failed. */
  datatype Outcome = Outcome(
    errors: seq<seq<Exc>>,
    log: seq<Terminal>,
    raised: Option<Exceptions.Group<Exceptions.FailedMutationEntry<Cause>>>)

  function Finish(entries: seq<Entry>, b: Book, byActive: bool): (out: Outcome)
    requires Sized(b, |entries|)
    ensures out.errors == b.errors
    ensures out.raised.Some? <==> exists i :: 0 <= i < |entries| && b.errors[i] != []
    ensures out.raised.Some? ==>
      out.raised.value.exceptions == Failures(entries, b.errors)
      && out.raised.value.message == Exceptions.MutationsMessage(|out.raised.value.exceptions|, |entries|)
  {
    var fs := Failures(entries, b.errors);
    var g := Exceptions.MutationsGroup(fs, |entries|);
    assert (exists i :: 0 <= i < |entries| && b.errors[i] != []) ==> |fs| > 0;
    assert |fs| > 0 ==> fs[0].index < |entries| && b.errors[fs[0].index] != [];
    Outcome(b.errors, ReportFrom(b, 0, byActive), if g.Ok? then Some(g.value) else None)
  }

  /** `_mutate_rows_operation`, with the sub-request built as intended and
      every failed entry reported to `on_terminal_state` that was not
      reported before. */
  function Operation(entries: seq<Entry>, attempts: seq<MutateAttempt>): (out: Outcome)
    ensures |out.errors| == |entries|
  {
    Finish(entries, RetryLoop(entries, InitialBook(|entries|), attempts, false), false)
  }

  /** `_mutate_rows_operation` as written: the sub-request loop raises,
      and the final block reports only entries still marked active. */
  function OperationAsWritten(entries: seq<Entry>, attempts: seq<MutateAttempt>): (out: Outcome)
    ensures |out.errors| == |entries|
  {
    Finish(entries, RetryLoop(entries, InitialBook(|entries|), attempts, true), true)
  }
}
