/** What the MutateRows bookkeeping guarantees: an active entry has not
    been reported yet, a terminal one has been reported at most once, and
    when the operation ends every entry has been reported to
    `on_terminal_state` exactly once, as a success exactly when it is not
    in the raised group. Also the two places where the code as written
    falls short of that. */
module MutateRowsProofs {
  import opened Wrappers
  import StatusCodes
  import Exceptions
  import opened MutateRows

  /** The bookkeeping invariant between steps: an entry has been reported
      at most once; an active entry not at all; an entry that is terminal
      but unreported (one retired by `on_error_fn`) has errors; and a
      reported entry was reported as a success exactly when its error list
      is empty. */
  predicate Inv(n: nat, b: Book) {
    Sized(b, n)
    && forall i :: 0 <= i < n ==>
      Reports(b.log, i) <= 1
      && (b.active[i] ==> Reports(b.log, i) == 0)
      && (Reports(b.log, i) == 0 ==> !ReportedClean(b.log, i) && (b.active[i] || b.errors[i] != []))
      && (Reports(b.log, i) == 1 ==> (ReportedClean(b.log, i) <==> b.errors[i] == []))
  }

  lemma InitialInv(n: nat)
    ensures Inv(n, InitialBook(n))
  {
  }

  lemma ApplyResultInv(entries: seq<Entry>, b: Book, ix: seq<nat>, r: EntryResult)
    requires Inv(|entries|, b) && IndexMap(ix, |entries|)
    ensures ApplyResult(entries, b, ix, r).Ok? ==> Inv(|entries|, ApplyResult(entries, b, ix, r).value)
  {
    var out := ApplyResult(entries, b, ix, r);
    if out.Ok? && b.active[ix[r.index]] && out.value.log != b.log {
      var t := out.value.log[|b.log|];
      assert out.value.log == b.log + [t];
      forall j | 0 <= j < |entries| {
        ReportsAppend(b.log, t, j);
      }
    }
  }

  lemma {:induction false} ApplyResultsInv(entries: seq<Entry>, b: Book, ix: seq<nat>, rs: seq<EntryResult>)
    requires Inv(|entries|, b) && IndexMap(ix, |entries|)
    ensures Inv(|entries|, ApplyResults(entries, b, ix, rs).book)
    decreases |rs|
  {
    if |rs| > 0 {
      ApplyResultInv(entries, b, ix, rs[0]);
      var out := ApplyResult(entries, b, ix, rs[0]);
      if out.Ok? {
        ApplyResultsInv(entries, out.value, ix, rs[1..]);
      }
    }
  }

  lemma RunAttemptInv(entries: seq<Entry>, b: Book, a: MutateAttempt, unpackAsWritten: bool)
    requires Inv(|entries|, b)
    ensures Inv(|entries|, RunAttempt(entries, b, a, unpackAsWritten).book)
  {
    if !unpackAsWritten || |entries| == 0 {
      ApplyResultsInv(entries, b, RequestIndices(b), a.results);
    }
  }

  lemma AppendToActiveInv(n: nat, b: Book, e: Exc)
    requires Inv(n, b)
    ensures Inv(n, AppendToActive(b, e))
  {
  }

  lemma OnErrorInv(entries: seq<Entry>, b: Book, e: Exc)
    requires Inv(|entries|, b)
    ensures Inv(|entries|, OnError(entries, b, e))
  {
  }

  /** Every exit of the retry loop keeps the invariant. */
  lemma {:induction false} RetryLoopInv(entries: seq<Entry>, b: Book, attempts: seq<MutateAttempt>, unpackAsWritten: bool)
    requires Inv(|entries|, b)
    ensures Inv(|entries|, RetryLoop(entries, b, attempts, unpackAsWritten))
    decreases |attempts|
  {
    if |attempts| == 0 {
      AppendToActiveInv(|entries|, b, Grpc(StatusCodes.DeadlineExceeded));
    } else {
      RunAttemptInv(entries, b, attempts[0], unpackAsWritten);
      var s := RunAttempt(entries, b, attempts[0], unpackAsWritten);
      if s.raised.Some? {
        if !Retryable(s.raised.value) {
          AppendToActiveInv(|entries|, s.book, s.raised.value);
        } else {
          OnErrorInv(entries, s.book, s.raised.value);
          RetryLoopInv(entries, OnError(entries, s.book, s.raised.value), attempts[1..], unpackAsWritten);
        }
      }
    }
  }

  /** The final block, as corrected, reports every entry that was not
      reported before, so every entry ends up reported exactly once. */
  lemma {:induction false} ReportFromOnce(b: Book, k: nat, n: nat)
    requires Sized(b, n) && k <= n
    requires forall i :: 0 <= i < n ==>
      Reports(b.log, i) <= 1
      && (Reports(b.log, i) == 0 ==> !ReportedClean(b.log, i))
      && (Reports(b.log, i) == 1 ==> (ReportedClean(b.log, i) <==> b.errors[i] == []))
    requires forall i :: k <= i < n && Reports(b.log, i) == 0 ==> b.errors[i] != []
    requires forall i :: 0 <= i < k ==> Reports(b.log, i) == 1
    ensures forall i :: 0 <= i < n ==> Reports(ReportFrom(b, k, false), i) == 1
    ensures forall i :: 0 <= i < n ==> (ReportedClean(ReportFrom(b, k, false), i) <==> b.errors[i] == [])
    decreases n - k
  {
    if k < n {
      ReportStep(b, k, n);
      ReportFromOnce(FinalStep(b, k), k + 1, n);
    }
  }

  /** The book after the corrected final block has looked at entry `k`. */
  function FinalStep(b: Book, k: nat): Book
    requires k < |b.errors|
  {
    if b.errors[k] != [] && Reports(b.log, k) == 0 then b.(log := b.log + [Terminal(k, Some(CauseOf(b.errors[k])))]) else b
  }

  /** The preconditions of `ReportFromOnce` at entry `k`. */
  predicate ReportReady(b: Book, k: nat, n: nat) {
    Sized(b, n) && k <= n
    && (forall i :: 0 <= i < n ==>
      Reports(b.log, i) <= 1
      && (Reports(b.log, i) == 0 ==> !ReportedClean(b.log, i))
      && (Reports(b.log, i) == 1 ==> (ReportedClean(b.log, i) <==> b.errors[i] == [])))
    && (forall i :: k <= i < n && Reports(b.log, i) == 0 ==> b.errors[i] != [])
    && (forall i :: 0 <= i < k ==> Reports(b.log, i) == 1)
  }

  /** Looking at entry `k` reports it if it was due and keeps the
      preconditions for the next entry. */
  lemma ReportStep(b: Book, k: nat, n: nat)
    requires ReportReady(b, k, n) && k < n
    ensures ReportReady(FinalStep(b, k), k + 1, n)
    ensures ReportFrom(b, k, false) == ReportFrom(FinalStep(b, k), k + 1, false)
  {
    if b.errors[k] != [] && Reports(b.log, k) == 0 {
      var t := Terminal(k, Some(CauseOf(b.errors[k])));
      forall j | 0 <= j < n {
        ReportsAppend(b.log, t, j);
      }
    }
  }

  /** The operation's promise to `on_terminal_state`: every entry is
      reported exactly once; it is reported as a success exactly when its
      error list ends empty; and the group is raised exactly when some
      entry was not reported as a success. */
  lemma MutateRowsReportsEachEntryOnce(entries: seq<Entry>, attempts: seq<MutateAttempt>)
    ensures var out := Operation(entries, attempts);
      (forall i :: 0 <= i < |entries| ==> Reports(out.log, i) == 1)
      && (forall i :: 0 <= i < |entries| ==> (ReportedClean(out.log, i) <==> out.errors[i] == []))
      && (out.raised.Some? <==> exists i :: 0 <= i < |entries| && !ReportedClean(out.log, i))
  {
    var n := |entries|;
    InitialInv(n);
    RetryLoopInv(entries, InitialBook(n), attempts, false);
    var b := RetryLoop(entries, InitialBook(n), attempts, false);
    ReportFromOnce(b, 0, n);
  }

  /** Applying statuses never makes a terminal entry active again. */
  lemma {:induction false} ApplyResultsMonotone(entries: seq<Entry>, b: Book, ix: seq<nat>, rs: seq<EntryResult>, j: nat)
    requires Sized(b, |entries|) && IndexMap(ix, |entries|) && j < |entries|
    requires !b.active[j]
    ensures !ApplyResults(entries, b, ix, rs).book.active[j]
    ensures ApplyResults(entries, b, ix, rs).book.errors[j] == b.errors[j]
    decreases |rs|
  {
    if |rs| > 0 {
      var out := ApplyResult(entries, b, ix, rs[0]);
      if out.Ok? {
        ApplyResultsMonotone(entries, out.value, ix, rs[1..], j);
      }
    }
  }

  /** A run of successes over entries with no errors makes every entry
      it names terminal, leaves every error list empty, and raises
      nothing. */
  lemma {:induction false} SuccessesClear(entries: seq<Entry>, b: Book, ix: seq<nat>, rs: seq<EntryResult>)
    requires Sized(b, |entries|) && IndexMap(ix, |entries|)
    requires forall j :: 0 <= j < |entries| ==> b.errors[j] == []
    requires forall k :: 0 <= k < |rs| ==> rs[k].index < |ix| && rs[k].code == StatusCodes.Ok
    ensures ApplyResults(entries, b, ix, rs).raised.None?
    ensures forall k :: 0 <= k < |rs| ==> !ApplyResults(entries, b, ix, rs).book.active[ix[rs[k].index]]
    ensures forall j :: 0 <= j < |entries| ==> ApplyResults(entries, b, ix, rs).book.errors[j] == []
    decreases |rs|
  {
    if |rs| > 0 {
      var out := ApplyResult(entries, b, ix, rs[0]);
      SuccessesClear(entries, out.value, ix, rs[1..]);
      ApplyResultsMonotone(entries, out.value, ix, rs[1..], ix[rs[0].index]);
      forall k | 1 <= k < |rs| ensures rs[1..][k - 1] == rs[k] { }
    }
  }

  lemma {:induction false} WhereAllTrue(n: nat)
    ensures Where(seq(n, _ => true)) == seq(n, k => k)
  {
    if n > 0 {
      assert seq(n, _ => true)[..n - 1] == seq(n - 1, _ => true);
      WhereAllTrue(n - 1);
      assert seq(n - 1, k => k) + [n - 1] == seq(n, k => k);
    }
  }

  /** A success status for each of the first `n` sub-request entries. */
  function AllOk(n: nat): (rs: seq<EntryResult>)
    ensures |rs| == n && forall k :: 0 <= k < n ==> rs[k] == EntryResult(k, StatusCodes.Ok)
  {
    if n == 0 then [] else AllOk(n - 1) + [EntryResult(n - 1, StatusCodes.Ok)]
  }

  /** The first attempt as the intended code runs it when every entry
      succeeds: nothing is raised and no entry is left active or with
      errors. */
  lemma FirstAttemptAllOk(entries: seq<Entry>)
    ensures var s := RunAttempt(entries, InitialBook(|entries|), MutateAttempt(AllOk(|entries|), None), false);
      s.raised.None? && forall j :: 0 <= j < |entries| ==> s.book.errors[j] == []
  {
    var n := |entries|;
    var b := InitialBook(n);
    WhereAllTrue(n);
    var ix := RequestIndices(b);
    assert ix == seq(n, k => k);
    assert |ix| == n;
    var rs := AllOk(n);
    SuccessesClear(entries, b, ix, rs);
    var s := ApplyResults(entries, b, ix, rs);
    forall j | 0 <= j < n ensures !s.book.active[j] {
      assert ix[rs[j].index] == j;
    }
    assert !AnyActive(s.book);
    assert RunAttempt(entries, b, MutateAttempt(rs, None), false) == Step(s.book, None);
  }

  /** With the sub-request built as intended, a first attempt that
      succeeds for every entry ends the operation with nothing raised and
      every entry reported as a success. */
  lemma AllSuccessRaisesNothing(entries: seq<Entry>, attempts: seq<MutateAttempt>)
    requires |attempts| > 0 && attempts[0] == MutateAttempt(AllOk(|entries|), None)
    ensures Operation(entries, attempts).raised.None?
    ensures forall i :: 0 <= i < |entries| ==> ReportedClean(Operation(entries, attempts).log, i)
  {
    FirstAttemptAllOk(entries);
    MutateRowsReportsEachEntryOnce(entries, attempts);
  }

  /** As written, line 177 raises `ValueError` in every attempt, which is
      not retryable: every entry fails with it, whatever the server would
      have answered. */
  lemma UnpackFailsEveryEntry(entries: seq<Entry>, attempts: seq<MutateAttempt>)
    requires |entries| > 0 && |attempts| > 0
    ensures OperationAsWritten(entries, attempts).raised.Some?
    ensures forall i :: 0 <= i < |entries| ==> OperationAsWritten(entries, attempts).errors[i] == [Unpack]
  {
  }

  /** The smallest instance: one idempotent entry that the server applies
      at once. As written the operation raises; as intended it does not
      and reports the entry as a success. */
  lemma UnpackCounterexample()
    ensures OperationAsWritten([Entry(true)], [MutateAttempt([EntryResult(0, StatusCodes.Ok)], None)]).raised.Some?
    ensures Operation([Entry(true)], [MutateAttempt([EntryResult(0, StatusCodes.Ok)], None)]).raised.None?
  {
    assert AllOk(1) == [EntryResult(0, StatusCodes.Ok)];
    AllSuccessRaisesNothing([Entry(true)], [MutateAttempt([EntryResult(0, StatusCodes.Ok)], None)]);
  }

  /** As written, the final block reports only entries still marked
      active, so a non-idempotent entry retired by `on_error_fn` is listed
      in the raised group but never reported to `on_terminal_state`. */
  lemma RetiredEntryNeverReported()
    ensures var es := [Entry(false)];
      var b := RetryLoop(es, InitialBook(1), [MutateAttempt([], Some(StatusCodes.ServiceUnavailable))], false);
      var out := Finish(es, b, true);
      out.raised.Some? && out.raised.value.exceptions[0].index == 0 && Reports(out.log, 0) == 0
  {
    var es := [Entry(false)];
    var b0 := InitialBook(1);
    var a := MutateAttempt([], Some(StatusCodes.ServiceUnavailable));
    assert RunAttempt(es, b0, a, false) == Step(b0, Some(Grpc(StatusCodes.ServiceUnavailable)));
    var b1 := OnError(es, b0, Grpc(StatusCodes.ServiceUnavailable));
    assert b1.errors[0] == [Grpc(StatusCodes.ServiceUnavailable)] && !b1.active[0] && b1.log == [];
    assert Retryable(Grpc(StatusCodes.ServiceUnavailable));
    var b := RetryLoop(es, b0, [a], false);
    assert [a][1..] == [];
    assert RetryLoop(es, b1, [], false) == AppendToActive(b1, Grpc(StatusCodes.DeadlineExceeded));
    assert b == AppendToActive(b1, Grpc(StatusCodes.DeadlineExceeded));
    assert ReportFrom(b, 1, true) == [];
  }
}
