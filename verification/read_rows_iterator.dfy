/** The row iterator handed to callers of `read_rows_stream`
    (`ReadRowsIterator`, google/cloud/bigtable/_sync_autogen.py). It pulls
    from the row merger, keeps request statistics instead of returning
    them, and latches the first error: from then on every call raises it
    again. The merger is modelled by what its successive `__next__` calls
    produce; running out of them is the merger's `StopIteration`. */
module ReadRowsIterator {
  import opened Wrappers
  import Exceptions

  /** What the iterator raises. */
  datatype IterError =
    | Failed(name: string)
      /** Any other exception from the merger, by class name. */
    | Deadline(cause: Option<Exceptions.Group<string>>)
      /** `DeadlineExceeded` replacing the retry wrapper's `RetryError`,
          with a `RetryExceptionGroup` of the transient errors as cause
          when there were any. */
    | Stopped(closed: bool)
      /** `StopIteration`: the merger is exhausted, or `close` was called. */
    | TypeErrorRaised
      /** The `TypeError` of building the cause group with a message
          argument the group does not take. */

  /** One `__next__` of the merger: a row, a statistics message, a raised
      exception, or the retry wrapper's `RetryError` together with the
      transient errors collected so far (their class names). */
  datatype Pull<R, S> = Yield(row: R) | YieldStats(stats: S) | Raise(name: string) | RetryExhausted(transient: seq<string>)

  /** `_error`, `request_stats`, and how often the merger was closed. */
  datatype Iter<S> = Iter(error: Option<IterError>, requestStats: Option<S>, mergerCloses: nat)

  predicate Active<S>(it: Iter<S>) {
    it.error.None?
  }

  /** The merger is closed once when the first error is stored, and
      never otherwise. */
  predicate ClosedOnce<S>(it: Iter<S>) {
    it.mergerCloses == if Active(it) then 0 else 1
  }

  function NewIter<S>(): (it: Iter<S>)
    ensures Active(it) && ClosedOnce(it)
  {
    Iter(None, None, 0)
  }

  /** `_finish_with_error`: only the first error is stored, and the merger
      is closed when it is. */
  function FinishWithError<S>(it: Iter<S>, e: IterError): (r: Iter<S>)
    ensures r.error == Some(it.error.GetOr(e))
    ensures r.requestStats == it.requestStats
    ensures r.mergerCloses == it.mergerCloses + (if Active(it) then 1 else 0)
  {
    if Active(it) then it.(error := Some(e), mergerCloses := it.mergerCloses + 1) else it
  }

  /** `close`. */
  function Close<S>(it: Iter<S>): (r: Iter<S>)
    ensures !Active(r) && (ClosedOnce(it) ==> ClosedOnce(r))
    ensures Active(it) ==> r.error == Some(Stopped(true))
    ensures !Active(it) ==> r == it
  {
    FinishWithError(it, Stopped(true))
  }

  /** The iterator after a call, what the call returned or raised, and
      the merger output not consumed yet. */
  datatype Step<R, S> = Step(it: Iter<S>, result: Result<R, IterError>, rest: seq<Pull<R, S>>)

  /** Raising `e` from a call: `_finish_with_error(e)`, then `raise e`. */
  function Raising<R, S>(it: Iter<S>, e: IterError, rest: seq<Pull<R, S>>): (s: Step<R, S>)
    ensures s.result == Err(e) && s.rest == rest && !Active(s.it)
    ensures s.it.error == Some(it.error.GetOr(e))
    ensures ClosedOnce(it) ==> ClosedOnce(s.it)
  {
    Step(FinishWithError(it, e), Err(e), rest)
  }

  /** The cause group `__next__` builds for a `RetryError`, as intended:
      `RetryExceptionGroup(transient_errors)`. */
  function DeadlineCause(transient: seq<string>): (c: Option<Exceptions.Group<string>>)
    ensures c.Some? <==> |transient| > 0
    ensures c.Some? ==> c.value.exceptions == transient && c.value.message == Exceptions.RetryMessage(transient)
  {
    if |transient| > 0 then Some(Exceptions.Group(Exceptions.RetryMessage(transient), transient)) else None
  }

  /** What a call after a leading statistics message left unconsumed,
      seen from the whole pull sequence. */
  lemma StatsShift<R, S>(pulls: seq<Pull<R, S>>, rest: seq<Pull<R, S>>, yielded: bool)
    requires |pulls| > 0 && pulls[0].YieldStats?
    requires |rest| <= |pulls| - 1 && rest == pulls[1..][|pulls| - 1 - |rest|..]
    requires yielded ==> |rest| < |pulls| - 1 && forall k :: 0 <= k < |pulls| - 1 - |rest| - 1 ==> pulls[1..][k].YieldStats?
    ensures rest == pulls[|pulls| - |rest|..]
    ensures yielded ==> forall k :: 0 <= k < |pulls| - |rest| - 1 ==> pulls[k].YieldStats?
  {
    assert pulls[1..][|pulls| - 1 - |rest|..] == pulls[|pulls| - |rest|..];
    if yielded {
      forall k | 0 < k < |pulls| - |rest| - 1 ensures pulls[k].YieldStats? {
        assert pulls[k] == pulls[1..][k - 1];
      }
    }
  }

  /** `__next__`. As written (`asWritten`), a `RetryError` with transient
      errors makes the handler call the group with two arguments, and the
      resulting `TypeError` escapes that frame's handlers unlatched. After
      a statistics message the call recurses inside the `try`, so an
      error escaping the inner call reaches the outer frame's `except
      Exception`, which latches it and closes the merger. */
  function Next<R, S>(it: Iter<S>, pulls: seq<Pull<R, S>>, asWritten: bool): (s: Step<R, S>)
    ensures |s.rest| <= |pulls| && s.rest == pulls[|pulls| - |s.rest|..]
    ensures !Active(it) ==> s == Step(it, Err(it.error.value), pulls)
    ensures s.result.Ok? ==>
      |s.rest| < |pulls| && pulls[|pulls| - |s.rest| - 1] == Yield(s.result.value)
      && forall k :: 0 <= k < |pulls| - |s.rest| - 1 ==> pulls[k].YieldStats?
    ensures !asWritten ==> (s.result.Err? <==> !Active(s.it))
    ensures s.result.Err? && !Active(s.it) ==> s.it.error == Some(it.error.GetOr(s.result.error))
    ensures s.result.Err? && Active(s.it) <==>
      && asWritten && Active(it) && |pulls| > 0 && pulls[0].RetryExhausted? && |pulls[0].transient| > 0
    ensures s.result.Err? && Active(s.it) ==> s == Step(it, Err(TypeErrorRaised), pulls[1..])
    ensures ClosedOnce(it) ==> ClosedOnce(s.it)
    decreases |pulls|
  {
    if !Active(it) then Step(it, Err(it.error.value), pulls)
    else if |pulls| == 0 then
      Raising(it, Stopped(false), pulls)
    else
      match pulls[0]
      case Yield(row) => Step(it, Ok(row), pulls[1..])
      case YieldStats(st) =>
        var s := Next(it.(requestStats := Some(st)), pulls[1..], asWritten);
        StatsShift(pulls, s.rest, s.result.Ok?);
        if s.result.Err? && Active(s.it) then Raising(s.it, s.result.error, s.rest)
        else s
      case Raise(name) => Raising(it, Failed(name), pulls[1..])
      case RetryExhausted(transient) =>
        if asWritten && |transient| > 0 then Step(it, Err(TypeErrorRaised), pulls[1..])
        else Raising(it, Deadline(DeadlineCause(transient)), pulls[1..])
  }

  /** Once a call of the intended iterator raises, every later call
      raises the same error again without pulling from the merger. */
  lemma ErrorIsLatched<R, S>(it: Iter<S>, pulls: seq<Pull<R, S>>, later: seq<Pull<R, S>>)
    ensures var s := Next(it, pulls, false);
      s.result.Err? ==> Next(s.it, later, false) == Step(s.it, s.result, later)
  {
  }

  /** As written, a `RetryError` after a transient error that is the
      call's first pull surfaces as a `TypeError` and leaves the iterator
      active with its merger open; as intended it raises
      `DeadlineExceeded` caused by a one-element group and latches it. */
  lemma RetryErrorCounterexample()
    ensures var pulls: seq<Pull<int, int>> := [RetryExhausted(["ServiceUnavailable"])];
      var bad := Next(NewIter<int>(), pulls, true);
      var good := Next(NewIter<int>(), pulls, false);
      bad.result == Err(TypeErrorRaised) && Active(bad.it) && bad.it.mergerCloses == 0
      && good.result.Err? && good.result.error.Deadline? && good.result.error.cause.Some?
      && good.result.error.cause.value.message == "1 failed attempt: ServiceUnavailable"
      && !Active(good.it)
  {
    var pulls: seq<Pull<int, int>> := [RetryExhausted(["ServiceUnavailable"])];
    var it := NewIter<int>();
    assert pulls[0] == RetryExhausted(["ServiceUnavailable"]);
    assert Next(it, pulls, true) == Step(it, Err(TypeErrorRaised), pulls[1..]);
    var e := Deadline(DeadlineCause(["ServiceUnavailable"]));
    assert Next(it, pulls, false) == Step(FinishWithError(it, e), Err(e), pulls[1..]);
    OneAttemptMessage();
  }

  /** As written, the same `RetryError` after a statistics message is
      latched: the outer frame's handler stores the `TypeError` and
      closes the merger, and the statistics are kept. */
  lemma StatsThenRetryLatched()
    ensures var pulls: seq<Pull<int, int>> := [YieldStats(7), RetryExhausted(["ServiceUnavailable"])];
      var s := Next(NewIter<int>(), pulls, true);
      && s.result == Err(TypeErrorRaised) && !Active(s.it) && s.it.error == Some(TypeErrorRaised)
      && s.it.mergerCloses == 1 && s.it.requestStats == Some(7) && s.rest == []
  {
    var pulls: seq<Pull<int, int>> := [YieldStats(7), RetryExhausted(["ServiceUnavailable"])];
    var it := NewIter<int>();
    var it1 := it.(requestStats := Some(7));
    assert pulls[0] == YieldStats(7) && pulls[1..] == [RetryExhausted(["ServiceUnavailable"])];
    assert Next(it1, pulls[1..], true) == Step(it1, Err(TypeErrorRaised), []);
  }

  lemma OneAttemptMessage()
    ensures Exceptions.RetryMessage(["ServiceUnavailable"]) == "1 failed attempt: ServiceUnavailable"
  {
    assert |["ServiceUnavailable"]| == 1;
  }
}
