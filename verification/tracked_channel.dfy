/** The RPC counters of a pooled channel
    (google/cloud/bigtable/_channel_pooling/tracked_channel.py): how many
    RPCs are in flight, and the most that were in flight at once since the
    last reading. */
module TrackedChannel {
  import opened Wrappers

  /** `active_rpcs` and `max_active_rpcs`. */
  datatype Counters = Counters(active: int, maxActive: int)

  function Max(a: int, b: int): int {
    if a >= b then a else b
  }

  /** A fresh channel has nothing in flight. */
  function New(): (c: Counters)
    ensures Inv(c) && c.active == 0
  {
    Counters(0, 0)
  }

  /** Between calls, the counters are never negative and the recorded
      maximum covers what is in flight now. */
  predicate Inv(c: Counters) {
    0 <= c.active <= c.maxActive
  }

  /** Entering `track_rpc`: one more RPC in flight, and the maximum raised
      to it if needed. */
  function BeginRpc(c: Counters): (r: Counters)
    ensures r.active == c.active + 1
    ensures r.maxActive >= r.active && r.maxActive >= c.maxActive
    ensures r.maxActive == c.maxActive || r.maxActive == r.active
  {
    var a := c.active + 1;
    Counters(a, Max(c.maxActive, a))
  }

  /** Leaving `track_rpc`, and what the exit raises. As written
      (`asWritten`) the `finally` block calls `self.release()`, which the
      class does not have, so every exit raises `AttributeError` after the
      counter has been decremented; as intended nothing is raised. */
  datatype Exit = Exit(counters: Counters, raised: Option<string>)

  function EndRpc(c: Counters, asWritten: bool): (r: Exit)
    ensures r.counters.active == c.active - 1 && r.counters.maxActive == c.maxActive
    ensures r.raised.Some? <==> asWritten
  {
    Exit(Counters(c.active - 1, c.maxActive),
      if asWritten then Some("AttributeError: 'TrackedChannel' object has no attribute 'release'") else None)
  }

  /** `get_and_reset_max_active_rpcs`: the maximum is returned and starts
      again from what is in flight now. */
  datatype Reading = Reading(counters: Counters, peak: int)

  function GetAndReset(c: Counters): (r: Reading)
    ensures r.peak == c.maxActive
    ensures r.counters == Counters(c.active, c.active)
    ensures Inv(c) ==> Inv(r.counters) && r.peak >= r.counters.active
  {
    Reading(Counters(c.active, c.active), c.maxActive)
  }

  /** RPCs starting and finishing on the channel. */
  datatype Event = Begin | End

  /** The counters after a run of events, as the intended exit leaves them. */
  function Run(c: Counters, events: seq<Event>): Counters
    decreases |events|
  {
    if |events| == 0 then c
    else if events[0].Begin? then Run(BeginRpc(c), events[1..])
    else Run(EndRpc(c, false).counters, events[1..])
  }

  /** How many more RPCs started than finished. */
  function Balance(events: seq<Event>): int
    decreases |events|
  {
    if |events| == 0 then 0 else (if events[0].Begin? then 1 else -1) + Balance(events[1..])
  }

  /** The highest in-flight count during the events, starting from `a`. */
  function HighWater(a: int, events: seq<Event>): (h: int)
    ensures h >= a
    decreases |events|
  {
    if |events| == 0 then a
    else Max(a, HighWater(a + (if events[0].Begin? then 1 else -1), events[1..]))
  }

  /** No RPC finishes that did not start: the count never drops below 0. */
  predicate WellNested(a: int, events: seq<Event>)
    decreases |events|
  {
    if |events| == 0 then true
    else
      var next := a + (if events[0].Begin? then 1 else -1);
      next >= 0 && WellNested(next, events[1..])
  }

  /** After any run, the in-flight count is the balance of the events,
      and the recorded maximum is the highest count reached, or the
      earlier maximum if that was higher. Well-nested runs keep the
      invariant. */
  lemma {:induction false} RunCounts(c: Counters, events: seq<Event>)
    requires Inv(c)
    ensures Run(c, events).active == c.active + Balance(events)
    ensures Run(c, events).maxActive == Max(c.maxActive, HighWater(c.active, events))
    ensures WellNested(c.active, events) ==> Inv(Run(c, events))
    decreases |events|
  {
    if |events| > 0 {
      var c1 := if events[0].Begin? then BeginRpc(c) else EndRpc(c, false).counters;
      if c1.active >= 0 {
        RunCounts(c1, events[1..]);
      } else {
        RunCountsFromNegative(c1, events[1..]);
      }
    }
  }

  /** The same counting, for a run that has already gone below zero
      (which a well-nested run never does). */
  lemma {:induction false} RunCountsFromNegative(c: Counters, events: seq<Event>)
    requires c.active <= c.maxActive
    ensures Run(c, events).active == c.active + Balance(events)
    ensures Run(c, events).maxActive == Max(c.maxActive, HighWater(c.active, events))
    decreases |events|
  {
    if |events| > 0 {
      var c1 := if events[0].Begin? then BeginRpc(c) else EndRpc(c, false).counters;
      RunCountsFromNegative(c1, events[1..]);
    }
  }

  /** What the pool reads from a channel is the highest number of RPCs in
      flight at once since the previous reading. */
  lemma ReadingIsPeakSinceReset(c: Counters, events: seq<Event>)
    requires Inv(c)
    ensures var r := GetAndReset(c).counters;
      GetAndReset(Run(r, events)).peak == HighWater(c.active, events)
  {
    RunCounts(GetAndReset(c).counters, events);
  }

  /** The outcome of a unary call made through the channel: its own
      result, or the exception the exit raised instead. */
  datatype CallError<E> = RpcError(error: E) | ExitError(message: string)

  datatype Call<R, E> = Call(counters: Counters, result: Result<R, CallError<E>>)

  /** `_wrapped_unary`: the call runs inside `track_rpc`. An exception from
      the exit replaces whatever the call returned or raised. */
  function WrappedUnary<R, E>(c: Counters, outcome: Result<R, E>, asWritten: bool): (r: Call<R, E>)
    ensures r.counters.active == c.active && r.counters.maxActive == Max(c.maxActive, c.active + 1)
    ensures asWritten ==> r.result.Err? && r.result.error.ExitError?
    ensures !asWritten ==> r.result == (if outcome.Ok? then Ok(outcome.value) else Err(RpcError(outcome.error)))
  {
    var exit := EndRpc(BeginRpc(c), asWritten);
    var result: Result<R, CallError<E>> :=
      if exit.raised.Some? then Err(ExitError(exit.raised.value))
      else if outcome.Ok? then Ok(outcome.value) else Err(RpcError(outcome.error));
    Call(exit.counters, result)
  }

  /** A call that succeeds on the server fails for its caller as written. */
  lemma ReleaseCounterexample()
    ensures WrappedUnary<int, string>(New(), Ok(7), true).result.Err?
    ensures WrappedUnary<int, string>(New(), Ok(7), false).result == Ok(7)
    ensures WrappedUnary<int, string>(New(), Ok(7), true).counters == Counters(0, 1)
  {
  }
}
