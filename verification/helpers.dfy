/** Request metadata, per-attempt timeouts and timeout validation
    (google/cloud/bigtable/_helpers.py, the `Table` constructor and
    `read_rows_stream` of google/cloud/bigtable/_sync_autogen.py, and the
    first channel-refresh delay of google/cloud/bigtable/client.py).
    Times are integers in a fixed unit; the clock is an explicit input. */
module Helpers {
  import opened Wrappers

  /** One gRPC metadata pair. */
  datatype Header = Header(key: string, value: string)

  const ParamsKey: string := "x-goog-request-params"

  /** The routing string: `table_name=T`, then `,app_profile_id=P` when
      a profile is given. */
  function ParamsString(tableName: string, appProfileId: Option<string>): string {
    if appProfileId.Some? then "table_name=" + tableName + ",app_profile_id=" + appProfileId.value
    else "table_name=" + tableName
  }

  /** `_make_metadata`: exactly one pair, keyed `x-goog-request-params`,
      whose value names the table and, when it is not `None`, the app
      profile. */
  function MakeMetadata(tableName: string, appProfileId: Option<string>): (md: seq<Header>)
    ensures |md| == 1 && md[0].key == ParamsKey
    ensures ',' !in tableName ==> ParseParams(md[0].value) == Some(Params(tableName, appProfileId))
  {
    assert ',' !in tableName ==> ParseParams(ParamsString(tableName, appProfileId)) == Some(Params(tableName, appProfileId)) by {
      if ',' !in tableName {
        ParamsRoundTrip(tableName, appProfileId);
      }
    }
    [Header(ParamsKey, ParamsString(tableName, appProfileId))]
  }

  /** The routing string of the older ReadRows retry path: the table name
      defaults to the empty string, and the profile is added only when it
      is truthy, that is present and non-empty. */
  function AutogenParamsString(tableName: Option<string>, appProfileId: Option<string>): string {
    ParamsString(tableName.GetOr(""), if appProfileId.Some? && appProfileId.value != "" then appProfileId else None)
  }

  /** The two routing strings differ exactly for an empty profile name,
      which `_make_metadata` sends and the older path leaves out. */
  lemma AutogenParamsAgree(tableName: string, appProfileId: Option<string>)
    ensures AutogenParamsString(Some(tableName), appProfileId) == ParamsString(tableName, appProfileId)
      <==> appProfileId != Some("")
  {
    if appProfileId == Some("") {
      assert |ParamsString(tableName, appProfileId)| > |AutogenParamsString(Some(tableName), appProfileId)|;
    }
  }

  /** What a routing string names. */
  datatype Params = Params(tableName: string, appProfileId: Option<string>)

  /** The text before the first comma, and what follows the comma if
      there is one. */
  datatype Split = Split(head: string, rest: Option<string>)

  function SplitAtComma(s: string): (sp: Split)
    ensures ',' !in sp.head
    ensures sp.rest.None? ==> sp.head == s
    ensures sp.rest.Some? ==> s == sp.head + "," + sp.rest.value
  {
    if |s| == 0 then Split("", None)
    else if s[0] == ',' then Split("", Some(s[1..]))
    else
      var sp := SplitAtComma(s[1..]);
      Split([s[0]] + sp.head, sp.rest)
  }

  lemma SplitAtCommaOf(head: string, rest: Option<string>)
    requires ',' !in head
    ensures SplitAtComma(if rest.Some? then head + "," + rest.value else head) == Split(head, rest)
  {
    if |head| > 0 {
      var s := if rest.Some? then head + "," + rest.value else head;
      assert s[1..] == if rest.Some? then head[1..] + "," + rest.value else head[1..];
      SplitAtCommaOf(head[1..], rest);
    } else if rest.Some? {
      assert ("" + "," + rest.value)[1..] == rest.value;
    }
  }

  /** Reads a routing string back. */
  function ParseParams(s: string): Option<Params> {
    if |s| < 11 || s[..11] != "table_name=" then None
    else
      var sp := SplitAtComma(s[11..]);
      if sp.rest.None? then Some(Params(sp.head, None))
      else if |sp.rest.value| >= 15 && sp.rest.value[..15] == "app_profile_id=" then Some(Params(sp.head, Some(sp.rest.value[15..])))
      else None
  }

  /** A table name without a comma (resource paths have none) is read
      back from the routing string together with the profile. */
  lemma ParamsRoundTrip(tableName: string, appProfileId: Option<string>)
    requires ',' !in tableName
    ensures ParseParams(ParamsString(tableName, appProfileId)) == Some(Params(tableName, appProfileId))
  {
    var s := ParamsString(tableName, appProfileId);
    var rest := if appProfileId.Some? then Some("app_profile_id=" + appProfileId.value) else None;
    assert s[11..] == if rest.Some? then tableName + "," + rest.value else tableName;
    SplitAtCommaOf(tableName, rest);
  }

  function Max(a: int, b: int): int {
    if a >= b then a else b
  }

  function Min(a: int, b: int): int {
    if a <= b then a else b
  }

  /** One value of `_attempt_timeout_generator` at clock `now`: the
      per-attempt timeout (the operation timeout when none is given),
      cut down to what is left before the deadline, and never negative.
      When both budgets are positive it is the largest timeout within
      both, so it equals one of them; otherwise it is zero. */
  function AttemptTimeout(attempt: Option<int>, operation: int, start: int, now: int): (t: int)
    ensures 0 <= t
    ensures attempt.GetOr(operation) >= 0 ==> t <= attempt.GetOr(operation)
    ensures now >= start + operation ==> t == 0
    ensures now + attempt.GetOr(operation) <= start + operation ==> t == Max(0, attempt.GetOr(operation))
    ensures t == 0 <==> attempt.GetOr(operation) <= 0 || now >= start + operation
    ensures t > 0 ==>
      && t <= attempt.GetOr(operation) && now + t <= start + operation
      && (t == attempt.GetOr(operation) || now + t == start + operation)
  {
    Max(0, Min(attempt.GetOr(operation), start + operation - now))
  }

  /** The values the generator yields at successive clock readings. */
  function AttemptTimeouts(attempt: Option<int>, operation: int, start: int, clocks: seq<int>): (ts: seq<int>)
    ensures |ts| == |clocks|
    ensures forall k :: 0 <= k < |ts| ==> ts[k] == AttemptTimeout(attempt, operation, start, clocks[k])
  {
    if |clocks| == 0 then [] else [AttemptTimeout(attempt, operation, start, clocks[0])] + AttemptTimeouts(attempt, operation, start, clocks[1..])
  }

  /** With a clock that never goes back, the yielded timeouts never grow. */
  lemma AttemptTimeoutsNonIncreasing(attempt: Option<int>, operation: int, start: int, clocks: seq<int>)
    requires forall k, l :: 0 <= k < l < |clocks| ==> clocks[k] <= clocks[l]
    ensures var ts := AttemptTimeouts(attempt, operation, start, clocks);
      forall k, l :: 0 <= k < l < |ts| ==> ts[k] >= ts[l]
  {
  }

  /** Python's `x or d` for an optional timeout: `None` and `0` fall back
      to the default. */
  function OrDefault(x: Option<int>, d: Option<int>): Option<int> {
    if x.Some? && x.value != 0 then x else d
  }

  datatype Timeouts = Timeouts(operation: int, attempt: int)

  /** The checks `read_rows_stream` and `_enhanced_gapic_call` make after
      falling back to the table's defaults; `attemptName` is the name the
      messages use for the per-attempt timeout. A missing per-attempt
      timeout becomes the operation timeout. */
  function ResolveTimeouts(operation: Option<int>, attempt: Option<int>, defaultOperation: int, defaultAttempt: Option<int>, attemptName: string): (r: Result<Timeouts, string>)
    ensures r.Ok? ==> 0 < r.value.attempt <= r.value.operation
    ensures r.Ok? ==> r.value.operation == OrDefault(operation, Some(defaultOperation)).value
    ensures r.Ok? ==> r.value.attempt == OrDefault(attempt, defaultAttempt).GetOr(r.value.operation)
    ensures r.Err? <==> (
      OrDefault(operation, Some(defaultOperation)).value <= 0
      || (OrDefault(attempt, defaultAttempt).Some? && !(0 < OrDefault(attempt, defaultAttempt).value <= OrDefault(operation, Some(defaultOperation)).value)))
  {
    var op := OrDefault(operation, Some(defaultOperation)).value;
    var at := OrDefault(attempt, defaultAttempt);
    if op <= 0 then Err("operation_timeout must be greater than 0")
    else if at.Some? && at.value <= 0 then Err(attemptName + " must be greater than 0")
    else if at.Some? && at.value > op then Err(attemptName + " must not be greater than operation_timeout")
    else Ok(Timeouts(op, at.GetOr(op)))
  }

  /** Resolving a resolved pair again changes nothing, whatever the
      defaults. */
  lemma ResolveTimeoutsIdempotent(operation: Option<int>, attempt: Option<int>, defaultOperation: int, defaultAttempt: Option<int>, name: string, d2: int, a2: Option<int>)
    requires ResolveTimeouts(operation, attempt, defaultOperation, defaultAttempt, name).Ok?
    ensures var t := ResolveTimeouts(operation, attempt, defaultOperation, defaultAttempt, name).value;
      ResolveTimeouts(Some(t.operation), Some(t.attempt), d2, a2, name) == Ok(t)
  {
  }

  /** What the synchronous `Table.__init__` raises. */
  datatype InitError = ValueError(message: string) | NotImplementedError(message: string)

  /** The message of every generated stub whose asynchronous original
      could not be generated. */
  const StubMessage: string := "Corresponding Async Function contains unhandled asyncio calls"

  /** The defaults `Table.__init__` accepts; unlike the call sites, no
      fallback applies here. */
  predicate ValidDefaults(defaultOperation: int, defaultPerRequest: Option<int>) {
    defaultOperation > 0 && (defaultPerRequest.Some? ==> 0 < defaultPerRequest.value <= defaultOperation)
  }

  /** `Table.__init__` of the synchronous surface: the first default that
      fails its check raises a `ValueError`; accepted defaults are stored
      and then the generated `__init__async__` stub raises, so no call
      ever returns a table. */
  function NewTable(defaultOperation: int, defaultPerRequest: Option<int>): (e: InitError)
    ensures e.NotImplementedError? <==> ValidDefaults(defaultOperation, defaultPerRequest)
    ensures e.NotImplementedError? ==> e.message == StubMessage
    ensures defaultOperation <= 0 ==> e.message == "default_operation_timeout must be greater than 0"
    ensures defaultOperation > 0 && defaultPerRequest.Some? && defaultPerRequest.value <= 0 ==>
      e.message == "default_per_request_timeout must be greater than 0"
    ensures 0 < defaultOperation < defaultPerRequest.GetOr(0) ==>
      e.message == "default_per_request_timeout must be less than default_operation_timeout"
  {
    if defaultOperation <= 0 then ValueError("default_operation_timeout must be greater than 0")
    else if defaultPerRequest.Some? && defaultPerRequest.value <= 0 then ValueError("default_per_request_timeout must be greater than 0")
    else if defaultPerRequest.Some? && defaultPerRequest.value > defaultOperation then
      ValueError("default_per_request_timeout must be less than default_operation_timeout")
    else NotImplementedError(StubMessage)
  }

  /** Defaults the constructor accepts never make a call that relies on
      them fail, and an explicit zero at the call site means "use the
      default". */
  lemma TableDefaultsResolve(defaultOperation: int, defaultPerRequest: Option<int>, attempt: Option<int>)
    requires ValidDefaults(defaultOperation, defaultPerRequest)
    ensures ResolveTimeouts(None, None, defaultOperation, defaultPerRequest, "per_request_timeout")
      == Ok(Timeouts(defaultOperation, defaultPerRequest.GetOr(defaultOperation)))
    ensures ResolveTimeouts(Some(0), attempt, defaultOperation, defaultPerRequest, "per_request_timeout")
      == ResolveTimeouts(None, attempt, defaultOperation, defaultPerRequest, "per_request_timeout")
  {
  }

  /** `_manage_channel`'s first sleep: the time left until
      `init + interval`, never negative. The first refresh therefore never
      comes before `init + interval`, and comes exactly then when that
      moment is still ahead. */
  function FirstSleep(initTime: int, refreshInterval: int, now: int): (s: int)
    ensures s >= 0 && now + s >= initTime + refreshInterval
    ensures now <= initTime + refreshInterval ==> now + s == initTime + refreshInterval
    ensures s == 0 <==> now >= initTime + refreshInterval
  {
    Max(initTime + refreshInterval - now, 0)
  }
}
