/** The life of one metrics-tracked operation
    (google/cloud/bigtable/data/_metrics/data_model.py): an operation is
    created, runs attempts one at a time, and completes once. Calls made in
    the wrong state are logged and change nothing. Clocks are given as
    integer milliseconds; what the handlers are told is returned as a list
    of notices. */
module MetricsOperation {
  import opened Wrappers
  import StatusCodes

  /** `DEFAULT_ZONE` and `DEFAULT_CLUSTER_ID`. */
  const DefaultZone: string := "global"
  const DefaultClusterId: string := "unspecified"

  datatype OperationType = ReadRows | SampleRowKeys | BulkMutateRows | MutateRow | CheckAndMutate | ReadModifyWrite

  datatype State = Created | ActiveAttempt | BetweenAttempts | Completed

  /** How the state prints inside a log message. */
  function StateName(s: State): string {
    match s
    case Created => "OperationState.CREATED"
    case ActiveAttempt => "OperationState.ACTIVE_ATTEMPT"
    case BetweenAttempts => "OperationState.BETWEEN_ATTEMPTS"
    case Completed => "OperationState.COMPLETED"
  }

  /** `ActiveAttemptMetric`. */
  datatype Attempt = Attempt(start: int, firstResponseLatency: Option<int>, gfeLatency: Option<int>, backoffBefore: int)

  /** `CompletedAttemptMetric`. */
  datatype CompletedAttempt = CompletedAttempt(
    start: int, duration: int, endStatus: nat,
    firstResponseLatency: Option<int>, gfeLatency: Option<int>, backoffBefore: int)

  /** `ActiveOperationMetric`. */
  datatype Operation = Operation(
    opType: OperationType,
    start: int,
    active: Option<Attempt>,
    clusterId: Option<string>,
    zone: Option<string>,
    completed: seq<CompletedAttempt>,
    isStreaming: bool,
    wasCompleted: bool)

  /** `CompletedOperationMetric`. */
  datatype CompletedOperation = CompletedOperation(
    opType: OperationType, start: int, duration: int, attempts: seq<CompletedAttempt>,
    finalStatus: nat, clusterId: string, zone: string, isStreaming: bool)

  /** What every handler is told: `on_attempt_complete` or
      `on_operation_complete`. */
  datatype Notice = AttemptDone(attempt: CompletedAttempt) | OperationDone(operation: CompletedOperation)

  /** The operation after a call, the warnings it logged, and the notices
      it sent. */
  datatype Step = Step(op: Operation, warnings: seq<string>, notices: seq<Notice>)

  /** The `state` property: completion wins, then an attempt in progress,
      then whether any attempt has finished. */
  function StateOf(op: Operation): (s: State)
    ensures s == Completed <==> op.wasCompleted
    ensures s == ActiveAttempt <==> !op.wasCompleted && op.active.Some?
    ensures s == BetweenAttempts <==> !op.wasCompleted && op.active.None? && |op.completed| > 0
    ensures s == Created <==> !op.wasCompleted && op.active.None? && |op.completed| == 0
  {
    if op.wasCompleted then Completed
    else if op.active.None? then (if |op.completed| > 0 then BetweenAttempts else Created)
    else ActiveAttempt
  }

  /** What holds between calls: a completed operation has no attempt in
      progress, and a known cluster or zone is never empty. */
  predicate Inv(op: Operation) {
    (op.wasCompleted ==> op.active.None?)
    && (op.clusterId.Some? ==> op.clusterId.value != "")
    && (op.zone.Some? ==> op.zone.value != "")
  }

  /** A new operation, started at `now`. */
  function NewOperation(opType: OperationType, now: int, isStreaming: bool): (op: Operation)
    ensures Inv(op) && StateOf(op) == Created && op.start == now
  {
    Operation(opType, now, None, None, None, [], isStreaming, false)
  }

  /** `_handle_error`: the message as logged. */
  function HandleError(message: string): string {
    "Error in Bigtable Metrics: " + message
  }

  function InvalidState(call: string, s: State): string {
    HandleError("Invalid state for " + call + ": " + StateName(s))
  }

  /** A call refused in the current state: logged, nothing else. */
  function Refuse(op: Operation, call: string): Step {
    Step(op, [InvalidState(call, StateOf(op))], [])
  }

  /** An exception as `_exc_to_status` inspects it: a gRPC status code if
      it carries one, and its `__cause__`. A Bigtable exception group is
      never empty, so it is written as its earlier members and its last. */
  datatype Exc =
    | Raised(grpcStatus: Option<nat>, cause: Option<Exc>)
    | Grouped(earlier: seq<Exc>, last: Exc, cause: Option<Exc>)

  /** The code an exception carries itself; a group carries none. */
  function CodeOf(e: Exc): Option<nat> {
    if e.Raised? then e.grpcStatus else None
  }

  /** `_exc_to_status`: a group is replaced by its last member; then the
      exception's own code, else its cause's, else `UNKNOWN`. */
  function ExcToStatus(exc: Exc): (code: nat)
    ensures exc.Raised? && exc.grpcStatus.Some? ==> code == exc.grpcStatus.value
    ensures exc.Raised? && exc.grpcStatus.None? && exc.cause.Some? && CodeOf(exc.cause.value).Some? ==>
      code == CodeOf(exc.cause.value).value
    ensures exc.Raised? && exc.grpcStatus.None? && (exc.cause.None? || CodeOf(exc.cause.value).None?) ==>
      code == StatusCodes.Unknown
    ensures exc.Grouped? && exc.last.Raised? ==> code == ExcToStatus(exc.last)
    ensures exc.Grouped? && exc.last.Grouped? ==>
      code == (if exc.last.cause.Some? && CodeOf(exc.last.cause.value).Some? then CodeOf(exc.last.cause.value).value
               else StatusCodes.Unknown)
  {
    var e := if exc.Grouped? then exc.last else exc;
    if CodeOf(e).Some? then CodeOf(e).value
    else if e.cause.Some? && CodeOf(e.cause.value).Some? then CodeOf(e.cause.value).value
    else StatusCodes.Unknown
  }

  /** A status argument: a status code, or an exception to take it from. */
  datatype StatusArg = Code(code: nat) | Exception(exc: Exc)

  function StatusOf(status: StatusArg): nat {
    if status.Code? then status.code else ExcToStatus(status.exc)
  }

  /** `start`: only a created operation restarts its clock. */
  function Start(op: Operation, now: int): (r: Step)
    ensures StateOf(op) == Created ==>
      StateOf(r.op) == Created && r.op.start == now && r.op.(start := op.start) == op
      && r.warnings == [] && r.notices == []
    ensures StateOf(op) != Created ==>
      r.op == op && r.warnings == [InvalidState("start", StateOf(op))] && r.notices == []
  {
    if StateOf(op) != Created then Refuse(op, "start")
    else Step(op.(start := now), [], [])
  }

  /** The backoff recorded for a new attempt: the generator is sent the
      number of the attempt that just failed (counting from 0), and its
      seconds become milliseconds; the first attempt, or one without a
      generator, waited 0. */
  function Backoff(op: Operation, generator: Option<nat -> int>): (ms: int)
    ensures generator.None? || |op.completed| == 0 ==> ms == 0
    ensures generator.Some? && |op.completed| > 0 ==> ms == generator.value(|op.completed| - 1) * 1000
  {
    if generator.Some? && |op.completed| > 0 then generator.value(|op.completed| - 1) * 1000 else 0
  }

  /** `start_attempt`: from CREATED or BETWEEN_ATTEMPTS, a new attempt with
      its backoff. */
  function StartAttempt(op: Operation, now: int, generator: Option<nat -> int>): (r: Step)
    ensures StateOf(op) !in {Created, BetweenAttempts} ==>
      r.op == op && r.warnings == [InvalidState("start_attempt", StateOf(op))] && r.notices == []
    ensures StateOf(op) in {Created, BetweenAttempts} ==>
      StateOf(r.op) == ActiveAttempt && r.op.(active := op.active) == op
      && r.op.active.value.start == now && r.op.active.value.backoffBefore == Backoff(op, generator)
      && r.op.active.value.firstResponseLatency.None? && r.op.active.value.gfeLatency.None?
      && r.warnings == [] && r.notices == []
  {
    if StateOf(op) != BetweenAttempts && StateOf(op) != Created then Refuse(op, "start_attempt")
    else Step(op.(active := Some(Attempt(now, None, None, Backoff(op, generator)))), [], [])
  }

  /** The trailing metadata of an attempt, already parsed: the routing
      blob (missing or empty is `None`; `Undecodable` when the proto does
      not parse) and the `gfet4t7` duration of the `server-timing` header
      when that header matches. */
  datatype Blob = Decoded(cluster: string, zone: string) | Undecodable
  datatype Metadata = Metadata(blob: Option<Blob>, serverTiming: Option<int>)

  /** The cluster and zone after reading a blob: only while one of them is
      unknown, and only to non-empty values. */
  function Locate(op: Operation, blob: Option<Blob>): Step {
    if (op.clusterId.Some? && op.zone.Some?) || blob.None? then Step(op, [], [])
    else if blob.value.Undecodable? then
      Step(op, [HandleError("Failed to decode x-goog-ext-425905942-bin metadata")], [])
    else
      var b := blob.value;
      Step(op.(clusterId := if b.cluster != "" then Some(b.cluster) else op.clusterId,
               zone := if b.zone != "" then Some(b.zone) else op.zone), [], [])
  }

  /** `add_response_metadata`: in ACTIVE_ATTEMPT, learn the cluster and
      zone while they are unknown, and the attempt's server latency. */
  function AddResponseMetadata(op: Operation, md: Metadata): (r: Step)
    ensures StateOf(op) != ActiveAttempt ==> r == Refuse(op, "add_response_metadata")
    ensures r.notices == [] && r.op.completed == op.completed && r.op.wasCompleted == op.wasCompleted
    ensures r.op.active.Some? == op.active.Some?
    ensures op.clusterId.Some? && op.zone.Some? ==> r.op.clusterId == op.clusterId && r.op.zone == op.zone
    ensures r.op.clusterId != op.clusterId ==> (md.blob.Some? && md.blob.value.Decoded?
      && r.op.clusterId == Some(md.blob.value.cluster) && md.blob.value.cluster != "")
    ensures r.op.zone != op.zone ==> (md.blob.Some? && md.blob.value.Decoded?
      && r.op.zone == Some(md.blob.value.zone) && md.blob.value.zone != "")
    ensures StateOf(op) == ActiveAttempt && md.serverTiming.Some? ==> r.op.active.value.gfeLatency == md.serverTiming
  {
    if StateOf(op) != ActiveAttempt then Refuse(op, "add_response_metadata")
    else
      var located := Locate(op, md.blob);
      var a := located.op.active.value;
      var op2 := if md.serverTiming.Some? then located.op.(active := Some(a.(gfeLatency := md.serverTiming))) else located.op;
      Step(op2, located.warnings, [])
  }

  /** `attempt_first_response`: the latency of the first response is
      recorded once per attempt; a second call is logged and ignored. */
  function AttemptFirstResponse(op: Operation, now: int): (r: Step)
    ensures StateOf(op) != ActiveAttempt ==>
      r.op == op && r.warnings == [InvalidState("attempt_first_response", StateOf(op))] && r.notices == []
    ensures StateOf(op) == ActiveAttempt && op.active.value.firstResponseLatency.Some? ==>
      r.op == op && r.warnings == [HandleError("Attempt already received first response")] && r.notices == []
    ensures StateOf(op) == ActiveAttempt && op.active.value.firstResponseLatency.None? ==>
      StateOf(r.op) == ActiveAttempt && r.op.(active := op.active) == op
      && r.op.active.value.firstResponseLatency == Some(now - op.active.value.start)
      && r.op.active.value.(firstResponseLatency := None) == op.active.value
      && r.warnings == [] && r.notices == []
  {
    if StateOf(op) != ActiveAttempt || op.active.None? then Refuse(op, "attempt_first_response")
    else if op.active.value.firstResponseLatency.Some? then Step(op, [HandleError("Attempt already received first response")], [])
    else Step(op.(active := Some(op.active.value.(firstResponseLatency := Some(now - op.active.value.start)))), [], [])
  }

  /** `end_attempt_with_status`: in ACTIVE_ATTEMPT the attempt is
      completed with the status, appended, reported, and cleared. */
  function EndAttemptWithStatus(op: Operation, status: StatusArg, now: int): (r: Step)
    ensures StateOf(op) != ActiveAttempt ==>
      r.op == op && r.warnings == [InvalidState("end_attempt_with_status", StateOf(op))] && r.notices == []
    ensures StateOf(op) == ActiveAttempt ==>
      StateOf(r.op) == BetweenAttempts
      && |r.op.completed| == |op.completed| + 1 && r.op.completed[..|op.completed|] == op.completed
      && r.op.(completed := op.completed, active := op.active) == op
      && r.warnings == [] && r.notices == [AttemptDone(r.op.completed[|op.completed|])]
    ensures StateOf(op) == ActiveAttempt ==>
      var a, done := op.active.value, r.op.completed[|op.completed|];
      done.start == a.start && done.duration == now - a.start && done.endStatus == StatusOf(status)
      && done.firstResponseLatency == a.firstResponseLatency && done.gfeLatency == a.gfeLatency
      && done.backoffBefore == a.backoffBefore
  {
    if StateOf(op) != ActiveAttempt || op.active.None? then Refuse(op, "end_attempt_with_status")
    else
      var a := op.active.value;
      var done := CompletedAttempt(a.start, now - a.start, StatusOf(status), a.firstResponseLatency, a.gfeLatency, a.backoffBefore);
      Step(op.(completed := op.completed + [done], active := None), [], [AttemptDone(done)])
  }

  /** Python's `x or default` on an optional string. */
  function OrDefault(x: Option<string>, default: string): (s: string)
    ensures x.Some? && x.value != "" ==> s == x.value
    ensures x.None? ==> s == default
  {
    if x.Some? && x.value != "" then x.value else default
  }

  /** `end_with_status`: unless already completed, end the attempt in
      progress with the same status, mark the operation completed, and
      report it with every attempt and the default cluster and zone where
      they are unknown. */
  function EndWithStatus(op: Operation, status: StatusArg, now: int): (r: Step)
    ensures StateOf(op) == Completed ==>
      r.op == op && r.warnings == [InvalidState("end_with_status", StateOf(op))] && r.notices == []
    ensures StateOf(op) != Completed ==>
      StateOf(r.op) == Completed && r.op.active.None? && r.warnings == []
      && r.op.clusterId == op.clusterId && r.op.zone == op.zone
      && |r.notices| == (if StateOf(op) == ActiveAttempt then 2 else 1)
      && r.notices[|r.notices| - 1].OperationDone?
    ensures StateOf(op) != Completed ==>
      var fin := r.notices[|r.notices| - 1].operation;
      fin.opType == op.opType && fin.start == op.start && fin.duration == now - op.start
      && fin.attempts == r.op.completed && fin.finalStatus == StatusOf(status) && fin.isStreaming == op.isStreaming
      && fin.clusterId == OrDefault(op.clusterId, DefaultClusterId) && fin.zone == OrDefault(op.zone, DefaultZone)
    ensures StateOf(op) == ActiveAttempt ==>
      |r.op.completed| == |op.completed| + 1 && r.op.completed[..|op.completed|] == op.completed
      && r.op.completed[|op.completed|].endStatus == StatusOf(status)
      && r.notices[0] == AttemptDone(r.op.completed[|op.completed|])
    ensures StateOf(op) in {Created, BetweenAttempts} ==> r.op.completed == op.completed
  {
    if StateOf(op) == Completed then Refuse(op, "end_with_status")
    else
      var final := StatusOf(status);
      var ended := if StateOf(op) == ActiveAttempt then EndAttemptWithStatus(op, Code(final), now) else Step(op, [], []);
      var op2 := ended.op.(wasCompleted := true);
      var fin := CompletedOperation(op.opType, op.start, now - op.start, op2.completed, final,
                                    OrDefault(op2.clusterId, DefaultClusterId), OrDefault(op2.zone, DefaultZone), op.isStreaming);
      Step(op2, ended.warnings, ended.notices + [OperationDone(fin)])
  }

  /** `end_with_success`. */
  function EndWithSuccess(op: Operation, now: int): (r: Step)
    ensures r == EndWithStatus(op, Code(StatusCodes.Ok), now)
    ensures StateOf(op) != Completed ==> r.notices[|r.notices| - 1].operation.finalStatus == StatusCodes.Ok
  {
    EndWithStatus(op, Code(StatusCodes.Ok), now)
  }

  /** The predicate `build_wrapped_predicate` returns, applied to `exc`
      with the inner predicate's verdict `retryable`: a retryable error
      ends the attempt, any other ends the operation; the verdict is
      passed through. */
  datatype Predicated = Predicated(step: Step, verdict: bool)

  function WrappedPredicate(op: Operation, retryable: bool, exc: Exc, now: int): (r: Predicated)
    ensures r.verdict == retryable
    ensures StateOf(op) == ActiveAttempt ==>
      StateOf(r.step.op) == (if retryable then BetweenAttempts else Completed)
      && |r.step.op.completed| == |op.completed| + 1 && r.step.op.completed[..|op.completed|] == op.completed
      && r.step.op.completed[|op.completed|].endStatus == ExcToStatus(exc)
    ensures retryable && StateOf(op) != ActiveAttempt ==> r.step.op == op && |r.step.warnings| == 1
    ensures !retryable && StateOf(op) != Completed ==>
      StateOf(r.step.op) == Completed && |r.step.notices| > 0 && r.step.notices[|r.step.notices| - 1].OperationDone?
      && r.step.notices[|r.step.notices| - 1].operation.finalStatus == ExcToStatus(exc)
    ensures !retryable && StateOf(op) == Completed ==> r.step.op == op && |r.step.warnings| == 1
  {
    if retryable then Predicated(EndAttemptWithStatus(op, Exception(exc), now), true)
    else Predicated(EndWithStatus(op, Exception(exc), now), false)
  }

  /** One call on the operation. */
  datatype Action =
    | StartOp(now: int)
    | StartAttemptAt(now: int, generator: Option<nat -> int>)
    | AddMetadata(md: Metadata)
    | FirstResponse(now: int)
    | EndAttempt(status: StatusArg, now: int)
    | EndOperation(status: StatusArg, now: int)

  function Apply(op: Operation, a: Action): Step {
    match a
    case StartOp(now) => Start(op, now)
    case StartAttemptAt(now, g) => StartAttempt(op, now, g)
    case AddMetadata(md) => AddResponseMetadata(op, md)
    case FirstResponse(now) => AttemptFirstResponse(op, now)
    case EndAttempt(status, now) => EndAttemptWithStatus(op, status, now)
    case EndOperation(status, now) => EndWithStatus(op, status, now)
  }

  /** The states in which each call is accepted. */
  predicate Allowed(s: State, a: Action) {
    match a
    case StartOp(_) => s == Created
    case StartAttemptAt(_, _) => s == Created || s == BetweenAttempts
    case AddMetadata(_) => s == ActiveAttempt
    case FirstResponse(_) => s == ActiveAttempt
    case EndAttempt(_, _) => s == ActiveAttempt
    case EndOperation(_, _) => s != Completed
  }

  /** The state each accepted call leads to. */
  function Next(s: State, a: Action): State {
    match a
    case StartOp(_) => s
    case StartAttemptAt(_, _) => ActiveAttempt
    case AddMetadata(_) => s
    case FirstResponse(_) => s
    case EndAttempt(_, _) => BetweenAttempts
    case EndOperation(_, _) => Completed
  }

  /** The transition table: an accepted call moves to `Next`; a refused
      one logs exactly one warning and changes nothing. */
  lemma Transitions(op: Operation, a: Action)
    requires Inv(op)
    ensures var r := Apply(op, a);
      (Allowed(StateOf(op), a) ==> StateOf(r.op) == Next(StateOf(op), a))
      && (!Allowed(StateOf(op), a) ==> r.op == op && |r.warnings| == 1 && r.notices == [])
  {
  }

  /** The completed attempts the notices report. */
  function AttemptsReported(ns: seq<Notice>): (attempts: seq<CompletedAttempt>)
    ensures |attempts| <= |ns|
  {
    if |ns| == 0 then []
    else (if ns[0].AttemptDone? then [ns[0].attempt] else []) + AttemptsReported(ns[1..])
  }

  /** How many times the operation is reported complete. */
  function CompletionsReported(ns: seq<Notice>): nat {
    if |ns| == 0 then 0
    else (if ns[0].OperationDone? then 1 else 0) + CompletionsReported(ns[1..])
  }

  lemma {:induction false} ReportedAppend(a: seq<Notice>, b: seq<Notice>)
    ensures AttemptsReported(a + b) == AttemptsReported(a) + AttemptsReported(b)
    ensures CompletionsReported(a + b) == CompletionsReported(a) + CompletionsReported(b)
  {
    if |a| == 0 {
      assert a + b == b;
    } else {
      assert (a + b)[0] == a[0];
      assert (a + b)[1..] == a[1..] + b;
      ReportedAppend(a[1..], b);
    }
  }

  /** What a call or a run from `op` to `r` keeps of the record: the
      invariant holds, attempts are only appended, the appended attempts
      are exactly those reported, completion is reported exactly when it
      happens, and a completed operation stays as it is. */
  predicate Reports(op: Operation, r: Step) {
    && Inv(r.op)
    && op.completed <= r.op.completed
    && AttemptsReported(r.notices) == r.op.completed[|op.completed|..]
    && CompletionsReported(r.notices) == (if !op.wasCompleted && r.op.wasCompleted then 1 else 0)
    && (op.wasCompleted ==> r.op == op && r.notices == [])
  }

  /** Once known, the cluster and zone are kept. */
  predicate KeepsLocation(op: Operation, r: Step) {
    op.clusterId.Some? && op.zone.Some? ==> r.op.clusterId == op.clusterId && r.op.zone == op.zone
  }

  /** What one call does to the record: it is kept, and at most one
      attempt is appended. */
  lemma ApplyKeepsRecord(op: Operation, a: Action)
    requires Inv(op)
    ensures var r := Apply(op, a);
      Reports(op, r) && |r.op.completed| <= |op.completed| + 1
  {
    match a
    case StartOp(now) => StartReports(op, now);
    case StartAttemptAt(now, g) => StartAttemptReports(op, now, g);
    case AddMetadata(md) => MetadataReports(op, md);
    case FirstResponse(now) => FirstResponseReports(op, now);
    case EndAttempt(status, now) => EndAttemptReports(op, status, now);
    case EndOperation(status, now) => EndWithStatusReports(op, status, now);
  }

  /** A call that sends nothing and leaves the attempts and completion
      alone keeps the record. */
  lemma QuietReports(op: Operation, r: Step)
    requires Inv(r.op) && r.notices == [] && r.op.completed == op.completed && r.op.wasCompleted == op.wasCompleted
    requires op.wasCompleted ==> r.op == op
    ensures Reports(op, r)
  {
  }

  lemma StartReports(op: Operation, now: int)
    requires Inv(op)
    ensures var r := Start(op, now); Reports(op, r) && r.op.completed == op.completed
  {
    QuietReports(op, Start(op, now));
  }

  lemma StartAttemptReports(op: Operation, now: int, g: Option<nat -> int>)
    requires Inv(op)
    ensures var r := StartAttempt(op, now, g); Reports(op, r) && r.op.completed == op.completed
  {
    QuietReports(op, StartAttempt(op, now, g));
  }

  lemma MetadataReports(op: Operation, md: Metadata)
    requires Inv(op)
    ensures var r := AddResponseMetadata(op, md); Reports(op, r) && r.op.completed == op.completed
  {
    QuietReports(op, AddResponseMetadata(op, md));
  }

  lemma FirstResponseReports(op: Operation, now: int)
    requires Inv(op)
    ensures var r := AttemptFirstResponse(op, now); Reports(op, r) && r.op.completed == op.completed
  {
    QuietReports(op, AttemptFirstResponse(op, now));
  }

  lemma EndAttemptReports(op: Operation, status: StatusArg, now: int)
    requires Inv(op)
    ensures var r := EndAttemptWithStatus(op, status, now);
      Reports(op, r) && |r.op.completed| <= |op.completed| + 1
  {
    var r := EndAttemptWithStatus(op, status, now);
    if StateOf(op) == ActiveAttempt {
      assert r.op.completed[|op.completed|..] == [r.op.completed[|op.completed|]];
      assert AttemptsReported(r.notices) == [r.op.completed[|op.completed|]];
    }
  }

  lemma EndWithStatusReports(op: Operation, status: StatusArg, now: int)
    requires Inv(op)
    ensures var r := EndWithStatus(op, status, now);
      Reports(op, r) && |r.op.completed| <= |op.completed| + 1
  {
    var r := EndWithStatus(op, status, now);
    if StateOf(op) != Completed {
      var ended := if StateOf(op) == ActiveAttempt then EndAttemptWithStatus(op, Code(StatusOf(status)), now) else Step(op, [], []);
      EndAttemptReports(op, Code(StatusOf(status)), now);
      var last := r.notices[|r.notices| - 1];
      assert r.notices == ended.notices + [last];
      ReportedAppend(ended.notices, [last]);
      assert AttemptsReported([last]) == [] && CompletionsReported([last]) == 1;
    }
  }

  lemma ApplyKeepsLocation(op: Operation, a: Action)
    ensures KeepsLocation(op, Apply(op, a))
  {
    match a
    case StartOp(now) =>
    case StartAttemptAt(now, g) =>
    case AddMetadata(md) =>
    case FirstResponse(now) =>
    case EndAttempt(status, now) =>
    case EndOperation(status, now) =>
  }

  /** A sequence of calls, collecting warnings and notices in order. */
  function Run(op: Operation, actions: seq<Action>): (r: Step)
    decreases |actions|
  {
    if |actions| == 0 then Step(op, [], [])
    else
      var s := Apply(op, actions[0]);
      var rest := Run(s.op, actions[1..]);
      Step(rest.op, s.warnings + rest.warnings, s.notices + rest.notices)
  }

  /** A call that keeps the record followed by a run that does keeps it. */
  lemma ReportsThen(op: Operation, s: Step, rest: Step)
    requires Reports(op, s) && Reports(s.op, rest)
    ensures Reports(op, Step(rest.op, s.warnings + rest.warnings, s.notices + rest.notices))
  {
    ReportedAppend(s.notices, rest.notices);
    assert s.op.completed[|op.completed|..] + rest.op.completed[|s.op.completed|..] == rest.op.completed[|op.completed|..];
  }

  /** Over any sequence of calls, the handlers hear of every completed
      attempt exactly once and in order, and of the operation's completion
      at most once: exactly when the run completes it. */
  lemma {:induction false} RunReportsEachOnce(op: Operation, actions: seq<Action>)
    requires Inv(op)
    ensures Reports(op, Run(op, actions))
    decreases |actions|
  {
    if |actions| > 0 {
      var s := Apply(op, actions[0]);
      ApplyKeepsRecord(op, actions[0]);
      RunReportsEachOnce(s.op, actions[1..]);
      ReportsThen(op, s, Run(s.op, actions[1..]));
    }
  }

  /** Once metadata has named both the cluster and the zone, no later call
      changes them. */
  lemma {:induction false} LocationIsSticky(op: Operation, actions: seq<Action>)
    requires op.clusterId.Some? && op.zone.Some?
    ensures var r := Run(op, actions);
      r.op.clusterId == op.clusterId && r.op.zone == op.zone
    decreases |actions|
  {
    if |actions| > 0 {
      var s := Apply(op, actions[0]);
      ApplyKeepsLocation(op, actions[0]);
      LocationIsSticky(s.op, actions[1..]);
    }
  }

  /** The completed operation names the cluster and zone learned, and
      the defaults when none was learned. */
  lemma CompletionLocation(op: Operation, status: StatusArg, now: int)
    requires Inv(op) && StateOf(op) != Completed
    ensures var fin := EndWithStatus(op, status, now).notices[|EndWithStatus(op, status, now).notices| - 1].operation;
      (fin.clusterId == if op.clusterId.Some? then op.clusterId.value else DefaultClusterId)
      && (fin.zone == if op.zone.Some? then op.zone.value else DefaultZone)
      && fin.attempts == EndWithStatus(op, status, now).op.completed
  {
  }

  /** Ending an operation in ACTIVE_ATTEMPT appends exactly one attempt,
      with the operation's final status; from the other open states no
      attempt is appended. */
  lemma EndWithStatusAttempts(op: Operation, status: StatusArg, now: int)
    requires StateOf(op) != Completed
    ensures var r := EndWithStatus(op, status, now);
      (StateOf(op) == ActiveAttempt ==>
        (|r.op.completed| == |op.completed| + 1 && r.op.completed[|op.completed|].endStatus == StatusOf(status)))
      && (StateOf(op) != ActiveAttempt ==> r.op.completed == op.completed)
      && StateOf(r.op) == Completed
  {
  }

  /** The first response is recorded at most once per attempt: a second
      call keeps the first latency. */
  lemma FirstResponseOnce(op: Operation, t1: int, t2: int)
    requires StateOf(op) == ActiveAttempt && op.active.value.firstResponseLatency.None?
    ensures var once := AttemptFirstResponse(op, t1).op;
      var twice := AttemptFirstResponse(once, t2);
      twice.op == once && twice.warnings == [HandleError("Attempt already received first response")]
      && once.active.value.firstResponseLatency == Some(t1 - op.active.value.start)
  {
  }

  /** The wrapped predicate leaves an attempt in progress between attempts
      when the error is retryable, and completes the operation otherwise. */
  lemma WrappedPredicateStates(op: Operation, retryable: bool, exc: Exc, now: int)
    requires StateOf(op) == ActiveAttempt
    ensures var r := WrappedPredicate(op, retryable, exc, now);
      StateOf(r.step.op) == (if retryable then BetweenAttempts else Completed)
      && |r.step.op.completed| == |op.completed| + 1
      && r.step.op.completed[|op.completed|].endStatus == ExcToStatus(exc)
  {
  }

  /** A group is judged by its last member alone, whatever the other
      members and the group's own cause; a group nested as the
      last member hides the codes inside it. */
  lemma ExcToStatusOfGroups(e: Exc, earlier: seq<Exc>, cause: Option<Exc>)
    ensures !e.Grouped? ==> ExcToStatus(Grouped(earlier, e, cause)) == ExcToStatus(e)
    ensures var inner := Grouped([], Raised(Some(StatusCodes.ServiceUnavailable), None), None);
      ExcToStatus(inner) == StatusCodes.ServiceUnavailable
      && ExcToStatus(Grouped([], inner, None)) == StatusCodes.Unknown
  {
  }
}
