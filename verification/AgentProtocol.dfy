/** The Agent's delivery protocol as a state machine: two poll loops, the report loop, the bounded
    queue, the send workers and Run's shutdown sequence, interleaved step by step
    (internal/agent/agent.go, internal/agent/report.go, internal/agent/service/report.go). */
module AgentProtocol {
  import opened Metrics
  import opened MetricStore
  import opened Reports
  import Retry

  // ---------------------------------------------------------------------------
  // Places
  // ---------------------------------------------------------------------------

  /** A poll writes its gauges one by one; the writes still to come are listed. */
  datatype PollLoop = Waiting | Writing(todo: seq<(string, Float64)>) | Stopped

  /** Swapped: the counter was taken, the snapshot is not. Refused: the queue was full. */
  datatype Reporter =
    | Idle
    | Swapped(count: int64)
    | Offering(report: Report)
    | Refused(report: Report)
    | Quit

  /** Sending counts the attempts already made; Failed still owes the restore. */
  datatype Worker = Ready | Sending(report: Report, attempt: nat) | Failed(report: Report) | Exited

  datatype Outcome = Clean | LoopsTimedOut | WorkersTimedOut | FlushError

  datatype Main =
    | Serving
    | AwaitLoops
    | Closing
    | AwaitWorkers
    | FlushStart
    | FlushSwapped(count: int64)
    | Flushing(report: Report, attempt: nat)
    | FlushFailed(report: Report)
    | Returned(outcome: Outcome)

  /** Retries after the first attempt: one for each delay both transports list. */
  const RETRIES: nat := |Retry.DELAYS|

  datatype State = State(
    rateLimit: nat,
    gauges: map<string, Float64>,  // the Agent's own repository
    pending: int64,                // pollSinceReport
    runtime: PollLoop,
    system: PollLoop,
    reporter: Reporter,
    queue: seq<Report>,
    closed: bool,
    workers: seq<Worker>,
    cancelled: bool,               // ctx
    sendCancelled: bool,           // sendCtx
    main: Main,
    server: Store,
    // history, read by no step
    start: Store,                  // the Server's store at the beginning
    polls: nat,                    // completed PollRuntime calls
    acked: int,                    // poll counts of acknowledged sends
    repeated: int                  // poll counts applied by attempts that were not acknowledged
  )

  /** What one attempt to send comes to. A lost attempt may still have been applied. */
  datatype Verdict = Ack | Lost(applied: bool, retry: bool)

  datatype PollStep = Tick(writes: seq<(string, Float64)>) | Write(stored: bool) | Finish | Stop

  datatype ReportStep =
    | Swap | Snapshot(order: seq<string>) | SnapshotError | Enqueue | Refuse | Restore | Leave

  datatype WorkStep = Dequeue | Attempt(verdict: Verdict) | RestoreFailed | Exit

  datatype MainStep =
    | Begin | LoopsJoined | LoopsTimeout | CloseQueue | WorkersJoined | WorkersTimeout
    | FlushSwap | FlushSnapshot(order: seq<string>) | FlushSnapshotError
    | FlushAttempt(verdict: Verdict) | FlushRestore

  datatype Step =
    | Runtime(poll: PollStep)
    | System(poll: PollStep)
    | Periodic(report: ReportStep)
    | Work(w: nat, work: WorkStep)
    | Run(run: MainStep)
    | Cancel

  // ---------------------------------------------------------------------------
  // Steps. A select with several ready cases picks any of them: after a cancellation the tickers
  // and the queue stay enabled beside the exits, and a timeout may win against a finished group.
  // ---------------------------------------------------------------------------

  ghost predicate Init(s: State) {
    && s.rateLimit > 0
    && s.pending == 0
    && s.runtime == Waiting && s.system == Waiting && s.reporter == Idle
    && s.queue == [] && !s.closed
    && |s.workers| == s.rateLimit && (forall i | 0 <= i < |s.workers| :: s.workers[i] == Ready)
    && !s.cancelled && !s.sendCancelled && s.main == Serving
    && s.start == s.server
    && s.polls == 0 && s.acked == 0 && s.repeated == 0
  }

  /** pollSinceReport.Add */
  function AddPending(s: State, count: int64): State {
    s.(pending := Wrap64(s.pending + count))
  }

  /** A Server refuses an incomplete batch whole. */
  function Received(st: Store, report: Report): Store {
    if AllComplete(report.metrics) then Apply(st, report.metrics) else st
  }

  /** The effect of an attempt on the Server and on the history. */
  function Delivered(s: State, report: Report, verdict: Verdict): State {
    match verdict
    case Ack => s.(server := Received(s.server, report), acked := s.acked + report.pollCount)
    case Lost(true, _) => s.(server := Received(s.server, report), repeated := s.repeated + report.pollCount)
    case Lost(false, _) => s
  }

  predicate MayRetry(verdict: Verdict, attempt: nat) {
    verdict.Lost? && verdict.retry ==> attempt < RETRIES
  }

  // The two poll loops

  predicate PollEnabled(loop: PollLoop, cancelled: bool, step: PollStep) {
    match step
    case Tick(_) => loop.Waiting?
    case Write(_) => loop.Writing? && loop.todo != []
    case Finish => loop == Writing([])
    case Stop => loop.Waiting? && cancelled
  }

  function PollNext(loop: PollLoop, cancelled: bool, step: PollStep): PollLoop
    requires PollEnabled(loop, cancelled, step)
  {
    match step
    case Tick(writes) => Writing(writes)
    case Write(_) => Writing(loop.todo[1..])
    case Finish => Waiting
    case Stop => Stopped
  }

  function PollGauges(s: State, loop: PollLoop, step: PollStep): map<string, Float64>
    requires PollEnabled(loop, s.cancelled, step)
  {
    if step.Write? && step.stored then s.gauges[loop.todo[0].0 := loop.todo[0].1] else s.gauges
  }

  function DoRuntime(s: State, step: PollStep): State
    requires PollEnabled(s.runtime, s.cancelled, step)
  {
    var t := s.(runtime := PollNext(s.runtime, s.cancelled, step), gauges := PollGauges(s, s.runtime, step));
    if step.Finish? then AddPending(t, 1).(polls := s.polls + 1) else t
  }

  function DoSystem(s: State, step: PollStep): State
    requires PollEnabled(s.system, s.cancelled, step)
  {
    s.(system := PollNext(s.system, s.cancelled, step), gauges := PollGauges(s, s.system, step))
  }

  // The report loop

  ghost predicate ReportEnabled(s: State, step: ReportStep) {
    match step
    case Swap => s.reporter.Idle?
    case Snapshot(order) => s.reporter.Swapped? && Enumerates(order, s.gauges.Keys)
    case SnapshotError => s.reporter.Swapped?
    case Enqueue => s.reporter.Offering? && |s.queue| < s.rateLimit
    case Refuse => s.reporter.Offering? && |s.queue| >= s.rateLimit
    case Restore => s.reporter.Refused?
    case Leave => s.reporter.Idle? && s.cancelled
  }

  ghost function DoReport(s: State, step: ReportStep): State
    requires ReportEnabled(s, step)
  {
    match step
    case Swap => if s.pending == 0 then s else s.(pending := 0, reporter := Swapped(s.pending))
    case Snapshot(order) =>
      s.(reporter := Offering(Report(Batch(order, s.gauges, s.reporter.count), s.reporter.count)))
    case SnapshotError => AddPending(s, s.reporter.count).(reporter := Idle)
    case Enqueue => s.(queue := s.queue + [s.reporter.report], reporter := Idle)
    case Refuse => s.(reporter := Refused(s.reporter.report))
    case Restore => AddPending(s, s.reporter.report.pollCount).(reporter := Idle)
    case Leave => s.(reporter := Quit)
  }

  // The send workers

  predicate WorkEnabled(s: State, w: nat, step: WorkStep) {
    && w < |s.workers|
    && match step
       case Dequeue => s.workers[w].Ready? && s.queue != []
       case Attempt(verdict) => s.workers[w].Sending? && MayRetry(verdict, s.workers[w].attempt)
       case RestoreFailed => s.workers[w].Failed?
       case Exit => s.workers[w].Ready? && (s.sendCancelled || (s.closed && s.queue == []))
  }

  function AfterAttempt(report: Report, attempt: nat, verdict: Verdict): Worker {
    if verdict.Ack? then Ready
    else if verdict.retry then Sending(report, attempt + 1)
    else Failed(report)
  }

  function NextWorker(s: State, w: nat, step: WorkStep): Worker
    requires WorkEnabled(s, w, step)
  {
    match step
    case Dequeue => Sending(s.queue[0], 0)
    case Attempt(verdict) => AfterAttempt(s.workers[w].report, s.workers[w].attempt, verdict)
    case RestoreFailed => Ready
    case Exit => Exited
  }

  function DoWork(s: State, w: nat, step: WorkStep): State
    requires WorkEnabled(s, w, step)
  {
    var t := match step
             case Dequeue => s.(queue := s.queue[1..])
             case Attempt(verdict) => Delivered(s, s.workers[w].report, verdict)
             case RestoreFailed => AddPending(s, s.workers[w].report.pollCount)
             case Exit => s;
    t.(workers := s.workers[w := NextWorker(s, w, step)])
  }

  // Run

  predicate LoopsStopped(s: State) {
    s.runtime.Stopped? && s.system.Stopped? && s.reporter.Quit?
  }

  predicate AllExited(ws: seq<Worker>) {
    forall i | 0 <= i < |ws| :: ws[i].Exited?
  }

  ghost predicate RunEnabled(s: State, step: MainStep) {
    match step
    case Begin => s.main.Serving? && s.cancelled
    case LoopsJoined => s.main.AwaitLoops? && LoopsStopped(s)
    case LoopsTimeout => s.main.AwaitLoops?
    case CloseQueue => s.main.Closing?
    case WorkersJoined => s.main.AwaitWorkers? && AllExited(s.workers)
    case WorkersTimeout => s.main.AwaitWorkers?
    case FlushSwap => s.main.FlushStart?
    case FlushSnapshot(order) => s.main.FlushSwapped? && Enumerates(order, s.gauges.Keys)
    case FlushSnapshotError => s.main.FlushSwapped?
    case FlushAttempt(verdict) => s.main.Flushing? && MayRetry(verdict, s.main.attempt)
    case FlushRestore => s.main.FlushFailed?
  }

  /** Every return of Run cancels sendCtx. */
  function Return(s: State, outcome: Outcome): State {
    s.(main := Returned(outcome), sendCancelled := true)
  }

  function AfterFlushAttempt(s: State, report: Report, attempt: nat, verdict: Verdict): State {
    if verdict.Ack? then Return(s, Clean)
    else s.(main := if verdict.retry then Flushing(report, attempt + 1) else FlushFailed(report))
  }

  /** Unlike a periodic report, the final one is built even when the counter is zero. */
  ghost function DoRun(s: State, step: MainStep): State
    requires RunEnabled(s, step)
  {
    match step
    case Begin => s.(main := AwaitLoops)
    case LoopsJoined => s.(main := Closing)
    case LoopsTimeout => Return(s, LoopsTimedOut)
    case CloseQueue => s.(main := AwaitWorkers, closed := true)
    case WorkersJoined => s.(main := FlushStart)
    case WorkersTimeout => Return(s, WorkersTimedOut)
    case FlushSwap => s.(pending := 0, main := FlushSwapped(s.pending))
    case FlushSnapshot(order) =>
      s.(main := Flushing(Report(Batch(order, s.gauges, s.main.count), s.main.count), 0))
    case FlushSnapshotError => Return(AddPending(s, s.main.count), FlushError)
    case FlushAttempt(verdict) =>
      AfterFlushAttempt(Delivered(s, s.main.report, verdict), s.main.report, s.main.attempt, verdict)
    case FlushRestore => Return(AddPending(s, s.main.report.pollCount), FlushError)
  }

  ghost predicate Enabled(s: State, step: Step) {
    match step
    case Runtime(p) => PollEnabled(s.runtime, s.cancelled, p)
    case System(p) => PollEnabled(s.system, s.cancelled, p)
    case Periodic(r) => ReportEnabled(s, r)
    case Work(w, k) => WorkEnabled(s, w, k)
    case Run(m) => RunEnabled(s, m)
    case Cancel => !s.cancelled
  }

  ghost function Do(s: State, step: Step): State
    requires Enabled(s, step)
  {
    match step
    case Runtime(p) => DoRuntime(s, p)
    case System(p) => DoSystem(s, p)
    case Periodic(r) => DoReport(s, r)
    case Work(w, k) => DoWork(s, w, k)
    case Run(m) => DoRun(s, m)
    case Cancel => s.(cancelled := true)
  }

  /** Each step of the run is enabled where it is taken. */
  ghost predicate Legal(s: State, steps: seq<Step>)
    decreases |steps|
  {
    steps != [] ==> Enabled(s, steps[0]) && Legal(Do(s, steps[0]), steps[1..])
  }

  ghost function Exec(s: State, steps: seq<Step>): State
    requires Legal(s, steps)
    decreases |steps|
  {
    if steps == [] then s else Exec(Do(s, steps[0]), steps[1..])
  }

  lemma ExecCons(s: State, step: Step, rest: seq<Step>)
    requires Enabled(s, step) && Legal(Do(s, step), rest)
    ensures Legal(s, [step] + rest) && Exec(s, [step] + rest) == Exec(Do(s, step), rest)
  {
    assert ([step] + rest)[1..] == rest;
  }

  lemma {:induction false} ExecConcat(s: State, a: seq<Step>, b: seq<Step>)
    requires Legal(s, a) && Legal(Exec(s, a), b)
    ensures Legal(s, a + b) && Exec(s, a + b) == Exec(Exec(s, a), b)
    decreases |a|
  {
    if a == [] {
      assert a + b == b;
    } else {
      ExecConcat(Do(s, a[0]), a[1..], b);
      assert (a + b)[0] == a[0] && (a + b)[1..] == a[1..] + b;
    }
  }
}
