/** What every step of the Agent's protocol keeps. */
module AgentInvariants {
  import opened Metrics
  import opened Reports
  import opened AgentProtocol

  // ---------------------------------------------------------------------------
  // Control
  // ---------------------------------------------------------------------------

  /** Run is past the first join, so the three loops are gone. */
  predicate LoopsJoinedAt(main: Main) {
    match main
    case Serving => false
    case AwaitLoops => false
    case Returned(outcome) => outcome != LoopsTimedOut
    case _ => true
  }

  predicate ClosedAt(main: Main) {
    LoopsJoinedAt(main) && !main.Closing?
  }

  /** Run is past the second join, so the workers are gone and the queue is drained. */
  predicate WorkersJoinedAt(main: Main) {
    match main
    case FlushStart => true
    case FlushSwapped(_) => true
    case Flushing(_, _) => true
    case FlushFailed(_) => true
    case Returned(outcome) => outcome == Clean || outcome == FlushError
    case _ => false
  }

  /** A worker leaves early only on a cancelled sendCtx; otherwise it saw the drained, closed queue. */
  predicate WorkerInOrder(s: State, worker: Worker) {
    && (worker.Exited? && !s.main.Returned? ==> s.closed && s.queue == [])
    && (worker.Sending? ==> worker.attempt <= RETRIES)
  }

  ghost predicate Control(s: State) {
    && s.rateLimit > 0
    && |s.workers| == s.rateLimit
    && |s.queue| <= s.rateLimit
    && (s.closed <==> ClosedAt(s.main))
    && (s.sendCancelled <==> s.main.Returned?)
    && (!s.main.Serving? ==> s.cancelled)
    && (LoopsJoinedAt(s.main) ==> LoopsStopped(s))
    && (WorkersJoinedAt(s.main) ==> AllExited(s.workers) && s.queue == [])
    && (forall i | 0 <= i < |s.workers| :: WorkerInOrder(s, s.workers[i]))
    && (s.main.Flushing? ==> s.main.attempt <= RETRIES)
  }

  lemma WorkControlKept(s: State, w: nat, step: WorkStep)
    requires Control(s) && WorkEnabled(s, w, step)
    ensures Control(DoWork(s, w, step))
  {
    var t := DoWork(s, w, step);
    assert WorkerInOrder(s, s.workers[w]);
    forall i | 0 <= i < |t.workers| ensures WorkerInOrder(t, t.workers[i]) {
      assert WorkerInOrder(s, s.workers[i]);
    }
  }

  lemma RunControlKept(s: State, step: MainStep)
    requires Control(s) && RunEnabled(s, step)
    ensures Control(DoRun(s, step))
  {
    var t := DoRun(s, step);
    if step.WorkersJoined? {
      assert s.workers[0].Exited? && WorkerInOrder(s, s.workers[0]);
    }
    forall i | 0 <= i < |t.workers| ensures WorkerInOrder(t, t.workers[i]) {
      assert WorkerInOrder(s, s.workers[i]);
    }
  }

  lemma ReportControlKept(s: State, step: ReportStep)
    requires Control(s) && ReportEnabled(s, step)
    ensures Control(DoReport(s, step))
  {
    var t := DoReport(s, step);
    forall i | 0 <= i < |t.workers| ensures WorkerInOrder(t, t.workers[i]) {
      assert WorkerInOrder(s, s.workers[i]);
    }
  }

  lemma ControlKept(s: State, step: Step)
    requires Control(s) && Enabled(s, step)
    ensures Control(Do(s, step))
  {
    match step
    case Periodic(r) => ReportControlKept(s, r);
    case Work(w, k) => WorkControlKept(s, w, k);
    case Run(m) => RunControlKept(s, m);
    case _ =>
      var t := Do(s, step);
      forall i | 0 <= i < |t.workers| ensures WorkerInOrder(t, t.workers[i]) {
        assert WorkerInOrder(s, s.workers[i]);
      }
  }

  // ---------------------------------------------------------------------------
  // Reports
  // ---------------------------------------------------------------------------

  ghost predicate WorkerReportOk(worker: Worker, names: set<string>) {
    worker.Sending? || worker.Failed? ==> ReportWithin(worker.report, names)
  }

  /** Every report in the system is a snapshot batch of gauges the Agent knows;
      the final one is a snapshot of the gauges as they are. */
  ghost predicate ReportsOk(s: State) {
    && (s.reporter.Offering? || s.reporter.Refused? ==> ReportWithin(s.reporter.report, s.gauges.Keys))
    && (forall i | 0 <= i < |s.queue| :: ReportWithin(s.queue[i], s.gauges.Keys))
    && (forall i | 0 <= i < |s.workers| :: WorkerReportOk(s.workers[i], s.gauges.Keys))
    && (s.main.Flushing? || s.main.FlushFailed? ==> IsReportOf(s.main.report, s.gauges))
  }

  lemma SnapshotIsReport(order: seq<string>, gauges: map<string, Float64>, count: int64)
    requires Enumerates(order, gauges.Keys)
    ensures IsReportOf(Report(Batch(order, gauges, count), count), gauges)
    ensures ReportWithin(Report(Batch(order, gauges, count), count), gauges.Keys)
  {
  }

  lemma WithinMore(r: Report, names: set<string>, more: set<string>)
    requires ReportWithin(r, names) && names <= more
    ensures ReportWithin(r, more)
  {
  }

  lemma GaugesGrow(s: State, t: State)
    requires ReportsOk(s) && s.gauges.Keys <= t.gauges.Keys
    requires t.reporter == s.reporter && t.queue == s.queue && t.workers == s.workers && t.main == s.main
    requires s.main.Flushing? || s.main.FlushFailed? ==> t.gauges == s.gauges
    ensures ReportsOk(t)
  {
    var names, more := s.gauges.Keys, t.gauges.Keys;
    if s.reporter.Offering? || s.reporter.Refused? {
      WithinMore(s.reporter.report, names, more);
    }
    forall i | 0 <= i < |t.queue| ensures ReportWithin(t.queue[i], more) {
      WithinMore(s.queue[i], names, more);
    }
    forall i | 0 <= i < |t.workers| ensures WorkerReportOk(t.workers[i], more) {
      assert WorkerReportOk(s.workers[i], names);
      if s.workers[i].Sending? || s.workers[i].Failed? {
        WithinMore(s.workers[i].report, names, more);
      }
    }
  }

  /** Working on a report passes it along and makes no new one. */
  lemma WorkPasses(s: State, w: nat, step: WorkStep, ok: Report -> bool)
    requires WorkEnabled(s, w, step)
    requires forall i | 0 <= i < |s.queue| :: ok(s.queue[i])
    requires forall i | 0 <= i < |s.workers| ::
               s.workers[i].Sending? || s.workers[i].Failed? ==> ok(s.workers[i].report)
    ensures var t := DoWork(s, w, step);
            && (forall i | 0 <= i < |t.queue| :: ok(t.queue[i]))
            && (forall i | 0 <= i < |t.workers| ::
                  t.workers[i].Sending? || t.workers[i].Failed? ==> ok(t.workers[i].report))
  {
    var t := DoWork(s, w, step);
    if step.Dequeue? {
      assert ok(s.queue[0]);
      assert forall i | 0 <= i < |t.queue| :: t.queue[i] == s.queue[i + 1];
    }
  }

  lemma WorkReportsKept(s: State, w: nat, step: WorkStep)
    requires ReportsOk(s) && WorkEnabled(s, w, step)
    ensures ReportsOk(DoWork(s, w, step))
  {
    var t, names := DoWork(s, w, step), s.gauges.Keys;
    forall i | 0 <= i < |s.workers| && (s.workers[i].Sending? || s.workers[i].Failed?)
      ensures ReportWithin(s.workers[i].report, names)
    {
      assert WorkerReportOk(s.workers[i], names);
    }
    WorkPasses(s, w, step, r => ReportWithin(r, names));
    forall i | 0 <= i < |t.workers| ensures WorkerReportOk(t.workers[i], names) {
    }
    assert t.gauges == s.gauges && t.reporter == s.reporter && t.main == s.main;
  }

  lemma PeriodicReportsKept(s: State, step: ReportStep)
    requires ReportsOk(s) && ReportEnabled(s, step)
    ensures ReportsOk(DoReport(s, step))
  {
    if step.Snapshot? {
      SnapshotIsReport(step.order, s.gauges, s.reporter.count);
    }
  }

  lemma RunReportsKept(s: State, step: MainStep)
    requires ReportsOk(s) && RunEnabled(s, step)
    ensures ReportsOk(DoRun(s, step))
  {
    if step.FlushSnapshot? {
      SnapshotIsReport(step.order, s.gauges, s.main.count);
    }
    var t := DoRun(s, step);
    assert t.queue == s.queue && t.workers == s.workers && t.reporter == s.reporter && t.gauges == s.gauges;
  }

  lemma PollReportsKept(s: State, step: Step)
    requires Control(s) && ReportsOk(s) && Enabled(s, step) && (step.Runtime? || step.System? || step.Cancel?)
    ensures ReportsOk(Do(s, step))
  {
    GaugesGrow(s, Do(s, step));
  }

  lemma ReportsKept(s: State, step: Step)
    requires Control(s) && ReportsOk(s) && Enabled(s, step)
    ensures ReportsOk(Do(s, step))
  {
    match step
    case Periodic(r) => PeriodicReportsKept(s, r);
    case Work(w, k) => WorkReportsKept(s, w, k);
    case Run(m) => RunReportsKept(s, m);
    case _ => PollReportsKept(s, step);
  }

  // ---------------------------------------------------------------------------
  // Conservation of polls
  // ---------------------------------------------------------------------------

  function CountOf(worker: Worker): int64 {
    if worker.Sending? || worker.Failed? then worker.report.pollCount else 0
  }

  function HeldByReporter(r: Reporter): int64 {
    match r
    case Swapped(count) => count
    case Offering(report) => report.pollCount
    case Refused(report) => report.pollCount
    case _ => 0
  }

  function HeldByFlush(main: Main): int64 {
    match main
    case FlushSwapped(count) => count
    case Flushing(report, _) => report.pollCount
    case FlushFailed(report) => report.pollCount
    case _ => 0
  }

  function Queued(queue: seq<Report>): int {
    if queue == [] then 0 else queue[0].pollCount + Queued(queue[1..])
  }

  function InFlight(workers: seq<Worker>): int {
    if workers == [] then 0 else CountOf(workers[0]) + InFlight(workers[1..])
  }

  /** Every place a poll can be between PollRuntime and an acknowledgement. */
  function Carried(s: State): int {
    s.pending + HeldByReporter(s.reporter) + Queued(s.queue) + InFlight(s.workers) + HeldByFlush(s.main) + s.acked
  }

  predicate NoneNegative(s: State) {
    && s.pending >= 0 && HeldByReporter(s.reporter) >= 0 && HeldByFlush(s.main) >= 0 && s.acked >= 0 && s.repeated >= 0
    && (forall i | 0 <= i < |s.queue| :: s.queue[i].pollCount >= 0)
    && (forall i | 0 <= i < |s.workers| :: CountOf(s.workers[i]) >= 0)
  }

  /** The sum of all places is the number of polls: modulo 2^64 always, as the counter wraps,
      and exactly as long as the polls themselves fit the counter. */
  predicate Conserved(s: State) {
    && (Carried(s) - s.polls) % TWO_64 == 0
    && (FitsInt64(s.polls) ==> Carried(s) == s.polls && NoneNegative(s))
  }

  lemma {:induction false} QueuedSnoc(queue: seq<Report>, r: Report)
    ensures Queued(queue + [r]) == Queued(queue) + r.pollCount
  {
    if queue == [] {
      assert queue + [r] == [r] && Queued([r]) == r.pollCount + Queued([r][1..]);
    } else {
      assert (queue + [r])[0] == queue[0] && (queue + [r])[1..] == queue[1..] + [r];
      QueuedSnoc(queue[1..], r);
    }
  }

  lemma {:induction false} InFlightUpdate(workers: seq<Worker>, i: nat, worker: Worker)
    requires i < |workers|
    ensures InFlight(workers[i := worker]) == InFlight(workers) - CountOf(workers[i]) + CountOf(worker)
  {
    if i == 0 {
      assert workers[0 := worker][1..] == workers[1..];
    } else {
      assert workers[i := worker][1..] == workers[1..][i - 1 := worker];
      InFlightUpdate(workers[1..], i - 1, worker);
    }
  }

  lemma {:induction false} QueuedNonNegative(queue: seq<Report>)
    requires forall i | 0 <= i < |queue| :: queue[i].pollCount >= 0
    ensures Queued(queue) >= 0
  {
    if queue != [] {
      QueuedNonNegative(queue[1..]);
    }
  }

  lemma {:induction false} InFlightAtLeast(workers: seq<Worker>, w: int)
    requires forall i | 0 <= i < |workers| :: CountOf(workers[i]) >= 0
    ensures InFlight(workers) >= 0
    ensures 0 <= w < |workers| ==> InFlight(workers) >= CountOf(workers[w])
  {
    if workers != [] {
      InFlightAtLeast(workers[1..], w - 1);
    }
  }

  lemma {:induction false} NothingInFlight(workers: seq<Worker>)
    requires AllExited(workers)
    ensures InFlight(workers) == 0
  {
    if workers != [] {
      NothingInFlight(workers[1..]);
    }
  }

  /** What the step adds to the pending counter. */
  function AddedBack(s: State, step: Step): int64 {
    match step
    case Runtime(Finish) => 1
    case Periodic(r) => if r.SnapshotError? || r.Restore? then HeldByReporter(s.reporter) else 0
    case Work(w, RestoreFailed) => if w < |s.workers| then CountOf(s.workers[w]) else 0
    case Run(m) => if m.FlushSnapshotError? || m.FlushRestore? then HeldByFlush(s.main) else 0
    case _ => 0
  }

  /** The error of the one wrapping addition a step may do; zero unless the counter overflows. */
  function WrapError(s: State, step: Step): (e: int)
    ensures e % TWO_64 == 0
    ensures FitsInt64(s.pending + AddedBack(s, step)) ==> e == 0
  {
    Wrap64(s.pending + AddedBack(s, step)) - (s.pending + AddedBack(s, step))
  }

  lemma AttemptCarried(s: State, w: nat, verdict: Verdict)
    requires WorkEnabled(s, w, Attempt(verdict))
    ensures Carried(DoWork(s, w, Attempt(verdict))) == Carried(s)
  {
    var report, attempt := s.workers[w].report, s.workers[w].attempt;
    InFlightUpdate(s.workers, w, AfterAttempt(report, attempt, verdict));
    var sent := Delivered(s, report, verdict);
    assert sent.acked == s.acked + if verdict.Ack? then report.pollCount else 0;
    assert sent.queue == s.queue && sent.pending == s.pending && sent.reporter == s.reporter && sent.main == s.main;
  }

  lemma WorkCarried(s: State, w: nat, step: WorkStep)
    requires WorkEnabled(s, w, step)
    ensures Carried(DoWork(s, w, step)) == Carried(s) + WrapError(s, Work(w, step))
  {
    if step.Attempt? {
      AttemptCarried(s, w, step.verdict);
    } else {
      InFlightUpdate(s.workers, w, NextWorker(s, w, step));
    }
  }

  lemma ReportCarried(s: State, step: ReportStep)
    requires ReportEnabled(s, step)
    ensures Carried(DoReport(s, step)) == Carried(s) + WrapError(s, Periodic(step))
  {
    if step.Enqueue? {
      QueuedSnoc(s.queue, s.reporter.report);
    }
  }

  lemma FlushAttemptCarried(s: State, verdict: Verdict)
    requires RunEnabled(s, FlushAttempt(verdict))
    ensures Carried(DoRun(s, FlushAttempt(verdict))) == Carried(s)
  {
    var sent := Delivered(s, s.main.report, verdict);
    assert Carried(sent) == Carried(s) + if verdict.Ack? then s.main.report.pollCount else 0;
  }

  lemma RunCarried(s: State, step: MainStep)
    requires RunEnabled(s, step)
    ensures Carried(DoRun(s, step)) == Carried(s) + WrapError(s, Run(step))
  {
    if step.FlushAttempt? {
      FlushAttemptCarried(s, step.verdict);
    } else {
      var t := DoRun(s, step);
      assert t.queue == s.queue && t.workers == s.workers && t.reporter == s.reporter && t.acked == s.acked;
    }
  }

  lemma PollCarried(s: State, step: Step)
    requires Enabled(s, step) && (step.Runtime? || step.System? || step.Cancel?)
    ensures Carried(Do(s, step)) == Carried(s) + PollsIn(step) + WrapError(s, step)
  {
    var t := Do(s, step);
    assert t.queue == s.queue && t.workers == s.workers && t.reporter == s.reporter && t.main == s.main;
  }

  /** A step moves polls between places and loses none, up to the wrap-around of one addition. */
  lemma CarriedStep(s: State, step: Step)
    requires Enabled(s, step)
    ensures Carried(Do(s, step)) == Carried(s) + PollsIn(step) + WrapError(s, step)
  {
    match step
    case Periodic(r) => ReportCarried(s, r);
    case Work(w, k) => WorkCarried(s, w, k);
    case Run(m) => RunCarried(s, m);
    case _ => PollCarried(s, step);
  }

  /** PollRuntime finishes in exactly one kind of step. */
  function PollsIn(step: Step): nat {
    if step == Runtime(Finish) then 1 else 0
  }

  lemma WorkPolls(s: State, w: nat, step: WorkStep)
    requires WorkEnabled(s, w, step)
    ensures DoWork(s, w, step).polls == s.polls && DoWork(s, w, step).start == s.start
  {
  }

  lemma RunPolls(s: State, step: MainStep)
    requires RunEnabled(s, step)
    ensures DoRun(s, step).polls == s.polls && DoRun(s, step).start == s.start
  {
  }

  lemma PollsCounted(s: State, step: Step)
    requires Enabled(s, step)
    ensures Do(s, step).polls == s.polls + PollsIn(step)
    ensures Do(s, step).start == s.start
  {
    match step
    case Work(w, k) => WorkPolls(s, w, k);
    case Run(m) => RunPolls(s, m);
    case Periodic(_) =>
    case _ =>
  }

  lemma ConservedKept(s: State, step: Step)
    requires Conserved(s) && Enabled(s, step)
    ensures Conserved(Do(s, step))
  {
    CarriedStep(s, step);
    PollsCounted(s, step);
    if FitsInt64(s.polls + PollsIn(step)) {
      NoOverflow(s, step);
      StaysNonNegative(s, step);
    }
    ConservedFrom(s, Do(s, step), WrapError(s, step));
  }

  lemma ConservedFrom(s: State, t: State, error: int)
    requires Conserved(s) && error % TWO_64 == 0
    requires Carried(t) - t.polls == Carried(s) - s.polls + error
    requires FitsInt64(t.polls) ==> FitsInt64(s.polls) && error == 0 && NoneNegative(t)
    ensures Conserved(t)
  {
  }

  /** While the polls fit, so does the one addition of the step. */
  lemma NoOverflow(s: State, step: Step)
    requires Conserved(s) && FitsInt64(s.polls + PollsIn(step))
    ensures 0 <= s.pending + AddedBack(s, step) && FitsInt64(s.pending + AddedBack(s, step))
  {
    QueuedNonNegative(s.queue);
    InFlightAtLeast(s.workers, if step.Work? then step.w else 0);
  }

  lemma StaysNonNegative(s: State, step: Step)
    requires NoneNegative(s) && Enabled(s, step) && FitsInt64(s.pending + AddedBack(s, step))
    ensures NoneNegative(Do(s, step))
  {
    match step
    case Runtime(p) => assert s.pending + AddedBack(s, step) >= 0;
    case Periodic(r) => ReportNonNegative(s, r);
    case Work(w, k) => WorkNonNegative(s, w, k);
    case Run(m) => RunNonNegative(s, m);
    case _ =>
  }

  lemma AttemptNonNegative(s: State, w: nat, verdict: Verdict)
    requires NoneNegative(s) && WorkEnabled(s, w, Attempt(verdict))
    ensures NoneNegative(DoWork(s, w, Attempt(verdict)))
  {
    var t := DoWork(s, w, Attempt(verdict));
    assert CountOf(s.workers[w]) >= 0;
    assert t.queue == s.queue && t.pending == s.pending && t.main == s.main && t.reporter == s.reporter;
    assert forall i | 0 <= i < |t.workers| && i != w :: t.workers[i] == s.workers[i];
  }

  lemma WorkNonNegative(s: State, w: nat, step: WorkStep)
    requires NoneNegative(s) && WorkEnabled(s, w, step) && FitsInt64(s.pending + AddedBack(s, Work(w, step)))
    ensures NoneNegative(DoWork(s, w, step))
  {
    if step.Attempt? {
      AttemptNonNegative(s, w, step.verdict);
    } else {
      var t := DoWork(s, w, step);
      assert CountOf(s.workers[w]) >= 0;
      assert forall i | 0 <= i < |t.workers| && i != w :: t.workers[i] == s.workers[i];
    }
  }

  lemma ReportNonNegative(s: State, step: ReportStep)
    requires NoneNegative(s) && ReportEnabled(s, step) && FitsInt64(s.pending + AddedBack(s, Periodic(step)))
    ensures NoneNegative(DoReport(s, step))
  {
  }

  lemma FlushAttemptNonNegative(s: State, verdict: Verdict)
    requires NoneNegative(s) && RunEnabled(s, FlushAttempt(verdict))
    ensures NoneNegative(DoRun(s, FlushAttempt(verdict)))
  {
    var t := DoRun(s, FlushAttempt(verdict));
    assert t.queue == s.queue && t.workers == s.workers && t.reporter == s.reporter && t.pending == s.pending;
  }

  lemma RunNonNegative(s: State, step: MainStep)
    requires NoneNegative(s) && RunEnabled(s, step) && FitsInt64(s.pending + AddedBack(s, Run(step)))
    ensures NoneNegative(DoRun(s, step))
  {
    if step.FlushAttempt? {
      FlushAttemptNonNegative(s, step.verdict);
    } else {
      var t := DoRun(s, step);
      assert t.queue == s.queue && t.workers == s.workers && t.reporter == s.reporter;
      assert t.acked == s.acked && t.repeated == s.repeated;
    }
  }
}
