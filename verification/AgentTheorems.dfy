/** Results about whole runs of the Agent: conservation, clean exit, convergence, channel safety, draining. */
module AgentTheorems {
  import opened Metrics
  import opened MetricStore
  import opened Reports
  import opened AgentProtocol
  import opened AgentInvariants

  // ---------------------------------------------------------------------------
  // The Server's store
  // ---------------------------------------------------------------------------

  /** start after deliveries whose poll counts add up to delivered. */
  function Grown(start: Store, delivered: int): map<string, int64> {
    start.counters[POLL_COUNT := Wrap64(Total(start, POLL_COUNT) + delivered)]
  }

  /** The Server's counters differ from the first ones in the poll counter at most, which grew by
      every delivery; its gauges differ in the given names at most. */
  ghost predicate StoreOk(start: Store, server: Store, delivered: int, names: set<string>) {
    && (server.counters == Grown(start, delivered) || (server.counters == start.counters && delivered == 0))
    && (forall name | name !in names ::
          && (name in server.gauges <==> name in start.gauges)
          && (name in start.gauges ==> server.gauges[name] == start.gauges[name]))
  }

  lemma OneDelivery(start: Store, server: Store, delivered: int, names: set<string>,
                    gauges: map<string, Float64>, count: int64)
    requires StoreOk(start, server, delivered, names) && gauges.Keys <= names
    ensures var after := AddCounter(server.(gauges := server.gauges + gauges), POLL_COUNT, count);
            && StoreOk(start, after, delivered + count, names)
            && after.counters == Grown(start, delivered + count)
  {
    WrapAbsorbs(Total(start, POLL_COUNT) + delivered, count);
  }

  ghost predicate ServerOk(s: State) {
    StoreOk(s.start, s.server, s.acked + s.repeated, s.gauges.Keys)
  }

  /** After a clean return the Server shows the Agent's last gauges and counts every delivery. */
  ghost predicate CleanOk(s: State) {
    && (s.main.FlushSwapped? || s.main.Flushing? || s.main.FlushFailed? || s.main == Returned(Clean) ==> s.pending == 0)
    && (s.main == Returned(Clean) ==>
          && s.server.gauges == s.start.gauges + s.gauges
          && s.server.counters == Grown(s.start, s.acked + s.repeated))
  }

  lemma DeliveredOk(s: State, report: Report, gauges: map<string, Float64>, verdict: Verdict)
    requires ServerOk(s) && IsReportOf(report, gauges) && gauges.Keys <= s.gauges.Keys
    ensures ServerOk(Delivered(s, report, verdict))
    ensures verdict.Ack? ==>
              var t := Delivered(s, report, verdict);
              && t.server.gauges == s.server.gauges + gauges
              && t.server.counters == Grown(t.start, t.acked + t.repeated)
  {
    if verdict.Ack? || verdict.applied {
      ReportEffect(s.server, report, gauges);
      OneDelivery(s.start, s.server, s.acked + s.repeated, s.gauges.Keys, gauges, report.pollCount);
      var t := Delivered(s, report, verdict);
      assert t.acked + t.repeated == s.acked + s.repeated + report.pollCount;
    }
  }

  lemma WorkServerKept(s: State, w: nat, step: WorkStep)
    requires ReportsOk(s) && ServerOk(s) && WorkEnabled(s, w, step)
    ensures ServerOk(DoWork(s, w, step))
  {
    if step.Attempt? {
      assert WorkerReportOk(s.workers[w], s.gauges.Keys);
      var gauges :| IsReportOf(s.workers[w].report, gauges) && gauges.Keys <= s.gauges.Keys;
      DeliveredOk(s, s.workers[w].report, gauges, step.verdict);
    }
  }

  lemma OverlayAll(start: Store, server: Store, delivered: int, gauges: map<string, Float64>)
    requires StoreOk(start, server, delivered, gauges.Keys)
    ensures server.gauges + gauges == start.gauges + gauges
  {
  }

  lemma FlushServerKept(s: State, verdict: Verdict)
    requires ReportsOk(s) && ServerOk(s) && CleanOk(s) && RunEnabled(s, FlushAttempt(verdict))
    ensures ServerOk(DoRun(s, FlushAttempt(verdict))) && CleanOk(DoRun(s, FlushAttempt(verdict)))
  {
    DeliveredOk(s, s.main.report, s.gauges, verdict);
    OverlayAll(s.start, s.server, s.acked + s.repeated, s.gauges);
  }

  lemma RunServerKept(s: State, step: MainStep)
    requires ReportsOk(s) && ServerOk(s) && CleanOk(s) && RunEnabled(s, step)
    ensures ServerOk(DoRun(s, step)) && CleanOk(DoRun(s, step))
  {
    if step.FlushAttempt? {
      FlushServerKept(s, step.verdict);
    } else {
      var t := DoRun(s, step);
      assert t.server == s.server && t.start == s.start && t.acked == s.acked && t.repeated == s.repeated;
    }
  }

  lemma PeriodicServerKept(s: State, step: ReportStep)
    requires ServerOk(s) && ReportEnabled(s, step)
    ensures ServerOk(DoReport(s, step))
  {
    var t := DoReport(s, step);
    assert t.server == s.server && t.start == s.start && t.acked == s.acked && t.repeated == s.repeated;
  }

  lemma PollServerKept(s: State, step: Step)
    requires ServerOk(s) && Enabled(s, step) && (step.Runtime? || step.System? || step.Cancel?)
    ensures ServerOk(Do(s, step))
  {
    var t := Do(s, step);
    assert s.gauges.Keys <= t.gauges.Keys;
  }

  lemma ServerKept(s: State, step: Step)
    requires ReportsOk(s) && ServerOk(s) && CleanOk(s) && Enabled(s, step)
    ensures ServerOk(Do(s, step))
  {
    match step
    case Work(w, k) => WorkServerKept(s, w, k);
    case Run(m) => RunServerKept(s, m);
    case Periodic(r) => PeriodicServerKept(s, r);
    case _ => PollServerKept(s, step);
  }

  /** Once the workers are joined only Run and the cancellation still move. */
  lemma OnlyRunMoves(s: State, step: Step)
    requires Control(s) && WorkersJoinedAt(s.main) && Enabled(s, step)
    ensures step.Run? || step.Cancel?
  {
    assert LoopsStopped(s);
  }

  lemma CleanKept(s: State, step: Step)
    requires Control(s) && ReportsOk(s) && ServerOk(s) && CleanOk(s) && Enabled(s, step)
    ensures CleanOk(Do(s, step))
  {
    if step.Run? {
      RunServerKept(s, step.run);
    } else if WorkersJoinedAt(s.main) {
      OnlyRunMoves(s, step);
    } else {
      assert Do(s, step).main == s.main;
    }
  }

  // ---------------------------------------------------------------------------
  // Whole runs
  // ---------------------------------------------------------------------------

  ghost predicate Inv(s: State) {
    Control(s) && ReportsOk(s) && Conserved(s) && ServerOk(s) && CleanOk(s)
  }

  lemma InitInv(s: State)
    requires Init(s)
    ensures Inv(s)
  {
    ReadyInFlight(s.workers);
  }

  lemma {:induction false} ReadyInFlight(workers: seq<Worker>)
    requires forall i | 0 <= i < |workers| :: workers[i] == Ready
    ensures InFlight(workers) == 0
  {
    if workers != [] {
      ReadyInFlight(workers[1..]);
    }
  }

  lemma InvKept(s: State, step: Step)
    requires Inv(s) && Enabled(s, step)
    ensures Inv(Do(s, step))
  {
    ControlKept(s, step);
    ReportsKept(s, step);
    ConservedKept(s, step);
    ServerKept(s, step);
    CleanKept(s, step);
  }

  lemma {:induction false} InvAlong(s: State, steps: seq<Step>)
    requires Inv(s) && Legal(s, steps)
    ensures Inv(Exec(s, steps))
    decreases |steps|
  {
    if steps != [] {
      InvKept(s, steps[0]);
      InvAlong(Do(s, steps[0]), steps[1..]);
    }
  }

  ghost predicate Reachable(s: State) {
    exists first, steps :: Init(first) && Legal(first, steps) && Exec(first, steps) == s
  }

  lemma ReachableInv(s: State)
    requires Reachable(s)
    ensures Inv(s)
  {
    var first, steps :| Init(first) && Legal(first, steps) && Exec(first, steps) == s;
    InitInv(first);
    InvAlong(first, steps);
  }

  /** The number of PollRuntime calls a run completes. */
  ghost function PollsAlong(steps: seq<Step>): nat {
    if steps == [] then 0 else PollsIn(steps[0]) + PollsAlong(steps[1..])
  }

  /** An attempt that took effect on the Server although the Agent was told it failed. */
  predicate LostEffect(step: Step) {
    match step
    case Work(_, Attempt(Lost(true, _))) => true
    case Run(FlushAttempt(Lost(true, _))) => true
    case _ => false
  }

  /** The poll count such an attempt repeats. */
  function LostCount(s: State, step: Step): int
  {
    match step
    case Work(w, Attempt(Lost(true, _))) => if w < |s.workers| then CountOf(s.workers[w]) else 0
    case Run(FlushAttempt(Lost(true, _))) => HeldByFlush(s.main)
    case _ => 0
  }

  lemma WorkRepeats(s: State, w: nat, step: WorkStep)
    requires WorkEnabled(s, w, step)
    ensures DoWork(s, w, step).repeated == s.repeated + LostCount(s, Work(w, step))
  {
  }

  lemma RunRepeats(s: State, step: MainStep)
    requires RunEnabled(s, step)
    ensures DoRun(s, step).repeated == s.repeated + LostCount(s, Run(step))
  {
  }

  lemma RepeatsStep(s: State, step: Step)
    requires Enabled(s, step)
    ensures Do(s, step).repeated == s.repeated + LostCount(s, step)
  {
    match step
    case Work(w, k) => WorkRepeats(s, w, k);
    case Run(m) => RunRepeats(s, m);
    case Periodic(_) =>
    case _ =>
  }

  /** The poll counts a run applies on the Server without an acknowledgement. */
  ghost function RepeatedAlong(s: State, steps: seq<Step>): int
    requires Legal(s, steps)
    decreases |steps|
  {
    if steps == [] then 0 else LostCount(s, steps[0]) + RepeatedAlong(Do(s, steps[0]), steps[1..])
  }

  /** Every attempt of the run that took effect without an acknowledgement carried a zero count. */
  ghost predicate OnlyZeroLost(s: State, steps: seq<Step>)
    requires Legal(s, steps)
    decreases |steps|
  {
    steps != [] ==> LostCount(s, steps[0]) == 0 && OnlyZeroLost(Do(s, steps[0]), steps[1..])
  }

  lemma {:induction false} HistoryAlong(s: State, steps: seq<Step>)
    requires Legal(s, steps)
    ensures Exec(s, steps).start == s.start
    ensures Exec(s, steps).polls == s.polls + PollsAlong(steps)
    ensures Exec(s, steps).repeated == s.repeated + RepeatedAlong(s, steps)
    ensures (forall i | 0 <= i < |steps| :: !LostEffect(steps[i])) ==> OnlyZeroLost(s, steps) && RepeatedAlong(s, steps) == 0
    decreases |steps|
  {
    if steps != [] {
      RepeatsStep(s, steps[0]);
      PollsCounted(s, steps[0]);
      HistoryAlong(Do(s, steps[0]), steps[1..]);
      assert !LostEffect(steps[0]) ==> LostCount(s, steps[0]) == 0;
    }
  }

  lemma LostNonNegative(s: State, step: Step)
    requires NoneNegative(s) && Enabled(s, step)
    ensures LostCount(s, step) >= 0
  {
  }

  /** While the polls fit the counter no count is negative, so the repeated counts sum to zero exactly when each is zero. */
  lemma {:induction false} RepeatsAddUp(s: State, steps: seq<Step>)
    requires Inv(s) && Legal(s, steps) && FitsInt64(s.polls + PollsAlong(steps))
    ensures RepeatedAlong(s, steps) >= 0
    ensures RepeatedAlong(s, steps) == 0 <==> OnlyZeroLost(s, steps)
    decreases |steps|
  {
    if steps != [] {
      PollsCounted(s, steps[0]);
      LostNonNegative(s, steps[0]);
      InvKept(s, steps[0]);
      RepeatsAddUp(Do(s, steps[0]), steps[1..]);
    }
  }

  /** In every reachable state of every interleaving the polls made are found, without loss or
      duplication, in the counter, the report being built or offered, the queue, the workers,
      the final report and the acknowledged sends. */
  lemma PollsAreConserved(first: State, steps: seq<Step>)
    requires Init(first) && Legal(first, steps)
    ensures var s := Exec(first, steps);
            && Wrap64(Carried(s)) == Wrap64(PollsAlong(steps))
            && (FitsInt64(PollsAlong(steps)) ==> Carried(s) == PollsAlong(steps) && NoneNegative(s))
  {
    InitInv(first);
    InvAlong(first, steps);
    HistoryAlong(first, steps);
    var s := Exec(first, steps);
    WrapCongruent(Carried(s), s.polls);
  }

  /** When Run returns nil nothing is left anywhere, and every poll was acknowledged exactly once. */
  lemma CleanExit(first: State, steps: seq<Step>)
    requires Init(first) && Legal(first, steps) && Exec(first, steps).main == Returned(Clean)
    ensures var s := Exec(first, steps);
            && LoopsStopped(s) && s.queue == [] && AllExited(s.workers) && s.pending == 0
            && Wrap64(s.acked) == Wrap64(PollsAlong(steps))
            && (FitsInt64(PollsAlong(steps)) ==> s.acked == PollsAlong(steps))
  {
    PollsAreConserved(first, steps);
    InitInv(first);
    InvAlong(first, steps);
    NothingInFlight(Exec(first, steps).workers);
  }

  lemma SameGrowth(base: int, x: int, y: int)
    requires Wrap64(x) == Wrap64(y)
    ensures Wrap64(base + x) == Wrap64(base + y)
  {
    WrapCongruent(x, y);
    WrapCongruent(base + x, base + y);
  }

  /** The first store, the Agent's gauges over it, the poll counter grown by so much. */
  ghost predicate Converged(first: Store, s: State, growth: int) {
    s.server == Store(first.gauges + s.gauges,
                      first.counters[POLL_COUNT := Wrap64(Total(first, POLL_COUNT) + growth)])
  }

  /** Convergence. Whatever order the workers delivered in, when Run returns nil the Server's store is its
      first store with the Agent's final gauges written over it and the poll counter grown by all
      the polls plus what unacknowledged attempts repeated, which is never less than nothing. */
  lemma Convergence(first: State, steps: seq<Step>)
    requires Init(first) && Legal(first, steps) && Exec(first, steps).main == Returned(Clean)
    ensures Converged(first.server, Exec(first, steps), PollsAlong(steps) + RepeatedAlong(first, steps))
    ensures FitsInt64(PollsAlong(steps)) ==> RepeatedAlong(first, steps) >= 0
    ensures (forall i | 0 <= i < |steps| :: !LostEffect(steps[i])) ==> RepeatedAlong(first, steps) == 0
  {
    ConvergedAtEnd(first, steps);
    NeverBelowNothing(first, steps);
  }

  lemma ConvergedAtEnd(first: State, steps: seq<Step>)
    requires Init(first) && Legal(first, steps) && Exec(first, steps).main == Returned(Clean)
    ensures Converged(first.server, Exec(first, steps), PollsAlong(steps) + RepeatedAlong(first, steps))
  {
    CleanExit(first, steps);
    InitInv(first);
    InvAlong(first, steps);
    HistoryAlong(first, steps);
    CleanStore(Exec(first, steps), PollsAlong(steps));
  }

  lemma NeverBelowNothing(first: State, steps: seq<Step>)
    requires Init(first) && Legal(first, steps)
    ensures FitsInt64(PollsAlong(steps)) ==> RepeatedAlong(first, steps) >= 0
    ensures (forall i | 0 <= i < |steps| :: !LostEffect(steps[i])) ==> RepeatedAlong(first, steps) == 0
  {
    HistoryAlong(first, steps);
    if FitsInt64(PollsAlong(steps)) {
      InitInv(first);
      RepeatsAddUp(first, steps);
    }
  }

  lemma CleanStore(s: State, polls: nat)
    requires Inv(s) && s.main == Returned(Clean) && Wrap64(s.acked) == Wrap64(polls)
    ensures Converged(s.start, s, polls + s.repeated)
  {
    SameGrowth(Total(s.start, POLL_COUNT) + s.repeated, s.acked, polls);
  }

  /** The poll counter grew by exactly the polls made if and only if every attempt that took effect without
      an acknowledgement carried a zero count; the counts are taken to fit the counter. Without that they
      are only known to sum to zero modulo 2^64. */
  lemma ExactlyOnce(first: State, steps: seq<Step>)
    requires Init(first) && Legal(first, steps) && Exec(first, steps).main == Returned(Clean)
    ensures var exact := Total(Exec(first, steps).server, POLL_COUNT)
                         == Wrap64(Total(first.server, POLL_COUNT) + PollsAlong(steps));
            && (exact <==> RepeatedAlong(first, steps) % TWO_64 == 0)
            && (FitsInt64(PollsAlong(steps)) && FitsInt64(RepeatedAlong(first, steps)) ==>
                  (exact <==> OnlyZeroLost(first, steps)))
  {
    Convergence(first, steps);
    var base, repeated := Total(first.server, POLL_COUNT) + PollsAlong(steps), RepeatedAlong(first, steps);
    WrapCongruent(base + repeated, base);
    if FitsInt64(PollsAlong(steps)) {
      InitInv(first);
      RepeatsAddUp(first, steps);
    }
  }

  /** A clean return is final: no goroutine is left that could move. */
  lemma CleanIsFinal(s: State, step: Step)
    requires Reachable(s) && s.main == Returned(Clean)
    ensures !Enabled(s, step)
  {
    ReachableInv(s);
    if Enabled(s, step) {
      OnlyRunMoves(s, step);
    }
  }

  // ---------------------------------------------------------------------------
  // The channel
  // ---------------------------------------------------------------------------

  /** Sends in progress, the final one included. */
  function Sends(workers: seq<Worker>): nat {
    if workers == [] then 0 else (if workers[0].Sending? then 1 else 0) + Sends(workers[1..])
  }

  lemma {:induction false} SendsBound(workers: seq<Worker>)
    ensures Sends(workers) <= |workers|
    ensures AllExited(workers) ==> Sends(workers) == 0
  {
    if workers != [] {
      SendsBound(workers[1..]);
    }
  }

  /** In every reachable state: a report is offered only while the channel is open, so a send on a closed
      channel cannot happen; and the queue and the concurrent sends stay within rateLimit. */
  lemma ChannelSafety(s: State)
    requires Reachable(s)
    ensures s.reporter.Offering? ==> !s.closed
    ensures |s.queue| <= s.rateLimit
    ensures Sends(s.workers) + (if s.main.Flushing? then 1 else 0) <= s.rateLimit
    ensures Enabled(s, Run(CloseQueue)) ==> !s.closed
  {
    ReachableInv(s);
    SendsBound(s.workers);
  }

  /** Steps a report in the making is away from the loop's select. */
  function ReportEffort(r: Reporter): nat {
    match r
    case Swapped(_) => 3
    case Offering(_) => 2
    case Refused(_) => 1
    case _ => 0
  }

  lemma ReportMoves(s: State, step: Step)
    requires ReportEffort(s.reporter) > 0 && Enabled(s, step)
    ensures if step.Periodic? then ReportEffort(Do(s, step).reporter) < ReportEffort(s.reporter)
            else Do(s, step).reporter == s.reporter
  {
  }

  /** A report is in the making throughout the run. */
  ghost predicate Making(s: State, steps: seq<Step>)
    requires Legal(s, steps)
    decreases |steps|
  {
    ReportEffort(s.reporter) > 0 && (steps != [] ==> Making(Do(s, steps[0]), steps[1..]))
  }

  function ReportSteps(steps: seq<Step>): nat {
    if steps == [] then 0 else (if steps[0].Periodic? then 1 else 0) + ReportSteps(steps[1..])
  }

  /** The report loop never blocks: in any run, whatever the queue and the other goroutines do meanwhile, a
      report is in the making for fewer than three steps of the loop's own, and as long as it is the loop can
      take another. */
  lemma {:induction false} ReportNeverBlocks(s: State, steps: seq<Step>)
    requires Legal(s, steps) && Making(s, steps)
    ensures var t := Exec(s, steps);
            && ReportSteps(steps) + ReportEffort(t.reporter) <= ReportEffort(s.reporter) <= 3
            && ReportEffort(t.reporter) > 0
            && (Enabled(t, Periodic(SnapshotError)) || Enabled(t, Periodic(Enqueue))
                || Enabled(t, Periodic(Refuse)) || Enabled(t, Periodic(Restore)))
    decreases |steps|
  {
    if steps != [] {
      ReportMoves(s, steps[0]);
      ReportNeverBlocks(Do(s, steps[0]), steps[1..]);
    }
  }

  /** Once closed the channel stays closed, nothing is enqueued and the queue only shrinks from the front. */
  lemma ClosedQueueShrinks(s: State, step: Step)
    requires Reachable(s) && s.closed && Enabled(s, step)
    ensures Do(s, step).closed
    ensures Do(s, step).queue == s.queue || (s.queue != [] && Do(s, step).queue == s.queue[1..])
  {
    ReachableInv(s);
    assert LoopsStopped(s);
    match step {
      case Work(w, k) => assert DoWork(s, w, k).closed;
      case Run(m) => RunKeepsQueue(s, m);
      case _ =>
    }
  }

  lemma RunKeepsQueue(s: State, step: MainStep)
    requires RunEnabled(s, step)
    ensures DoRun(s, step).queue == s.queue && (s.closed ==> DoRun(s, step).closed)
  {
  }

  // ---------------------------------------------------------------------------
  // Draining
  // ---------------------------------------------------------------------------

  /** Steps a worker can still take for what it holds; a queued report is worth one more
      than a fresh send, because taking it off the queue is a step too. */
  function Effort(worker: Worker): nat {
    match worker
    case Exited => 0
    case Ready => 1
    case Failed(_) => 2
    case Sending(_, attempt) => 3 + (if attempt <= RETRIES then RETRIES - attempt else 0)
  }

  function WorkersEffort(workers: seq<Worker>): nat {
    if workers == [] then 0 else Effort(workers[0]) + WorkersEffort(workers[1..])
  }

  function Remaining(s: State): nat {
    (3 + RETRIES) * |s.queue| + WorkersEffort(s.workers)
  }

  lemma {:induction false} EffortUpdate(workers: seq<Worker>, i: nat, worker: Worker)
    requires i < |workers|
    ensures WorkersEffort(workers[i := worker]) == WorkersEffort(workers) - Effort(workers[i]) + Effort(worker)
  {
    if i == 0 {
      assert workers[0 := worker][1..] == workers[1..];
    } else {
      assert workers[i := worker][1..] == workers[1..][i - 1 := worker];
      EffortUpdate(workers[1..], i - 1, worker);
    }
  }

  lemma DrainWork(s: State, w: nat, step: WorkStep)
    requires Control(s) && s.closed && WorkEnabled(s, w, step)
    ensures Remaining(DoWork(s, w, step)) < Remaining(s) && DoWork(s, w, step).closed
  {
    assert WorkerInOrder(s, s.workers[w]);
    EffortUpdate(s.workers, w, NextWorker(s, w, step));
  }

  /** After the close every worker step uses up effort and no other step adds any. */
  lemma DrainStep(s: State, step: Step)
    requires Inv(s) && s.closed && Enabled(s, step)
    ensures step.Work? ==> Remaining(Do(s, step)) < Remaining(s)
    ensures !step.Work? ==> Remaining(Do(s, step)) == Remaining(s)
    ensures Do(s, step).closed
  {
    assert LoopsStopped(s);
    match step {
      case Work(w, k) => DrainWork(s, w, k);
      case Run(m) =>
        RunKeepsQueue(s, m);
        assert DoRun(s, m).workers == s.workers;
      case _ =>
    }
  }

  function WorkSteps(steps: seq<Step>): nat {
    if steps == [] then 0 else (if steps[0].Work? then 1 else 0) + WorkSteps(steps[1..])
  }

  /** No run after the close contains more worker steps than the effort that was left. */
  lemma {:induction false} DrainBounded(s: State, steps: seq<Step>)
    requires Inv(s) && s.closed && Legal(s, steps)
    ensures WorkSteps(steps) + Remaining(Exec(s, steps)) <= Remaining(s)
    ensures Exec(s, steps).closed
    decreases |steps|
  {
    if steps != [] {
      DrainStep(s, steps[0]);
      InvKept(s, steps[0]);
      DrainBounded(Do(s, steps[0]), steps[1..]);
    }
  }

  /** And a worker can always move until all have left, so draining cannot get stuck. */
  lemma DrainProgress(s: State)
    requires Inv(s) && s.closed && !AllExited(s.workers)
    ensures exists w: nat, k :: Enabled(s, Work(w, k))
  {
    var w: nat :| w < |s.workers| && !s.workers[w].Exited?;
    match s.workers[w]
    case Ready =>
      if s.queue == [] {
        assert Enabled(s, Work(w, Exit));
      } else {
        assert Enabled(s, Work(w, Dequeue));
      }
    case Sending(_, _) => assert Enabled(s, Work(w, Attempt(Ack)));
    case Failed(_) => assert Enabled(s, Work(w, RestoreFailed));
  }

  /** From the close on, any schedule in which the workers have made all the steps they can has let
      them all leave with an empty queue, after at most Remaining(s) steps of theirs; then Run's
      second wait can succeed, whatever the sends returned, unless its timeout came first. */
  lemma DrainCompletes(s: State, steps: seq<Step>)
    requires Reachable(s) && s.closed && Legal(s, steps)
    requires forall w: nat, k :: !Enabled(Exec(s, steps), Work(w, k))
    ensures var t := Exec(s, steps);
            && WorkSteps(steps) <= Remaining(s)
            && AllExited(t.workers)
            && (!t.main.Returned? ==> t.queue == [])
            && (t.main.AwaitWorkers? ==> Enabled(t, Run(WorkersJoined)))
  {
    ReachableInv(s);
    InvAlong(s, steps);
    DrainBounded(s, steps);
    var t := Exec(s, steps);
    if !AllExited(t.workers) {
      DrainProgress(t);
    }
    assert WorkerInOrder(t, t.workers[0]);
  }
}
